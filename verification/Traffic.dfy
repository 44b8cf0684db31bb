/** Traffic counters (counter/counter.go, the Hook of cmd/mini-sb-agent/main.go) and
    the payload a panel client builds from a snapshot (panelapi/client.go).

    The source keeps one counter per inbound tag, each a map from user to storage;
    here both levels are one map keyed by (tag, user).  Counters are unbounded. */
module Traffic {
  import opened GoStrings

  // Upload and download bytes.
  datatype Pair = Pair(up: int, down: int) {
    function Plus(p: Pair): Pair { Pair(up + p.up, down + p.down) }
    predicate NonNegative() { 0 <= up && 0 <= down }
    predicate AtMost(p: Pair) { up <= p.up && down <= p.down }
    predicate Positive() { NonNegative() && (up > 0 || down > 0) }
  }

  const ZERO := Pair(0, 0)

  lemma PlusZero(p: Pair)
    ensures p.Plus(ZERO) == p == ZERO.Plus(p)
  {
  }

  datatype Key = Key(tag: string, user: string)

  datatype Storage = Storage(counted: Pair, committed: Pair) {
    function Pending(): Pair { Pair(counted.up - committed.up, counted.down - committed.down) }
    function Commit(p: Pair): Storage { Storage(counted, committed.Plus(p)) }
    predicate Sound() { committed.NonNegative() && committed.AtMost(counted) }
  }

  type Table = map<Key, Storage>
  type Delta = map<Key, Pair>

  predicate SoundTable(t: Table) {
    forall k :: k in t ==> t[k].Sound()
  }

  // Uncommitted traffic: what SnapshotDelta reports.
  function DeltaOf(t: Table): Delta {
    map k | k in t && (t[k].Pending().up > 0 || t[k].Pending().down > 0) :: t[k].Pending()
  }

  function CommitTo(t: Table, d: Delta): Table {
    map k | k in t :: if k in d then t[k].Commit(d[k]) else t[k]
  }

  // RemoveAbsent keeps active users and every storage with uncommitted traffic.
  function Pruned(t: Table, active: set<string>): Table {
    map k | k in t && (k.user in active || t[k].counted != t[k].committed) :: t[k]
  }

  predicate IsNumericUser(user: string) {
    user != "" && forall i :: 0 <= i < |user| ==> IsDigit(user[i])
  }

  predicate HasTraffic(d: Delta) {
    exists k :: k in d && IsNumericUser(k.user)
  }

  datatype Tags = All | Only(tags: set<string>) {
    predicate Has(tag: string) { All? || tag in tags }
  }

  // commitDelta: the numeric users of the given tags.
  function CommitDelta(d: Delta, only: Tags): Delta {
    map k | k in d && only.Has(k.tag) && IsNumericUser(k.user) :: d[k]
  }

  /** Committing a snapshot of the table takes its amounts off what is pending and
      touches nothing else; what arrived since stays pending. */
  lemma CommitSubtracts(t: Table, d: Delta, k: Key)
    requires k in t
    ensures CommitTo(t, d)[k].Pending()
            == if k in d then Pair(t[k].Pending().up - d[k].up, t[k].Pending().down - d[k].down) else t[k].Pending()
    ensures CommitTo(t, d)[k].counted == t[k].counted
  {
  }

  class TrafficTable {
    var table: Table

    constructor ()
      ensures table == map[]
    {
      table := map[];
    }

    // A connection's counter: created on first use, then bytes are added.
    method Count(inboundTag: string, user: string, bytes: Pair)
      requires bytes.NonNegative() && SoundTable(table)
      modifies this
      ensures SoundTable(table)
      ensures var k := Key(if inboundTag == "" then "default" else inboundTag, user);
              table == old(table)[k := Storage((if k in old(table) then old(table)[k].counted else ZERO).Plus(bytes),
                                               if k in old(table) then old(table)[k].committed else ZERO)]
    {
      var k := Key(if inboundTag == "" then "default" else inboundTag, user);
      if k !in table {
        table := table[k := Storage(ZERO, ZERO)];
      }
      table := table[k := Storage(table[k].counted.Plus(bytes), table[k].committed)];
    }

    method SnapshotDelta() returns (out: Delta)
      ensures out == DeltaOf(table)
      ensures forall k :: k in out <==> k in table && (table[k].counted.up > table[k].committed.up || table[k].counted.down > table[k].committed.down)
      ensures forall k :: k in out ==> out[k].up == table[k].counted.up - table[k].committed.up && out[k].down == table[k].counted.down - table[k].committed.down
    {
      out := map[];
      var todo := table.Keys;
      while todo != {}
        invariant todo <= table.Keys
        invariant out == map k | k in DeltaOf(table) && k !in todo :: DeltaOf(table)[k]
      {
        var k :| k in todo;
        var p := table[k].Pending();
        if p.up > 0 || p.down > 0 {
          out := out[k := p];
        }
        todo := todo - {k};
      }
    }

    method CommitSnapshot(snapshot: Delta)
      modifies this
      ensures table == CommitTo(old(table), snapshot)
    {
      var todo := snapshot.Keys;
      while todo != {}
        invariant todo <= snapshot.Keys && table.Keys == old(table).Keys
        invariant forall k :: k in table ==> table[k] == if k in snapshot && k !in todo then old(table)[k].Commit(snapshot[k]) else old(table)[k]
      {
        var k :| k in todo;
        if k in table {
          table := table[k := table[k].Commit(snapshot[k])];
        }
        todo := todo - {k};
      }
    }

    method RemoveAbsent(active: set<string>)
      modifies this
      ensures table == Pruned(old(table), active)
      ensures forall k :: k in table <==> k in old(table) && (k.user in active || old(table)[k].counted != old(table)[k].committed)
      ensures forall k :: k in table ==> table[k] == old(table)[k]
      ensures forall k :: k in old(table) && k !in table ==> old(table)[k].Pending() == ZERO
    {
      var todo := table.Keys;
      while todo != {}
        invariant todo <= table.Keys <= old(table).Keys
        invariant forall k :: k in table ==> table[k] == old(table)[k]
        invariant forall k :: k in old(table) && k !in todo ==> (k in table <==> k in Pruned(old(table), active))
      {
        var k :| k in todo;
        if k.user !in active && table[k].counted == table[k].committed {
          table := table - {k};
        }
        todo := todo - {k};
      }
    }
  }

  // ---- One client's push ----

  datatype Client = Client(inboundTag: string, nodeType: string)

  predicate MatchesInbound(c: Client, tag: string) {
    if c.inboundTag != "" then tag == c.inboundTag
    else
      var t := ToLower(c.nodeType);
      if t in {"vless", "vless-reality", "reality"} then tag == "vless-in"
      else if t in {"hy2", "hysteria", "hysteria2"} then tag == "hy2-in"
      else Contains(ToLower(tag), t)
  }

  // strconv.Atoi succeeds on an all-digit string iff its value fits an int.
  predicate Fits(user: string) {
    IsNumericUser(user) && Value(user) <= MAX_INT
  }

  // Every element of s exactly once.
  ghost predicate Lists<T(!new)>(order: seq<T>, s: set<T>) {
    && (forall x :: x in order <==> x in s)
    && (forall i, j :: 0 <= i < j < |order| ==> order[i] != order[j])
  }

  // The bytes a client owes a user, summed over the tags it matches.
  function Flattened(c: Client, d: Delta, keys: seq<Key>, user: string): Pair
    requires forall k :: k in keys ==> k in d
  {
    if keys == [] then ZERO
    else
      var k, before := keys[|keys| - 1], Flattened(c, d, keys[..|keys| - 1], user);
      if MatchesInbound(c, k.tag) && k.user == user && IsNumericUser(user) then before.Plus(d[k]) else before
  }

  // payload[Atoi(user)] = amount, in the given order: a later user overwrites an
  // earlier one with the same number, and an unparsable user is skipped.
  function PayloadOf(users: seq<string>, flat: map<string, Pair>): map<int, Pair>
    requires forall u :: u in users ==> u in flat
  {
    if users == [] then map[]
    else
      var u, before := users[|users| - 1], PayloadOf(users[..|users| - 1], flat);
      if Fits(u) then before[Value(u) := flat[u]] else before
  }

  // The first loop of Client.PushTraffic, in whatever order the map yields.
  method Flatten(c: Client, d: Delta) returns (acked: set<string>, flat: map<string, Pair>, ghost keys: seq<Key>)
    ensures acked == set k | k in d && MatchesInbound(c, k.tag) :: k.tag
    ensures Lists(keys, d.Keys)
    ensures flat.Keys == set k | k in d && MatchesInbound(c, k.tag) && IsNumericUser(k.user) :: k.user
    ensures forall u :: u in flat ==> flat[u] == Flattened(c, d, keys, u)
  {
    hide MatchesInbound, IsNumericUser;
    acked, flat, keys := {}, map[], [];
    var todo := d.Keys;
    while todo != {}
      invariant todo <= d.Keys && Lists(keys, d.Keys - todo)
      invariant acked == set k | k in d && k !in todo && MatchesInbound(c, k.tag) :: k.tag
      invariant flat.Keys == set k | k in d && k !in todo && MatchesInbound(c, k.tag) && IsNumericUser(k.user) :: k.user
      invariant forall u :: Flattened(c, d, keys, u) == if u in flat then flat[u] else ZERO
    {
      var k :| k in todo;
      if MatchesInbound(c, k.tag) {
        acked := acked + {k.tag};
        if IsNumericUser(k.user) {
          flat := flat[k.user := (if k.user in flat then flat[k.user] else ZERO).Plus(d[k])];
        }
      }
      assert (keys + [k])[..|keys|] == keys;
      keys, todo := keys + [k], todo - {k};
    }
    assert d.Keys - todo == d.Keys;
  }

  // The second loop: numbers the users, in whatever order the map yields.
  method Encode(flat: map<string, Pair>) returns (payload: map<int, Pair>, ghost users: seq<string>)
    requires forall u :: u in flat ==> IsNumericUser(u)
    ensures Lists(users, flat.Keys) && payload == PayloadOf(users, flat)
  {
    payload, users := map[], [];
    var todo := flat.Keys;
    while todo != {}
      invariant todo <= flat.Keys && Lists(users, flat.Keys - todo)
      invariant payload == PayloadOf(users, flat)
    {
      var u :| u in todo;
      if Value(u) <= MAX_INT {
        payload := payload[Value(u) := flat[u]];
      }
      assert (users + [u])[..|users|] == users;
      users, todo := users + [u], todo - {u};
    }
    assert flat.Keys - todo == flat.Keys;
  }

  // ---- When a payload carries exactly what it stands for ----

  // The account number a user stands for, however large.
  function Number(user: string): int {
    if IsNumericUser(user) then Value(user) else -1
  }

  // What the users of one account number owe together.
  function Owed(users: seq<string>, flat: map<string, Pair>, uid: int): Pair
    requires forall u :: u in users ==> u in flat
  {
    if users == [] then ZERO
    else
      var u, before := users[|users| - 1], Owed(users[..|users| - 1], flat, uid);
      if Number(u) == uid then before.Plus(flat[u]) else before
  }

  function Booked(payload: map<int, Pair>, uid: int): Pair {
    if uid in payload then payload[uid] else ZERO
  }

  // Every account is charged what its users owe.
  ghost predicate Exact(users: seq<string>, flat: map<string, Pair>)
    requires forall u :: u in users ==> u in flat
  {
    forall uid :: Booked(PayloadOf(users, flat), uid) == Owed(users, flat, uid)
  }

  predicate DifferentNumbers(users: seq<string>) {
    forall i, j :: 0 <= i < j < |users| ==> Number(users[i]) != Number(users[j])
  }

  // No number is written twice in different ways, and none is too large.
  predicate NoAlias(users: seq<string>) {
    (forall u :: u in users ==> Fits(u)) && DifferentNumbers(users)
  }

  lemma {:induction false} OwedFacts(users: seq<string>, flat: map<string, Pair>, uid: int)
    requires forall u :: u in users ==> u in flat && IsNumericUser(u) && flat[u].Positive()
    ensures Owed(users, flat, uid).NonNegative()
    ensures Owed(users, flat, uid) == ZERO <==> forall u :: u in users ==> Number(u) != uid
    ensures uid in PayloadOf(users, flat) <==> exists u :: u in users && Fits(u) && Number(u) == uid
  {
    if users != [] {
      var front, last := users[..|users| - 1], users[|users| - 1];
      OwedFacts(front, flat, uid);
      assert users == front + [last];
    }
  }

  /** A user is billed by number if and only if its name is a decimal numeral. */
  lemma NumericMeans(u: string)
    ensures IsNumericUser(u) <==> |u| > 0 && forall c :: c in u ==> c in "0123456789"
  {
    assert forall c :: IsDigit(c) <==> c in "0123456789";
    if IsNumericUser(u) {
    } else if u != "" {
      var i :| 0 <= i < |u| && !IsDigit(u[i]);
      assert u[i] in u;
    }
  }

  lemma FitsMeans(u: string)
    requires IsNumericUser(u)
    ensures Fits(u) <==> Number(u) <= 9223372036854775807
  {
  }

  /** A push is exact for every account if and only if the users in it are pairwise
      different numbers that fit: otherwise two spellings such as "7" and "007"
      overwrite each other, or a huge number is dropped, though all are acknowledged. */
  lemma PayloadExactIff(users: seq<string>, flat: map<string, Pair>)
    requires forall u :: u in users ==> u in flat && IsNumericUser(u) && flat[u].Positive()
    ensures Exact(users, flat) <==> NoAlias(users)
  {
    hide PayloadOf, Owed, Number;
    if forall u :: u in users ==> Fits(u) {
      FittingExactIff(users, flat);
    } else {
      var u :| u in users && !Fits(u);
      OwedFacts(users, flat, Number(u));
      forall v | v in users && Fits(v)
        ensures Number(v) != Number(u)
      {
        FitsMeans(u);
        FitsMeans(v);
      }
      assert Booked(PayloadOf(users, flat), Number(u)) == ZERO != Owed(users, flat, Number(u));
    }
  }

  lemma {:induction false} FittingExactIff(users: seq<string>, flat: map<string, Pair>)
    requires forall u :: u in users ==> u in flat && IsNumericUser(u) && Fits(u) && flat[u].Positive()
    ensures Exact(users, flat) <==> DifferentNumbers(users)
  {
    hide PayloadOf, Owed, Number, Fits, IsNumericUser;
    if users == [] {
      ExactWhenEmpty(flat);
    } else {
      var front, last := users[..|users| - 1], users[|users| - 1];
      assert users == front + [last];
      assert last in users;
      FittingExactIff(front, flat);
      LastUser(front, last, flat);
      OwedFacts(front, flat, Number(last));
      if Exact(users, flat) {
        assert Booked(PayloadOf(users, flat), Number(last)) == Owed(users, flat, Number(last));
        assert Owed(front, flat, Number(last)) == ZERO;
        forall uid
          ensures Booked(PayloadOf(front, flat), uid) == Owed(front, flat, uid)
        {
          assert Booked(PayloadOf(users, flat), uid) == Owed(users, flat, uid);
          if uid == Number(last) { assert uid !in PayloadOf(front, flat); }
        }
        assert Exact(front, flat);
      }
      if DifferentNumbers(users) {
        forall u | u in front
          ensures Number(u) != Number(last)
        {
          var i :| 0 <= i < |front| && front[i] == u;
          assert users[i] == u && users[|front|] == last;
        }
        assert DifferentNumbers(front);
      }
    }
  }

  lemma ExactWhenEmpty(flat: map<string, Pair>)
    ensures Exact([], flat)
  {
  }

  // What appending one parsable user does to the payload and to what is owed.
  lemma LastUser(front: seq<string>, last: string, flat: map<string, Pair>)
    requires forall u :: u in front + [last] ==> u in flat
    requires Fits(last)
    ensures var users := front + [last];
            forall uid :: Booked(PayloadOf(users, flat), uid)
                          == (if uid == Number(last) then flat[last] else Booked(PayloadOf(front, flat), uid))
                       && Owed(users, flat, uid)
                          == (if uid == Number(last) then Owed(front, flat, uid).Plus(flat[last]) else Owed(front, flat, uid))
  {
    assert (front + [last])[..|front|] == front;
  }

  /** The failing family at its smallest: user 7 and user 007 are both acknowledged,
      but whichever comes first loses its bytes. */
  lemma AliasLosesBytes()
    ensures var flat := map["7" := Pair(10, 0), "007" := Pair(5, 0)];
            && Lists(["7", "007"], flat.Keys)
            && !Exact(["7", "007"], flat) && !Exact(["007", "7"], flat)
  {
    var flat := map["7" := Pair(10, 0), "007" := Pair(5, 0)];
    assert "7"[..0] == "" && "007"[..2] == "00" && "00"[..1] == "0" && "0"[..0] == "";
    assert Value("") == 0 && Value("0") == 0 && Value("00") == 0;
    assert Value("7") == 7 && Value("007") == 7;
    assert ["7", "007"][0] == "7" && ["7", "007"][1] == "007";
    assert ["007", "7"][0] == "007" && ["007", "7"][1] == "7";
    PayloadExactIff(["7", "007"], flat);
    PayloadExactIff(["007", "7"], flat);
  }

  /** Users written as the agent writes ids never collide. */
  lemma CanonicalUsersNeverAlias(users: seq<string>)
    requires forall u :: u in users ==> Canonical(u) && Value(u) <= MAX_INT
    requires forall i, j :: 0 <= i < j < |users| ==> users[i] != users[j]
    ensures NoAlias(users)
  {
    assert forall i :: 0 <= i < |users| ==> users[i] in users && Canonical(users[i]);
    forall i, j | 0 <= i < j < |users|
      ensures Number(users[i]) != Number(users[j])
    {
      ItoaOfValue(users[i]);
      ItoaOfValue(users[j]);
    }
  }

  /** A number too large for an int is acknowledged and lost. */
  lemma HugeNumberLost(user: string)
    requires IsNumericUser(user) && Value(user) > MAX_INT
    ensures !Exact([user], map[user := Pair(10, 0)])
  {
    assert user in [user] && !Fits(user);
    PayloadExactIff([user], map[user := Pair(10, 0)]);
  }

  // ---- The payload of any client ----

  // The payload some iteration order builds.
  ghost predicate PayloadFrom(c: Client, d: Delta, payload: map<int, Pair>) {
    exists keys: seq<Key>, users: seq<string>, flat: map<string, Pair> ::
      && Lists(keys, d.Keys) && Lists(users, flat.Keys) && FlatOf(c, d, keys, flat)
      && payload == PayloadOf(users, flat)
  }

  ghost predicate FlatOf(c: Client, d: Delta, keys: seq<Key>, flat: map<string, Pair>)
    requires Lists(keys, d.Keys)
  {
    && flat.Keys == (set k | k in d && MatchesInbound(c, k.tag) && IsNumericUser(k.user) :: k.user)
    && forall u :: u in flat ==> flat[u] == Flattened(c, d, keys, u)
  }

  // The tags a client acknowledges.
  function AckedBy(c: Client, d: Delta): set<string> {
    set k | k in d && MatchesInbound(c, k.tag) :: k.tag
  }

  /** Client.PushTraffic up to the request. */
  method ClientPayload(c: Client, d: Delta) returns (acked: set<string>, payload: map<int, Pair>)
    ensures acked == AckedBy(c, d)
    ensures PayloadFrom(c, d, payload)
  {
    var flat;
    ghost var keys, users;
    acked, flat, keys := Flatten(c, d);
    payload, users := Encode(flat);
  }

  // The agent's own spelling of users, for the tags it bills.
  predicate WellNamed(k: Key) {
    IsNumericUser(k.user) ==> Canonical(k.user) && Value(k.user) <= MAX_INT
  }

  function Amount(d: Delta, k: Key): Pair {
    if k in d then d[k] else ZERO
  }

  predicate Bills(c: Client, k: Key, uid: nat) {
    MatchesInbound(c, k.tag) && k.user == Itoa(uid)
  }

  // What a snapshot holds for one account of a client, key by key.
  function CarriedAt(c: Client, d: Delta, uid: nat, k: Key): Pair {
    if Bills(c, k, uid) then Amount(d, k) else ZERO
  }

  function Carried(c: Client, d: Delta, uid: nat): Key -> Pair {
    (k: Key) => CarriedAt(c, d, uid, k)
  }

  predicate Unrepeated(keys: seq<Key>) {
    forall i, j :: 0 <= i < j < |keys| ==> keys[i] != keys[j]
  }

  /** With well-named users every order yields the same payload, and it carries exactly the
      bytes of each account, summed over the tags the client matches. */
  lemma PayloadCarries(c: Client, d: Delta, payload: map<int, Pair>, uid: nat, keys: seq<Key>)
    requires PayloadFrom(c, d, payload)
    requires forall k :: k in d && MatchesInbound(c, k.tag) ==> WellNamed(k)
    requires Unrepeated(keys) && forall k :: k in d ==> k in keys
    ensures Booked(payload, uid) == Sum(keys, Carried(c, d, uid))
  {
    hide MatchesInbound, IsNumericUser, Itoa, PayloadOf, Flattened, Sum, Canonical, Value;
    var order: seq<Key>, users: seq<string>, flat: map<string, Pair> :| Lists(order, d.Keys) && Lists(users, flat.Keys) && FlatOf(c, d, order, flat)
                              && payload == PayloadOf(users, flat);
    forall u | u in users
      ensures u in flat && Canonical(u) && Fits(u)
    {
      var k :| k in d && MatchesInbound(c, k.tag) && IsNumericUser(k.user) && k.user == u;
      assert WellNamed(k);
    }
    CanonicalPayload(users, flat, uid);
    FlattenedIsSum(c, d, order, uid, keys);
    if Itoa(uid) !in flat {
      forall k | k in keys
        ensures Carried(c, d, uid)(k) == ZERO
      {
        NumericItoa(uid);
      }
      SumZero(keys, Carried(c, d, uid));
    }
  }

  lemma NumericItoa(n: nat)
    ensures IsNumericUser(Itoa(n))
  {
  }

  // ---- Which client bills which tag ----

  /** Clients with their own tag match it alone. */
  lemma OwnTagMatches(c: Client, tag: string)
    requires c.inboundTag != ""
    ensures MatchesInbound(c, tag) <==> tag == c.inboundTag
  {
  }

  /** Without one, the three names of VLESS stand for vless-in and the three of Hysteria 2 for
      hy2-in; any other type matches the tags that contain it, whatever the case. */
  lemma TypeMatches(nodeType: string, tag: string)
    ensures ToLower(nodeType) in {"vless", "vless-reality", "reality"} ==> (MatchesInbound(Client("", nodeType), tag) <==> tag == "vless-in")
    ensures ToLower(nodeType) in {"hy2", "hysteria", "hysteria2"} ==> (MatchesInbound(Client("", nodeType), tag) <==> tag == "hy2-in")
    ensures ToLower(nodeType) !in {"vless", "vless-reality", "reality", "hy2", "hysteria", "hysteria2"} ==>
              (MatchesInbound(Client("", nodeType), tag) <==> exists i :: 0 <= i <= |ToLower(tag)| && ToLower(nodeType) <= ToLower(tag)[i..])
  {
    hide ToLower;
  }

  /** A client that matches one tag acknowledges that tag alone, and books for each user
      exactly what the snapshot holds under it. */
  lemma OneTagBills(c: Client, only: string, d: Delta, payload: map<int, Pair>, uid: nat)
    requires (forall tag :: MatchesInbound(c, tag) <==> tag == only) && PayloadFrom(c, d, payload)
    requires forall k :: k in d && k.tag == only ==> WellNamed(k)
    ensures Booked(payload, uid) == Amount(d, Key(only, Itoa(uid)))
    ensures AckedBy(c, d) == set k | k in d && k.tag == only :: k.tag
  {
    hide MatchesInbound, WellNamed, Itoa, PayloadFrom, Sum, Pair.Plus;
    var keys := SomeOrder(d.Keys);
    PayloadCarries(c, d, payload, uid, keys);
    var k := Key(only, Itoa(uid));
    var none := (x: Key) => ZERO;
    SumZero(keys, none);
    SumChanged(keys, none, Carried(c, d, uid), k);
    PlusZero(Amount(d, k));
  }

  lemma {:induction false} SomeOrder<T(!new)>(s: set<T>) returns (order: seq<T>)
    ensures Lists(order, s)
    decreases |s|
  {
    if s == {} {
      order := [];
    } else {
      var x :| x in s;
      var more := SomeOrder(s - {x});
      order := more + [x];
    }
  }

  /** So a Hysteria 2 client bills exactly the traffic of hy2-in, and a VLESS client that of
      vless-in. */
  lemma ProtocolBills(nodeType: string, d: Delta, payload: map<int, Pair>, uid: nat)
    requires PayloadFrom(Client("", nodeType), d, payload) && forall k :: k in d ==> WellNamed(k)
    ensures ToLower(nodeType) in {"hy2", "hysteria", "hysteria2"} ==>
              && Booked(payload, uid) == Amount(d, Key("hy2-in", Itoa(uid)))
              && AckedBy(Client("", nodeType), d) == set k | k in d && k.tag == "hy2-in" :: k.tag
    ensures ToLower(nodeType) in {"vless", "vless-reality", "reality"} ==>
              && Booked(payload, uid) == Amount(d, Key("vless-in", Itoa(uid)))
              && AckedBy(Client("", nodeType), d) == set k | k in d && k.tag == "vless-in" :: k.tag
  {
    hide MatchesInbound, ToLower, WellNamed, PayloadFrom, Itoa;
    forall tag { TypeMatches(nodeType, tag); }
    if ToLower(nodeType) in {"hy2", "hysteria", "hysteria2"} { OneTagBills(Client("", nodeType), "hy2-in", d, payload, uid); }
    if ToLower(nodeType) in {"vless", "vless-reality", "reality"} { OneTagBills(Client("", nodeType), "vless-in", d, payload, uid); }
  }

  // The part of Carried that lies in `order`.
  function CarriedIn(c: Client, d: Delta, uid: nat, order: seq<Key>): Key -> Pair {
    (k: Key) => if k in order then CarriedAt(c, d, uid, k) else ZERO
  }

  lemma FlattenedLast(c: Client, d: Delta, front: seq<Key>, last: Key, uid: nat)
    requires forall k :: k in front + [last] ==> k in d
    ensures Flattened(c, d, front + [last], Itoa(uid)) == Flattened(c, d, front, Itoa(uid)).Plus(CarriedAt(c, d, uid, last))
  {
    hide MatchesInbound, IsNumericUser, Itoa;
    NumericItoa(uid);
    assert (front + [last])[..|front|] == front;
  }

  lemma {:induction false} FlattenedPart(c: Client, d: Delta, order: seq<Key>, uid: nat, keys: seq<Key>)
    requires Unrepeated(keys) && Unrepeated(order) && forall k :: k in order ==> k in d && k in keys
    ensures Flattened(c, d, order, Itoa(uid)) == Sum(keys, CarriedIn(c, d, uid, order))
    decreases |order|
  {
    hide MatchesInbound, IsNumericUser, Itoa, Sum, CarriedAt;
    if order == [] {
      SumZero(keys, CarriedIn(c, d, uid, order));
    } else {
      var front, last := order[..|order| - 1], order[|order| - 1];
      assert order == front + [last];
      assert last in order;
      FlattenedPart(c, d, front, uid, keys);
      FlattenedLast(c, d, front, last, uid);
      SumChanged(keys, CarriedIn(c, d, uid, front), CarriedIn(c, d, uid, order), last);
    }
  }

  lemma FlattenedIsSum(c: Client, d: Delta, order: seq<Key>, uid: nat, keys: seq<Key>)
    requires Lists(order, d.Keys) && Unrepeated(keys) && forall k :: k in d ==> k in keys
    ensures Flattened(c, d, order, Itoa(uid)) == Sum(keys, Carried(c, d, uid))
  {
    hide MatchesInbound, IsNumericUser, Itoa, Sum, Flattened;
    FlattenedPart(c, d, order, uid, keys);
    SumSame(keys, CarriedIn(c, d, uid, order), Carried(c, d, uid));
  }

  lemma {:induction false} CanonicalPayload(users: seq<string>, flat: map<string, Pair>, uid: nat)
    requires forall u :: u in users ==> u in flat && Canonical(u) && Fits(u)
    ensures Booked(PayloadOf(users, flat), uid) == if Itoa(uid) in users then flat[Itoa(uid)] else ZERO
  {
    if users != [] {
      var front, last := users[..|users| - 1], users[|users| - 1];
      assert users == front + [last] && last in users;
      CanonicalPayload(front, flat, uid);
      ItoaOfValue(last);
      ValueOfItoa(uid);
    }
  }

  // ---- Sums over keys ----

  function Sum(keys: seq<Key>, f: Key -> Pair): Pair {
    if keys == [] then ZERO else Sum(keys[..|keys| - 1], f).Plus(f(keys[|keys| - 1]))
  }

  lemma {:induction false} SumSame(keys: seq<Key>, f: Key -> Pair, g: Key -> Pair)
    requires forall k :: k in keys ==> f(k) == g(k)
    ensures Sum(keys, f) == Sum(keys, g)
  {
    if keys != [] { SumSame(keys[..|keys| - 1], f, g); }
  }

  lemma {:induction false} SumZero(keys: seq<Key>, f: Key -> Pair)
    requires forall k :: k in keys ==> f(k) == ZERO
    ensures Sum(keys, f) == ZERO
  {
    if keys != [] { SumZero(keys[..|keys| - 1], f); }
  }

  lemma {:induction false} SumPlus(keys: seq<Key>, f: Key -> Pair, g: Key -> Pair, h: Key -> Pair)
    requires forall k :: k in keys ==> h(k) == f(k).Plus(g(k))
    ensures Sum(keys, h) == Sum(keys, f).Plus(Sum(keys, g))
  {
    if keys != [] { SumPlus(keys[..|keys| - 1], f, g, h); }
  }

  lemma {:induction false} SumAtMost(keys: seq<Key>, f: Key -> Pair, g: Key -> Pair)
    requires forall k :: k in keys ==> f(k).AtMost(g(k))
    ensures Sum(keys, f).AtMost(Sum(keys, g))
  {
    if keys != [] { SumAtMost(keys[..|keys| - 1], f, g); }
  }

  // Two functions that differ at one key, where the first is zero.
  lemma {:induction false} SumChanged(keys: seq<Key>, f: Key -> Pair, g: Key -> Pair, at: Key)
    requires Unrepeated(keys) && f(at) == ZERO
    requires forall k :: k in keys && k != at ==> f(k) == g(k)
    ensures Sum(keys, g) == if at in keys then Sum(keys, f).Plus(g(at)) else Sum(keys, f)
  {
    if keys != [] {
      var front, last := keys[..|keys| - 1], keys[|keys| - 1];
      assert keys == front + [last];
      if last == at {
        assert at !in front;
        SumSame(front, f, g);
      } else {
        SumChanged(front, f, g, at);
      }
    }
  }
}
