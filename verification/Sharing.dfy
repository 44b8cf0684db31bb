/** When every byte is billed once in all: MultiPanel's clients are matched by protocol type,
    and nothing stops two of them from matching one inbound tag. */
module Sharing {
  import opened GoStrings
  import opened Traffic
  import opened Billing

  // What all clients' panel nodes together have booked for a user.
  function TotalBilled(panel: Account -> Pair, n: nat, uid: nat): Pair {
    if n == 0 then ZERO else TotalBilled(panel, n - 1, uid).Plus(panel(Account(n - 1, uid)))
  }

  // Some client below n matches the key.
  predicate Matched(cfg: Config, n: nat, k: Key) {
    exists i :: 0 <= i < n && cfg.Matches(i, k)
  }

  // The part of f that belongs to the user and that some client below n matches.
  function PartMatched(cfg: Config, n: nat, f: Key -> Pair, uid: nat): Key -> Pair {
    (k: Key) => if Matched(cfg, n, k) && k.user == Itoa(uid) then f(k) else ZERO
  }

  /** Between flushes, the bookings for each user come to what is committed for that user
      under matched tags: no byte is billed twice and none is committed unbilled. */
  ghost predicate EachByteOnce(cfg: Config, e: State) {
    forall uid: nat :: TotalBilled(e.panel, |cfg.clients|, uid) == Sum(cfg.keys, PartMatched(cfg, |cfg.clients|, CommittedOf(e), uid))
  }

  // ---- Unshared traffic ----

  lemma {:induction false} TotalIsSum(cfg: Config, panel: Account -> Pair, n: nat, f: Key -> Pair, uid: nat)
    requires cfg.Unshared() && n <= |cfg.clients|
    requires forall i: nat :: i < n ==> panel(Account(i, uid)) == Due(cfg, Account(i, uid), f)
    ensures TotalBilled(panel, n, uid) == Sum(cfg.keys, PartMatched(cfg, n, f, uid))
  {
    hide Sum, Config.Unshared, Bills, Itoa, Matched, Pair.Plus;
    if n == 0 {
      forall k
        ensures PartMatched(cfg, 0, f, uid)(k) == ZERO
      {
        NoneMatched(cfg, k);
      }
      SumZero(cfg.keys, PartMatched(cfg, 0, f, uid));
    } else {
      TotalIsSum(cfg, panel, n - 1, f, uid);
      var a := Account(n - 1, uid);
      forall k | k in cfg.keys
        ensures PartMatched(cfg, n, f, uid)(k) == PartMatched(cfg, n - 1, f, uid)(k).Plus(Part(cfg, a, f)(k))
      {
        OneMore(cfg, n, k, uid);
        PlusZero(f(k));
        PlusZero(ZERO);
      }
      SumPlus(cfg.keys, PartMatched(cfg, n - 1, f, uid), Part(cfg, a, f), PartMatched(cfg, n, f, uid));
    }
  }

  lemma NoneMatched(cfg: Config, k: Key)
    ensures !Matched(cfg, 0, k)
  {
  }

  // A further client matches what was matched before, or its own, never both.
  lemma OneMore(cfg: Config, n: nat, k: Key, uid: nat)
    requires cfg.Unshared() && 0 < n <= |cfg.clients| && k in cfg.keys
    ensures k.user == Itoa(uid) ==>
              && (Matched(cfg, n, k) <==> Matched(cfg, n - 1, k) || Bills(cfg.clients[n - 1], k, uid))
              && !(Matched(cfg, n - 1, k) && Bills(cfg.clients[n - 1], k, uid))
    ensures k.user != Itoa(uid) ==> !Bills(cfg.clients[n - 1], k, uid)
  {
    hide MatchesInbound, IsNumericUser, Itoa;
    NumericItoa(uid);
    if Bills(cfg.clients[n - 1], k, uid) { assert cfg.Matches(n - 1, k); }
  }

  lemma UnsharedOnce(cfg: Config, s: State, steps: seq<Step>)
    requires cfg.Valid() && cfg.Unshared() && Init(s) && IsRun(cfg, s, steps) && After(cfg, s, steps).phase.Idle?
    ensures EachByteOnce(cfg, After(cfg, s, steps))
  {
    hide Sum, Config.Unshared, Config.Valid, IsRun, After, Init, Due, CommittedOf, PartMatched, TotalBilled;
    var e := After(cfg, s, steps);
    forall uid: nat
      ensures TotalBilled(e.panel, |cfg.clients|, uid) == Sum(cfg.keys, PartMatched(cfg, |cfg.clients|, CommittedOf(e), uid))
    {
      forall i: nat | i < |cfg.clients|
        ensures e.panel(Account(i, uid)) == Due(cfg, Account(i, uid), CommittedOf(e))
      {
        ExactlyOnce(cfg, s, steps, Account(i, uid));
      }
      TotalIsSum(cfg, e.panel, |cfg.clients|, CommittedOf(e), uid);
    }
  }

  // ---- Shared traffic ----

  lemma {:induction false} Extend(cfg: Config, s: State, steps: seq<Step>, step: Step)
    requires IsRun(cfg, s, steps) && Enabled(cfg, After(cfg, s, steps), step)
    ensures IsRun(cfg, s, steps + [step]) && After(cfg, s, steps + [step]) == Next(cfg, After(cfg, s, steps), step)
    decreases |steps|
  {
    hide Enabled, Next;
    if steps == [] {
      assert steps + [step] == [step];
      assert [step][1..] == [];
    } else {
      Extend(cfg, Next(cfg, s, steps[0]), steps[1..], step);
      assert (steps + [step])[1..] == steps[1..] + [step];
    }
  }

  lemma SomePayload(c: Client, d: Delta) returns (payload: map<int, Pair>)
    ensures PayloadFrom(c, d, payload)
  {
    hide MatchesInbound, IsNumericUser, PayloadOf, Flattened;
    var keys := SomeOrder(d.Keys);
    var names := set k | k in d && MatchesInbound(c, k.tag) && IsNumericUser(k.user) :: k.user;
    var flat := map u | u in names :: Flattened(c, d, keys, u);
    var users := SomeOrder(flat.Keys);
    payload := PayloadOf(users, flat);
    assert FlatOf(c, d, keys, flat);
  }

  const ONE := Pair(1, 0)

  const EMPTY: State := State(map[], (a: Account) => ZERO, Idle, (k: Key) => ZERO, (k: Key) => ZERO, true, true)

  lemma OnePending()
    ensures Storage(ONE, ZERO).Pending() == ONE
  {
  }

  // One byte has arrived for k, and a flush has begun.
  lemma ArriveOne(cfg: Config, k: Key) returns (steps: seq<Step>)
    requires k in cfg.keys
    ensures Init(EMPTY) && IsRun(cfg, EMPTY, steps)
    ensures var e := After(cfg, EMPTY, steps);
            && e.table == map[k := Storage(ONE, ZERO)] && (forall x :: e.retired(x) == ZERO) && e.flawless
            && e.phase == Reading({k}, {}, Nothing, map[])
  {
    hide Pair.Plus;
    PlusZero(ONE);
    assert IsRun(cfg, EMPTY, []) && After(cfg, EMPTY, []) == EMPTY;
    Extend(cfg, EMPTY, [], Arrive(k, ONE));
    steps := [] + [Arrive(k, ONE)];
    assert After(cfg, EMPTY, steps).table == map[k := Storage(ONE, ZERO)];
    Extend(cfg, EMPTY, steps, Begin);
    steps := steps + [Begin];
  }

  // The flush has read it.
  lemma ReadOne(cfg: Config, k: Key) returns (steps: seq<Step>)
    requires k in cfg.keys && IsNumericUser(k.user)
    ensures Init(EMPTY) && IsRun(cfg, EMPTY, steps)
    ensures var e := After(cfg, EMPTY, steps);
            && e.table == map[k := Storage(ONE, ZERO)] && (forall x :: e.retired(x) == ZERO) && e.flawless
            && e.phase == Pushing(map[k := ONE], 0, {}, {}, false)
  {
    hide IsNumericUser, PayloadFrom, IsRun, After, Init, Storage.Pending;
    OnePending();
    steps := ArriveOne(cfg, k);
    Extend(cfg, EMPTY, steps, ReadUp(k));
    steps := steps + [ReadUp(k)];
    Extend(cfg, EMPTY, steps, ReadDown);
    steps := steps + [ReadDown];
    var e := After(cfg, EMPTY, steps);
    assert e.phase.delta == map[k := ONE] && k in e.phase.delta;
    Extend(cfg, EMPTY, steps, EndRead);
    steps := steps + [EndRead];
  }

  // Every client's push succeeds.
  lemma {:induction false} PushAll(cfg: Config, s: State, steps: seq<Step>) returns (all: seq<Step>)
    requires IsRun(cfg, s, steps)
    requires var e := After(cfg, s, steps); e.phase.Pushing? && e.phase.next <= |cfg.clients| && !e.phase.failed
    ensures IsRun(cfg, s, all)
    ensures var e, e' := After(cfg, s, steps), After(cfg, s, all);
            && e'.phase.Pushing? && e'.phase.next == |cfg.clients| && !e'.phase.failed && e'.phase.delta == e.phase.delta
            && e'.table == e.table && e'.retired == e.retired && e'.flawless == e.flawless
    decreases |cfg.clients| - After(cfg, s, steps).phase.next
  {
    hide IsRun, After, PayloadFrom, AckedBy, BookedAt;
    var e := After(cfg, s, steps);
    if e.phase.next == |cfg.clients| {
      all := steps;
    } else {
      var payload := SomePayload(cfg.clients[e.phase.next], e.phase.delta);
      Extend(cfg, s, steps, Push(true, payload));
      all := PushAll(cfg, s, steps + [Push(true, payload)]);
    }
  }

  // A whole flush of one byte, with nothing going wrong.
  lemma FlushOne(cfg: Config, k: Key) returns (steps: seq<Step>)
    requires k in cfg.keys && IsNumericUser(k.user)
    ensures Init(EMPTY) && IsRun(cfg, EMPTY, steps)
    ensures var e := After(cfg, EMPTY, steps);
            && e.phase.Idle? && e.flawless && e.table == map[k := Storage(ONE, ONE)] && forall x :: e.retired(x) == ZERO
  {
    hide IsRun, After, PayloadFrom, IsNumericUser, Init;
    var read := ReadOne(cfg, k);
    steps := PushAll(cfg, EMPTY, read);
    var e := After(cfg, EMPTY, steps);
    assert CommitDelta(e.phase.delta, All) == map[k := ONE];
    Extend(cfg, EMPTY, steps, EndPush);
    steps := steps + [EndPush];
    assert After(cfg, EMPTY, steps).phase == Committing(map[k := ONE]);
    Extend(cfg, EMPTY, steps, Commit(k));
    steps := steps + [Commit(k)];
    assert After(cfg, EMPTY, steps).phase.todo == map[];
    Extend(cfg, EMPTY, steps, EndCommit);
    steps := steps + [EndCommit];
  }

  lemma {:induction false} TotalAtLeast(panel: Account -> Pair, n: nat, uid: nat, i: nat, j: nat)
    requires forall a: Account :: a.client < n ==> panel(a).up >= 0
    requires i < j < n ==> panel(Account(i, uid)).up >= 1 && panel(Account(j, uid)).up >= 1
    ensures TotalBilled(panel, n, uid).up >= 0
    ensures i < n && panel(Account(i, uid)).up >= 1 ==> TotalBilled(panel, n, uid).up >= 1
    ensures i < j < n ==> TotalBilled(panel, n, uid).up >= 2
  {
    if n > 0 { TotalAtLeast(panel, n - 1, uid, i, j); }
  }

  // With one byte committed, under k alone.
  lemma DueOfOne(cfg: Config, e: State, k: Key, a: Account)
    requires Unrepeated(cfg.keys) && k in cfg.keys && e.table == map[k := Storage(ONE, ONE)] && (forall x :: e.retired(x) == ZERO)
    ensures Due(cfg, a, CommittedOf(e)) == if a.client < |cfg.clients| && Bills(cfg.clients[a.client], k, a.uid) then ONE else ZERO
  {
    hide Sum, Bills, Pair.Plus;
    PlusZero(ZERO);
    PlusZero(ONE);
    var none := (x: Key) => ZERO;
    SumZero(cfg.keys, none);
    SumChanged(cfg.keys, none, Part(cfg, a, CommittedOf(e)), k);
  }

  lemma MatchedOfOne(cfg: Config, e: State, k: Key, uid: nat)
    requires Unrepeated(cfg.keys) && k in cfg.keys && e.table == map[k := Storage(ONE, ONE)] && (forall x :: e.retired(x) == ZERO)
    requires Matched(cfg, |cfg.clients|, k) && k.user == Itoa(uid)
    ensures Sum(cfg.keys, PartMatched(cfg, |cfg.clients|, CommittedOf(e), uid)) == ONE
  {
    hide Sum, Matched, Pair.Plus, Itoa;
    PlusZero(ZERO);
    PlusZero(ONE);
    var none := (x: Key) => ZERO;
    SumZero(cfg.keys, none);
    SumChanged(cfg.keys, none, PartMatched(cfg, |cfg.clients|, CommittedOf(e), uid), k);
  }

  lemma UidOf(k: Key) returns (uid: nat)
    requires WellNamed(k) && IsNumericUser(k.user)
    ensures k.user == Itoa(uid)
  {
    uid := Value(k.user);
    ItoaOfValue(k.user);
  }

  /** A key that two clients match: a single flush with nothing going wrong bills its byte twice. */
  lemma SharedTwice(cfg: Config, k: Key, i: nat, j: nat) returns (steps: seq<Step>)
    requires cfg.Valid() && k in cfg.keys && IsNumericUser(k.user) && i < j && cfg.Matches(i, k) && cfg.Matches(j, k)
    ensures Init(EMPTY) && IsRun(cfg, EMPTY, steps) && After(cfg, EMPTY, steps).phase.Idle?
    ensures !EachByteOnce(cfg, After(cfg, EMPTY, steps))
  {
    hide IsRun, After, Init, Due, CommittedOf, PartMatched, TotalBilled, Sum, Itoa, IsNumericUser, Canonical, Value, Inv;
    steps := FlushOne(cfg, k);
    var e := After(cfg, EMPTY, steps);
    assert WellNamed(k);
    var uid := UidOf(k);
    InitInv(cfg, EMPTY);
    RunInv(cfg, EMPTY, steps);
    forall a: Account | a.client < |cfg.clients|
      ensures e.panel(a) == if Bills(cfg.clients[a.client], k, a.uid) then ONE else ZERO
    {
      InvBills(cfg, e, a);
      DueOfOne(cfg, e, k, a);
    }
    TotalAtLeast(e.panel, |cfg.clients|, uid, i, j);
    MatchedOfOne(cfg, e, k, uid);
  }

  /** Over all runs, every byte is billed once in all if and only if no billable traffic is
      matched by two clients. */
  lemma ExactlyOnceIff(cfg: Config)
    requires cfg.Valid()
    ensures (forall s, steps :: Init(s) && IsRun(cfg, s, steps) && After(cfg, s, steps).phase.Idle? ==> EachByteOnce(cfg, After(cfg, s, steps)))
            <==> cfg.Unshared()
  {
    hide Init, IsRun, After, EachByteOnce, Config.Valid, IsNumericUser, Config.Matches;
    if cfg.Unshared() {
      forall s, steps | Init(s) && IsRun(cfg, s, steps) && After(cfg, s, steps).phase.Idle?
        ensures EachByteOnce(cfg, After(cfg, s, steps))
      {
        UnsharedOnce(cfg, s, steps);
      }
    } else {
      var i: nat, j: nat, k: Key :| k in cfg.keys && IsNumericUser(k.user) && cfg.Matches(i, k) && cfg.Matches(j, k) && i != j;
      var steps := SharedTwice(cfg, k, if i < j then i else j, if i < j then j else i);
      assert IsRun(cfg, EMPTY, steps);
    }
  }

  // ---- The two clients main.go builds ----

  /** A VLESS client beside a Hysteria 2 client shares nothing. */
  lemma ProtocolsUnshared(cfg: Config, v: string, h: string)
    requires cfg.clients == [Client("", v), Client("", h)]
    requires ToLower(v) in {"vless", "vless-reality", "reality"} && ToLower(h) in {"hy2", "hysteria", "hysteria2"}
    ensures cfg.Unshared()
  {
    hide ToLower, IsNumericUser;
    forall i, j, k | k in cfg.keys && cfg.Matches(i, k) && cfg.Matches(j, k)
      ensures i == j
    {
      assert "vless-in"[0] != "hy2-in"[0];
    }
  }

  lemma UntypedMatches(tag: string)
    ensures MatchesInbound(Client("", ""), tag)
  {
    assert ToLower("") == "";
    assert "" <= ToLower(tag)[0..];
  }

  lemma VlessMatches()
    ensures MatchesInbound(Client("", "vless"), "vless-in") && IsNumericUser("1")
  {
    LowerVless();
  }

  /** A client without a type matches every tag, so beside a VLESS client it bills VLESS
      traffic a second time. */
  lemma UntypedShares(cfg: Config)
    requires cfg.clients == [Client("", "vless"), Client("", "")] && cfg.keys == [Key("vless-in", "1")]
    ensures !cfg.Unshared()
  {
    hide MatchesInbound, IsNumericUser;
    var k := Key("vless-in", "1");
    VlessMatches();
    UntypedMatches(k.tag);
    assert cfg.keys[0] == k;
    assert cfg.Matches(0, k) && cfg.Matches(1, k);
  }

  lemma LowerVless()
    ensures ToLower("vless") == "vless"
  {
    assert "vless"[1..] == "less" && "less"[1..] == "ess" && "ess"[1..] == "ss" && "ss"[1..] == "s" && "s"[1..] == "";
    assert ToLower("s") == "s";
    assert ToLower("ss") == "ss";
    assert ToLower("ess") == "ess";
    assert ToLower("less") == "less";
  }
}
