/** Panel users and the authentication delta of cmd/mini-sb-agent/user_delta.go, with
    what applying it to a set of live credentials amounts to. */
module Users {

  datatype User = User(id: int, uuid: string, password: string, name: string, speedLimit: int)

  // A committed list, by id.
  type Snapshot = map<int, User>

  // Last entry wins, and only positive ids count.
  function UsersByID(users: seq<User>): Snapshot {
    if users == [] then map[]
    else
      var before, last := UsersByID(users[..|users| - 1]), users[|users| - 1];
      if last.id > 0 then before[last.id := last] else before
  }

  predicate WellKeyed(m: Snapshot) {
    forall id :: id in m ==> id > 0 && m[id].id == id
  }

  lemma {:induction false} IndexFacts(users: seq<User>)
    ensures WellKeyed(UsersByID(users))
    ensures forall id :: id in UsersByID(users) ==> UsersByID(users)[id] in users
  {
    if users != [] { IndexFacts(users[..|users| - 1]); }
  }

  /** Last entry wins: what the index holds for an id is its last entry in the list. */
  lemma {:induction false} LastEntryWins(users: seq<User>, i: nat)
    requires i < |users| && users[i].id > 0
    requires forall j :: i < j < |users| ==> users[j].id != users[i].id
    ensures users[i].id in UsersByID(users) && UsersByID(users)[users[i].id] == users[i]
    decreases |users|
  {
    if i < |users| - 1 { LastEntryWins(users[..|users| - 1], i); }
  }

  method IndexUsers(users: seq<User>) returns (m: Snapshot)
    ensures m == UsersByID(users)
  {
    m := map[];
    for i := 0 to |users|
      invariant m == UsersByID(users[..i])
    {
      assert users[..i + 1][..i] == users[..i];
      if users[i].id > 0 {
        m := m[users[i].id := users[i]];
      }
    }
    assert users[..|users|] == users;
  }

  // ---- The delta ----

  // Speed limits are not credentials.
  predicate SameLogin(a: User, b: User) {
    a.uuid == b.uuid && a.password == b.password && a.name == b.name
  }

  predicate Kept(was: Snapshot, next: Snapshot, id: int) {
    id in was && id in next && SameLogin(was[id], next[id])
  }

  // A user's id is not in m, or with another UUID, password or name.
  predicate Differs(u: User, m: Snapshot) {
    u.id !in m || m[u.id].uuid != u.uuid || m[u.id].password != u.password || m[u.id].name != u.name
  }

  // The same users with the same logins; only speed limits may differ.
  predicate LimitsOnly(was: Snapshot, next: Snapshot) {
    was.Keys == next.Keys && forall id :: id in was ==> !Differs(was[id], next)
  }

  /** Kept, field by field: a user is disturbed by a change of UUID, password or name, and by
      nothing else. */
  lemma KeptMeans(was: Snapshot, next: Snapshot, id: int)
    requires WellKeyed(was) && WellKeyed(next)
    ensures Kept(was, next, id) <==> id in was && id in next && !Differs(was[id], next)
    ensures Kept(was, next, id) <==> id in was && id in next && !Differs(next[id], was)
  {
  }

  // The members of m with these ids, each once.
  ghost predicate Enumerates(us: seq<User>, m: Snapshot, ids: set<int>) {
    && (forall u :: u in us ==> u.id in ids && u.id in m && m[u.id] == u)
    && (forall id :: id in ids && id in m ==> m[id] in us)
    && (forall i, j :: 0 <= i < j < |us| ==> us[i].id != us[j].id)
  }

  lemma SomeElement(s: set<int>)
    requires s != {}
    ensures exists x :: x in s
  {
    if forall x :: x !in s { NoElement(s); }
  }

  lemma NoElement(s: set<int>)
    requires forall x :: x !in s
    ensures s == {}
  {
    assert forall x :: x in s ==> x in {0} - {0};
  }

  /** userChanges, for every map iteration order: removed are the old users that are gone
      or log in differently, added the new users that were not there or logged in
      differently. */
  method UserChanges(was: Snapshot, next: seq<User>) returns (removed: seq<User>, added: seq<User>)
    requires WellKeyed(was)
    ensures var m := UsersByID(next);
            && Enumerates(removed, was, set id | id in was && !Kept(was, m, id))
            && Enumerates(added, m, set id | id in m && !Kept(was, m, id))
            && (forall u :: u in removed <==> u.id in was && was[u.id] == u && Differs(u, m))
            && (forall u :: u in added <==> u.id in m && m[u.id] == u && Differs(u, was))
            && (LimitsOnly(was, m) ==> removed == [] && added == [])
  {
    hide SameLogin, UsersByID, Differs, LimitsOnly;
    var m := IndexUsers(next);
    IndexFacts(next);
    removed, added := [], [];
    var todo := was.Keys;
    while todo != {}
      invariant todo <= was.Keys
      invariant Enumerates(removed, was, set id | id in was && id !in todo && !Kept(was, m, id))
    {
      SomeElement(todo);
      var id :| id in todo;
      if id !in m || !SameLogin(was[id], m[id]) {
        removed := removed + [was[id]];
      }
      todo := todo - {id};
    }
    todo := m.Keys;
    while todo != {}
      invariant todo <= m.Keys
      invariant Enumerates(added, m, set id | id in m && id !in todo && !Kept(was, m, id))
    {
      SomeElement(todo);
      var id :| id in todo;
      if id !in was || !SameLogin(was[id], m[id]) {
        added := added + [m[id]];
      }
      todo := todo - {id};
    }
    ChangesByField(was, m, removed, added);
  }

  lemma DiffersOut(a: Snapshot, b: Snapshot)
    ensures forall u: User :: u.id in a && u.id !in b ==> Differs(u, b)
  {
  }

  lemma ChangesByField(was: Snapshot, m: Snapshot, removed: seq<User>, added: seq<User>)
    requires WellKeyed(was) && WellKeyed(m)
    requires Enumerates(removed, was, set id | id in was && !Kept(was, m, id))
    requires Enumerates(added, m, set id | id in m && !Kept(was, m, id))
    ensures forall u :: u in removed <==> u.id in was && was[u.id] == u && Differs(u, m)
    ensures forall u :: u in added <==> u.id in m && m[u.id] == u && Differs(u, was)
    ensures LimitsOnly(was, m) ==> removed == [] && added == []
  {
    hide Kept, Differs;
    forall id
      ensures Kept(was, m, id) <==> id in was && id in m && !Differs(was[id], m)
      ensures Kept(was, m, id) <==> id in was && id in m && !Differs(m[id], was)
    {
      KeptMeans(was, m, id);
    }
    DiffersOut(was, m);
    DiffersOut(m, was);
    assert removed != [] ==> removed[0] in removed;
    assert added != [] ==> added[0] in added;
  }

  // ---- Credentials ----

  datatype Kind = Vless | Hysteria2

  function Cred(kind: Kind, u: User): string {
    if kind.Vless? then u.uuid else u.password
  }

  // What can log in under a snapshot; users without a credential cannot.
  function Creds(kind: Kind, m: Snapshot): set<string> {
    set id | id in m && Cred(kind, m[id]) != "" :: Cred(kind, m[id])
  }

  function RemovedCreds(kind: Kind, was: Snapshot, next: Snapshot): set<string> {
    set id | id in was && !Kept(was, next, id) && Cred(kind, was[id]) != "" :: Cred(kind, was[id])
  }

  function AddedCreds(kind: Kind, was: Snapshot, next: Snapshot): set<string> {
    set id | id in next && !Kept(was, next, id) && Cred(kind, next[id]) != "" :: Cred(kind, next[id])
  }

  predicate Distinct(kind: Kind, m: Snapshot) {
    forall i, j :: i in m && j in m && Cred(kind, m[i]) == Cred(kind, m[j]) != "" ==> i == j
  }

  // Deletes, then adds, as both apply functions do.
  function Patched(live: set<string>, removed: set<string>, added: set<string>): set<string> {
    (live - removed) + added
  }

  // A kept user shares its credential with a removed one, and nobody adds it back.
  ghost predicate Clash(kind: Kind, was: Snapshot, next: Snapshot) {
    exists id :: Kept(was, next, id) && Cred(kind, was[id]) != ""
                 && Cred(kind, was[id]) in RemovedCreds(kind, was, next) && Cred(kind, was[id]) !in AddedCreds(kind, was, next)
  }

  /** A list that differs in speed limits alone deletes and adds no credential. */
  lemma LimitsDisturbNobody(kind: Kind, was: Snapshot, next: Snapshot)
    requires WellKeyed(was) && WellKeyed(next) && LimitsOnly(was, next)
    ensures RemovedCreds(kind, was, next) == {} && AddedCreds(kind, was, next) == {}
  {
    hide Kept, Differs;
    forall id { KeptMeans(was, next, id); }
  }

  /** The delta does what replacing the whole list would do, if and only if no removed
      user shares its credential with a kept one (and nobody adds it back). */
  lemma DeltaExactIff(kind: Kind, was: Snapshot, next: Snapshot)
    ensures Patched(Creds(kind, was), RemovedCreds(kind, was, next), AddedCreds(kind, was, next)) == Creds(kind, next)
            <==> !Clash(kind, was, next)
  {
    var r, a := RemovedCreds(kind, was, next), AddedCreds(kind, was, next);
    var got, want := Patched(Creds(kind, was), r, a), Creds(kind, next);
    forall c | c in got
      ensures c in want
    {
      if c !in a {
        var id :| id in was && Cred(kind, was[id]) == c != "";
        assert Kept(was, next, id);
      }
    }
    if Clash(kind, was, next) {
      var id :| Kept(was, next, id) && Cred(kind, was[id]) != "" && Cred(kind, was[id]) in r && Cred(kind, was[id]) !in a;
      assert Cred(kind, next[id]) in want && Cred(kind, was[id]) !in got;
    } else {
      forall c | c in want
        ensures c in got
      {
        var id :| id in next && Cred(kind, next[id]) == c != "";
        if c !in a { assert Kept(was, next, id); }
      }
    }
  }

  /** Distinct credentials in the old list rule the clash out. */
  lemma DistinctNeverClash(kind: Kind, was: Snapshot, next: Snapshot)
    requires Distinct(kind, was)
    ensures !Clash(kind, was, next)
    ensures Patched(Creds(kind, was), RemovedCreds(kind, was, next), AddedCreds(kind, was, next)) == Creds(kind, next)
  {
    hide SameLogin;
    DeltaExactIff(kind, was, next);
  }

  /** Two old users with one UUID, one of whom leaves: the delta locks the other out. */
  lemma SharedCredentialLost()
    ensures var u1, u2 := User(1, "x", "p", "1", 0), User(2, "x", "q", "2", 0);
            var was, next := map[1 := u1, 2 := u2], map[1 := u1];
            && Clash(Vless, was, next)
            && "x" in Creds(Vless, next)
            && "x" !in Patched(Creds(Vless, was), RemovedCreds(Vless, was, next), AddedCreds(Vless, was, next))
  {
    var u1, u2 := User(1, "x", "p", "1", 0), User(2, "x", "q", "2", 0);
    var was, next := map[1 := u1, 2 := u2], map[1 := u1];
    assert Kept(was, next, 1) && !Kept(was, next, 2);
    assert Cred(Vless, was[2]) == "x" && Cred(Vless, next[1]) == "x";
  }

  /** Nobody who stays is disturbed: the credential of a kept user is neither deleted nor
      added again, so its sessions survive. */
  lemma KeptUndisturbed(kind: Kind, was: Snapshot, next: Snapshot, id: int)
    requires Distinct(kind, was) && Distinct(kind, next) && Kept(was, next, id)
    ensures Cred(kind, was[id]) !in RemovedCreds(kind, was, next)
    ensures Cred(kind, next[id]) !in AddedCreds(kind, was, next)
  {
  }

  // From an inbound in sync nothing that is still live is added, so no entry is added twice.
  lemma AddedWereNotLive(kind: Kind, was: Snapshot, next: Snapshot)
    requires Distinct(kind, next)
    ensures AddedCreds(kind, was, next) !! (Creds(kind, was) - RemovedCreds(kind, was, next))
  {
  }

  // ---- Whole runs ----

  // Live credentials after applying one list after another to an empty inbound.
  function LiveAfter(kind: Kind, lists: seq<seq<User>>): set<string> {
    if lists == [] then {}
    else
      var before, was, next := lists[..|lists| - 1], Committed(lists[..|lists| - 1]), UsersByID(lists[|lists| - 1]);
      Patched(LiveAfter(kind, before), RemovedCreds(kind, was, next), AddedCreds(kind, was, next))
  }

  function Committed(lists: seq<seq<User>>): Snapshot {
    if lists == [] then map[] else UsersByID(lists[|lists| - 1])
  }

  /** Over any run of lists with distinct credentials, delta after delta leaves exactly
      the last list live. */
  lemma {:induction false} DeltaRunRefinesReplacement(kind: Kind, lists: seq<seq<User>>)
    requires forall i :: 0 <= i < |lists| ==> Distinct(kind, UsersByID(lists[i]))
    ensures LiveAfter(kind, lists) == Creds(kind, Committed(lists))
  {
    hide UsersByID, Creds, RemovedCreds, AddedCreds, Distinct;
    if lists == [] {
      NoCreds(kind);
    } else {
      var before := lists[..|lists| - 1];
      DeltaRunRefinesReplacement(kind, before);
      if before == [] { NoCreds(kind); }
      DistinctNeverClash(kind, Committed(before), UsersByID(lists[|lists| - 1]));
    }
  }

  lemma NoCreds(kind: Kind)
    ensures Creds(kind, map[]) == {} && Distinct(kind, map[])
  {
  }

  // ---- Attempts that fail part-way ----

  // Some deletes happened; or all of them, and then some adds.  No snapshot is committed.
  datatype Attempt = SomeDeletes(gone: set<string>) | SomeAdds(come: set<string>)

  predicate Possible(kind: Kind, was: Snapshot, next: Snapshot, a: Attempt) {
    match a
    case SomeDeletes(gone) => gone <= RemovedCreds(kind, was, next)
    case SomeAdds(come) => come <= AddedCreds(kind, was, next)
  }

  function AfterAttempt(kind: Kind, was: Snapshot, next: Snapshot, live: set<string>, a: Attempt): set<string> {
    match a
    case SomeDeletes(gone) => live - gone
    case SomeAdds(come) => Patched(live, RemovedCreds(kind, was, next), come)
  }

  // One failed apply after another; the snapshot stays `was` throughout.
  datatype Try = Try(list: Snapshot, attempt: Attempt)

  function AfterTries(kind: Kind, was: Snapshot, live: set<string>, tries: seq<Try>): set<string>
    decreases |tries|
  {
    if tries == [] then live
    else AfterTries(kind, was, AfterAttempt(kind, was, tries[0].list, live, tries[0].attempt), tries[1..])
  }

  predicate TriesAt(kind: Kind, was: Snapshot, lists: seq<Snapshot>, tries: seq<Try>) {
    && |tries| == |lists|
    && forall i :: 0 <= i < |lists| ==> tries[i].list == lists[i] && Possible(kind, was, lists[i], tries[i].attempt)
  }

  // A success with `next` after those tries leaves exactly `next` live.
  predicate Converges(kind: Kind, was: Snapshot, next: Snapshot, tries: seq<Try>) {
    Patched(AfterTries(kind, was, Creds(kind, was), tries), RemovedCreds(kind, was, next), AddedCreds(kind, was, next))
    == Creds(kind, next)
  }

  // Live credentials between the old list and the next: kept ones are all there, and
  // whatever will not be deleted is wanted.
  predicate Between(kind: Kind, was: Snapshot, next: Snapshot, live: set<string>) {
    && live - RemovedCreds(kind, was, next) <= Creds(kind, next)
    && Creds(kind, next) - AddedCreds(kind, was, next) <= live - RemovedCreds(kind, was, next)
  }

  lemma BetweenExact(kind: Kind, was: Snapshot, next: Snapshot, live: set<string>)
    ensures Between(kind, was, next, live)
            ==> Patched(live, RemovedCreds(kind, was, next), AddedCreds(kind, was, next)) == Creds(kind, next)
  {
    AddedAreWanted(kind, was, next);
  }

  lemma AddedAreWanted(kind: Kind, was: Snapshot, next: Snapshot)
    ensures AddedCreds(kind, was, next) <= Creds(kind, next)
  {
  }

  // A list that may fail part-way before `next`: whatever it would add, `next` wants or deletes,
  // and whatever it would delete and `next` wants, `next` adds.
  predicate Harmless(kind: Kind, was: Snapshot, tried: Snapshot, next: Snapshot) {
    && AddedCreds(kind, was, tried) <= Creds(kind, next) + RemovedCreds(kind, was, next)
    && RemovedCreds(kind, was, tried) * Creds(kind, next) <= AddedCreds(kind, was, next)
  }

  /** Which lists may fail before a success: from an inbound in sync, every way of failing
      part-way at the given lists, in turn, and then succeeding with `next` leaves exactly
      `next` live, if and only if each of them is harmless to `next`. */
  lemma ConvergesIff(kind: Kind, was: Snapshot, lists: seq<Snapshot>, next: Snapshot)
    requires Distinct(kind, was)
    ensures (forall tries :: TriesAt(kind, was, lists, tries) ==> Converges(kind, was, next, tries))
            <==> forall i :: 0 <= i < |lists| ==> Harmless(kind, was, lists[i], next)
  {
    hide Creds, RemovedCreds, AddedCreds, Distinct, TriesAt, AfterTries, Possible, AfterAttempt;
    if forall i :: 0 <= i < |lists| ==> Harmless(kind, was, lists[i], next) {
      forall tries | TriesAt(kind, was, lists, tries)
        ensures Converges(kind, was, next, tries)
      {
        StartsBetween(kind, was, next);
        StaysBetween(kind, was, lists, next, Creds(kind, was), tries);
        BetweenExact(kind, was, next, AfterTries(kind, was, Creds(kind, was), tries));
      }
    } else {
      var i :| 0 <= i < |lists| && !Harmless(kind, was, lists[i], next);
      var a := Harm(kind, was, lists[i], next);
      var tries := Spoil(kind, was, lists, i, Creds(kind, was), a);
      assert TriesAt(kind, was, lists, tries) && !Converges(kind, was, next, tries);
    }
  }

  // A list that is not harmless has an attempt that leaves something no delta repairs.
  lemma Harm(kind: Kind, was: Snapshot, tried: Snapshot, next: Snapshot) returns (a: Attempt)
    requires !Harmless(kind, was, tried, next)
    ensures Possible(kind, was, tried, a)
    ensures Patched(AfterAttempt(kind, was, tried, Creds(kind, was), a), RemovedCreds(kind, was, next), AddedCreds(kind, was, next))
            != Creds(kind, next)
  {
    hide Creds, RemovedCreds, AddedCreds;
    if AddedCreds(kind, was, tried) <= Creds(kind, next) + RemovedCreds(kind, was, next) {
      var c :| c in RemovedCreds(kind, was, tried) * Creds(kind, next) && c !in AddedCreds(kind, was, next);
      a := SomeDeletes({c});
      assert c in Creds(kind, next);
    } else {
      var c :| c in AddedCreds(kind, was, tried) && c !in Creds(kind, next) + RemovedCreds(kind, was, next);
      a := SomeAdds({c});
      assert c in Patched(AfterAttempt(kind, was, tried, Creds(kind, was), a), RemovedCreds(kind, was, next), AddedCreds(kind, was, next));
    }
  }

  // Any one attempt can be the only one that did anything.
  lemma {:induction false} Spoil(kind: Kind, was: Snapshot, lists: seq<Snapshot>, i: nat, live: set<string>, a: Attempt) returns (tries: seq<Try>)
    requires i < |lists| && Possible(kind, was, lists[i], a)
    ensures TriesAt(kind, was, lists, tries) && AfterTries(kind, was, live, tries) == AfterAttempt(kind, was, lists[i], live, a)
    decreases |lists|
  {
    hide Creds, RemovedCreds, AddedCreds, Patched;
    var first := if i == 0 then a else SomeDeletes({});
    var after := AfterAttempt(kind, was, lists[0], live, first);
    assert i != 0 ==> after == live;
    var more;
    if i > 0 {
      more := Spoil(kind, was, lists[1..], i - 1, live, a);
    } else if |lists| > 1 {
      more := Spoil(kind, was, lists[1..], 0, after, SomeDeletes({}));
    } else {
      more := [];
    }
    tries := [Try(lists[0], first)] + more;
    assert tries[1..] == more;
  }

  /** Retry convergence: any number of attempts at the same list that fail part-way,
      then one that succeeds, leave exactly that list live. */
  lemma RetryConverges(kind: Kind, was: Snapshot, next: Snapshot, tries: seq<Try>)
    requires Distinct(kind, was)
    requires forall i :: 0 <= i < |tries| ==> tries[i].list == next && Possible(kind, was, next, tries[i].attempt)
    ensures Converges(kind, was, next, tries)
  {
    hide Creds, RemovedCreds, AddedCreds, Distinct, Possible, AfterTries, Converges, Harmless;
    var lists := seq(|tries|, i => next);
    StartsBetween(kind, was, next);
    HarmlessToItself(kind, was, next, Creds(kind, was));
    ConvergesIff(kind, was, lists, next);
    assert TriesAt(kind, was, lists, tries);
  }

  lemma HarmlessToItself(kind: Kind, was: Snapshot, next: Snapshot, live: set<string>)
    requires Between(kind, was, next, live)
    ensures Harmless(kind, was, next, next)
  {
    hide Creds, RemovedCreds, AddedCreds;
    AddedAreWanted(kind, was, next);
  }

  lemma StartsBetween(kind: Kind, was: Snapshot, next: Snapshot)
    requires Distinct(kind, was)
    ensures Between(kind, was, next, Creds(kind, was))
  {
    hide Creds, RemovedCreds, AddedCreds, Distinct, Clash;
    DistinctNeverClash(kind, was, next);
  }

  lemma {:induction false} StaysBetween(kind: Kind, was: Snapshot, lists: seq<Snapshot>, next: Snapshot, live: set<string>, tries: seq<Try>)
    requires Between(kind, was, next, live) && TriesAt(kind, was, lists, tries)
    requires forall i :: 0 <= i < |lists| ==> Harmless(kind, was, lists[i], next)
    ensures Between(kind, was, next, AfterTries(kind, was, live, tries))
    decreases |tries|
  {
    hide Creds, RemovedCreds, AddedCreds, Possible, Between, Harmless, AfterAttempt;
    if tries != [] {
      AttemptStaysBetween(kind, was, lists[0], next, live, tries[0].attempt);
      StaysBetween(kind, was, lists[1..], next, AfterAttempt(kind, was, lists[0], live, tries[0].attempt), tries[1..]);
    }
  }

  lemma AttemptStaysBetween(kind: Kind, was: Snapshot, tried: Snapshot, next: Snapshot, live: set<string>, a: Attempt)
    requires Between(kind, was, next, live) && Possible(kind, was, tried, a) && Harmless(kind, was, tried, next)
    ensures Between(kind, was, next, AfterAttempt(kind, was, tried, live, a))
  {
    hide Creds, RemovedCreds, AddedCreds;
    AddedAreWanted(kind, was, next);
  }

  /** With a different list in between it need not converge: a user added by an attempt
      that then failed is in no snapshot, so no later delta removes it. */
  lemma StaleAfterOtherList()
    ensures var u := User(1, "x", "p", "1", 0);
            var empty: Snapshot := map[];
            var tried := map[1 := u];
            var tries := [Try(tried, SomeAdds({"x"}))];
            && TriesAt(Vless, empty, [tried], tries)
            && !Harmless(Vless, empty, tried, empty)
            && !Converges(Vless, empty, empty, tries)
  {
    var u := User(1, "x", "p", "1", 0);
    var empty: Snapshot := map[];
    var tried := map[1 := u];
    var tries := [Try(tried, SomeAdds({"x"}))];
    assert !Kept(empty, tried, 1) && Cred(Vless, tried[1]) == "x";
    assert AfterTries(Vless, empty, Creds(Vless, empty), tries)
        == AfterTries(Vless, empty, AfterAttempt(Vless, empty, tried, Creds(Vless, empty), SomeAdds({"x"})), []);
    assert "x" in AfterTries(Vless, empty, Creds(Vless, empty), tries);
  }
}
