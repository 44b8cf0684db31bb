/** The live user tables of the two inbound kinds (fork/sing-box/protocol/vless/vless_user.go,
    hysteria2/hysteria2_user.go), how they register sessions (inbound.go beside them), and the functions that patch them with a delta
    (cmd/mini-sb-agent/user_apply_vless_enabled.go, user_apply_hy2_enabled.go). */
module Inbounds {
  import opened Users
  import opened Sessions

  const FLOW := "xtls-rprx-vision"

  function SetOf(s: seq<string>): set<string> {
    set x | x in s
  }

  predicate Apart(kind: Kind, us: seq<User>) {
    forall i, j :: 0 <= i < j < |us| && Cred(kind, us[i]) == Cred(kind, us[j]) ==> Cred(kind, us[i]) == ""
  }

  // The non-empty credentials of a list of users.
  method Collect(kind: Kind, us: seq<User>) returns (creds: seq<string>)
    ensures SetOf(creds) == set u | u in us && Cred(kind, u) != "" :: Cred(kind, u)
    ensures Apart(kind, us) ==> forall i, j :: 0 <= i < j < |creds| ==> creds[i] != creds[j]
  {
    hide Cred;
    creds := [];
    for i := 0 to |us|
      invariant SetOf(creds) == set u | u in us[..i] && Cred(kind, u) != "" :: Cred(kind, u)
      invariant Apart(kind, us) ==> forall k, l :: 0 <= k < l < |creds| ==> creds[k] != creds[l]
    {
      assert us[..i + 1] == us[..i] + [us[i]];
      if Cred(kind, us[i]) != "" {
        if Cred(kind, us[i]) in SetOf(creds) {
          var k :| 0 <= k < i && Cred(kind, us[k]) == Cred(kind, us[i]);
          assert !Apart(kind, us);
        }
        assert SetOf(creds + [Cred(kind, us[i])]) == SetOf(creds) + {Cred(kind, us[i])};
        creds := creds + [Cred(kind, us[i])];
      }
    }
    assert us[..|us|] == us;
  }

  // The two credential sets of the delta, read off the enumerated users.
  lemma DeltaCreds(kind: Kind, was: Snapshot, m: Snapshot, removed: seq<User>, added: seq<User>)
    requires Enumerates(removed, was, set id | id in was && !Kept(was, m, id))
    requires Enumerates(added, m, set id | id in m && !Kept(was, m, id))
    ensures (set u | u in removed && Cred(kind, u) != "" :: Cred(kind, u)) == RemovedCreds(kind, was, m)
    ensures (set u | u in added && Cred(kind, u) != "" :: Cred(kind, u)) == AddedCreds(kind, was, m)
    ensures Distinct(kind, m) ==> Apart(kind, added)
  {
    hide Cred, SameLogin;
  }

  // ---- VLESS ----

  datatype VlessUser = VlessUser(name: string, uuid: string, flow: string)

  function VlessEntry(uuid: string): VlessUser {
    VlessUser(uuid, uuid, FLOW)
  }

  function Without(users: seq<VlessUser>, names: set<string>): seq<VlessUser> {
    if users == [] then []
    else
      var before, last := Without(users[..|users| - 1], names), users[|users| - 1];
      if last.name in names then before else before + [last]
  }

  lemma {:induction false} WithoutFacts(users: seq<VlessUser>, names: set<string>)
    ensures forall u :: u in Without(users, names) <==> u in users && u.name !in names
    ensures Unique(users) ==> Unique(Without(users, names))
  {
    if users != [] { WithoutFacts(users[..|users| - 1], names); }
  }

  predicate Unique(users: seq<VlessUser>) {
    forall i, j :: 0 <= i < j < |users| ==> users[i] != users[j]
  }

  // Every entry is one the agent adds.
  predicate Plain(users: seq<VlessUser>) {
    forall i :: 0 <= i < |users| ==> users[i] == VlessEntry(users[i].name)
  }

  function Names(users: seq<VlessUser>): set<string> {
    set u | u in users :: u.name
  }

  class VlessInbound {
    var users: seq<VlessUser>
    var conns: map<int, string>
    // The sessions that are open, each with its user.
    ghost var live: map<int, Session>

    constructor ()
      ensures users == [] && Held() == EMPTY
    {
      users, conns, live := [], map[], map[];
    }

    ghost function Held(): Book
      reads `conns, `live
    {
      Book(conns, live)
    }

    /** NewConnectionEx: the connection is stored before it is authenticated, under a name that
        nothing has set yet; the handler then finds the user (panel id `id`) at `index`. */
    method Accept(c: int, index: nat, ghost id: int) returns (user: string)
      requires index < |users|
      modifies this
      ensures Held() == Accepted(Vless, old(Held()), c, Session(id, true), user)
      ensures users == old(users) && user == users[index].name
    {
      var metadataUser := "";
      conns := conns[c := metadataUser];
      user := users[index].name;
      live := live[c := Session(id, true)];
    }

    // A connection ends on its own.
    method End(c: int)
      modifies this
      ensures Held() == Ended(old(Held()), c) && users == old(users)
    {
      conns := conns - {c};
      live := live - {c};
    }

    // Closes what is stored under one name.
    method CloseSessions(name: string)
      modifies this
      ensures Held() == Purged(old(Held()), {name}) && users == old(users)
    {
      live := map c | c in live && !(c in conns && conns[c] == name) :: live[c];
      conns := map c | c in conns && conns[c] != name :: conns[c];
    }

    method AddUsers(more: seq<VlessUser>)
      modifies this
      ensures users == old(users) + more && Held() == old(Held())
    {
      users := users + more;
    }

    method DelUsers(names: seq<string>)
      modifies this
      ensures users == Without(old(users), SetOf(names))
      ensures Held() == Purged(old(Held()), SetOf(names))
    {
      hide Purged;
      PurgedNothing(Held());
      var toDelete := {};
      for i := 0 to |names|
        invariant toDelete == SetOf(names[..i]) && users == old(users)
        invariant Held() == Purged(old(Held()), toDelete)
      {
        assert names[..i + 1] == names[..i] + [names[i]];
        PurgedTwice(old(Held()), toDelete, {names[i]});
        CloseSessions(names[i]);
        toDelete := toDelete + {names[i]};
      }
      assert names[..|names|] == names;
      var remaining := [];
      for i := 0 to |users|
        invariant remaining == Without(users[..i], toDelete)
        invariant users == old(users) && Held() == Purged(old(Held()), toDelete)
      {
        assert users[..i + 1][..i] == users[..i];
        if users[i].name !in toDelete {
          remaining := remaining + [users[i]];
        }
      }
      assert users[..|users|] == users;
      users := remaining;
    }

    /** applyVLESSUsers: the live names are patched with the delta, and what is stored under
        removed names is closed.  No entry appears twice, if none did, the new list's UUIDs are
        distinct, and no added one is live already, as from a list in sync with the old
        snapshot. */
    method Apply(next: seq<User>, was: Snapshot)
      requires WellKeyed(was) && Plain(users)
      modifies this
      ensures Plain(users)
      ensures forall u :: u in users ==> u.uuid == u.name && u.flow == "xtls-rprx-vision"
      ensures var m := UsersByID(next);
              var r, a := RemovedCreds(Vless, was, m), AddedCreds(Vless, was, m);
              && Names(users) == Patched(old(Names(users)), r, a)
              && Held() == Purged(old(Held()), r)
              && (old(Unique(users)) && Distinct(Vless, m) && a !! (old(Names(users)) - r) ==> Unique(users))
              && (old(Unique(users)) && Distinct(Vless, m) && old(Names(users)) == Creds(Vless, was) ==> Unique(users))
    {
      hide UsersByID, Kept, Cred, Creds, Distinct, WellKeyed, RemovedCreds, AddedCreds, Unique, Apart, Without, Purged;
      var removed, added := UserChanges(was, next);
      ghost var m := UsersByID(next);
      DeltaCreds(Vless, was, m, removed, added);
      var remove := Collect(Vless, removed);
      ghost var before := users;
      if Distinct(Vless, m) { AddedWereNotLive(Vless, was, m); }
      if |remove| > 0 {
        DelUsers(remove);
      } else {
        NothingDeleted(before, Held(), remove);
      }
      WithoutFacts(before, SetOf(remove));
      ghost var mid := users;
      assert Names(mid) == Names(before) - SetOf(remove);
      var uuids := Collect(Vless, added);
      var desired := seq(|uuids|, i requires 0 <= i < |uuids| => VlessEntry(uuids[i]));
      EntriesOf(uuids, desired);
      if |desired| > 0 {
        AddUsers(desired);
      }
      assert users == mid + desired;
      Appended(mid, desired);
    }
  }

  lemma NothingDeleted(users: seq<VlessUser>, b: Book, remove: seq<string>)
    requires |remove| == 0
    ensures Without(users, SetOf(remove)) == users && Purged(b, SetOf(remove)) == b
  {
    hide Purged;
    assert SetOf(remove) == {};
    PurgedNothing(b);
    KeepsAll(users);
  }

  lemma {:induction false} KeepsAll(users: seq<VlessUser>)
    ensures Without(users, {}) == users
  {
    if users != [] {
      KeepsAll(users[..|users| - 1]);
      assert users == users[..|users| - 1] + [users[|users| - 1]];
    }
  }

  lemma EntriesOf(uuids: seq<string>, desired: seq<VlessUser>)
    requires |desired| == |uuids| && forall i :: 0 <= i < |uuids| ==> desired[i] == VlessEntry(uuids[i])
    ensures Plain(desired) && Names(desired) == SetOf(uuids)
    ensures (forall i, j :: 0 <= i < j < |uuids| ==> uuids[i] != uuids[j]) ==> Unique(desired)
  {
    forall x | x in SetOf(uuids)
      ensures x in Names(desired)
    {
      var i :| 0 <= i < |uuids| && uuids[i] == x;
      assert desired[i] in desired && desired[i].name == x;
    }
  }

  lemma Appended(mid: seq<VlessUser>, desired: seq<VlessUser>)
    ensures Names(mid + desired) == Names(mid) + Names(desired)
    ensures Plain(mid) && Plain(desired) ==> Plain(mid + desired)
    ensures Unique(mid) && Unique(desired) && Names(mid) !! Names(desired) ==> Unique(mid + desired)
  {
    if Unique(mid) && Unique(desired) && Names(mid) !! Names(desired) {
      forall i, j | 0 <= i < j < |mid + desired|
        ensures (mid + desired)[i] != (mid + desired)[j]
      {
        if i < |mid| <= j {
          assert mid[i].name in Names(mid) && desired[j - |mid|].name in Names(desired);
        }
      }
    }
  }

  // ---- Hysteria2 ----

  /** The inbound's three tables: passwords in order, and the two directions between a
      password and its user id. */
  datatype Logins = Logins(list: seq<string>, uidOf: map<string, int>, nameOf: map<int, string>)

  // The two directions mirror each other; id 0 stands for "no such password".
  predicate Mirrored(uidOf: map<string, int>, nameOf: map<int, string>) {
    && (forall p :: p in uidOf ==> uidOf[p] in nameOf && nameOf[uidOf[p]] == p)
    && (forall id :: id in nameOf ==> nameOf[id] in uidOf && uidOf[nameOf[id]] == id)
    && 0 !in nameOf
  }

  predicate Coherent(l: Logins) {
    Mirrored(l.uidOf, l.nameOf) && SetOf(l.list) == l.uidOf.Keys
  }

  // Go reads a missing map entry as zero.
  function UidOrZero(uidOf: map<string, int>, p: string): int {
    if p in uidOf then uidOf[p] else 0
  }

  function Drop(uidOf: map<string, int>, nameOf: map<int, string>, ps: seq<string>): (map<string, int>, map<int, string>) {
    if ps == [] then (uidOf, nameOf)
    else
      var (u, n) := Drop(uidOf, nameOf, ps[..|ps| - 1]);
      var p := ps[|ps| - 1];
      (u - {p}, n - {UidOrZero(u, p)})
  }

  function Put(uidOf: map<string, int>, nameOf: map<int, string>, ps: seq<string>, ids: seq<int>): (map<string, int>, map<int, string>)
    requires |ps| == |ids|
    decreases |ps|
  {
    if ps == [] then (uidOf, nameOf)
    else
      var (u, n) := Put(uidOf, nameOf, ps[..|ps| - 1], ids[..|ids| - 1]);
      (u[ps[|ps| - 1] := ids[|ids| - 1]], n[ids[|ids| - 1] := ps[|ps| - 1]])
  }

  lemma {:induction false} DropFacts(uidOf: map<string, int>, nameOf: map<int, string>, ps: seq<string>)
    requires Mirrored(uidOf, nameOf)
    ensures var (u, n) := Drop(uidOf, nameOf, ps);
            Mirrored(u, n) && u == uidOf - SetOf(ps)
  {
    if ps != [] {
      var front, p := ps[..|ps| - 1], ps[|ps| - 1];
      DropFacts(uidOf, nameOf, front);
      assert SetOf(ps) == SetOf(front) + {p};
    }
  }

  // Every entry is one of `want`.
  predicate Part(uidOf: map<string, int>, want: map<string, int>) {
    forall p :: p in uidOf ==> p in want && want[p] == uidOf[p]
  }

  predicate OneToOne(want: map<string, int>) {
    && (forall p, q :: p in want && q in want && want[p] == want[q] ==> p == q)
    && (forall p :: p in want ==> want[p] > 0)
  }

  // Adding entries of a one-to-one table to a part of it keeps the mirror.
  lemma {:induction false} PutFacts(uidOf: map<string, int>, nameOf: map<int, string>, ps: seq<string>, ids: seq<int>, want: map<string, int>)
    requires |ps| == |ids| && Mirrored(uidOf, nameOf) && Part(uidOf, want) && OneToOne(want)
    requires forall i :: 0 <= i < |ps| ==> ps[i] in want && want[ps[i]] == ids[i]
    ensures var (u, n) := Put(uidOf, nameOf, ps, ids);
            Mirrored(u, n) && Part(u, want) && u.Keys == uidOf.Keys + SetOf(ps)
    decreases |ps|
  {
    if ps != [] {
      var front, p := ps[..|ps| - 1], ps[|ps| - 1];
      PutFacts(uidOf, nameOf, front, ids[..|ids| - 1], want);
      assert SetOf(ps) == SetOf(front) + {p};
      hide Mirrored, Part, OneToOne;
      var (u, n) := Put(uidOf, nameOf, front, ids[..|ids| - 1]);
      PutOne(u, n, p, ids[|ids| - 1], want);
    }
  }

  lemma PutOne(uidOf: map<string, int>, nameOf: map<int, string>, p: string, id: int, want: map<string, int>)
    requires Mirrored(uidOf, nameOf) && Part(uidOf, want) && OneToOne(want) && p in want && want[p] == id
    ensures Mirrored(uidOf[p := id], nameOf[id := p]) && Part(uidOf[p := id], want)
  {
  }

  function Remaining(list: seq<string>, gone: set<string>): seq<string> {
    if list == [] then []
    else
      var before, last := Remaining(list[..|list| - 1], gone), list[|list| - 1];
      if last in gone then before else before + [last]
  }

  lemma {:induction false} RemainingFacts(list: seq<string>, gone: set<string>)
    ensures SetOf(Remaining(list, gone)) == SetOf(list) - gone
  {
    if list != [] {
      var front, last := list[..|list| - 1], list[|list| - 1];
      RemainingFacts(front, gone);
      assert SetOf(list) == SetOf(front) + {last};
      if last !in gone { assert SetOf(Remaining(front, gone) + [last]) == SetOf(Remaining(front, gone)) + {last}; }
    }
  }

  class Hysteria2Inbound {
    var userNameList: seq<string>
    var uuidToUid: map<string, int>
    var uidToUuid: map<int, string>
    var conns: map<int, string>
    ghost var live: map<int, Session>

    constructor ()
      ensures State() == Logins([], map[], map[]) && Held() == EMPTY
    {
      userNameList, uuidToUid, uidToUuid, conns, live := [], map[], map[], map[], map[];
    }

    ghost function Held(): Book
      reads `conns, `live
    {
      Book(conns, live)
    }

    /** NewConnectionEx: a stream of an id without a password is closed at once; otherwise it
        is stored under that password. */
    method AcceptStream(c: int, id: int) returns (ok: bool)
      modifies this
      ensures State() == old(State()) && (ok <==> id in uidToUuid)
      ensures Held() == if ok then Accepted(Hysteria2, old(Held()), c, Session(id, true), uidToUuid[id]) else old(Held())
    {
      ok := id in uidToUuid;
      if ok {
        var userName := uidToUuid[id];
        if userName != "" {
          conns := conns[c := userName];
        }
        live := live[c := Session(id, true)];
      }
    }

    /** NewPacketConnectionEx: the same, but nothing is stored. */
    method AcceptPacket(c: int, id: int) returns (ok: bool)
      modifies this
      ensures State() == old(State()) && (ok <==> id in uidToUuid)
      ensures Held() == if ok then Accepted(Hysteria2, old(Held()), c, Session(id, false), uidToUuid[id]) else old(Held())
    {
      ok := id in uidToUuid;
      if ok {
        live := live[c := Session(id, false)];
      }
    }

    // A session ends on its own.
    method End(c: int)
      modifies this
      ensures Held() == Ended(old(Held()), c) && State() == old(State())
    {
      conns := conns - {c};
      live := live - {c};
    }

    // Closes what is stored under one name.
    method CloseSessions(name: string)
      modifies this`conns, this`live
      ensures Held() == Purged(old(Held()), {name})
    {
      live := map c | c in live && !(c in conns && conns[c] == name) :: live[c];
      conns := map c | c in conns && conns[c] != name :: conns[c];
    }

    function State(): Logins
      reads this
    {
      Logins(userNameList, uuidToUid, uidToUuid)
    }

    method AddUsers(ps: seq<string>, ids: seq<int>)
      requires |ps| == |ids|
      modifies this
      ensures userNameList == old(userNameList) + ps && Held() == old(Held())
      ensures (uuidToUid, uidToUuid) == Put(old(uuidToUid), old(uidToUuid), ps, ids)
    {
      for i := 0 to |ps|
        invariant userNameList == old(userNameList) + ps[..i] && Held() == old(Held())
        invariant (uuidToUid, uidToUuid) == Put(old(uuidToUid), old(uidToUuid), ps[..i], ids[..i])
      {
        assert ps[..i + 1][..i] == ps[..i] && ids[..i + 1][..i] == ids[..i];
        userNameList := userNameList + [ps[i]];
        uuidToUid := uuidToUid[ps[i] := ids[i]];
        uidToUuid := uidToUuid[ids[i] := ps[i]];
      }
      assert ps[..|ps|] == ps && ids[..|ids|] == ids;
    }

    method DelUsers(names: seq<string>)
      modifies this
      ensures userNameList == Remaining(old(userNameList), SetOf(names))
      ensures (uuidToUid, uidToUuid) == Drop(old(uuidToUid), old(uidToUuid), names)
      ensures Held() == Purged(old(Held()), SetOf(names))
    {
      hide Purged, Held;
      PurgedNothing(Held());
      var toDelete := {};
      for i := 0 to |names|
        invariant toDelete == SetOf(names[..i]) && userNameList == old(userNameList)
        invariant (uuidToUid, uidToUuid) == Drop(old(uuidToUid), old(uidToUuid), names[..i])
        invariant Held() == Purged(old(Held()), toDelete)
      {
        assert names[..i + 1] == names[..i] + [names[i]] && names[..i + 1][..i] == names[..i];
        PurgedTwice(old(Held()), toDelete, {names[i]});
        toDelete := toDelete + {names[i]};
        uidToUuid := uidToUuid - {if names[i] in uuidToUid then uuidToUid[names[i]] else 0};
        uuidToUid := uuidToUid - {names[i]};
        CloseSessions(names[i]);
      }
      assert names[..|names|] == names;
      ghost var u, n, b := uuidToUid, uidToUuid, Held();
      var remaining := [];
      for i := 0 to |userNameList|
        invariant remaining == Remaining(userNameList[..i], toDelete)
        invariant userNameList == old(userNameList) && uuidToUid == u && uidToUuid == n && Held() == b
      {
        assert userNameList[..i + 1][..i] == userNameList[..i];
        if userNameList[i] !in toDelete {
          remaining := remaining + [userNameList[i]];
        }
      }
      assert userNameList[..|userNameList|] == userNameList;
      userNameList := remaining;
    }

    /** applyHysteria2Users: the live passwords are patched with the delta and what is stored
        under removed ones is closed; from any state the delta can repair, in
        particular one in sync with the old snapshot, every password afterwards resolves
        to the id the new list gives it, and back. */
    method Apply(next: seq<User>, was: Snapshot)
      requires WellKeyed(was)
      modifies this
      ensures var m := UsersByID(next);
              var r, a := RemovedCreds(Hysteria2, was, m), AddedCreds(Hysteria2, was, m);
              && SetOf(userNameList) == Patched(old(SetOf(userNameList)), r, a)
              && Held() == Purged(old(Held()), r)
              && (Distinct(Hysteria2, m) && old(Ready(State(), was, m)) ==> Synced(State(), m))
    {
      hide UsersByID, Kept, Cred, Distinct, WellKeyed, RemovedCreds, AddedCreds, Ready, Synced, Apart, Enumerates, Purged, Held;
      var removed, added := UserChanges(was, next);
      ghost var m := UsersByID(next);
      ghost var l0, b0 := State(), Held();
      DeltaCreds(Hysteria2, was, m, removed, added);
      var remove := Collect(Hysteria2, removed);
      if |remove| > 0 {
        DelUsers(remove);
      } else {
        NothingDropped(l0, b0, remove);
      }
      RemainingFacts(l0.list, SetOf(remove));
      var ps, ids := CollectLogins(added);
      if |ps| > 0 {
        AddUsers(ps, ids);
      } else {
        NothingPut(State(), ps, ids);
      }
      SetOfConcat(Remaining(l0.list, SetOf(remove)), ps);
      if Distinct(Hysteria2, m) && Ready(l0, was, m) {
        IndexFacts(next);
        AddedLogins(was, m, added, ps, ids);
        PatchSyncs(l0, was, m, remove, ps, ids);
      }
    }
  }

  lemma SetOfConcat(a: seq<string>, b: seq<string>)
    ensures SetOf(a + b) == SetOf(a) + SetOf(b)
  {
  }

  lemma NothingDropped(l: Logins, b: Book, remove: seq<string>)
    requires |remove| == 0
    ensures Drop(l.uidOf, l.nameOf, remove) == (l.uidOf, l.nameOf)
    ensures Remaining(l.list, SetOf(remove)) == l.list && Purged(b, SetOf(remove)) == b
  {
    hide Purged;
    assert SetOf(remove) == {};
    PurgedNothing(b);
    RemainsAll(l.list);
  }

  lemma {:induction false} RemainsAll(list: seq<string>)
    ensures Remaining(list, {}) == list
  {
    if list != [] {
      RemainsAll(list[..|list| - 1]);
      assert list == list[..|list| - 1] + [list[|list| - 1]];
    }
  }

  lemma NothingPut(l: Logins, ps: seq<string>, ids: seq<int>)
    requires |ps| == |ids| == 0
    ensures Put(l.uidOf, l.nameOf, ps, ids) == (l.uidOf, l.nameOf) && l.list + ps == l.list
  {
  }

  // The two parallel lists passed to AddUsers.
  method CollectLogins(us: seq<User>) returns (ps: seq<string>, ids: seq<int>)
    ensures |ps| == |ids|
    ensures SetOf(ps) == set u | u in us && Cred(Hysteria2, u) != "" :: Cred(Hysteria2, u)
    ensures forall i :: 0 <= i < |ps| ==> LoginOf(us, ps[i], ids[i])
  {
    hide Cred;
    ps, ids := [], [];
    for i := 0 to |us|
      invariant |ps| == |ids|
      invariant SetOf(ps) == set u | u in us[..i] && Cred(Hysteria2, u) != "" :: Cred(Hysteria2, u)
      invariant forall k :: 0 <= k < |ps| ==> LoginOf(us, ps[k], ids[k])
    {
      assert us[..i + 1] == us[..i] + [us[i]];
      var p := Cred(Hysteria2, us[i]);
      if p != "" {
        assert SetOf(ps + [p]) == SetOf(ps) + {p};
        assert us[i] in us && LoginOf(us, p, us[i].id);
        ps, ids := ps + [p], ids + [us[i].id];
      }
    }
    assert us[..|us|] == us;
  }

  ghost predicate LoginOf(us: seq<User>, p: string, id: int) {
    exists u :: u in us && Cred(Hysteria2, u) == p != "" && u.id == id
  }

  // ---- In sync with a snapshot ----

  // Password to id, as a snapshot with distinct passwords defines it.
  function LoginsOf(m: Snapshot): map<string, int>
    requires Distinct(Hysteria2, m)
  {
    map id | id in m && Cred(Hysteria2, m[id]) != "" :: Cred(Hysteria2, m[id]) := id
  }

  predicate Synced(l: Logins, m: Snapshot) {
    Distinct(Hysteria2, m) && Coherent(l) && l.uidOf == LoginsOf(m)
  }

  // The delta from `was` to `next` repairs this state.
  predicate Ready(l: Logins, was: Snapshot, next: Snapshot) {
    && Distinct(Hysteria2, next) && Coherent(l)
    && Part(l.uidOf - RemovedCreds(Hysteria2, was, next), LoginsOf(next))
    && Between(Hysteria2, was, next, l.uidOf.Keys)
  }

  lemma LoginsFacts(m: Snapshot)
    requires Distinct(Hysteria2, m) && WellKeyed(m)
    ensures LoginsOf(m).Keys == Creds(Hysteria2, m) && OneToOne(LoginsOf(m))
  {
  }

  lemma AddedLogins(was: Snapshot, m: Snapshot, added: seq<User>, ps: seq<string>, ids: seq<int>)
    requires Distinct(Hysteria2, m) && Enumerates(added, m, set id | id in m && !Kept(was, m, id))
    requires |ps| == |ids| && forall i :: 0 <= i < |ps| ==> LoginOf(added, ps[i], ids[i])
    ensures forall i :: 0 <= i < |ps| ==> ps[i] in LoginsOf(m) && LoginsOf(m)[ps[i]] == ids[i]
  {
    hide SameLogin;
    forall i | 0 <= i < |ps|
      ensures ps[i] in LoginsOf(m) && LoginsOf(m)[ps[i]] == ids[i]
    {
      assert LoginOf(added, ps[i], ids[i]);
      var u :| u in added && Cred(Hysteria2, u) == ps[i] != "" && u.id == ids[i];
      assert m[u.id] == u;
    }
  }

  lemma PatchSyncs(l: Logins, was: Snapshot, m: Snapshot, remove: seq<string>, ps: seq<string>, ids: seq<int>)
    requires WellKeyed(m) && Ready(l, was, m) && |ps| == |ids|
    requires SetOf(remove) == RemovedCreds(Hysteria2, was, m) && SetOf(ps) == AddedCreds(Hysteria2, was, m)
    requires forall i :: 0 <= i < |ps| ==> ps[i] in LoginsOf(m) && LoginsOf(m)[ps[i]] == ids[i]
    ensures var (u, n) := Drop(l.uidOf, l.nameOf, remove);
            var (u', n') := Put(u, n, ps, ids);
            Synced(Logins(Remaining(l.list, SetOf(remove)) + ps, u', n'), m)
  {
    hide RemovedCreds, AddedCreds, Creds, Drop, Put, Mirrored, Between, OneToOne, LoginsOf, Distinct, WellKeyed;
    LoginsFacts(m);
    DropFacts(l.uidOf, l.nameOf, remove);
    var (u, n) := Drop(l.uidOf, l.nameOf, remove);
    PutFacts(u, n, ps, ids, LoginsOf(m));
    var (u', n') := Put(u, n, ps, ids);
    BetweenExact(Hysteria2, was, m, l.uidOf.Keys);
    assert u'.Keys == LoginsOf(m).Keys;
    assert u' == LoginsOf(m);
    RemainingFacts(l.list, SetOf(remove));
    SetOfConcat(Remaining(l.list, SetOf(remove)), ps);
  }

  /** A table in sync with the old snapshot is ready for any delta from it. */
  lemma SyncedIsReady(l: Logins, was: Snapshot, next: Snapshot)
    requires Synced(l, was) && WellKeyed(was) && Distinct(Hysteria2, next)
    ensures Ready(l, was, next)
  {
    hide Mirrored;
    LoginsFacts(was);
    StartsBetween(Hysteria2, was, next);
    forall p | p in l.uidOf && p !in RemovedCreds(Hysteria2, was, next)
      ensures p in LoginsOf(next) && LoginsOf(next)[p] == l.uidOf[p]
    {
      var id := l.uidOf[p];
      assert Kept(was, next, id) && Cred(Hysteria2, next[id]) == p;
    }
  }

  // A table in sync gives each id of the snapshot its password, and no other id any.
  lemma SyncedNames(l: Logins, m: Snapshot, id: int)
    requires Synced(l, m)
    ensures id in l.nameOf <==> id in m && Cred(Hysteria2, m[id]) != ""
    ensures id in l.nameOf ==> l.nameOf[id] == Cred(Hysteria2, m[id])
  {
    if id in m && Cred(Hysteria2, m[id]) != "" {
      assert Cred(Hysteria2, m[id]) in LoginsOf(m);
    }
  }

  // ---- Attempts that fail part-way ----

  // Some deletes; or all of them, and then some adds.
  datatype Partial = Partial(gone: seq<string>, ps: seq<string>, ids: seq<int>)

  predicate PartialOf(was: Snapshot, next: Snapshot, p: Partial)
    requires Distinct(Hysteria2, next)
  {
    && |p.ps| == |p.ids|
    && SetOf(p.gone) <= RemovedCreds(Hysteria2, was, next) && SetOf(p.ps) <= AddedCreds(Hysteria2, was, next)
    && (p.ps != [] ==> SetOf(p.gone) == RemovedCreds(Hysteria2, was, next))
    && forall i :: 0 <= i < |p.ps| ==> p.ps[i] in LoginsOf(next) && LoginsOf(next)[p.ps[i]] == p.ids[i]
  }

  function AfterPartial(l: Logins, p: Partial): Logins
    requires |p.ps| == |p.ids|
  {
    var (u, n) := Drop(l.uidOf, l.nameOf, p.gone);
    var (u', n') := Put(u, n, p.ps, p.ids);
    Logins(Remaining(l.list, SetOf(p.gone)) + p.ps, u', n')
  }

  // The tables after an attempt: still a mirror, with the keys one expects, right where they stay.
  lemma PartialTables(l: Logins, was: Snapshot, next: Snapshot, p: Partial)
    requires Ready(l, was, next) && WellKeyed(next) && PartialOf(was, next, p)
    ensures var l' := AfterPartial(l, p);
            && Coherent(l') && l'.uidOf.Keys == (l.uidOf.Keys - SetOf(p.gone)) + SetOf(p.ps)
            && Part(l'.uidOf - RemovedCreds(Hysteria2, was, next), LoginsOf(next))
  {
    hide RemovedCreds, AddedCreds, Drop, Put, Mirrored, OneToOne, LoginsOf, Distinct, WellKeyed, Between, Remaining;
    LoginsFacts(next);
    DropFacts(l.uidOf, l.nameOf, p.gone);
    var (u, n) := Drop(l.uidOf, l.nameOf, p.gone);
    RemainingFacts(l.list, SetOf(p.gone));
    SetOfConcat(Remaining(l.list, SetOf(p.gone)), p.ps);
    if p.ps == [] {
      NothingPut(Logins([], u, n), p.ps, p.ids);
    } else {
      PutFacts(u, n, p.ps, p.ids, LoginsOf(next));
    }
  }

  /** Retry on the three tables: an attempt that stopped among its deletes, or among its
      adds after all deletes, leaves a state the same delta still repairs. */
  lemma AttemptKeepsReady(l: Logins, was: Snapshot, next: Snapshot, p: Partial)
    requires Ready(l, was, next) && WellKeyed(next) && PartialOf(was, next, p)
    ensures Ready(AfterPartial(l, p), was, next)
  {
    hide RemovedCreds, AddedCreds, AfterPartial, Coherent, Part, LoginsOf, Distinct, WellKeyed, Between, Harmless;
    PartialTables(l, was, next, p);
    HarmlessToItself(Hysteria2, was, next, l.uidOf.Keys);
    assert p.ps == [] ==> SetOf(p.ps) == {};
    StillBetween(was, next, l.uidOf.Keys, SetOf(p.gone), SetOf(p.ps));
  }

  function AfterPartials(l: Logins, ps: seq<Partial>): Logins
    requires forall p :: p in ps ==> |p.ps| == |p.ids|
    decreases |ps|
  {
    if ps == [] then l else AfterPartials(AfterPartial(l, ps[0]), ps[1..])
  }

  lemma {:induction false} AttemptsKeepReady(l: Logins, was: Snapshot, next: Snapshot, ps: seq<Partial>)
    requires Ready(l, was, next) && WellKeyed(next) && forall p :: p in ps ==> |p.ps| == |p.ids| && PartialOf(was, next, p)
    ensures Ready(AfterPartials(l, ps), was, next)
    decreases |ps|
  {
    hide Ready, AfterPartial, WellKeyed, LoginsOf, RemovedCreds, AddedCreds;
    if ps != [] {
      AttemptKeepsReady(l, was, next, ps[0]);
      AttemptsKeepReady(AfterPartial(l, ps[0]), was, next, ps[1..]);
    }
  }

  // The attempt that goes through.
  predicate Whole(was: Snapshot, next: Snapshot, p: Partial)
    requires Distinct(Hysteria2, next)
  {
    PartialOf(was, next, p) && SetOf(p.gone) == RemovedCreds(Hysteria2, was, next) && SetOf(p.ps) == AddedCreds(Hysteria2, was, next)
  }

  /** From an inbound in sync, any number of attempts at one list that fail part-way and then
      one that goes through leave all three tables in sync with that list. */
  lemma TablesRetryConverges(l: Logins, was: Snapshot, next: Snapshot, ps: seq<Partial>, last: Partial)
    requires Synced(l, was) && WellKeyed(was) && WellKeyed(next) && Distinct(Hysteria2, next)
    requires (forall p :: p in ps ==> |p.ps| == |p.ids| && PartialOf(was, next, p)) && Whole(was, next, last)
    ensures Synced(AfterPartial(AfterPartials(l, ps), last), next)
  {
    hide Ready, Synced, WellKeyed, Distinct, LoginsOf, RemovedCreds, AddedCreds, Drop, Put, Remaining, AfterPartials;
    SyncedIsReady(l, was, next);
    AttemptsKeepReady(l, was, next, ps);
    PatchSyncs(AfterPartials(l, ps), was, next, last.gone, last.ps, last.ids);
  }

  // The VLESS list after an attempt; a retry may add an entry that is already there.
  function AfterVless(users: seq<VlessUser>, gone: set<string>, come: seq<string>): seq<VlessUser> {
    Without(users, gone) + seq(|come|, i requires 0 <= i < |come| => VlessEntry(come[i]))
  }

  lemma VlessNames(users: seq<VlessUser>, gone: set<string>, come: seq<string>)
    requires Plain(users)
    ensures Plain(AfterVless(users, gone, come)) && Names(AfterVless(users, gone, come)) == (Names(users) - gone) + SetOf(come)
  {
    hide Without, Unique;
    WithoutFacts(users, gone);
    var entries := seq(|come|, i requires 0 <= i < |come| => VlessEntry(come[i]));
    EntriesOf(come, entries);
    Appended(Without(users, gone), entries);
    assert Plain(Without(users, gone));
  }

  // The list after tries of the given lists, each adding its users in some order, perhaps twice.
  ghost predicate VlessTried(was: Snapshot, users: seq<VlessUser>, tries: seq<Try>, result: seq<VlessUser>)
    decreases |tries|
  {
    if tries == [] then result == users
    else
      exists come: seq<string> ::
        && SetOf(come) == (if tries[0].attempt.SomeAdds? then tries[0].attempt.come else {})
        && VlessTried(was, AfterVless(users, if tries[0].attempt.SomeAdds? then RemovedCreds(Vless, was, tries[0].list) else tries[0].attempt.gone, come),
                      tries[1..], result)
  }

  /** The entry list follows the sets of Users: whatever the tries and their orders, the live
      names are those of the tries. */
  lemma {:induction false} VlessFollowsTries(was: Snapshot, users: seq<VlessUser>, tries: seq<Try>, result: seq<VlessUser>)
    requires Plain(users) && VlessTried(was, users, tries, result)
    ensures Plain(result) && Names(result) == AfterTries(Vless, was, Names(users), tries)
    decreases |tries|
  {
    hide AfterVless, Plain, Names, RemovedCreds;
    if tries != [] {
      var t := tries[0].attempt;
      var gone := if t.SomeAdds? then RemovedCreds(Vless, was, tries[0].list) else t.gone;
      var come: seq<string> :| SetOf(come) == (if t.SomeAdds? then t.come else {}) && VlessTried(was, AfterVless(users, gone, come), tries[1..], result);
      VlessNames(users, gone, come);
      VlessFollowsTries(was, AfterVless(users, gone, come), tries[1..], result);
      assert Names(AfterVless(users, gone, come)) == AfterAttempt(Vless, was, tries[0].list, Names(users), t);
    }
  }

  lemma StillBetween(was: Snapshot, next: Snapshot, live: set<string>, gone: set<string>, come: set<string>)
    requires Between(Hysteria2, was, next, live) && Harmless(Hysteria2, was, next, next)
    requires gone <= RemovedCreds(Hysteria2, was, next) && come <= AddedCreds(Hysteria2, was, next)
    requires come != {} ==> gone == RemovedCreds(Hysteria2, was, next)
    ensures Between(Hysteria2, was, next, (live - gone) + come)
  {
    hide RemovedCreds, AddedCreds, Creds, Between, Harmless;
    if come == {} {
      AttemptStaysBetween(Hysteria2, was, next, next, live, SomeDeletes(gone));
      assert (live - gone) + come == live - gone;
    } else {
      AttemptStaysBetween(Hysteria2, was, next, next, live, SomeAdds(come));
    }
  }
}
