/** UserManager (cmd/mini-sb-agent/user_manager.go): commits per-inbound snapshots and
    drives the life cycle of the limiter objects that live connections hold. */
module UserManagers {
  import opened GoStrings
  import opened RateLimiters
  import opened Users
  import opened Inbounds
  import S = Sessions

  function MbpsToBytes(mbps: int): int {
    if mbps <= 0 then 0 else mbps * 1000 * 1000 / 8
  }

  /** A megabit is a million bits: eight rates to the byte, and no rate without a limit. */
  lemma MbpsMeans(mbps: int)
    ensures mbps > 0 ==> MbpsToBytes(mbps) == mbps * 125_000
    ensures mbps <= 0 ==> MbpsToBytes(mbps) == 0
  {
  }

  /** The two limiters of one user, one per direction.  They are never replaced, so a
      connection that holds one of them holds this object; their states are the buckets
      of RateLimiters. */
  class LimiterPair {
    var rx: Bucket
    var tx: Bucket

    constructor (bytesPerSecond: int, now: real)
      ensures OpenAt(bytesPerSecond) && Sound()
    {
      rx, tx := NewBucket(bytesPerSecond, now), NewBucket(bytesPerSecond, now);
    }

    predicate Open()
      reads this
    {
      !rx.closed && !tx.closed
    }

    predicate OpenAt(rate: int)
      reads this
    {
      Open() && rx.rate == rate && tx.rate == rate
    }

    predicate Shut()
      reads this
    {
      rx.closed && tx.closed
    }

    // A user without a speed limit.
    predicate Unlimited()
      reads this
    {
      Open() && rx.rate <= 0 && tx.rate <= 0
    }

    method SetRate(rate: int, now: real)
      requires Open()
      modifies this
      ensures OpenAt(rate) && Sound()
      ensures rx == WithRate(old(rx), rate, now) && tx == WithRate(old(tx), rate, now)
    {
      rx, tx := WithRate(rx, rate, now), WithRate(tx, rate, now);
    }

    method Close()
      modifies this
      ensures Shut() && Sound()
    {
      rx, tx := RateLimiters.Shut(rx), RateLimiters.Shut(tx);
    }

    // Calls charge limiting buckets only.
    predicate Sound()
      reads this
    {
      (rx.Active() ==> rx.Limiting()) && (tx.Active() ==> tx.Limiting())
    }

    /** A stream waits in one direction: waiting never opens, closes or re-rates the pair,
        on a closed pair every positive-size wait fails and changes nothing, and on an open
        one every wait succeeds, without any effect if the user has no limit. */
    method Wait(reading: bool, n: int, rounds: nat -> Round) returns (ok: bool)
      requires Sound()
      modifies this
      ensures Sound()
      ensures rx == (if reading then WaitFrom(old(rx), n, rounds, 0).bucket else old(rx))
      ensures tx == (if reading then old(tx) else WaitFrom(old(tx), n, rounds, 0).bucket)
      ensures rx.closed == old(rx).closed && rx.rate == old(rx).rate && tx.closed == old(tx).closed && tx.rate == old(tx).rate
      ensures old(Shut()) && n > 0 ==> !ok && rx == old(rx) && tx == old(tx)
      ensures old(Unlimited()) ==> ok && rx == old(rx) && tx == old(tx)
      ensures old(Open()) ==> ok
    {
      hide BurstFor;
      var b := if reading then rx else tx;
      var w := WaitFrom(b, n, rounds, 0);
      if b.Active() {
        WaitChargesExactly(b, n, rounds, 0);
      } else if !b.closed {
        UnlimitedIsFree(b, Call.Reserve(n, 0.0), n, rounds, 0);
      }
      ok := w.ok;
      if reading {
        rx := w.bucket;
      } else {
        tx := w.bucket;
      }
    }

    /** A datagram asks in one direction, with the same promises. */
    method Allow(reading: bool, n: int, now: real) returns (v: Verdict)
      requires Sound()
      modifies this
      ensures Sound()
      ensures n > 0 ==> ((if reading then rx else tx), v) == Decide(if reading then old(rx) else old(tx), Call.Allow(n, now))
      ensures reading ==> tx == old(tx)
      ensures !reading ==> rx == old(rx)
      ensures rx.closed == old(rx).closed && rx.rate == old(rx).rate && tx.closed == old(tx).closed && tx.rate == old(tx).rate
      ensures old(Shut()) && n > 0 ==> v == Closed && rx == old(rx) && tx == old(tx)
      ensures old(Unlimited()) || n <= 0 ==> v == Free && rx == old(rx) && tx == old(tx)
    {
      hide BurstFor, Refilled;
      if n <= 0 {
        return Free;
      }
      var b := if reading then rx else tx;
      CallKeeps(b, Call.Allow(n, now));
      if !b.closed && b.rate <= 0 {
        UnlimitedIsFree(b, Call.Allow(n, now), n, _ => Round([], now), 0);
      }
      var (after, verdict) := Decide(b, Call.Allow(n, now));
      v := verdict;
      if reading {
        rx := after;
      } else {
        tx := after;
      }
    }
  }

  ghost function PairsIn(m: map<int, LimiterPair>, ids: set<int>): set<LimiterPair> {
    set id | id in m && id in ids :: m[id]
  }

  lemma MorePairs(m: map<int, LimiterPair>, ids: set<int>, id: int)
    requires id in m
    ensures PairsIn(m, ids + {id}) == PairsIn(m, ids) + {m[id]}
  {
    assert id in m && id in ids + {id};
    forall p | p in PairsIn(m, ids)
      ensures p in PairsIn(m, ids + {id})
    {
      var i :| i in m && i in ids && m[i] == p;
    }
  }

  class LimiterTable {
    var limiters: map<int, LimiterPair>
    // Every pair that was ever closed and dropped from the table.
    ghost var retired: set<LimiterPair>

    constructor ()
      ensures limiters == map[] && retired == {} && Valid()
    {
      limiters, retired := map[], {};
    }

    ghost function Pairs(): set<LimiterPair>
      reads this
    {
      set id | id in limiters :: limiters[id]
    }

    // Every pair a connection may hold.
    ghost function All(): set<LimiterPair>
      reads this
    {
      Pairs() + retired
    }

    // One pair per id; those in the table are open, those retired are closed.
    ghost predicate Valid()
      reads this, Pairs(), retired
    {
      && (forall i, j :: i in limiters && j in limiters && limiters[i] == limiters[j] ==> i == j)
      && (forall id :: id in limiters ==> limiters[id] !in retired && limiters[id].Open() && limiters[id].Sound())
      && (forall p :: p in retired ==> p.Shut() && p.Sound())
    }

    // Exactly these users have limiters, each open at its user's rate.
    ghost predicate Serves(active: Snapshot)
      reads this, Pairs()
    {
      && limiters.Keys == active.Keys
      && forall id :: id in active ==> limiters[id].OpenAt(MbpsToBytes(active[id].speedLimit))
    }

    // closeLimiterLocked
    method CloseLimiter(id: int)
      requires Valid() && id in limiters
      modifies this, limiters[id]
      ensures Valid()
      ensures limiters == old(limiters) - {id} && retired == old(retired) + {old(limiters)[id]}
    {
      var p := limiters[id];
      p.Close();
      limiters := limiters - {id};
      retired := retired + {p};
    }

    // updateLimiterLocked
    method UpdateLimiter(id: int, rate: int, now: real)
      requires Valid()
      modifies this, if id in limiters then {limiters[id]} else {}
      ensures Valid() && retired == old(retired)
      ensures limiters.Keys == old(limiters).Keys + {id} && limiters[id].OpenAt(rate)
      ensures forall i :: i in old(limiters) ==> limiters[i] == old(limiters)[i]
      ensures id !in old(limiters) ==> fresh(limiters[id])
    {
      if id in limiters {
        limiters[id].SetRate(rate, now);
      } else {
        var p := new LimiterPair(rate, now);
        limiters := limiters[id := p];
      }
    }

    // Closes the limiters of every id that is no longer active.
    method CloseInactive(active: Snapshot)
      requires Valid()
      modifies this, Pairs()
      ensures Valid()
      ensures limiters == old(limiters) - (old(limiters).Keys - active.Keys)
      ensures retired == old(retired) + PairsIn(old(limiters), old(limiters).Keys - active.Keys)
    {
      hide PairsIn, LimiterPair.Sound, LimiterPair.Shut, LimiterPair.Open;
      ghost var before, was := limiters, retired;
      ghost var gone: set<int> := {};
      NoPairs(before);
      var todo := limiters.Keys;
      while todo != {}
        invariant Valid()
        invariant todo <= before.Keys && gone == before.Keys - active.Keys - todo
        invariant limiters == before - gone && retired == was + PairsIn(before, gone)
      {
        SomeElement(todo);
        var id :| id in todo;
        if id !in active {
          CloseLimiter(id);
          MorePairs(before, gone, id);
          gone := gone + {id};
        }
        todo := todo - {id};
      }
      assert gone == before.Keys - active.Keys;
    }

    // Sets the rate of every active id, creating pairs where there are none.
    method Refresh(active: Snapshot, now: real)
      requires Valid()
      modifies this, Pairs()
      ensures Valid() && retired == old(retired)
      ensures limiters.Keys == old(limiters).Keys + active.Keys
      ensures forall id :: id in active ==> limiters[id].OpenAt(MbpsToBytes(active[id].speedLimit))
      ensures forall id :: id in old(limiters) ==> limiters[id] == old(limiters)[id]
      ensures forall id :: id in limiters && id !in old(limiters) ==> fresh(limiters[id])
    {
      hide MbpsToBytes, WithRate, LimiterPair.Sound, LimiterPair.Shut;
      ghost var before := limiters;
      var todo := active.Keys;
      while todo != {}
        invariant Valid() && retired == old(retired)
        invariant todo <= active.Keys && limiters.Keys == before.Keys + (active.Keys - todo)
        invariant forall id :: id in before ==> limiters[id] == before[id]
        invariant forall id :: id in active && id !in todo ==> limiters[id].OpenAt(MbpsToBytes(active[id].speedLimit))
        invariant forall id :: id in limiters && id !in before ==> fresh(limiters[id])
      {
        SomeElement(todo);
        var id :| id in todo;
        UpdateLimiter(id, MbpsToBytes(active[id].speedLimit), now);
        todo := todo - {id};
      }
    }

    /** The limiter loops of an apply: afterwards the table has exactly the active ids,
        each open at its user's rate; an id that stays keeps the very same pair, so live
        connections see the new rate; and exactly the pairs of ids that left are retired,
        for good. */
    method Retarget(active: Snapshot, now: real)
      requires Valid()
      modifies this, Pairs()
      ensures Valid() && Serves(active)
      ensures forall id :: id in active && id in old(limiters) ==> limiters[id] == old(limiters)[id]
      ensures forall id :: id in active && id !in old(limiters) ==> fresh(limiters[id])
      ensures retired == old(retired) + PairsIn(old(limiters), old(limiters).Keys - active.Keys)
      ensures old(All()) <= All() && fresh(All() - old(All()))
    {
      hide MbpsToBytes, PairsIn, Valid, Serves;
      ghost var before, was := limiters, retired;
      CloseInactive(active);
      Refresh(active, now);
      assert Serves(active) by { ServesAll(active); }
      PairsKept(before, limiters, active.Keys, was);
    }

    lemma ServesAll(active: Snapshot)
      requires limiters.Keys == active.Keys
      requires forall id :: id in active ==> limiters[id].OpenAt(MbpsToBytes(active[id].speedLimit))
      ensures Serves(active)
    {
    }
  }

  // Pairs of ids that stay, and those retired, are all still there; the rest belong to new ids.
  lemma PairsKept(before: map<int, LimiterPair>, after: map<int, LimiterPair>, active: set<int>, was: set<LimiterPair>)
    requires after.Keys == active && forall id :: id in active && id in before ==> after[id] == before[id]
    ensures var all, all' := (set id | id in before :: before[id]) + was, (set id | id in after :: after[id]) + (was + PairsIn(before, before.Keys - active));
            && all <= all'
            && forall p :: p in all' && p !in all ==> exists id :: id in after && id !in before && after[id] == p
  {
    var all, all' := (set id | id in before :: before[id]) + was, (set id | id in after :: after[id]) + (was + PairsIn(before, before.Keys - active));
    forall p | p in all
      ensures p in all'
    {
      if p !in was {
        var id :| id in before && before[id] == p;
        if id in active { assert after[id] == p; } else { assert id in before.Keys - active; }
      }
    }
  }

  lemma NoPairs(m: map<int, LimiterPair>)
    ensures PairsIn(m, {}) == {}
  {
  }

  // ---- Inbounds ----

  datatype InboundRef = VlessRef(vless: VlessInbound) | Hysteria2Ref(hy2: Hysteria2Inbound) | OtherRef

  ghost function ObjectOf(r: InboundRef): set<object> {
    match r
    case VlessRef(v) => {v}
    case Hysteria2Ref(h) => {h}
    case OtherRef => {}
  }

  // The list holds only entries the agent added.
  ghost predicate Usable(r: InboundRef)
    reads ObjectOf(r)
  {
    r.VlessRef? ==> Plain(r.vless.users)
  }

  predicate DistinctFor(r: InboundRef, m: Snapshot) {
    match r
    case VlessRef(_) => Distinct(Vless, m)
    case Hysteria2Ref(_) => Distinct(Hysteria2, m)
    case OtherRef => true
  }

  /** An inbound lets in exactly the users of a snapshot: their UUIDs, or each password with
      its id; and its session table holds what S.Sound says. */
  ghost predicate InSync(r: InboundRef, m: Snapshot)
    reads ObjectOf(r)
  {
    match r
    case VlessRef(v) => Plain(v.users) && Names(v.users) == Creds(Vless, m) && S.Sound(Vless, m, v.Held())
    case Hysteria2Ref(h) => Synced(h.State(), m) && S.Sound(Hysteria2, m, h.Held())
    case OtherRef => true
  }

  // The session table of an inbound and the sessions open on it.
  ghost function HeldBy(r: InboundRef): S.Book
    reads ObjectOf(r)
  {
    match r
    case VlessRef(v) => v.Held()
    case Hysteria2Ref(h) => h.Held()
    case OtherRef => S.EMPTY
  }

  // What is stored under the names of removed users is closed, and nothing else.
  ghost predicate PurgesRemoved(r: InboundRef, was: Snapshot, next: Snapshot, before: S.Book, after: S.Book) {
    match r
    case VlessRef(_) => after == S.Purged(before, RemovedCreds(Vless, was, next))
    case Hysteria2Ref(_) => after == S.Purged(before, RemovedCreds(Hysteria2, was, next))
    case OtherRef => after == before
  }

  /** A session closes if and only if it is a Hysteria 2 stream whose user was removed or logs
      in differently: a kept user's sessions survive, and a removed user's VLESS sessions and
      packet sessions stay open. */
  ghost predicate ClosesStreams(r: InboundRef, was: Snapshot, next: Snapshot, before: S.Book, after: S.Book) {
    && after.live.Keys <= before.live.Keys
    && forall c :: c in before.live ==>
         (c !in after.live <==> r.Hysteria2Ref? && before.live[c].stream && !Kept(was, next, before.live[c].id))
  }

  /** Whatever state an inbound is in, an entry under a kept user's credential survives, and an
      entry that goes was stored under a removed user's. */
  lemma KeptSessionsSurvive(r: InboundRef, was: Snapshot, next: Snapshot, before: S.Book, after: S.Book, c: int)
    requires PurgesRemoved(r, was, next, before, after) && DistinctFor(r, was) && c in before.names
    ensures (exists id :: Kept(was, next, id) && before.names[c] != "" && before.names[c] == (if r.VlessRef? then was[id].uuid else was[id].password))
            ==> c in after.names && after.names[c] == before.names[c] && (c in before.live ==> c in after.live)
    ensures c !in after.names ==> exists id :: id in was && !Kept(was, next, id) && before.names[c] == (if r.VlessRef? then was[id].uuid else was[id].password)
  {
    hide SameLogin;
  }

  // A session is accepted from a user of the snapshot: through `index` of the VLESS list, or by id.
  method OpenSession(r: InboundRef, c: int, index: nat, id: int, stream: bool, ghost m: Snapshot) returns (ok: bool)
    requires InSync(r, m) && c !in HeldBy(r).live
    requires r.VlessRef? ==> stream && index < |r.vless.users| && id in m && m[id].uuid == r.vless.users[index].name != ""
    modifies ObjectOf(r)
    ensures InSync(r, m)
    ensures r.VlessRef? ==> ok && HeldBy(r) == S.Accepted(Vless, old(HeldBy(r)), c, S.Session(id, stream), m[id].uuid)
    ensures r.Hysteria2Ref? ==> (ok <==> id in m && m[id].password != "")
    ensures r.Hysteria2Ref? && ok ==> HeldBy(r) == S.Accepted(Hysteria2, old(HeldBy(r)), c, S.Session(id, stream), m[id].password)
    ensures !ok ==> HeldBy(r) == old(HeldBy(r))
  {
    hide S.Sound, S.Accepted, Synced;
    match r
    case VlessRef(v) =>
      S.AcceptSound(Vless, m, v.Held(), c, S.Session(id, stream));
      var _ := v.Accept(c, index, id);
      ok := true;
    case Hysteria2Ref(h) =>
      SyncedNames(h.State(), m, id);
      if id in m && m[id].password != "" {
        S.AcceptSound(Hysteria2, m, h.Held(), c, S.Session(id, stream));
      }
      if stream {
        ok := h.AcceptStream(c, id);
      } else {
        ok := h.AcceptPacket(c, id);
      }
    case OtherRef =>
      ok := false;
  }

  method EndSession(r: InboundRef, c: int, ghost m: Snapshot)
    requires InSync(r, m)
    modifies ObjectOf(r)
    ensures InSync(r, m) && (!r.OtherRef? ==> HeldBy(r) == S.Ended(old(HeldBy(r)), c))
  {
    hide S.Sound, S.Ended, Synced;
    match r
    case VlessRef(v) =>
      S.EndSound(Vless, m, v.Held(), c);
      v.End(c);
    case Hysteria2Ref(h) =>
      S.EndSound(Hysteria2, m, h.Held(), c);
      h.End(c);
    case OtherRef =>
  }

  // An inbound before its turn: what is known of it, and its sessions.
  ghost predicate Waiting(r: InboundRef, was: Snapshot, synced: bool, held: S.Book)
    reads ObjectOf(r)
  {
    Usable(r) && (synced ==> InSync(r, was)) && HeldBy(r) == held
  }

  // And after it.
  ghost predicate Applied(r: InboundRef, was: Snapshot, next: Snapshot, synced: bool, held: S.Book)
    reads ObjectOf(r)
  {
    && Usable(r) && PurgesRemoved(r, was, next, held, HeldBy(r))
    && (synced && DistinctFor(r, was) && DistinctFor(r, next) ==> InSync(r, next) && ClosesStreams(r, was, next, held, HeldBy(r)))
  }

  // An inbound in sync closes streams only.
  lemma PurgeClosesStreams(kind: Kind, r: InboundRef, was: Snapshot, next: Snapshot, held: S.Book)
    requires S.Sound(kind, was, held) && Distinct(kind, was) && (kind.Hysteria2? <==> r.Hysteria2Ref?)
    ensures ClosesStreams(r, was, next, held, S.Purged(held, RemovedCreds(kind, was, next)))
  {
    hide S.Sound, Distinct, RemovedCreds, Kept;
    forall c | c in held.live
      ensures c !in S.Purged(held, RemovedCreds(kind, was, next)).live
              <==> r.Hysteria2Ref? && held.live[c].stream && !Kept(was, next, held.live[c].id)
    {
      S.PurgeCloses(kind, was, next, held, c);
    }
  }

  // One inbound's turn in ApplyBoxByInbound.
  method ApplyOne(r: InboundRef, next: seq<User>, was: Snapshot, ghost synced: bool, ghost held: S.Book)
    requires WellKeyed(was) && Waiting(r, was, synced, held)
    modifies ObjectOf(r)
    ensures Applied(r, was, UsersByID(next), synced, held)
  {
    hide UsersByID, Creds, RemovedCreds, AddedCreds, Distinct, Synced, Ready, S.Purged, S.Sound, ClosesStreams, Names, Unique, Plain;
    ghost var m := UsersByID(next);
    match r
    case VlessRef(v) =>
      if Distinct(Vless, was) {
        DistinctNeverClash(Vless, was, m);
        if S.Sound(Vless, was, held) {
          S.PurgeSound(Vless, was, m, held);
          PurgeClosesStreams(Vless, r, was, m, held);
        }
      }
      v.Apply(next, was);
    case Hysteria2Ref(h) =>
      if Synced(h.State(), was) && Distinct(Hysteria2, m) {
        SyncedIsReady(h.State(), was, m);
        if S.Sound(Hysteria2, was, held) && Distinct(Hysteria2, was) {
          S.PurgeSound(Hysteria2, was, m, held);
          PurgeClosesStreams(Hysteria2, r, was, m, held);
        }
      }
      h.Apply(next, was);
    case OtherRef => OthersCloseNothing(was, m, held);
  }

  lemma OthersCloseNothing(was: Snapshot, next: Snapshot, held: S.Book)
    ensures ClosesStreams(OtherRef, was, next, held, held)
  {
  }

  ghost function Vlesses(inbounds: map<string, InboundRef>): set<VlessInbound> {
    set t | t in inbounds && inbounds[t].VlessRef? :: inbounds[t].vless
  }

  ghost function Hysterias(inbounds: map<string, InboundRef>): set<Hysteria2Inbound> {
    set t | t in inbounds && inbounds[t].Hysteria2Ref? :: inbounds[t].hy2
  }

  predicate DistinctRefs(inbounds: map<string, InboundRef>) {
    forall s, t :: s in inbounds && t in inbounds && s != t && inbounds[s] == inbounds[t] ==> inbounds[s].OtherRef?
  }

  function ListOf(lists: map<string, seq<User>>, tag: string): seq<User> {
    if tag in lists then lists[tag] else []
  }

  function SnapshotOf(byInbound: map<string, Snapshot>, tag: string): Snapshot {
    if tag in byInbound then byInbound[tag] else map[]
  }

  function IndexAll(lists: map<string, seq<User>>): map<string, Snapshot> {
    map t | t in lists :: UsersByID(lists[t])
  }

  // The inbounds that let in exactly the users of their snapshot.
  ghost function SyncedTags(inbounds: map<string, InboundRef>, byInbound: map<string, Snapshot>): set<string>
    reads Vlesses(inbounds), Hysterias(inbounds)
  {
    set t | t in inbounds && InSync(inbounds[t], SnapshotOf(byInbound, t))
  }

  // The inbounds whose snapshot has distinct credentials.
  function DistinctTags(inbounds: map<string, InboundRef>, byInbound: map<string, Snapshot>): set<string> {
    set t | t in inbounds && DistinctFor(inbounds[t], SnapshotOf(byInbound, t))
  }

  ghost predicate AllUsable(inbounds: map<string, InboundRef>)
    reads Vlesses(inbounds), Hysterias(inbounds)
  {
    forall t :: t in inbounds ==> Usable(inbounds[t])
  }

  predicate AllWellKeyed(byInbound: map<string, Snapshot>) {
    forall t :: t in byInbound ==> WellKeyed(byInbound[t])
  }

  ghost function AllSessions(inbounds: map<string, InboundRef>): map<string, S.Book>
    reads Vlesses(inbounds), Hysterias(inbounds)
  {
    map t | t in inbounds :: HeldBy(inbounds[t])
  }

  // Every inbound purged its table of the users removed from it, and those in `synced` closed
  // exactly the streams of these users.
  ghost predicate AllPurged(inbounds: map<string, InboundRef>, synced: set<string>, was: map<string, Snapshot>, next: map<string, Snapshot>,
                            before: map<string, S.Book>, after: map<string, S.Book>) {
    forall t :: t in inbounds ==>
      && t in before && t in after
      && PurgesRemoved(inbounds[t], SnapshotOf(was, t), SnapshotOf(next, t), before[t], after[t])
      && (t in synced ==> ClosesStreams(inbounds[t], SnapshotOf(was, t), SnapshotOf(next, t), before[t], after[t]))
  }

  /** The delta loop, in any order of the inbound map: each inbound in sync with its old
      snapshot ends in sync with its own new list, whatever happens to the others, and closes
      exactly the Hysteria 2 streams of the users removed from it. */
  method ApplyDeltas(inbounds: map<string, InboundRef>, lists: map<string, seq<User>>, byInbound: map<string, Snapshot>)
    requires DistinctRefs(inbounds) && AllUsable(inbounds) && AllWellKeyed(byInbound)
    modifies Vlesses(inbounds), Hysterias(inbounds)
    ensures AllUsable(inbounds)
    ensures old(SyncedTags(inbounds, byInbound)) * DistinctTags(inbounds, byInbound) * DistinctTags(inbounds, IndexAll(lists))
            <= SyncedTags(inbounds, IndexAll(lists))
    ensures AllPurged(inbounds, old(SyncedTags(inbounds, byInbound)) * DistinctTags(inbounds, byInbound) * DistinctTags(inbounds, IndexAll(lists)),
                      byInbound, IndexAll(lists), old(AllSessions(inbounds)), AllSessions(inbounds))
  {
    hide UsersByID, DistinctFor, Waiting, Applied, WellKeyed, IndexAll, SnapshotOf, ListOf, AllPurged, AllUsable, SyncedTags, DistinctTags, AllSessions;
    ghost var next := IndexAll(lists);
    ghost var synced, sessions := SyncedTags(inbounds, byInbound), AllSessions(inbounds);
    AllWaiting(inbounds, byInbound);
    var todo := inbounds.Keys;
    while todo != {}
      invariant todo <= inbounds.Keys
      invariant forall t :: t in todo ==> t in sessions && Waiting(inbounds[t], SnapshotOf(byInbound, t), t in synced, sessions[t])
      invariant forall t :: t in inbounds && t !in todo ==>
                  t in sessions && Applied(inbounds[t], SnapshotOf(byInbound, t), SnapshotOf(next, t), t in synced, sessions[t])
    {
      var tag :| tag in todo;
      SnapshotsWellKeyed(byInbound, tag);
      SnapshotOfIndex(lists, tag);
      OthersApart(inbounds, tag);
      ApplyOne(inbounds[tag], ListOf(lists, tag), SnapshotOf(byInbound, tag), tag in synced, sessions[tag]);
      todo := todo - {tag};
    }
    AllApplied(inbounds, byInbound, next, synced, sessions);
  }

  lemma AllWaiting(inbounds: map<string, InboundRef>, byInbound: map<string, Snapshot>)
    requires AllUsable(inbounds)
    ensures forall t :: t in inbounds ==>
              && t in AllSessions(inbounds)
              && Waiting(inbounds[t], SnapshotOf(byInbound, t), t in SyncedTags(inbounds, byInbound), AllSessions(inbounds)[t])
  {
    hide InSync, Usable, HeldBy;
  }

  lemma AllApplied(inbounds: map<string, InboundRef>, was: map<string, Snapshot>, next: map<string, Snapshot>,
                   synced: set<string>, sessions: map<string, S.Book>)
    requires forall t :: t in inbounds ==> t in sessions && Applied(inbounds[t], SnapshotOf(was, t), SnapshotOf(next, t), t in synced, sessions[t])
    ensures AllUsable(inbounds)
    ensures synced * DistinctTags(inbounds, was) * DistinctTags(inbounds, next) <= SyncedTags(inbounds, next)
    ensures AllPurged(inbounds, synced * DistinctTags(inbounds, was) * DistinctTags(inbounds, next), was, next, sessions, AllSessions(inbounds))
  {
    hide InSync, Usable, HeldBy, PurgesRemoved, ClosesStreams, DistinctFor, SnapshotOf;
  }

  lemma OthersApart(inbounds: map<string, InboundRef>, tag: string)
    requires DistinctRefs(inbounds) && tag in inbounds
    ensures forall t :: t in inbounds && t != tag ==> ObjectOf(inbounds[t]) !! ObjectOf(inbounds[tag])
  {
  }

  lemma SnapshotsWellKeyed(byInbound: map<string, Snapshot>, t: string)
    requires AllWellKeyed(byInbound)
    ensures WellKeyed(SnapshotOf(byInbound, t))
  {
  }

  lemma SnapshotOfIndex(lists: map<string, seq<User>>, t: string)
    ensures SnapshotOf(IndexAll(lists), t) == UsersByID(ListOf(lists, t))
  {
  }

  lemma IndexAllWellKeyed(lists: map<string, seq<User>>)
    ensures AllWellKeyed(IndexAll(lists))
  {
    forall t | t in lists
      ensures WellKeyed(IndexAll(lists)[t])
    {
      IndexFacts(lists[t]);
    }
  }

  // ---- The manager ----

  // Every id of some snapshot, with the entry of one of them.
  ghost predicate UnionOf(union: Snapshot, byInbound: map<string, Snapshot>) {
    && (forall id :: id in union ==> exists t :: t in byInbound && id in byInbound[t] && byInbound[t][id] == union[id])
    && (forall t, id :: t in byInbound && id in byInbound[t] ==> id in union)
  }

  function SecretsOf(u: User): set<string> {
    {u.uuid, u.password, u.name} - {""}
  }

  // Every secret of an active user, owned by one who has it.
  ghost predicate SecretIndex(bySecret: map<string, int>, users: Snapshot) {
    && (forall s :: s in bySecret ==> bySecret[s] in users && s in SecretsOf(users[bySecret[s]]))
    && (forall id, s :: id in users && s in SecretsOf(users[id]) ==> s in bySecret)
  }

  /** Field by field: exactly the UUIDs, passwords and names of active users are known, apart
      from empty ones, each as its owner's. */
  lemma SecretsMean(bySecret: map<string, int>, users: Snapshot, s: string)
    requires SecretIndex(bySecret, users)
    ensures s in bySecret <==> s != "" && exists id :: id in users && (users[id].uuid == s || users[id].password == s || users[id].name == s)
    ensures s in bySecret ==> bySecret[s] in users
                              && (users[bySecret[s]].uuid == s || users[bySecret[s]].password == s || users[bySecret[s]].name == s)
  {
    forall id | id in users && s != "" && (users[id].uuid == s || users[id].password == s || users[id].name == s)
      ensures s in bySecret
    {
      assert s in SecretsOf(users[id]);
    }
    if s in bySecret {
      var id := bySecret[s];
      assert s in SecretsOf(users[id]);
      assert users[id].uuid == s || users[id].password == s || users[id].name == s;
    }
  }

  // secretsFrom, in any order: the last writer owns a shared secret.
  method SecretsFrom(users: Snapshot) returns (out: map<string, int>)
    ensures SecretIndex(out, users)
  {
    out := map[];
    var todo := users.Keys;
    while todo != {}
      invariant todo <= users.Keys
      invariant forall s :: s in out ==> out[s] in users && s in SecretsOf(users[out[s]])
      invariant forall id, s :: id in users && id !in todo && s in SecretsOf(users[id]) ==> s in out
    {
      SomeElement(todo);
      var id :| id in todo;
      out := out + map s | s in SecretsOf(users[id]) :: id;
      todo := todo - {id};
    }
  }

  // The commit loop over the lists, in any order: the union is last writer wins.
  method IndexLists(lists: map<string, seq<User>>) returns (byInbound: map<string, Snapshot>, union: Snapshot)
    ensures byInbound == IndexAll(lists) && UnionOf(union, byInbound)
  {
    hide UsersByID;
    byInbound, union := map[], map[];
    var todo := lists.Keys;
    while todo != {}
      invariant todo <= lists.Keys
      invariant byInbound == map t | t in lists && t !in todo :: UsersByID(lists[t])
      invariant UnionOf(union, byInbound)
    {
      var tag :| tag in todo;
      var snapshot := IndexUsers(lists[tag]);
      ghost var before, wasUnion := byInbound, union;
      byInbound := byInbound[tag := snapshot];
      union := union + snapshot;
      todo := todo - {tag};
      forall id | id in union
        ensures exists t :: t in byInbound && id in byInbound[t] && byInbound[t][id] == union[id]
      {
        if id in snapshot {
          assert byInbound[tag][id] == union[id];
        } else {
          var t :| t in before && id in before[t] && before[t][id] == wasUnion[id];
          assert byInbound[t] == before[t];
        }
      }
    }
  }

  // What happens to a manager and the connections on its limiters.
  datatype Use =
    | Apply(lists: map<string, seq<User>>, now: real)
    | Connect(conn: int, id: int)
    | Wait(conn: int, reading: bool, n: int, rounds: nat -> Round)
    | Allow(conn: int, reading: bool, n: int, now: real)

  class UserManager {
    var users: Snapshot
    var bySecret: map<string, int>
    var byInbound: map<string, Snapshot>
    const table: LimiterTable

    constructor ()
      ensures users == map[] && byInbound == map[] && Valid() && fresh(table)
    {
      users, bySecret, byInbound := map[], map[], map[];
      table := new LimiterTable();
    }

    ghost predicate Valid()
      reads this, table, table.Pairs(), table.retired
    {
      table.Valid() && table.Serves(users) && SecretIndex(bySecret, users) && AllWellKeyed(byInbound)
    }

    // The shared tail of an apply: users, secrets and limiters move together.
    method Activate(active: Snapshot, now: real)
      requires Valid()
      modifies this, table, table.Pairs()
      ensures Valid() && users == active && byInbound == old(byInbound)
      ensures forall id :: id in active && id in old(table.limiters) ==> table.limiters[id] == old(table.limiters)[id]
      ensures old(table.All()) <= table.All() && old(table.retired) <= table.retired && fresh(table.All() - old(table.All()))
      ensures table.retired == old(table.retired) + PairsIn(old(table.limiters), old(table.limiters).Keys - active.Keys)
    {
      hide MbpsToBytes, PairsIn, AllWellKeyed, SecretIndex;
      users := active;
      bySecret := SecretsFrom(active);
      table.Retarget(active, now);
    }

    /** ApplyBoxByInbound: every inbound that was in sync with its committed snapshot is
        in sync with its own new list, having closed exactly the Hysteria 2 streams of the users
        removed from it; the snapshots committed are the lists; limiters
        exist for exactly the union of users, an active id keeping its very pair, and the
        pairs of users who left are closed for good. */
    method ApplyBoxByInbound(inbounds: map<string, InboundRef>, lists: map<string, seq<User>>, now: real)
      requires Valid() && DistinctRefs(inbounds) && AllUsable(inbounds)
      modifies this, table, table.Pairs(), Vlesses(inbounds), Hysterias(inbounds)
      ensures Valid() && byInbound == IndexAll(lists) && UnionOf(users, byInbound) && AllUsable(inbounds)
      ensures old(SyncedTags(inbounds, byInbound) * DistinctTags(inbounds, byInbound)) * DistinctTags(inbounds, byInbound)
              <= SyncedTags(inbounds, byInbound)
      ensures AllPurged(inbounds, old(SyncedTags(inbounds, byInbound) * DistinctTags(inbounds, byInbound)) * DistinctTags(inbounds, byInbound),
                        old(byInbound), byInbound, old(AllSessions(inbounds)), AllSessions(inbounds))
      ensures forall id :: id in users && id in old(table.limiters) ==> table.limiters[id] == old(table.limiters)[id]
      ensures table.retired == old(table.retired) + PairsIn(old(table.limiters), old(table.limiters).Keys - users.Keys)
    {
      hide SyncedTags, DistinctTags, AllUsable, Valid, UnionOf, PairsIn, DistinctRefs, IndexAll, AllPurged, AllSessions;
      AllKeyed();
      ApplyDeltas(inbounds, lists, byInbound);
      Commit(lists, now);
    }

    lemma AllKeyed()
      requires Valid()
      ensures AllWellKeyed(byInbound)
    {
    }

    // The second half of ApplyBoxByInbound, under the state lock.
    method Commit(lists: map<string, seq<User>>, now: real)
      requires Valid()
      modifies this, table, table.Pairs()
      ensures Valid() && byInbound == IndexAll(lists) && UnionOf(users, byInbound)
      ensures forall id :: id in users && id in old(table.limiters) ==> table.limiters[id] == old(table.limiters)[id]
      ensures old(table.All()) <= table.All() && old(table.retired) <= table.retired && fresh(table.All() - old(table.All()))
      ensures table.retired == old(table.retired) + PairsIn(old(table.limiters), old(table.limiters).Keys - users.Keys)
    {
      hide AllWellKeyed, UnionOf, SecretIndex, LimiterTable.Serves, LimiterTable.Valid, PairsIn, IndexAll;
      var next, union := IndexLists(lists);
      IndexAllWellKeyed(lists);
      byInbound := next;
      Activate(union, now);
    }

    /** A connection waits on the pair it holds, whether its user is still active or not. */
    method WaitOn(p: LimiterPair, reading: bool, n: int, rounds: nat -> Round) returns (ok: bool)
      requires Valid() && p in table.All()
      modifies p
      ensures Valid()
      ensures p in table.retired && n > 0 ==> !ok && p.rx == old(p.rx) && p.tx == old(p.tx)
    {
      hide SecretIndex, AllWellKeyed, MbpsToBytes, LimiterPair.Sound;
      ok := p.Wait(reading, n, rounds);
    }

    method AllowOn(p: LimiterPair, reading: bool, n: int, now: real) returns (v: Verdict)
      requires Valid() && p in table.All()
      modifies p
      ensures Valid()
      ensures p in table.retired && n > 0 ==> v == Closed && p.rx == old(p.rx) && p.tx == old(p.tx)
    {
      hide SecretIndex, AllWellKeyed, MbpsToBytes, LimiterPair.Sound;
      v := p.Allow(reading, n, now);
    }

    /** Any run of applies, with connections that pick up limiters, wait and ask on them in
        between and hold on to them after their users have left: the table always has exactly
        the active users' pairs, open at their rates, every pair a connection holds is one of
        these or retired, a connection that comes in gets its user's pair, and what is retired stays closed. */
    method Run(uses: seq<Use>) returns (held: map<int, LimiterPair>)
      requires Valid()
      modifies this, table, table.All()
      ensures Valid()
      ensures forall c :: c in held ==> held[c] in table.All()
      ensures uses != [] && uses[|uses| - 1].Connect? && uses[|uses| - 1].id in table.limiters ==>
                var u := uses[|uses| - 1]; u.conn in held && held[u.conn] == table.limiters[u.id]
      ensures old(table.retired) <= table.retired
    {
      hide Valid, PairsIn, IndexAll, UnionOf, WaitFrom, Decide;
      held := map[];
      for i := 0 to |uses|
        invariant Valid()
        invariant forall c :: c in held ==> held[c] in table.All()
        invariant i > 0 && uses[i - 1].Connect? && uses[i - 1].id in table.limiters ==>
                    uses[i - 1].conn in held && held[uses[i - 1].conn] == table.limiters[uses[i - 1].id]
        invariant old(table.retired) <= table.retired
        invariant fresh(table.All() - old(table.All()))
      {
        match uses[i]
        case Apply(lists, now) =>
          Commit(lists, now);
        case Connect(conn, id) =>
          if id in table.limiters {
            held := held[conn := table.limiters[id]];
          }
        case Wait(conn, reading, n, rounds) =>
          if conn in held {
            var _ := WaitOn(held[conn], reading, n, rounds);
          }
        case Allow(conn, reading, n, now) =>
          if conn in held {
            var _ := AllowOn(held[conn], reading, n, now);
          }
      }
    }

    /** applyGlobal: without inbounds only the global state moves. */
    method ApplyGlobal(list: seq<User>, now: real)
      requires Valid()
      modifies this, table, table.Pairs()
      ensures Valid() && users == UsersByID(list) && byInbound == old(byInbound)
      ensures forall id :: id in users && id in old(table.limiters) ==> table.limiters[id] == old(table.limiters)[id]
      ensures table.retired == old(table.retired) + PairsIn(old(table.limiters), old(table.limiters).Keys - users.Keys)
    {
      hide UsersByID, PairsIn, Valid;
      var next := IndexUsers(list);
      Activate(next, now);
    }

    /** Resolve: a known secret becomes the canonical decimal id of a user who has it, which
        is what the billing payload can carry; anything else passes unchanged. */
    method Resolve(user: string) returns (name: string)
      requires Valid() && forall id :: id in users ==> id > 0
      ensures user in bySecret && user != "" ==> Canonical(name) && Value(name) in users && user in SecretsOf(users[Value(name)])
      ensures user !in bySecret || user == "" ==> name == user
      ensures user != "" && (exists id :: id in users && (users[id].uuid == user || users[id].password == user || users[id].name == user)) ==>
                Canonical(name) && Value(name) in users
                && var u := users[Value(name)]; u.uuid == user || u.password == user || u.name == user
    {
      hide LimiterTable.Valid, LimiterTable.Serves;
      SecretsMean(bySecret, users, user);
      if user == "" {
        return "";
      }
      if user in bySecret {
        name := Itoa(bySecret[user]);
        ValueOfItoa(bySecret[user]);
      } else {
        name := user;
      }
    }
  }
}
