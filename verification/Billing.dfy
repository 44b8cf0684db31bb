/** The billing protocol: traffic keeps arriving while Syncer.flush reads a snapshot
    storage by storage, pushes it client by client, and commits what was acknowledged.

    The clients are those of topologyPanel (one per node, each with its own inbound tag) or
    of MultiPanel (matched by protocol type), which push alike.  A push either takes effect
    at the panel and succeeds, or does neither.  Steps interleave freely, except that
    flushes are serialized by flushMu and RemoveAbsent runs between flushes, on the
    goroutine that flushes. */
module Billing {
  import opened GoStrings
  import opened Traffic

  /** The agent's clients, and the (inbound tag, user) pairs that carry traffic, each once;
      those a client bills are named as the agent names users. */
  datatype Config = Config(clients: seq<Client>, keys: seq<Key>) {
    predicate Matches(i: nat, k: Key) {
      i < |clients| && MatchesInbound(clients[i], k.tag)
    }

    ghost predicate Valid() {
      Unrepeated(keys) && forall i, k :: k in keys && Matches(i, k) ==> WellNamed(k)
    }

    // No billable traffic is matched by two clients.
    ghost predicate Unshared() {
      forall i, j, k :: k in keys && IsNumericUser(k.user) && Matches(i, k) && Matches(j, k) ==> i == j
    }
  }

  // The read of one storage is two atomic loads.
  datatype Half = Nothing | UpRead(key: Key, up: int)

  // Where the flush is; `ackers` are the clients whose push succeeded, `acked` their tags.
  datatype Phase =
    | Idle
    | Reading(due: set<Key>, seen: set<Key>, half: Half, delta: Delta)
    | Pushing(delta: Delta, next: nat, ackers: set<nat>, acked: set<string>, failed: bool)
    | Committing(todo: Delta)

  // A user's account at the panel node of one client.
  datatype Account = Account(client: nat, uid: nat)

  /** `panel` is what the panel has booked.  The rest records the run: all bytes that
      ever arrived, the committed bytes of storages since removed, whether no bytes came
      and no push failed since the last flush began, and whether no push ever failed. */
  datatype State = State(table: Table, panel: Account -> Pair, phase: Phase,
                         arrived: Key -> Pair, retired: Key -> Pair, quiet: bool, flawless: bool)

  datatype Step =
    | Arrive(key: Key, bytes: Pair)
    | Prune(active: set<string>)
    | Begin
    | ReadUp(key: Key)
    | ReadDown
    | EndRead
    | Push(ok: bool, payload: map<int, Pair>)
    | EndPush
    | Commit(key: Key)
    | EndCommit

  ghost predicate Enabled(cfg: Config, s: State, step: Step) {
    match step
    case Arrive(k, bytes) => bytes.NonNegative() && k in cfg.keys
    case Prune(_) => s.phase.Idle?
    case Begin => s.phase.Idle?
    case ReadUp(k) => s.phase.Reading? && s.phase.half.Nothing? && k in s.table && k !in s.phase.seen
    case ReadDown => s.phase.Reading? && s.phase.half.UpRead? && s.phase.half.key in s.table
    // Range visits every key that was there when it began.
    case EndRead => s.phase.Reading? && s.phase.half.Nothing? && s.phase.due <= s.phase.seen
    // A client with nothing to send acknowledges without a request.
    case Push(ok, payload) =>
      && s.phase.Pushing? && s.phase.next < |cfg.clients|
      && PayloadFrom(cfg.clients[s.phase.next], s.phase.delta, payload) && (payload == map[] ==> ok)
    case EndPush => s.phase.Pushing? && s.phase.next == |cfg.clients|
    case Commit(k) => s.phase.Committing? && k in s.phase.todo
    case EndCommit => s.phase.Committing? && s.phase.todo == map[]
  }

  function Stored(t: Table, k: Key): Storage {
    if k in t then t[k] else Storage(ZERO, ZERO)
  }

  ghost function Arrived(s: State, k: Key, bytes: Pair): State {
    var was := Stored(s.table, k);
    s.(table := s.table[k := Storage(was.counted.Plus(bytes), was.committed)],
       arrived := x => if x == k then s.arrived(x).Plus(bytes) else s.arrived(x),
       quiet := s.quiet && bytes == ZERO)
  }

  // The panel node of client i books a payload.
  ghost function BookedAt(panel: Account -> Pair, i: nat, payload: map<int, Pair>): Account -> Pair {
    (a: Account) => if a.client == i then panel(a).Plus(Booked(payload, a.uid)) else panel(a)
  }

  ghost function Next(cfg: Config, s: State, step: Step): State
    requires Enabled(cfg, s, step)
  {
    match step
    case Arrive(k, bytes) => Arrived(s, k, bytes)
    case Prune(active) =>
      var kept := Pruned(s.table, active);
      s.(table := kept,
         retired := x => if x in s.table && x !in kept then s.retired(x).Plus(s.table[x].committed) else s.retired(x))
    case Begin =>
      s.(phase := Reading(s.table.Keys, {}, Nothing, map[]), quiet := true)
    case ReadUp(k) =>
      s.(phase := s.phase.(half := UpRead(k, s.table[k].Pending().up)))
    case ReadDown =>
      var k := s.phase.half.key;
      var p := Pair(s.phase.half.up, s.table[k].Pending().down);
      var delta := if p.up > 0 || p.down > 0 then s.phase.delta[k := p] else s.phase.delta;
      s.(phase := s.phase.(seen := s.phase.seen + {k}, half := Nothing, delta := delta))
    case EndRead =>
      s.(phase := if HasTraffic(s.phase.delta) then Pushing(s.phase.delta, 0, {}, {}, false) else Idle)
    case Push(ok, payload) =>
      var i := s.phase.next;
      if ok then
        s.(panel := BookedAt(s.panel, i, payload),
           phase := s.phase.(next := i + 1, ackers := s.phase.ackers + {i}, acked := s.phase.acked + AckedBy(cfg.clients[i], s.phase.delta)))
      else
        s.(phase := s.phase.(next := i + 1, failed := true), quiet := false, flawless := false)
    case EndPush =>
      if s.phase.failed && s.phase.acked == {} then s.(phase := Idle)
      else
        var only := if s.phase.failed then Only(s.phase.acked) else All;
        s.(phase := Committing(CommitDelta(s.phase.delta, only)))
    case Commit(k) =>
      s.(table := if k in s.table then s.table[k := s.table[k].Commit(s.phase.todo[k])] else s.table,
         phase := s.phase.(todo := s.phase.todo - {k}))
    case EndCommit =>
      s.(phase := Idle)
  }

  ghost predicate Init(s: State) {
    && s.table == map[] && s.phase == Idle && s.quiet && s.flawless
    && (forall a :: s.panel(a) == ZERO)
    && (forall k :: s.arrived(k) == ZERO && s.retired(k) == ZERO)
  }

  // ---- The invariant ----

  // Every byte that arrived was counted in the table or retired with its storage.
  ghost predicate CountsAll(s: State) {
    && SoundTable(s.table)
    && forall k :: s.retired(k).NonNegative() && s.arrived(k) == s.retired(k).Plus(Stored(s.table, k).counted)
  }

  predicate Within(d: Delta, t: Table) {
    forall k :: k in d ==> k in t && d[k].Positive() && d[k].AtMost(t[k].Pending())
  }

  predicate Listed(cfg: Config, t: Table) {
    forall k :: k in t ==> k in cfg.keys
  }

  // A tag was acknowledged by some client that matches it.
  ghost predicate AckedVia(cfg: Config, ackers: set<nat>, tag: string) {
    exists i :: i in ackers && i < |cfg.clients| && MatchesInbound(cfg.clients[i], tag)
  }

  ghost predicate PhaseSound(cfg: Config, s: State) {
    match s.phase
    case Idle => true
    case Reading(due, seen, half, delta) =>
      && Within(delta, s.table) && delta.Keys <= seen && seen + due <= s.table.Keys
      && (half.UpRead? ==> half.key in s.table && half.key !in seen && 0 <= half.up <= s.table[half.key].Pending().up)
    case Pushing(delta, next, ackers, acked, failed) =>
      && Within(delta, s.table) && next <= |cfg.clients| && (failed ==> !s.flawless)
      && (forall i :: i in ackers ==> i < next) && (!failed ==> forall i: nat :: i < next ==> i in ackers)
      && (forall k :: k in delta ==> (k.tag in acked <==> AckedVia(cfg, ackers, k.tag)))
    case Committing(todo) =>
      Within(todo, s.table) && forall k :: k in todo ==> IsNumericUser(k.user)
  }

  // Acknowledged to client i by the panel but not yet committed.
  function InFlight(s: State, i: nat, k: Key): Pair {
    match s.phase
    case Pushing(delta, _, ackers, _, _) => if i in ackers then Amount(delta, k) else ZERO
    case Committing(todo) => Amount(todo, k)
    case _ => ZERO
  }

  // What client i should have been billed for: committed, in the table or retired, or in flight.
  function Settled(s: State, i: nat, k: Key): Pair {
    s.retired(k).Plus(Stored(s.table, k).committed).Plus(InFlight(s, i, k))
  }

  function ShareAt(cfg: Config, s: State, a: Account, k: Key): Pair {
    if a.client < |cfg.clients| && Bills(cfg.clients[a.client], k, a.uid) then Settled(s, a.client, k) else ZERO
  }

  function Share(cfg: Config, s: State, a: Account): Key -> Pair {
    (k: Key) => ShareAt(cfg, s, a, k)
  }

  /** Exactly once, at every instant: each account has been booked what is committed, in
      the table or retired, plus what is in flight, over the tags its client matches. */
  ghost predicate BilledOnce(cfg: Config, s: State) {
    forall a: Account :: a.client < |cfg.clients| ==> s.panel(a) == Sum(cfg.keys, Share(cfg, s, a))
  }

  // Nothing pending escapes the snapshot.
  ghost predicate SnapshotCovers(t: Table, phase: Phase) {
    match phase
    case Idle => forall k :: k in t && IsNumericUser(k.user) ==> t[k].Pending() == ZERO
    case Reading(due, seen, half, delta) =>
      && (half.UpRead? && half.key in t ==> half.up == t[half.key].Pending().up)
      && (forall k :: k in t && k in seen ==> t[k].Pending() == Amount(delta, k))
      && (forall k :: k in t && k !in seen && k !in due ==> t[k].Pending() == ZERO)
    case Pushing(delta, _, _, _, failed) =>
      !failed && forall k :: k in t ==> t[k].Pending() == Amount(delta, k)
    case Committing(todo) =>
      forall k :: k in t && IsNumericUser(k.user) ==> t[k].Pending() == Amount(todo, k)
  }

  ghost predicate QuietSound(s: State) {
    s.quiet ==> SnapshotCovers(s.table, s.phase)
  }

  // Bills are right when no traffic is shared, and also as long as no push fails.
  ghost predicate Inv(cfg: Config, s: State) {
    && CountsAll(s) && Listed(cfg, s.table) && PhaseSound(cfg, s) && QuietSound(s)
    && (cfg.Unshared() || s.flawless ==> BilledOnce(cfg, s))
  }

  lemma InitInv(cfg: Config, s: State)
    requires Init(s)
    ensures Inv(cfg, s)
  {
    hide BilledOnce, Config.Unshared;
    InitBills(cfg, s);
  }

  lemma InitBills(cfg: Config, s: State)
    requires Init(s)
    ensures BilledOnce(cfg, s)
  {
    hide ShareAt, Sum;
    forall a: Account | a.client < |cfg.clients|
      ensures Sum(cfg.keys, Share(cfg, s, a)) == ZERO
    {
      forall k
        ensures ShareAt(cfg, s, a, k) == ZERO
      {
        InitShare(cfg, s, a, k);
      }
      SumZero(cfg.keys, Share(cfg, s, a));
    }
  }

  lemma InitShare(cfg: Config, s: State, a: Account, k: Key)
    requires Init(s)
    ensures ShareAt(cfg, s, a, k) == ZERO
  {
    hide Bills, Pair.Plus;
    PlusZero(ZERO);
  }

  // A step that books nothing and settles nothing keeps the bills right.
  lemma KeepsBills(cfg: Config, s: State, s': State)
    requires BilledOnce(cfg, s) && s'.panel == s.panel
    requires forall i: nat, k :: k in cfg.keys && cfg.Matches(i, k) && IsNumericUser(k.user) ==> Settled(s', i, k) == Settled(s, i, k)
    ensures BilledOnce(cfg, s')
  {
    hide MatchesInbound, IsNumericUser, Itoa, Sum, Settled;
    forall a: Account | a.client < |cfg.clients|
      ensures Sum(cfg.keys, Share(cfg, s', a)) == Sum(cfg.keys, Share(cfg, s, a))
    {
      forall k | k in cfg.keys
        ensures ShareAt(cfg, s', a, k) == ShareAt(cfg, s, a, k)
      {
        NumericItoa(a.uid);
        assert Bills(cfg.clients[a.client], k, a.uid) ==> cfg.Matches(a.client, k);
      }
      SumSame(cfg.keys, Share(cfg, s', a), Share(cfg, s, a));
    }
  }

  lemma ArriveInv(cfg: Config, s: State, k: Key, bytes: Pair)
    requires Inv(cfg, s) && Enabled(cfg, s, Arrive(k, bytes))
    ensures Inv(cfg, Next(cfg, s, Arrive(k, bytes)))
  {
    hide CountsAll, PhaseSound, BilledOnce, QuietSound, Config.Matches, IsNumericUser, InFlight;
    ArriveKeepsCounts(s, k, bytes);
    ArriveKeepsPhase(cfg, s, k, bytes);
    ArriveKeepsQuiet(cfg, s, k, bytes);
    if cfg.Unshared() || s.flawless {
      ArriveSettlesNothing(s, k, bytes);
      KeepsBills(cfg, s, Arrived(s, k, bytes));
    }
  }

  lemma ArriveSettlesNothing(s: State, k: Key, bytes: Pair)
    ensures forall i: nat, x :: Settled(Arrived(s, k, bytes), i, x) == Settled(s, i, x)
  {
  }

  lemma ArriveKeepsCounts(s: State, k: Key, bytes: Pair)
    requires CountsAll(s) && bytes.NonNegative()
    ensures CountsAll(Arrived(s, k, bytes))
  {
  }

  lemma ArriveKeepsPhase(cfg: Config, s: State, k: Key, bytes: Pair)
    requires PhaseSound(cfg, s) && bytes.NonNegative()
    ensures PhaseSound(cfg, Arrived(s, k, bytes))
  {
    hide IsNumericUser;
  }

  lemma ArriveKeepsQuiet(cfg: Config, s: State, k: Key, bytes: Pair)
    requires QuietSound(s) && PhaseSound(cfg, s)
    ensures QuietSound(Arrived(s, k, bytes))
  {
    hide SnapshotCovers, PhaseSound;
    if s.quiet && bytes == ZERO {
      if Mentions(s.phase, k) { PhaseMentionsTable(cfg, s, k); }
      StillCovers(s.table, s.phase, k);
    }
  }

  predicate Mentions(phase: Phase, k: Key) {
    match phase
    case Idle => false
    case Reading(due, seen, half, delta) => k in due || k in seen || k in delta || (half.UpRead? && half.key == k)
    case Pushing(delta, _, _, _, _) => k in delta
    case Committing(todo) => k in todo
  }

  lemma PhaseMentionsTable(cfg: Config, s: State, k: Key)
    requires PhaseSound(cfg, s) && Mentions(s.phase, k)
    ensures k in s.table
  {
  }

  function Touched(t: Table, k: Key): Table {
    t[k := Storage(Stored(t, k).counted.Plus(ZERO), Stored(t, k).committed)]
  }

  // No bytes: at most an empty storage appears.
  lemma TouchedPending(t: Table, k: Key, x: Key)
    ensures x in Touched(t, k) <==> x in t || x == k
    ensures x in t ==> Touched(t, k)[x].Pending() == t[x].Pending()
    ensures x == k && x !in t ==> Touched(t, k)[x].Pending() == ZERO
  {
    hide Pair.Plus;
    PlusZero(Stored(t, k).counted);
  }

  lemma StillCovers(t: Table, phase: Phase, k: Key)
    requires SnapshotCovers(t, phase) && (k in t || !Mentions(phase, k))
    ensures SnapshotCovers(Touched(t, k), phase)
  {
    hide IsNumericUser, Touched, Storage.Pending, Pair.Plus;
    forall x
      ensures x in Touched(t, k) <==> x in t || x == k
      ensures x in t ==> Touched(t, k)[x].Pending() == t[x].Pending()
      ensures x == k && x !in t ==> Touched(t, k)[x].Pending() == ZERO
    {
      TouchedPending(t, k, x);
    }
  }

  lemma PruneInv(cfg: Config, s: State, active: set<string>)
    requires Inv(cfg, s) && Enabled(cfg, s, Prune(active))
    ensures Inv(cfg, Next(cfg, s, Prune(active)))
  {
    hide Itoa, IsNumericUser, BilledOnce, Config.Matches, Config.Unshared;
    var s' := Next(cfg, s, Prune(active));
    assert forall i: nat, k :: Settled(s', i, k) == Settled(s, i, k);
    if cfg.Unshared() || s.flawless { KeepsBills(cfg, s, s'); }
  }

  lemma ReadInv(cfg: Config, s: State, step: Step)
    requires Inv(cfg, s) && Enabled(cfg, s, step) && (step.Begin? || step.ReadUp? || step.EndRead?)
    ensures Inv(cfg, Next(cfg, s, step))
  {
    hide IsNumericUser, BilledOnce, Config.Matches, Config.Unshared, MatchesInbound, Pair.Plus;
    var s' := Next(cfg, s, step);
    assert forall i: nat, k :: InFlight(s', i, k) == InFlight(s, i, k) == ZERO;
    if cfg.Unshared() || s.flawless { KeepsBills(cfg, s, s'); }
  }

  lemma ReadDownInv(cfg: Config, s: State)
    requires Inv(cfg, s) && Enabled(cfg, s, ReadDown)
    ensures Inv(cfg, Next(cfg, s, ReadDown))
  {
    hide IsNumericUser, BilledOnce, Config.Matches, Config.Unshared, MatchesInbound, Pair.Plus;
    var s' := Next(cfg, s, ReadDown);
    assert forall i: nat, k :: InFlight(s', i, k) == InFlight(s, i, k) == ZERO;
    if cfg.Unshared() || s.flawless { KeepsBills(cfg, s, s'); }
  }

  lemma PushInv(cfg: Config, s: State, ok: bool, payload: map<int, Pair>)
    requires cfg.Valid() && Inv(cfg, s) && Enabled(cfg, s, Push(ok, payload))
    ensures Inv(cfg, Next(cfg, s, Push(ok, payload)))
  {
    hide IsNumericUser, BilledOnce, Config.Unshared, MatchesInbound, PayloadFrom, CountsAll, Settled, Config.Valid, SnapshotCovers, BookedAt;
    var s' := Next(cfg, s, Push(ok, payload));
    PushKeepsPhase(cfg, s, ok, payload);
    PushKeepsQuiet(cfg, s, ok, payload);
    if cfg.Unshared() || s'.flawless {
      if ok {
        PushBills(cfg, s, payload);
      } else {
        FailSettlesNothing(cfg, s, payload);
        KeepsBills(cfg, s, s');
      }
    }
  }

  lemma PushKeepsPhase(cfg: Config, s: State, ok: bool, payload: map<int, Pair>)
    requires PhaseSound(cfg, s) && Enabled(cfg, s, Push(ok, payload))
    ensures PhaseSound(cfg, Next(cfg, s, Push(ok, payload)))
  {
    hide MatchesInbound, PayloadFrom, BookedAt;
    var s' := Next(cfg, s, Push(ok, payload));
    var i, d := s.phase.next, s.phase.delta;
    forall k | k in d
      ensures k.tag in s'.phase.acked <==> AckedVia(cfg, s'.phase.ackers, k.tag)
    {
      if ok && MatchesInbound(cfg.clients[i], k.tag) {
        assert i in s'.phase.ackers;
        assert k.tag in AckedBy(cfg.clients[i], d);
      }
    }
  }

  lemma PushKeepsQuiet(cfg: Config, s: State, ok: bool, payload: map<int, Pair>)
    requires QuietSound(s) && Enabled(cfg, s, Push(ok, payload))
    ensures QuietSound(Next(cfg, s, Push(ok, payload)))
    ensures CountsAll(s) ==> CountsAll(Next(cfg, s, Push(ok, payload)))
  {
    hide PayloadFrom, BookedAt;
  }

  lemma FailSettlesNothing(cfg: Config, s: State, payload: map<int, Pair>)
    requires Enabled(cfg, s, Push(false, payload))
    ensures forall i: nat, k :: Settled(Next(cfg, s, Push(false, payload)), i, k) == Settled(s, i, k)
  {
    hide PayloadFrom;
  }

  // A push that succeeds books exactly what it puts in flight.
  lemma PushBills(cfg: Config, s: State, payload: map<int, Pair>)
    requires cfg.Valid() && Listed(cfg, s.table) && PhaseSound(cfg, s) && BilledOnce(cfg, s)
    requires Enabled(cfg, s, Push(true, payload))
    ensures BilledOnce(cfg, Next(cfg, s, Push(true, payload)))
  {
    hide IsNumericUser, MatchesInbound, PayloadFrom, ShareAt, CarriedAt, Sum, Itoa, WellNamed, AckedVia;
    var s' := Next(cfg, s, Push(true, payload));
    var i, d := s.phase.next, s.phase.delta;
    forall k | k in d && MatchesInbound(cfg.clients[i], k.tag)
      ensures WellNamed(k)
    {
      assert cfg.Matches(i, k);
    }
    forall a: Account | a.client < |cfg.clients|
      ensures s'.panel(a) == Sum(cfg.keys, Share(cfg, s', a))
    {
      forall k
        ensures ShareAt(cfg, s', a, k) == ShareAt(cfg, s, a, k).Plus(if a.client == i then CarriedAt(cfg.clients[i], d, a.uid, k) else ZERO)
      {
        PushSettles(cfg, s, payload, a, k);
      }
      if a.client == i {
        PayloadCarries(cfg.clients[i], d, payload, a.uid, cfg.keys);
        SumPlus(cfg.keys, Share(cfg, s, a), Carried(cfg.clients[i], d, a.uid), Share(cfg, s', a));
      } else {
        SumSame(cfg.keys, Share(cfg, s', a), Share(cfg, s, a));
      }
    }
  }

  lemma PushSettles(cfg: Config, s: State, payload: map<int, Pair>, a: Account, k: Key)
    requires PhaseSound(cfg, s) && Enabled(cfg, s, Push(true, payload)) && a.client < |cfg.clients|
    ensures ShareAt(cfg, Next(cfg, s, Push(true, payload)), a, k)
         == ShareAt(cfg, s, a, k).Plus(if a.client == s.phase.next then CarriedAt(cfg.clients[a.client], s.phase.delta, a.uid, k) else ZERO)
  {
    hide Bills, PayloadFrom, AckedVia, BookedAt, Within, Stored, AckedBy, Amount, Pair.Plus;
    var s' := Next(cfg, s, Push(true, payload));
    PlusZero(ZERO);
    PlusZero(ShareAt(cfg, s, a, k));
    PlusZero(s.retired(k).Plus(Stored(s.table, k).committed));
    assert s'.phase.ackers == s.phase.ackers + {s.phase.next} && s.phase.next !in s.phase.ackers;
  }

  lemma EndPushInv(cfg: Config, s: State)
    requires Inv(cfg, s) && Enabled(cfg, s, EndPush)
    ensures Inv(cfg, Next(cfg, s, EndPush))
  {
    hide IsNumericUser, BilledOnce, MatchesInbound, Settled;
    var s' := Next(cfg, s, EndPush);
    if cfg.Unshared() || s.flawless {
      EndPushSettlesNothing(cfg, s);
      KeepsBills(cfg, s, s');
    }
  }

  lemma EndPushSettlesNothing(cfg: Config, s: State)
    requires Listed(cfg, s.table) && PhaseSound(cfg, s) && (cfg.Unshared() || s.flawless) && Enabled(cfg, s, EndPush)
    ensures var s' := Next(cfg, s, EndPush);
            forall i: nat, k :: k in cfg.keys && cfg.Matches(i, k) && IsNumericUser(k.user) ==> Settled(s', i, k) == Settled(s, i, k)
  {
    hide IsNumericUser, MatchesInbound;
    var s' := Next(cfg, s, EndPush);
    forall i: nat, k | k in cfg.keys && cfg.Matches(i, k) && IsNumericUser(k.user)
      ensures InFlight(s', i, k) == InFlight(s, i, k)
    {
      if k in s.phase.delta && s.phase.failed {
        if AckedVia(cfg, s.phase.ackers, k.tag) {
          var j :| j in s.phase.ackers && j < |cfg.clients| && MatchesInbound(cfg.clients[j], k.tag);
          assert cfg.Matches(j, k);
        }
      }
    }
  }

  lemma CommitInv(cfg: Config, s: State, k: Key)
    requires Inv(cfg, s) && Enabled(cfg, s, Commit(k))
    ensures Inv(cfg, Next(cfg, s, Commit(k)))
  {
    hide IsNumericUser, BilledOnce, Config.Matches, Config.Unshared, MatchesInbound, Settled;
    if cfg.Unshared() || s.flawless {
      CommitSettlesNothing(cfg, s, k);
      KeepsBills(cfg, s, Next(cfg, s, Commit(k)));
    }
  }

  // Committing moves a storage's amount from in flight to committed.
  lemma CommitSettlesNothing(cfg: Config, s: State, k: Key)
    requires PhaseSound(cfg, s) && Enabled(cfg, s, Commit(k))
    ensures forall i: nat, x :: Settled(Next(cfg, s, Commit(k)), i, x) == Settled(s, i, x)
  {
    hide IsNumericUser;
  }

  lemma EndCommitInv(cfg: Config, s: State)
    requires Inv(cfg, s) && Enabled(cfg, s, EndCommit)
    ensures Inv(cfg, Next(cfg, s, EndCommit))
  {
    hide IsNumericUser, BilledOnce, Config.Matches, Config.Unshared, MatchesInbound;
    var s' := Next(cfg, s, EndCommit);
    assert forall i: nat, x :: Settled(s', i, x) == Settled(s, i, x);
    if cfg.Unshared() || s.flawless { KeepsBills(cfg, s, s'); }
  }

  lemma StepInv(cfg: Config, s: State, step: Step)
    requires cfg.Valid() && Inv(cfg, s) && Enabled(cfg, s, step)
    ensures Inv(cfg, Next(cfg, s, step))
  {
    hide *;
    match step
    case Arrive(k, bytes) => ArriveInv(cfg, s, k, bytes);
    case Prune(active) => PruneInv(cfg, s, active);
    case Push(ok, payload) => PushInv(cfg, s, ok, payload);
    case EndPush => EndPushInv(cfg, s);
    case Begin => ReadInv(cfg, s, step);
    case ReadUp(_) => ReadInv(cfg, s, step);
    case ReadDown => ReadDownInv(cfg, s);
    case EndRead => ReadInv(cfg, s, step);
    case Commit(k) => CommitInv(cfg, s, k);
    case EndCommit => EndCommitInv(cfg, s);
  }

  // ---- Whole runs ----

  ghost predicate IsRun(cfg: Config, s: State, steps: seq<Step>)
    decreases |steps|
  {
    steps != [] ==> Enabled(cfg, s, steps[0]) && IsRun(cfg, Next(cfg, s, steps[0]), steps[1..])
  }

  ghost function After(cfg: Config, s: State, steps: seq<Step>): State
    requires IsRun(cfg, s, steps)
    decreases |steps|
  {
    if steps == [] then s else After(cfg, Next(cfg, s, steps[0]), steps[1..])
  }

  lemma {:induction false} RunInv(cfg: Config, s: State, steps: seq<Step>)
    requires cfg.Valid() && Inv(cfg, s) && IsRun(cfg, s, steps)
    ensures Inv(cfg, After(cfg, s, steps))
    decreases |steps|
  {
    hide Inv, Enabled, Next, Config.Valid;
    if steps != [] {
      StepInv(cfg, s, steps[0]);
      RunInv(cfg, Next(cfg, s, steps[0]), steps[1..]);
    }
  }

  // ---- What accounts are billed ----

  // The part of f that one account is billed for.
  function Part(cfg: Config, a: Account, f: Key -> Pair): Key -> Pair {
    (k: Key) => if a.client < |cfg.clients| && Bills(cfg.clients[a.client], k, a.uid) then f(k) else ZERO
  }

  // f summed over the tags the account's client matches.
  function Due(cfg: Config, a: Account, f: Key -> Pair): Pair {
    Sum(cfg.keys, Part(cfg, a, f))
  }

  // Committed in the table or retired with its storage.
  function CommittedOf(s: State): Key -> Pair {
    (k: Key) => s.retired(k).Plus(Stored(s.table, k).committed)
  }

  function PendingOf(s: State): Key -> Pair {
    (k: Key) => Stored(s.table, k).Pending()
  }

  /** Exactly-once billing over every run in which no traffic is shared by two clients: no
      storage is ever committed beyond what it counted; no account is ever billed more than
      arrived for it; and whenever no flush is under way, what is billed is exactly what is
      committed, so that billed plus pending is everything that arrived. */
  lemma ExactlyOnce(cfg: Config, s: State, steps: seq<Step>, a: Account)
    requires cfg.Valid() && cfg.Unshared() && Init(s) && IsRun(cfg, s, steps) && a.client < |cfg.clients|
    ensures var e := After(cfg, s, steps);
            && SoundTable(e.table)
            && e.panel(a).AtMost(Due(cfg, a, e.arrived))
            && (e.phase.Idle? ==> && e.panel(a) == Due(cfg, a, CommittedOf(e))
                                  && Due(cfg, a, e.arrived) == e.panel(a).Plus(Due(cfg, a, PendingOf(e))))
  {
    hide *;
    InitInv(cfg, s);
    RunInv(cfg, s, steps);
    InvBills(cfg, After(cfg, s, steps), a);
  }

  lemma InvBills(cfg: Config, e: State, a: Account)
    requires Inv(cfg, e) && (cfg.Unshared() || e.flawless) && a.client < |cfg.clients|
    ensures SoundTable(e.table)
    ensures e.panel(a).AtMost(Due(cfg, a, e.arrived))
    ensures e.phase.Idle? ==> && e.panel(a) == Due(cfg, a, CommittedOf(e))
                              && Due(cfg, a, e.arrived) == e.panel(a).Plus(Due(cfg, a, PendingOf(e)))
  {
    hide Bills, QuietSound, Sum, Settled, PhaseSound, CountsAll, Listed, Config.Unshared, InFlight, Pair.Plus, Stored, Storage.Pending;
    PlusZero(ZERO);
    assert SoundTable(e.table) by { SoundCounts(e); }
    forall k
      ensures Settled(e, a.client, k).AtMost(e.arrived(k)) && ZERO.AtMost(e.arrived(k))
      ensures e.phase.Idle? ==> Settled(e, a.client, k) == CommittedOf(e)(k)
      ensures e.arrived(k) == CommittedOf(e)(k).Plus(PendingOf(e)(k))
    {
      SettledBounds(cfg, e, a.client, k);
    }
    SumAtMost(cfg.keys, Share(cfg, e, a), Part(cfg, a, e.arrived));
    if e.phase.Idle? {
      SumSame(cfg.keys, Share(cfg, e, a), Part(cfg, a, CommittedOf(e)));
      SumPlus(cfg.keys, Part(cfg, a, CommittedOf(e)), Part(cfg, a, PendingOf(e)), Part(cfg, a, e.arrived));
    }
  }

  lemma SoundCounts(e: State)
    requires CountsAll(e)
    ensures SoundTable(e.table)
  {
  }

  lemma SettledBounds(cfg: Config, e: State, i: nat, k: Key)
    requires CountsAll(e) && PhaseSound(cfg, e)
    ensures Settled(e, i, k).AtMost(e.arrived(k)) && ZERO.AtMost(e.arrived(k))
    ensures e.phase.Idle? ==> Settled(e, i, k) == CommittedOf(e)(k)
    ensures e.arrived(k) == CommittedOf(e)(k).Plus(PendingOf(e)(k))
  {
    hide AckedVia, IsNumericUser;
    assert InFlight(e, i, k).AtMost(Stored(e.table, k).Pending());
  }

  /** For a node's own client, which matches its inbound tag alone, that is its storage. */
  lemma NodeExactlyOnce(cfg: Config, s: State, steps: seq<Step>, a: Account)
    requires cfg.Valid() && cfg.Unshared() && Init(s) && IsRun(cfg, s, steps)
    requires a.client < |cfg.clients| && cfg.clients[a.client].inboundTag != ""
    requires Key(cfg.clients[a.client].inboundTag, Itoa(a.uid)) in cfg.keys
    ensures var e, k := After(cfg, s, steps), Key(cfg.clients[a.client].inboundTag, Itoa(a.uid));
            && e.panel(a).AtMost(e.arrived(k))
            && (e.phase.Idle? ==> && e.panel(a) == e.retired(k).Plus(Stored(e.table, k).committed)
                                  && e.arrived(k) == e.panel(a).Plus(Stored(e.table, k).Pending()))
  {
    hide IsRun, After, Init, Config.Unshared, Sum, Itoa, Due, Stored, Storage.Pending;
    var e := After(cfg, s, steps);
    ExactlyOnce(cfg, s, steps, a);
    DueOne(cfg, a, e.arrived);
    DueOne(cfg, a, CommittedOf(e));
    DueOne(cfg, a, PendingOf(e));
  }

  lemma DueOne(cfg: Config, a: Account, f: Key -> Pair)
    requires Unrepeated(cfg.keys) && a.client < |cfg.clients| && cfg.clients[a.client].inboundTag != ""
    ensures var k := Key(cfg.clients[a.client].inboundTag, Itoa(a.uid));
            Due(cfg, a, f) == if k in cfg.keys then f(k) else ZERO
  {
    hide Sum, Itoa, Pair.Plus;
    var k := Key(cfg.clients[a.client].inboundTag, Itoa(a.uid));
    var none := (x: Key) => ZERO;
    SumZero(cfg.keys, none);
    SumChanged(cfg.keys, none, Part(cfg, a, f), k);
    PlusZero(f(k));
  }

  /** Clients with their own, different inbound tags share nothing. */
  lemma NodesUnshared(cfg: Config)
    requires forall i :: 0 <= i < |cfg.clients| ==> cfg.clients[i].inboundTag != ""
    requires forall i, j :: 0 <= i < j < |cfg.clients| ==> cfg.clients[i].inboundTag != cfg.clients[j].inboundTag
    ensures cfg.Unshared()
  {
    hide IsNumericUser;
  }

  // A step of a flush that nothing disturbs: no new bytes, no failed push.
  predicate Undisturbed(step: Step) {
    match step
    case Arrive(_, bytes) => bytes == ZERO
    case Push(ok, _) => ok
    case _ => true
  }

  lemma {:induction false} QuietRun(cfg: Config, s: State, steps: seq<Step>)
    requires IsRun(cfg, s, steps) && s.quiet
    requires forall i :: 0 <= i < |steps| ==> Undisturbed(steps[i])
    ensures After(cfg, s, steps).quiet
    decreases |steps|
  {
    hide PayloadFrom;
    if steps != [] {
      assert Undisturbed(steps[0]);
      QuietRun(cfg, Next(cfg, s, steps[0]), steps[1..]);
    }
  }

  /** FinalFlush: after any run, once traffic has stopped, a whole flush in which every
      push succeeds leaves no numeric user pending, and every account of every client
      has been billed all that ever arrived for it. */
  lemma FinalFlushSettles(cfg: Config, s: State, before: seq<Step>, flush: seq<Step>)
    requires cfg.Valid() && cfg.Unshared() && Init(s) && IsRun(cfg, s, before)
    requires var mid := After(cfg, s, before);
             && IsRun(cfg, mid, [Begin] + flush)
             && (forall i :: 0 <= i < |flush| ==> Undisturbed(flush[i]))
             && After(cfg, mid, [Begin] + flush).phase.Idle?
    ensures var e := After(cfg, After(cfg, s, before), [Begin] + flush);
            && (forall k :: k in e.table && IsNumericUser(k.user) ==> e.table[k].Pending() == ZERO)
            && (forall a: Account :: a.client < |cfg.clients| ==> e.panel(a) == Due(cfg, a, e.arrived))
  {
    hide Due, Config.Unshared, Config.Valid, PayloadFrom, Init;
    var mid := After(cfg, s, before);
    assert ([Begin] + flush)[1..] == flush;
    QuietRun(cfg, Next(cfg, mid, Begin), flush);
    FinalState(cfg, s, before, [Begin] + flush);
  }

  lemma FinalState(cfg: Config, s: State, before: seq<Step>, flush: seq<Step>)
    requires cfg.Valid() && cfg.Unshared() && Init(s) && IsRun(cfg, s, before)
    requires IsRun(cfg, After(cfg, s, before), flush)
    requires After(cfg, After(cfg, s, before), flush).phase.Idle? && After(cfg, After(cfg, s, before), flush).quiet
    ensures var e := After(cfg, After(cfg, s, before), flush);
            && (forall k :: k in e.table && IsNumericUser(k.user) ==> e.table[k].Pending() == ZERO)
            && (forall a: Account :: a.client < |cfg.clients| ==> e.panel(a) == Due(cfg, a, e.arrived))
  {
    hide *;
    InitInv(cfg, s);
    RunInv(cfg, s, before);
    RunInv(cfg, After(cfg, s, before), flush);
    SettledBills(cfg, After(cfg, After(cfg, s, before), flush));
  }

  lemma SettledBills(cfg: Config, e: State)
    requires Inv(cfg, e) && e.phase.Idle? && e.quiet && (cfg.Unshared() || e.flawless)
    ensures forall k :: k in e.table && IsNumericUser(k.user) ==> e.table[k].Pending() == ZERO
    ensures forall a: Account :: a.client < |cfg.clients| ==> e.panel(a) == Due(cfg, a, e.arrived)
  {
    hide Itoa, IsNumericUser, BilledOnce, CountsAll, Sum, Pair.Plus, MatchesInbound, Config.Unshared;
    forall a: Account | a.client < |cfg.clients|
      ensures e.panel(a) == Due(cfg, a, e.arrived)
    {
      InvBills(cfg, e, a);
      NumericItoa(a.uid);
      SumZero(cfg.keys, Part(cfg, a, PendingOf(e)));
      PlusZero(e.panel(a));
    }
  }
}
