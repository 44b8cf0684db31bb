/** Racing dials (fork/sing-box/common/dialer): one goroutine per racer, an unbuffered
    results channel, a fallback timer, and a `returned` channel closed on return.

    dialParallelInterface races `primaries` racers against the rest, which wait for the
    timer; dialParallelInterfaceFastFallback starts everyone at once.  DialParallelNetwork,
    in NetworkRace, simulates the race of one primary against one fallback. */
module Racing {

  /** A racer dials, then offers its result: the receiver takes it, or, once the
      function has returned, a connection is closed and an error dropped. */
  datatype Racer =
    | Unstarted
    | Dialing
    | Offering(conn: bool)
    | Delivered(conn: bool)
    | Closed
    | Dropped

  // Stop succeeds until the timer's value is received (Go 1.23 and later), and a
  // timer that was stopped and reset fires again.
  datatype Timer = Absent | Armed | Fired | Received {
    predicate Pending() { Armed? || Fired? }
  }

  datatype Outcome = Running | Won(racer: nat) | Failed

  // `errors` is the length of the error list.
  datatype State = State(racers: seq<Racer>, timer: Timer, errors: nat, outcome: Outcome)

  datatype Step =
    | Dial(racer: nat, ok: bool)
    | Expire
    | Fallback
    | Receive(racer: nat)
    | Abandon(racer: nat)

  // The source returns early when there is no racer at all.
  datatype Race = Race(primaries: nat, total: nat, fast: bool) {
    predicate Valid() { primaries <= total && 0 < total }
    predicate HasTimer() { !fast && primaries < total }
  }

  function Init(r: Race): State {
    State(seq(r.total, i => if i < r.primaries || r.fast then Dialing else Unstarted),
          if r.HasTimer() then Armed else Absent, 0, Running)
  }

  predicate Enabled(s: State, step: Step) {
    match step
    case Dial(i, _) => i < |s.racers| && s.racers[i].Dialing?
    case Expire => s.timer.Armed?
    case Fallback => s.outcome.Running? && s.timer.Fired?
    case Receive(i) => s.outcome.Running? && i < |s.racers| && s.racers[i].Offering?
    case Abandon(i) => !s.outcome.Running? && i < |s.racers| && s.racers[i].Offering?
  }

  function StartFallbacks(racers: seq<Racer>): seq<Racer> {
    seq(|racers|, i requires 0 <= i < |racers| => if racers[i].Unstarted? then Dialing else racers[i])
  }

  function Next(r: Race, s: State, step: Step): State
    requires Enabled(s, step)
  {
    match step
    case Dial(i, ok) => s.(racers := s.racers[i := Offering(ok)])
    case Expire => s.(timer := Fired)
    case Fallback => s.(racers := StartFallbacks(s.racers), timer := Received)
    case Receive(i) =>
      var racers := s.racers[i := Delivered(s.racers[i].conn)];
      if s.racers[i].conn then s.(racers := racers, outcome := Won(i))
      else if s.errors + 1 == |racers| then s.(racers := racers, errors := s.errors + 1, outcome := Failed)
      else s.(racers := racers, errors := s.errors + 1, timer := if i < r.primaries && s.timer.Pending() then Armed else s.timer)
    case Abandon(i) => s.(racers := s.racers[i := if s.racers[i].conn then Closed else Dropped])
  }

  // ---- Safety ----

  function Failures(racers: seq<Racer>): nat {
    if racers == [] then 0 else (if racers[0] == Delivered(false) then 1 else 0) + Failures(racers[1..])
  }

  predicate Inv(r: Race, s: State) {
    && |s.racers| == r.total
    && s.errors == Failures(s.racers)
    && (s.outcome.Failed? <==> s.errors == r.total)
    && (forall i: nat :: i < r.total && s.racers[i] == Delivered(true) ==> s.outcome == Won(i))
    && (s.outcome.Won? ==> s.outcome.racer < r.total && s.racers[s.outcome.racer] == Delivered(true))
    && (forall i: nat :: i < r.total && (s.racers[i].Closed? || s.racers[i].Dropped?) ==> !s.outcome.Running?)
    && (forall i: nat :: i < r.total && s.racers[i].Unstarted? ==> s.timer.Pending() && r.primaries <= i)
    && (s.timer.Pending() ==> r.HasTimer())
  }

  lemma InitInv(r: Race)
    requires r.Valid()
    ensures Inv(r, Init(r))
  {
    NoFailures(Init(r).racers);
  }

  lemma StepInv(r: Race, s: State, step: Step)
    requires r.Valid() && Inv(r, s) && Enabled(s, step)
    ensures Inv(r, Next(r, s, step))
  {
    hide Failures;
    match step
    case Dial(i, ok) => FailuresUpdate(s.racers, i, Offering(ok));
    case Expire =>
    case Fallback => FailuresStarted(s.racers);
    case Receive(i) => FailuresUpdate(s.racers, i, Delivered(s.racers[i].conn));
                       FailuresAll(Next(r, s, step).racers);
    case Abandon(i) => FailuresUpdate(s.racers, i, if s.racers[i].conn then Closed else Dropped);
  }

  lemma {:induction false} NoFailures(racers: seq<Racer>)
    requires forall i :: 0 <= i < |racers| ==> racers[i] != Delivered(false)
    ensures Failures(racers) == 0
  {
    if racers != [] { NoFailures(racers[1..]); }
  }

  lemma {:induction false} FailuresUpdate(racers: seq<Racer>, i: nat, x: Racer)
    requires i < |racers| && racers[i] != Delivered(false)
    ensures Failures(racers[i := x]) == Failures(racers) + if x == Delivered(false) then 1 else 0
    decreases |racers|
  {
    if i == 0 {
      assert racers[0 := x][1..] == racers[1..];
    } else {
      assert racers[i := x][1..] == racers[1..][i - 1 := x];
      FailuresUpdate(racers[1..], i - 1, x);
    }
  }

  lemma {:induction false} FailuresStarted(racers: seq<Racer>)
    ensures Failures(StartFallbacks(racers)) == Failures(racers)
    decreases |racers|
  {
    if racers != [] {
      assert StartFallbacks(racers)[1..] == StartFallbacks(racers[1..]);
      FailuresStarted(racers[1..]);
    }
  }

  // As many failures as racers means that everyone failed.
  lemma {:induction false} FailuresAll(racers: seq<Racer>)
    ensures Failures(racers) <= |racers|
    ensures Failures(racers) == |racers| <==> forall i :: 0 <= i < |racers| ==> racers[i] == Delivered(false)
    decreases |racers|
  {
    if racers != [] {
      FailuresAll(racers[1..]);
      assert forall i :: 0 < i < |racers| ==> racers[i] == racers[1..][i - 1];
    }
  }

  predicate IsRun(r: Race, s: State, steps: seq<Step>)
    decreases |steps|
  {
    steps != [] ==> Enabled(s, steps[0]) && IsRun(r, Next(r, s, steps[0]), steps[1..])
  }

  function After(r: Race, s: State, steps: seq<Step>): State
    requires IsRun(r, s, steps)
    decreases |steps|
  {
    if steps == [] then s else After(r, Next(r, s, steps[0]), steps[1..])
  }

  lemma {:induction false} RunInv(r: Race, s: State, steps: seq<Step>)
    requires r.Valid() && Inv(r, s) && IsRun(r, s, steps)
    ensures Inv(r, After(r, s, steps))
    decreases |steps|
  {
    hide Inv, Enabled, Next;
    if steps != [] {
      StepInv(r, s, steps[0]);
      RunInv(r, Next(r, s, steps[0]), steps[1..]);
    }
  }

  // How often the fallback group was started in a run.
  function FallbackStarts(steps: seq<Step>): nat {
    if steps == [] then 0 else (if steps[0].Fallback? then 1 else 0) + FallbackStarts(steps[1..])
  }

  lemma {:induction false} FallbackOnce(r: Race, s: State, steps: seq<Step>)
    requires IsRun(r, s, steps)
    ensures FallbackStarts(steps) <= if s.timer.Pending() then 1 else 0
    decreases |steps|
  {
    if steps != [] { FallbackOnce(r, Next(r, s, steps[0]), steps[1..]); }
  }

  predicate Quiescent(s: State) {
    forall i :: 0 <= i < |s.racers| ==> !s.racers[i].Dialing? && !s.racers[i].Offering?
  }

  datatype DialEnd = Undialed | Dialed(ok: bool)

  // What a racer's place says about its dial.
  function DialIn(x: Racer): DialEnd {
    match x
    case Unstarted => Undialed
    case Dialing => Undialed
    case Offering(conn) => Dialed(conn)
    case Delivered(conn) => Dialed(conn)
    case Closed => Dialed(true)
    case Dropped => Dialed(false)
  }

  // A place tells what the racer's one Dial step was; nothing later turns a connection into an error.
  lemma {:induction false} DialsTell(r: Race, s: State, steps: seq<Step>, i: nat, ok: bool)
    requires IsRun(r, s, steps) && i < |s.racers|
    ensures var e := After(r, s, steps);
            && |e.racers| == |s.racers|
            && (DialIn(s.racers[i]).Dialed? ==> DialIn(e.racers[i]) == DialIn(s.racers[i]))
            && (Dial(i, ok) in steps <==> DialIn(s.racers[i]).Undialed? && DialIn(e.racers[i]) == Dialed(ok))
    decreases |steps|
  {
    if steps != [] {
      DialsTell(r, Next(r, s, steps[0]), steps[1..], i, ok);
      assert steps == [steps[0]] + steps[1..];
    }
  }

  /** In every interleaving: the winner's connection is the only one handed over and is
      never closed; an error is returned only after every racer of both groups has dialed
      and failed; the fallback group starts at most once; and when the last goroutine is
      done the function has returned, every connection that was dialed is closed unless it
      is the one returned, and no failed dial closed anything. */
  lemma RaceIsSafe(r: Race, steps: seq<Step>)
    requires r.Valid() && IsRun(r, Init(r), steps)
    ensures var e := After(r, Init(r), steps);
            && |e.racers| == r.total
            && (forall i: nat :: i < r.total ==> (e.racers[i] == Delivered(true) <==> e.outcome == Won(i)))
            && (forall i: nat :: i < r.total && e.outcome == Won(i) ==> Dial(i, true) in steps)
            && (e.outcome.Failed? ==> forall i: nat :: i < r.total ==> Dial(i, false) in steps)
            && FallbackStarts(steps) <= 1
            && (Quiescent(e) && !e.timer.Pending() ==> !e.outcome.Running?)
            && (Quiescent(e) && !e.outcome.Running? ==> forall i: nat :: i < r.total ==> Settled(e, steps, i))
  {
    hide Init, IsRun, After, Inv, Quiescent;
    InitInv(r);
    RunInv(r, Init(r), steps);
    FallbackOnce(r, Init(r), steps);
    var e := After(r, Init(r), steps);
    InvMeans(r, e);
    forall i: nat | i < r.total
      ensures Dial(i, true) in steps <==> DialIn(e.racers[i]) == Dialed(true)
      ensures Dial(i, false) in steps <==> DialIn(e.racers[i]) == Dialed(false)
    {
      InitUndialed(r, i);
      DialsTell(r, Init(r), steps, i, true);
      DialsTell(r, Init(r), steps, i, false);
    }
  }

  // Where a racer is left for good: a dialed connection closed or returned, an error dropped
  // or listed, or a fallback that was never needed.
  predicate Settled(e: State, steps: seq<Step>, i: nat)
    requires i < |e.racers|
  {
    && (Dial(i, true) in steps ==> e.racers[i].Closed? || e.outcome == Won(i))
    && (Dial(i, false) in steps ==> e.racers[i] == Dropped || e.racers[i] == Delivered(false))
    && (Dial(i, true) !in steps && Dial(i, false) !in steps ==> e.racers[i].Unstarted?)
  }

  lemma InitUndialed(r: Race, i: nat)
    requires i < r.total
    ensures |Init(r).racers| == r.total && DialIn(Init(r).racers[i]) == Undialed
  {
  }

  lemma InvMeans(r: Race, e: State)
    requires r.Valid() && Inv(r, e)
    ensures forall i: nat :: i < r.total ==> (e.racers[i] == Delivered(true) <==> e.outcome == Won(i))
    ensures e.outcome.Failed? <==> forall i :: 0 <= i < r.total ==> e.racers[i] == Delivered(false)
    ensures Quiescent(e) && !e.timer.Pending() ==> !e.outcome.Running?
    ensures |e.racers| == r.total && (Quiescent(e) ==> forall i :: 0 <= i < r.total ==> !e.racers[i].Dialing? && !e.racers[i].Offering?)
  {
    FailuresAll(e.racers);
  }

  // No racer of the fallback group has started.
  predicate FallbacksWait(r: Race, s: State) {
    forall i: nat :: r.primaries <= i < |s.racers| ==> s.racers[i].Unstarted?
  }

  lemma {:induction false} NoneBeforeFallback(r: Race, s: State, steps: seq<Step>, k: nat)
    requires IsRun(r, s, steps) && FallbacksWait(r, s) && k < |steps| && Fallback !in steps[..k]
    ensures steps[k].Dial? ==> steps[k].racer < r.primaries
    decreases k
  {
    if k > 0 {
      assert steps[..k] == [steps[0]] + steps[1..][..k - 1];
      NoneBeforeFallback(r, Next(r, s, steps[0]), steps[1..], k - 1);
    }
  }

  lemma {:induction false} ExpireFirst(r: Race, s: State, steps: seq<Step>, k: nat)
    requires IsRun(r, s, steps) && !s.timer.Fired? && k < |steps| && Expire !in steps[..k]
    ensures steps[k] != Fallback
    decreases k
  {
    if k > 0 {
      assert steps[..k] == [steps[0]] + steps[1..][..k - 1];
      ExpireFirst(r, Next(r, s, steps[0]), steps[1..], k - 1);
    }
  }

  /** Who dials when: unless the race is fast, a racer of the fallback group dials only after
      the fallback step, and that comes only after the timer has fired; every primary, and in
      a fast race everyone, can dial from the start. */
  lemma FallbacksComeLater(r: Race, steps: seq<Step>, k: nat)
    requires r.Valid() && IsRun(r, Init(r), steps) && k < |steps|
    ensures !r.fast && steps[k].Dial? && r.primaries <= steps[k].racer ==> Fallback in steps[..k]
    ensures steps[k].Fallback? ==> Expire in steps[..k] && !r.fast && r.primaries < r.total
    ensures forall i: nat, ok :: i < r.total && (i < r.primaries || r.fast) ==> Enabled(Init(r), Dial(i, ok))
  {
    hide IsRun;
    if !r.fast && Fallback !in steps[..k] { NoneBeforeFallback(r, Init(r), steps, k); }
    if Expire !in steps[..k] { ExpireFirst(r, Init(r), steps, k); }
    if r.fast || r.primaries == r.total { NoTimer(r, Init(r), steps, k); }
  }

  /** A failing primary sets a pending timer off anew; no other result touches the timer. */
  lemma FailureRearms(r: Race, s: State, i: nat)
    requires Inv(r, s) && Enabled(s, Receive(i))
    ensures var t := Next(r, s, Receive(i));
            && (i < r.primaries && !s.racers[i].conn && (s.timer.Armed? || s.timer.Fired?) && t.outcome.Running? ==> t.timer.Armed?)
            && (!(i < r.primaries) || s.racers[i].conn || s.timer.Absent? || s.timer.Received? ==> t.timer == s.timer)
  {
  }

  lemma {:induction false} NoTimer(r: Race, s: State, steps: seq<Step>, k: nat)
    requires IsRun(r, s, steps) && s.timer.Absent? && k < |steps|
    ensures !steps[k].Fallback?
    decreases k
  {
    if k > 0 { NoTimer(r, Next(r, s, steps[0]), steps[1..], k - 1); }
  }

  // ---- Progress ----

  /** No deadlock: while the function has not returned, some step is possible. */
  lemma NoDeadlock(r: Race, s: State) returns (step: Step)
    requires r.Valid() && Inv(r, s) && (s.outcome.Running? || !Quiescent(s))
    ensures Enabled(s, step)
  {
    InvMeans(r, s);
    if Quiescent(s) {
      step := if s.timer.Armed? then Expire else Fallback;
    } else {
      var i :| 0 <= i < |s.racers| && (s.racers[i].Dialing? || s.racers[i].Offering?);
      step := if s.racers[i].Dialing? then Dial(i, true) else if s.outcome.Running? then Receive(i) else Abandon(i);
    }
  }

  function Weight(x: Racer): nat {
    match x
    case Unstarted => 4
    case Dialing => 3
    case Offering(_) => 2
    case _ => 0
  }

  function Work(racers: seq<Racer>): nat {
    if racers == [] then 0 else Weight(racers[0]) + Work(racers[1..])
  }

  function Remaining(s: State): nat {
    Work(s.racers) + if s.timer.Armed? then 2 else if s.timer.Fired? then 1 else 0
  }

  lemma {:induction false} WorkUpdate(racers: seq<Racer>, i: nat, x: Racer)
    requires i < |racers|
    ensures Work(racers[i := x]) + Weight(racers[i]) == Work(racers) + Weight(x)
    decreases |racers|
  {
    if i == 0 {
      assert racers[0 := x][1..] == racers[1..];
    } else {
      assert racers[i := x][1..] == racers[1..][i - 1 := x];
      WorkUpdate(racers[1..], i - 1, x);
    }
  }

  lemma {:induction false} WorkStarted(racers: seq<Racer>)
    ensures Work(StartFallbacks(racers)) <= Work(racers)
    decreases |racers|
  {
    if racers != [] {
      assert StartFallbacks(racers)[1..] == StartFallbacks(racers[1..]);
      WorkStarted(racers[1..]);
    }
  }

  lemma StepWorks(r: Race, s: State, step: Step)
    requires Enabled(s, step)
    ensures Remaining(Next(r, s, step)) < Remaining(s)
  {
    match step
    case Dial(i, ok) => WorkUpdate(s.racers, i, Offering(ok));
    case Expire =>
    case Fallback => WorkStarted(s.racers);
    case Receive(i) => WorkUpdate(s.racers, i, Delivered(s.racers[i].conn));
    case Abandon(i) => WorkUpdate(s.racers, i, if s.racers[i].conn then Closed else Dropped);
  }

  /** Every run is finite, so with NoDeadlock every maximal run returns and leaves every
      goroutine finished: no racer leaks. */
  lemma {:induction false} RunsEnd(r: Race, s: State, steps: seq<Step>)
    requires IsRun(r, s, steps)
    ensures |steps| + Remaining(After(r, s, steps)) <= Remaining(s)
    decreases |steps|
  {
    hide Remaining, Enabled, Next;
    if steps != [] {
      StepWorks(r, s, steps[0]);
      RunsEnd(r, Next(r, s, steps[0]), steps[1..]);
    }
  }

  /** Where every maximal run ends: the function has returned, no goroutine is left, and
      every connection that was dialed is closed unless it is the one returned. */
  lemma MaximalRunReturns(r: Race, steps: seq<Step>)
    requires r.Valid() && IsRun(r, Init(r), steps)
    requires forall step: Step :: !Enabled(After(r, Init(r), steps), step)
    ensures var e := After(r, Init(r), steps);
            && |e.racers| == r.total && !e.outcome.Running? && Quiescent(e)
            && forall i: nat :: i < r.total ==> Settled(e, steps, i)
  {
    hide Init, IsRun, After, Enabled, Settled;
    InitInv(r);
    RunInv(r, Init(r), steps);
    var e := After(r, Init(r), steps);
    if e.outcome.Running? || !Quiescent(e) {
      var step := NoDeadlock(r, e);
      assert false;
    }
    RaceIsSafe(r, steps);
  }
}
