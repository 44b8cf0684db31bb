/** DialParallelNetwork (fork/sing-box/common/dialer/default_parallel_network.go): one
    goroutine dials the preferred address family, a second the other one after the fallback
    delay, and the function keeps one result per side, each with a `done` flag. */
module NetworkRace {
  import R = Racing

  // What a side's dial came to.
  datatype Answer = Connected | Refused(error: string)

  datatype Side = Unstarted | Dialing | Offering(answer: Answer) | Delivered(answer: Answer) | Closed | Dropped

  // dialResult as stored; the zero value before anything is received.
  datatype Stored = Stored(error: string, done: bool)

  datatype Outcome = Running | Won(primary: bool) | Failed(error: string)

  datatype State = State(first: Side, second: Side, timer: R.Timer, primary: Stored, fallback: Stored, outcome: Outcome) {
    function At(isPrimary: bool): Side { if isPrimary then first else second }

    function With(isPrimary: bool, x: Side): State {
      if isPrimary then this.(first := x) else this.(second := x)
    }
  }

  datatype Step =
    | Dial(isPrimary: bool, answer: Answer)
    | Expire
    | Fallback
    | Receive(isPrimary: bool)
    | Abandon(isPrimary: bool)

  const INIT: State := State(Dialing, Unstarted, R.Armed, Stored("", false), Stored("", false), Running)

  predicate Enabled(s: State, step: Step) {
    match step
    case Dial(p, _) => s.At(p).Dialing?
    case Expire => s.timer.Armed?
    case Fallback => s.outcome.Running? && s.timer.Fired?
    case Receive(p) => s.outcome.Running? && s.At(p).Offering?
    case Abandon(p) => !s.outcome.Running? && s.At(p).Offering?
  }

  function Next(s: State, step: Step): State
    requires Enabled(s, step)
  {
    match step
    case Dial(p, answer) => s.With(p, Offering(answer))
    case Expire => s.(timer := R.Fired)
    case Fallback => s.(second := Dialing, timer := R.Received)
    case Receive(p) => Received(s.With(p, Delivered(s.At(p).answer)), p, s.At(p).answer)
    case Abandon(p) => s.With(p, if s.At(p).answer.Connected? then Closed else Dropped)
  }

  // The body of the receiving case.
  function Received(s: State, isPrimary: bool, answer: Answer): State {
    match answer
    case Connected => s.(outcome := Won(isPrimary))
    case Refused(error) =>
      var t := if isPrimary then s.(primary := Stored(error, true)) else s.(fallback := Stored(error, true));
      if t.primary.done && t.fallback.done then t.(outcome := Failed(t.primary.error))
      else if isPrimary && t.timer.Pending() then t.(timer := R.Armed)
      else t
  }

  predicate IsRun(s: State, steps: seq<Step>)
    decreases |steps|
  {
    steps != [] ==> Enabled(s, steps[0]) && IsRun(Next(s, steps[0]), steps[1..])
  }

  function After(s: State, steps: seq<Step>): State
    requires IsRun(s, steps)
    decreases |steps|
  {
    if steps == [] then s else After(Next(s, steps[0]), steps[1..])
  }

  // ---- The race of one primary against one fallback ----

  const RACE: R.Race := R.Race(1, 2, false)

  function Racer(x: Side): R.Racer {
    match x
    case Unstarted => R.Unstarted
    case Dialing => R.Dialing
    case Offering(answer) => R.Offering(answer.Connected?)
    case Delivered(answer) => R.Delivered(answer.Connected?)
    case Closed => R.Closed
    case Dropped => R.Dropped
  }

  function Index(isPrimary: bool): nat { if isPrimary then 0 else 1 }

  // As a race: the two flags stand for the error list.
  function Abstract(s: State): R.State {
    R.State([Racer(s.first), Racer(s.second)], s.timer,
            (if s.primary.done then 1 else 0) + (if s.fallback.done then 1 else 0),
            match s.outcome
            case Running => R.Running
            case Won(p) => R.Won(Index(p))
            case Failed(_) => R.Failed)
  }

  function AbstractStep(step: Step): R.Step {
    match step
    case Dial(p, answer) => R.Dial(Index(p), answer.Connected?)
    case Expire => R.Expire
    case Fallback => R.Fallback
    case Receive(p) => R.Receive(Index(p))
    case Abandon(p) => R.Abandon(Index(p))
  }

  function AbstractSteps(steps: seq<Step>): seq<R.Step> {
    seq(|steps|, i requires 0 <= i < |steps| => AbstractStep(steps[i]))
  }

  // A flag is set exactly when its side's error was received, with that error; before the
  // timer's value is received the fallback has not started.
  predicate Inv(s: State) {
    && (s.primary.done <==> s.first.Delivered? && s.first.answer.Refused?)
    && (s.primary.done ==> s.first.answer == Refused(s.primary.error))
    && (s.fallback.done <==> s.second.Delivered? && s.second.answer.Refused?)
    && (s.second.Unstarted? <==> s.timer.Pending())
    && !s.first.Unstarted?
    && (s.outcome.Failed? ==> s.primary.done && s.fallback.done && s.outcome.error == s.primary.error)
  }

  /** One step of DialParallelNetwork is one step of the race. */
  lemma StepSimulates(s: State, step: Step)
    requires Inv(s) && Enabled(s, step)
    ensures Inv(Next(s, step))
    ensures R.Enabled(Abstract(s), AbstractStep(step))
    ensures Abstract(Next(s, step)) == R.Next(RACE, Abstract(s), AbstractStep(step))
  {
  }

  /** So is every run, from the state in which it starts. */
  lemma {:induction false} RunSimulates(s: State, steps: seq<Step>)
    requires Inv(s) && IsRun(s, steps)
    ensures Inv(After(s, steps))
    ensures R.IsRun(RACE, Abstract(s), AbstractSteps(steps))
    ensures Abstract(After(s, steps)) == R.After(RACE, Abstract(s), AbstractSteps(steps))
    decreases |steps|
  {
    hide Inv, Enabled, Next, R.Enabled, R.Next, Abstract, AbstractStep;
    if steps != [] {
      StepSimulates(s, steps[0]);
      RunSimulates(Next(s, steps[0]), steps[1..]);
      assert AbstractSteps(steps)[1..] == AbstractSteps(steps[1..]);
    }
  }

  lemma Starts()
    ensures Inv(INIT) && Abstract(INIT) == R.Init(RACE)
  {
  }

  // An answer that is still to be seen was dialed in this run.
  lemma {:induction false} AnswerDialed(s: State, steps: seq<Step>, p: bool)
    requires IsRun(s, steps)
    ensures var x := After(s, steps).At(p);
            x.Offering? || x.Delivered? ==> Dial(p, x.answer) in steps || ((s.At(p).Offering? || s.At(p).Delivered?) && s.At(p).answer == x.answer)
    decreases |steps|
  {
    if steps != [] {
      AnswerDialed(Next(s, steps[0]), steps[1..], p);
      assert steps == [steps[0]] + steps[1..];
    }
  }

  predicate Quiet(x: Side) { !x.Dialing? && !x.Offering? }

  // How often the fallback goroutine was started in a run.
  function FallbackStarts(steps: seq<Step>): nat {
    if steps == [] then 0 else (if steps[0].Fallback? then 1 else 0) + FallbackStarts(steps[1..])
  }

  lemma {:induction false} SameFallbacks(steps: seq<Step>)
    ensures FallbackStarts(steps) == R.FallbackStarts(AbstractSteps(steps))
    decreases |steps|
  {
    if steps != [] {
      SameFallbacks(steps[1..]);
      assert AbstractSteps(steps)[1..] == AbstractSteps(steps[1..]);
    }
  }

  // Both goroutines are done, or the fallback was never started.
  predicate Finished(e: State) {
    Quiet(e.first) && Quiet(e.second)
  }

  // Every connection dialed is closed unless it is the one returned.
  predicate Settled(e: State, steps: seq<Step>) {
    forall p :: Dial(p, Connected) in steps ==> e.At(p).Closed? || e.outcome == Won(p)
  }

  lemma QuietMeans(e: State)
    ensures R.Quiescent(Abstract(e)) <==> Finished(e)
  {
    assert Abstract(e).racers[0] == Racer(e.first) && Abstract(e).racers[1] == Racer(e.second);
  }

  /** In every interleaving: a connection is returned only if its side dialed it; an error only
      after both sides failed, and it is the primary's; the fallback starts at most once; when
      both goroutines are done and no timer is pending the function has returned; and then
      every connection dialed by either side is closed unless it is the one returned. */
  lemma NetworkIsSafe(steps: seq<Step>)
    requires IsRun(INIT, steps)
    ensures var e := After(INIT, steps);
            && (e.outcome.Won? ==> Dial(e.outcome.primary, Connected) in steps)
            && (e.outcome.Failed? ==> Dial(true, Refused(e.outcome.error)) in steps && exists error :: Dial(false, Refused(error)) in steps)
            && FallbackStarts(steps) <= 1
            && (Finished(e) && !e.timer.Pending() ==> !e.outcome.Running?)
            && (Finished(e) && !e.outcome.Running? ==> Settled(e, steps))
  {
    hide Next, Enabled, IsRun, After, R.IsRun, R.After, R.Init, R.FallbackStarts, FallbackStarts, R.Quiescent, Finished;
    var e := After(INIT, steps);
    Starts();
    RunSimulates(INIT, steps);
    R.RaceIsSafe(RACE, AbstractSteps(steps));
    SameFallbacks(steps);
    QuietMeans(e);
    AnswerDialed(INIT, steps, true);
    AnswerDialed(INIT, steps, false);
    if e.outcome.Failed? {
      assert Dial(false, Refused(e.second.answer.error)) in steps;
    }
    assert Abstract(e).racers == [Racer(e.At(true)), Racer(e.At(false))];
    if e.outcome.Won? {
      assert Abstract(e).racers[Index(e.outcome.primary)] == R.Delivered(true);
    }
    forall p | Dial(p, Connected) in steps
      ensures R.Dial(Index(p), true) in AbstractSteps(steps)
    {
      var k :| 0 <= k < |steps| && steps[k] == Dial(p, Connected);
      assert AbstractSteps(steps)[k] == R.Dial(Index(p), true);
    }
    if Finished(e) && !e.outcome.Running? {
      assert R.Settled(Abstract(e), AbstractSteps(steps), 0) && R.Settled(Abstract(e), AbstractSteps(steps), 1);
    }
  }

  /** The fallback side dials only after the fallback step, and that comes only after the timer
      has fired; the primary can dial from the start. */
  lemma FallbackComesLater(steps: seq<Step>, k: nat)
    requires IsRun(INIT, steps) && k < |steps|
    ensures steps[k].Dial? && !steps[k].isPrimary ==> Fallback in steps[..k]
    ensures steps[k].Fallback? ==> Expire in steps[..k]
    ensures forall answer :: Enabled(INIT, Dial(true, answer))
  {
    hide IsRun, R.IsRun, R.Init, Next;
    Starts();
    RunSimulates(INIT, steps);
    var abs := AbstractSteps(steps);
    R.FallbacksComeLater(RACE, abs, k);
    assert abs[k] == AbstractStep(steps[k]);
    if R.Fallback in abs[..k] {
      var j :| 0 <= j < k && abs[j] == R.Fallback;
      assert steps[..k][j] == Fallback;
    }
    if R.Expire in abs[..k] {
      var j :| 0 <= j < k && abs[j] == R.Expire;
      assert steps[..k][j] == Expire;
    }
  }

  // A step of the race is a step here.
  lemma StepsBack(e: State, step: R.Step) returns (own: Step)
    requires R.Enabled(Abstract(e), step)
    ensures Enabled(e, own)
  {
    match step
    case Dial(i, _) => own := Dial(i == 0, Connected);
    case Expire => own := Expire;
    case Fallback => own := Fallback;
    case Receive(i) => own := Receive(i == 0);
    case Abandon(i) => own := Abandon(i == 0);
  }

  /** Where every maximal run ends: DialParallelNetwork has returned, no goroutine is left, and
      every connection dialed is closed unless it is the one returned. */
  lemma MaximalRunReturns(steps: seq<Step>)
    requires IsRun(INIT, steps) && forall step: Step :: !Enabled(After(INIT, steps), step)
    ensures var e := After(INIT, steps); !e.outcome.Running? && Finished(e) && Settled(e, steps)
  {
    hide Enabled, IsRun, After, R.IsRun, R.After, R.Init, R.Enabled, Abstract, AbstractSteps, Finished, Settled, R.Quiescent, Inv;
    var e := After(INIT, steps);
    Starts();
    RunSimulates(INIT, steps);
    forall step: R.Step
      ensures !R.Enabled(Abstract(e), step)
    {
      if R.Enabled(Abstract(e), step) {
        var own := StepsBack(e, step);
        assert false;
      }
    }
    R.MaximalRunReturns(RACE, AbstractSteps(steps));
    QuietMeans(e);
    assert !e.outcome.Running? by { RunningMeans(e); }
    NetworkIsSafe(steps);
  }

  lemma RunningMeans(e: State)
    ensures Abstract(e).outcome.Running? <==> e.outcome.Running?
  {
  }
}
