/** The limiter's ledger over runs that also change the rate and close it: what was
    charged never exceeds what the rates in force earned, plus written-off debts. */
module RateLedger {
  import opened RateLimiters
  import opened RateWindow

  datatype Op = SetRate(rate: int, now: real) | Close(now: real) | Do(call: Call) {
    function Time(): real {
      if Do? then call.now else now
    }
  }

  function Apply(b: Bucket, op: Op): Bucket {
    match op
    case SetRate(rate, now) => WithRate(b, rate, now)
    case Close(_) => Shut(b)
    case Do(call) => Decide(b, call).0
  }

  function Run(b: Bucket, ops: seq<Op>): Bucket
    decreases |ops|
  {
    if ops == [] then b else Run(Apply(b, ops[0]), ops[1..])
  }

  function Charge(b: Bucket, op: Op): real {
    if op.Do? && Decide(b, op.call).1.Granted? then Decide(b, op.call).1.charge else 0.0
  }

  function Charged(b: Bucket, ops: seq<Op>): real
    decreases |ops|
  {
    if ops == [] then 0.0 else Charge(b, ops[0]) + Charged(Apply(b, ops[0]), ops[1..])
  }

  // SetRate and Close forgive a negative balance.
  function Forgiven(b: Bucket, op: Op): real {
    if op.Do? then 0.0 else Max(0.0, -b.tokens)
  }

  function WrittenOff(b: Bucket, ops: seq<Op>): real
    decreases |ops|
  {
    if ops == [] then 0.0 else Forgiven(b, ops[0]) + WrittenOff(Apply(b, ops[0]), ops[1..])
  }

  function Effective(rate: int): int {
    if rate > 0 then rate else 0
  }

  /** The time integral of the rate in force, read off the operations alone: each
      SetRate holds until the next one, and a closed limiter earns nothing. */
  function RateIntegral(rate: int, from: real, ops: seq<Op>, until: real): real
    decreases |ops|
  {
    if ops == [] then Earned(Effective(rate), until - from)
    else match ops[0]
      case SetRate(r, now) => Earned(Effective(rate), now - from) + RateIntegral(r, now, ops[1..], until)
      case Close(now) => Earned(Effective(rate), now - from) + RateIntegral(0, now, ops[1..], until)
      case Do(_) => RateIntegral(rate, from, ops[1..], until)
  }

  ghost predicate InOrder(ops: seq<Op>, start: real, until: real)
    decreases |ops|
  {
    && ZERO_TIME < start <= until
    && (ops != [] ==> start <= ops[0].Time() && InOrder(ops[1..], ops[0].Time(), until))
  }

  // Every reachable state: a positive rate is limiting, any other holds no tokens.
  predicate Reachable(b: Bucket) {
    if b.rate > 0 then b.Limiting() else b.tokens == 0.0 <= b.burst as real && b.disabled
  }

  lemma EarnedNothing(t: real)
    ensures Earned(0, t) == 0.0
  {
  }

  lemma {:induction false} IntegralSplits(rate: int, from: real, mid: real, ops: seq<Op>, until: real)
    ensures RateIntegral(rate, from, ops, until) == Earned(Effective(rate), mid - from) + RateIntegral(rate, mid, ops, until)
    decreases |ops|
  {
    hide Earned;
    var end := if ops == [] then until else ops[0].Time();
    EarnedAdds(Effective(rate), mid - from, end - mid);
    assert (mid - from) + (end - mid) == end - from;
    if ops != [] && ops[0].Do? {
      IntegralSplits(rate, from, mid, ops[1..], until);
    }
  }

  // One operation: what it charges and leaves is covered by the balance it found,
  // what the rate earned up to it, and what it forgave.
  lemma StepBalance(b: Bucket, op: Op)
    requires Reachable(b) && (b.rate > 0 ==> ZERO_TIME < b.last <= op.Time())
    ensures var b' := Apply(b, op);
            && Reachable(b') && (op.Do? ==> b'.rate == b.rate)
            && (b'.rate > 0 ==> (op.Do? && b.last <= b'.last <= op.Time()) || b'.last == op.Time())
            && Charge(b, op) + b'.tokens
               <= b.tokens + Forgiven(b, op) + (if op.Do? && b.rate > 0 then Earned(b.rate, b'.last - b.last) else 0.0)
  {
    hide Decide, Refilled, Earned;
    match op
    case SetRate(rate, now) =>
    case Close(_) =>
    case Do(c) =>
      if b.rate > 0 {
        DecideUnfolds(b, c);
        EarnedAdds(b.rate, b.last, b.last);
        if c.n > 0 { RefillUnfolds(b, c.now); }
      } else {
        IdleUnfolds(b, c);
      }
  }

  lemma IdleUnfolds(b: Bucket, c: Call)
    requires b.rate <= 0
    ensures Decide(b, c).0 == b && !Decide(b, c).1.Granted?
  {
  }

  lemma {:induction false} Balance(b: Bucket, ops: seq<Op>, start: real, until: real)
    requires Reachable(b) && InOrder(ops, start, until)
    requires b.rate > 0 ==> ZERO_TIME < b.last <= start
    ensures Reachable(Run(b, ops))
    ensures Charged(b, ops) + Run(b, ops).tokens
            <= b.tokens + RateIntegral(b.rate, b.last, ops, until) + WrittenOff(b, ops)
    decreases |ops|
  {
    hide Earned, Reachable, Forgiven, Charge, Apply;
    if ops == [] {
      EarnedNothing(until - b.last);
      EarnedAdds(b.rate, 0.0, 0.0);
      if b.rate > 0 { EarnedOrders(b.rate, 0.0, until - b.last); }
    } else {
      var op, b' := ops[0], Apply(b, ops[0]);
      StepBalance(b, op);
      Balance(b', ops[1..], op.Time(), until);
      StepIntegral(b, ops, until);
    }
  }

  // The integral seen before an operation covers the integral seen after it.
  lemma StepIntegral(b: Bucket, ops: seq<Op>, until: real)
    requires ops != [] && Reachable(b) && (b.rate > 0 ==> ZERO_TIME < b.last <= ops[0].Time())
    ensures var op, b' := ops[0], Apply(b, ops[0]);
            (if op.Do? && b.rate > 0 then Earned(b.rate, b'.last - b.last) else 0.0)
            + RateIntegral(b'.rate, b'.last, ops[1..], until) <= RateIntegral(b.rate, b.last, ops, until)
  {
    hide Earned, Decide, Refilled;
    var op, b' := ops[0], Apply(b, ops[0]);
    StepBalance(b, op);
    EarnedNothing(op.Time() - b.last);
    EarnedNothing(op.Time() - b'.last);
    EarnedNothing(b'.last - b.last);
    if op.Do? {
      IntegralSplits(b.rate, b.last, b'.last, ops[1..], until);
    } else {
      IntegralSplits(b'.rate, b'.last, op.Time(), ops[1..], until);
      EarnedAdds(b'.rate, b'.last, b'.last);
      EarnedAdds(b.rate, 0.0, 0.0);
      if b.rate > 0 { EarnedOrders(b.rate, 0.0, op.Time() - b.last); }
    }
  }

  /** The ledger: from NewRateLimiter, over any run of SetRate, Close, allow and
      reserve at arbitrary rates, everything charged plus the tokens left is at most
      the integral of the rate plus the debts that SetRate and Close wrote off, and
      the tokens never exceed the burst. */
  lemma LedgerBound(rate: int, start: real, ops: seq<Op>, until: real)
    requires InOrder(ops, start, until)
    ensures var b := NewBucket(rate, start);
            && Charged(b, ops) + Run(b, ops).tokens <= RateIntegral(rate, start, ops, until) + WrittenOff(b, ops)
            && Run(b, ops).tokens <= Run(b, ops).burst as real
  {
    hide Run, Charged, RateIntegral, WrittenOff, Earned;
    Balance(NewBucket(rate, start), ops, start, until);
  }
}
