/** The token bucket of counter/ratelimit.go.

    Tokens and times are exact reals (seconds); every operation that reads the
    clock under the mutex takes the reading as the argument `now`.  The pure
    transitions on `Bucket` are the specification of the class below. */
module RateLimiters {

  const SECOND_NS := 1_000_000_000
  const BURST_WINDOW_NS := 200_000_000
  const MAX_WRITE_CHUNK := 65536
  // Go's zero time.Time, the instant for which IsZero() holds.
  const ZERO_TIME: real := 0.0

  datatype Bucket = Bucket(rate: int, burst: int, tokens: real, last: real, disabled: bool, closed: bool) {
    // A bucket that limits: the only state in which calls are charged.
    predicate Active() {
      !closed && !disabled && rate > 0
    }

    // An active bucket in a state that SetRate and the calls after it can produce.
    predicate Limiting() {
      Active() && burst == BurstFor(rate) && tokens <= burst as real
    }
  }

  // Go truncates the quotient toward zero; for negative rates either rounding is
  // below MAX_WRITE_CHUNK, so the clamped result is the same.
  function BurstFor(rate: int): (burst: int)
    ensures burst >= MAX_WRITE_CHUNK
    ensures burst > MAX_WRITE_CHUNK ==> burst * SECOND_NS <= rate * BURST_WINDOW_NS < (burst + 1) * SECOND_NS
  {
    var b := rate * BURST_WINDOW_NS / SECOND_NS;
    if b < MAX_WRITE_CHUNK then MAX_WRITE_CHUNK else b
  }

  function WithRate(b: Bucket, rate: int, now: real): Bucket {
    var burst := BurstFor(rate);
    if rate <= 0 then
      Bucket(rate, burst, 0.0, b.last, true, b.closed)
    else
      var tokens := if b.tokens < 0.0 || b.tokens > burst as real then 0.0 else b.tokens;
      Bucket(rate, burst, tokens, now, false, false)
  }

  function NewBucket(rate: int, now: real): Bucket {
    WithRate(Bucket(0, 0, 0.0, now, false, false), rate, now)
  }

  function Shut(b: Bucket): Bucket {
    Bucket(0, 0, 0.0, b.last, true, true)
  }

  // Tokens earned since the last update, capped at the burst.
  function Refilled(b: Bucket, now: real): Bucket {
    var last := if b.last == ZERO_TIME then now else b.last;
    if now - last > 0.0 then
      var tokens := b.tokens + (now - last) * b.rate as real;
      b.(tokens := if tokens > b.burst as real then b.burst as real else tokens, last := now)
    else
      b.(last := last)
  }

  // What a call of n bytes is charged: never more than a full bucket.
  function Need(b: Bucket, n: int): real {
    if n as real > b.burst as real then b.burst as real else n as real
  }

  datatype Call = Allow(n: int, now: real) | Reserve(n: int, now: real)

  /** What a call obtained: `Closed` is ErrLimiterClosed, `Free` passes uncharged,
      `Dropped` is allow's refusal, `Granted` charges and releases after `wait` seconds. */
  datatype Verdict = Closed | Free | Dropped | Granted(charge: real, wait: real)

  function Decide(b: Bucket, c: Call): (Bucket, Verdict) {
    if b.closed then (b, Closed)
    else if b.disabled || b.rate <= 0 || c.n <= 0 then (b, Free)
    else
      var f := Refilled(b, c.now);
      var need := Need(f, c.n);
      if f.tokens >= need then (f.(tokens := f.tokens - need), Granted(need, 0.0))
      else if c.Allow? then (f, Dropped)
      else (f.(tokens := f.tokens - need), Granted(need, (need - f.tokens) / b.rate as real))
  }

  // time.Duration(wait * float64(time.Second)): whole nanoseconds, truncated.
  function Nanoseconds(wait: real): int {
    (wait * SECOND_NS as real).Floor
  }

  function After(b: Bucket, calls: seq<Call>): Bucket
    decreases |calls|
  {
    if calls == [] then b else After(Decide(b, calls[0]).0, calls[1..])
  }

  lemma RefillKeeps(b: Bucket, now: real)
    ensures var f := Refilled(b, now);
            f == b.(tokens := f.tokens, last := f.last) && (b.tokens <= b.burst as real ==> f.tokens <= b.burst as real)
  {
  }

  /** A fifth of a second of the rate, rounded down, and at least 64 KiB. */
  lemma BurstMeans(rate: int)
    ensures BurstFor(rate) == if rate < 5 * 65536 then 65536 else rate / 5
  {
  }

  /** A clock that stands still or steps back earns nothing and takes nothing away, and the
      first reading after the zero time only sets the clock. */
  lemma RefillStands(b: Bucket, now: real)
    ensures b.last != ZERO_TIME && now <= b.last ==> Refilled(b, now) == b
    ensures b.last == ZERO_TIME ==> Refilled(b, now) == b.(last := now)
  {
  }

  /** A Wait for nothing succeeds, even on a closed limiter. */
  lemma WaitForNothing(b: Bucket, n: int, rounds: nat -> Round, k: nat)
    requires n <= 0 && (b.Active() ==> b.burst > 0)
    ensures WaitFrom(b, n, rounds, k) == WaitOutcome(b, [], true)
  {
  }

  // A call changes tokens and the refill time only, and a reserve is always granted.
  lemma CallKeeps(b: Bucket, c: Call)
    ensures var (after, v) := Decide(b, c);
            && after == b.(tokens := after.tokens, last := after.last)
            && (b.Limiting() ==> after.Limiting())
            && (b.Active() && c.n > 0 && c.Reserve? ==> v.Granted? && v.charge == Need(b, c.n))
  {
    hide Refilled, BurstFor;
    RefillKeeps(b, c.now);
  }

  /** An open limiter that does not limit, such as one of rate 0, lets every call pass
      uncharged and unchanged, and every Wait succeed at once. */
  lemma UnlimitedIsFree(b: Bucket, c: Call, n: int, rounds: nat -> Round, k: nat)
    requires !b.closed && (b.disabled || b.rate <= 0)
    ensures Decide(b, c) == (b, Free)
    ensures WaitFrom(b, n, rounds, k) == WaitOutcome(b, [], true)
  {
  }

  /** An open limiter answers every call of no bytes for free. */
  lemma NothingIsFree(b: Bucket, c: Call)
    requires !b.closed && c.n <= 0
    ensures Decide(b, c) == (b, Free)
  {
  }

  // Calls never change the parameters that SetRate and Close set.
  lemma {:induction false} CallsKeepParameters(b: Bucket, calls: seq<Call>)
    ensures After(b, calls).(tokens := b.tokens, last := b.last) == b
    ensures b.Limiting() ==> After(b, calls).Limiting()
    decreases |calls|
  {
    hide Decide, Bucket.Limiting;
    if calls != [] {
      CallKeeps(b, calls[0]);
      CallsKeepParameters(Decide(b, calls[0]).0, calls[1..]);
    }
  }

  /** One other caller's round between two pieces of a Wait: the calls that got
      the mutex first, and the clock reading of our own reserve. */
  datatype Round = Round(others: seq<Call>, now: real)

  datatype WaitOutcome = WaitOutcome(bucket: Bucket, pieces: seq<real>, ok: bool)

  // Wait's loop as a function: one reserve per piece of at most a burst.
  function WaitFrom(b: Bucket, remaining: int, rounds: nat -> Round, k: nat): WaitOutcome
    requires b.Active() ==> b.burst > 0
    decreases remaining
  {
    if remaining <= 0 then WaitOutcome(b, [], true)
    else if b.disabled || b.rate <= 0 || b.closed then WaitOutcome(b, [], !b.closed)
    else
      var chunk := if remaining > b.burst then b.burst else remaining;
      CallsKeepParameters(b, rounds(k).others);
      var before := After(b, rounds(k).others);
      var (after, verdict) := Decide(before, Reserve(chunk, rounds(k).now));
      var rest := WaitFrom(after, remaining - chunk, rounds, k + 1);
      WaitOutcome(rest.bucket, (if verdict.Granted? then [verdict.charge] else []) + rest.pieces, rest.ok)
  }

  // `whole` is what remains, preceded by the pieces already charged.
  predicate Resumes(whole: WaitOutcome, done: seq<real>, rest: WaitOutcome) {
    whole == WaitOutcome(rest.bucket, done + rest.pieces, rest.ok)
  }

  lemma ResumeStep(whole: WaitOutcome, done: seq<real>, more: seq<real>, before: WaitOutcome, after: WaitOutcome)
    requires Resumes(whole, done, before)
    requires done <= more && before == WaitOutcome(after.bucket, more[|done|..] + after.pieces, after.ok)
    ensures Resumes(whole, more, after)
  {
    assert more == done + more[|done|..];
  }

  // One turn of Wait's loop on an active bucket.
  lemma WaitUnfolds(b: Bucket, remaining: int, rounds: nat -> Round, k: nat)
    requires b.Limiting() && remaining > 0
    ensures var chunk := if remaining > b.burst then b.burst else remaining;
            var (after, v) := Decide(After(b, rounds(k).others), Reserve(chunk, rounds(k).now));
            && v.Granted?
            && after.Limiting()
            && var rest := WaitFrom(after, remaining - chunk, rounds, k + 1);
               WaitFrom(b, remaining, rounds, k) == WaitOutcome(rest.bucket, [v.charge] + rest.pieces, rest.ok)
  {
    hide Decide, BurstFor;
    CallsKeepParameters(b, rounds(k).others);
    var chunk := if remaining > b.burst then b.burst else remaining;
    CallKeeps(After(b, rounds(k).others), Reserve(chunk, rounds(k).now));
  }

  function Sum(s: seq<real>): real {
    if s == [] then 0.0 else s[0] + Sum(s[1..])
  }

  /** However other callers interleave, Wait(n) on a limiting bucket succeeds and
      charges exactly n bytes, in pieces no larger than the burst. */
  lemma {:induction false} WaitChargesExactly(b: Bucket, n: int, rounds: nat -> Round, k: nat)
    requires b.Limiting()
    ensures var w := WaitFrom(b, n, rounds, k);
            && w.ok
            && w.bucket.Limiting() && w.bucket.rate == b.rate
            && Sum(w.pieces) == (if n > 0 then n as real else 0.0)
            && forall i :: 0 <= i < |w.pieces| ==> 0.0 < w.pieces[i] <= b.burst as real
    decreases n
  {
    hide Decide, BurstFor;
    if n > 0 {
      var chunk := if n > b.burst then b.burst else n;
      CallsKeepParameters(b, rounds(k).others);
      var before := After(b, rounds(k).others);
      var (after, verdict) := Decide(before, Reserve(chunk, rounds(k).now));
      CallKeeps(before, Reserve(chunk, rounds(k).now));
      WaitUnfolds(b, n, rounds, k);
      WaitChargesExactly(after, n - chunk, rounds, k + 1);
      var rest := WaitFrom(after, n - chunk, rounds, k + 1);
      assert ([verdict.charge] + rest.pieces)[1..] == rest.pieces;
    }
  }

  /** A closed limiter fails every positive-size call and charges nothing, whatever
      else is called on it; only SetRate could reopen it. */
  lemma ClosedFails(b: Bucket, n: int, rounds: nat -> Round, k: nat, now: real)
    requires b.closed && n > 0
    ensures WaitFrom(b, n, rounds, k) == WaitOutcome(b, [], false)
    ensures Decide(b, Allow(n, now)) == (b, Closed)
    ensures Decide(b, Reserve(n, now)) == (b, Closed)
  {
  }

  class RateLimiter {
    var rate: int
    var burst: int
    var tokens: real
    var last: real
    var disabled: bool
    var closed: bool

    function State(): Bucket
      reads this
    {
      Bucket(rate, burst, tokens, last, disabled, closed)
    }

    // What holds of every limiter: an active one has the burst of its rate.
    predicate Valid()
      reads this
    {
      State().Active() ==> State().Limiting()
    }

    constructor (bytesPerSecond: int, now: real)
      ensures State() == NewBucket(bytesPerSecond, now)
      ensures Valid() && !closed && rate == bytesPerSecond
    {
      rate, burst, tokens, last, disabled, closed := 0, 0, 0.0, now, false, false;
      new;
      SetRate(bytesPerSecond, now);
    }

    method SetRate(bytesPerSecond: int, now: real)
      modifies this
      ensures State() == WithRate(old(State()), bytesPerSecond, now)
      ensures Valid() && rate == bytesPerSecond
      ensures bytesPerSecond > 0 ==> !closed && !disabled && last == now
                                     && tokens == (if 0.0 <= old(tokens) <= burst as real then old(tokens) else 0.0)
      ensures bytesPerSecond <= 0 ==> disabled && tokens == 0.0 && closed == old(closed) && last == old(last)
    {
      rate := bytesPerSecond;
      burst := bytesPerSecond * BURST_WINDOW_NS / SECOND_NS;
      if burst < MAX_WRITE_CHUNK {
        burst := MAX_WRITE_CHUNK;
      }
      if bytesPerSecond <= 0 {
        disabled := true;
        tokens := 0.0;
        return;
      }
      closed := false;
      disabled := false;
      if tokens < 0.0 || tokens > burst as real {
        tokens := 0.0;
      }
      last := now;
    }

    method Close()
      modifies this
      ensures State() == Shut(old(State()))
      ensures Valid() && closed
    {
      closed, disabled := true, true;
      rate, burst, tokens := 0, 0, 0.0;
    }

    // The refill both callers perform before they look at the tokens.
    method Refill(now: real)
      modifies this
      ensures State() == Refilled(old(State()), now)
    {
      if last == ZERO_TIME {
        last := now;
      }
      var elapsed := now - last;
      if elapsed > 0.0 {
        tokens := tokens + elapsed * rate as real;
        if tokens > burst as real {
          tokens := burst as real;
        }
        last := now;
      }
    }

    method Allow(n: int, now: real) returns (v: Verdict)
      requires Valid()
      modifies this
      ensures n > 0 ==> (State(), v) == Decide(old(State()), Call.Allow(n, now))
      ensures n <= 0 ==> v == Free && State() == old(State())
      ensures Valid()
    {
      if n <= 0 {
        return Free;
      }
      if closed {
        return Closed;
      }
      if disabled || rate <= 0 {
        return Free;
      }
      Refill(now);
      var need := n as real;
      if need > burst as real {
        need := burst as real;
      }
      if tokens < need {
        return Dropped;
      }
      tokens := tokens - need;
      return Granted(need, 0.0);
    }

    /** `v` is the exact verdict; `wait` is the duration the source returns. */
    method Reserve(n: int, now: real) returns (v: Verdict, wait: int)
      requires Valid()
      modifies this
      ensures (State(), v) == Decide(old(State()), Call.Reserve(n, now))
      ensures wait == (if v.Granted? then Nanoseconds(v.wait) else 0)
      ensures Valid()
    {
      if closed {
        return Closed, 0;
      }
      if disabled || rate <= 0 || n <= 0 {
        return Free, 0;
      }
      Refill(now);
      var need := n as real;
      if need > burst as real {
        need := burst as real;
      }
      if tokens >= need {
        tokens := tokens - need;
        return Granted(need, 0.0), 0;
      }
      var missing := need - tokens;
      tokens := tokens - need;
      return Granted(need, missing / rate as real), (missing / rate as real * SECOND_NS as real).Floor;
    }

    // Other callers sharing the limiter, one mutex section each.
    method Others(calls: seq<Call>)
      requires Valid()
      modifies this
      ensures State() == After(old(State()), calls)
      ensures Valid()
    {
      var i := 0;
      while i < |calls|
        invariant 0 <= i <= |calls|
        invariant Valid()
        invariant After(State(), calls[i..]) == After(old(State()), calls)
      {
        var c := calls[i];
        if c.Allow? && c.n > 0 {
          var _ := Allow(c.n, c.now);
        } else if c.Reserve? {
          var _, _ := Reserve(c.n, c.now);
        }
        i := i + 1;
      }
    }

    /** Wait between the `rounds` of other callers; `pieces` lists what it charged. */
    method Wait(n: int, rounds: nat -> Round) returns (ok: bool, pieces: seq<real>)
      requires Valid()
      modifies this
      ensures WaitFrom(old(State()), n, rounds, 0) == WaitOutcome(State(), pieces, ok)
      ensures Valid()
    {
      var remaining, k := n, 0;
      pieces := [];
      ghost var whole := WaitFrom(State(), n, rounds, 0);
      while remaining > 0
        invariant Valid()
        invariant Resumes(whole, pieces, WaitFrom(State(), remaining, rounds, k))
        decreases remaining
      {
        if disabled || rate <= 0 || closed {
          return !closed, pieces;
        }
        ghost var before, left := State(), remaining;
        var chunk := remaining;
        if burst > 0 && chunk > burst {
          chunk := burst;
        }
        Others(rounds(k).others);
        var v, _ := Reserve(chunk, rounds(k).now);
        WaitUnfolds(before, left, rounds, k);
        if v.Closed? {
          return false, pieces;
        }
        ghost var done := pieces;
        pieces := pieces + if v.Granted? then [v.charge] else [];
        remaining, k := remaining - chunk, k + 1;
        ResumeStep(whole, done, pieces, WaitFrom(before, left, rounds, k - 1), WaitFrom(State(), remaining, rounds, k));
      }
      return true, pieces;
    }
  }
}
