/** When truncating waits to whole nanoseconds costs nothing: the window bound of RateWindow
    survives it, for every run of a new limiter, exactly at rates that divide a second's
    nanoseconds. */
module RateGrid {
  import opened RateLimiters
  import opened RateWindow

  // A reading of Go's clock: a whole number of nanoseconds.
  predicate OnTick(t: real) {
    t * SECOND_NS as real == Nanoseconds(t) as real
  }

  // The calls of a run, read off that clock.
  ghost predicate Ticking(calls: seq<Call>, start: real) {
    Chronological(calls, start) && OnTick(start) && forall i :: 0 <= i < |calls| ==> OnTick(calls[i].now)
  }

  // The unlengthened window bound for one run of a new limiter and one window.
  predicate Within(rate: int, start: real, calls: seq<Call>, lo: real, hi: real) {
    ReleasedIn(SleptReleases(NewBucket(rate, start), calls), lo, hi) <= BurstFor(rate) as real + Earned(rate, hi - lo)
  }

  // ---- Rates that divide: every wait is a whole number of nanoseconds ----

  // Tokens counted in what a nanosecond earns, k to the token: m of them, a whole number.
  predicate Grid(b: Bucket, k: int, m: int) {
    OnTick(b.last) && b.tokens * k as real == m as real
  }

  lemma WholeUnits(n: int, k: int)
    ensures n as real * k as real == (n * k) as real
  {
  }

  lemma EarnedUnits(rate: int, k: int, now: real, last: real)
    requires rate * k == SECOND_NS && OnTick(now) && OnTick(last)
    ensures Earned(rate, now - last) * k as real == (Nanoseconds(now) - Nanoseconds(last)) as real
  {
    hide Nanoseconds;
    var r, q, d := rate as real, k as real, now - last;
    WholeUnits(rate, k);
    assert (r * d) * q == d * (r * q);
  }

  lemma RefillOnGrid(b: Bucket, now: real, k: int, m: int) returns (m': int)
    requires b.Limiting() && ZERO_TIME < b.last <= now && b.rate * k == SECOND_NS && Grid(b, k, m) && OnTick(now)
    ensures Grid(Refilled(b, now), k, m')
  {
    hide Refilled, Earned, OnTick, BurstFor, Nanoseconds;
    RefillUnfolds(b, now);
    EarnedUnits(b.rate, k, now, b.last);
    WholeUnits(b.burst, k);
    var e := Earned(b.rate, now - b.last);
    UnitsAdd(b.tokens, e, k);
    m' := if b.burst as real < b.tokens + e then b.burst * k else m + Nanoseconds(now) - Nanoseconds(b.last);
  }

  lemma UnitsAdd(x: real, y: real, k: int)
    ensures (x + y) * k as real == x * k as real + y * k as real
    ensures (x - y) * k as real == x * k as real - y * k as real
  {
  }

  lemma TruncatedWhole(w: real, m: int)
    requires w * SECOND_NS as real == m as real
    ensures Nanoseconds(w) == m && Truncated(w) == w
  {
    assert (m as real).Floor == m;
    assert m as real * NANOSECOND == w;
  }

  lemma WaitWhole(missing: real, rate: int, k: int, m: int)
    requires rate > 0 && rate * k == SECOND_NS && missing * k as real == m as real
    ensures Truncated(missing / rate as real) == missing / rate as real
  {
    var r, q := rate as real, k as real;
    var w := missing / r;
    WholeUnits(rate, k);
    assert w * r == missing;
    assert w * (r * q) == (w * r) * q;
    TruncatedWhole(w, m);
  }

  // One call keeps the grid, and its wait loses nothing to truncation.
  lemma CallOnGrid(b: Bucket, c: Call, k: int, m: int) returns (m': int)
    requires b.Limiting() && ZERO_TIME < b.last <= c.now && b.rate * k == SECOND_NS && Grid(b, k, m) && OnTick(c.now)
    ensures var (after, v) := Decide(b, c);
            Grid(after, k, m') && (v.Granted? ==> Truncated(v.wait) == v.wait)
  {
    hide Decide, Refilled, Truncated, OnTick, BurstFor;
    DecideUnfolds(b, c);
    m' := RefillOnGrid(b, c.now, k, m);
    var f := Refilled(b, c.now);
    var (after, v) := Decide(b, c);
    NothingTruncated();
    if c.n <= 0 {
      m' := m;
    } else if v.Granted? {
      var need := if b.burst < c.n then b.burst else c.n;
      WholeUnits(need, k);
      UnitsAdd(f.tokens, need as real, k);
      UnitsAdd(need as real, f.tokens, k);
      if f.tokens < need as real {
        WaitWhole(need as real - f.tokens, b.rate, k, need * k - m');
      }
      m' := m' - need * k;
    }
  }

  lemma NothingTruncated()
    ensures Truncated(0.0) == 0.0
  {
  }

  lemma {:induction false} SleptIsExact(b: Bucket, calls: seq<Call>, k: int, m: int)
    requires b.Limiting() && b.rate * k == SECOND_NS && Grid(b, k, m)
    requires Chronological(calls, b.last) && forall i :: 0 <= i < |calls| ==> OnTick(calls[i].now)
    ensures SleptReleases(b, calls) == Releases(b, calls)
    decreases |calls|
  {
    hide Decide, Grid, Truncated, OnTick, Bucket.Limiting, Offset, Earned, NextOffset, Max, Passes, LoadOf;
    if calls != [] {
      var after := Decide(b, calls[0]).0;
      var m' := CallOnGrid(b, calls[0], k, m);
      CallScaled(b, calls[0]);
      ChronologicalFrom(calls[1..], calls[0].now, after.last);
      SleptIsExact(after, calls[1..], k, m');
    }
  }

  lemma NewIsLimiting(rate: int, start: real)
    requires rate > 0
    ensures var b := NewBucket(rate, start);
            b.Limiting() && b.tokens == 0.0 && b.last == start && b.rate == rate && b.burst == BurstFor(rate)
  {
  }

  lemma DividingRatesKeepBound(rate: int, start: real, calls: seq<Call>, lo: real, hi: real)
    requires rate > 0 && SECOND_NS % rate == 0 && Ticking(calls, start) && lo <= hi
    ensures Within(rate, start, calls, lo, hi)
  {
    hide NewBucket, Bucket.Limiting, BurstFor, SleptReleases, Releases, ReleasedIn, Earned;
    var b, k := NewBucket(rate, start), SECOND_NS / rate;
    NewIsLimiting(rate, start);
    assert 0.0 * k as real == 0.0;
    assert rate * k == SECOND_NS;
    SleptIsExact(b, calls, k, 0);
    WindowBound(b, calls, lo, hi);
  }

  // ---- Other rates: a burst and one byte more pass too soon ----

  // A second for each byte of the burst surely fills the bucket.
  function FullTime(rate: int): real {
    1.0 + BurstFor(rate) as real
  }

  function Overdraft(rate: int): seq<Call> {
    [Reserve(BurstFor(rate), FullTime(rate)), Reserve(1, FullTime(rate))]
  }

  lemma FirstFills(rate: int)
    requires rate > 0
    ensures var b, t := NewBucket(rate, 1.0), FullTime(rate);
            Decide(b, Overdraft(rate)[0]) == (b.(last := t), Granted(BurstFor(rate) as real, 0.0))
  {
    hide Decide, Refilled, BurstFor, NewBucket, Earned;
    var b, t, burst := NewBucket(rate, 1.0), FullTime(rate), BurstFor(rate);
    NewIsLimiting(rate, 1.0);
    EnoughTime(rate);
    RefillUnfolds(b, t);
    DecideUnfolds(b, Overdraft(rate)[0]);
  }

  lemma EnoughTime(rate: int)
    requires rate > 0
    ensures Earned(rate, FullTime(rate) - 1.0) >= BurstFor(rate) as real && BurstFor(rate) > 0
  {
    hide BurstFor;
    var n := BurstFor(rate) as real;
    assert rate as real * n >= 1.0 * n;
  }

  lemma SecondOwes(rate: int)
    requires rate > 0
    ensures var b := NewBucket(rate, 1.0).(last := FullTime(rate));
            Decide(b, Overdraft(rate)[1]).1 == Granted(1.0, 1.0 / rate as real)
  {
    hide Decide, BurstFor;
    var b := NewBucket(rate, 1.0).(last := FullTime(rate));
    NewIsLimiting(rate, 1.0);
    EnoughTime(rate);
    RefillAtOnce(b);
    DecideUnfolds(b, Overdraft(rate)[1]);
  }

  // Unless the rate divides, the sleep for one byte earns less than the byte.
  lemma SleepTooShort(rate: int)
    requires rate > 0 && SECOND_NS % rate != 0
    ensures 0.0 <= Truncated(1.0 / rate as real) && Earned(rate, Truncated(1.0 / rate as real)) < 1.0
  {
    hide Truncated, Nanoseconds, Earned;
    var n := Nanoseconds(1.0 / rate as real);
    SleepFloor(rate);
    if rate * n == SECOND_NS { Divides(rate, n); }
    assert Truncated(1.0 / rate as real) == n as real * NANOSECOND by { TruncatedIs(1.0 / rate as real); }
    EarnsLess(rate, n);
  }

  lemma Divides(rate: int, n: int)
    requires rate > 0 && rate * n == SECOND_NS
    ensures SECOND_NS % rate == 0
  {
    NoRemainder(rate, n, SECOND_NS / rate, SECOND_NS % rate);
  }

  lemma NoRemainder(d: int, n: int, q: int, m: int)
    requires d * n == d * q + m && 0 <= m < d
    ensures m == 0
  {
    var e := n - q;
    assert d * e == m;
    assert e >= 1 ==> d * e >= d;
    assert e <= -1 ==> d * e <= -d;
  }

  lemma TruncatedIs(w: real)
    ensures Truncated(w) == Nanoseconds(w) as real * NANOSECOND
  {
  }

  lemma SleepFloor(rate: int)
    requires rate > 0
    ensures 0 <= Nanoseconds(1.0 / rate as real) && rate * Nanoseconds(1.0 / rate as real) <= SECOND_NS
  {
    var r, w := rate as real, 1.0 / rate as real;
    assert w * r == 1.0 && w > 0.0;
    FloorScaled(w * SECOND_NS as real, rate);
    assert (w * SECOND_NS as real) * r == SECOND_NS as real * (w * r);
  }

  lemma FloorScaled(x: real, rate: int)
    requires rate > 0 && x >= 0.0
    ensures 0 <= x.Floor && (rate * x.Floor) as real <= x * rate as real
  {
    var n := x.Floor;
    assert n as real <= x;
    assert (x - n as real) * rate as real >= 0.0;
    WholeUnits(rate, n);
  }

  lemma EarnsLess(rate: int, n: int)
    requires rate * n < SECOND_NS
    ensures Earned(rate, n as real * NANOSECOND) < 1.0
  {
    WholeUnits(rate, n);
    assert rate as real * (n as real * NANOSECOND) == (rate as real * n as real) * NANOSECOND;
  }

  lemma Overdrawn(rate: int)
    requires rate > 0
    ensures var t, w := FullTime(rate), Truncated(1.0 / rate as real);
            SleptReleases(NewBucket(rate, 1.0), Overdraft(rate)) == [Release(t, BurstFor(rate) as real), Release(t + w, 1.0)]
  {
    hide Decide, BurstFor, NewBucket, Truncated;
    FirstFills(rate);
    SecondOwes(rate);
    NothingTruncated();
    var calls := Overdraft(rate);
    assert calls[1..] == [calls[1]] && calls[1..][1..] == [];
    var b := NewBucket(rate, 1.0).(last := FullTime(rate));
    assert SleptReleases(b, calls[1..]) == [Release(FullTime(rate) + Truncated(1.0 / rate as real), 1.0)] + SleptReleases(Decide(b, calls[1]).0, []);
  }

  lemma OverdraftTicks(rate: int)
    ensures Ticking(Overdraft(rate), 1.0)
  {
    hide BurstFor, Nanoseconds;
    var n := 1 + BurstFor(rate);
    TruncatedWhole(1.0, SECOND_NS);
    TruncatedWhole(FullTime(rate), n * SECOND_NS);
    assert BurstFor(rate) >= 0;
    var calls, t := Overdraft(rate), FullTime(rate);
    assert calls[1..] == [calls[1]] && calls[1..][1..] == [];
    assert Chronological([], t);
    assert Chronological(calls[1..], t);
  }

  /** At any other rate a new limiter, once full, lets a burst and one byte pass in too short
      a window. */
  lemma OtherRatesOvershoot(rate: int)
    requires rate > 0 && SECOND_NS % rate != 0
    ensures Ticking(Overdraft(rate), 1.0)
    ensures var t, w := FullTime(rate), Truncated(1.0 / rate as real);
            t <= t + w && !Within(rate, 1.0, Overdraft(rate), t, t + w)
  {
    hide BurstFor, NewBucket, SleptReleases, Earned, Truncated, ReleasedIn, Ticking;
    var t, w := FullTime(rate), Truncated(1.0 / rate as real);
    OverdraftTicks(rate);
    SleepTooShort(rate);
    Overdrawn(rate);
    TwoReleases(Release(t, BurstFor(rate) as real), Release(t + w, 1.0), t, t + w);
    assert t + w - t == w;
  }

  /** With truncated waits and a clock of whole nanoseconds the window bound holds as it
      stands, for all runs of a new limiter and all windows, if and only if the rate divides
      a second's nanoseconds. */
  lemma TruncatedBoundIff(rate: int)
    requires rate > 0
    ensures (forall start, calls, lo, hi :: Ticking(calls, start) && lo <= hi ==> Within(rate, start, calls, lo, hi))
            <==> SECOND_NS % rate == 0
  {
    hide Ticking, Within;
    if SECOND_NS % rate == 0 {
      forall start, calls, lo, hi | Ticking(calls, start) && lo <= hi
        ensures Within(rate, start, calls, lo, hi)
      {
        DividingRatesKeepBound(rate, start, calls, lo, hi);
      }
    } else {
      OtherRatesOvershoot(rate);
    }
  }
}
