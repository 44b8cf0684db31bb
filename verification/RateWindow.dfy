/** What a shared bucket promises over whole runs that mix blocking reserve calls
    and non-blocking allow calls under one rate: releases are first in, first out,
    and no time window releases more than a burst plus what the rate earns in it.

    The proofs run on a scaled machine whose unit of time is one token's worth, so
    that all arithmetic is linear; `Scaled` ties it to the bucket call by call. */
module RateWindow {
  import opened RateLimiters

  // A charged call: when its bytes may pass, and how many tokens it took.
  datatype Release = Release(at: real, charge: real)

  // Clock readings are taken under the mutex, so they never decrease; they are
  // never the zero time.
  ghost predicate Chronological(calls: seq<Call>, start: real)
    decreases |calls|
  {
    ZERO_TIME < start && (calls != [] ==> start <= calls[0].now && Chronological(calls[1..], calls[0].now))
  }

  // An accepted allow releases at once, a reserve after its wait.
  function Releases(b: Bucket, calls: seq<Call>): seq<Release>
    decreases |calls|
  {
    if calls == [] then []
    else
      var (after, v) := Decide(b, calls[0]);
      (if v.Granted? then [Release(calls[0].now + v.wait, v.charge)] else []) + Releases(after, calls[1..])
  }

  // The charge released in the window [lo, hi].
  function ReleasedIn(rs: seq<Release>, lo: real, hi: real): real {
    if rs == [] then 0.0
    else (if lo <= rs[0].at <= hi then rs[0].charge else 0.0) + ReleasedIn(rs[1..], lo, hi)
  }

  // ---- The scaled machine ----

  function Min(x: real, y: real): real { if x < y then x else y }
  function Max(x: real, y: real): real { if x < y then y else x }

  // A call at scaled time `at` asking for `need` tokens, which may or may not block.
  datatype Load = Load(at: real, need: real, blocks: bool)

  // The bucket holds offset + at tokens at scaled time `at`, up to the burst.
  function Topped(offset: real, burst: real, at: real): real {
    Min(offset, burst - at)
  }

  predicate Passes(offset: real, burst: real, l: Load) {
    l.need > 0.0 && (l.blocks || Topped(offset, burst, l.at) + l.at >= l.need)
  }

  // Nothing changes for an empty request; a refused one still tops up.
  function NextOffset(offset: real, burst: real, l: Load): real {
    if l.need <= 0.0 then offset
    else if Passes(offset, burst, l) then Topped(offset, burst, l.at) - l.need
    else Topped(offset, burst, l.at)
  }

  function ScaledReleases(offset: real, burst: real, loads: seq<Load>): seq<Release>
    decreases |loads|
  {
    if loads == [] then []
    else
      var l := loads[0];
      var next := NextOffset(offset, burst, l);
      (if Passes(offset, burst, l) then [Release(Max(l.at, -next), l.need)] else [])
      + ScaledReleases(next, burst, loads[1..])
  }

  predicate Ordered(loads: seq<Load>, start: real, burst: real)
    decreases |loads|
  {
    loads != [] ==> start <= loads[0].at && loads[0].need <= burst && Ordered(loads[1..], loads[0].at, burst)
  }

  // One turn of the two recursions above.
  lemma ReleasedUnfolds(offset: real, burst: real, loads: seq<Load>, lo: real, hi: real)
    requires loads != []
    ensures var l := loads[0];
            var next := NextOffset(offset, burst, l);
            ReleasedIn(ScaledReleases(offset, burst, loads), lo, hi)
            == (if Passes(offset, burst, l) && lo <= Max(l.at, -next) <= hi then l.need else 0.0)
               + ReleasedIn(ScaledReleases(next, burst, loads[1..]), lo, hi)
  {
    var l := loads[0];
    var next := NextOffset(offset, burst, l);
    var rest := ScaledReleases(next, burst, loads[1..]);
    if Passes(offset, burst, l) {
      assert ([Release(Max(l.at, -next), l.need)] + rest)[1..] == rest;
    } else {
      assert [] + rest == rest;
    }
  }

  // All that is released by time hi is paid for by the tokens earned up to hi.
  lemma {:induction false} CreditBound(offset: real, burst: real, loads: seq<Load>, lo: real, hi: real)
    ensures 0.0 <= ReleasedIn(ScaledReleases(offset, burst, loads), lo, hi) <= Max(0.0, offset + hi)
    decreases |loads|
  {
    if loads != [] {
      ReleasedUnfolds(offset, burst, loads, lo, hi);
      CreditBound(NextOffset(offset, burst, loads[0]), burst, loads[1..], lo, hi);
    }
  }

  lemma {:induction false} ScaledWindowBound(offset: real, burst: real, loads: seq<Load>, start: real, lo: real, hi: real)
    requires Ordered(loads, start, burst) && lo <= hi && 0.0 <= burst
    ensures ReleasedIn(ScaledReleases(offset, burst, loads), lo, hi) <= burst + (hi - lo)
    decreases |loads|
  {
    if loads != [] {
      var next := NextOffset(offset, burst, loads[0]);
      ReleasedUnfolds(offset, burst, loads, lo, hi);
      ScaledWindowBound(next, burst, loads[1..], loads[0].at, lo, hi);
      CreditBound(next, burst, loads[1..], lo, hi);
    }
  }

  // Nothing later is released before time `at` or before the debt at `at` is paid.
  lemma {:induction false} NoneBefore(offset: real, burst: real, loads: seq<Load>, start: real, at: real, j: nat)
    requires Ordered(loads, start, burst) && j < |ScaledReleases(offset, burst, loads)|
    requires start >= at || -offset >= at
    ensures at <= ScaledReleases(offset, burst, loads)[j].at
    decreases |loads|
  {
    var next := NextOffset(offset, burst, loads[0]);
    if !Passes(offset, burst, loads[0]) {
      NoneBefore(next, burst, loads[1..], loads[0].at, at, j);
    } else if j > 0 {
      NoneBefore(next, burst, loads[1..], loads[0].at, at, j - 1);
    }
  }

  lemma {:induction false} ScaledFirstInFirstOut(offset: real, burst: real, loads: seq<Load>, start: real, i: nat, j: nat)
    requires Ordered(loads, start, burst) && i <= j < |ScaledReleases(offset, burst, loads)|
    ensures ScaledReleases(offset, burst, loads)[i].at <= ScaledReleases(offset, burst, loads)[j].at
    decreases |loads|
  {
    var next := NextOffset(offset, burst, loads[0]);
    if !Passes(offset, burst, loads[0]) {
      ScaledFirstInFirstOut(next, burst, loads[1..], loads[0].at, i, j);
    } else if i > 0 {
      ScaledFirstInFirstOut(next, burst, loads[1..], loads[0].at, i - 1, j - 1);
    } else if j > 0 {
      NoneBefore(next, burst, loads[1..], loads[0].at, Max(loads[0].at, -next), j - 1);
    }
  }

  // ---- The bucket is the scaled machine ----

  // The tokens a rate earns in time t: the factor between the two machines.
  function Earned(rate: int, t: real): real {
    rate as real * t
  }

  lemma EarnedAdds(rate: int, x: real, y: real)
    ensures Earned(rate, x + y) == Earned(rate, x) + Earned(rate, y)
    ensures Earned(rate, x - y) == Earned(rate, x) - Earned(rate, y)
  {
    var r := rate as real;
    assert r * (x + y) == r * x + r * y;
    assert r * (x - y) == r * x - r * y;
  }

  lemma EarnedOrders(rate: int, x: real, y: real)
    requires rate > 0
    ensures Earned(rate, x) <= Earned(rate, y) <==> x <= y
  {
    var r := rate as real;
    if x < y { assert r * (y - x) > 0.0; }
    if y < x { assert r * (x - y) > 0.0; }
  }

  lemma EarnedInTime(rate: int, tokens: real)
    requires rate > 0
    ensures Earned(rate, tokens / rate as real) == tokens
  {
  }

  function Offset(b: Bucket): real {
    b.tokens - Earned(b.rate, b.last)
  }

  function LoadOf(rate: int, burst: int, c: Call): Load {
    Load(Earned(rate, c.now), Min(burst as real, c.n as real), c.Reserve?)
  }

  function LoadsOf(rate: int, burst: int, calls: seq<Call>): seq<Load> {
    if calls == [] then [] else [LoadOf(rate, burst, calls[0])] + LoadsOf(rate, burst, calls[1..])
  }

  lemma RefillUnfolds(b: Bucket, now: real)
    requires b.Limiting() && ZERO_TIME < b.last <= now
    ensures Refilled(b, now) == b.(tokens := Min(b.burst as real, b.tokens + Earned(b.rate, now - b.last)), last := now)
  {
    assert Earned(b.rate, now - b.last) == (now - b.last) * b.rate as real;
    assert now == b.last ==> Earned(b.rate, now - b.last) == 0.0;
  }

  lemma RefillScaled(b: Bucket, now: real)
    requires b.Limiting() && ZERO_TIME < b.last <= now
    ensures var f := Refilled(b, now);
            && f == b.(tokens := f.tokens, last := now)
            && f.tokens == Topped(Offset(b), b.burst as real, Earned(b.rate, now)) + Earned(b.rate, now) <= b.burst as real
  {
    hide Refilled, BurstFor, Earned;
    RefillUnfolds(b, now);
    EarnedAdds(b.rate, now, b.last);
  }

  lemma DecideUnfolds(b: Bucket, c: Call)
    requires b.Limiting()
    ensures var f, need := Refilled(b, c.now), Min(b.burst as real, c.n as real);
            var (after, v) := Decide(b, c);
            if c.n <= 0 then after == b && v == Free
            else if f.tokens >= need then after == f.(tokens := f.tokens - need) && v == Granted(need, 0.0)
            else if c.Allow? then after == f && v == Dropped
            else after == f.(tokens := f.tokens - need) && v == Granted(need, (need - f.tokens) / b.rate as real)
  {
    hide Refilled, BurstFor;
    assert Refilled(b, c.now).burst == b.burst by { RefillKeeps(b, c.now); }
  }

  lemma WaitScaled(b: Bucket, c: Call, missing: real)
    requires b.rate > 0
    ensures Earned(b.rate, c.now + missing / b.rate as real) == Earned(b.rate, c.now) + missing
    ensures Earned(b.rate, c.now + 0.0) == Earned(b.rate, c.now)
  {
    EarnedInTime(b.rate, missing);
    EarnedAdds(b.rate, c.now, missing / b.rate as real);
  }

  /** One call: the bucket and the scaled machine decide, charge and release alike. */
  lemma CallScaled(b: Bucket, c: Call)
    requires b.Limiting() && ZERO_TIME < b.last <= c.now
    ensures var (after, v) := Decide(b, c);
            var l, burst := LoadOf(b.rate, b.burst, c), b.burst as real;
            && after.Limiting() && after.rate == b.rate && after.burst == b.burst
            && b.last <= after.last <= c.now
            && (v.Granted? <==> Passes(Offset(b), burst, l))
            && Offset(after) == NextOffset(Offset(b), burst, l)
            && (v.Granted? ==> && v.charge == l.need
                               && Earned(b.rate, c.now + v.wait) == Max(l.at, -Offset(after)))
  {
    hide Decide, Refilled, BurstFor, Earned;
    DecideUnfolds(b, c);
    if c.n > 0 {
      RefillScaled(b, c.now);
      WaitScaled(b, c, Min(b.burst as real, c.n as real) - Refilled(b, c.now).tokens);
    }
  }

  /** The charge of a small enough request is its size in bytes. */
  lemma SmallRequestsPayInFull(b: Bucket, c: Call)
    requires b.Limiting() && c.n <= 64 * 1024 && Decide(b, c).1.Granted?
    ensures Decide(b, c).1.charge == c.n as real
  {
    hide Decide, Refilled;
    DecideUnfolds(b, c);
  }

  /** A whole run: the same charges, at the same times up to the factor `rate`. */
  lemma {:induction false} Scaled(b: Bucket, calls: seq<Call>)
    requires b.Limiting() && Chronological(calls, b.last)
    ensures ScaledBy(Releases(b, calls),
                     ScaledReleases(Offset(b), b.burst as real, LoadsOf(b.rate, b.burst, calls)), b.rate)
    decreases |calls|
  {
    hide Decide, Passes, NextOffset, Offset, Bucket.Limiting, LoadOf, Max, Earned;
    if calls != [] {
      var (after, v) := Decide(b, calls[0]);
      CallScaled(b, calls[0]);
      ChronologicalFrom(calls[1..], calls[0].now, after.last);
      Scaled(after, calls[1..]);
      assert LoadsOf(b.rate, b.burst, calls)[1..] == LoadsOf(b.rate, b.burst, calls[1..]);
    }
  }

  predicate ScaledBy(rs: seq<Release>, ss: seq<Release>, rate: int) {
    && |rs| == |ss|
    && forall i :: 0 <= i < |rs| ==> ss[i] == Release(Earned(rate, rs[i].at), rs[i].charge)
  }

  lemma ChronologicalFrom(calls: seq<Call>, start: real, earlier: real)
    requires Chronological(calls, start) && ZERO_TIME < earlier <= start
    ensures Chronological(calls, earlier)
  {
  }

  lemma {:induction false} LoadsOrdered(rate: int, burst: int, calls: seq<Call>, start: real)
    requires rate > 0 && Chronological(calls, start)
    ensures Ordered(LoadsOf(rate, burst, calls), Earned(rate, start), burst as real)
    decreases |calls|
  {
    hide Earned;
    if calls != [] {
      EarnedOrders(rate, start, calls[0].now);
      LoadsOrdered(rate, burst, calls[1..], calls[0].now);
      assert LoadsOf(rate, burst, calls)[1..] == LoadsOf(rate, burst, calls[1..]);
    }
  }

  lemma {:induction false} ReleasedScales(rs: seq<Release>, ss: seq<Release>, rate: int, lo: real, hi: real)
    requires rate > 0 && ScaledBy(rs, ss, rate)
    ensures ReleasedIn(rs, lo, hi) == ReleasedIn(ss, Earned(rate, lo), Earned(rate, hi))
    decreases |rs|
  {
    hide Earned;
    if rs != [] {
      EarnedOrders(rate, lo, rs[0].at);
      EarnedOrders(rate, rs[0].at, hi);
      ReleasedScales(rs[1..], ss[1..], rate, lo, hi);
    }
  }

  lemma LimitingFacts(b: Bucket)
    requires b.Limiting()
    ensures b.rate > 0 && b.burst > 0
  {
  }

  /** The window bound: over every run of allow and reserve calls, the charge
      released in any window of length hi - lo is at most burst + rate * (hi - lo). */
  lemma WindowBound(b: Bucket, calls: seq<Call>, lo: real, hi: real)
    requires b.Limiting() && Chronological(calls, b.last) && lo <= hi
    ensures ReleasedIn(Releases(b, calls), lo, hi) <= b.burst as real + Earned(b.rate, hi - lo)
  {
    hide *;
    LimitingFacts(b);
    var burst, loads := b.burst as real, LoadsOf(b.rate, b.burst, calls);
    Scaled(b, calls);
    ReleasedScales(Releases(b, calls), ScaledReleases(Offset(b), burst, loads), b.rate, lo, hi);
    LoadsOrdered(b.rate, b.burst, calls, b.last);
    EarnedOrders(b.rate, lo, hi);
    EarnedAdds(b.rate, hi, lo);
    ScaledWindowBound(Offset(b), burst, loads, Earned(b.rate, b.last), Earned(b.rate, lo), Earned(b.rate, hi));
  }

  /** Releases are first in, first out: in call order, release times never decrease. */
  lemma FirstInFirstOut(b: Bucket, calls: seq<Call>, i: nat, j: nat)
    requires b.Limiting() && Chronological(calls, b.last)
    requires i <= j < |Releases(b, calls)|
    ensures Releases(b, calls)[i].at <= Releases(b, calls)[j].at
  {
    hide Bucket.Limiting, Chronological, Releases, ScaledReleases, LoadsOf, Ordered, Offset, Earned;
    LimitingFacts(b);
    var burst, loads := b.burst as real, LoadsOf(b.rate, b.burst, calls);
    Scaled(b, calls);
    LoadsOrdered(b.rate, b.burst, calls, b.last);
    ScaledFirstInFirstOut(Offset(b), burst, loads, Earned(b.rate, b.last), i, j);
    EarnedOrders(b.rate, Releases(b, calls)[i].at, Releases(b, calls)[j].at);
  }

  lemma TwoReleases(r0: Release, r1: Release, lo: real, hi: real)
    requires lo <= r0.at <= hi && lo <= r1.at <= hi
    ensures ReleasedIn([r0, r1], lo, hi) == r0.charge + r1.charge
  {
    assert [r0, r1][1..] == [r1];
    assert [r1][1..] == [];
    assert ReleasedIn([r1], lo, hi) == r1.charge + ReleasedIn([], lo, hi);
  }

  /** The bound is tight: from a full bucket, two reserves release a whole burst
      plus everything the rate earns, for every window that earns at most a burst. */
  lemma WindowBoundIsTight(b: Bucket, extra: int, window: real)
    requires b.Limiting() && b.tokens == b.burst as real && ZERO_TIME < b.last
    requires 0 < extra <= b.burst && window == extra as real / b.rate as real
    ensures var calls := [Reserve(b.burst, b.last), Reserve(extra, b.last)];
            && Chronological(calls, b.last)
            && ReleasedIn(Releases(b, calls), b.last, b.last + window) == b.burst as real + Earned(b.rate, window)
  {
    hide Decide, Refilled, Earned;
    var now := b.last;
    var calls := [Reserve(b.burst, now), Reserve(extra, now)];
    var (b1, v0) := Decide(b, calls[0]);
    var (b2, v1) := Decide(b1, calls[1]);
    DecideUnfolds(b, calls[0]);
    RefillAtOnce(b);
    assert b1 == b.(tokens := 0.0) && v0 == Granted(b.burst as real, 0.0);
    DecideUnfolds(b1, calls[1]);
    RefillAtOnce(b1);
    assert v1 == Granted(extra as real, extra as real / b.rate as real);
    EarnedInTime(b.rate, extra as real);
    assert Chronological([], now) && Chronological([calls[1]], now) by { assert [calls[1]][1..] == []; }
    assert window >= 0.0 by { EarnedOrders(b.rate, 0.0, window); EarnedAdds(b.rate, 0.0, 0.0); }
    assert calls[1..] == [calls[1]] && calls[1..][1..] == [];
    var r0, r1 := Release(now, b.burst as real), Release(now + window, extra as real);
    assert Releases(b2, []) == [];
    assert Releases(b1, calls[1..]) == [r1];
    assert Releases(b, calls) == [r0, r1];
    TwoReleases(r0, r1, now, now + window);
  }

  lemma RefillAtOnce(b: Bucket)
    requires ZERO_TIME < b.last
    ensures Refilled(b, b.last) == b
  {
  }

  // ---- Waits truncated to whole nanoseconds, as the source returns them ----

  const NANOSECOND: real := 0.000_000_001

  function Truncated(wait: real): real {
    Nanoseconds(wait) as real * NANOSECOND
  }

  lemma NanosecondPositive()
    ensures NANOSECOND > 0.0
  {
  }

  lemma TruncatedBounds(wait: real)
    ensures wait - NANOSECOND < Truncated(wait) <= wait
  {
  }

  lemma TruncatedMonotone(x: real, y: real)
    requires x <= y
    ensures Truncated(x) <= Truncated(y)
  {
    var p, q := x * SECOND_NS as real, y * SECOND_NS as real;
    assert p <= q && p.Floor <= q.Floor;
  }

  // The releases the callers see: each sleeps the truncated wait.
  function SleptReleases(b: Bucket, calls: seq<Call>): seq<Release>
    decreases |calls|
  {
    if calls == [] then []
    else
      var (after, v) := Decide(b, calls[0]);
      (if v.Granted? then [Release(calls[0].now + Truncated(v.wait), v.charge)] else [])
      + SleptReleases(after, calls[1..])
  }

  // The same charges, each at most a nanosecond early.
  predicate NearlyExact(rs: seq<Release>, ss: seq<Release>) {
    && |rs| == |ss|
    && forall i :: 0 <= i < |rs| ==> && rs[i].at - NANOSECOND < ss[i].at <= rs[i].at
                                     && ss[i].charge == rs[i].charge > 0.0
  }

  lemma {:induction false} SleptIsNearlyExact(b: Bucket, calls: seq<Call>)
    requires b.Limiting() && Chronological(calls, b.last)
    ensures var rs, ss := Releases(b, calls), SleptReleases(b, calls);
            NearlyExact(rs, ss)
    decreases |calls|
  {
    hide Decide, Offset, Bucket.Limiting, Max, Earned, NextOffset, Truncated;
    if calls != [] {
      var (after, v) := Decide(b, calls[0]);
      CallScaled(b, calls[0]);
      ChronologicalFrom(calls[1..], calls[0].now, after.last);
      SleptIsNearlyExact(after, calls[1..]);
      if v.Granted? { TruncatedBounds(v.wait); }
    }
  }

  lemma {:induction false} WidenedWindow(rs: seq<Release>, ss: seq<Release>, lo: real, hi: real)
    requires NearlyExact(rs, ss)
    ensures ReleasedIn(ss, lo, hi) <= ReleasedIn(rs, lo, hi + NANOSECOND)
    decreases |rs|
  {
    if rs != [] { WidenedWindow(rs[1..], ss[1..], lo, hi); }
  }

  /** With truncated waits the window loosens by one nanosecond of the rate. */
  lemma SleptWindowBound(b: Bucket, calls: seq<Call>, lo: real, hi: real)
    requires b.Limiting() && Chronological(calls, b.last) && lo <= hi
    ensures ReleasedIn(SleptReleases(b, calls), lo, hi)
            <= b.burst as real + Earned(b.rate, hi + NANOSECOND - lo)
  {
    hide *;
    assert hi <= hi + NANOSECOND by { NanosecondPositive(); }
    SleptIsNearlyExact(b, calls);
    WidenedWindow(Releases(b, calls), SleptReleases(b, calls), lo, hi);
    WindowBound(b, calls, lo, hi + NANOSECOND);
  }

  /** That nanosecond cannot be dropped: at 3 GB/s a one-byte debt is a third of a
      nanosecond, the wait truncates to nothing, and a burst plus one byte pass in
      a window of length zero. */
  lemma TruncationOvershoots()
    ensures var b := Bucket(3_000_000_000, BurstFor(3_000_000_000), 600_000_000.0, 1.0, false, false);
            var calls := [Reserve(b.burst, 1.0), Reserve(1, 1.0)];
            && b.Limiting() && Chronological(calls, b.last)
            && ReleasedIn(SleptReleases(b, calls), 1.0, 1.0) > b.burst as real + Earned(b.rate, 1.0 - 1.0)
  {
    var b := Bucket(3_000_000_000, BurstFor(3_000_000_000), 600_000_000.0, 1.0, false, false);
    var calls := [Reserve(b.burst, 1.0), Reserve(1, 1.0)];
    var (b1, v0) := Decide(b, calls[0]);
    var (b2, v1) := Decide(b1, calls[1]);
    assert calls[1..] == [calls[1]] && calls[1..][1..] == [];
    assert v0 == Granted(600_000_000.0, 0.0) && Nanoseconds(0.0) == 0;
    assert v1 == Granted(1.0, 1.0 / 3_000_000_000.0) && Nanoseconds(v1.wait) == 0;
    assert SleptReleases(b2, []) == [];
    assert SleptReleases(b1, calls[1..]) == [Release(1.0, 1.0)];
    assert SleptReleases(b, calls) == [Release(1.0, 600_000_000.0), Release(1.0, 1.0)];
    TwoReleases(Release(1.0, 600_000_000.0), Release(1.0, 1.0), 1.0, 1.0);
  }

  /** Truncated releases stay first in, first out when, like Go's clock, the readings
      are whole nanoseconds: then every release seen is the exact one rounded down. */
  lemma SleptFirstInFirstOut(b: Bucket, calls: seq<Call>, ticks: seq<int>, i: nat, j: nat)
    requires b.Limiting() && Chronological(calls, b.last)
    requires |ticks| == |calls| && forall k :: 0 <= k < |calls| ==> calls[k].now == ticks[k] as real * NANOSECOND
    requires i <= j < |SleptReleases(b, calls)|
    ensures SleptReleases(b, calls)[i].at <= SleptReleases(b, calls)[j].at
  {
    hide *;
    SleptIsRoundedDown(b, calls, ticks);
    FirstInFirstOut(b, calls, i, j);
    TruncatedMonotone(Releases(b, calls)[i].at, Releases(b, calls)[j].at);
  }

  lemma {:induction false} SleptIsRoundedDown(b: Bucket, calls: seq<Call>, ticks: seq<int>)
    requires |ticks| == |calls| && forall k :: 0 <= k < |calls| ==> calls[k].now == ticks[k] as real * NANOSECOND
    ensures |SleptReleases(b, calls)| == |Releases(b, calls)|
    ensures forall k :: 0 <= k < |Releases(b, calls)| ==>
              SleptReleases(b, calls)[k].at == Truncated(Releases(b, calls)[k].at)
    decreases |calls|
  {
    if calls != [] {
      var (after, v) := Decide(b, calls[0]);
      SleptIsRoundedDown(after, calls[1..], ticks[1..]);
      if v.Granted? {
        assert Nanoseconds(calls[0].now + v.wait) == ticks[0] + Nanoseconds(v.wait);
      }
    }
  }
}
