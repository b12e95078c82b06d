/** The rolling frame clock (Clock.java): a fixed-size circular buffer of
    measured durations in milliseconds, with the mean and the sample variance
    recomputed over the whole buffer after every completed interval.
    Durations are reals; the system timer is replaced by timestamps in
    nanoseconds that the caller passes in. */
module Clocks {

  /** Sum of a sequence of durations. */
  function Sum(s: seq<real>): real
  {
    if |s| == 0 then 0.0 else Sum(s[..|s| - 1]) + s[|s| - 1]
  }

  /** Sum of the squares of a sequence of durations. */
  function SquareSum(s: seq<real>): real
  {
    if |s| == 0 then 0.0 else SquareSum(s[..|s| - 1]) + s[|s| - 1] * s[|s| - 1]
  }

  /** The average the clock keeps for a buffer: the arithmetic mean, or the
      single entry of a one-slot buffer. */
  function Average(s: seq<real>): real
    requires |s| >= 1
  {
    if |s| < 2 then s[0] else Sum(s) / |s| as real
  }

  /** The variance the clock keeps for a buffer: Bessel-corrected sample
      variance, or 0 for a one-slot buffer. */
  function Variance(s: seq<real>): real
    requires |s| >= 1
  {
    if |s| < 2 then 0.0
    else (SquareSum(s) - |s| as real * Average(s) * Average(s)) / (|s| - 1) as real
  }

  /** n zero durations. */
  function Zeros(n: nat): (r: seq<real>)
    ensures |r| == n
    ensures forall i :: 0 <= i < n ==> r[i] == 0.0
  {
    seq(n, i => 0.0)
  }

  /** The slot the j-th sample (counting from 0) is stored in: the first
      goes to slot 0, each later one to the slot after the previous one,
      wrapping to 0 after the last slot. */
  function Slot(j: nat, n: nat): (k: nat)
    requires n >= 1
    ensures k < n
  {
    if j == 0 then 0
    else if Slot(j - 1, n) + 1 >= n then 0
    else Slot(j - 1, n) + 1
  }

  /** The slot the most recent of `count` samples was stored in, or -1 when
      nothing was stored yet. */
  function LastSlot(count: nat, n: nat): int
    requires n >= 1
  {
    if count == 0 then -1 else Slot(count - 1, n)
  }

  /** An elapsed time in milliseconds between two nanosecond timestamps. */
  function Elapsed(start: int, now: int): real
  {
    (now - start) as real / 1000000.0
  }

  /** The contents of an n-slot buffer after the samples h were stored in
      order, the j-th in slot Slot(j, n). */
  function Ring(h: seq<real>, n: nat): (r: seq<real>)
    requires n >= 1
    ensures |r| == n
  {
    if |h| == 0 then Zeros(n)
    else Ring(h[..|h| - 1], n)[Slot(|h| - 1, n) := h[|h| - 1]]
  }

  /** For 0 <= x <= n, x modulo n is x, or 0 when x == n. */
  lemma {:induction false} SmallMod(x: int, n: int)
    requires 0 <= x <= n && n >= 1
    ensures x % n == if x == n then 0 else x
  {
  }

  /** The slot of the next sample is the slot after the last one, modulo n. */
  lemma {:induction false} NextSlot(count: nat, n: nat)
    requires n >= 1
    ensures LastSlot(count + 1, n) == (LastSlot(count, n) + 1) % n
  {
    SmallMod(LastSlot(count, n) + 1, n);
  }

  /** The first n samples go to slots 0, 1, ..., n - 1 in order. */
  lemma {:induction false} SlotPrefix(j: nat, n: nat)
    requires j < n
    ensures Slot(j, n) == j
  {
    if j > 0 {
      SlotPrefix(j - 1, n);
    }
  }

  /** A slot is reused exactly n samples later. */
  lemma {:induction false} SlotPeriodic(j: nat, n: nat)
    requires n >= 1
    ensures Slot(j + n, n) == Slot(j, n)
  {
    if j == 0 {
      SlotPrefix(n - 1, n);
    } else {
      SlotPeriodic(j - 1, n);
    }
  }

  /** A buffer that has received at most n samples holds them, in order, at
      its front, followed by zeros. */
  lemma {:induction false} RingPrefix(h: seq<real>, n: nat)
    requires 1 <= n && |h| <= n
    ensures Ring(h, n) == h + Zeros(n - |h|)
  {
    if |h| > 0 {
      var h' := h[..|h| - 1];
      RingPrefix(h', n);
      SlotPrefix(|h'|, n);
      assert h' + [h[|h| - 1]] == h;
      assert Ring(h, n) == (h' + Zeros(n - |h'|))[|h'| := h[|h| - 1]];
    }
  }

  /** After exactly n samples, an n-slot buffer holds exactly those samples,
      so the clock reports their mean and sample variance. */
  lemma {:induction false} FullWindow(h: seq<real>, n: nat)
    requires 1 <= n && |h| == n
    ensures Ring(h, n) == h
    ensures Average(Ring(h, n)) == Average(h) && Variance(Ring(h, n)) == Variance(h)
  {
    RingPrefix(h, n);
    assert h + Zeros(0) == h;
  }

  /** A slot holds the latest sample stored in it: if no sample after the
      j-th went to the j-th's slot, that slot still holds the j-th sample.
      WindowDistinct discharges the condition for the last n samples. */
  lemma {:induction false} RingLatest(h: seq<real>, n: nat, j: nat)
    requires 1 <= n && j < |h|
    requires forall i :: j < i < |h| ==> Slot(i, n) != Slot(j, n)
    ensures Ring(h, n)[Slot(j, n)] == h[j]
  {
    var m := |h| - 1;
    if j < m {
      RingLatest(h[..m], n, j);
    }
  }

  /** k < n samples after the j-th, the slot has moved on by k, wrapping
      past the last slot. */
  lemma {:induction false} SlotShift(j: nat, k: nat, n: nat)
    requires n >= 1 && k < n
    ensures Slot(j + k, n) == if Slot(j, n) + k < n then Slot(j, n) + k else Slot(j, n) + k - n
  {
    if k > 0 {
      SlotShift(j, k - 1, n);
    }
  }

  /** Any n consecutive samples go to n different slots. */
  lemma {:induction false} WindowDistinct(j: nat, i: nat, n: nat)
    requires n >= 1 && j < i < j + n
    ensures Slot(i, n) != Slot(j, n)
  {
    SlotShift(j, i - j, n);
  }

  /** Once at least n samples were stored, the buffer holds exactly the
      last n of them: the window h[|h| - n..], rotated so that its oldest
      sample sits in the slot the window started at. */
  lemma {:induction false} LastWindow(h: seq<real>, n: nat)
    requires 1 <= n <= |h|
    ensures Ring(h, n) == h[|h| - n..][n - Slot(|h| - n, n)..] + h[|h| - n..][..n - Slot(|h| - n, n)]
  {
    var m := |h|;
    var w := h[m - n..];
    var start := Slot(m - n, n);
    var r := w[n - start..] + w[..n - start];
    forall x | 0 <= x < n
      ensures Ring(h, n)[x] == r[x]
    {
      var t := if x >= start then x - start else n - start + x;
      var j := m - n + t;
      SlotShift(m - n, t, n);
      forall i | j < i < m
        ensures Slot(i, n) != Slot(j, n)
      {
        WindowDistinct(j, i, n);
      }
      RingLatest(h, n, j);
    }
  }

  /** Once at least n samples were stored, the buffer is a permutation of the
      last n samples, and the clock's average and variance are theirs: the
      statistics are over the last n frames. */
  lemma {:induction false} LastWindowStats(h: seq<real>, n: nat)
    requires 1 <= n <= |h|
    ensures multiset(Ring(h, n)) == multiset(h[|h| - n..])
    ensures Average(Ring(h, n)) == Average(h[|h| - n..])
    ensures Variance(Ring(h, n)) == Variance(h[|h| - n..])
  {
    var w := h[|h| - n..];
    var p := n - Slot(|h| - n, n);
    LastWindow(h, n);
    assert w == w[..p] + w[p..];
    RotationSums(w, p);
    if n == 1 {
      assert Ring(h, n) == w;
    } else {
      SameSums(Ring(h, n), w);
    }
  }

  /** Rotating a sequence keeps its sum and its sum of squares. */
  lemma {:induction false} RotationSums(w: seq<real>, p: nat)
    requires p <= |w|
    ensures Sum(w[p..] + w[..p]) == Sum(w)
    ensures SquareSum(w[p..] + w[..p]) == SquareSum(w)
  {
    assert w == w[..p] + w[p..];
    SumsAppend(w[p..], w[..p]);
    SumsAppend(w[..p], w[p..]);
  }

  /** Sum and SquareSum distribute over concatenation. */
  lemma {:induction false} SumsAppend(a: seq<real>, b: seq<real>)
    ensures Sum(a + b) == Sum(a) + Sum(b)
    ensures SquareSum(a + b) == SquareSum(a) + SquareSum(b)
  {
    if |b| == 0 {
      assert a + b == a;
    } else {
      var ab := a + b;
      assert ab[..|ab| - 1] == a + b[..|b| - 1];
      SumsAppend(a, b[..|b| - 1]);
    }
  }

  /** Buffers of the same length (at least two) with the same sum and sum of
      squares have the same average and variance. */
  lemma {:induction false} SameSums(a: seq<real>, b: seq<real>)
    requires |a| == |b| >= 2
    requires Sum(a) == Sum(b) && SquareSum(a) == SquareSum(b)
    ensures Average(a) == Average(b) && Variance(a) == Variance(b)
  {
  }

  /** An all-zero buffer has average 0 and variance 0 (the state of a new
      clock). */
  lemma {:induction false} ZerosStats(n: nat)
    requires n >= 1
    ensures Average(Zeros(n)) == 0.0 && Variance(Zeros(n)) == 0.0
  {
    ConstantStats(Zeros(n), 0.0);
  }

  /** A buffer holding n copies of d has sum n * d and square sum n * d * d. */
  lemma {:induction false} ConstantSums(s: seq<real>, d: real)
    requires forall i :: 0 <= i < |s| ==> s[i] == d
    ensures Sum(s) == |s| as real * d
    ensures SquareSum(s) == |s| as real * (d * d)
  {
    if |s| > 0 {
      ConstantSums(s[..|s| - 1], d);
    }
  }

  /** A buffer holding the same duration d everywhere has average d and
      variance 0. */
  lemma {:induction false} ConstantStats(s: seq<real>, d: real)
    requires |s| >= 1
    requires forall i :: 0 <= i < |s| ==> s[i] == d
    ensures Average(s) == d && Variance(s) == 0.0
  {
    ConstantSums(s, d);
    if |s| >= 2 {
      var n := |s| as real;
      assert Sum(s) / n == d;
      assert SquareSum(s) - n * d * d == 0.0;
    }
  }

  /** Sum of squared deviations of the entries from c. */
  function SquaredDeviations(s: seq<real>, c: real): real
  {
    if |s| == 0 then 0.0
    else SquaredDeviations(s[..|s| - 1], c) + (s[|s| - 1] - c) * (s[|s| - 1] - c)
  }

  /** Sum of squared deviations expands to SquareSum - 2 c Sum + n c^2. */
  lemma {:induction false} DeviationsExpand(s: seq<real>, c: real)
    ensures SquaredDeviations(s, c) == SquareSum(s) - 2.0 * c * Sum(s) + |s| as real * c * c
  {
    if |s| > 0 {
      var s' := s[..|s| - 1];
      var x := s[|s| - 1];
      DeviationsExpand(s', c);
      assert (x - c) * (x - c) == x * x - 2.0 * c * x + c * c;
      assert |s| as real * c * c == |s'| as real * c * c + c * c;
    }
  }

  /** Sums of squares are never negative. */
  lemma {:induction false} DeviationsNonNegative(s: seq<real>, c: real)
    ensures SquaredDeviations(s, c) >= 0.0
  {
    if |s| > 0 {
      DeviationsNonNegative(s[..|s| - 1], c);
      var e := s[|s| - 1] - c;
      assert e * e >= 0.0;
    }
  }

  /** The variance the clock reports is the sum of squared deviations from
      the average divided by n - 1, and therefore never negative. */
  lemma {:induction false} VarianceNonNegative(s: seq<real>)
    requires |s| >= 1
    ensures |s| >= 2 ==> Variance(s) == SquaredDeviations(s, Average(s)) / (|s| - 1) as real
    ensures Variance(s) >= 0.0
  {
    if |s| >= 2 {
      VarianceIsDeviations(s);
      DeviationsNonNegative(s, Average(s));
      QuotientNonNegative(SquaredDeviations(s, Average(s)), (|s| - 1) as real);
    }
  }

  /** For at least two entries, the variance formula the clock uses equals
      the mean squared deviation with Bessel's correction. */
  lemma {:induction false} VarianceIsDeviations(s: seq<real>)
    requires |s| >= 2
    ensures Variance(s) == SquaredDeviations(s, Average(s)) / (|s| - 1) as real
  {
    DeviationsAtMean(s, Average(s));
    VarianceOfNumerator(s, SquaredDeviations(s, Average(s)));
  }

  /** n times the average of n >= 2 entries is their sum. */
  lemma {:induction false} AverageTimesCount(s: seq<real>)
    requires |s| >= 2
    ensures |s| as real * Average(s) == Sum(s)
  {
    MeanTimesCount(Sum(s), |s| as real);
  }

  /** For at least two entries, the variance is any y equal to the
      numerator SquareSum(s) - n avg^2, divided by n - 1. */
  lemma {:induction false} VarianceOfNumerator(s: seq<real>, y: real)
    requires |s| >= 2
    requires y == SquareSum(s) - |s| as real * Average(s) * Average(s)
    ensures Variance(s) == y / (|s| - 1) as real
  {
  }

  /** About the average c of at least two entries, the sum of squared
      deviations is SquareSum(s) - n c^2. */
  lemma {:induction false} DeviationsAtMean(s: seq<real>, c: real)
    requires |s| >= 2 && c == Average(s)
    ensures SquaredDeviations(s, c) == SquareSum(s) - |s| as real * c * c
  {
    AverageTimesCount(s);
    DeviationsExpand(s, c);
    CancelMean(SquareSum(s), c, Sum(s), |s| as real);
  }

  /** The mean times the count is the total. */
  lemma MeanTimesCount(total: real, n: real)
    requires n > 0.0
    ensures total == n * (total / n)
  {
  }

  /** sq - 2 avg total + n avg^2 == sq - n avg^2 when total == n avg. */
  lemma CancelMean(sq: real, avg: real, total: real, n: real)
    requires total == n * avg
    ensures sq - 2.0 * avg * total + n * avg * avg == sq - n * avg * avg
  {
  }

  /** A non-negative number divided by a positive one is non-negative. */
  lemma QuotientNonNegative(x: real, y: real)
    requires x >= 0.0 && y > 0.0
    ensures x / y >= 0.0
  {
  }

  /** The average of durations that all lie in [lo, hi] lies in [lo, hi]. */
  lemma {:induction false} AverageBounds(s: seq<real>, lo: real, hi: real)
    requires |s| >= 1
    requires forall i :: 0 <= i < |s| ==> lo <= s[i] <= hi
    ensures lo <= Average(s) <= hi
  {
    if |s| >= 2 {
      SumBounds(s, lo, hi);
      var n := |s| as real;
      assert n * lo <= Sum(s) <= n * hi;
      assert Sum(s) / n * n == Sum(s);
    }
  }

  /** Sum of n durations in [lo, hi] lies in [n lo, n hi]. */
  lemma {:induction false} SumBounds(s: seq<real>, lo: real, hi: real)
    requires forall i :: 0 <= i < |s| ==> lo <= s[i] <= hi
    ensures |s| as real * lo <= Sum(s) <= |s| as real * hi
  {
    if |s| > 0 {
      SumBounds(s[..|s| - 1], lo, hi);
    }
  }

  /** Three samples 10, 20 and 30 ms in a three-slot
      buffer give average 20 and variance 100. */
  lemma ThreeSampleExample()
    ensures Average(Ring([10.0, 20.0, 30.0], 3)) == 20.0
    ensures Variance(Ring([10.0, 20.0, 30.0], 3)) == 100.0
  {
    var s := [10.0, 20.0, 30.0];
    FullWindow(s, 3);
    assert s[..2] == [10.0, 20.0];
    assert [10.0, 20.0][..1] == [10.0];
    assert [10.0][..0] == [];
    assert Sum([10.0]) == 10.0 && SquareSum([10.0]) == 100.0;
    assert Sum([10.0, 20.0]) == 30.0 && SquareSum([10.0, 20.0]) == 500.0;
    assert Sum(s) == 60.0;
    assert SquareSum(s) == 1400.0;
  }

  /** The accumulation loop of `out()`: the sum and the sum of squares of
      every slot of the buffer. */
  method Sums(a: array<real>) returns (sum: real, squareSum: real)
    ensures sum == Sum(a[..]) && squareSum == SquareSum(a[..])
  {
    sum, squareSum := 0.0, 0.0;
    for i := 0 to a.Length
      invariant sum == Sum(a[..i])
      invariant squareSum == SquareSum(a[..i])
    {
      var t := a[i];
      assert a[..i + 1][..i] == a[..i];
      sum := sum + t;
      squareSum := squareSum + t * t;
    }
    assert a[..a.Length] == a[..];
  }

  /** The statistics step of `out()`: the first entry and variance 0 for a
      one-slot buffer, otherwise the mean and the Bessel-corrected variance
      of all slots. */
  method Statistics(a: array<real>) returns (avg: real, variance: real)
    requires a.Length >= 1
    ensures avg == Average(a[..]) && variance == Variance(a[..])
  {
    var n := a.Length;
    if n < 2 {
      avg := a[0];
      variance := 0.0;
    } else {
      var sum, squareSum := Sums(a);
      avg := sum / n as real;
      variance := (squareSum - n as real * avg * avg) / (n - 1) as real;
    }
  }

  class Clock {
    /** Timestamp of the pending start mark, in nanoseconds; -1 means unset. */
    var inTime: int
    const lastTimes: array<real>
    var currentTimeIndex: int
    var dt: real
    var avgDt: real
    var dtVariance: real
    /** Every sample stored so far, oldest first. */
    ghost var samples: seq<real>

    ghost predicate Valid()
      reads this, lastTimes
    {
      lastTimes.Length >= 1 &&
      currentTimeIndex == LastSlot(|samples|, lastTimes.Length) &&
      lastTimes[..] == Ring(samples, lastTimes.Length) &&
      dt == (if |samples| == 0 then 0.0 else samples[|samples| - 1]) &&
      avgDt == Average(lastTimes[..]) &&
      dtVariance == Variance(lastTimes[..])
    }

    /** `new Clock(n)`: an all-zero buffer of n slots, no start mark, no
        sample. */
    constructor (n: nat)
      requires n >= 1
      ensures Valid() && fresh(lastTimes)
      ensures lastTimes.Length == n && lastTimes[..] == Zeros(n)
      ensures inTime == -1 && currentTimeIndex == -1 && samples == []
      ensures dt == 0.0 && avgDt == 0.0 && dtVariance == 0.0
    {
      lastTimes := new real[n](_ => 0.0);
      inTime := -1;
      currentTimeIndex := -1;
      dt, avgDt, dtVariance := 0.0, 0.0, 0.0;
      samples := [];
      new;
      assert lastTimes[..] == Zeros(n);
      ZerosStats(n);
    }

    /** The facts that make `getFramerate` safe: before the first sample
        the index is -1 and dt is 0; afterwards the index is a slot of the
        buffer that holds dt. */
    lemma IndexSafe()
      requires Valid()
      ensures currentTimeIndex == -1 ==> dt == 0.0
      ensures currentTimeIndex != -1 ==>
        0 <= currentTimeIndex < lastTimes.Length && lastTimes[currentTimeIndex] == dt
      ensures -1 <= currentTimeIndex < lastTimes.Length
    {
    }

    /** Once the buffer has filled, `avgDt` and `dtVariance` are the mean
        and sample variance of the last n durations, and the buffer holds
        exactly those durations. */
    lemma LastFrames()
      requires Valid() && |samples| >= lastTimes.Length
      ensures multiset(lastTimes[..]) == multiset(samples[|samples| - lastTimes.Length..])
      ensures avgDt == Average(samples[|samples| - lastTimes.Length..])
      ensures dtVariance == Variance(samples[|samples| - lastTimes.Length..])
    {
      LastWindowStats(samples, lastTimes.Length);
    }

    /** `in()`: records a start mark. */
    method In(now: int)
      requires Valid()
      modifies this`inTime
      ensures Valid() && inTime == now
    {
      inTime := now;
    }

    /** `out()`: fails when no start mark was ever recorded; otherwise stores
        the elapsed time in the next slot and recomputes the statistics over
        the whole buffer. The start mark is kept. */
    method Out(now: int) returns (ok: bool)
      requires Valid()
      modifies this, lastTimes
      ensures Valid()
      ensures ok <==> old(inTime) != -1
      ensures !ok ==> unchanged(this) && unchanged(lastTimes)
      ensures inTime == old(inTime)
      ensures ok ==> samples == old(samples) + [Elapsed(old(inTime), now)]
      ensures ok ==> dt == Elapsed(old(inTime), now)
      ensures ok ==> currentTimeIndex == (old(currentTimeIndex) + 1) % lastTimes.Length
      ensures ok ==> lastTimes[..] == old(lastTimes[..])[currentTimeIndex := dt]
      ensures ok ==> avgDt == Average(lastTimes[..]) && dtVariance == Variance(lastTimes[..])
    {
      if inTime == -1 {
        return false;
      }
      ok := true;
      dt := Elapsed(inTime, now);
      var n := lastTimes.Length;
      ghost var h := samples;
      NextSlot(|h|, n);
      currentTimeIndex := currentTimeIndex + 1;
      if currentTimeIndex >= n {
        currentTimeIndex := 0;
      }
      assert currentTimeIndex == Slot(|h|, n);
      lastTimes[currentTimeIndex] := dt;
      samples := h + [dt];
      assert samples[..|h|] == h;
      assert lastTimes[..] == Ring(samples, n);
      avgDt, dtVariance := Statistics(lastTimes);
    }

    /** `tick()`: closes the pending interval if there is one, then records
        a new start mark. */
    method Tick(now: int)
      requires Valid()
      modifies this, lastTimes
      ensures Valid() && inTime == now
      ensures old(inTime) == -1 ==> samples == old(samples) && lastTimes[..] == old(lastTimes[..])
      ensures old(inTime) == -1 ==> currentTimeIndex == old(currentTimeIndex) && dt == old(dt)
      ensures old(inTime) != -1 ==> samples == old(samples) + [Elapsed(old(inTime), now)]
      ensures old(inTime) != -1 ==> dt == Elapsed(old(inTime), now)
      ensures old(inTime) != -1 ==>
        currentTimeIndex == (old(currentTimeIndex) + 1) % lastTimes.Length &&
        lastTimes[..] == old(lastTimes[..])[currentTimeIndex := dt]
    {
      if inTime != -1 {
        var ok := Out(now);
      }
      In(now);
    }

    /** `getAvgDtMillis()`: the average over the whole buffer. */
    function GetAvgDtMillis(): (r: real)
      requires Valid()
      reads this, lastTimes
      ensures r == Average(lastTimes[..])
    {
      avgDt
    }

    /** `getAvgFramerate()`: frames per second from the average duration, or
        0 while the average is 0. */
    function GetAvgFramerate(): (r: real)
      requires Valid()
      reads this, lastTimes
      ensures Average(lastTimes[..]) == 0.0 ==> r == 0.0
      ensures Average(lastTimes[..]) != 0.0 ==> r * Average(lastTimes[..]) == 1000.0
    {
      if avgDt == 0.0 then 0.0 else 1000.0 / avgDt
    }

    /** `getDtMillis()`: the most recent sample, or 0 before the first. */
    function GetDtMillis(): (r: real)
      requires Valid()
      reads this, lastTimes
      ensures |samples| == 0 ==> r == 0.0
      ensures |samples| > 0 ==> r == samples[|samples| - 1]
    {
      dt
    }

    /** `getFramerate()`: frames per second from the most recent sample, read
        back from the buffer slot it was stored in, or 0 while that sample is
        0 (in particular before the first sample). */
    function GetFramerate(): (r: real)
      requires Valid()
      reads this, lastTimes
      ensures dt == 0.0 ==> r == 0.0
      ensures dt != 0.0 ==> |samples| > 0 && r * samples[|samples| - 1] == 1000.0
    {
      IndexSafe();
      if dt == 0.0 then 0.0 else 1000.0 / lastTimes[currentTimeIndex]
    }
  }
}
