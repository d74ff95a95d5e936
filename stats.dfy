/** The statistics of a batch of outcomes (stats.js:12-174; code.py:64-101,
    121-137), over exact reals. `NaN`, `null` and `None` are `None`; the
    square root is a parameter. */
module Stats {
  import opened Wrappers
  import opened Errors
  import opened Sequences

  /** `Math.ceil(x)` */
  function Ceil(x: real): (r: int)
    ensures x <= r as real < x + 1.0
  {
    if x.Floor as real == x then x.Floor else x.Floor + 1
  }

  // ---------------------------------------------------------------------------
  // arithmetic on reals

  lemma MulNonNeg(x: real, y: real)
    requires x >= 0.0 && y >= 0.0
    ensures x * y >= 0.0
  {}

  lemma MulPos(x: real, y: real)
    requires x > 0.0 && y > 0.0
    ensures x * y > 0.0
  {}

  lemma MulLe(x: real, y: real, c: real)
    requires x <= y && c >= 0.0
    ensures x * c <= y * c
  {
    MulNonNeg(y - x, c);
  }

  lemma DivLe(s: real, n: real, m: real)
    requires n > 0.0 && s <= n * m
    ensures s / n <= m
  {}

  lemma DivGe(s: real, n: real, m: real)
    requires n > 0.0 && s >= n * m
    ensures s / n >= m
  {}

  lemma DivMono(a: real, b: real, n: real)
    requires a <= b && n > 0.0
    ensures a / n <= b / n
  {
    DivLe(a, n, b / n);
  }

  lemma DivAdd(a: real, b: real, n: real)
    requires n > 0.0
    ensures (a + b) / n == a / n + b / n
  {}

  /** A product kept as a term of its own, so that a square `d * d` is not
      rewritten away before its sign is known. */
  function Product(a: real, b: real): real
  {
    a * b
  }

  lemma ProductPositive(a: real, b: real)
    requires a > 0.0 && b > 0.0
    ensures Product(a, b) > 0.0
  {}

  lemma ProductOfNegations(a: real, b: real)
    ensures Product(-a, -b) == Product(a, b)
  {}

  /** A square is never negative, and positive unless its root is 0. */
  lemma Square(d: real)
    ensures Product(d, d) >= 0.0
    ensures d != 0.0 ==> Product(d, d) > 0.0
  {
    if d > 0.0 {
      ProductPositive(d, d);
    } else if d < 0.0 {
      ProductPositive(-d, -d);
      ProductOfNegations(d, d);
    } else {
      assert Product(d, d) == 0.0 * 0.0;
    }
  }

  // ---------------------------------------------------------------------------
  // percentile

  /** The value at fractional position `k` of the sorted `xs`: the element
      itself when `k` is whole, else the linear mix of its two neighbours.
      A position outside `xs` reads an undefined element, and the result is
      not a number. */
  function Pick(xs: seq<real>, k: real): Option<real>
  {
    var i := k.Floor;
    var j := Ceil(k);
    if i < 0 || j >= |xs| then None
    else if i == j then Some(xs[i])
    else Some(Mix(xs[i], j as real - k, xs[j], k - i as real))
  }

  /** `a * wa + b * wb`: the linear interpolation between two neighbours. */
  function Mix(a: real, wa: real, b: real, wb: real): real
  {
    a * wa + b * wb
  }

  /** The fractional position `(n - 1) * p` among `n` sorted values. */
  function Position(n: nat, p: real): real
  {
    (n - 1) as real * p
  }

  /** `percentile(vals, p)`: `None` for no values, the one value for one, and
      otherwise the value at position `(n - 1) * p` of a sorted copy. */
  function Percentile(vals: seq<real>, p: real): (r: Option<real>)
    ensures vals == [] ==> r == None
    ensures r.Some? ==> vals != [] && Min(vals) <= r.value <= Max(vals)
  {
    if vals == [] then None
    else if |vals| == 1 then Some(vals[0])
    else
      PickSorted(vals, Position(|vals|, p));
      Pick(Sort(vals), Position(|vals|, p))
  }

  /** Whatever the position, a value picked from the sorted copy lies
      between the minimum and the maximum. */
  lemma PickSorted(vals: seq<real>, k: real)
    requires vals != []
    ensures Pick(Sort(vals), k).Some? ==> Min(vals) <= Pick(Sort(vals), k).value <= Max(vals)
  {
    var xs := Sort(vals);
    if Pick(xs, k).Some? {
      PickInside(xs, k);
      SortFirst(vals);
      SortLast(vals);
    }
  }

  /** No values have no percentile, and one value is every percentile of
      itself, whatever `p` is. */
  lemma PercentileSmall(vals: seq<real>, p: real)
    requires |vals| <= 1
    ensures vals == [] ==> Percentile(vals, p) == None
    ensures |vals| == 1 ==> Percentile(vals, p) == Some(vals[0])
  {
  }

  /** When the position `(n - 1) * p` is a whole number `k`, the percentile
      is the `k`-th smallest value, with no interpolation. */
  lemma PercentileAtWhole(vals: seq<real>, p: real, k: nat)
    requires |vals| >= 2 && k < |vals| && Position(|vals|, p) == k as real
    ensures Percentile(vals, p) == Some(Sort(vals)[k])
  {
    assert (k as real).Floor == k;
  }

  /** A mix of `a <= b` with weights `1 - t` and `t` lies between them. */
  lemma MixBetween(a: real, b: real, t: real)
    requires a <= b && 0.0 <= t <= 1.0
    ensures a <= Mix(a, 1.0 - t, b, t) <= b
  {
    MulNonNeg(t, b - a);
    MulNonNeg(1.0 - t, b - a);
  }

  /** Inside the sorted sequence, a position is read at or above the element
      below it and at or below the element above it. */
  lemma PickBetween(xs: seq<real>, k: real)
    requires Sorted(xs) && 0.0 <= k <= (|xs| - 1) as real
    ensures Pick(xs, k).Some?
    ensures xs[k.Floor] <= Pick(xs, k).value <= xs[Ceil(k)]
  {
    var i := k.Floor;
    var j := Ceil(k);
    if i != j {
      assert j == i + 1;
      assert j as real - k == 1.0 - (k - i as real);
      MixBetween(xs[i], xs[j], k - i as real);
    }
  }

  /** Two positions inside a cell between neighbouring elements read in the
      same order as the positions. */
  lemma MixMonotone(a: real, b: real, s: real, t: real)
    requires a <= b && s <= t
    ensures Mix(a, 1.0 - s, b, s) <= Mix(a, 1.0 - t, b, t)
  {
    MulNonNeg(t - s, b - a);
    assert Mix(a, 1.0 - t, b, t) - Mix(a, 1.0 - s, b, s) == (t - s) * (b - a);
  }

  /** Reading further along the sorted sequence never reads less. */
  lemma PickMonotone(xs: seq<real>, k1: real, k2: real)
    requires Sorted(xs) && 0.0 <= k1 <= k2 <= (|xs| - 1) as real
    ensures Pick(xs, k1).value <= Pick(xs, k2).value
  {
    PickBetween(xs, k1);
    PickBetween(xs, k2);
    var i1, j1 := k1.Floor, Ceil(k1);
    var i2, j2 := k2.Floor, Ceil(k2);
    if i1 == i2 && i1 != j1 && i2 != j2 {
      assert j1 == j2 == i1 + 1;
      assert j1 as real - k1 == 1.0 - (k1 - i1 as real);
      assert j2 as real - k2 == 1.0 - (k2 - i1 as real);
      MixMonotone(xs[i1], xs[j1], k1 - i1 as real, k2 - i1 as real);
    } else {
      assert j1 <= i2;
    }
  }

  /** The sorted copy starts with the minimum. */
  lemma SortFirst(vals: seq<real>)
    requires vals != []
    ensures Sort(vals)[0] == Min(vals)
  {
    var xs := Sort(vals);
    var lo := Min(vals);
    assert xs[0] in multiset(xs);
    var a :| 0 <= a < |vals| && vals[a] == xs[0];
    assert lo in multiset(vals);
    var b :| 0 <= b < |xs| && xs[b] == lo;
    assert xs[0] <= xs[b];
  }

  /** The sorted copy ends with the maximum. */
  lemma SortLast(vals: seq<real>)
    requires vals != []
    ensures Sort(vals)[|vals| - 1] == Max(vals)
  {
    var xs := Sort(vals);
    var n := |xs|;
    var hi := Max(vals);
    assert xs[n - 1] <= hi by {
      assert xs[n - 1] in multiset(vals);
      var a :| 0 <= a < |vals| && vals[a] == xs[n - 1];
    }
    assert hi <= xs[n - 1] by {
      assert hi in multiset(xs);
      var b :| 0 <= b < n && xs[b] == hi;
      assert Sorted(xs);
      assert b == n - 1 || xs[b] <= xs[n - 1];
    }
  }

  /** For `p` in [0, 1] the position lies inside the values, at the first at
      0 and at the last at 1; it grows with `p`. */
  lemma PositionBetween(n: nat, p: real, q: real)
    requires n >= 1 && 0.0 <= p <= q <= 1.0
    ensures 0.0 <= Position(n, p) <= Position(n, q) <= (n - 1) as real
    ensures p == 0.0 ==> Position(n, p) == 0.0
    ensures q == 1.0 ==> Position(n, q) == (n - 1) as real
  {
    var m := (n - 1) as real;
    MulNonNeg(m, p);
    MulLe(p, q, m);
    MulLe(q, 1.0, m);
  }

  /** For `p` outside [0, 1] the position lies outside the values. */
  lemma PositionOutside(n: nat, p: real)
    requires n >= 2 && (p < 0.0 || p > 1.0)
    ensures Position(n, p) < 0.0 || Position(n, p) > (n - 1) as real
  {
    var m := (n - 1) as real;
    if p < 0.0 {
      MulPos(-p, m);
    } else {
      MulPos(p - 1.0, m);
    }
  }

  /** Every element of a sorted sequence lies between its first and last. */
  lemma SortedBetween(xs: seq<real>, i: int)
    requires Sorted(xs) && 0 <= i < |xs|
    ensures xs[0] <= xs[i] <= xs[|xs| - 1]
  {
    if 0 < i {
      assert xs[0] <= xs[i];
    }
    if i < |xs| - 1 {
      assert xs[i] <= xs[|xs| - 1];
    }
  }

  /** Reading a sorted sequence inside its bounds gives a number between its
      first and last elements: the first at 0, the last at the end. */
  lemma PickInside(xs: seq<real>, k: real)
    requires Sorted(xs) && 0.0 <= k <= (|xs| - 1) as real
    ensures Pick(xs, k).Some?
    ensures xs[0] <= Pick(xs, k).value <= xs[|xs| - 1]
    ensures k == 0.0 ==> Pick(xs, k).value == xs[0]
    ensures k == (|xs| - 1) as real ==> Pick(xs, k).value == xs[|xs| - 1]
  {
    PickBetween(xs, k);
    SortedBetween(xs, k.Floor);
    SortedBetween(xs, Ceil(k));
  }

  /** For `p` in [0, 1] the percentile of a non-empty input is a number
      between its minimum and maximum, the minimum at 0 and the maximum at 1;
      one value is its own percentile for every `p`. */
  lemma PercentileBetween(vals: seq<real>, p: real)
    requires vals != [] && 0.0 <= p <= 1.0
    ensures Percentile(vals, p).Some?
    ensures Min(vals) <= Percentile(vals, p).value <= Max(vals)
    ensures p == 0.0 ==> Percentile(vals, p).value == Min(vals)
    ensures p == 1.0 ==> Percentile(vals, p).value == Max(vals)
  {
    if |vals| > 1 {
      PositionBetween(|vals|, p, p);
      PickInside(Sort(vals), Position(|vals|, p));
      SortFirst(vals);
      SortLast(vals);
    }
  }

  /** For `p` in [0, 1] the percentile of a non-empty input is a number. */
  lemma PercentileDefined(vals: seq<real>, p: real)
    requires vals != [] && 0.0 <= p <= 1.0
    ensures Percentile(vals, p).Some?
  {
    PercentileBetween(vals, p);
  }

  /** Percentiles grow with `p`: p10 <= p50 <= p90. */
  lemma PercentileMonotone(vals: seq<real>, p: real, q: real)
    requires vals != [] && 0.0 <= p <= q <= 1.0
    ensures Percentile(vals, p).Some? && Percentile(vals, q).Some?
    ensures Percentile(vals, p).value <= Percentile(vals, q).value
  {
    if |vals| > 1 {
      PositionBetween(|vals|, p, q);
      PickMonotone(Sort(vals), Position(|vals|, p), Position(|vals|, q));
    }
  }

  /** A position outside the values reads nothing: `p` below 0 or above 1
      gives `None` once there are two values or more. */
  lemma PercentileOutside(vals: seq<real>, p: real)
    requires |vals| >= 2 && (p < 0.0 || p > 1.0)
    ensures Percentile(vals, p) == None
  {
    PositionOutside(|vals|, p);
  }

  /** `percentile([1, 2, 3, 4], 0.5)` is 2.5. */
  lemma PercentileExample(vals: seq<real>)
    requires vals == [1.0, 2.0, 3.0, 4.0]
    ensures Percentile(vals, 0.5) == Some(2.5)
  {
    assert Sorted(vals);
    SortOfSorted(vals);
    assert Position(4, 0.5) == 1.5;
    assert (1.5).Floor == 1 && Ceil(1.5) == 2;
  }

  // ---------------------------------------------------------------------------
  // sampleMean, sampleVariance

  /** `sampleMean(vals)`: `None` (NaN) for no values, else the sum over the count. */
  function SampleMean(vals: seq<real>): (r: Option<real>)
    ensures vals == [] <==> r == None
    ensures r.Some? ==> r.value * |vals| as real == Sum(vals)
  {
    if vals == [] then None else Some(Sum(vals) / |vals| as real)
  }

  /** The mean of non-empty values lies between their minimum and maximum. */
  lemma MeanBetween(vals: seq<real>)
    requires vals != []
    ensures Min(vals) <= SampleMean(vals).value <= Max(vals)
  {
    MeanBounds(vals, Min(vals), Max(vals));
  }

  /** Values between two bounds have their mean between them too. */
  lemma MeanBounds(vals: seq<real>, lo: real, hi: real)
    requires vals != []
    requires forall i :: 0 <= i < |vals| ==> lo <= vals[i] <= hi
    ensures lo <= Sum(vals) / |vals| as real <= hi
  {
    SumBounds(vals, lo, hi);
    DivGe(Sum(vals), |vals| as real, lo);
    DivLe(Sum(vals), |vals| as real, hi);
  }

  /** The squared deviations of `vals` from `mu`, added up. */
  function SquaredDeviations(vals: seq<real>, mu: real): (r: real)
    ensures r >= 0.0
  {
    if vals == [] then 0.0
    else
      var d := vals[|vals| - 1] - mu;
      Square(d);
      SquaredDeviations(vals[..|vals| - 1], mu) + Product(d, d)
  }

  /** `sampleVariance(vals)`: 0 for fewer than two values, otherwise the
      squared deviations from the mean over `n - 1`. */
  function SampleVariance(vals: seq<real>): (r: real)
    ensures r >= 0.0
    ensures |vals| < 2 ==> r == 0.0
  {
    if |vals| < 2 then 0.0
    else SquaredDeviations(vals, Sum(vals) / |vals| as real) / (|vals| - 1) as real
  }

  lemma {:induction false} SquaredDeviationsZero(vals: seq<real>, mu: real)
    ensures SquaredDeviations(vals, mu) == 0.0 <==> forall i :: 0 <= i < |vals| ==> vals[i] == mu
  {
    if vals != [] {
      var init := vals[..|vals| - 1];
      var d := vals[|vals| - 1] - mu;
      SquaredDeviationsZero(init, mu);
      Square(d);
      var rest := SquaredDeviations(init, mu);
      assert SquaredDeviations(vals, mu) == rest + Product(d, d);
      assert forall i :: 0 <= i < |init| ==> init[i] == vals[i];
      if SquaredDeviations(vals, mu) == 0.0 {
        assert rest == 0.0 && d == 0.0;
      } else if rest != 0.0 {
        var i :| 0 <= i < |init| && init[i] != mu;
        assert vals[i] != mu;
      } else {
        assert vals[|vals| - 1] != mu;
      }
    }
  }

  /** The variance is 0 exactly when all values are equal, `[7, 7, 7]` for
      one. */
  lemma VarianceZeroIffConstant(vals: seq<real>)
    ensures SampleVariance(vals) == 0.0 <==> forall i, j :: 0 <= i < |vals| && 0 <= j < |vals| ==> vals[i] == vals[j]
  {
    if |vals| >= 2 {
      var n := |vals| as real;
      var mu := Sum(vals) / n;
      SquaredDeviationsZero(vals, mu);
      if forall i, j :: 0 <= i < |vals| && 0 <= j < |vals| ==> vals[i] == vals[j] {
        SumConstant(vals, vals[0]);
        assert mu == vals[0];
      }
    }
  }

  // ---------------------------------------------------------------------------
  // reliabilityIndex

  /** `Math.max(0, x)` */
  function Clamp0(x: real): (r: real)
    ensures r >= 0.0 && r >= x
  {
    if x > 0.0 then x else 0.0
  }

  /** `Math.min(1, (a + b) / 2)` of two scores that are not negative. */
  function Blend(a: real, b: real): (r: real)
    requires a >= 0.0 && b >= 0.0
    ensures 0.0 <= r <= 1.0
    ensures r == 1.0 || r == (a + b) / 2.0
  {
    var mean := (a + b) / 2.0;
    if mean < 1.0 then mean else 1.0
  }

  /** `Math.abs(vmax - vmin) < 0.0001` in JavaScript; `isclose(vmax, vmin)`,
      with its relative tolerance of 1e-9 and no absolute tolerance, in
      Python. */
  predicate NoSpread(dialect: Dialect, vmin: real, vmax: real)
    requires vmin <= vmax
  {
    match dialect
    case JavaScript => vmax - vmin < 0.0001
    case Python =>
      var big := if Abs(vmax) >= Abs(vmin) then Abs(vmax) else Abs(vmin);
      vmax - vmin <= 0.000000001 * big
  }

  function Abs(x: real): real
  {
    if x < 0.0 then -x else x
  }

  /** The index of values spread over `range`, with standard deviation
      `sigma` and central width `w`: the score of the deviation against half
      the range and the score of the width against the range, blended. */
  function Score(range: real, sigma: real, w: real): (r: real)
    requires range > 0.0
    ensures 0.0 <= r <= 1.0
  {
    var sSigma := Clamp0(1.0 - sigma / (range / 2.0));
    var sW := Clamp0(1.0 - w / range);
    Blend(sSigma, sW)
  }

  /** `reliabilityIndex(vals, pLow, pHigh)`: 0 for no values, 1 when the
      values have no spread, and otherwise the mean of two scores, each
      clamped at 0, capped at 1. The score of the standard deviation uses
      `sqrt`; the score of the central width uses the percentiles, and is not
      a number when they are not. */
  function Reliability(dialect: Dialect, vals: seq<real>, pLow: real, pHigh: real, sqrt: real -> real): (r: Option<real>)
    ensures r.Some? ==> 0.0 <= r.value <= 1.0
    ensures vals == [] ==> r == Some(0.0)
    ensures vals != [] && Min(vals) <= Max(vals) && NoSpread(dialect, Min(vals), Max(vals)) ==> r == Some(1.0)
  {
    if vals == [] then Some(0.0)
    else
      var vmin := Min(vals);
      var vmax := Max(vals);
      if NoSpread(dialect, vmin, vmax) then Some(1.0)
      else
        var sigma := sqrt(SampleVariance(vals));
        match (Percentile(vals, pHigh), Percentile(vals, pLow))
        case (Some(high), Some(low)) =>
          Some(Score(vmax - vmin, sigma, high - low))
        case _ => None
  }

  /** With percentiles inside [0, 1] the index is a number, whatever the
      square root returns. */
  lemma ReliabilityDefined(dialect: Dialect, vals: seq<real>, pLow: real, pHigh: real, sqrt: real -> real)
    requires 0.0 <= pLow <= 1.0 && 0.0 <= pHigh <= 1.0
    ensures Reliability(dialect, vals, pLow, pHigh, sqrt).Some?
  {
    if vals != [] {
      PercentileDefined(vals, pLow);
      PercentileDefined(vals, pHigh);
    }
  }

  /** Values that are all the same are fully reliable, in both
      implementations. */
  lemma ReliabilityConstant(dialect: Dialect, vals: seq<real>, pLow: real, pHigh: real, sqrt: real -> real)
    requires vals != [] && Min(vals) == Max(vals)
    ensures Reliability(dialect, vals, pLow, pHigh, sqrt) == Some(1.0)
  {
    var m := Max(vals);
    assert 0.000000001 * Abs(m) >= 0.0;
  }

  /** With two values or more that differ, a percentile outside [0, 1] makes
      the index not a number. */
  lemma ReliabilityUndefined(dialect: Dialect, vals: seq<real>, pLow: real, pHigh: real, sqrt: real -> real)
    requires |vals| >= 2 && !NoSpread(dialect, Min(vals), Max(vals))
    requires pLow < 0.0 || pLow > 1.0
    ensures Reliability(dialect, vals, pLow, pHigh, sqrt) == None
  {
    PercentileOutside(vals, pLow);
  }

  // ---------------------------------------------------------------------------
  // successRate, beaverDamage

  /** How many values reach the threshold, `values.filter(v => v >= kd).length`. */
  function CountAtLeast(values: seq<real>, kd: real): (r: nat)
    ensures r <= |values|
    ensures r == |set k | 0 <= k < |values| && values[k] >= kd|
  {
    if values == [] then 0
    else
      AtLeastIndicesStep(values, values[..|values| - 1], kd);
      CountAtLeast(values[..|values| - 1], kd) + (if values[|values| - 1] >= kd then 1 else 0)
  }

  /** The indices of values reaching `kd`: those of all but the last value,
      and the last index when the last value reaches it. */
  lemma AtLeastIndicesStep(values: seq<real>, init: seq<real>, kd: real)
    requires values != [] && init == values[..|values| - 1]
    ensures |set k | 0 <= k < |values| && values[k] >= kd|
      == |set k | 0 <= k < |init| && init[k] >= kd| + (if values[|init|] >= kd then 1 else 0)
  {
    var n := |values|;
    var before := set k | 0 <= k < n - 1 && init[k] >= kd;
    var last := if values[n - 1] >= kd then {n - 1} else {};
    assert (set k | 0 <= k < n && values[k] >= kd) == before + last;
    assert before !! last;
  }

  /** `{ count, percent }`; `None` is `null`. */
  datatype Success = Success(count: Option<nat>, percent: Option<real>)

  /** `successRate(values, kd)` / `success_rate(values, kd)` */
  function SuccessRate(values: seq<real>, kd: Option<real>): (r: Success)
    ensures kd.None? <==> r == Success(None, None)
    ensures kd.Some? ==> r.count == Some(CountAtLeast(values, kd.value)) && r.percent.Some?
    ensures kd.Some? && values == [] ==> r.percent == Some(0.0)
    ensures kd.Some? && values != [] ==> r.percent.value * |values| as real == 100.0 * r.count.value as real
  {
    match kd
    case None => Success(None, None)
    case Some(k) =>
      if values == [] then Success(Some(0), Some(0.0))
      else
        var count := CountAtLeast(values, k);
        Success(Some(count), Some(count as real / |values| as real * 100.0))
  }

  /** The count is `n` exactly when every value reaches the threshold, and
      0 exactly when none does. */
  lemma {:induction false} CountAtLeastExtremes(values: seq<real>, kd: real)
    ensures CountAtLeast(values, kd) == |values| <==> forall i :: 0 <= i < |values| ==> values[i] >= kd
    ensures CountAtLeast(values, kd) == 0 <==> forall i :: 0 <= i < |values| ==> values[i] < kd
  {
    if values != [] {
      var init := values[..|values| - 1];
      CountAtLeastExtremes(init, kd);
      assert forall i :: 0 <= i < |init| ==> init[i] == values[i];
    }
  }

  /** A higher threshold is reached by no more values. */
  lemma {:induction false} CountAtLeastMonotone(values: seq<real>, kd1: real, kd2: real)
    requires kd1 <= kd2
    ensures CountAtLeast(values, kd2) <= CountAtLeast(values, kd1)
  {
    if values != [] {
      CountAtLeastMonotone(values[..|values| - 1], kd1, kd2);
    }
  }

  /** With a threshold the count is between 0 and `n` and the percentage
      between 0 and 100; a higher threshold never raises either. */
  lemma SuccessRateBounds(values: seq<real>, kd1: real, kd2: real)
    requires kd1 <= kd2
    ensures var s := SuccessRate(values, Some(kd1));
      s.count.Some? && s.percent.Some? && s.count.value <= |values| && 0.0 <= s.percent.value <= 100.0
    ensures SuccessRate(values, Some(kd2)).count.value <= SuccessRate(values, Some(kd1)).count.value
    ensures SuccessRate(values, Some(kd2)).percent.value <= SuccessRate(values, Some(kd1)).percent.value
  {
    CountAtLeastMonotone(values, kd1, kd2);
    if values != [] {
      var n := |values| as real;
      var c1 := CountAtLeast(values, kd1) as real;
      var c2 := CountAtLeast(values, kd2) as real;
      DivLe(c1, n, 1.0);
      DivMono(c2, c1, n);
      MulLe(c2 / n, c1 / n, 100.0);
      DivGe(c2, n, 0.0);
      MulNonNeg(c2 / n, 100.0);
      MulNonNeg(c1 / n, 100.0);
      MulLe(c1 / n, 1.0, 100.0);
    }
  }

  /** `successRate([3, 7, 10, 15], 10)` is `{ count: 2, percent: 50 }`. */
  lemma SuccessRateExample(values: seq<real>)
    requires values == [3.0, 7.0, 10.0, 15.0]
    ensures SuccessRate(values, Some(10.0)) == Success(Some(2), Some(50.0))
  {
    var a, b, c := values[..3], values[..2], values[..1];
    assert a[..2] == b && b[..1] == c && c[..0] == [];
    assert CountAtLeast(c, 10.0) == 0;
    assert CountAtLeast(b, 10.0) == 0;
    assert CountAtLeast(a, 10.0) == 1;
    assert CountAtLeast(values, 10.0) == 2;
  }

  /** The damage of one roll: `floor(v / kd)` when `v` reaches `kd`, else 0. */
  function RollDamage(v: real, kd: real): int
    requires kd > 0.0
  {
    if v >= kd then (v / kd).Floor else 0
  }

  /** The damage of all rolls, added up. */
  function DamageTotal(values: seq<real>, kd: real): (r: int)
    requires kd > 0.0
    ensures (forall k :: 0 <= k < |values| ==> values[k] < kd) ==> r == 0
  {
    if values == [] then 0
    else DamageTotal(values[..|values| - 1], kd) + RollDamage(values[|values| - 1], kd)
  }

  /** Every roll that reaches the threshold deals at least 1, every other
      roll 0, so the total is at least the number of successes. */
  lemma {:induction false} DamageAtLeastSuccesses(values: seq<real>, kd: real)
    requires kd > 0.0
    ensures DamageTotal(values, kd) >= CountAtLeast(values, kd)
  {
    if values != [] {
      var init := values[..|values| - 1];
      var v := values[|values| - 1];
      DamageAtLeastSuccesses(init, kd);
      if v >= kd {
        DivGe(v, kd, 1.0);
      }
      assert DamageTotal(values, kd) == DamageTotal(init, kd) + RollDamage(v, kd);
    }
  }

  /** No roll deals more than `v / kd`, so the total is at most the sum of
      the values over `kd` when no value is negative. */
  lemma {:induction false} DamageAtMostSumOver(values: seq<real>, kd: real)
    requires kd > 0.0
    requires forall i :: 0 <= i < |values| ==> values[i] >= 0.0
    ensures DamageTotal(values, kd) as real <= Sum(values) / kd
  {
    if values != [] {
      var init := values[..|values| - 1];
      var v := values[|values| - 1];
      DamageAtMostSumOver(init, kd);
      DivGe(v, kd, 0.0);
      assert RollDamage(v, kd) as real <= v / kd;
      assert values[..|values| - 1] == init;
      DivAdd(Sum(init), v, kd);
    }
  }

  /** `{ total, avg }`; `None` is `null`. */
  datatype Damage = Damage(total: Option<int>, avg: Option<real>)

  /** `beaverDamage(values, kd)` / `beaver_damage(values, kd)`: nothing
      without a positive threshold, and otherwise the damage of every roll
      added up in a loop and averaged over all rolls. */
  method BeaverDamage(values: seq<real>, kd: Option<real>) returns (d: Damage)
    ensures kd.None? || kd.value <= 0.0 ==> d == Damage(None, None)
    ensures kd.Some? && kd.value > 0.0 && values == [] ==> d == Damage(Some(0), Some(0.0))
    ensures kd.Some? && kd.value > 0.0 && values != [] ==>
      d == Damage(Some(DamageTotal(values, kd.value)), Some(DamageTotal(values, kd.value) as real / |values| as real))
  {
    if kd.None? || kd.value <= 0.0 {
      return Damage(None, None);
    }
    if values == [] {
      return Damage(Some(0), Some(0.0));
    }
    var k := kd.value;
    var total := 0;
    var i := 0;
    while i < |values|
      invariant 0 <= i <= |values|
      invariant total == DamageTotal(values[..i], k)
    {
      if values[i] >= k {
        total := total + (values[i] / k).Floor;
      }
      assert values[..i + 1][..i] == values[..i];
      i := i + 1;
    }
    assert values[..i] == values;
    d := Damage(Some(total), Some(total as real / |values| as real));
  }

  /** `beaverDamage([20, 5], 10)` deals 2 in total, 1 on average. */
  lemma DamageExample(values: seq<real>)
    requires values == [20.0, 5.0]
    ensures DamageTotal(values, 10.0) == 2
    ensures DamageTotal(values, 10.0) as real / |values| as real == 1.0
  {
    assert values[..1] == [20.0];
    assert (20.0 / 10.0).Floor == 2;
  }

  // ---------------------------------------------------------------------------
  // fullStats

  /** What `fullStats` returns. */
  datatype Summary = Summary(
    total: real, avg: real, variance: real, stdDev: real, min: real, max: real,
    p10: real, p50: real, p90: real, reliability: real,
    successRate: Success, beaverDamage: Damage)

  /** `fullStats(values, kd)`: the all-zero record without values, and
      otherwise every statistic of the same values. The damage is the
      specification of `BeaverDamage`. */
  function FullStats(values: seq<real>, kd: Option<real>, sqrt: real -> real): (s: Summary)
    ensures values == [] ==> s == Summary(0.0, 0.0, 0.0, 0.0, 0.0, 0.0, 0.0, 0.0, 0.0, 0.0, Success(None, None), Damage(None, None))
    ensures values != [] ==> s.total == Sum(values) && s.min <= s.p10 <= s.p50 <= s.p90 <= s.max
    ensures values != [] ==> s.min <= s.avg <= s.max && s.variance >= 0.0 && 0.0 <= s.reliability <= 1.0
    ensures values != [] ==>
      && SampleMean(values) == Some(s.avg) && s.variance == SampleVariance(values) && s.stdDev == sqrt(s.variance)
      && s.min == Min(values) && s.max == Max(values)
      && Percentile(values, 0.1) == Some(s.p10) && Percentile(values, 0.5) == Some(s.p50) && Percentile(values, 0.9) == Some(s.p90)
      && Reliability(JavaScript, values, 0.1, 0.9, sqrt) == Some(s.reliability)
      && s.successRate == SuccessRate(values, kd)
    ensures values != [] && (kd.None? || kd.value <= 0.0) ==> s.beaverDamage == Damage(None, None)
    ensures values != [] && kd.Some? && kd.value > 0.0 ==>
      s.beaverDamage == Damage(Some(DamageTotal(values, kd.value)), Some(DamageTotal(values, kd.value) as real / |values| as real))
  {
    if values == [] then
      Summary(0.0, 0.0, 0.0, 0.0, 0.0, 0.0, 0.0, 0.0, 0.0, 0.0, Success(None, None), Damage(None, None))
    else
      PercentileMonotone(values, 0.1, 0.5);
      PercentileMonotone(values, 0.5, 0.9);
      PercentileBetween(values, 0.1);
      PercentileBetween(values, 0.9);
      MeanBetween(values);
      ReliabilityDefined(JavaScript, values, 0.1, 0.9, sqrt);
      var damage :=
        if kd.None? || kd.value <= 0.0 then Damage(None, None)
        else Damage(Some(DamageTotal(values, kd.value)), Some(DamageTotal(values, kd.value) as real / |values| as real));
      Summary(
        Sum(values), SampleMean(values).value, SampleVariance(values), sqrt(SampleVariance(values)),
        Min(values), Max(values),
        Percentile(values, 0.1).value, Percentile(values, 0.5).value, Percentile(values, 0.9).value,
        Reliability(JavaScript, values, 0.1, 0.9, sqrt).value,
        SuccessRate(values, kd), damage)
  }
}
