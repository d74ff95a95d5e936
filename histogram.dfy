/** The histogram behind the result chart (app.js:432-475, 535, 602): how
    often each outcome occurs, the most frequent one, and the points the curve
    is drawn through, one per distinct outcome or one per bucket of a 50-way
    split when there are more than 60 distinct outcomes. Pixel scaling and the
    SVG text are not part of this model. */
module Histogram {
  import opened Wrappers
  import opened Sequences
  import Stats

  /** A point of the chart: an outcome (or a bucket centre) and how often it
      occurs. */
  datatype Point = Point(x: real, y: nat)

  // ---------------------------------------------------------------------------
  // the frequency pass

  /** The value at index `k` is the first one, in input order, whose running
      count reaches `top`. */
  ghost predicate FirstToReach(values: seq<real>, k: nat, top: nat)
    requires k < |values|
  {
    Count(values[..k + 1], values[k]) == top &&
    forall j :: 0 <= j < k ==> Count(values[..j + 1], values[j]) < top
  }

  /** `mode` occurs `count` times, no outcome occurs more often, and `mode`
      was the first outcome to reach that count. */
  ghost predicate IsMode(values: seq<real>, mode: real, count: nat)
  {
    count == Count(values, mode) &&
    (forall k :: 0 <= k < |values| ==> Count(values, values[k]) <= count) &&
    exists k :: 0 <= k < |values| && values[k] == mode && FirstToReach(values, k, count)
  }

  /** What the frequency loop knows after the first `i` values: the table
      counts them, `maxCount` is the largest count and belongs to `mode`, and
      `mode` (at index `k`) was the first to reach it. */
  ghost predicate Tallied(values: seq<real>, i: nat, freq: map<real, nat>, maxCount: nat, mode: real, k: nat)
  {
    i <= |values| &&
    (forall x :: Get(freq, x) == Count(values[..i], x)) &&
    (forall x :: x in freq <==> x in values[..i]) &&
    (forall j :: 0 <= j < i ==> Count(values[..i], values[j]) <= maxCount) &&
    Get(freq, mode) == maxCount &&
    (i == 0 ==> maxCount == 0) &&
    (i > 0 ==> k < i && values[k] == mode && FirstToReach(values, k, maxCount))
  }

  /** The loop over `values` that fills `frequency`, raising `maxCount` and
      moving `mode` whenever a count passes the running maximum. */
  method Frequencies(values: seq<real>) returns (freq: map<real, nat>, maxCount: nat, mode: real)
    requires values != []
    ensures forall x :: Get(freq, x) == Count(values, x)
    ensures forall x :: x in freq <==> x in values
    ensures Get(freq, mode) == maxCount && IsMode(values, mode, maxCount)
  {
    freq := map[];
    maxCount := 0;
    mode := values[0];
    ghost var k := 0;
    var i := 0;
    while i < |values|
      invariant Tallied(values, i, freq, maxCount, mode, k)
    {
      var v := values[i];
      var c := Get(freq, v) + 1;
      TallyStep(values, i, freq, maxCount, mode, k);
      if c > maxCount {
        maxCount := c;
        mode := v;
        k := i;
      }
      freq := freq[v := c];
      i := i + 1;
    }
    assert values[..i] == values;
  }

  /** One turn of the frequency loop keeps `Tallied`. */
  lemma TallyStep(values: seq<real>, i: nat, freq: map<real, nat>, maxCount: nat, mode: real, k: nat)
    requires i < |values| && Tallied(values, i, freq, maxCount, mode, k)
    ensures var c := Get(freq, values[i]) + 1;
      var next := freq[values[i] := c];
      if c > maxCount then Tallied(values, i + 1, next, c, values[i], i)
      else Tallied(values, i + 1, next, maxCount, mode, k)
  {
    CountStep(values, i, freq);
    if Get(freq, values[i]) + 1 > maxCount {
      TallyRaise(values, i, freq, maxCount);
    } else {
      TallyKeep(values, i, freq, maxCount, mode, k);
    }
  }

  /** The value just counted passes the maximum: it becomes the mode. */
  lemma TallyRaise(values: seq<real>, i: nat, freq: map<real, nat>, maxCount: nat)
    requires i < |values|
    requires forall x :: Get(freq, x) == Count(values[..i], x)
    requires forall j :: 0 <= j < i ==> Count(values[..i], values[j]) <= maxCount
    requires forall x :: Count(values[..i + 1], x) == Count(values[..i], x) + (if values[i] == x then 1 else 0)
    requires Get(freq, values[i]) + 1 > maxCount
    ensures var c := Get(freq, values[i]) + 1;
      (forall j :: 0 <= j < i + 1 ==> Count(values[..i + 1], values[j]) <= c) &&
      FirstToReach(values, i, c)
  {
    var c := Get(freq, values[i]) + 1;
    forall j | 0 <= j < i + 1 ensures Count(values[..i + 1], values[j]) <= c {
      if j < i {
        assert Count(values[..i], values[j]) <= maxCount;
      }
    }
    EarlierCountsBelow(values, i, maxCount);
  }

  /** The value just counted stays at or below the maximum: nothing moves. */
  lemma TallyKeep(values: seq<real>, i: nat, freq: map<real, nat>, maxCount: nat, mode: real, k: nat)
    requires i < |values|
    requires forall x :: Get(freq, x) == Count(values[..i], x)
    requires forall j :: 0 <= j < i ==> Count(values[..i], values[j]) <= maxCount
    requires forall x :: Count(values[..i + 1], x) == Count(values[..i], x) + (if values[i] == x then 1 else 0)
    requires Get(freq, mode) == maxCount
    requires Get(freq, values[i]) + 1 <= maxCount
    ensures forall j :: 0 <= j < i + 1 ==> Count(values[..i + 1], values[j]) <= maxCount
    ensures Get(freq[values[i] := Get(freq, values[i]) + 1], mode) == maxCount
  {
    forall j | 0 <= j < i + 1 ensures Count(values[..i + 1], values[j]) <= maxCount {
      if values[j] != values[i] {
        assert Count(values[..i], values[j]) <= maxCount;
      }
    }
  }

  /** Counting one more value: only its own count goes up, by one, and the
      table updated at that key counts the longer prefix. */
  lemma CountStep(values: seq<real>, i: nat, freq: map<real, nat>)
    requires i < |values|
    requires forall x :: Get(freq, x) == Count(values[..i], x)
    requires forall x :: x in freq <==> x in values[..i]
    ensures forall x :: Count(values[..i + 1], x) == Count(values[..i], x) + (if values[i] == x then 1 else 0)
    ensures var next := freq[values[i] := Get(freq, values[i]) + 1];
      (forall x :: Get(next, x) == Count(values[..i + 1], x)) &&
      (forall x :: x in next <==> x in values[..i + 1])
  {
    assert values[..i + 1] == values[..i] + [values[i]];
    forall x ensures Count(values[..i + 1], x) == Count(values[..i], x) + (if values[i] == x then 1 else 0) {
      CountAppend(values[..i], values[i], x);
    }
  }

  /** When every count so far is at most `top`, no earlier element reached
      more than `top` at its own step. */
  lemma EarlierCountsBelow(values: seq<real>, i: nat, top: nat)
    requires i <= |values|
    requires forall j :: 0 <= j < i ==> Count(values[..i], values[j]) <= top
    ensures forall j :: 0 <= j < i ==> Count(values[..j + 1], values[j]) <= top
  {
    forall j | 0 <= j < i ensures Count(values[..j + 1], values[j]) <= top {
      assert values[..i][..j + 1] == values[..j + 1];
      CountPrefix(values[..i], j + 1, values[j]);
    }
  }

  /** The distinct values of `s`, in order of first appearance: the keys of
      the frequency table. */
  function Uniques(s: seq<real>): (r: seq<real>)
    ensures Distinct(r)
    ensures forall x :: x in r <==> x in s
  {
    if s == [] then []
    else
      var r := Uniques(s[..|s| - 1]);
      var v := s[|s| - 1];
      assert s == s[..|s| - 1] + [v];
      if v in r then r else r + [v]
  }

  /** `uniqueValues`: the distinct outcomes, ascending. */
  function Ascending(values: seq<real>): (u: seq<real>)
    ensures StrictlyIncreasing(u)
    ensures forall x :: x in u <==> x in values
  {
    var keys := Uniques(values);
    SortOfDistinct(keys);
    var u := Sort(keys);
    assert forall x :: x in u <==> x in keys by {
      forall x ensures x in u <==> x in keys {
        assert x in u <==> x in multiset(u);
      }
    }
    u
  }

  /** The points without bucketing: one per distinct outcome, with its
      count. */
  function ExactPoints(u: seq<real>, freq: map<real, nat>): (points: seq<Point>)
    ensures |points| == |u|
    ensures forall i :: 0 <= i < |u| ==> points[i] == Point(u[i], Get(freq, u[i]))
  {
    seq(|u|, i requires 0 <= i < |u| => Point(u[i], Get(freq, u[i])))
  }

  /** `dataPoints.reduce` of the counts: the y values added up. */
  function SumYs(points: seq<Point>): nat
  {
    if points == [] then 0 else SumYs(points[..|points| - 1]) + points[|points| - 1].y
  }

  /** Points that list the entries of a table, key by key, add up to the
      table's sum over those keys. */
  lemma {:induction false} SumYsTable(points: seq<Point>, keys: seq<real>, m: map<real, nat>)
    requires |points| == |keys|
    requires forall j :: 0 <= j < |keys| ==> points[j].y == Get(m, keys[j])
    ensures SumYs(points) == SumOver(keys, m)
  {
    if keys != [] {
      SumYsTable(points[..|points| - 1], keys[..|keys| - 1], m);
    }
  }

  // ---------------------------------------------------------------------------
  // the 50-way bucketing

  const NumBuckets := 50
  /** More distinct outcomes than this are bucketed. */
  const ExactLimit := 60

  /** `Math.ceil(range / 50) || 1`: the smallest whole width for which 50
      buckets span `range`, and 1 for a zero range. */
  function BucketSize(range: real): (size: int)
    ensures range >= 0.0 ==> size >= 1
    ensures range == 0.0 ==> size == 1
    ensures range > 0.0 ==> range <= (NumBuckets * size) as real
    ensures range > 0.0 ==> ((size - 1) * NumBuckets) as real < range
  {
    var c := Stats.Ceil(range / NumBuckets as real);
    if c == 0 then 1 else c
  }

  /** `Math.floor((v - minVal) / bucketSize)`. */
  function BucketIndex(v: real, lo: real, size: int): int
    requires size > 0
  {
    ((v - lo) / size as real).Floor
  }

  /** `bucketIndex * bucketSize`: where bucket `idx` starts, measured from
      the smallest value. */
  function Offset(idx: int, size: int): int
  {
    idx * size
  }

  /** The offset as a product of reals. */
  lemma OffsetReal(idx: int, size: int)
    ensures Offset(idx, size) as real == idx as real * size as real
  {}

  /** The next bucket starts one width further. */
  lemma OffsetNext(idx: int, size: int)
    ensures Offset(idx + 1, size) == Offset(idx, size) + size
  {}

  /** `minVal + bucketIndex * bucketSize + bucketSize / 2`. */
  function Center(lo: real, idx: int, size: int): real
  {
    lo + Offset(idx, size) as real + size as real / 2.0
  }

  /** Every value between the smallest and the largest falls in one of the
      buckets 0 to 50 (51 of them when the range is a multiple of 50). */
  lemma BucketIndexRange(v: real, lo: real, hi: real)
    requires lo <= v <= hi
    ensures 0 <= BucketIndex(v, lo, BucketSize(hi - lo)) <= NumBuckets
  {
    var size := BucketSize(hi - lo);
    if hi > lo {
      assert hi - lo <= size as real * NumBuckets as real;
      Stats.DivLe(v - lo, size as real, NumBuckets as real);
    }
    Stats.DivGe(v - lo, size as real, 0.0);
  }

  /** A larger value never lands in an earlier bucket. */
  lemma BucketIndexMonotone(v: real, w: real, lo: real, size: int)
    requires size > 0 && v <= w
    ensures BucketIndex(v, lo, size) <= BucketIndex(w, lo, size)
  {
    Stats.DivMono(v - lo, w - lo, size as real);
  }

  /** A value lies within half a bucket width of its bucket's centre, the
      lower edge included. */
  lemma BucketContains(v: real, lo: real, size: int)
    requires size > 0
    ensures var c := Center(lo, BucketIndex(v, lo, size), size);
      c - size as real / 2.0 <= v < c + size as real / 2.0
  {
    var q := (v - lo) / size as real;
    var idx := q.Floor;
    assert v - lo == q * size as real;
    Stats.MulLe(idx as real, q, size as real);
    OffsetReal(idx, size);
    OffsetNext(idx, size);
    OffsetReal(idx + 1, size);
    var next := (idx + 1) as real;
    assert q * size as real < next * size as real by {
      Stats.MulPos(next - q, size as real);
      assert (next - q) * size as real == next * size as real - q * size as real;
    }
    assert Offset(idx + 1, size) as real == next * size as real;
    assert idx == BucketIndex(v, lo, size);
    assert v < lo + Offset(idx + 1, size) as real;
    assert Offset(idx + 1, size) as real == Offset(idx, size) as real + size as real;
    assert Center(lo, idx, size) + size as real / 2.0 == lo + Offset(idx, size) as real + size as real;
  }

  /** Later buckets have larger centres, so distinct buckets never share a
      key of `buckets`. */
  lemma {:induction false} CenterMonotone(lo: real, i: int, j: int, size: int)
    requires size > 0 && i < j
    ensures Center(lo, i, size) < Center(lo, j, size)
    decreases j - i
  {
    OffsetNext(i, size);
    if i + 1 < j {
      CenterMonotone(lo, i + 1, j, size);
    }
  }

  /** How many of the outcomes listed in `keys` fall in bucket `idx`. */
  function BucketTotal(keys: seq<real>, freq: map<real, nat>, lo: real, size: int, idx: int): nat
    requires size > 0
  {
    if keys == [] then 0
    else
      var last := keys[|keys| - 1];
      BucketTotal(keys[..|keys| - 1], freq, lo, size, idx) + (if BucketIndex(last, lo, size) == idx then Get(freq, last) else 0)
  }

  /** A bucket none of the keys falls in holds nothing. */
  lemma {:induction false} BucketTotalAbsent(keys: seq<real>, freq: map<real, nat>, lo: real, size: int, idx: int)
    requires size > 0
    requires forall j :: 0 <= j < |keys| ==> BucketIndex(keys[j], lo, size) != idx
    ensures BucketTotal(keys, freq, lo, size, idx) == 0
  {
    if keys != [] {
      BucketTotalAbsent(keys[..|keys| - 1], freq, lo, size, idx);
    }
  }

  /** `centers[j]` is the centre of bucket `idxs[j]`; the indices increase
      and lie in [0, 50]. */
  ghost predicate Layout(centers: seq<real>, idxs: seq<int>, lo: real, size: int)
  {
    |idxs| == |centers| &&
    (forall j :: 0 <= j < |centers| ==> centers[j] == Center(lo, idxs[j], size)) &&
    (forall j, l :: 0 <= j < l < |idxs| ==> idxs[j] < idxs[l]) &&
    (forall j :: 0 <= j < |idxs| ==> 0 <= idxs[j] <= NumBuckets)
  }

  /** The keys of `buckets` are the listed centres, and each holds the counts
      of the outcomes among `u[..i]` that fall in its bucket. */
  ghost predicate Filled(u: seq<real>, i: nat, freq: map<real, nat>, lo: real, size: int,
                         centers: seq<real>, idxs: seq<int>, buckets: map<real, nat>)
    requires size > 0 && i <= |u| && |idxs| == |centers|
  {
    (forall x :: x in buckets <==> x in centers) &&
    (forall j :: 0 <= j < |centers| ==> Get(buckets, centers[j]) == BucketTotal(u[..i], freq, lo, size, idxs[j]))
  }

  /** Every outcome among `u[..i]` has its bucket listed, the newest one's
      last. */
  ghost predicate Covered(u: seq<real>, i: nat, lo: real, size: int, idxs: seq<int>)
    requires size > 0 && i <= |u|
  {
    (forall j :: 0 <= j < i ==> BucketIndex(u[j], lo, size) in idxs) &&
    (i == 0 ==> idxs == []) &&
    (i > 0 ==> idxs != [] && idxs[|idxs| - 1] == BucketIndex(u[i - 1], lo, size))
  }

  /** One of the outcomes `u[..i]` falls in bucket `idx`. */
  ghost predicate Occupied(u: seq<real>, i: nat, lo: real, size: int, idx: int)
    requires size > 0 && i <= |u|
  {
    exists k :: 0 <= k < i && BucketIndex(u[k], lo, size) == idx
  }

  /** Every listed bucket holds at least one of the outcomes `u[..i]`: no
      bucket is listed that nothing fell in. */
  ghost predicate Used(u: seq<real>, i: nat, lo: real, size: int, idxs: seq<int>)
    requires size > 0 && i <= |u|
  {
    forall j :: 0 <= j < |idxs| ==> Occupied(u, i, lo, size, idxs[j])
  }

  /** The buckets the outcomes of `s` fall in, in order, with a bucket
      listed once for each run of consecutive outcomes that share it. */
  function BucketList(s: seq<real>, lo: real, size: int): seq<int>
    requires size > 0
  {
    if s == [] then []
    else
      var r := BucketList(s[..|s| - 1], lo, size);
      var b := BucketIndex(s[|s| - 1], lo, size);
      if r != [] && r[|r| - 1] == b then r else r + [b]
  }

  /** Every bucket `BucketList` lists holds one of the outcomes. */
  lemma {:induction false} BucketListUsed(s: seq<real>, lo: real, size: int)
    requires size > 0
    ensures Used(s, |s|, lo, size, BucketList(s, lo, size))
  {
    if s != [] {
      var front := s[..|s| - 1];
      var r := BucketList(front, lo, size);
      BucketListUsed(front, lo, size);
      var list := BucketList(s, lo, size);
      forall j | 0 <= j < |list| ensures Occupied(s, |s|, lo, size, list[j]) {
        if j < |r| {
          assert Occupied(front, |front|, lo, size, r[j]);
          var k :| 0 <= k < |front| && BucketIndex(front[k], lo, size) == r[j];
          assert front[k] == s[k] && list[j] == r[j];
        } else {
          assert list[j] == BucketIndex(s[|s| - 1], lo, size);
        }
      }
    }
  }

  /** One turn of the bucketing loop lists the new outcome's bucket exactly
      when `BucketList` does: a centre already among the keys is the newest
      bucket's. `idxs2` is the list after the turn. */
  lemma ListStep(u: seq<real>, i: nat, freq: map<real, nat>, lo: real, size: int,
                 centers: seq<real>, idxs: seq<int>, buckets: map<real, nat>, idxs2: seq<int>)
    requires size > 0 && i < |u| && StrictlyIncreasing(u)
    requires Binned(u, i, freq, lo, size, centers, idxs, buckets)
    requires idxs == BucketList(u[..i], lo, size)
    requires var c := Center(lo, BucketIndex(u[i], lo, size), size);
      (c in buckets ==> idxs2 == idxs) &&
      (c !in buckets ==> idxs2 == idxs + [BucketIndex(u[i], lo, size)])
    ensures idxs2 == BucketList(u[..i + 1], lo, size)
  {
    var b := BucketIndex(u[i], lo, size);
    assert u[..i + 1][..i] == u[..i];
    assert u[..i + 1][i] == u[i];
    if Center(lo, b, size) in buckets {
      JoinNewest(u, i, lo, size, centers, idxs);
    }
  }

  /** What the bucketing loop knows after the first `i` distinct outcomes;
      in addition to the above, the buckets together hold all their counts. */
  ghost predicate Binned(u: seq<real>, i: nat, freq: map<real, nat>, lo: real, size: int,
                         centers: seq<real>, idxs: seq<int>, buckets: map<real, nat>)
    requires size > 0
  {
    i <= |u| && Layout(centers, idxs, lo, size) &&
    Filled(u, i, freq, lo, size, centers, idxs, buckets) &&
    Covered(u, i, lo, size, idxs) &&
    SumOver(centers, buckets) == SumOver(u[..i], freq)
  }

  /** Centres of strictly increasing bucket indices strictly increase. */
  lemma CentersIncrease(centers: seq<real>, idxs: seq<int>, lo: real, size: int)
    requires size > 0 && Layout(centers, idxs, lo, size)
    ensures StrictlyIncreasing(centers) && Distinct(centers)
  {
    forall j, l | 0 <= j < l < |centers| ensures centers[j] < centers[l] {
      CenterMonotone(lo, idxs[j], idxs[l], size);
    }
  }

  /** Adding one more outcome's count to the bucket total of `idx`. */
  lemma BucketTotalStep(u: seq<real>, i: nat, freq: map<real, nat>, lo: real, size: int, idx: int)
    requires size > 0 && i < |u|
    ensures BucketTotal(u[..i + 1], freq, lo, size, idx) ==
      BucketTotal(u[..i], freq, lo, size, idx) + (if BucketIndex(u[i], lo, size) == idx then Get(freq, u[i]) else 0)
  {
    assert u[..i + 1][..i] == u[..i];
  }

  /** The sum of the counts over one more outcome. */
  lemma SumOverStep(u: seq<real>, i: nat, freq: map<real, nat>)
    requires i < |u|
    ensures SumOver(u[..i + 1], freq) == SumOver(u[..i], freq) + Get(freq, u[i])
  {
    assert u[..i + 1] == u[..i] + [u[i]];
    SumOverAppend(u[..i], u[i], freq);
  }

  /** The newest outcome's bucket is either the newest listed bucket or a
      later one, since the outcomes ascend. */
  lemma NotBefore(u: seq<real>, i: nat, lo: real, size: int, idxs: seq<int>)
    requires size > 0 && i < |u| && StrictlyIncreasing(u) && Covered(u, i, lo, size, idxs)
    ensures i > 0 ==> idxs[|idxs| - 1] <= BucketIndex(u[i], lo, size)
  {
    if i > 0 {
      BucketIndexMonotone(u[i - 1], u[i], lo, size);
    }
  }

  /** An outcome whose centre is already a key falls in the newest bucket. */
  lemma JoinNewest(u: seq<real>, i: nat, lo: real, size: int, centers: seq<real>, idxs: seq<int>)
    requires size > 0 && i < |u| && StrictlyIncreasing(u)
    requires Layout(centers, idxs, lo, size) && Covered(u, i, lo, size, idxs)
    requires Center(lo, BucketIndex(u[i], lo, size), size) in centers
    ensures centers != [] && idxs[|idxs| - 1] == BucketIndex(u[i], lo, size)
  {
    var idx := BucketIndex(u[i], lo, size);
    var j :| 0 <= j < |centers| && centers[j] == Center(lo, idx, size);
    if idxs[j] < idx {
      CenterMonotone(lo, idxs[j], idx, size);
    } else if idxs[j] > idx {
      CenterMonotone(lo, idx, idxs[j], size);
    }
    NotBefore(u, i, lo, size, idxs);
  }

  /** Adding to the newest bucket keeps every entry equal to its bucket's
      total. */
  lemma FilledJoin(u: seq<real>, i: nat, freq: map<real, nat>, lo: real, size: int,
                   centers: seq<real>, idxs: seq<int>, buckets: map<real, nat>)
    requires size > 0 && i < |u|
    requires Layout(centers, idxs, lo, size) && Filled(u, i, freq, lo, size, centers, idxs, buckets)
    requires centers != [] && idxs[|idxs| - 1] == BucketIndex(u[i], lo, size)
    ensures var c := centers[|centers| - 1];
      Filled(u, i + 1, freq, lo, size, centers, idxs, buckets[c := Get(buckets, c) + Get(freq, u[i])])
  {
    var last := |centers| - 1;
    var c := centers[last];
    var next := buckets[c := Get(buckets, c) + Get(freq, u[i])];
    forall l | 0 <= l < |centers|
      ensures Get(next, centers[l]) == BucketTotal(u[..i + 1], freq, lo, size, idxs[l])
    {
      BucketTotalStep(u, i, freq, lo, size, idxs[l]);
      if l != last {
        CenterMonotone(lo, idxs[l], idxs[last], size);
      }
    }
  }

  /** A new key for a bucket not yet listed, holding the outcome's count. */
  lemma FilledOpen(u: seq<real>, i: nat, freq: map<real, nat>, lo: real, size: int,
                   centers: seq<real>, idxs: seq<int>, buckets: map<real, nat>)
    requires size > 0 && i < |u|
    requires Layout(centers, idxs, lo, size) && Filled(u, i, freq, lo, size, centers, idxs, buckets)
    requires Covered(u, i, lo, size, idxs)
    requires BucketIndex(u[i], lo, size) !in idxs
    ensures var idx := BucketIndex(u[i], lo, size);
      var c := Center(lo, idx, size);
      c !in buckets &&
      Filled(u, i + 1, freq, lo, size, centers + [c], idxs + [idx], buckets[c := Get(freq, u[i])])
  {
    var idx := BucketIndex(u[i], lo, size);
    var c := Center(lo, idx, size);
    var next := buckets[c := Get(freq, u[i])];
    assert c !in centers by {
      if j :| 0 <= j < |centers| && centers[j] == c {
        if idxs[j] < idx {
          CenterMonotone(lo, idxs[j], idx, size);
        } else {
          CenterMonotone(lo, idx, idxs[j], size);
        }
      }
    }
    forall j | 0 <= j < i ensures BucketIndex(u[..i][j], lo, size) != idx {
      assert u[..i][j] == u[j];
    }
    BucketTotalAbsent(u[..i], freq, lo, size, idx);
    BucketTotalStep(u, i, freq, lo, size, idx);
    forall l | 0 <= l < |centers|
      ensures Get(next, centers[l]) == BucketTotal(u[..i + 1], freq, lo, size, idxs[l])
    {
      BucketTotalStep(u, i, freq, lo, size, idxs[l]);
    }
  }

  /** A bucket later than every listed one extends the layout. */
  lemma LayoutOpen(u: seq<real>, i: nat, lo: real, size: int, centers: seq<real>, idxs: seq<int>)
    requires size > 0 && i < |u| && StrictlyIncreasing(u)
    requires 0 <= BucketIndex(u[i], lo, size) <= NumBuckets
    requires Layout(centers, idxs, lo, size) && Covered(u, i, lo, size, idxs)
    requires BucketIndex(u[i], lo, size) !in idxs
    ensures var idx := BucketIndex(u[i], lo, size);
      Layout(centers + [Center(lo, idx, size)], idxs + [idx], lo, size)
  {
    var idx := BucketIndex(u[i], lo, size);
    NotBefore(u, i, lo, size, idxs);
    forall j, l | 0 <= j < l < |idxs| + 1 ensures (idxs + [idx])[j] < (idxs + [idx])[l] {
      if l == |idxs| && j < |idxs| - 1 {
        assert idxs[j] < idxs[|idxs| - 1];
      }
    }
  }

  /** Listing the newest outcome's bucket last keeps every outcome covered. */
  lemma CoveredOpen(u: seq<real>, i: nat, lo: real, size: int, idxs: seq<int>)
    requires size > 0 && i < |u| && Covered(u, i, lo, size, idxs)
    ensures Covered(u, i + 1, lo, size, idxs + [BucketIndex(u[i], lo, size)])
  {
    var idx := BucketIndex(u[i], lo, size);
    forall j | 0 <= j < i + 1 ensures BucketIndex(u[j], lo, size) in idxs + [idx] {
      if j < i {
        assert BucketIndex(u[j], lo, size) in idxs;
      }
    }
  }

  /** The outcome's bucket is already there: it is the newest one, and its
      entry grows by the outcome's count. */
  lemma BinnedJoin(u: seq<real>, i: nat, freq: map<real, nat>, lo: real, size: int,
                   centers: seq<real>, idxs: seq<int>, buckets: map<real, nat>)
    requires size > 0 && i < |u| && StrictlyIncreasing(u)
    requires Binned(u, i, freq, lo, size, centers, idxs, buckets)
    requires Center(lo, BucketIndex(u[i], lo, size), size) in buckets
    ensures var c := Center(lo, BucketIndex(u[i], lo, size), size);
      Binned(u, i + 1, freq, lo, size, centers, idxs, buckets[c := Get(buckets, c) + Get(freq, u[i])])
  {
    var c := Center(lo, BucketIndex(u[i], lo, size), size);
    JoinNewest(u, i, lo, size, centers, idxs);
    assert centers[|centers| - 1] == c;
    FilledJoin(u, i, freq, lo, size, centers, idxs, buckets);
    CentersIncrease(centers, idxs, lo, size);
    SumOverUpdateOnce(centers, buckets, c, Get(freq, u[i]));
    SumOverStep(u, i, freq);
  }

  /** The outcome opens a new bucket: its index is larger than every earlier
      one, and the new key is appended. */
  lemma BinnedOpen(u: seq<real>, i: nat, freq: map<real, nat>, lo: real, size: int,
                   centers: seq<real>, idxs: seq<int>, buckets: map<real, nat>)
    requires size > 0 && i < |u| && StrictlyIncreasing(u)
    requires 0 <= BucketIndex(u[i], lo, size) <= NumBuckets
    requires Binned(u, i, freq, lo, size, centers, idxs, buckets)
    requires Center(lo, BucketIndex(u[i], lo, size), size) !in buckets
    ensures var idx := BucketIndex(u[i], lo, size);
      var c := Center(lo, idx, size);
      Binned(u, i + 1, freq, lo, size, centers + [c], idxs + [idx], buckets[c := Get(freq, u[i])])
  {
    var idx := BucketIndex(u[i], lo, size);
    var c := Center(lo, idx, size);
    var next := buckets[c := Get(freq, u[i])];
    assert idx !in idxs by {
      if j :| 0 <= j < |idxs| && idxs[j] == idx {
        assert centers[j] == c;
      }
    }
    LayoutOpen(u, i, lo, size, centers, idxs);
    CoveredOpen(u, i, lo, size, idxs);
    FilledOpen(u, i, freq, lo, size, centers, idxs, buckets);
    SumOverUpdateAbsent(centers, buckets, c, Get(freq, u[i]));
    SumOverAppend(centers, c, next);
    SumOverStep(u, i, freq);
  }

  /** The bucketing branch: every distinct outcome adds its count to the
      bucket of its centre, and `centers` records the keys of `buckets` in the
      order they appear. The outcomes are visited in ascending order, so that
      order is already ascending and the final sort by centre leaves it as it
      is. */
  method Bucket(u: seq<real>, freq: map<real, nat>) returns (points: seq<Point>)
    requires u != [] && StrictlyIncreasing(u)
    ensures BucketSize(u[|u| - 1] - u[0]) > 0
    ensures Bucketed(u, freq, u[0], BucketSize(u[|u| - 1] - u[0]), points, BucketList(u, u[0], BucketSize(u[|u| - 1] - u[0])))
  {
    var lo := u[0];
    var hi := u[|u| - 1];
    assert lo <= hi;
    var size := BucketSize(u[|u| - 1] - u[0]);
    var centers, buckets, idxs := FillBuckets(u, freq, lo, hi, size);
    points := PointsOf(centers, buckets);
    BinnedDone(u, freq, lo, size, centers, idxs, buckets);
  }

  /** The loop of the bucketing branch over the distinct outcomes: `buckets`
      maps each centre to the counts added to it, and `centers` lists its
      keys in the order they were first added. */
  method FillBuckets(u: seq<real>, freq: map<real, nat>, lo: real, hi: real, size: int)
      returns (centers: seq<real>, buckets: map<real, nat>, ghost idxs: seq<int>)
    requires u != [] && StrictlyIncreasing(u) && lo == u[0] && hi == u[|u| - 1]
    requires size == BucketSize(hi - lo) && size > 0
    ensures Progress(u, |u|, freq, lo, size, centers, idxs, buckets)
  {
    buckets := map[];
    centers := [];
    idxs := [];
    var i := 0;
    while i < |u|
      invariant Progress(u, i, freq, lo, size, centers, idxs, buckets)
    {
      var v := u[i];
      var idx := BucketIndex(v, lo, size);
      var c := Center(lo, idx, size);
      BucketIndexRange(v, lo, hi);
      ghost var before, keys, indices := buckets, centers, idxs;
      if c !in buckets {
        centers := centers + [c];
        idxs := idxs + [idx];
      }
      buckets := buckets[c := Get(buckets, c) + Get(freq, v)];
      BinStep(u, i, freq, lo, size, keys, indices, before, centers, idxs, buckets);
      i := i + 1;
    }
    assert u[..i] == u;
  }

  /** What the bucketing loop knows after the first `i` distinct outcomes,
      together with `idxs` being the `BucketList` of those outcomes. */
  ghost predicate Progress(u: seq<real>, i: nat, freq: map<real, nat>, lo: real, size: int,
                           centers: seq<real>, idxs: seq<int>, buckets: map<real, nat>)
    requires size > 0
  {
    Binned(u, i, freq, lo, size, centers, idxs, buckets) && idxs == BucketList(u[..i], lo, size)
  }

  /** One turn of the bucketing loop keeps `Progress`: `centers2`, `idxs2`
      and `buckets2` are the state after the turn, where a new centre is
      appended to the keys and an existing one only grows. */
  lemma BinStep(u: seq<real>, i: nat, freq: map<real, nat>, lo: real, size: int,
                centers: seq<real>, idxs: seq<int>, buckets: map<real, nat>,
                centers2: seq<real>, idxs2: seq<int>, buckets2: map<real, nat>)
    requires size > 0 && i < |u| && StrictlyIncreasing(u)
    requires 0 <= BucketIndex(u[i], lo, size) <= NumBuckets
    requires Progress(u, i, freq, lo, size, centers, idxs, buckets)
    requires var c := Center(lo, BucketIndex(u[i], lo, size), size);
      buckets2 == buckets[c := Get(buckets, c) + Get(freq, u[i])] &&
      (c in buckets ==> centers2 == centers && idxs2 == idxs) &&
      (c !in buckets ==> centers2 == centers + [c] && idxs2 == idxs + [BucketIndex(u[i], lo, size)])
    ensures Progress(u, i + 1, freq, lo, size, centers2, idxs2, buckets2)
  {
    ListStep(u, i, freq, lo, size, centers, idxs, buckets, idxs2);
    if Center(lo, BucketIndex(u[i], lo, size), size) in buckets {
      BinnedJoin(u, i, freq, lo, size, centers, idxs, buckets);
    } else {
      var c := Center(lo, BucketIndex(u[i], lo, size), size);
      assert buckets2 == buckets[c := Get(freq, u[i])];
      BinnedOpen(u, i, freq, lo, size, centers, idxs, buckets);
    }
  }

  /** `Object.entries(buckets).map(...)`: one point per key, in key order. */
  function PointsOf(centers: seq<real>, buckets: map<real, nat>): (points: seq<Point>)
    ensures |points| == |centers|
    ensures forall j :: 0 <= j < |centers| ==> points[j] == Point(centers[j], Get(buckets, centers[j]))
  {
    seq(|centers|, j requires 0 <= j < |centers| => Point(centers[j], Get(buckets, centers[j])))
  }

  /** The outcome of bucketing `u`: at most 51 points, in ascending order
      of centre, each the centre of one of the buckets `idxs` and holding the
      counts of the outcomes in it; every listed bucket holds an outcome and
      every outcome's bucket is listed, and the points together hold every
      count. */
  ghost predicate Bucketed(u: seq<real>, freq: map<real, nat>, lo: real, size: int,
                           points: seq<Point>, idxs: seq<int>)
    requires size > 0
  {
    |points| == |idxs| <= NumBuckets + 1 &&
    (forall j :: 0 <= j < |points| ==>
       0 <= idxs[j] <= NumBuckets &&
       points[j] == Point(Center(lo, idxs[j], size), BucketTotal(u, freq, lo, size, idxs[j]))) &&
    (forall k :: 0 <= k < |u| ==> BucketIndex(u[k], lo, size) in idxs) &&
    Used(u, |u|, lo, size, idxs) &&
    Ascends(points) &&
    SumYs(points) == SumOver(u, freq)
  }

  /** Once every outcome is binned, the points ascend, number at most 51,
      each holds its bucket's total, and together they hold every count. */
  lemma BinnedDone(u: seq<real>, freq: map<real, nat>, lo: real, size: int,
                   centers: seq<real>, idxs: seq<int>, buckets: map<real, nat>)
    requires size > 0 && Progress(u, |u|, freq, lo, size, centers, idxs, buckets)
    ensures idxs == BucketList(u, lo, size)
    ensures Bucketed(u, freq, lo, size, PointsOf(centers, buckets), idxs)
  {
    assert u[..|u|] == u;
    BucketListUsed(u, lo, size);
    CentersIncrease(centers, idxs, lo, size);
    SumYsTable(PointsOf(centers, buckets), centers, buckets);
    IncreasingIntsBounded(idxs, 0, NumBuckets);
  }

  /** `Math.max(...dataPoints.map(p => p.y))`: the height of the tallest
      point. */
  function MaxY(points: seq<Point>): (m: nat)
    requires points != []
    ensures forall j :: 0 <= j < |points| ==> points[j].y <= m
    ensures exists j :: 0 <= j < |points| && points[j].y == m
  {
    if |points| == 1 then points[0].y
    else
      var rest := MaxY(points[1..]);
      if points[0].y >= rest then points[0].y else rest
  }

  /** `dataPoints.findIndex(p => p.y === maxCount)`: the first point of that
      height, or -1 when there is none. */
  function PeakIndex(points: seq<Point>, top: nat): (r: int)
    ensures -1 <= r < |points|
    ensures r == -1 <==> forall j :: 0 <= j < |points| ==> points[j].y != top
    ensures r >= 0 ==> points[r].y == top && forall j :: 0 <= j < r ==> points[j].y != top
  {
    if points == [] then -1
    else if points[0].y == top then 0
    else
      var r := PeakIndex(points[1..], top);
      if r == -1 then -1 else r + 1
  }

  // ---------------------------------------------------------------------------
  // the whole chart

  /** What the chart shows: its points, the height the y axis is scaled to,
      the mode with its count (the "peak" label), the smallest and largest
      outcome, and the point drawn as the peak. */
  datatype Plot = Plot(points: seq<Point>, maxCount: nat, mode: real, peakCount: nat,
                       minVal: real, maxVal: real, peakIndex: int)

  /** The data half of `buildHistogramAsync`. An empty `values` makes the
      source fail on `dataPoints[0].x`, so the caller never passes one. */
  method Build(values: seq<real>) returns (h: Plot)
    requires values != []
    ensures Extremes(values, h.minVal, h.maxVal)
    ensures IsMode(values, h.mode, h.peakCount)
    ensures PeakAt(h.points, h.maxCount, h.peakIndex)
    ensures Charted(values, Ascending(values), h.points, h.maxCount, h.peakCount)
  {
    var freq, maxCount, mode := Frequencies(values);
    var u := Ascending(values);
    AscendingEnds(values, u);
    var points, top := Chart(values, u, freq, maxCount, mode);
    var peak := PeakIndex(points, top);
    PeakFound(points, top);
    h := Plot(points, top, mode, Get(freq, mode), u[0], u[|u| - 1], peak);
  }

  /** The frequency table of `values`: each outcome with how often it
      occurs. */
  ghost function CountsOf(values: seq<real>): map<real, nat>
  {
    map x | x in values :: Count(values, x)
  }

  /** A table that counts every outcome and has no other key is the
      frequency table. */
  lemma TableIsCounts(values: seq<real>, freq: map<real, nat>)
    requires forall x :: Get(freq, x) == Count(values, x)
    requires forall x :: x in freq <==> x in values
    ensures freq == CountsOf(values)
  {
    var counts := CountsOf(values);
    forall x ensures x in freq.Keys <==> x in counts.Keys {
      assert x in counts.Keys <==> x in values;
    }
    assert freq.Keys == counts.Keys;
    forall x | x in freq ensures freq[x] == counts[x] {
      assert Get(freq, x) == freq[x];
    }
  }

  /** What the chart's points and axis height are, given the distinct
      outcomes `u` in ascending order and the mode's count: the heights add up
      to the number of outcomes, the points ascend, the axis reaches the
      tallest point; with at most 60 distinct outcomes there is one point per
      outcome, at its count, and the axis reaches the mode's count; with more,
      the points are the used buckets of the 50-way split (at most 51), each
      at its centre with the number of outcomes that fall in it, and every
      outcome's bucket is among them. */
  ghost predicate Charted(values: seq<real>, u: seq<real>, points: seq<Point>, top: nat, modeCount: nat)
  {
    SumYs(points) == |values| && Ascends(points) &&
    (forall j :: 0 <= j < |points| ==> points[j].y <= top) &&
    (exists j :: 0 <= j < |points| && points[j].y == top) &&
    (|u| <= ExactLimit ==>
      |points| == |u| && top == modeCount &&
      forall j :: 0 <= j < |u| ==> points[j] == Point(u[j], Count(values, u[j]))) &&
    (|u| > ExactLimit ==>
      u[0] <= u[|u| - 1] &&
      Bucketed(u, CountsOf(values), u[0], BucketSize(u[|u| - 1] - u[0]), points,
               BucketList(u, u[0], BucketSize(u[|u| - 1] - u[0]))) &&
      AllPlotted(points, u[0], BucketSize(u[|u| - 1] - u[0]), values))
  }

  /** The points of the chart and the height of its y axis: one point per
      distinct outcome when there are at most 60 of them, and one per bucket
      otherwise. */
  method Chart(values: seq<real>, u: seq<real>, freq: map<real, nat>, maxCount: nat, mode: real)
      returns (points: seq<Point>, top: nat)
    requires u != [] && StrictlyIncreasing(u) && forall x :: x in u <==> x in values
    requires forall x :: Get(freq, x) == Count(values, x)
    requires forall x :: x in freq <==> x in values
    requires IsMode(values, mode, maxCount)
    ensures Charted(values, u, points, top, maxCount)
  {
    var lo := u[0];
    var hi := u[|u| - 1];
    assert lo <= hi;
    if |u| > ExactLimit {
      points := Bucket(u, freq);
      ChartedBuckets(values, u, freq, points, maxCount);
      top := MaxY(points);
    } else {
      points := ExactPoints(u, freq);
      top := maxCount;
      ChartedExact(values, u, freq, maxCount, mode);
    }
  }

  /** The bucketing branch draws the chart `Charted` describes, with the
      axis scaled to the tallest bucket. */
  lemma ChartedBuckets(values: seq<real>, u: seq<real>, freq: map<real, nat>, points: seq<Point>, modeCount: nat)
    requires u != [] && StrictlyIncreasing(u) && |u| > ExactLimit && forall x :: x in u <==> x in values
    requires forall x :: Get(freq, x) == Count(values, x)
    requires forall x :: x in freq <==> x in values
    requires BucketSize(u[|u| - 1] - u[0]) > 0
    requires Bucketed(u, freq, u[0], BucketSize(u[|u| - 1] - u[0]), points, BucketList(u, u[0], BucketSize(u[|u| - 1] - u[0])))
    ensures points != [] && Charted(values, u, points, MaxY(points), modeCount)
  {
    var lo, size := u[0], BucketSize(u[|u| - 1] - u[0]);
    var idxs := BucketList(u, lo, size);
    TableIsCounts(values, freq);
    assert BucketIndex(u[0], lo, size) in idxs;
    BucketsCover(values, u, points, idxs, lo, size);
    TotalIsLength(values, u, freq);
  }

  /** Without bucketing the chart is one point per distinct outcome at its
      count, with the axis scaled to the mode's count. */
  lemma ChartedExact(values: seq<real>, u: seq<real>, freq: map<real, nat>, maxCount: nat, mode: real)
    requires u != [] && StrictlyIncreasing(u) && |u| <= ExactLimit && forall x :: x in u <==> x in values
    requires forall x :: Get(freq, x) == Count(values, x)
    requires IsMode(values, mode, maxCount)
    ensures Charted(values, u, ExactPoints(u, freq), maxCount, maxCount)
  {
    var points := ExactPoints(u, freq);
    ExactPeak(values, u, freq, maxCount, mode);
    SumYsTable(points, u, freq);
    TotalIsLength(values, u, freq);
  }

  /** The x coordinates strictly increase. */
  ghost predicate Ascends(points: seq<Point>)
  {
    forall j, l :: 0 <= j < l < |points| ==> points[j].x < points[l].x
  }

  /** `lo` and `hi` are outcomes, and every outcome lies between them. */
  ghost predicate Extremes(values: seq<real>, lo: real, hi: real)
  {
    lo in values && hi in values && forall k :: 0 <= k < |values| ==> lo <= values[k] <= hi
  }

  /** Point `idx` reaches `top`, no point is taller, and no earlier point
      reaches it. */
  ghost predicate PeakAt(points: seq<Point>, top: nat, idx: int)
  {
    0 <= idx < |points| && points[idx].y == top &&
    (forall j :: 0 <= j < |points| ==> points[j].y <= top) &&
    forall j :: 0 <= j < idx ==> points[j].y < top
  }

  /** When some point reaches the tallest height, `findIndex` finds the
      first such point. */
  lemma PeakFound(points: seq<Point>, top: nat)
    requires forall j :: 0 <= j < |points| ==> points[j].y <= top
    requires exists j :: 0 <= j < |points| && points[j].y == top
    ensures PeakAt(points, top, PeakIndex(points, top))
  {}

  /** The first and last distinct outcomes are the smallest and the largest
      outcome. */
  lemma AscendingEnds(values: seq<real>, u: seq<real>)
    requires values != [] && StrictlyIncreasing(u)
    requires forall x :: x in u <==> x in values
    ensures u != [] && Extremes(values, u[0], u[|u| - 1])
  {
    var first := values[0];
    assert first in values;
    assert first in u;
    assert u[0] in u && u[|u| - 1] in u;
    forall k | 0 <= k < |values| ensures u[0] <= values[k] <= u[|u| - 1] {
      var x := values[k];
      assert x in values;
      var j :| 0 <= j < |u| && u[j] == x;
    }
  }

  /** The counts of the distinct outcomes add up to the number of
      outcomes. */
  lemma TotalIsLength(values: seq<real>, u: seq<real>, freq: map<real, nat>)
    requires StrictlyIncreasing(u) && forall x :: x in u <==> x in values
    requires forall x :: Get(freq, x) == Count(values, x)
    ensures SumOver(u, freq) == |values|
  {
    assert Distinct(u);
    SumOverCounts(u, freq, values);
    forall k | 0 <= k < |values| ensures values[k] in u {
      var x := values[k];
      assert x in values;
    }
    SumCountsIsLength(u, values);
  }

  /** Without bucketing, the running maximum is the height of the mode's
      point and no point is taller. */
  lemma ExactPeak(values: seq<real>, u: seq<real>, freq: map<real, nat>, maxCount: nat, mode: real)
    requires forall x :: x in u <==> x in values
    requires forall x :: Get(freq, x) == Count(values, x)
    requires IsMode(values, mode, maxCount)
    ensures var points := ExactPoints(u, freq);
      (forall j :: 0 <= j < |points| ==> points[j].y <= maxCount) &&
      (exists j :: 0 <= j < |points| && points[j].y == maxCount)
  {
    var points := ExactPoints(u, freq);
    forall j | 0 <= j < |points| ensures points[j].y <= maxCount {
      assert u[j] in u;
      var k :| 0 <= k < |values| && values[k] == u[j];
    }
    var k :| 0 <= k < |values| && values[k] == mode && FirstToReach(values, k, maxCount);
    assert mode in values;
    var j :| 0 <= j < |u| && u[j] == mode;
    assert points[j].y == maxCount;
  }

  /** The centre of the bucket `v` falls in is one of the points. */
  ghost predicate Plotted(points: seq<Point>, lo: real, size: int, v: real)
    requires size > 0
  {
    exists j :: 0 <= j < |points| && points[j].x == Center(lo, BucketIndex(v, lo, size), size)
  }

  /** Every outcome's bucket centre is among the points. */
  ghost predicate AllPlotted(points: seq<Point>, lo: real, size: int, values: seq<real>)
    requires size > 0
  {
    forall k :: 0 <= k < |values| ==> Plotted(points, lo, size, values[k])
  }

  /** Every outcome's bucket centre is among the plotted points. */
  lemma BucketsCover(values: seq<real>, u: seq<real>, points: seq<Point>, idxs: seq<int>, lo: real, size: int)
    requires size > 0 && |points| == |idxs| && forall x :: x in u <==> x in values
    requires forall j :: 0 <= j < |points| ==> points[j].x == Center(lo, idxs[j], size)
    requires forall k :: 0 <= k < |u| ==> BucketIndex(u[k], lo, size) in idxs
    ensures AllPlotted(points, lo, size, values)
  {
    forall k | 0 <= k < |values| ensures Plotted(points, lo, size, values[k]) {
      var x := values[k];
      assert x in values;
      var m :| 0 <= m < |u| && u[m] == x;
      assert BucketIndex(u[m], lo, size) in idxs;
      var j :| 0 <= j < |idxs| && idxs[j] == BucketIndex(u[m], lo, size);
      assert points[j].x == Center(lo, BucketIndex(values[k], lo, size), size);
    }
  }

  /** Rolls 1, 1, 1, 2, 3: three distinct outcomes, so `Build`'s contract
      leaves one possible chart, with one point per outcome at its count. */
  lemma Example(values: seq<real>, points: seq<Point>, top: nat, modeCount: nat)
    requires values == [1.0, 1.0, 1.0, 2.0, 3.0]
    requires Charted(values, Ascending(values), points, top, modeCount)
    ensures points == [Point(1.0, 3), Point(2.0, 1), Point(3.0, 1)]
  {
    ExampleCounts(values);
    ExampleOutcomes(values);
    var u := Ascending(values);
    assert |points| == 3;
    assert points[0] == Point(u[0], Count(values, u[0]));
    assert points[1] == Point(u[1], Count(values, u[1]));
    assert points[2] == Point(u[2], Count(values, u[2]));
  }

  lemma ExampleCounts(values: seq<real>)
    requires values == [1.0, 1.0, 1.0, 2.0, 3.0]
    ensures Count(values, 1.0) == 3 && Count(values, 2.0) == 1 && Count(values, 3.0) == 1
  {
    var s0, s1, s2, s3, s4 := values[..0], values[..1], values[..2], values[..3], values[..4];
    assert s0 == [] && s1[..0] == s0 && s2[..1] == s1 && s3[..2] == s2 && s4[..3] == s3 && values[..4] == s4;
    assert Count(s1, 1.0) == 1 && Count(s1, 2.0) == 0 && Count(s1, 3.0) == 0;
    assert Count(s2, 1.0) == 2 && Count(s2, 2.0) == 0 && Count(s2, 3.0) == 0;
    assert Count(s3, 1.0) == 3 && Count(s3, 2.0) == 0 && Count(s3, 3.0) == 0;
    assert Count(s4, 1.0) == 3 && Count(s4, 2.0) == 1 && Count(s4, 3.0) == 0;
  }

  lemma ExampleOutcomes(values: seq<real>)
    requires values == [1.0, 1.0, 1.0, 2.0, 3.0]
    ensures Ascending(values) == [1.0, 2.0, 3.0]
  {
    var u := Ascending(values);
    var expected := [1.0, 2.0, 3.0];
    forall x ensures x in u <==> x in expected {
      assert x in values <==> x in expected;
    }
    IncreasingUnique(u, expected);
  }
}
