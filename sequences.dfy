/** Sums, counts, extrema and sorting over sequences of outcomes. The
    statistics and the histogram share these definitions. */
module Sequences {

  /** The sum of a sequence, `reduce((a, b) => a + b, 0)`. */
  function Sum(s: seq<real>): real
  {
    if s == [] then 0.0 else Sum(s[..|s| - 1]) + s[|s| - 1]
  }

  /** How many times `x` occurs in `s`. */
  function Count(s: seq<real>, x: real): nat
  {
    if s == [] then 0 else Count(s[..|s| - 1], x) + (if s[|s| - 1] == x then 1 else 0)
  }

  /** `Math.min(...s)`: an element of `s` no larger than any other. */
  function Min(s: seq<real>): (m: real)
    requires |s| > 0
    ensures m in s
    ensures forall i :: 0 <= i < |s| ==> m <= s[i]
  {
    if |s| == 1 then s[0]
    else
      var rest := Min(s[1..]);
      assert forall i :: 1 <= i < |s| ==> s[i] == s[1..][i - 1];
      if s[0] <= rest then s[0] else rest
  }

  /** `Math.max(...s)`: an element of `s` no smaller than any other. */
  function Max(s: seq<real>): (m: real)
    requires |s| > 0
    ensures m in s
    ensures forall i :: 0 <= i < |s| ==> s[i] <= m
  {
    if |s| == 1 then s[0]
    else
      var rest := Max(s[1..]);
      assert forall i :: 1 <= i < |s| ==> s[i] == s[1..][i - 1];
      if s[0] >= rest then s[0] else rest
  }

  ghost predicate Sorted(s: seq<real>)
  {
    forall i, j :: 0 <= i < j < |s| ==> s[i] <= s[j]
  }

  ghost predicate StrictlyIncreasing(s: seq<real>)
  {
    forall i, j :: 0 <= i < j < |s| ==> s[i] < s[j]
  }

  ghost predicate Distinct(s: seq<real>)
  {
    forall i, j :: 0 <= i < j < |s| ==> s[i] != s[j]
  }

  /** Puts `x` in front of the first element of `s` that is not smaller. */
  function Insert(x: real, s: seq<real>): (r: seq<real>)
    requires Sorted(s)
    ensures Sorted(r)
    ensures multiset(r) == multiset(s) + multiset{x}
  {
    if s == [] || x <= s[0] then [x] + s
    else
      var tail := Insert(x, s[1..]);
      InsertBehind(x, s, tail);
      [s[0]] + tail
  }

  /** The step of `Insert` that keeps the head in front. */
  lemma InsertBehind(x: real, s: seq<real>, tail: seq<real>)
    requires Sorted(s) && s != [] && s[0] < x
    requires Sorted(tail) && multiset(tail) == multiset(s[1..]) + multiset{x}
    ensures Sorted([s[0]] + tail)
    ensures multiset([s[0]] + tail) == multiset(s) + multiset{x}
  {
    assert s == [s[0]] + s[1..];
    forall i | 0 <= i < |tail| ensures s[0] <= tail[i] {
      assert tail[i] in multiset(tail);
      assert tail[i] == x || tail[i] in multiset(s[1..]);
    }
  }

  /** The ascending copy `[...s].sort((a, b) => a - b)`, by insertion. */
  function Sort(s: seq<real>): (r: seq<real>)
    ensures Sorted(r)
    ensures multiset(r) == multiset(s)
    ensures |r| == |s|
  {
    if s == [] then []
    else
      assert s == [s[0]] + s[1..];
      var r := Insert(s[0], Sort(s[1..]));
      assert |r| == |multiset(r)|;
      r
  }

  /** Sorting an already sorted sequence changes nothing. */
  lemma {:induction false} SortOfSorted(s: seq<real>)
    requires Sorted(s)
    ensures Sort(s) == s
  {
    if s != [] {
      assert Sorted(s[1..]);
      SortOfSorted(s[1..]);
      assert s == [s[0]] + s[1..];
    }
  }

  /** Sorting keeps a sequence free of repetitions, so a sorted sequence of
      distinct values is strictly increasing. */
  lemma {:induction false} SortOfDistinct(s: seq<real>)
    requires Distinct(s)
    ensures StrictlyIncreasing(Sort(s))
  {
    if s != [] {
      assert Distinct(s[1..]);
      SortOfDistinct(s[1..]);
      var t := Sort(s[1..]);
      assert s == [s[0]] + s[1..];
      assert s[0] !in s[1..];
      assert s[0] !in multiset(t);
      assert s[0] !in t;
      InsertFresh(s[0], t);
      assert Sort(s) == Insert(s[0], t);
    }
  }

  lemma {:induction false} InsertFresh(x: real, t: seq<real>)
    requires Sorted(t) && StrictlyIncreasing(t) && x !in t
    ensures StrictlyIncreasing(Insert(x, t))
  {
    if t != [] && x > t[0] {
      assert StrictlyIncreasing(t[1..]);
      InsertFresh(x, t[1..]);
      var tail := Insert(x, t[1..]);
      forall i | 0 <= i < |tail| ensures t[0] < tail[i] {
        assert tail[i] in multiset(tail);
      }
      assert Insert(x, t) == [t[0]] + tail;
    } else if t != [] {
      assert x != t[0];
      assert Insert(x, t) == [x] + t;
    }
  }

  /** Every element of a sequence lies between its minimum and maximum, and so
      does its mean: `|s| * lo <= Sum(s) <= |s| * hi`. */
  lemma {:induction false} SumBounds(s: seq<real>, lo: real, hi: real)
    requires forall i :: 0 <= i < |s| ==> lo <= s[i] <= hi
    ensures |s| as real * lo <= Sum(s) <= |s| as real * hi
  {
    if s != [] {
      SumBounds(s[..|s| - 1], lo, hi);
    }
  }

  /** Sum of a constant sequence. */
  lemma {:induction false} SumConstant(s: seq<real>, c: real)
    requires forall i :: 0 <= i < |s| ==> s[i] == c
    ensures Sum(s) == |s| as real * c
  {
    if s != [] {
      SumConstant(s[..|s| - 1], c);
    }
  }

  lemma {:induction false} CountAppend(s: seq<real>, v: real, x: real)
    ensures Count(s + [v], x) == Count(s, x) + (if v == x then 1 else 0)
  {
    assert (s + [v])[..|s|] == s;
  }

  /** A prefix holds no more copies of `x` than the whole sequence. */
  lemma {:induction false} CountPrefix(s: seq<real>, k: nat, x: real)
    requires k <= |s|
    ensures Count(s[..k], x) <= Count(s, x)
  {
    if k < |s| {
      assert s[..|s|][..|s| - 1] == s[..|s| - 1];
      assert s[..k] == s[..|s| - 1][..k];
      CountPrefix(s[..|s| - 1], k, x);
    } else {
      assert s[..k] == s;
    }
  }

  lemma {:induction false} CountIn(s: seq<real>, x: real)
    ensures Count(s, x) > 0 <==> x in s
  {
    if s != [] {
      CountIn(s[..|s| - 1], x);
      assert s == s[..|s| - 1] + [s[|s| - 1]];
    }
  }

  /** `Get(m, k)`: the entry for `k`, or 0 when `m` has none. */
  function Get(m: map<real, nat>, k: real): nat
  {
    if k in m then m[k] else 0
  }

  /** The entries of `m` added up over the keys listed in `keys`. */
  function SumOver(keys: seq<real>, m: map<real, nat>): nat
  {
    if keys == [] then 0 else SumOver(keys[..|keys| - 1], m) + Get(m, keys[|keys| - 1])
  }

  /** How often the listed keys occur in `s`, added up. */
  function SumCounts(keys: seq<real>, s: seq<real>): nat
  {
    if keys == [] then 0 else SumCounts(keys[..|keys| - 1], s) + Count(s, keys[|keys| - 1])
  }

  lemma {:induction false} SumOverAppend(keys: seq<real>, x: real, m: map<real, nat>)
    ensures SumOver(keys + [x], m) == SumOver(keys, m) + Get(m, x)
  {
    assert (keys + [x])[..|keys|] == keys;
  }

  /** Changing an entry whose key is not listed leaves the sum alone. */
  lemma {:induction false} SumOverUpdateAbsent(keys: seq<real>, m: map<real, nat>, x: real, v: nat)
    requires x !in keys
    ensures SumOver(keys, m[x := v]) == SumOver(keys, m)
  {
    if keys != [] {
      assert x !in keys[..|keys| - 1];
      SumOverUpdateAbsent(keys[..|keys| - 1], m, x, v);
    }
  }

  /** Raising the entry of a key listed exactly once raises the sum by as much. */
  lemma {:induction false} SumOverUpdateOnce(keys: seq<real>, m: map<real, nat>, x: real, k: nat)
    requires Distinct(keys) && x in keys
    ensures SumOver(keys, m[x := Get(m, x) + k]) == SumOver(keys, m) + k
  {
    var init := keys[..|keys| - 1];
    assert Distinct(init);
    if keys[|keys| - 1] == x {
      assert x !in init;
      SumOverUpdateAbsent(init, m, x, Get(m, x) + k);
    } else {
      assert x in init by {
        var i :| 0 <= i < |keys| && keys[i] == x;
        assert init[i] == x;
      }
      SumOverUpdateOnce(init, m, x, k);
    }
  }

  /** Two maps that agree with the counts of `s` on the listed keys. */
  lemma {:induction false} SumOverCounts(keys: seq<real>, m: map<real, nat>, s: seq<real>)
    requires forall i :: 0 <= i < |keys| ==> Get(m, keys[i]) == Count(s, keys[i])
    ensures SumOver(keys, m) == SumCounts(keys, s)
  {
    if keys != [] {
      SumOverCounts(keys[..|keys| - 1], m, s);
    }
  }

  /** Counting one more element `v` adds one to the total over distinct keys that
      list `v`. */
  lemma {:induction false} SumCountsAppend(keys: seq<real>, s: seq<real>, v: real)
    requires Distinct(keys)
    ensures SumCounts(keys, s + [v]) == SumCounts(keys, s) + (if v in keys then 1 else 0)
  {
    if keys != [] {
      var init := keys[..|keys| - 1];
      var last := keys[|keys| - 1];
      assert Distinct(init);
      SumCountsAppend(init, s, v);
      CountAppend(s, v, last);
      assert keys == init + [last];
      if v == last {
        assert v !in init;
      }
    }
  }

  /** The counts of the distinct values of `s` add up to `|s|`. */
  lemma {:induction false} SumCountsIsLength(keys: seq<real>, s: seq<real>)
    requires Distinct(keys)
    requires forall i :: 0 <= i < |s| ==> s[i] in keys
    ensures SumCounts(keys, s) == |s|
  {
    if s == [] {
      SumCountsEmpty(keys);
    } else {
      var init := s[..|s| - 1];
      SumCountsIsLength(keys, init);
      SumCountsAppend(keys, init, s[|s| - 1]);
      assert s == init + [s[|s| - 1]];
    }
  }

  lemma {:induction false} SumCountsEmpty(keys: seq<real>)
    ensures SumCounts(keys, []) == 0
  {
    if keys != [] {
      SumCountsEmpty(keys[..|keys| - 1]);
    }
  }

  /** Two strictly increasing sequences with the same elements are equal:
      the ascending order of a set of numbers is unique. */
  lemma {:induction false} IncreasingUnique(a: seq<real>, b: seq<real>)
    requires StrictlyIncreasing(a) && StrictlyIncreasing(b)
    requires forall x :: x in a <==> x in b
    ensures a == b
  {
    assert a != [] ==> a[0] in a;
    assert b != [] ==> b[0] in b;
    if a != [] && b != [] {
      IncreasingSameHead(a, b);
      IncreasingSameTail(a, b);
      IncreasingUnique(a[1..], b[1..]);
      assert a == [a[0]] + a[1..] && b == [b[0]] + b[1..];
    }
  }

  /** Both start with the least element. */
  lemma IncreasingSameHead(a: seq<real>, b: seq<real>)
    requires StrictlyIncreasing(a) && StrictlyIncreasing(b)
    requires forall x :: x in a <==> x in b
    requires a != [] && b != []
    ensures a[0] == b[0]
  {
    assert a[0] in a && b[0] in b;
    var i :| 0 <= i < |a| && a[i] == b[0];
    var j :| 0 <= j < |b| && b[j] == a[0];
    assert a[0] <= a[i];
    assert b[0] <= b[j];
  }

  /** Dropping the common least element leaves the same elements. */
  lemma IncreasingSameTail(a: seq<real>, b: seq<real>)
    requires StrictlyIncreasing(a) && StrictlyIncreasing(b)
    requires forall x :: x in a <==> x in b
    requires a != [] && b != [] && a[0] == b[0]
    ensures forall x :: x in a[1..] <==> x in b[1..]
  {
    forall x | x in a[1..]
      ensures x in b[1..]
    {
      var i :| 1 <= i < |a| && a[i] == x;
      assert x in b && x != b[0];
      var j :| 0 <= j < |b| && b[j] == x;
      assert b[1..][j - 1] == x;
    }
    forall x | x in b[1..]
      ensures x in a[1..]
    {
      var j :| 1 <= j < |b| && b[j] == x;
      assert x in a && x != a[0];
      var i :| 0 <= i < |a| && a[i] == x;
      assert a[1..][i - 1] == x;
    }
  }

  /** Strictly increasing integers between `lo` and `hi` number at most
      `hi - lo + 1`. */
  lemma {:induction false} IncreasingIntsBounded(s: seq<int>, lo: int, hi: int)
    requires forall i, j :: 0 <= i < j < |s| ==> s[i] < s[j]
    requires forall i :: 0 <= i < |s| ==> lo <= s[i] <= hi
    requires lo <= hi + 1
    ensures |s| <= hi - lo + 1
  {
    if |s| > 1 {
      IncreasingIntsBounded(s[1..], s[0] + 1, hi);
    }
  }

  // ---------------------------------------------------------------------------
  // Strings in code-point order, as Python's `sorted` orders them

  /** `a < b` on strings: a proper prefix comes first, otherwise the first
      differing character decides. */
  predicate StrLess(a: string, b: string)
  {
    if a == [] then b != []
    else if b == [] then false
    else if a[0] != b[0] then a[0] < b[0]
    else StrLess(a[1..], b[1..])
  }

  lemma {:induction false} StrLessIrreflexive(a: string)
    ensures !StrLess(a, a)
  {
    if a != [] {
      StrLessIrreflexive(a[1..]);
    }
  }

  lemma {:induction false} StrLessTotal(a: string, b: string)
    ensures a == b || StrLess(a, b) || StrLess(b, a)
  {
    if a != [] && b != [] && a[0] == b[0] {
      StrLessTotal(a[1..], b[1..]);
      assert a == [a[0]] + a[1..] && b == [b[0]] + b[1..];
    }
  }

  lemma {:induction false} StrLessTransitive(a: string, b: string, c: string)
    requires StrLess(a, b) && StrLess(b, c)
    ensures StrLess(a, c)
  {
    if a != [] && a[0] == b[0] && b[0] == c[0] {
      StrLessTransitive(a[1..], b[1..], c[1..]);
    }
  }

  ghost predicate StrictlySorted(s: seq<string>)
  {
    forall i, j :: 0 <= i < j < |s| ==> StrLess(s[i], s[j])
  }

  /** Places `x` among the strictly sorted, distinct strings of `s`. */
  function InsertString(x: string, s: seq<string>): (r: seq<string>)
    requires StrictlySorted(s) && x !in s
    ensures StrictlySorted(r)
    ensures forall w :: w in r <==> w == x || w in s
    ensures |r| == |s| + 1
  {
    if s == [] then [x]
    else
      StrLessTotal(x, s[0]);
      if StrLess(x, s[0]) then
        forall j | 0 <= j < |s| ensures StrLess(x, s[j]) {
          if j > 0 {
            StrLessTransitive(x, s[0], s[j]);
          }
        }
        [x] + s
      else
        assert s == [s[0]] + s[1..];
        var tail := InsertString(x, s[1..]);
        forall j | 0 <= j < |tail| ensures StrLess(s[0], tail[j]) {
          assert tail[j] in tail;
        }
        [s[0]] + tail
  }

  /** `sorted(names)` for a sequence of distinct strings. */
  function SortStrings(s: seq<string>): (r: seq<string>)
    requires forall i, j :: 0 <= i < j < |s| ==> s[i] != s[j]
    ensures StrictlySorted(r)
    ensures forall w :: w in r <==> w in s
  {
    if s == [] then []
    else
      assert s[0] !in s[1..];
      InsertString(s[0], SortStrings(s[1..]))
  }

  /** The distinct elements of `s`, each at its first appearance, as a `Set`
      built from `s` enumerates them. */
  function Dedup(s: seq<string>): (r: seq<string>)
    ensures forall i, j :: 0 <= i < j < |r| ==> r[i] != r[j]
    ensures forall w :: w in r <==> w in s
  {
    if s == [] then []
    else
      var init := Dedup(s[..|s| - 1]);
      assert s == s[..|s| - 1] + [s[|s| - 1]];
      if s[|s| - 1] in init then init else init + [s[|s| - 1]]
  }

  /** Two strictly sorted lists with the same elements are the same list: the
      sorted order of a set is unique. */
  lemma {:induction false} StrictlySortedUnique(a: seq<string>, b: seq<string>)
    requires StrictlySorted(a) && StrictlySorted(b)
    requires forall w :: w in a <==> w in b
    ensures a == b
  {
    if a != [] {
      assert a[0] in b;
    }
    if b != [] {
      assert b[0] in a;
    }
    if a != [] && b != [] {
      if a[0] != b[0] {
        assert b[0] in a;
        assert a[0] in b;
        var i :| 0 <= i < |a| && a[i] == b[0];
        var j :| 0 <= j < |b| && b[j] == a[0];
        assert i > 0 && j > 0;
        StrLessTransitive(a[0], b[0], a[0]);
        StrLessIrreflexive(a[0]);
      }
      forall w ensures w in a[1..] <==> w in b[1..] {
        if w in a[1..] {
          var i :| 1 <= i < |a| && a[i] == w;
          assert StrLess(a[0], w);
          StrLessIrreflexive(w);
          assert w in b;
        }
        if w in b[1..] {
          var j :| 1 <= j < |b| && b[j] == w;
          assert StrLess(b[0], w);
          StrLessIrreflexive(w);
          assert w in a;
        }
      }
      StrictlySortedUnique(a[1..], b[1..]);
      assert a == [a[0]] + a[1..] && b == [b[0]] + b[1..];
    }
  }
}
