/** The dice engine: the advantage factor, single dice, `NdM` rolls and the
    batch runner (dice-engine.js:6-74, 145-156; code.py:6-33, 104-110).
    Randomness is an input: the engine reads uniform draws from a fixed
    stream, one per die face chosen, and remembers how many it has used. */
module Dice {
  import opened Wrappers
  import opened Errors
  import opened Sequences

  /** A value of `Math.random()`: at least 0 and below 1. */
  type Uniform = u: real | 0.0 <= u < 1.0

  /** Converting a number to an integer: `Math.floor` in JavaScript, `int()`
      (towards zero) in Python. */
  function ToInt(dialect: Dialect, x: real): (r: int)
    ensures dialect == JavaScript || x >= 0.0 ==> r as real <= x < r as real + 1.0
    ensures dialect == Python && x < 0.0 ==> r as real - 1.0 < x <= r as real
  {
    if dialect == JavaScript || x >= 0.0 || x.Floor as real == x then x.Floor else x.Floor + 1
  }

  /** Both conversions leave an integer alone, so converting twice is
      converting once. */
  lemma ToIntOfInt(dialect: Dialect, n: int)
    ensures ToInt(dialect, n as real) == n
  {
  }

  /** The two conversions disagree on negative fractions: `roll(-0.5, 6)`
      asks for -1 dice in JavaScript and for 0 in Python. */
  lemma ToIntDialectsDiffer()
    ensures ToInt(JavaScript, -0.5) == -1 && ToInt(Python, -0.5) == 0
  {
  }

  /** `Math.floor(Math.random() * sides) + 1`: the face a draw selects. */
  function Face(u: Uniform, sides: int): (r: int)
    requires sides >= 1
    ensures 1 <= r <= sides
  {
    var x := u * sides as real;
    ScaledDraw(u, sides as real);
    x.Floor + 1
  }

  /** A draw in `[0, 1)` scaled by a positive number stays below it. */
  lemma ScaledDraw(u: real, n: real)
    requires 0.0 <= u < 1.0 && n > 0.0
    ensures 0.0 <= u * n < n
  {
    assert u * n < 1.0 * n;
  }

  /** `1 + Math.abs(ADV)`: how many draws a die takes. */
  function Trials(adv: int): nat
  {
    1 + (if adv < 0 then -adv else adv)
  }

  /** The faces of `count` draws of the stream, starting at draw `from`. */
  function Faces(random: nat -> Uniform, from: nat, count: nat, sides: int): (r: seq<int>)
    requires sides >= 1
    ensures |r| == count
    ensures forall k :: 0 <= k < count ==> r[k] == Face(random(from + k), sides)
  {
    if count == 0 then [] else Faces(random, from, count - 1, sides) + [Face(random(from + count - 1), sides)]
  }

  /** `Math.max(...rolls)` */
  function Best(rolls: seq<int>): int
    requires |rolls| > 0
  {
    if |rolls| == 1 then rolls[0]
    else
      var rest := Best(rolls[1..]);
      if rolls[0] >= rest then rolls[0] else rest
  }

  /** `Math.min(...rolls)` */
  function Worst(rolls: seq<int>): int
    requires |rolls| > 0
  {
    if |rolls| == 1 then rolls[0]
    else
      var rest := Worst(rolls[1..]);
      if rolls[0] <= rest then rolls[0] else rest
  }

  /** The best of the draws is one of them and no draw beats it. */
  lemma {:induction false} BestIsMaximum(rolls: seq<int>)
    requires |rolls| > 0
    ensures Best(rolls) in rolls
    ensures forall k :: 0 <= k < |rolls| ==> rolls[k] <= Best(rolls)
  {
    if |rolls| > 1 {
      BestIsMaximum(rolls[1..]);
      assert forall k :: 1 <= k < |rolls| ==> rolls[k] == rolls[1..][k - 1];
    }
  }

  /** The worst of the draws is one of them and no draw is below it. */
  lemma {:induction false} WorstIsMinimum(rolls: seq<int>)
    requires |rolls| > 0
    ensures Worst(rolls) in rolls
    ensures forall k :: 0 <= k < |rolls| ==> Worst(rolls) <= rolls[k]
  {
    if |rolls| > 1 {
      WorstIsMinimum(rolls[1..]);
      assert forall k :: 1 <= k < |rolls| ==> rolls[k] == rolls[1..][k - 1];
    }
  }

  /** The best draw under advantage or a plain roll, the worst under
      disadvantage. */
  function Keep(adv: int, rolls: seq<int>): int
    requires |rolls| > 0
  {
    if adv >= 0 then Best(rolls) else Worst(rolls)
  }

  /** One die of `sides` faces under advantage `adv`, reading the stream from
      draw `from` on. */
  function DieValue(random: nat -> Uniform, from: nat, adv: int, sides: int): (r: int)
    requires sides >= 1
    ensures adv == 0 ==> r == Face(random(from), sides)
  {
    Keep(adv, Faces(random, from, Trials(adv), sides))
  }

  /** `n` such dice in a row, added up. */
  function RollValue(random: nat -> Uniform, from: nat, adv: int, n: nat, sides: int): (r: int)
    requires sides >= 1
    ensures adv == 0 ==> r == FaceSum(random, from, n, sides)
    decreases n
  {
    if n == 0 then 0
    else
      var rest := RollValue(random, from, adv, n - 1, sides);
      var die := DieValue(random, from + RollDraws(n - 1, adv), adv, sides);
      PlainRollStep(random, from, adv, n, sides);
      rest + die
  }

  /** The faces of `count` draws from draw `from` on, added up. */
  function FaceSum(random: nat -> Uniform, from: nat, count: nat, sides: int): int
    requires sides >= 1
  {
    if count == 0 then 0 else FaceSum(random, from, count - 1, sides) + Face(random(from + count - 1), sides)
  }

  /** Without advantage the `n`-th die is the `n`-th draw. */
  lemma PlainRollStep(random: nat -> Uniform, from: nat, adv: int, n: nat, sides: int)
    requires sides >= 1 && n > 0
    ensures adv == 0 ==>
      DieValue(random, from + RollDraws(n - 1, adv), adv, sides) == Face(random(from + n - 1), sides)
  {
    RollDrawsProduct(n - 1, adv);
  }

  /** A die shows one of its faces, the best of its draws under advantage and
      the worst under disadvantage; a one-sided die always shows 1. */
  lemma DieBounds(random: nat -> Uniform, from: nat, adv: int, sides: int)
    requires sides >= 1
    ensures 1 <= DieValue(random, from, adv, sides) <= sides
    ensures DieValue(random, from, adv, sides) in Faces(random, from, Trials(adv), sides)
    ensures var faces := Faces(random, from, Trials(adv), sides);
      adv >= 0 ==> forall k :: 0 <= k < |faces| ==> faces[k] <= DieValue(random, from, adv, sides)
    ensures var faces := Faces(random, from, Trials(adv), sides);
      adv < 0 ==> forall k :: 0 <= k < |faces| ==> DieValue(random, from, adv, sides) <= faces[k]
    ensures sides == 1 ==> DieValue(random, from, adv, sides) == 1
  {
    var faces := Faces(random, from, Trials(adv), sides);
    BestIsMaximum(faces);
    WorstIsMinimum(faces);
  }

  /** More advantage never hurts and more disadvantage never helps: one more
      draw on the same stream keeps a best at least as high and a worst at
      least as low. */
  lemma MoreTrialsMonotone(random: nat -> Uniform, from: nat, adv: int, sides: int)
    requires sides >= 1
    ensures adv >= 0 ==> DieValue(random, from, adv, sides) <= DieValue(random, from, adv + 1, sides)
    ensures adv <= 0 ==> DieValue(random, from, adv - 1, sides) <= DieValue(random, from, adv, sides)
  {
    var t := Trials(adv);
    var faces := Faces(random, from, t, sides);
    var v := DieValue(random, from, adv, sides);
    DieBounds(random, from, adv, sides);
    var k :| 0 <= k < t && faces[k] == v;
    if adv >= 0 {
      var more := Faces(random, from, t + 1, sides);
      assert more[k] == v;
      BestIsMaximum(more);
    }
    if adv <= 0 {
      var more := Faces(random, from, t + 1, sides);
      assert more[k] == v;
      WorstIsMinimum(more);
    }
  }

  /** `roll(n, m)` lies between `n` (every die shows 1) and `n * m` (every
      die shows `m`); in particular `roll(0, m)` is 0. */
  lemma {:induction false} RollBounds(random: nat -> Uniform, from: nat, adv: int, n: nat, sides: int)
    requires sides >= 1
    ensures n <= RollValue(random, from, adv, n, sides) <= n * sides
    decreases n
  {
    if n > 0 {
      var prev := RollValue(random, from, adv, n - 1, sides);
      var die := DieValue(random, from + RollDraws(n - 1, adv), adv, sides);
      RollBounds(random, from, adv, n - 1, sides);
      DieRange(random, from + RollDraws(n - 1, adv), adv, sides);
      assert RollValue(random, from, adv, n, sides) == prev + die;
      assert n * sides == (n - 1) * sides + sides;
    }
  }

  lemma DieRange(random: nat -> Uniform, from: nat, adv: int, sides: int)
    requires sides >= 1
    ensures 1 <= DieValue(random, from, adv, sides) <= sides
  {
    DieBounds(random, from, adv, sides);
  }

  /** How many draws `n` dice take. */
  function RollDraws(n: nat, adv: int): nat
  {
    if n == 0 then 0 else Trials(adv) + RollDraws(n - 1, adv)
  }

  lemma {:induction false} RollDrawsProduct(n: nat, adv: int)
    ensures RollDraws(n, adv) == n * Trials(adv)
  {
    if n > 0 {
      RollDrawsProduct(n - 1, adv);
      assert n * Trials(adv) == (n - 1) * Trials(adv) + Trials(adv);
    }
  }

  /** The engine's mutable state: the global `ADV` and the position in the
      stream of draws. */
  class Engine {
    /** `ADV`: 0 a plain roll, > 0 advantage, < 0 disadvantage. */
    var adv: int
    /** How many draws of `random` the engine has used. */
    var used: nat
    const dialect: Dialect
    /** The successive values `Math.random()` returns. */
    const random: nat -> Uniform

    constructor (dialect: Dialect, random: nat -> Uniform)
      ensures this.dialect == dialect && this.random == random
      ensures adv == 0 && used == 0
    {
      this.dialect := dialect;
      this.random := random;
      adv := 0;
      used := 0;
    }

    /** `setAdvantage(factor)` / `set_advantage(factor)` */
    method SetAdvantage(factor: real)
      modifies this
      ensures adv == ToInt(dialect, factor) && used == old(used)
    {
      adv := ToInt(dialect, factor);
    }

    /** `getAdvantage()`: the factor last set. */
    method GetAdvantage() returns (f: int)
      ensures f == adv
    {
      f := adv;
    }

    /** `dieWithAdv(sides)`: `1 + |ADV|` draws, the best or the worst kept. */
    method DieWithAdv(sides: real) returns (r: Result<int, Error>)
      modifies this
      ensures adv == old(adv)
      ensures ToInt(dialect, sides) < 1 ==> r == Err(InvalidDieSides) && used == old(used)
      ensures ToInt(dialect, sides) >= 1 ==>
        && r == Ok(DieValue(random, old(used), adv, ToInt(dialect, sides)))
        && used == old(used) + Trials(adv)
    {
      var s := ToInt(dialect, sides);
      if s < 1 {
        return Err(InvalidDieSides);
      }
      var v := Die(s);
      r := Ok(v);
    }

    /** The body of `dieWithAdv` once `sides` is a whole number of at least 1:
        the draws are pushed one by one, then the best or the worst is kept. */
    method Die(sides: int) returns (v: int)
      requires sides >= 1
      modifies this
      ensures adv == old(adv)
      ensures v == DieValue(random, old(used), adv, sides)
      ensures used == old(used) + Trials(adv)
    {
      var trials := Trials(adv);
      var rolls: seq<int> := [];
      var i := 0;
      ghost var start := used;
      while i < trials
        invariant 0 <= i <= trials
        invariant adv == old(adv)
        invariant used == start + i
        invariant rolls == Faces(random, start, i, sides)
      {
        assert Faces(random, start, i + 1, sides) == Faces(random, start, i, sides) + [Face(random(start + i), sides)];
        rolls := rolls + [Face(random(used), sides)];
        used := used + 1;
        i := i + 1;
      }
      v := Keep(adv, rolls);
    }

    /** `d(n)`: one die of `n` faces. */
    method D(n: real) returns (r: Result<int, Error>)
      modifies this
      ensures adv == old(adv)
      ensures ToInt(dialect, n) < 1 ==> r == Err(InvalidDieSides) && used == old(used)
      ensures ToInt(dialect, n) >= 1 ==>
        && r == Ok(DieValue(random, old(used), adv, ToInt(dialect, n)))
        && used == old(used) + Trials(adv)
    {
      ToIntOfInt(dialect, ToInt(dialect, n));
      r := DieWithAdv(ToInt(dialect, n) as real);
    }

    /** `roll(n, m)`: `n` dice of `m` faces, added up. */
    method Roll(n: real, m: real) returns (r: Result<int, Error>)
      modifies this
      ensures adv == old(adv)
      ensures ToInt(dialect, n) < 0 || ToInt(dialect, m) < 1 ==> r == Err(InvalidDiceSpec) && used == old(used)
      ensures ToInt(dialect, n) >= 0 && ToInt(dialect, m) >= 1 ==>
        && r == Ok(RollValue(random, old(used), adv, ToInt(dialect, n), ToInt(dialect, m)))
        && used == old(used) + ToInt(dialect, n) * Trials(adv)
    {
      var count := ToInt(dialect, n);
      var sides := ToInt(dialect, m);
      if count < 0 || sides < 1 {
        return Err(InvalidDiceSpec);
      }
      // `dieWithAdv(m)` converts `m` again, which changes nothing.
      var total := RollDice(count, sides);
      RollDrawsProduct(count, adv);
      r := Ok(total);
    }

    /** The loop of `roll`: `count` dice of `sides` faces, added up. */
    method RollDice(count: nat, sides: int) returns (total: int)
      requires sides >= 1
      modifies this
      ensures adv == old(adv)
      ensures total == RollValue(random, old(used), adv, count, sides)
      ensures used == old(used) + RollDraws(count, adv)
    {
      total := 0;
      var i := 0;
      ghost var start := used;
      while i < count
        invariant 0 <= i <= count
        invariant adv == old(adv)
        invariant used == start + RollDraws(i, adv)
        invariant total == RollValue(random, start, adv, i, sides)
      {
        var die := Die(sides);
        total := total + die;
        i := i + 1;
      }
    }
  }

  // ---------------------------------------------------------------------------
  // evalMany

  /** What `evalMany` returns: `{ total, avg, values }`. */
  datatype Batch = Batch(total: real, avg: real, values: seq<real>)

  /** The total and average of the outcomes of `times` evaluations. */
  function Summarize(values: seq<real>, times: int): (b: Batch)
    ensures b.values == values && b.total == Sum(values)
  {
    var total := Sum(values);
    Batch(total, if times > 0 then total / times as real else 0.0, values)
  }

  /** When `times` evaluations each land between `lo` and `hi`, so does the
      average; the total lies between `times * lo` and `times * hi`. */
  lemma SummarizeBounds(values: seq<real>, times: int, lo: real, hi: real)
    requires times > 0 && |values| == times
    requires forall i :: 0 <= i < |values| ==> lo <= values[i] <= hi
    ensures times as real * lo <= Summarize(values, times).total <= times as real * hi
    ensures lo <= Summarize(values, times).avg <= hi
  {
    SumBounds(values, lo, hi);
    var t := times as real;
    var total := Sum(values);
    assert total / t >= lo by {
      assert total >= t * lo;
    }
    assert total / t <= hi by {
      assert total <= t * hi;
    }
  }

  /** `evalMany(expr, times)`. The `i`-th evaluation of `expr` is
      `evalOnce(expr, i)`: it stands for one run of the host evaluator on the
      normal form, with whatever draws the engine had left by then. The first
      failure propagates and no partial result is returned. */
  method EvalMany(expr: string, times: int, evalOnce: (string, nat) -> Result<real, Error>)
    returns (r: Result<Batch, Error>)
    ensures r.Err? <==> exists i :: 0 <= i < times && evalOnce(expr, i).Err?
    ensures r.Err? ==> exists i :: (
      && 0 <= i < times && evalOnce(expr, i) == Err(r.error)
      && forall k :: 0 <= k < i ==> evalOnce(expr, k).Ok?)
    ensures r.Ok? ==> |r.value.values| == (if times > 0 then times else 0)
    ensures r.Ok? ==> forall i :: 0 <= i < |r.value.values| ==> evalOnce(expr, i) == Ok(r.value.values[i])
    ensures r.Ok? ==> r.value == Summarize(r.value.values, times)
  {
    var values: seq<real> := [];
    var i := 0;
    while i < times
      invariant 0 <= i <= (if times > 0 then times else 0)
      invariant |values| == i
      invariant forall k :: 0 <= k < i ==> evalOnce(expr, k) == Ok(values[k])
    {
      var outcome := evalOnce(expr, i);
      if outcome.Err? {
        return Err(outcome.error);
      }
      values := values + [outcome.value];
      i := i + 1;
    }
    r := Ok(Summarize(values, times));
  }
}
