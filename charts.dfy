// The page's bookkeeping around the histogram: the repetition count read
// from the form, the bounded history of drawn charts and the set of charts
// selected for comparison.

module Charts {
  import opened Wrappers
  import Errors
  import Notation
  import Histogram
  import Curve

  // ---------------------------------------------------------------------------
  // Decimal numerals

  function DigitChar(d: nat): (c: char)
    requires d < 10
    ensures Notation.IsDigit(c) && (c as int) - ('0' as int) == d
  {
    ((d + '0' as int) as char)
  }

  /** The decimal numeral of `n`, without leading zeros, as JavaScript
      writes a non-negative integer into a string. */
  function Decimal(n: nat): (s: string)
    ensures s != [] && forall k :: 0 <= k < |s| ==> Notation.IsDigit(s[k])
    ensures |s| > 1 ==> s[0] != '0'
  {
    if n < 10 then [DigitChar(n)] else Decimal(n / 10) + [DigitChar(n % 10)]
  }

  function DigitOf(c: char): (d: nat)
    requires Notation.IsDigit(c)
    ensures d < 10 && DigitChar(d) == c
  {
    (c as int) - ('0' as int)
  }

  /** The number a run of decimal digits denotes. */
  function DigitsValue(ds: string): nat
    requires forall k :: 0 <= k < |ds| ==> Notation.IsDigit(ds[k])
  {
    if ds == [] then 0
    else DigitsValue(ds[..|ds| - 1]) * 10 + DigitOf(ds[|ds| - 1])
  }

  /** `parseInt(s, 10)`: leading white space is skipped, an optional sign is
      read, then the longest run of decimal digits; no digit at all gives
      `NaN` (here `None`). Anything after the digits is ignored. */
  function ParseInt(s: string): (r: Option<int>)
    ensures r.Some? ==> exists k :: 0 <= k < |s| && Notation.IsDigit(s[k])
  {
    var t := Notation.TrimStart(Errors.JavaScript, s);
    var negative := t != [] && t[0] == '-';
    var body := if t != [] && (t[0] == '-' || t[0] == '+') then t[1..] else t;
    var e := Notation.DigitsEnd(body, 0);
    if e == 0 then None
    else
      assert body[0] == s[|s| - |body|];
      var v: int := DigitsValue(body[..e]);
      Some(if negative then -v else v)
  }

  lemma {:induction false} DigitsValueOfDecimal(n: nat)
    ensures DigitsValue(Decimal(n)) == n
    decreases n
  {
    if n >= 10 {
      var s := Decimal(n);
      var front := Decimal(n / 10);
      assert s[..|s| - 1] == front;
      DigitsValueOfDecimal(n / 10);
    }
  }

  /** A numeral starts with a digit, which is not white space, so
      `parseInt` skips nothing before it. */
  lemma NumeralUntrimmed(s: string)
    requires s != [] && Notation.IsDigit(s[0])
    ensures Notation.TrimStart(Errors.JavaScript, s) == s
  {
    assert !Notation.IsSpace(Errors.JavaScript, s[0]);
  }

  /** Reading back the numeral of a count gives the count. */
  lemma ParseDecimal(n: nat)
    ensures ParseInt(Decimal(n)) == Some(n)
  {
    var s := Decimal(n);
    NumeralUntrimmed(s);
    assert s[0..|s|] == s;
    Notation.DigitsEndAt(s, 0, |s|);
    assert s[..|s|] == s;
    DigitsValueOfDecimal(n);
  }

  // ---------------------------------------------------------------------------
  // The repetition count

  const MaxTimes := 100000

  /** `Math.min(100000, Math.max(1, parseInt(text, 10) || 1))`: the number of
      rolls asked for in the form. Text that is not a number, and a parsed 0,
      both fall back to 1 (`NaN || 1` and `0 || 1`). */
  function Times(text: string): (times: int)
    ensures 1 <= times <= MaxTimes
    ensures match ParseInt(text)
      case None => times == 1
      case Some(n) =>
        (n <= 1 ==> times == 1) &&
        (1 <= n <= MaxTimes ==> times == n) &&
        (n >= MaxTimes ==> times == MaxTimes)
  {
    var n := ParseInt(text);
    var parsed := if n.None? || n.value == 0 then 1 else n.value;
    if parsed < 1 then 1 else if parsed > MaxTimes then MaxTimes else parsed
  }

  /** A count that is already in range survives being written out and read
      back from the form, so the clamp is idempotent. */
  lemma TimesOfDecimal(n: nat)
    requires 1 <= n <= MaxTimes
    ensures Times(Decimal(n)) == n
  {
    ParseDecimal(n);
  }

  // ---------------------------------------------------------------------------
  // The chart history

  const MaxCharts := 10

  /** `chartColors`, the colours charts are drawn in. */
  const ChartColors: seq<string> :=
    ["#7C3AED", "#F43F5E", "#10B981", "#F59E0B", "#3B82F6",
     "#EC4899", "#8B5CF6", "#06B6D4", "#EF4444", "#84CC16"]

  /** The colour a new chart gets when `count` charts are already kept:
      `chartColors[chartHistory.length % chartColors.length]`. */
  function ColorFor(count: nat): (color: string)
    ensures color in ChartColors
    ensures count < MaxCharts ==> color == ChartColors[count]
  {
    ChartColors[count % |ChartColors|]
  }

  /** Charts added to a history that has not yet dropped one get different
      colours; once the history is full, every new chart gets the first
      colour, because the index is taken before the oldest chart is
      dropped. */
  lemma ColorsOfHistory(i: nat, j: nat)
    requires i < j < MaxCharts
    ensures ColorFor(i) != ColorFor(j)
    ensures ColorFor(MaxCharts) == ChartColors[0]
  {
  }

  /** One drawn chart, as kept in `chartHistory`. */
  datatype Chart = Chart(id: int, expr: string, times: int,
                         dataPoints: seq<Histogram.Point>, linePath: Curve.Path, color: string)

  /** The history after `push(chart)` and, when it then holds more than 10
      charts, `shift()`: the newest charts are kept, in the order they were
      added, ending with the new one. */
  function Pushed(history: seq<Chart>, chart: Chart): (r: seq<Chart>)
    ensures r != [] && r[|r| - 1] == chart
    ensures |r| <= |history| + 1 && r == (history + [chart])[|history| + 1 - |r|..]
    ensures |history| < MaxCharts ==> r == history + [chart]
    ensures |history| <= MaxCharts ==> |r| == if |history| < MaxCharts then |history| + 1 else MaxCharts
  {
    var grown := history + [chart];
    if |grown| > MaxCharts then grown[1..] else grown
  }

  /** `selectedCharts` after `toggleChartSelection(id)`. */
  function Flip(selected: set<int>, id: int): (r: set<int>)
    ensures id in r <==> id !in selected
    ensures forall other :: other != id ==> (other in r <==> other in selected)
  {
    if id in selected then selected - {id} else selected + {id}
  }

  /** Toggling the same chart twice restores the selection. */
  lemma FlipTwice(selected: set<int>, id: int)
    ensures Flip(Flip(selected, id), id) == selected
  {
  }

  /** The compare button as `updateCompareButton` leaves it. */
  datatype Button = Button(disabled: bool, caption: string)

  function CompareButton(selected: set<int>): (b: Button)
    ensures b.disabled <==> |selected| < 2
    ensures !b.disabled ==> b.caption == "Сравнить (" + Decimal(|selected|) + ")"
    ensures b.disabled ==> b.caption == "Сравнить выбранные"
  {
    if |selected| < 2 then Button(true, "Сравнить выбранные")
    else Button(false, "Сравнить (" + Decimal(|selected|) + ")")
  }

  /** The page's `chartHistory` and `selectedCharts`. */
  class ChartHistory {
    var charts: seq<Chart>
    var selected: set<int>

    /** At most 10 charts are kept. */
    ghost predicate Valid()
      reads this
    {
      |charts| <= MaxCharts
    }

    constructor ()
      ensures Valid() && charts == [] && selected == {}
    {
      charts := [];
      selected := {};
    }

    /** `addToChartHistory`: the new chart goes last, coloured by how many
        charts were kept before it, and the oldest is dropped when there
        would be more than 10. The selection is left as it is, so it may
        still name a dropped chart. */
    method Add(id: int, expr: string, times: int, dataPoints: seq<Histogram.Point>, linePath: Curve.Path)
      requires Valid()
      modifies this
      ensures Valid()
      ensures charts == Pushed(old(charts), Chart(id, expr, times, dataPoints, linePath, ColorFor(|old(charts)|)))
      ensures selected == old(selected)
    {
      var colorIndex := |charts| % |ChartColors|;
      charts := charts + [Chart(id, expr, times, dataPoints, linePath, ChartColors[colorIndex])];
      if |charts| > MaxCharts {
        charts := charts[1..];
      }
    }

    /** `toggleChartSelection`: `id` joins the selection or leaves it. */
    method Toggle(id: int)
      modifies this
      ensures selected == Flip(old(selected), id)
      ensures charts == old(charts)
    {
      if id in selected {
        selected := selected - {id};
      } else {
        selected := selected + {id};
      }
    }

    /** `clearChartHistory`: no charts and no selection. */
    method Clear()
      modifies this
      ensures Valid() && charts == [] && selected == {}
    {
      charts := [];
      selected := {};
    }
  }
}
