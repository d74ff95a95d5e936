# Dice calculator core, modelled in Dafny

CalculatorDND is a dice-notation calculator for tabletop games. The user types an expression such as `3d6+2` or `d20` and picks an advantage factor and a number of repetitions. The calculator does the following:

- rewrites the dice notation into calls;
- refuses anything but arithmetic and the two dice functions;
- evaluates the expression that many times;
- shows statistics of the outcomes and a histogram with a smooth curve;
- keeps a history of past rolls in the browser's local storage.

The engine exists twice: `dice-engine.js` and its Python original `code.py`. The model covers both. Where they differ, a `Dialect` parameter selects the behaviour:

- converting a number to a whole number floors in JavaScript and truncates in Python;
- the message for unknown identifiers names the first one in JavaScript, and all of them sorted in Python;
- "no spread" is `< 0.0001` in JavaScript and `isclose` in Python;
- white space (`\s`, `trim()` / `strip()`) includes U+FEFF in JavaScript, and U+001C–U+001F and U+0085 in Python.

The project has these modules:

- **Wrappers, Errors** (`wrappers.dfy`): option and result types, the engine's errors and their messages.
- **Sequences** (`sequences.dfy`): sums, counts, minimum and maximum, insertion sort, string order, and the lemmas about them that every module uses.
- **Dice** (`dice.dfy`): the engine. An `Engine` class holds the global advantage factor `ADV` and a cursor into a stream of uniform draws. `dieWithAdv`, `d` and `roll` are methods with the source's loops. Pure functions (`DieValue`, `RollValue`) specify them. `evalMany` is a loop over an abstract evaluator.
- **Notation** (`notation.dfy`): `normalize`, written as a hand-made scanner for the three regular expressions, with `\b` as a word boundary. It also holds `ensureSafe`, `validateExpression` and the critical-roll tests.
- **Stats** (`stats.dfy`, exact over `real`): `percentile`, mean, Bessel-corrected variance, the reliability index, the success rate against a threshold, the floor-division damage and `fullStats`.
- **Histogram** (`histogram.dfy`): the frequency and mode loop, the ≤ 60 pass-through, the 50-way bucketing, and the recomputed peak of `buildHistogramAsync`.
- **Curve** (`curve.dfy`): Catmull-Rom to cubic Bézier, as a list of segments.
- **Charts** (`charts.dfy`): the repetition-count clamp, the 10-chart history with its colours, the selection toggle and the compare button.
- **Storage** (`storage.dfy`): the newest-first, 20-entry roll history with storage as a state field.

Randomness is an input. The `i`-th call of `Math.random()` / `random.random()` is `random(i)`, a real in `[0, 1)`. A face is `floor(u * sides) + 1`. The engine's `used` field counts the draws taken. The roll bounds are then lemmas over every stream.

## Model

| member | source | states |
|---|---|---|
| Dice.ToInt | dice-engine.js:14 | the whole number `Math.floor` (JavaScript) or `int()` (Python) gives: the largest integer not above `x`, or for negative `x` in Python the one towards zero |
| Dice.ToIntDialectsDiffer | code.py:11 | the two conversions differ on `-0.5`: floor gives -1, `int()` gives 0 |
| Dice.Engine.SetAdvantage | dice-engine.js:13-15 | `ADV` becomes the converted factor; no draw is taken |
| Dice.Engine.GetAdvantage | dice-engine.js:21-23 | returns exactly the factor last set; every other engine operation keeps `ADV` unchanged |
| Dice.Engine.DieWithAdv | dice-engine.js:30-44 | sides converting below 1 give the "at least 1 side" error and take no draw; otherwise exactly `1 + abs(ADV)` draws are taken and the result is their maximum (ADV ≥ 0) or minimum |
| Dice.Engine.Die | dice-engine.js:38-43 | the loop that pushes `1 + abs(ADV)` draws and keeps the best or the worst, proved equal to `DieValue` |
| Dice.Engine.D | dice-engine.js:51-53 | `d(n)` is `dieWithAdv` of the converted `n` |
| Dice.Engine.Roll | dice-engine.js:61-74 | a negative count or a side count below 1 gives the NdM error and takes no draw; otherwise the sum of exactly `n` advantage-adjusted dice, `n * (1 + abs(ADV))` draws |
| Dice.Engine.RollDice | dice-engine.js:68-72 | the accumulating loop of `roll`, proved equal to `RollValue` |
| Dice.DieValue | dice-engine.js:36-43 | one die, the best of `1 + abs(ADV)` draws or the worst under disadvantage; with `ADV = 0` it is exactly the face of the next draw |
| Dice.RollValue | dice-engine.js:69-73 | `n` such dice in a row, added up; with `ADV = 0` it is exactly the sum of the faces of the next `n` draws, one draw per die |
| Dice.Faces | dice-engine.js:39-41 | the draws are the next `count` faces of the stream, in order |
| Dice.Face | dice-engine.js:40 | each face lies in `[1, sides]` |
| Dice.BestIsMaximum | dice-engine.js:43 | `Math.max(...rolls)` is one of the rolls and no roll exceeds it |
| Dice.WorstIsMinimum | dice-engine.js:43 | `Math.min(...rolls)` is one of the rolls and no roll is below it |
| Dice.DieBounds | dice-engine.js:30-44 | a die lies in `[1, sides]` and is one of its draws, the best under advantage and the worst under disadvantage; a one-sided die always gives 1 |
| Dice.MoreTrialsMonotone | code.py:17-19 | one more draw of advantage never lowers the die, and one more of disadvantage never raises it |
| Dice.RollBounds | dice-engine.js:61-74 | `roll(n, m)` lies in `[n, n * m]`, and `roll(0, m)` is 0 |
| Dice.RollDrawsProduct | code.py:31-32 | the draws `roll` takes are `n` times those of one die |
| Dice.Summarize | dice-engine.js:152-155 | the batch carries the outcomes and their sum as total |
| Dice.SummarizeBounds | dice-engine.js:152-153 | outcomes between `lo` and `hi` give an average between them and a total between `times * lo` and `times * hi` |
| Dice.EvalMany | dice-engine.js:145-156 | fails exactly when some evaluation fails, with the first failure's error and no partial result; otherwise exactly `max(times, 0)` outcomes, in evaluation order, their sum as total, `total / times` as average (0 when `times ≤ 0`) |
| Notation.TrimStart | dice-engine.js:82 | drops exactly the leading white space |
| Notation.TrimEnd | dice-engine.js:82 | drops exactly the trailing white space |
| Notation.SpaceDialects | code.py:37 | the white space of `strip()` and of `trim()` differ exactly on U+001C–U+001F, U+0085 (Python only) and U+FEFF (JavaScript only) |
| Notation.Trim | dice-engine.js:82 | with each language's own white space: keeps only characters of the input, is empty exactly for blank input, and leaves text that starts and ends with non-white-space alone |
| Notation.TrimDialects | code.py:37 | `trim()` and `strip()` agree on every text without a character of `SpaceDialects` |
| Notation.TrimFeffExample | code.py:37 | U+FEFF alone is trimmed to nothing by `trim()` and kept by `strip()` |
| Notation.TrimIdempotent | code.py:37 | trimming twice is trimming once |
| Notation.ReplaceCaret | dice-engine.js:85 | no `^` is left, only `*` is added, the result is empty exactly when the input is, text without `^` is unchanged, and a single `^` becomes `**` |
| Notation.ReplaceCaretAppend | code.py:39 | the replacement distributes over concatenation, so with the one-character case every `^` becomes `**` and every other character is kept, in order |
| Notation.DigitsEnd | dice-engine.js:89 | the end of the run of digits `\d+` |
| Notation.CountedParenEnds | dice-engine.js:88 | the pieces of `(\d+)\s*[dD]\s*\(\s*(\d+)\s*\)` at a position end where the greedy runs end, so a match there is unique |
| Notation.MatchCountedParen | dice-engine.js:88-89 | a match starts at a word boundary and splits into the count digits, the marker, `(`, the side digits and `)` with white space between, and yields `roll(count,sides)`; conversely every such split at a word boundary is the match found |
| Notation.CountedEnds | dice-engine.js:91 | the pieces of `(\d+)\s*[dD]\s*(\d+)` ending at a word boundary end where the greedy runs end |
| Notation.MatchCounted | dice-engine.js:91-92 | a match of `\b(\d+)\s*[dD]\s*(\d+)\b` starts and ends at word boundaries, splits into count, marker and sides and yields `roll(count,sides)`; conversely every such split between word boundaries is the match found |
| Notation.MatchSingle | dice-engine.js:94-95 | a match of `\b[dD]\s*(\d+)\b` starts and ends at word boundaries, splits into marker and sides and yields `d(sides)`; conversely every such split between word boundaries is the match found |
| Notation.Rewrite | dice-engine.js:88-94 | a global `replace` from a position, matches taken left to right without overlap and word boundaries judged on the original text; the result is empty exactly when nothing is left to scan, since every replacement is a non-empty call |
| Notation.Normalize | dice-engine.js:81-97 | trim, `^` to `**`, then the three rewrites in source order; the normal form is empty exactly when the input is blank |
| Notation.NormalizeExample1 | dice-engine.js:81-97 | `normalize("3d6+2")` is `roll(3,6)+2` |
| Notation.NormalizeExample2 | dice-engine.js:87-89 | `normalize("2d(8)")` is `roll(2,8)` |
| Notation.NormalizeExample3 | dice-engine.js:93-95 | `normalize("d20")` is `d(20)` |
| Notation.NormalizeCaretExample | dice-engine.js:84-95 | `normalize("d12^2")` is `d(12)**2` |
| Notation.NormalizeRemovesCaret | dice-engine.js:84-85 | no `^` survives normalisation |
| Notation.RewriteChars | code.py:41-45 | a rewrite only adds digits and the characters of `roll(`, `d(`, `,` and `)` |
| Notation.RewriteNoMarker | code.py:41-45 | every rewrite needs a `d` or `D`; without one the text is unchanged |
| Notation.NormalizePlainText | dice-engine.js:82-96 | text with no `d`, `D` or `^` normalises to its trim |
| Notation.NormalizeKeepsAllowed | dice-engine.js:81-97 | normalisation introduces no character the safety filter refuses |
| Notation.IdentifiersCover | dice-engine.js:111 | the identifiers `[A-Za-z_]+` found, concatenated, are exactly the identifier characters of the text, in order |
| Notation.FirstUnknown | dice-engine.js:111-116 | the index of the first identifier other than `d` and `roll` |
| Notation.UnknownNames | code.py:53-55 | exactly the identifiers other than `d` and `roll`, in order of appearance (Python then sorts them and drops repeats) |
| Notation.EnsureSafe | dice-engine.js:104-119 | the character error exactly when some character is outside the allow-list; every other refusal names a non-empty list of identifiers of the text, none of them `d` or `roll` |
| Notation.EnsureSafePasses | dice-engine.js:104-119 | the check passes exactly when every character is allowed and every identifier is `d` or `roll` |
| Notation.EnsureSafeRejectsCharacter | dice-engine.js:106-108 | any character outside digits, `+ - * / ( ) . ,`, white space and ASCII letters (`_` included) is refused with the character error |
| Notation.EnsureSafeFirstName | dice-engine.js:111-117 | JavaScript names the first offending identifier in order of appearance |
| Notation.EnsureSafeAllNames | code.py:53-56 | Python names all offending identifiers, sorted, each once |
| Notation.AllowedDialects | code.py:50 | the character filters of the two implementations differ exactly on the characters of `SpaceDialects` |
| Notation.EnsureSafeDialectsAgree | code.py:48-56 | on texts without those characters, both implementations accept the same texts and refuse the same characters |
| Notation.EnsureSafeDialectsDiffer | dice-engine.js:106-108 | each of those characters alone passes one implementation and is refused by the other: U+FEFF passes JavaScript only, the others pass Python only |
| Notation.EnsureSafeExample | dice-engine.js:111-117 | `1 + foo` is refused naming `foo`, in both implementations |
| Notation.Validate | dice-engine.js:210-226 | blank input gives the "enter an expression" error |
| Notation.ValidateExactly | dice-engine.js:210-226 | valid exactly when the text is not blank, its normal form passes the safety check and the parser accepts it; takes no engine state, so no draw is used |
| Notation.ValidateBlank | dice-engine.js:212-214 | white-space-only input yields the message `Введите выражение` |
| Notation.Lower | dice-engine.js:182 | lower-cases each character in place |
| Notation.LowerIdempotent | dice-engine.js:182 | lower-casing twice is lower-casing once |
| Notation.TrimLower | dice-engine.js:182 | trimming and lower-casing commute |
| Notation.IsSingleD20 | dice-engine.js:182-184 | the lower-cased, trimmed text is `d20` or `1d20` exactly when the trimmed text is `d20`, `D20`, `1d20` or `1D20` |
| Notation.IsCriticalSuccess | dice-engine.js:181-188 | true exactly when the result is 20 and the trimmed expression is `d20`, `D20`, `1d20` or `1D20` |
| Notation.IsCriticalFail | dice-engine.js:196-203 | true exactly when the result is 1 and the trimmed expression is `d20`, `D20`, `1d20` or `1D20` |
| Notation.CriticalIgnoresCase | dice-engine.js:181-203 | the critical tests do not depend on the case of the expression |
| Notation.CriticalExclusive | dice-engine.js:181-203 | a roll is never both a critical success and a critical failure, and either needs `d20` or `1d20` |
| Notation.CriticalExample | dice-engine.js:184 | ` D20 ` with 20 is a critical success |
| Stats.Ceil | stats.js:20 | `Math.ceil`: the least integer not below `x` |
| Stats.Percentile | stats.js:12-24 | nothing for no values; whatever `p`, a value it gives lies between the minimum and the maximum |
| Stats.PercentileSmall | stats.js:13-16 | no values give NaN, and one value is its own percentile for every `p` |
| Stats.PercentileAtWhole | stats.js:17-20 | a whole position `k = (n - 1) p` gives the `k`-th smallest value |
| Stats.PickBetween | stats.js:17-23 | an interpolated position lies between its two neighbours |
| Stats.PercentileBetween | stats.js:12-24 | for `p` in `[0, 1]` the percentile is defined and lies between minimum and maximum, equal to them at 0 and 1 |
| Stats.PercentileMonotone | code.py:64-76 | a larger `p` never gives a smaller percentile |
| Stats.PercentileOutside | stats.js:18-23 | a `p` outside `[0, 1]` reads past the sorted copy and gives no number |
| Stats.PercentileExample | stats.js:12-24 | the median of `[1, 2, 3, 4]` is 2.5 |
| Stats.SortFirst | stats.js:13 | the sorted copy starts with the minimum |
| Stats.SortLast | stats.js:13 | the sorted copy ends with the maximum |
| Stats.SampleMean | stats.js:31-34 | NaN exactly for no values; otherwise mean times count is the total |
| Stats.MeanBetween | stats.js:31-34 | the mean lies between minimum and maximum |
| Stats.SampleVariance | stats.js:41-47 | never negative, and 0 for fewer than two values |
| Stats.VarianceZeroIffConstant | code.py:81-86 | the variance is 0 exactly when all values are equal |
| Stats.Reliability | stats.js:66-85 | 0 for no values, 1 with no spread, and otherwise within `[0, 1]` |
| Stats.ReliabilityDefined | stats.js:66-85 | with both percentiles in `[0, 1]` the index is a number, whatever the square root returns |
| Stats.ReliabilityConstant | code.py:91-93 | equal values are fully reliable in both implementations |
| Stats.ReliabilityUndefined | stats.js:66-85 | with a spread, a low percentile `pLow` outside `[0, 1]` leaves the index undefined (`None`): its percentile reads past the sorted copy, and JavaScript's arithmetic on `undefined` carries through to the result |
| Stats.CountAtLeast | stats.js:102 | the number of values reaching the threshold: exactly the number of indices whose value is at least `kd`, so at most `n` |
| Stats.SuccessRate | stats.js:93-106 | no threshold gives nulls; otherwise the count of values reaching it, a percentage of 0 for no values and `100 * count / n` otherwise |
| Stats.CountAtLeastExtremes | code.py:124 | the count is `n` exactly when every value reaches the threshold, 0 exactly when none does |
| Stats.SuccessRateBounds | stats.js:93-106 | `0 ≤ count ≤ n`, the percentage lies in `[0, 100]`, and a higher threshold raises neither |
| Stats.SuccessRateExample | stats.js:93-106 | `[3, 7, 10, 15]` against 10 gives 2 and 50 |
| Stats.DamageTotal | stats.js:124-129 | the damage `floor(v / kd)` of every roll reaching the threshold, added up; 0 when no roll reaches it |
| Stats.DamageAtLeastSuccesses | stats.js:121-127 | every roll reaching the threshold deals at least 1, so the damage is at least the success count |
| Stats.DamageAtMostSumOver | code.py:133-135 | for non-negative values, the damage is at most the sum of the values divided by the threshold |
| Stats.BeaverDamage | stats.js:115-134 | no threshold or one ≤ 0 gives nulls, no values give 0 and 0, otherwise the sum of `floor(v / kd)` over values reaching it and its average over all values |
| Stats.DamageExample | stats.js:115-134 | `[20, 5]` against 10 deals 2 in total, 1 on average |
| Stats.FullStats | stats.js:142-174 | the all-zero record with null metrics for no values; otherwise each field is its statistic of the same values (mean, variance, its square root, minimum, maximum, the 10th, 50th and 90th percentiles, reliability, success rate, and the damage `BeaverDamage` computes), the total is the sum, `min ≤ p10 ≤ p50 ≤ p90 ≤ max`, the mean lies in `[min, max]`, variance ≥ 0 and reliability in `[0, 1]` |
| Histogram.Frequencies | app.js:432-443 | each outcome's count is its number of occurrences, and only outcomes have one; the mode is the first outcome, in input order, whose count passes the running maximum, and the maximum is the mode's count |
| Histogram.Ascending | app.js:446 | the distinct outcomes, strictly ascending |
| Histogram.ExactPoints | app.js:473-475 | one point `(x, frequency[x])` per distinct outcome, in order |
| Histogram.TotalIsLength | app.js:473-475 | the frequencies add up to the number of outcomes |
| Histogram.BucketSize | app.js:455-457 | `ceil(range / 50)`, or 1 when that is 0; 50 buckets of that size cover the range |
| Histogram.BucketIndexRange | app.js:463 | every outcome's bucket index lies in `[0, 50]` |
| Histogram.BucketContains | app.js:463-464 | an outcome lies within half a bucket of its bucket's centre |
| Histogram.CenterMonotone | app.js:464 | a higher bucket index has a higher centre |
| Histogram.BucketListUsed | app.js:459-466 | every bucket index listed for the outcomes holds at least one of them: no empty bucket is plotted |
| Histogram.Bucket | app.js:453-470 | one point per bucket index that some outcome falls into, at most 51: each point is the centre `min + idx * size + size / 2` of its bucket with the total count of the outcomes in it, ascending by centre, every outcome's bucket present, and the counts adding up to the number of outcomes |
| Histogram.Chart | app.js:453-475 | up to 60 distinct outcomes: one point `(x, count of x)` per outcome in ascending order and the mode's count as peak; more: the bucketed points of the outcome counts, with `maxCount` the largest bucket total; either way the counts add up to the number of outcomes |
| Histogram.ChartedBuckets | app.js:453-467 | the bucketed points, with the largest bucket total as peak, meet the chart's promise |
| Histogram.ChartedExact | app.js:473-475 | the exact points, with the mode's count as peak, meet the chart's promise |
| Histogram.TableIsCounts | app.js:432-443 | a frequency table with each outcome's number of occurrences, and only outcomes as keys, is the count map of the outcomes |
| Histogram.PeakIndex | app.js:535 | the first point whose count is `maxCount` |
| Histogram.Build | app.js:432-602 | minimum and maximum of the outcomes, the mode with its pre-bucketing count as peak label, the first point reaching `maxCount` as peak point, and the charted points of `Chart` |
| Histogram.ExactPeak | app.js:472-474 | without bucketing, no point count exceeds the mode's count and some point reaches it |
| Histogram.BucketsCover | app.js:459-466 | with bucketing, every outcome's bucket centre is among the plotted points |
| Histogram.Example | app.js:473-475 | `[1, 1, 1, 2, 3]` gives the points `(1, 3), (2, 1), (3, 1)` |
| Curve.Clamped | app.js:511-514 | the neighbour index is clamped to the first and last point |
| Curve.CatmullRom | app.js:502-525 | fewer than 2 points give no path, exactly 2 a straight line, and otherwise `n - 1` cubic segments where segment `i` ends at point `i + 1` with control points `p1 + (p2 - p0) / 6` and `p2 - (p3 - p1) / 6` |
| Curve.SmoothJoin | app.js:516-519 | at every inner point the incoming and outgoing control points mirror each other, so the curve has no corner |
| Curve.InnerSegmentStraight | app.js:516-519 | on evenly spaced collinear points the inner control points sit at a third and two thirds of the chord |
| Charts.Decimal | app.js:887 | the decimal numeral of a count: digits only, no leading zero |
| Charts.ParseInt | app.js:237 | a number is read only when the text holds a digit |
| Charts.ParseDecimal | app.js:237 | reading back the numeral of a count gives the count |
| Charts.Times | app.js:237 | the repetition count lies in `[1, 100000]`; text that is not a number, or reads as at most 1, gives 1; larger numbers are kept or capped at 100000 |
| Charts.TimesOfDecimal | app.js:237 | a count already in range is read back unchanged |
| Charts.ColorFor | app.js:804-814 | the colour comes from the palette, the `count`-th one while fewer than 10 charts are kept |
| Charts.Pushed | app.js:816-828 | the new chart goes last, after the newest earlier charts in order; fewer than 10 earlier charts are all kept and at most 10 are kept in all |
| Charts.ChartHistory.Add | app.js:812-831 | the history is `Pushed` with the chart coloured by the earlier length, the selection is unchanged and the history stays within 10 |
| Charts.Flip | app.js:872-879 | `id` changes membership and no other id does |
| Charts.ChartHistory.Toggle | app.js:872-879 | the selection is flipped at `id` and the charts are unchanged |
| Charts.CompareButton | app.js:884-889 | disabled exactly with fewer than 2 selected, captioned with the selected count otherwise |
| Charts.ChartHistory.Clear | app.js:894-898 | no charts and no selection |
| Storage.Read | storage.js:12-19 | nothing stored or unreadable text reads as the empty history; otherwise the stored list |
| Storage.Truncated | storage.js:37-39 | more than 10 000 values are cut to their first 10 000, in order; shorter or absent values are unchanged |
| Storage.Capped | storage.js:48-50 | at most 20 entries, the first ones in order |
| Storage.CappedNewestFirst | storage.js:41-50 | after saving, the new entry comes first, followed by the newest 19 earlier entries in their order |
| Storage.Without | storage.js:62-66 | no entry with the id is left, every other entry is kept, and a history without the id is unchanged |
| Storage.WithoutAppend | storage.js:65 | the filter keeps the relative order of the entries it keeps |
| Storage.Draft.Saved | storage.js:41-45 | the stored copy of the caller's record, with the new id and timestamp |
| Storage.HistoryStore.History | storage.js:12-19 | the history read from the slot, at most 20 entries |
| Storage.HistoryStore.SaveRoll | storage.js:32-56 | the caller's values are cut in place; the stored history is the stamped entry ahead of the earlier history, capped at 20 |
| Storage.HistoryStore.Remove | storage.js:62-70 | the stored history is the earlier one without the entries with that id |
| Storage.HistoryStore.Clear | storage.js:75-81 | nothing is stored, and the history reads back empty |
| Storage.HistoryStore.Import | storage.js:96-105 | true exactly for a list; then its first 20 entries are stored, otherwise nothing changes |

## Left out

- Randomness is a stream parameter `random: nat -> real` with values in `[0, 1)`. `random.randint(1, sides)` is modelled like `Math.floor(Math.random() * sides) + 1`, with one draw per die.
- The host evaluator (`new Function` in `evalOnce` and `validateExpression`, Python's `eval`) is a parameter: `evalOnce` of `EvalMany`, `syntaxError` of `Validate`. `evalOnce` itself is not modelled. `EvalMany` takes the `i`-th evaluation as given, so the draws it uses are not tied to the engine.
- Dice.EvalMany: `times` is a whole number. A fractional `times` (the loop runs `ceil(times)` times, the average divides by `times`) is not modelled. Python's `float(...)` conversion of each outcome is the identity on reals.
- `factorDesc` / `factor_desc` only produce display strings and are not modelled.
- `sqrt` and `standardDeviation` are an abstract parameter. Floating-point rounding, `NaN` arithmetic, `toFixed` and `toLocaleString` are not modelled: reals are exact, and `NaN`/`null` is `None`.
- Stats.Reliability: Python's `isclose` uses a relative tolerance of 1e-9 here. Its comparison is written on exact reals, not on doubles.
- Stats.Percentile: Python's negative indices (`xs[-1]` for a position below 0) are not modelled. A position outside the sorted copy gives `None`, as JavaScript's `undefined` arithmetic gives NaN.
- Notation.Lower: only ASCII letters are lower-cased. Unicode case mapping is not modelled.
- White space follows each language's `\s`, `trim()` and `strip()`: the common set (ASCII white space, U+00A0, U+1680, U+2000–U+200A, U+2028, U+2029, U+202F, U+205F, U+3000), plus U+FEFF in JavaScript and U+001C–U+001F and U+0085 in Python. Python's Unicode `\w` and `\d` (letters and digits beyond ASCII count as word characters and digits in `re`) are not modelled: the scanners use ASCII `\w` and `\d` in both languages.
- Notation.EnsureSafeDialectsAgree: the two filters are promised to agree only on texts without U+001C–U+001F, U+0085 and U+FEFF; on those characters they differ (`EnsureSafeDialectsDiffer`).
- Histogram keys: JavaScript object keys are strings, so `-0` and `0` share a key; the model keys by the real value. `Object.entries` lists keys that look like non-negative whole numbers first, in ascending order, and the other keys in insertion order, so the bucketing loop (app.js:461) visits the outcomes in an order that depends on their values. The model visits them in ascending order. That is sound because the points are sorted by centre at app.js:470, and a bucket's total does not depend on the order its counts are added in, so the plotted points do not depend on the visiting order.
- Histogram.Build: an empty list of outcomes is excluded. On one the source throws at `dataPoints[0].x` (app.js:485). The roll path never passes one: it draws only with at least 10 outcomes (app.js:400). The history view can pass one: it only checks that `entry.values` exists (app.js:717), and an imported entry may carry `values: []` (storage.js:96-105, app.js:780). That crash is not modelled.
- Drawing: the SVG/HTML text, pixel scaling, tooltips, animation, the theme and `openCompareModal` are not modelled. The curve is a list of segments, not path text.
- Chart ids come from `Date.now()` and are a parameter. The selection may keep the id of a chart the history has dropped; the model keeps that behaviour but proves nothing about it.
- Storage: `localStorage` is the field `slot`. JSON encoding is not modelled: stored text is represented by what parsing it yields (a list or unreadable). Stored text that parses to something other than a list is not modelled. Quota and `setItem` failures are not modelled. `exportHistory` is not modelled. `Date.now()` ids and ISO timestamps are parameters of `SaveRoll`.
- The console script at the end of `code.py` is not modelled.

## Histogram details the code fixes

- With more than 60 distinct outcomes `numBuckets` is 50 (app.js:455), but the bucket index `floor((v - min) / size)` (app.js:463) reaches 50 for the maximum whenever the range is a positive multiple of 50, because then `(max - min) / size = 50`. The chart then has up to 51 points. The model follows the code (`Histogram.BucketIndexRange`, `Histogram.Bucket`).
- After bucketing, `maxCount` is recomputed from the bucket totals (app.js:472) and picks the peak point (app.js:535), while the peak label shows `frequency[mode]` (app.js:602), the count from before bucketing. The model keeps both: `Plot.maxCount` and `Plot.peakIndex` come from the points, `Plot.peakCount` is the mode's own count (`Histogram.Build`).
