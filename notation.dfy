/** Dice notation as text: the rewrites that turn `3d6`, `2d(8)`, `d20` and `^`
    into call form, the allow-list that guards the host evaluator, validation
    without evaluation, and the natural-20 / natural-1 checks
    (dice-engine.js:81-119, 181-226; code.py:36-56). */
module Notation {
  import opened Wrappers
  import opened Errors
  import opened Sequences

  // ---------------------------------------------------------------------------
  // Character classes

  predicate IsDigit(c: char) { '0' <= c <= '9' }

  predicate IsLetter(c: char) { 'A' <= c <= 'Z' || 'a' <= c <= 'z' }

  /** `\w`, whose edges are the word boundaries `\b`. */
  predicate IsWordChar(c: char) { IsDigit(c) || IsLetter(c) || c == '_' }

  /** `[A-Za-z_]`, the characters of an identifier in `ensureSafe`. */
  predicate IsIdentChar(c: char) { IsLetter(c) || c == '_' }

  predicate IsDieMarker(c: char) { c == 'd' || c == 'D' }

  /** The white space both languages agree on: the ASCII controls tab to
      carriage return, the Unicode space separators and the line and paragraph
      separators. */
  predicate IsCommonSpace(c: char)
  {
    c == ' ' || c == '\t' || c == '\n' || c == '\r' || c == '\U{000B}' || c == '\U{000C}'
    || c == '\U{00A0}' || c == '\U{1680}' || ('\U{2000}' <= c <= '\U{200A}')
    || c == '\U{2028}' || c == '\U{2029}' || c == '\U{202F}' || c == '\U{205F}'
    || c == '\U{3000}'
  }

  /** `\s`, and what `trim()` / `strip()` remove. ECMAScript adds the byte
      order mark U+FEFF; Python's `str.isspace` adds the separators U+001C to
      U+001F and NEXT LINE U+0085. */
  predicate IsSpace(dialect: Dialect, c: char)
  {
    || IsCommonSpace(c)
    || (dialect == JavaScript && c == '\U{FEFF}')
    || (dialect == Python && (('\U{001C}' <= c <= '\U{001F}') || c == '\U{0085}'))
  }

  /** The characters that are white space in one language and not the other. */
  predicate SpaceDiffers(c: char)
  {
    ('\U{001C}' <= c <= '\U{001F}') || c == '\U{0085}' || c == '\U{FEFF}'
  }

  /** The two white-space sets differ on exactly the characters of
      `SpaceDiffers`, and of those JavaScript takes only U+FEFF. */
  lemma SpaceDialects(c: char)
    ensures IsSpace(JavaScript, c) != IsSpace(Python, c) <==> SpaceDiffers(c)
    ensures SpaceDiffers(c) ==> (IsSpace(JavaScript, c) <==> c == '\U{FEFF}')
  {
  }

  // The characters that `ensureSafe` accepts: digits, + - * / ( ) . , white space and ASCII letters.
  predicate IsAllowed(dialect: Dialect, c: char)
  {
    IsDigit(c) || IsLetter(c) || IsSpace(dialect, c)
    || c == '+' || c == '-' || c == '*' || c == '/' || c == '(' || c == ')' || c == '.' || c == ','
  }

  // ---------------------------------------------------------------------------
  // trim() / strip()

  function TrimStart(dialect: Dialect, s: string): (r: string)
    ensures |r| <= |s| && r == s[|s| - |r|..]
    ensures r == [] || !IsSpace(dialect, r[0])
    ensures forall i :: 0 <= i < |s| - |r| ==> IsSpace(dialect, s[i])
    ensures r == [] <==> forall i :: 0 <= i < |s| ==> IsSpace(dialect, s[i])
  {
    if s != [] && IsSpace(dialect, s[0]) then
      var r := TrimStart(dialect, s[1..]);
      assert s[1..][|s[1..]| - |r|..] == s[|s| - |r|..];
      assert forall i :: 1 <= i < |s| ==> s[i] == s[1..][i - 1];
      r
    else s
  }

  function TrimEnd(dialect: Dialect, s: string): (r: string)
    ensures |r| <= |s| && r == s[..|r|]
    ensures r == [] || !IsSpace(dialect, r[|r| - 1])
    ensures forall i :: |r| <= i < |s| ==> IsSpace(dialect, s[i])
    ensures r == [] <==> forall i :: 0 <= i < |s| ==> IsSpace(dialect, s[i])
  {
    if s != [] && IsSpace(dialect, s[|s| - 1]) then
      var r := TrimEnd(dialect, s[..|s| - 1]);
      assert s[..|s| - 1][..|r|] == s[..|r|];
      assert forall i :: 0 <= i < |s| - 1 ==> s[i] == s[..|s| - 1][i];
      r
    else s
  }

  /** `expr.trim()` (Python: `expr.strip()`): `expr` without the white space at
      either end, each language with its own white space. */
  function Trim(dialect: Dialect, s: string): (r: string)
    ensures forall c :: c in r ==> c in s
    ensures r == [] <==> forall i :: 0 <= i < |s| ==> IsSpace(dialect, s[i])
    ensures s == [] || (!IsSpace(dialect, s[0]) && !IsSpace(dialect, s[|s| - 1])) ==> r == s
  {
    var t := TrimStart(dialect, s);
    var r := TrimEnd(dialect, t);
    assert r == [] <==> t == [];
    assert forall c :: c in t ==> c in s;
    assert forall c :: c in r ==> c in t;
    assert s != [] && !IsSpace(dialect, s[0]) ==> |t| == |s| && t == s;
    assert t != [] && !IsSpace(dialect, t[|t| - 1]) ==> r == t;
    r
  }

  /** Blank input: nothing but white space. */
  predicate IsBlank(dialect: Dialect, s: string)
  {
    Trim(dialect, s) == []
  }

  /** Trimming twice trims no more than once. */
  lemma TrimIdempotent(dialect: Dialect, s: string)
    ensures Trim(dialect, Trim(dialect, s)) == Trim(dialect, s)
  {
    var t := TrimStart(dialect, s);
    var r := TrimEnd(dialect, t);
    assert Trim(dialect, s) == r;
    if r != [] {
      assert r[0] == t[0];
    }
  }

  /** The languages trim a text alike unless one of its characters is white
      space in only one of them. */
  lemma TrimDialects(s: string)
    requires forall k :: 0 <= k < |s| ==> !SpaceDiffers(s[k])
    ensures Trim(JavaScript, s) == Trim(Python, s)
  {
    TrimStartDialects(s);
    var t := TrimStart(JavaScript, s);
    var d := |s| - |t|;
    assert t == s[d..];
    forall k | 0 <= k < |t| ensures !SpaceDiffers(t[k]) {
      assert t[k] == s[d + k];
    }
    TrimEndDialects(t);
  }

  /** U+FEFF alone shows the difference: JavaScript trims it away, Python keeps it. */
  lemma TrimFeffExample()
    ensures Trim(JavaScript, "\U{FEFF}") == []
    ensures Trim(Python, "\U{FEFF}") == "\U{FEFF}"
  {
    assert !IsSpace(Python, '\U{FEFF}');
  }

  lemma {:induction false} TrimStartDialects(s: string)
    requires forall k :: 0 <= k < |s| ==> !SpaceDiffers(s[k])
    ensures TrimStart(JavaScript, s) == TrimStart(Python, s)
  {
    if s != [] {
      SpaceDialects(s[0]);
      TrimStartDialects(s[1..]);
    }
  }

  lemma {:induction false} TrimEndDialects(s: string)
    requires forall k :: 0 <= k < |s| ==> !SpaceDiffers(s[k])
    ensures TrimEnd(JavaScript, s) == TrimEnd(Python, s)
  {
    if s != [] {
      SpaceDialects(s[|s| - 1]);
      TrimEndDialects(s[..|s| - 1]);
    }
  }

  // ---------------------------------------------------------------------------
  // Step 1 of normalize: '^' -> '**'

  function ReplaceCaret(s: string): (r: string)
    ensures '^' !in r
    ensures r == [] <==> s == []
    ensures forall c :: c in r ==> c in s || c == '*'
    ensures '^' !in s ==> r == s
    ensures |s| == 1 ==> r == (if s[0] == '^' then "**" else s)
  {
    if s == [] then []
    else (if s[0] == '^' then "**" else [s[0]]) + ReplaceCaret(s[1..])
  }

  /** The replacement works character by character: with the one-character
      case above, every '^' becomes "**" and every other character is kept,
      in order. */
  lemma {:induction false} ReplaceCaretAppend(a: string, b: string)
    ensures ReplaceCaret(a + b) == ReplaceCaret(a) + ReplaceCaret(b)
  {
    if a == [] {
      assert a + b == b;
    } else {
      var h := if a[0] == '^' then "**" else [a[0]];
      assert (a + b)[0] == a[0];
      assert (a + b)[1..] == a[1..] + b;
      assert ReplaceCaret(a + b) == h + ReplaceCaret(a[1..] + b);
      ReplaceCaretAppend(a[1..], b);
      assert ReplaceCaret(a) == h + ReplaceCaret(a[1..]);
    }
  }

  // ---------------------------------------------------------------------------
  // Steps 2-4 of normalize: a scanner for each of the three regular expressions

  /** The three die-notation patterns, in the order normalize applies them:
      `\b(\d+)\s*[dD]\s*\(\s*(\d+)\s*\)`, `\b(\d+)\s*[dD]\s*(\d+)\b` and
      `\b[dD]\s*(\d+)\b`. */
  datatype Pattern = CountedParen | Counted | Single

  /** The characters a replacement adds besides the digits it copies. */
  const Template: string := "rold(,)"

  /** `\b` at position `i`: a word character on exactly one side. */
  predicate Boundary(s: string, i: nat)
    requires i <= |s|
  {
    (i > 0 && IsWordChar(s[i - 1])) != (i < |s| && IsWordChar(s[i]))
  }

  /** End of the run of digits starting at `i` (greedy `\d*`). */
  function DigitsEnd(s: string, i: nat): (r: nat)
    requires i <= |s|
    ensures i <= r <= |s|
    ensures forall k :: i <= k < r ==> IsDigit(s[k])
    ensures r == |s| || !IsDigit(s[r])
    decreases |s| - i
  {
    if i < |s| && IsDigit(s[i]) then DigitsEnd(s, i + 1) else i
  }

  /** End of the run of white space starting at `i` (greedy `\s*`). */
  function SpacesEnd(dialect: Dialect, s: string, i: nat): (r: nat)
    requires i <= |s|
    ensures i <= r <= |s|
    ensures forall k :: i <= k < r ==> IsSpace(dialect, s[k])
    ensures r == |s| || !IsSpace(dialect, s[r])
    decreases |s| - i
  {
    if i < |s| && IsSpace(dialect, s[i]) then SpacesEnd(dialect, s, i + 1) else i
  }

  /** A run of digits that stops before a non-digit ends where `DigitsEnd`
      says. */
  lemma {:induction false} DigitsEndAt(s: string, i: nat, j: nat)
    requires i <= j <= |s| && AllDigits(s[i..j])
    requires j == |s| || !IsDigit(s[j])
    ensures DigitsEnd(s, i) == j
    decreases j - i
  {
    if i < j {
      assert s[i..j][0] == s[i];
      assert s[i + 1..j] == s[i..j][1..];
      DigitsEndAt(s, i + 1, j);
    }
  }

  lemma {:induction false} SpacesEndAt(dialect: Dialect, s: string, i: nat, j: nat)
    requires i <= j <= |s| && AllSpace(dialect, s[i..j])
    requires j == |s| || !IsSpace(dialect, s[j])
    ensures SpacesEnd(dialect, s, i) == j
    decreases j - i
  {
    if i < j {
      assert s[i..j][0] == s[i];
      assert s[i + 1..j] == s[i..j][1..];
      SpacesEndAt(dialect, s, i + 1, j);
    }
  }

  /** The call form that replaces a match. */
  function RollCall(count: string, sides: string): string
  {
    "roll(" + count + "," + sides + ")"
  }

  function DieCall(sides: string): string
  {
    "d(" + sides + ")"
  }

  /** A call built from digits holds only digits and template characters. */
  lemma CallChars(count: string, sides: string)
    requires AllDigits(count) && AllDigits(sides)
    ensures forall ch :: ch in RollCall(count, sides) ==> IsDigit(ch) || ch in Template
    ensures forall ch :: ch in DieCall(sides) ==> IsDigit(ch) || ch in Template
  {
  }

  predicate AllDigits(t: string)
  {
    forall k :: 0 <= k < |t| ==> IsDigit(t[k])
  }

  predicate AllSpace(dialect: Dialect, t: string)
  {
    forall k :: 0 <= k < |t| ==> IsSpace(dialect, t[k])
  }

  /** `s[i..j]` is a nonempty run of digits: `\d+`. */
  predicate DigitRun(s: string, i: nat, j: nat)
  {
    i < j <= |s| && AllDigits(s[i..j])
  }

  /** `s[i..j]` is a run of white space, possibly empty: `\s*`. */
  predicate SpaceRun(dialect: Dialect, s: string, i: nat, j: nat)
  {
    i <= j <= |s| && AllSpace(dialect, s[i..j])
  }

  /** `s[i..j]` reads `(\d+)\s*[dD]\s*\(\s*(\d+)\s*\)`, split at the given
      positions: the count `s[i..a]`, the marker `s[b]`, the parentheses `s[c]`
      and `s[g]`, the sides `s[e..f]`; `rep` is `roll(count,sides)`. */
  predicate CountedParenSplit(dialect: Dialect, s: string, i: nat, a: nat, b: nat, c: nat, e: nat, f: nat, g: nat, j: nat, rep: string)
  {
    && DigitRun(s, i, a) && SpaceRun(dialect, s, a, b) && b < |s| && IsDieMarker(s[b])
    && SpaceRun(dialect, s, b + 1, c) && c < |s| && s[c] == '('
    && SpaceRun(dialect, s, c + 1, e) && DigitRun(s, e, f)
    && SpaceRun(dialect, s, f, g) && g < |s| && s[g] == ')' && j == g + 1
    && rep == RollCall(s[i..a], s[e..f])
  }

  /** `s[i..j]` reads `(\d+)\s*[dD]\s*(\d+)`: the count `s[i..a]`, the marker
      `s[b]`, the sides `s[c..j]`; `rep` is `roll(count,sides)`. */
  predicate CountedSplit(dialect: Dialect, s: string, i: nat, a: nat, b: nat, c: nat, j: nat, rep: string)
  {
    && DigitRun(s, i, a) && SpaceRun(dialect, s, a, b) && b < |s| && IsDieMarker(s[b])
    && SpaceRun(dialect, s, b + 1, c) && DigitRun(s, c, j)
    && rep == RollCall(s[i..a], s[c..j])
  }

  /** `s[i..j]` reads `[dD]\s*(\d+)`: the marker `s[i]`, the sides `s[b..j]`;
      `rep` is `d(sides)`. */
  predicate SingleSplit(dialect: Dialect, s: string, i: nat, b: nat, j: nat, rep: string)
  {
    && i < |s| && IsDieMarker(s[i]) && SpaceRun(dialect, s, i + 1, b) && DigitRun(s, b, j)
    && rep == DieCall(s[b..j])
  }

  /** The text between `i` and `j` matches the first pattern, without the
      leading `\b`, and is replaced by `rep`. */
  ghost predicate IsCountedParenMatch(dialect: Dialect, s: string, i: nat, j: nat, rep: string)
  {
    exists a, b, c, e, f, g :: CountedParenSplit(dialect, s, i, a, b, c, e, f, g, j, rep)
  }

  ghost predicate IsCountedMatch(dialect: Dialect, s: string, i: nat, j: nat, rep: string)
  {
    exists a, b, c :: CountedSplit(dialect, s, i, a, b, c, j, rep)
  }

  ghost predicate IsSingleMatch(dialect: Dialect, s: string, i: nat, j: nat, rep: string)
  {
    exists b :: SingleSplit(dialect, s, i, b, j, rep)
  }

  /** A successful match: the replacement text and the position just past the
      matched text. */
  ghost predicate GoodMatch(s: string, i: nat, m: Option<(string, nat)>)
    requires i <= |s|
  {
    m.Some? ==>
      && i < m.value.1 <= |s|
      && (exists k :: i <= k < m.value.1 && IsDieMarker(s[k]))
      && m.value.0 != []
      && (forall c :: c in m.value.0 ==> IsDigit(c) || c in Template)
  }

  /** White space is none of the characters that end a run of it in the
      patterns. */
  lemma SpaceIsNot(dialect: Dialect, c: char)
    requires IsSpace(dialect, c)
    ensures !IsWordChar(c) && !IsDieMarker(c) && c != '(' && c != ')'
  {
  }

  /** A run of digits followed by a run of white space, stopped by a character
      that is neither, ends where the greedy scanners end. */
  lemma DigitsThenSpaces(dialect: Dialect, s: string, i: nat, a: nat, b: nat)
    requires DigitRun(s, i, a) && SpaceRun(dialect, s, a, b)
    requires b < |s| && !IsDigit(s[b]) && !IsSpace(dialect, s[b])
    ensures DigitsEnd(s, i) == a && SpacesEnd(dialect, s, a) == b
  {
    if a < b {
      assert s[a..b][0] == s[a];
      SpaceIsNot(dialect, s[a]);
    }
    DigitsEndAt(s, i, a);
    SpacesEndAt(dialect, s, a, b);
  }

  /** The pieces of a split of the first pattern end where the greedy runs
      starting at `i` end: there is at most one split at each position. */
  lemma {:induction false} CountedParenEnds(dialect: Dialect, s: string, i: nat)
    ensures forall a: nat, b: nat, c: nat, e: nat, f: nat, g: nat, j: nat, rep: string :: CountedParenSplit(dialect, s, i, a, b, c, e, f, g, j, rep) ==>
      && DigitsEnd(s, i) == a && SpacesEnd(dialect, s, a) == b && SpacesEnd(dialect, s, b + 1) == c
      && SpacesEnd(dialect, s, c + 1) == e && DigitsEnd(s, e) == f && SpacesEnd(dialect, s, f) == g
  {
    forall a: nat, b: nat, c: nat, e: nat, f: nat, g: nat, j: nat, rep: string | CountedParenSplit(dialect, s, i, a, b, c, e, f, g, j, rep)
      ensures DigitsEnd(s, i) == a && SpacesEnd(dialect, s, a) == b && SpacesEnd(dialect, s, b + 1) == c
      ensures SpacesEnd(dialect, s, c + 1) == e && DigitsEnd(s, e) == f && SpacesEnd(dialect, s, f) == g
    {
      ParenSplitEnds(dialect, s, i, a, b, c, e, f, g, j, rep);
    }
  }

  lemma ParenSplitEnds(dialect: Dialect, s: string, i: nat, a: nat, b: nat, c: nat, e: nat, f: nat, g: nat, j: nat, rep: string)
    requires CountedParenSplit(dialect, s, i, a, b, c, e, f, g, j, rep)
    ensures DigitsEnd(s, i) == a && SpacesEnd(dialect, s, a) == b && SpacesEnd(dialect, s, b + 1) == c
    ensures SpacesEnd(dialect, s, c + 1) == e && DigitsEnd(s, e) == f && SpacesEnd(dialect, s, f) == g
  {
    assert !IsSpace(dialect, s[c]);
    FrontEnds(dialect, s, i, a, b, c);
    BackEnds(dialect, s, c, e, f, g);
  }

  /** The count, the white space around the marker, and the white space
      after it up to a character that is not white space. */
  lemma FrontEnds(dialect: Dialect, s: string, i: nat, a: nat, b: nat, c: nat)
    requires DigitRun(s, i, a) && SpaceRun(dialect, s, a, b) && b < |s| && IsDieMarker(s[b])
    requires SpaceRun(dialect, s, b + 1, c) && c < |s| && !IsSpace(dialect, s[c])
    ensures DigitsEnd(s, i) == a && SpacesEnd(dialect, s, a) == b && SpacesEnd(dialect, s, b + 1) == c
  {
    DigitsThenSpaces(dialect, s, i, a, b);
    SpacesEndAt(dialect, s, b + 1, c);
  }

  /** The parenthesised sides `\(\s*(\d+)\s*\)` after the `(` at `c`. */
  lemma BackEnds(dialect: Dialect, s: string, c: nat, e: nat, f: nat, g: nat)
    requires SpaceRun(dialect, s, c + 1, e) && DigitRun(s, e, f) && SpaceRun(dialect, s, f, g)
    requires g < |s| && s[g] == ')'
    ensures SpacesEnd(dialect, s, c + 1) == e && DigitsEnd(s, e) == f && SpacesEnd(dialect, s, f) == g
  {
    assert s[e..f][0] == s[e];
    DigitNotSpace(dialect, s[e]);
    SpacesEndAt(dialect, s, c + 1, e);
    DigitsThenSpaces(dialect, s, e, f, g);
  }

  lemma DigitNotSpace(dialect: Dialect, c: char)
    requires IsDigit(c)
    ensures !IsSpace(dialect, c)
  {
  }

  /** The same for the second pattern, whose sides end at a word boundary. */
  lemma {:induction false} CountedEnds(dialect: Dialect, s: string, i: nat)
    ensures forall a: nat, b: nat, c: nat, j: nat, rep: string :: CountedSplit(dialect, s, i, a, b, c, j, rep) && Boundary(s, j) ==>
      && DigitsEnd(s, i) == a && SpacesEnd(dialect, s, a) == b && SpacesEnd(dialect, s, b + 1) == c
      && DigitsEnd(s, c) == j
      && i < a && b < |s| && IsDieMarker(s[b]) && c < j && rep == RollCall(s[i..a], s[c..j])
  {
    forall a: nat, b: nat, c: nat, j: nat, rep: string | CountedSplit(dialect, s, i, a, b, c, j, rep) && Boundary(s, j)
      ensures DigitsEnd(s, i) == a && SpacesEnd(dialect, s, a) == b && SpacesEnd(dialect, s, b + 1) == c
      ensures DigitsEnd(s, c) == j
    {
      assert s[c..j][0] == s[c];
      DigitNotSpace(dialect, s[c]);
      FrontEnds(dialect, s, i, a, b, c);
      assert s[c..j][j - 1 - c] == s[j - 1];
      DigitsEndAt(s, c, j);
    }
  }

  /** The same for the third pattern. */
  lemma {:induction false} SingleEnds(dialect: Dialect, s: string, i: nat)
    ensures forall b: nat, j: nat, rep: string :: SingleSplit(dialect, s, i, b, j, rep) && Boundary(s, j) ==>
      SpacesEnd(dialect, s, i + 1) == b && DigitsEnd(s, b) == j
  {
    forall b: nat, j: nat, rep: string | SingleSplit(dialect, s, i, b, j, rep) && Boundary(s, j)
      ensures SpacesEnd(dialect, s, i + 1) == b && DigitsEnd(s, b) == j
    {
      SpacesEndAt(dialect, s, i + 1, b);
      assert s[b..j][j - 1 - b] == s[j - 1];
      DigitsEndAt(s, b, j);
    }
  }

  /** `\b(\d+)\s*[dD]\s*\(\s*(\d+)\s*\)` at position `i`: a match exactly when
      the text at `i` reads as the pattern, and then the only one. None of the
      patterns needs backtracking: a run of digits is always followed by a
      character that is not a digit, and a run of white space by one that is
      not white space. */
  function MatchCountedParen(dialect: Dialect, s: string, i: nat): (m: Option<(string, nat)>)
    requires i <= |s|
    ensures GoodMatch(s, i, m)
    ensures m.Some? ==> Boundary(s, i) && IsCountedParenMatch(dialect, s, i, m.value.1, m.value.0)
    ensures forall j: nat, rep: string :: Boundary(s, i) && IsCountedParenMatch(dialect, s, i, j, rep) ==> m == Some((rep, j))
  {
    CountedParenEnds(dialect, s, i);
    var a := DigitsEnd(s, i);
    var b := SpacesEnd(dialect, s, a);
    if !Boundary(s, i) || a == i || b == |s| || !IsDieMarker(s[b]) then None
    else ParenSides(dialect, s, i, a, b)
  }

  /** The rest of the first pattern, `\s*\(\s*(\d+)\s*\)`, after the count
      `s[i..a]` and the marker `s[b]`: the call for every split with that count
      and marker, and no other. */
  function ParenSides(dialect: Dialect, s: string, i: nat, a: nat, b: nat): (m: Option<(string, nat)>)
    requires DigitRun(s, i, a) && SpaceRun(dialect, s, a, b) && b < |s| && IsDieMarker(s[b])
    ensures m.Some? ==> b < m.value.1 <= |s| && IsCountedParenMatch(dialect, s, i, m.value.1, m.value.0)
    ensures m.Some? ==> forall c :: c in m.value.0 ==> IsDigit(c) || c in Template
    ensures forall c: nat, e: nat, f: nat, g: nat, j: nat, rep: string ::
      CountedParenSplit(dialect, s, i, a, b, c, e, f, g, j, rep) ==> m == Some((rep, j))
  {
    CountedParenEnds(dialect, s, i);
    var c := SpacesEnd(dialect, s, b + 1);
    if c == |s| || s[c] != '(' then None
    else ClosedSides(dialect, s, i, a, b, c)
  }

  /** A split of the first pattern with the given count, marker and opening
      parenthesis ends where the scanner's runs after that parenthesis end. */
  lemma ClosedEnds(dialect: Dialect, s: string, i: nat, a: nat, b: nat, c: nat)
    requires c < |s|
    ensures forall e: nat, f: nat, g: nat, j: nat, rep: string ::
      CountedParenSplit(dialect, s, i, a, b, c, e, f, g, j, rep) ==>
        && e == SpacesEnd(dialect, s, c + 1) && f == DigitsEnd(s, e) && g == SpacesEnd(dialect, s, f)
        && e < f && g < |s| && s[g] == ')' && j == g + 1 && rep == RollCall(s[i..a], s[e..f])
  {
    CountedParenEnds(dialect, s, i);
  }

  /** The end of the first pattern, `\s*(\d+)\s*\)`, after its opening
      parenthesis `s[c]`. */
  function ClosedSides(dialect: Dialect, s: string, i: nat, a: nat, b: nat, c: nat): (m: Option<(string, nat)>)
    requires DigitRun(s, i, a) && SpaceRun(dialect, s, a, b) && b < |s| && IsDieMarker(s[b])
    requires SpaceRun(dialect, s, b + 1, c) && c < |s| && s[c] == '('
    ensures m.Some? ==> c < m.value.1 <= |s| && IsCountedParenMatch(dialect, s, i, m.value.1, m.value.0)
    ensures m.Some? ==> forall ch :: ch in m.value.0 ==> IsDigit(ch) || ch in Template
    ensures forall e: nat, f: nat, g: nat, j: nat, rep: string ::
      CountedParenSplit(dialect, s, i, a, b, c, e, f, g, j, rep) ==> m == Some((rep, j))
  {
    ClosedEnds(dialect, s, i, a, b, c);
    var e := SpacesEnd(dialect, s, c + 1);
    var f := DigitsEnd(s, e);
    var g := SpacesEnd(dialect, s, f);
    if f == e || g == |s| || s[g] != ')' then None
    else
      assert CountedParenSplit(dialect, s, i, a, b, c, e, f, g, g + 1, RollCall(s[i..a], s[e..f]));
      CallChars(s[i..a], s[e..f]);
      Some((RollCall(s[i..a], s[e..f]), g + 1))
  }

  /** `\b(\d+)\s*[dD]\s*(\d+)\b` at position `i`, likewise. */
  function MatchCounted(dialect: Dialect, s: string, i: nat): (m: Option<(string, nat)>)
    requires i <= |s|
    ensures GoodMatch(s, i, m)
    ensures m.Some? ==> m.value.1 <= |s| && Boundary(s, i) && Boundary(s, m.value.1)
    ensures m.Some? ==> IsCountedMatch(dialect, s, i, m.value.1, m.value.0)
    ensures forall j: nat, rep: string :: j <= |s| && Boundary(s, i) && Boundary(s, j) && IsCountedMatch(dialect, s, i, j, rep) ==>
      m == Some((rep, j))
  {
    CountedEnds(dialect, s, i);
    var a := DigitsEnd(s, i);
    var b := SpacesEnd(dialect, s, a);
    if !Boundary(s, i) || a == i || b == |s| || !IsDieMarker(s[b]) then None
    else CountedSides(dialect, s, i, a, b)
  }

  /** A split of the second pattern with the given count and marker ends
      where the scanner's runs after the marker end. */
  lemma SidesEnds(dialect: Dialect, s: string, i: nat, a: nat, b: nat)
    requires b < |s|
    ensures forall c: nat, j: nat, rep: string :: CountedSplit(dialect, s, i, a, b, c, j, rep) && Boundary(s, j) ==>
      && c == SpacesEnd(dialect, s, b + 1) && j == DigitsEnd(s, c) && c < j && rep == RollCall(s[i..a], s[c..j])
  {
    CountedEnds(dialect, s, i);
  }

  /** The rest of the second pattern, `\s*(\d+)\b`, after the count `s[i..a]`
      and the marker `s[b]`. */
  function CountedSides(dialect: Dialect, s: string, i: nat, a: nat, b: nat): (m: Option<(string, nat)>)
    requires DigitRun(s, i, a) && SpaceRun(dialect, s, a, b) && b < |s| && IsDieMarker(s[b])
    ensures m.Some? ==> b < m.value.1 <= |s| && Boundary(s, m.value.1) && IsCountedMatch(dialect, s, i, m.value.1, m.value.0)
    ensures m.Some? ==> forall ch :: ch in m.value.0 ==> IsDigit(ch) || ch in Template
    ensures forall c: nat, j: nat, rep: string :: CountedSplit(dialect, s, i, a, b, c, j, rep) && Boundary(s, j) ==>
      m == Some((rep, j))
  {
    SidesEnds(dialect, s, i, a, b);
    var c := SpacesEnd(dialect, s, b + 1);
    var f := DigitsEnd(s, c);
    if f == c || !Boundary(s, f) then None
    else
      assert CountedSplit(dialect, s, i, a, b, c, f, RollCall(s[i..a], s[c..f]));
      CallChars(s[i..a], s[c..f]);
      Some((RollCall(s[i..a], s[c..f]), f))
  }

  /** `\b[dD]\s*(\d+)\b` at position `i`, likewise. */
  function MatchSingle(dialect: Dialect, s: string, i: nat): (m: Option<(string, nat)>)
    requires i <= |s|
    ensures GoodMatch(s, i, m)
    ensures m.Some? ==> m.value.1 <= |s| && Boundary(s, i) && Boundary(s, m.value.1)
    ensures m.Some? ==> IsSingleMatch(dialect, s, i, m.value.1, m.value.0)
    ensures forall j: nat, rep: string :: j <= |s| && Boundary(s, i) && Boundary(s, j) && IsSingleMatch(dialect, s, i, j, rep) ==>
      m == Some((rep, j))
  {
    SingleEnds(dialect, s, i);
    if !Boundary(s, i) || i == |s| || !IsDieMarker(s[i]) then None
    else
      var b := SpacesEnd(dialect, s, i + 1);
      var f := DigitsEnd(s, b);
      if f == b || !Boundary(s, f) then None
      else
        assert SingleSplit(dialect, s, i, b, f, DieCall(s[b..f]));
        CallChars(s[b..f], s[b..f]);
        Some((DieCall(s[b..f]), f))
  }

  function MatchAt(dialect: Dialect, p: Pattern, s: string, i: nat): (m: Option<(string, nat)>)
    requires i <= |s|
    ensures GoodMatch(s, i, m)
  {
    match p
    case CountedParen => MatchCountedParen(dialect, s, i)
    case Counted => MatchCounted(dialect, s, i)
    case Single => MatchSingle(dialect, s, i)
  }

  /** `s.replace(/p/g, ...)` (Python: `re.sub`) from position `i` on: every
      match, scanned left to right without overlap, is replaced; everything
      else is copied. Word boundaries are judged on the original text, as the
      regex engine does. */
  function Rewrite(dialect: Dialect, p: Pattern, s: string, i: nat): (r: string)
    requires i <= |s|
    ensures r == [] <==> i == |s|
    decreases |s| - i
  {
    if i == |s| then []
    else match MatchAt(dialect, p, s, i)
      case Some((rep, j)) => rep + Rewrite(dialect, p, s, j)
      case None => [s[i]] + Rewrite(dialect, p, s, i + 1)
  }

  /** `normalize(expr)`: trim, then the four rewrites in source order. */
  function Normalize(dialect: Dialect, expr: string): (r: string)
    ensures r == [] <==> IsBlank(dialect, expr)
  {
    var e0 := ReplaceCaret(Trim(dialect, expr));
    var e1 := Rewrite(dialect, CountedParen, e0, 0);
    var e2 := Rewrite(dialect, Counted, e1, 0);
    Rewrite(dialect, Single, e2, 0)
  }

  /** A rewrite only copies characters of its input or adds digits and
      template characters. */
  lemma {:induction false} RewriteChars(dialect: Dialect, p: Pattern, s: string, i: nat)
    requires i <= |s|
    ensures forall c :: c in Rewrite(dialect, p, s, i) ==> c in s[i..] || IsDigit(c) || c in Template
    decreases |s| - i
  {
    if i < |s| {
      match MatchAt(dialect, p, s, i)
      case Some((rep, j)) =>
        RewriteChars(dialect, p, s, j);
        assert s[j..] == s[i..][j - i..];
      case None =>
        RewriteChars(dialect, p, s, i + 1);
        assert s[i..] == [s[i]] + s[i + 1..];
    }
  }

  /** Without a die marker a rewrite changes nothing. */
  lemma {:induction false} RewriteNoMarker(dialect: Dialect, p: Pattern, s: string, i: nat)
    requires i <= |s|
    requires forall k :: 0 <= k < |s| ==> !IsDieMarker(s[k])
    ensures Rewrite(dialect, p, s, i) == s[i..]
    decreases |s| - i
  {
    if i < |s| {
      assert MatchAt(dialect, p, s, i).None?;
      RewriteNoMarker(dialect, p, s, i + 1);
      assert s[i..] == [s[i]] + s[i + 1..];
    }
  }

  /** A character that is neither a digit nor a template character and is not
      in the input is not in the output of a rewrite. */
  lemma RewriteKeepsOut(dialect: Dialect, p: Pattern, s: string, c: char)
    requires c !in s && !IsDigit(c) && c !in Template
    ensures c !in Rewrite(dialect, p, s, 0)
  {
    RewriteChars(dialect, p, s, 0);
    assert s[0..] == s;
  }

  /** No '^' is left after normalize: `ReplaceCaret` turns each into "**" and
      no rewrite brings one back. */
  lemma NormalizeRemovesCaret(dialect: Dialect, expr: string)
    ensures '^' !in Normalize(dialect, expr)
  {
    var e0 := ReplaceCaret(Trim(dialect, expr));
    var e1 := Rewrite(dialect, CountedParen, e0, 0);
    var e2 := Rewrite(dialect, Counted, e1, 0);
    RewriteKeepsOut(dialect, CountedParen, e0, '^');
    RewriteKeepsOut(dialect, Counted, e1, '^');
    RewriteKeepsOut(dialect, Single, e2, '^');
  }

  /** A rewrite of allowed text is allowed text. */
  lemma RewriteKeepsAllowed(dialect: Dialect, p: Pattern, s: string)
    requires forall c :: c in s ==> IsAllowed(dialect, c)
    ensures forall c :: c in Rewrite(dialect, p, s, 0) ==> IsAllowed(dialect, c)
  {
    RewriteChars(dialect, p, s, 0);
    assert s[0..] == s;
    assert forall c :: c in Template ==> IsAllowed(dialect, c);
  }

  /** Normalize adds no character that ensureSafe would reject: if every
      character of the input is allowed (or is '^'), so is every character of
      the output. */
  lemma NormalizeKeepsAllowed(dialect: Dialect, expr: string)
    requires forall c :: c in expr ==> IsAllowed(dialect, c) || c == '^'
    ensures forall c :: c in Normalize(dialect, expr) ==> IsAllowed(dialect, c)
  {
    var e0 := ReplaceCaret(Trim(dialect, expr));
    assert forall c :: c in e0 ==> IsAllowed(dialect, c) by {
      forall c | c in e0
        ensures IsAllowed(dialect, c)
      {
        assert c in Trim(dialect, expr) || c == '*';
      }
    }
    var e1 := Rewrite(dialect, CountedParen, e0, 0);
    RewriteKeepsAllowed(dialect, CountedParen, e0);
    var e2 := Rewrite(dialect, Counted, e1, 0);
    RewriteKeepsAllowed(dialect, Counted, e1);
    RewriteKeepsAllowed(dialect, Single, e2);
    assert Normalize(dialect, expr) == Rewrite(dialect, Single, e2, 0);
  }

  /** Every rewrite needs a die marker or a '^': text with neither is only
      trimmed. */
  lemma NormalizePlainText(dialect: Dialect, expr: string)
    requires forall k :: 0 <= k < |expr| ==> !IsDieMarker(expr[k]) && expr[k] != '^'
    ensures Normalize(dialect, expr) == Trim(dialect, expr)
  {
    var t := Trim(dialect, expr);
    forall k | 0 <= k < |t| ensures !IsDieMarker(t[k]) && t[k] != '^' {
      assert t[k] in expr;
    }
    assert ReplaceCaret(t) == t;
    RewriteNoMarker(dialect, CountedParen, t, 0);
    RewriteNoMarker(dialect, Counted, t, 0);
    RewriteNoMarker(dialect, Single, t, 0);
  }


  // ---------------------------------------------------------------------------
  // ensureSafe

  /** End of the run of identifier characters starting at `i`. */
  function IdentEnd(s: string, i: nat): (r: nat)
    requires i <= |s|
    ensures i <= r <= |s|
    ensures forall k :: i <= k < r ==> IsIdentChar(s[k])
    ensures r == |s| || !IsIdentChar(s[r])
    decreases |s| - i
  {
    if i < |s| && IsIdentChar(s[i]) then IdentEnd(s, i + 1) else i
  }

  predicate IsIdentifier(w: string)
  {
    w != [] && forall k :: 0 <= k < |w| ==> IsIdentChar(w[k])
  }

  /** `s.match(/[A-Za-z_]+/g)` from position `i` on, `i` not inside a run:
      the maximal runs of identifier characters, in order of appearance. */
  function IdentifiersFrom(s: string, i: nat): (r: seq<string>)
    requires i <= |s|
    ensures forall k :: 0 <= k < |r| ==> IsIdentifier(r[k])
    decreases |s| - i
  {
    if i == |s| then []
    else if IsIdentChar(s[i]) then
      var j := IdentEnd(s, i);
      [s[i..j]] + IdentifiersFrom(s, j)
    else IdentifiersFrom(s, i + 1)
  }

  function Identifiers(s: string): seq<string>
  {
    IdentifiersFrom(s, 0)
  }

  /** The identifier characters of `s`, in order. */
  function IdentChars(s: string): string
  {
    if s == [] then [] else (if IsIdentChar(s[0]) then [s[0]] else []) + IdentChars(s[1..])
  }

  function Concat(ws: seq<string>): string
  {
    if ws == [] then [] else ws[0] + Concat(ws[1..])
  }

  lemma {:induction false} IdentCharsAppend(a: string, b: string)
    ensures IdentChars(a + b) == IdentChars(a) + IdentChars(b)
  {
    if a != [] {
      IdentCharsAppend(a[1..], b);
      assert (a + b)[1..] == a[1..] + b;
    } else {
      assert a + b == b;
    }
  }

  lemma {:induction false} IdentCharsOfRun(s: string)
    requires forall k :: 0 <= k < |s| ==> IsIdentChar(s[k])
    ensures IdentChars(s) == s
  {
    if s != [] {
      IdentCharsOfRun(s[1..]);
    }
  }

  /** The identifiers found are exactly the identifier characters of the
      text: none is lost, none is invented, and the order is kept. */
  lemma {:induction false} IdentifiersCover(s: string, i: nat)
    requires i <= |s|
    ensures Concat(IdentifiersFrom(s, i)) == IdentChars(s[i..])
    decreases |s| - i
  {
    if i < |s| {
      if IsIdentChar(s[i]) {
        var j := IdentEnd(s, i);
        IdentifiersCover(s, j);
        assert s[i..] == s[i..j] + s[j..];
        IdentCharsAppend(s[i..j], s[j..]);
        IdentCharsOfRun(s[i..j]);
        assert [s[i..j]] + IdentifiersFrom(s, j) == IdentifiersFrom(s, i);
        assert ([s[i..j]] + IdentifiersFrom(s, j))[1..] == IdentifiersFrom(s, j);
      } else {
        IdentifiersCover(s, i + 1);
        assert s[i..] == [s[i]] + s[i + 1..];
        IdentCharsAppend([s[i]], s[i + 1..]);
      }
    }
  }

  /** The identifiers the engine itself defines. */
  predicate IsKnownName(w: string)
  {
    w == "d" || w == "roll"
  }

  /** Position of the first identifier that is not a known name, or `|ids|`. */
  function FirstUnknown(ids: seq<string>): (r: nat)
    ensures r <= |ids|
    ensures forall k :: 0 <= k < r ==> IsKnownName(ids[k])
    ensures r < |ids| ==> !IsKnownName(ids[r])
  {
    if ids == [] then 0
    else if !IsKnownName(ids[0]) then 0
    else 1 + FirstUnknown(ids[1..])
  }

  /** The identifiers that are not known names, in order, repeats kept. */
  function UnknownNames(ids: seq<string>): (r: seq<string>)
    ensures forall w :: w in r <==> w in ids && !IsKnownName(w)
  {
    if ids == [] then []
    else
      assert ids == [ids[0]] + ids[1..];
      (if IsKnownName(ids[0]) then [] else [ids[0]]) + UnknownNames(ids[1..])
  }

  predicate AllAllowed(dialect: Dialect, e: string)
  {
    forall k :: 0 <= k < |e| ==> IsAllowed(dialect, e[k])
  }

  /** `ensureSafe(e)` / `ensure_safe(e)`: first the character allow-list,
      then the identifier allow-list. JavaScript walks the set of names in
      order of first appearance and names the first unknown one; Python
      names all unknown ones, sorted. */
  function EnsureSafe(dialect: Dialect, e: string): (r: Outcome<Error>)
    ensures r == Fail(IllegalCharacter) <==> !AllAllowed(dialect, e)
    ensures r.Fail? && r != Fail(IllegalCharacter) ==>
      && r.error.UnknownIdentifiers?
      && r.error.names != []
      && forall w :: w in r.error.names ==> w in Identifiers(e) && !IsKnownName(w)
  {
    if !AllAllowed(dialect, e) then Fail(IllegalCharacter)
    else
      var ids := Identifiers(e);
      match dialect
      case JavaScript =>
        var k := FirstUnknown(ids);
        if k == |ids| then Pass else Fail(UnknownIdentifiers([ids[k]]))
      case Python =>
        var bad := Dedup(UnknownNames(ids));
        if bad == [] then Pass else Fail(UnknownIdentifiers(SortStrings(bad)))
  }

  /** Both implementations accept exactly the texts made of allowed
      characters whose identifiers are all `d` or `roll`. */
  lemma EnsureSafePasses(dialect: Dialect, e: string)
    ensures EnsureSafe(dialect, e) == Pass <==>
      AllAllowed(dialect, e) && forall w :: w in Identifiers(e) ==> IsKnownName(w)
  {
    var ids := Identifiers(e);
    var k := FirstUnknown(ids);
    if k < |ids| {
      assert ids[k] in ids;
    }
    if UnknownNames(ids) != [] {
      assert UnknownNames(ids)[0] in UnknownNames(ids);
    }
  }

  /** A character outside the allow-list, '_' among them, is reported before
      any identifier is looked at. */
  lemma EnsureSafeRejectsCharacter(dialect: Dialect, e: string, k: nat)
    requires k < |e| && !IsAllowed(dialect, e[k])
    ensures EnsureSafe(dialect, e) == Fail(IllegalCharacter)
  {
  }

  /** JavaScript reports one name: an identifier of the text that is not
      known, every identifier before whose first occurrence is known. */
  lemma EnsureSafeFirstName(e: string)
    requires EnsureSafe(JavaScript, e).Fail? && EnsureSafe(JavaScript, e) != Fail(IllegalCharacter)
    ensures exists i :: (
      && 0 <= i < |Identifiers(e)|
      && EnsureSafe(JavaScript, e) == Fail(UnknownIdentifiers([Identifiers(e)[i]]))
      && !IsKnownName(Identifiers(e)[i])
      && forall k :: 0 <= k < i ==> IsKnownName(Identifiers(e)[k]))
  {
    var ids := Identifiers(e);
    var i := FirstUnknown(ids);
    assert i < |ids|;
  }

  /** Python reports every unknown identifier once, in sorted order: the one
      sorted list of the set of unknown names. */
  lemma EnsureSafeAllNames(e: string, names: seq<string>)
    requires EnsureSafe(Python, e) == Fail(UnknownIdentifiers(names))
    ensures StrictlySorted(names)
    ensures forall w :: w in names <==> w in Identifiers(e) && !IsKnownName(w)
    ensures names != []
  {
  }

  /** The allow-lists of the two programs differ on exactly the characters
      that are white space in one language only. */
  lemma AllowedDialects(c: char)
    ensures IsAllowed(JavaScript, c) != IsAllowed(Python, c) <==> SpaceDiffers(c)
  {
    SpaceDialects(c);
  }

  /** On texts without such a character the two implementations accept the
      same texts and report the same kind of error; only the list of names
      differs. */
  lemma EnsureSafeDialectsAgree(e: string)
    requires forall k :: 0 <= k < |e| ==> !SpaceDiffers(e[k])
    ensures EnsureSafe(JavaScript, e).Pass? <==> EnsureSafe(Python, e).Pass?
    ensures EnsureSafe(JavaScript, e) == Fail(IllegalCharacter) <==> EnsureSafe(Python, e) == Fail(IllegalCharacter)
  {
    forall k | 0 <= k < |e|
      ensures IsAllowed(JavaScript, e[k]) == IsAllowed(Python, e[k])
    {
      AllowedDialects(e[k]);
    }
    EnsureSafePasses(JavaScript, e);
    EnsureSafePasses(Python, e);
  }

  /** Each of those characters alone passes one implementation and is refused
      by the other: U+FEFF passes JavaScript only; the other characters pass
      Python only. */
  lemma EnsureSafeDialectsDiffer(c: char)
    requires SpaceDiffers(c)
    ensures EnsureSafe(JavaScript, [c]) == (if c == '\U{FEFF}' then Pass else Fail(IllegalCharacter))
    ensures EnsureSafe(Python, [c]) == (if c == '\U{FEFF}' then Fail(IllegalCharacter) else Pass)
  {
    SpaceDialects(c);
    assert IdentifiersFrom([c], 1) == [];
  }

  // ---------------------------------------------------------------------------
  // validateExpression

  /** `validateExpression(expr)`. Whether the host parser accepts a text, and
      the message it gives when it does not, is the parameter `syntaxError`;
      the engine's random state is not an argument, so validation cannot
      consume draws. */
  function Validate(expr: string, syntaxError: string -> Option<string>): (r: Outcome<Error>)
    ensures IsBlank(JavaScript, expr) ==> r == Fail(EmptyExpression)
  {
    if IsBlank(JavaScript, expr) then Fail(EmptyExpression)
    else
      var e := Normalize(JavaScript, expr);
      match EnsureSafe(JavaScript, e)
      case Fail(err) => Fail(err)
      case Pass =>
        match syntaxError(e)
        case Some(message) => Fail(MalformedExpression(message))
        case None => Pass
  }

  /** An expression is valid exactly when it is not blank, its normal form
      has only allowed characters and the identifiers `d` and `roll`, and the
      host parser accepts that normal form. */
  lemma ValidateExactly(expr: string, syntaxError: string -> Option<string>)
    ensures Validate(expr, syntaxError) == Pass <==>
      && !IsBlank(JavaScript, expr)
      && AllAllowed(JavaScript, Normalize(JavaScript, expr))
      && (forall w :: w in Identifiers(Normalize(JavaScript, expr)) ==> IsKnownName(w))
      && syntaxError(Normalize(JavaScript, expr)) == None
  {
    EnsureSafePasses(JavaScript, Normalize(JavaScript, expr));
  }

  /** White space alone is reported as an empty expression, never as a
      syntax error. */
  lemma ValidateBlank(expr: string, syntaxError: string -> Option<string>)
    requires forall k :: 0 <= k < |expr| ==> IsSpace(JavaScript, expr[k])
    ensures Validate(expr, syntaxError) == Fail(EmptyExpression)
    ensures Message(JavaScript, Validate(expr, syntaxError).error) == "Введите выражение"
  {
    var r := Validate(expr, syntaxError);
    assert Trim(JavaScript, expr) == [];
    assert r == Fail(EmptyExpression);
    EmptyMessage();
  }

  /** The message of an empty expression, kept apart so that the text is
      compared once. */
  lemma EmptyMessage()
    ensures Message(JavaScript, EmptyExpression) == "Введите выражение"
  {
  }

  // ---------------------------------------------------------------------------
  // isCriticalSuccess / isCriticalFail

  function LowerChar(c: char): char
  {
    if 'A' <= c <= 'Z' then (c as int + 32) as char else c
  }

  /** `toLowerCase()`, on the characters that can matter here. */
  function Lower(s: string): (r: string)
    ensures |r| == |s|
    ensures forall k :: 0 <= k < |s| ==> r[k] == LowerChar(s[k])
  {
    if s == [] then [] else [LowerChar(s[0])] + Lower(s[1..])
  }

  /** The expression is a single d20: `d20` or `1d20`, in any case, with any
      white space around it. */
  predicate IsSingleD20(expr: string)
    ensures IsSingleD20(expr) <==> IsD20Text(Trim(JavaScript, expr))
  {
    SingleD20Texts(expr);
    var t := Trim(JavaScript, Lower(expr));
    t == "d20" || t == "1d20"
  }

  /** The four spellings of a single d20 before lower-casing. */
  predicate IsD20Text(t: string)
  {
    t == "d20" || t == "D20" || t == "1d20" || t == "1D20"
  }

  /** `isCriticalSuccess(expr, result)`: a 20 on a single d20. */
  predicate IsCriticalSuccess(expr: string, result: real)
    ensures IsCriticalSuccess(expr, result) <==> result == 20.0 && IsD20Text(Trim(JavaScript, expr))
  {
    IsSingleD20(expr) && result == 20.0
  }

  /** `isCriticalFail(expr, result)`: a 1 on a single d20. */
  predicate IsCriticalFail(expr: string, result: real)
    ensures IsCriticalFail(expr, result) <==> result == 1.0 && IsD20Text(Trim(JavaScript, expr))
  {
    IsSingleD20(expr) && result == 1.0
  }

  /** Lower-casing changes only capital letters, none of which is white
      space. */
  lemma LowerKeepsSpace(c: char)
    ensures IsSpace(JavaScript, LowerChar(c)) == IsSpace(JavaScript, c)
  {
  }

  lemma {:induction false} TrimStartLower(s: string)
    ensures TrimStart(JavaScript, Lower(s)) == Lower(TrimStart(JavaScript, s))
  {
    if s != [] {
      LowerKeepsSpace(s[0]);
      assert Lower(s)[1..] == Lower(s[1..]);
      if IsSpace(JavaScript, s[0]) {
        TrimStartLower(s[1..]);
      }
    }
  }

  lemma {:induction false} TrimEndLower(s: string)
    ensures TrimEnd(JavaScript, Lower(s)) == Lower(TrimEnd(JavaScript, s))
  {
    if s != [] {
      var n := |s|;
      LowerKeepsSpace(s[n - 1]);
      assert Lower(s)[..n - 1] == Lower(s[..n - 1]);
      if IsSpace(JavaScript, s[n - 1]) {
        TrimEndLower(s[..n - 1]);
      }
    }
  }

  /** Trimming and lower-casing commute. */
  lemma TrimLower(s: string)
    ensures Trim(JavaScript, Lower(s)) == Lower(Trim(JavaScript, s))
  {
    TrimStartLower(s);
    TrimEndLower(TrimStart(JavaScript, s));
  }

  /** A trimmed, lower-cased `d20` or `1d20` is one of the four spellings
      once trimmed. */
  lemma SingleD20Texts(expr: string)
    ensures var t := Trim(JavaScript, Lower(expr));
      t == "d20" || t == "1d20" <==> IsD20Text(Trim(JavaScript, expr))
  {
    var u := Trim(JavaScript, expr);
    TrimLower(expr);
    assert Trim(JavaScript, Lower(expr)) == Lower(u);
    LowerD20(u);
  }

  /** The texts that lower-case to `d20` and `1d20`. */
  lemma LowerD20(t: string)
    ensures Lower(t) == "d20" <==> t == "d20" || t == "D20"
    ensures Lower(t) == "1d20" <==> t == "1d20" || t == "1D20"
  {
    if |t| == 3 {
      assert t == [t[0], t[1], t[2]];
    }
    if |t| == 4 {
      assert t == [t[0], t[1], t[2], t[3]];
    }
  }

  lemma {:induction false} LowerIdempotent(s: string)
    ensures Lower(Lower(s)) == Lower(s)
  {
    if s != [] {
      LowerIdempotent(s[1..]);
    }
  }

  /** The checks ignore case: lower-casing the expression first changes
      neither. */
  lemma CriticalIgnoresCase(expr: string, result: real)
    ensures IsCriticalSuccess(Lower(expr), result) == IsCriticalSuccess(expr, result)
    ensures IsCriticalFail(Lower(expr), result) == IsCriticalFail(expr, result)
  {
    LowerIdempotent(expr);
  }

  /** A result is never both a natural 20 and a natural 1, and neither is
      possible unless the expression is a single d20. */
  lemma CriticalExclusive(expr: string, result: real)
    ensures !(IsCriticalSuccess(expr, result) && IsCriticalFail(expr, result))
    ensures IsCriticalSuccess(expr, result) || IsCriticalFail(expr, result) ==> IsSingleD20(expr)
  {
  }

  // ---------------------------------------------------------------------------
  // The three rewrites on the examples of the comments in normalize. Each step
  // is a lemma of its own about a string equal to the example.

  lemma TrimExample(dialect: Dialect, s: string)
    requires s == "3d6+2"
    ensures ReplaceCaret(Trim(dialect, s)) == s
  {
    assert !IsSpace(dialect, s[0]) && !IsSpace(dialect, s[|s| - 1]);
    assert '^' !in s;
  }

  lemma ParenExample(dialect: Dialect, s: string)
    requires s == "3d6+2"
    ensures Rewrite(dialect, CountedParen, s, 0) == s
  {
    ParenMissesExample(dialect, s);
    assert Rewrite(dialect, CountedParen, s, 5) == s[5..];
    RewriteCopies(dialect, CountedParen, s, 4);
    RewriteCopies(dialect, CountedParen, s, 3);
    RewriteCopies(dialect, CountedParen, s, 2);
    RewriteCopies(dialect, CountedParen, s, 1);
    RewriteCopies(dialect, CountedParen, s, 0);
  }

  lemma ParenMissesExample(dialect: Dialect, s: string)
    requires s == "3d6+2"
    ensures MatchAt(dialect, CountedParen, s, 0) == None && MatchAt(dialect, CountedParen, s, 1) == None
    ensures MatchAt(dialect, CountedParen, s, 2) == None && MatchAt(dialect, CountedParen, s, 3) == None
    ensures MatchAt(dialect, CountedParen, s, 4) == None
  {
    assert DigitsEnd(s, 4) == 5 && SpacesEnd(dialect, s, 5) == 5;
    assert DigitsEnd(s, 3) == 3;
    assert !Boundary(s, 2) && !Boundary(s, 1);
    assert DigitsEnd(s, 0) == 1 && SpacesEnd(dialect, s, 1) == 1 && SpacesEnd(dialect, s, 2) == 2;
  }

  /** Where the pattern does not match, the character is copied. */
  lemma RewriteCopies(dialect: Dialect, p: Pattern, s: string, i: nat)
    requires i < |s| && MatchAt(dialect, p, s, i) == None
    requires Rewrite(dialect, p, s, i + 1) == s[i + 1..]
    ensures Rewrite(dialect, p, s, i) == s[i..]
  {
    assert s[i..] == [s[i]] + s[i + 1..];
  }

  lemma CountedExample(dialect: Dialect, s: string)
    requires s == "3d6+2"
    ensures Rewrite(dialect, Counted, s, 0) == "roll(3,6)+2"
  {
    assert DigitsEnd(s, 0) == 1 && SpacesEnd(dialect, s, 1) == 1 && SpacesEnd(dialect, s, 2) == 2 && DigitsEnd(s, 2) == 3;
    assert Boundary(s, 0) && Boundary(s, 3);
    assert s[0..1] == "3" && s[2..3] == "6";
    assert RollCall(s[0..1], s[2..3]) == "roll(3,6)";
    assert MatchCounted(dialect, s, 0) == Some(("roll(3,6)", 3));
    assert DigitsEnd(s, 3) == 3;
    assert Rewrite(dialect, Counted, s, 3) == "+" + Rewrite(dialect, Counted, s, 4);
    assert DigitsEnd(s, 4) == 5 && SpacesEnd(dialect, s, 5) == 5;
    assert Rewrite(dialect, Counted, s, 4) == "2";
  }

  /** `normalize("3d6+2")` is `"roll(3,6)+2"`. */
  lemma NormalizeExample1(dialect: Dialect, s: string)
    requires s == "3d6+2"
    ensures Normalize(dialect, s) == "roll(3,6)+2"
  {
    TrimExample(dialect, s);
    ParenExample(dialect, s);
    CountedExample(dialect, s);
    SingleExample(dialect, Rewrite(dialect, Counted, s, 0));
  }

  lemma SingleExample(dialect: Dialect, t: string)
    requires t == "roll(3,6)+2"
    ensures Rewrite(dialect, Single, t, 0) == t
  {
    RewriteNoMarker(dialect, Single, t, 0);
    assert t[0..] == t;
  }

  lemma ParenExample2(dialect: Dialect, s: string)
    requires s == "2d(8)"
    ensures Rewrite(dialect, CountedParen, ReplaceCaret(Trim(dialect, s)), 0) == "roll(2,8)"
  {
    PlainExample2(dialect, s);
    ParenMatchExample2(dialect, s);
    assert Rewrite(dialect, CountedParen, s, 0) == "roll(2,8)" + Rewrite(dialect, CountedParen, s, 5);
  }

  lemma PlainExample2(dialect: Dialect, s: string)
    requires s == "2d(8)"
    ensures ReplaceCaret(Trim(dialect, s)) == s
  {
    assert !IsSpace(dialect, s[0]) && !IsSpace(dialect, s[|s| - 1]);
    assert '^' !in s;
  }

  lemma ParenMatchExample2(dialect: Dialect, s: string)
    requires s == "2d(8)"
    ensures MatchCountedParen(dialect, s, 0) == Some(("roll(2,8)", 5))
  {
    assert DigitsEnd(s, 0) == 1 && SpacesEnd(dialect, s, 1) == 1 && SpacesEnd(dialect, s, 2) == 2;
    assert SpacesEnd(dialect, s, 3) == 3 && DigitsEnd(s, 3) == 4 && SpacesEnd(dialect, s, 4) == 4;
    assert RollCall(s[0..1], s[3..4]) == "roll(2,8)";
  }

  lemma UnchangedExample2(dialect: Dialect, t: string)
    requires t == "roll(2,8)"
    ensures Rewrite(dialect, Single, Rewrite(dialect, Counted, t, 0), 0) == t
  {
    RewriteNoMarker(dialect, Counted, t, 0);
    RewriteNoMarker(dialect, Single, t, 0);
    assert t[0..] == t;
  }

  /** `normalize("2d(8)")` is `"roll(2,8)"`. */
  lemma NormalizeExample2(dialect: Dialect, s: string)
    requires s == "2d(8)"
    ensures Normalize(dialect, s) == "roll(2,8)"
  {
    ParenExample2(dialect, s);
    UnchangedExample2(dialect, Rewrite(dialect, CountedParen, ReplaceCaret(Trim(dialect, s)), 0));
  }

  lemma PairsExample3(dialect: Dialect, s: string)
    requires s == "d20"
    ensures Rewrite(dialect, Counted, Rewrite(dialect, CountedParen, ReplaceCaret(Trim(dialect, s)), 0), 0) == s
  {
    assert !IsSpace(dialect, s[0]) && !IsSpace(dialect, s[|s| - 1]);
    assert '^' !in s;
    assert DigitsEnd(s, 0) == 0 && !Boundary(s, 1) && !Boundary(s, 2);
    assert Rewrite(dialect, CountedParen, s, 0) == [s[0]] + Rewrite(dialect, CountedParen, s, 1);
    assert Rewrite(dialect, CountedParen, s, 1) == [s[1]] + Rewrite(dialect, CountedParen, s, 2);
    assert Rewrite(dialect, CountedParen, s, 2) == [s[2]];
    assert Rewrite(dialect, Counted, s, 0) == [s[0]] + Rewrite(dialect, Counted, s, 1);
    assert Rewrite(dialect, Counted, s, 1) == [s[1]] + Rewrite(dialect, Counted, s, 2);
    assert Rewrite(dialect, Counted, s, 2) == [s[2]];
  }

  lemma SingleExample3(dialect: Dialect, s: string)
    requires s == "d20"
    ensures Rewrite(dialect, Single, s, 0) == "d(20)"
  {
    assert Boundary(s, 0) && SpacesEnd(dialect, s, 1) == 1 && DigitsEnd(s, 1) == 3 && Boundary(s, 3);
    assert DieCall(s[1..3]) == "d(20)";
    assert MatchSingle(dialect, s, 0) == Some(("d(20)", 3));
  }

  /** `normalize("d20")` is `"d(20)"`. */
  lemma NormalizeExample3(dialect: Dialect, s: string)
    requires s == "d20"
    ensures Normalize(dialect, s) == "d(20)"
  {
    PairsExample3(dialect, s);
    SingleExample3(dialect, Rewrite(dialect, Counted, Rewrite(dialect, CountedParen, ReplaceCaret(Trim(dialect, s)), 0), 0));
  }

  lemma CaretReplaceExample(s: string)
    requires s == "d12^2"
    ensures ReplaceCaret(s) == "d12**2"
  {
    assert s[4..] == [s[4]] && s[3..][1..] == s[4..] && s[2..][1..] == s[3..] && s[1..][1..] == s[2..];
    assert ReplaceCaret(s[4..]) == "2";
    assert ReplaceCaret(s[3..]) == "**" + ReplaceCaret(s[4..]);
    assert ReplaceCaret(s[2..]) == "2" + ReplaceCaret(s[3..]);
    assert ReplaceCaret(s[1..]) == "1" + ReplaceCaret(s[2..]);
    assert ReplaceCaret(s) == "d" + ReplaceCaret(s[1..]);
  }

  lemma CaretStepExample(dialect: Dialect, s: string)
    requires s == "d12^2"
    ensures ReplaceCaret(Trim(dialect, s)) == "d12**2"
  {
    assert !IsSpace(dialect, s[0]) && !IsSpace(dialect, s[|s| - 1]);
    assert Trim(dialect, s) == s;
    CaretReplaceExample(s);
  }

  lemma CaretParenExample(dialect: Dialect, t: string)
    requires t == "d12**2"
    ensures Rewrite(dialect, CountedParen, t, 0) == t
  {
    assert DigitsEnd(t, 0) == 0 && !Boundary(t, 1) && !Boundary(t, 2) && !Boundary(t, 4);
    assert DigitsEnd(t, 3) == 3 && DigitsEnd(t, 5) == 6 && SpacesEnd(dialect, t, 6) == 6;
    assert MatchCountedParen(dialect, t, 0) == None;
    assert MatchCountedParen(dialect, t, 1) == None;
    assert MatchCountedParen(dialect, t, 2) == None;
    assert MatchCountedParen(dialect, t, 3) == None;
    assert MatchCountedParen(dialect, t, 4) == None;
    assert MatchCountedParen(dialect, t, 5) == None;
    assert Rewrite(dialect, CountedParen, t, 5) == [t[5]];
    assert Rewrite(dialect, CountedParen, t, 4) == [t[4]] + Rewrite(dialect, CountedParen, t, 5);
    assert Rewrite(dialect, CountedParen, t, 3) == [t[3]] + Rewrite(dialect, CountedParen, t, 4);
    assert Rewrite(dialect, CountedParen, t, 2) == [t[2]] + Rewrite(dialect, CountedParen, t, 3);
    assert Rewrite(dialect, CountedParen, t, 1) == [t[1]] + Rewrite(dialect, CountedParen, t, 2);
    assert Rewrite(dialect, CountedParen, t, 0) == [t[0]] + Rewrite(dialect, CountedParen, t, 1);
  }

  lemma CaretCountedExample(dialect: Dialect, t: string)
    requires t == "d12**2"
    ensures Rewrite(dialect, Counted, t, 0) == t
  {
    assert DigitsEnd(t, 0) == 0 && !Boundary(t, 1) && !Boundary(t, 2) && !Boundary(t, 4);
    assert DigitsEnd(t, 3) == 3 && DigitsEnd(t, 5) == 6 && SpacesEnd(dialect, t, 6) == 6;
    assert MatchCounted(dialect, t, 0) == None;
    assert MatchCounted(dialect, t, 1) == None;
    assert MatchCounted(dialect, t, 2) == None;
    assert MatchCounted(dialect, t, 3) == None;
    assert MatchCounted(dialect, t, 4) == None;
    assert MatchCounted(dialect, t, 5) == None;
    assert Rewrite(dialect, Counted, t, 5) == [t[5]];
    assert Rewrite(dialect, Counted, t, 4) == [t[4]] + Rewrite(dialect, Counted, t, 5);
    assert Rewrite(dialect, Counted, t, 3) == [t[3]] + Rewrite(dialect, Counted, t, 4);
    assert Rewrite(dialect, Counted, t, 2) == [t[2]] + Rewrite(dialect, Counted, t, 3);
    assert Rewrite(dialect, Counted, t, 1) == [t[1]] + Rewrite(dialect, Counted, t, 2);
    assert Rewrite(dialect, Counted, t, 0) == [t[0]] + Rewrite(dialect, Counted, t, 1);
  }

  lemma CaretSingleExample(dialect: Dialect, t: string)
    requires t == "d12**2"
    ensures Rewrite(dialect, Single, t, 0) == "d(12)**2"
  {
    assert t[1] == '1' && t[2] == '2' && t[3] == '*';
    DigitsEndAt(t, 1, 3);
    assert Boundary(t, 0) && SpacesEnd(dialect, t, 1) == 1 && Boundary(t, 3);
    assert DieCall(t[1..3]) == "d(12)";
    assert MatchSingle(dialect, t, 0) == Some(("d(12)", 3));
    assert Rewrite(dialect, Single, t, 5) == [t[5]];
    assert Rewrite(dialect, Single, t, 4) == [t[4]] + Rewrite(dialect, Single, t, 5);
    assert Rewrite(dialect, Single, t, 3) == [t[3]] + Rewrite(dialect, Single, t, 4);
  }

  /** `normalize("d12^2")` is `"d(12)**2"`: the caret becomes the power operator. */
  lemma NormalizeCaretExample(dialect: Dialect, s: string)
    requires s == "d12^2"
    ensures Normalize(dialect, s) == "d(12)**2"
  {
    CaretStepExample(dialect, s);
    CaretParenExample(dialect, "d12**2");
    CaretCountedExample(dialect, "d12**2");
    CaretSingleExample(dialect, "d12**2");
  }

  lemma IdentifiersExample(e: string)
    requires e == "1 + foo"
    ensures Identifiers(e) == ["foo"]
  {
    assert IdentEnd(e, 4) == 7;
    assert e[4..7] == "foo";
    assert IdentifiersFrom(e, 7) == [];
    assert IdentifiersFrom(e, 4) == ["foo"];
    assert IdentifiersFrom(e, 3) == IdentifiersFrom(e, 4);
    assert IdentifiersFrom(e, 2) == IdentifiersFrom(e, 3);
    assert IdentifiersFrom(e, 1) == IdentifiersFrom(e, 2);
    assert IdentifiersFrom(e, 0) == IdentifiersFrom(e, 1);
  }

  lemma UnknownNamesExample(dialect: Dialect, e: string)
    requires e == "1 + foo"
    ensures AllAllowed(dialect, e)
    ensures FirstUnknown(Identifiers(e)) == 0
    ensures Dedup(UnknownNames(Identifiers(e))) == ["foo"]
  {
    IdentifiersExample(e);
    assert UnknownNames(["foo"]) == ["foo"];
    assert Dedup(["foo"]) == ["foo"];
  }

  /** `ensureSafe("1 + foo")` names `foo`. */
  lemma EnsureSafeExample(e: string)
    requires e == "1 + foo"
    ensures EnsureSafe(JavaScript, e) == Fail(UnknownIdentifiers(["foo"]))
    ensures EnsureSafe(Python, e) == Fail(UnknownIdentifiers(["foo"]))
  {
    UnknownNamesExample(JavaScript, e);
    UnknownNamesExample(Python, e);
    IdentifiersExample(e);
    assert SortStrings(["foo"]) == ["foo"];
  }

  lemma TrimLowerExample(a: string)
    requires a == " D20 "
    ensures Trim(JavaScript, Lower(a)) == "d20"
  {
    var la := Lower(a);
    LowerExample(a);
    TrimStartExample(la);
    TrimEndExample(la[1..]);
  }

  lemma LowerExample(a: string)
    requires a == " D20 "
    ensures Lower(a) == " d20 "
  {
  }

  lemma TrimStartExample(la: string)
    requires la == " d20 "
    ensures TrimStart(JavaScript, la) == "d20 "
  {
    var rest := la[1..];
    assert IsSpace(JavaScript, la[0]) && rest == "d20 ";
    assert !IsSpace(JavaScript, rest[0]);
    assert TrimStart(JavaScript, rest) == rest;
  }

  lemma TrimEndExample(la: string)
    requires la == "d20 "
    ensures TrimEnd(JavaScript, la) == "d20"
  {
  }

  lemma TwoD20Example(b: string)
    requires b == "2d20"
    ensures Trim(JavaScript, Lower(b)) == b
  {
    assert Lower(b) == b;
    assert !IsSpace(JavaScript, b[0]) && !IsSpace(JavaScript, b[|b| - 1]);
  }

  /** A natural 20 on ` D20 ` is a critical success and not a critical
      failure. */
  lemma CriticalExample(a: string)
    requires a == " D20 "
    ensures IsCriticalSuccess(a, 20.0) && !IsCriticalFail(a, 20.0)
  {
    TrimLowerExample(a);
  }

  /** A 20 on `2d20` is not a critical success: two dice are not a natural
      roll. */
  lemma NotCriticalExample(b: string)
    requires b == "2d20"
    ensures !IsCriticalSuccess(b, 20.0)
  {
    TwoD20Example(b);
    var t := Trim(JavaScript, Lower(b));
    assert t[0] == '2';
    assert t != "1d20" && t != "d20";
  }
}
