/** The signal-expression language of src/utils/Convolucion/signalFunctions.ts:
    either a comma-separated list of numbers, or a sum of terms such as
    `-2*δ[n-3] + u[n+1]`. Covers the two term splitters (splitExpression, and the
    one inside determineExpressionRange), the token patterns of parseTerm, the
    automatic range and parseSignalExpression. */
module Expressions {
  import opened Text
  import opened Signals

  /** The Greek letter delta (U+03B4). */
  const Delta: char := '\U{03B4}'

  predicate IsSign(c: char) {
    c == '+' || c == '-'
  }

  /** `expression.trim().replace(/\s+/g, '')`: see CleanIsStripWhitespace. */
  function Clean(expression: string): (r: string)
    ensures NoWhitespace(r)
  {
    StripWhitespace(Trim(expression))
  }

  /** The trim removes nothing that the replace would keep, so the cleaned expression
      is the expression with its whitespace filtered out. */
  lemma CleanIsStripWhitespace(expression: string)
    ensures Clean(expression) == StripWhitespace(expression)
  {
    TrimKeepsContent(expression);
  }

  // ---------------------------------------------------------------------------
  // Splitting into terms
  // ---------------------------------------------------------------------------

  /** The two splitters: splitExpression cuts before a sign outside brackets;
      determineExpressionRange cuts before every sign once a non-sign character
      has been seen, brackets or not. */
  datatype Splitter = BracketAware | SignsOnly

  /** Whether position i lies inside brackets: the last '[' or ']' before i is '['. */
  function InBrackets(s: string, i: nat): bool
    requires i <= |s|
  {
    if i == 0 then false
    else if s[i - 1] == '[' then true
    else if s[i - 1] == ']' then false
    else InBrackets(s, i - 1)
  }

  predicate AllSigns(t: string) {
    forall j :: 0 <= j < |t| ==> IsSign(t[j])
  }

  /** A new term starts at position i. */
  predicate IsCut(sp: Splitter, s: string, i: int) {
    0 < i < |s| && IsSign(s[i])
    && match sp
       case BracketAware => !InBrackets(s, i)
       case SignsOnly => !AllSigns(s[..i])
  }

  /** The terms written one after the other. */
  function Concat(ts: seq<string>): string {
    if ts == [] then [] else Concat(ts[..|ts| - 1]) + ts[|ts| - 1]
  }

  /** The position in the text where term k starts. */
  function Offset(ts: seq<string>, k: nat): nat
    requires k <= |ts|
  {
    |Concat(ts[..k])|
  }

  /** ts is the split of s: the terms give s back, none is empty, each term
      after the first starts at a cut, and no cut falls inside a term. */
  ghost predicate SplitsAt(sp: Splitter, s: string, ts: seq<string>) {
    Concat(ts) == s
    && (forall k :: 0 <= k < |ts| ==> ts[k] != [])
    && (forall k :: 1 <= k < |ts| ==> IsCut(sp, s, Offset(ts, k)))
    && (forall k, m :: 0 <= k < |ts| && 0 < m < |ts[k]| ==> !CutAfter(sp, s, Offset(ts, k), m))
  }

  /** A cut m characters after position base. */
  predicate CutAfter(sp: Splitter, s: string, base: nat, m: nat) {
    IsCut(sp, s, base + m)
  }

  /** The terms a splitter produces, character by character: a character at a cut
      starts a new term, any other one extends the current term. */
  function SplitBy(sp: Splitter, s: string): (ts: seq<string>)
    ensures s == [] <==> ts == []
  {
    if s == [] then []
    else
      var ts := SplitBy(sp, s[..|s| - 1]);
      var c := s[|s| - 1];
      if ts == [] then [[c]]
      else if IsCut(sp, s, |s| - 1) then ts + [[c]]
      else ts[..|ts| - 1] + [ts[|ts| - 1] + [c]]
  }

  lemma {:induction false} InBracketsPrefix(s: string, c: char, i: nat)
    requires i <= |s|
    ensures InBrackets(s + [c], i) == InBrackets(s, i)
  {
    if i > 0 {
      assert (s + [c])[i - 1] == s[i - 1];
      InBracketsPrefix(s, c, i - 1);
    }
  }

  /** Whether a position is a cut depends only on the text up to it. */
  lemma IsCutPrefix(sp: Splitter, s: string, c: char, i: int)
    requires i < |s|
    ensures IsCut(sp, s + [c], i) == IsCut(sp, s, i)
  {
    if 0 < i {
      assert (s + [c])[i] == s[i];
      assert (s + [c])[..i] == s[..i];
      InBracketsPrefix(s, c, i);
    }
  }

  lemma ConcatSnoc(ts: seq<string>, t: string)
    ensures Concat(ts + [t]) == Concat(ts) + t
    ensures forall k :: 0 <= k <= |ts| ==> Offset(ts + [t], k) == Offset(ts, k)
  {
    assert (ts + [t])[..|ts|] == ts;
    forall k | 0 <= k <= |ts|
      ensures Offset(ts + [t], k) == Offset(ts, k)
    {
      assert (ts + [t])[..k] == ts[..k];
    }
  }

  /** A character at a cut starts a new term. */
  lemma SplitsAtNewTerm(sp: Splitter, s: string, ts: seq<string>, c: char)
    requires SplitsAt(sp, s, ts) && IsCut(sp, s + [c], |s|)
    ensures SplitsAt(sp, s + [c], ts + [[c]])
  {
    var s' := s + [c];
    var ts' := ts + [[c]];
    ConcatSnoc(ts, [c]);
    assert Offset(ts', |ts|) == |s|;
    forall i | i < |s|
      ensures IsCut(sp, s', i) == IsCut(sp, s, i)
    {
      IsCutPrefix(sp, s, c, i);
    }
    forall k | 1 <= k < |ts'|
      ensures IsCut(sp, s', Offset(ts', k))
    {
      if k < |ts| {
        assert Offset(ts, k) < |s| by {
          ConcatIndex(ts, k, 0);
        }
      }
    }
    forall k, m | 0 <= k < |ts'| && 0 < m < |ts'[k]|
      ensures !CutAfter(sp, s', Offset(ts', k), m)
    {
      ConcatIndex(ts, k, m);
      assert !CutAfter(sp, s, Offset(ts, k), m);
    }
  }

  /** A character that is not at a cut extends the last term. */
  lemma SplitsAtSameTerm(sp: Splitter, s: string, ts: seq<string>, c: char)
    requires SplitsAt(sp, s, ts) && ts != [] && !IsCut(sp, s + [c], |s|)
    ensures SplitsAt(sp, s + [c], ts[..|ts| - 1] + [ts[|ts| - 1] + [c]])
  {
    var n := |ts|;
    var init := ts[..n - 1];
    var last := ts[n - 1];
    var s' := s + [c];
    var ts' := init + [last + [c]];
    assert ts == init + [last];
    ConcatSnoc(init, last);
    ConcatSnoc(init, last + [c]);
    assert Concat(ts') == s';
    forall i | i < |s|
      ensures IsCut(sp, s', i) == IsCut(sp, s, i)
    {
      IsCutPrefix(sp, s, c, i);
    }
    forall k | 1 <= k < |ts'|
      ensures IsCut(sp, s', Offset(ts', k))
    {
      assert Offset(ts', k) == Offset(ts, k);
      ConcatIndex(ts, k, 0);
    }
    forall k, m | 0 <= k < |ts'| && 0 < m < |ts'[k]|
      ensures !CutAfter(sp, s', Offset(ts', k), m)
    {
      assert Offset(ts', k) == Offset(ts, k);
      if k < n - 1 || m < |last| {
        ConcatIndex(ts, k, m);
        assert !CutAfter(sp, s, Offset(ts, k), m);
      } else {
        assert Offset(ts, k) + m == |s|;
      }
    }
  }

  /** Character m of term k sits at Offset(ts, k) + m of the joined text. */
  lemma {:induction false} ConcatIndex(ts: seq<string>, k: nat, m: nat)
    requires k < |ts| && m < |ts[k]|
    ensures Offset(ts, k) + m < |Concat(ts)| && Concat(ts)[Offset(ts, k) + m] == ts[k][m]
    decreases |ts|
  {
    var n := |ts|;
    var init := ts[..n - 1];
    assert ts == init + [ts[n - 1]];
    ConcatSnoc(init, ts[n - 1]);
    if k < n - 1 {
      ConcatIndex(init, k, m);
    } else {
      assert ts[..k] == init;
    }
  }

  /** SplitBy meets its specification. */
  lemma {:induction false} SplitByIsSplit(sp: Splitter, s: string)
    ensures SplitsAt(sp, s, SplitBy(sp, s))
    decreases |s|
  {
    if s != [] {
      var p := s[..|s| - 1];
      var c := s[|s| - 1];
      assert s == p + [c];
      SplitByIsSplit(sp, p);
      var ts := SplitBy(sp, p);
      if ts == [] {
        assert [[c]][..0] == [];
        assert [[c]][..1] == [[c]];
      } else if IsCut(sp, s, |s| - 1) {
        SplitsAtNewTerm(sp, p, ts, c);
      } else {
        SplitsAtSameTerm(sp, p, ts, c);
      }
    }
  }

  /** Every term after the first starts with '+' or '-', and for splitExpression
      that sign lies outside brackets. */
  lemma SplitTermsStartWithSign(sp: Splitter, s: string, ts: seq<string>, k: nat)
    requires SplitsAt(sp, s, ts) && 1 <= k < |ts|
    ensures IsSign(ts[k][0])
    ensures sp == BracketAware ==> !InBrackets(s, Offset(ts, k))
  {
    ConcatIndex(ts, k, 0);
  }

  /** A term of determineExpressionRange's splitter has all its signs in front:
      no '+' or '-' follows another character. */
  predicate SignsFirst(t: string) {
    forall a, b :: 0 <= a < b < |t| && !IsSign(t[a]) ==> !IsSign(t[b])
  }

  lemma SignsOnlyTerms(s: string, ts: seq<string>, k: nat)
    requires SplitsAt(SignsOnly, s, ts) && k < |ts|
    ensures SignsFirst(ts[k])
  {
    forall a, b | 0 <= a < b < |ts[k]| && !IsSign(ts[k][a])
      ensures !IsSign(ts[k][b])
    {
      ConcatIndex(ts, k, a);
      ConcatIndex(ts, k, b);
      var P := Offset(ts, k) + b;
      assert s[..P][Offset(ts, k) + a] == ts[k][a];
      assert !CutAfter(SignsOnly, s, Offset(ts, k), b);
    }
  }

  /** signalFunctions.ts splitExpression: scan the text, tracking whether the scan
      is inside brackets; a '+' or '-' outside brackets ends the current term
      (when it is not empty) and starts the next one. */
  method SplitExpression(expr: string) returns (terms: seq<string>)
    ensures terms == SplitBy(BracketAware, expr)
    ensures SplitsAt(BracketAware, expr, terms)
  {
    terms := [];
    var currentTerm: string := [];
    var inBrackets := false;
    for i := 0 to |expr|
      invariant inBrackets == InBrackets(expr, i)
      invariant i == 0 ==> terms == [] && currentTerm == []
      invariant i > 0 ==> currentTerm != [] && terms + [currentTerm] == SplitBy(BracketAware, expr[..i])
    {
      var c := expr[i];
      assert expr[..i + 1] == expr[..i] + [c];
      assert expr[..i + 1][..i] == expr[..i];
      IsCutPrefix(BracketAware, expr[..i + 1], if i + 1 < |expr| then expr[i + 1] else c, i);
      CutInPrefix(BracketAware, expr, i);
      if c == '[' {
        inBrackets := true;
        currentTerm := currentTerm + [c];
      } else if c == ']' {
        inBrackets := false;
        currentTerm := currentTerm + [c];
      } else if IsSign(c) && !inBrackets && |currentTerm| > 0 {
        terms := terms + [currentTerm];
        currentTerm := [c];
      } else {
        currentTerm := currentTerm + [c];
      }
    }
    assert expr[..|expr|] == expr;
    if |currentTerm| > 0 {
      terms := terms + [currentTerm];
    }
    SplitByIsSplit(BracketAware, expr);
  }

  /** A cut at i in the whole text is a cut at i in the text up to i + 1. */
  lemma CutInPrefix(sp: Splitter, s: string, i: nat)
    requires i < |s|
    ensures IsCut(sp, s[..i + 1], i) == IsCut(sp, s, i)
    ensures InBrackets(s[..i + 1], i) == InBrackets(s, i)
  {
    InBracketsUpTo(s, i + 1, i);
    assert s[..i + 1][..i] == s[..i];
  }

  lemma {:induction false} InBracketsUpTo(s: string, j: nat, i: nat)
    requires i <= j <= |s|
    ensures InBrackets(s[..j], i) == InBrackets(s, i)
  {
    if i > 0 {
      InBracketsUpTo(s, j, i - 1);
    }
  }

  /** determineExpressionRange's splitter (signalFunctions.ts:88-111): a '+' or
      '-' ends the current term once the first term has seen a character other
      than a sign; brackets are not tracked. */
  method SplitAtSigns(expr: string) returns (terms: seq<string>)
    ensures terms == SplitBy(SignsOnly, expr)
    ensures SplitsAt(SignsOnly, expr, terms)
  {
    terms := [];
    var currentTerm: string := [];
    var isFirstTerm := true;
    for i := 0 to |expr|
      invariant isFirstTerm == AllSigns(expr[..i])
      invariant i == 0 ==> terms == [] && currentTerm == []
      invariant i > 0 ==> currentTerm != [] && terms + [currentTerm] == SplitBy(SignsOnly, expr[..i])
    {
      var c := expr[i];
      assert expr[..i + 1] == expr[..i] + [c];
      assert expr[..i + 1][..i] == expr[..i];
      CutInPrefix(SignsOnly, expr, i);
      if IsSign(c) && !isFirstTerm && |currentTerm| > 0 {
        terms := terms + [currentTerm];
        currentTerm := [c];
      } else {
        currentTerm := currentTerm + [c];
        if !IsSign(c) {
          isFirstTerm := false;
        }
      }
    }
    assert expr[..|expr|] == expr;
    if |currentTerm| > 0 {
      terms := terms + [currentTerm];
    }
    SplitByIsSplit(SignsOnly, expr);
  }

  lemma SignsFirstSlice(t: string, i: nat, j: nat)
    requires SignsFirst(t) && i <= j <= |t|
    ensures SignsFirst(t[i..j])
  {
    forall a, b | 0 <= a < b < j - i && !IsSign(t[i..j][a])
      ensures !IsSign(t[i..j][b])
    {
      assert t[i..j][a] == t[i + a] && t[i..j][b] == t[i + b];
    }
  }

  /** trim() keeps a term of determineExpressionRange's splitter a slice of it. */
  lemma TrimSignsFirst(t: string)
    requires SignsFirst(t)
    ensures SignsFirst(Trim(t))
  {
    var u := TrimStart(t);
    SignsFirstSlice(t, |t| - |u|, |t|);
    SignsFirstSlice(u, 0, |TrimEnd(u)|);
  }

  // ---------------------------------------------------------------------------
  // The comma-separated format
  // ---------------------------------------------------------------------------

  /** Whether the text is read as a list of numbers: it mentions neither the
      Greek delta, nor "u[", nor "delta". */
  predicate NumericMode(expr: string) {
    !Contains(expr, [Delta]) && !Contains(expr, "u[") && !Contains(expr, "delta")
  }

  /** `pieces.map(val => parseFloat(val.trim())).filter(val => !isNaN(val))`. */
  function ParseNumbers(pieces: seq<string>): (r: seq<real>)
    ensures |r| <= |pieces|
  {
    if pieces == [] then []
    else
      (match ParseFloat(Trim(pieces[0]))
       case Some(x) => [x]
       case None => [])
      + ParseNumbers(pieces[1..])
  }

  /** The samples of a comma-separated list. */
  function NumericSamples(expr: string): seq<real> {
    ParseNumbers(SplitOn(expr, ','))
  }

  /** A number as a user types it in a list: an optional '-' and a decimal. */
  datatype Number = Number(negative: bool, magnitude: Decimal)

  predicate WellFormedNumbers(xs: seq<Number>) {
    forall i :: 0 <= i < |xs| ==> WellFormedDecimal(xs[i].magnitude)
  }

  function NumberText(x: Number): string {
    (if x.negative then "-" else "") + DecimalText(x.magnitude)
  }

  function NumberValue(x: Number): real
    requires WellFormedDecimal(x.magnitude)
  {
    Signed(x.negative, DecimalValue(x.magnitude))
  }

  function Numerals(xs: seq<Number>): (r: seq<string>)
    ensures |r| == |xs| && forall i :: 0 <= i < |xs| ==> r[i] == NumberText(xs[i])
  {
    if xs == [] then [] else [NumberText(xs[0])] + Numerals(xs[1..])
  }

  function Values(xs: seq<Number>): (r: seq<real>)
    requires WellFormedNumbers(xs)
    ensures |r| == |xs| && forall i :: 0 <= i < |xs| ==> r[i] == NumberValue(xs[i])
  {
    if xs == [] then [] else [NumberValue(xs[0])] + Values(xs[1..])
  }

  /** A character that can appear in a number of a list. */
  predicate NumberChar(c: char) {
    IsDigit(c) || c == '-' || c == '.'
  }

  /** A character that can appear in a list of numbers. */
  predicate ListChar(c: char) {
    NumberChar(c) || c == ','
  }

  /** Each number reads back as its value. */
  lemma ParseNumberText(x: Number)
    requires WellFormedDecimal(x.magnitude)
    ensures ParseFloat(Trim(NumberText(x))) == Some(NumberValue(x))
  {
    NumberTextTrimmed(x);
    var sign := if x.negative then "-" else "";
    ParseFloatOfDecimal(sign, x.magnitude);
  }

  /** A number has no whitespace around it, so trim leaves it alone. */
  lemma NumberTextTrimmed(x: Number)
    requires WellFormedDecimal(x.magnitude)
    ensures Trim(NumberText(x)) == NumberText(x)
  {
    var sign := if x.negative then "-" else "";
    var w := NumberText(x);
    var t := DecimalText(x.magnitude);
    DecimalTextChars(x.magnitude);
    assert w == sign + t;
    assert w[|w| - 1] == t[|t| - 1];
    assert w[0] == (if x.negative then '-' else t[0]);
    TrimKeeps(w);
  }

  lemma TrimKeeps(s: string)
    requires s != [] && !IsWhitespace(s[0]) && !IsWhitespace(s[|s| - 1])
    ensures Trim(s) == s
  {
  }

  lemma {:induction false} ParseNumeralsBack(xs: seq<Number>)
    requires WellFormedNumbers(xs)
    ensures ParseNumbers(Numerals(xs)) == Values(xs)
    decreases |xs|
  {
    if xs != [] {
      var pieces := Numerals(xs);
      ParseNumberText(xs[0]);
      assert pieces[1..] == Numerals(xs[1..]);
      ParseNumbersCons(pieces, NumberValue(xs[0]));
      ParseNumeralsBack(xs[1..]);
    }
  }

  lemma ParseNumbersCons(pieces: seq<string>, x: real)
    requires pieces != [] && ParseFloat(Trim(pieces[0])) == Some(x)
    ensures ParseNumbers(pieces) == [x] + ParseNumbers(pieces[1..])
  {
  }

  lemma {:induction false} JoinListChars(pieces: seq<string>)
    requires forall k, i :: 0 <= k < |pieces| && 0 <= i < |pieces[k]| ==> ListChar(pieces[k][i])
    ensures forall i :: 0 <= i < |Join(pieces, ',')| ==> ListChar(Join(pieces, ',')[i])
    decreases |pieces|
  {
    if |pieces| > 1 {
      JoinListChars(pieces[1..]);
      assert forall k, i :: 0 <= k < |pieces[1..]| && 0 <= i < |pieces[1..][k]| ==> ListChar(pieces[1..][k][i]);
    }
  }

  lemma NotContains(s: string, sub: string)
    requires sub != [] && forall i :: 0 <= i < |s| ==> s[i] != sub[0]
    ensures !Contains(s, sub)
  {
    forall i | 0 <= i <= |s|
      ensures !(sub <= s[i..])
    {
      if i < |s| {
        assert s[i..][0] == s[i];
      }
    }
  }

  lemma NumberChars(x: Number)
    requires WellFormedDecimal(x.magnitude)
    ensures forall i :: 0 <= i < |NumberText(x)| ==> NumberChar(NumberText(x)[i])
  {
    var t := DecimalText(x.magnitude);
    DecimalTextChars(x.magnitude);
    if x.negative {
      assert forall i :: 1 <= i < |NumberText(x)| ==> NumberText(x)[i] == t[i - 1];
    } else {
      assert NumberText(x) == t;
    }
  }

  /** The characters of a list of numbers joined with commas. */
  lemma ListTextChars(xs: seq<Number>)
    requires WellFormedNumbers(xs)
    ensures forall i :: 0 <= i < |Join(Numerals(xs), ',')| ==> ListChar(Join(Numerals(xs), ',')[i])
  {
    var pieces := Numerals(xs);
    forall k | 0 <= k < |pieces|
      ensures forall i :: 0 <= i < |pieces[k]| ==> ListChar(pieces[k][i])
    {
      NumberChars(xs[k]);
    }
    JoinListChars(pieces);
  }

  /** The list text has no spaces and no pattern, and splits back into the numbers. */
  lemma ListTextIsNumeric(xs: seq<Number>)
    requires |xs| >= 1 && WellFormedNumbers(xs)
    ensures var text := Join(Numerals(xs), ',');
            Clean(text) == text && NumericMode(text) && NumericSamples(text) == Values(xs)
  {
    ListTextPlain(xs);
    ListTextSamples(xs);
  }

  lemma ListTextPlain(xs: seq<Number>)
    requires WellFormedNumbers(xs)
    ensures var text := Join(Numerals(xs), ',');
            Clean(text) == text && NumericMode(text)
  {
    var text := Join(Numerals(xs), ',');
    ListTextChars(xs);
    assert NoWhitespace(text);
    assert [Delta][0] == Delta && "u["[0] == 'u' && "delta"[0] == 'd';
    forall i | 0 <= i < |text|
      ensures text[i] != Delta && text[i] != 'u' && text[i] != 'd'
    {
      assert ListChar(text[i]);
    }
    NotContains(text, [Delta]);
    NotContains(text, "u[");
    NotContains(text, "delta");
  }

  lemma ListTextSamples(xs: seq<Number>)
    requires |xs| >= 1 && WellFormedNumbers(xs)
    ensures NumericSamples(Join(Numerals(xs), ',')) == Values(xs)
  {
    var pieces := Numerals(xs);
    forall k | 0 <= k < |pieces|
      ensures forall i :: 0 <= i < |pieces[k]| ==> pieces[k][i] != ','
    {
      NumberChars(xs[k]);
    }
    SplitOnJoin(pieces, ',');
    assert NumericSamples(Join(pieces, ',')) == ParseNumbers(pieces);
    ParseNumeralsBack(xs);
  }

  /** A comma-separated list of decimal numbers, written with no spaces, is read
      back as those numbers starting at index 0, whatever range is supplied. */
  lemma NumericListRoundTrip(xs: seq<Number>, customRange: Option<IndexRange>)
    requires |xs| >= 1 && WellFormedNumbers(xs)
    ensures ParseSpec(Join(Numerals(xs), ','), customRange) == Ok(DiscreteSignal(Values(xs), 0))
  {
    ListTextIsNumeric(xs);
  }

  // ---------------------------------------------------------------------------
  // The patterns of a term
  // ---------------------------------------------------------------------------

  /** `\[n([+-]\d+)?\]` at position q: Some(0) for "[n]", and for "[n-k]" or
      "[n+k]" the delay k or -k; None when the text there does not match. */
  function BracketDelay(t: string, q: nat): (r: Option<int>)
    requires q <= |t|
    ensures r.Some? ==> q + 2 < |t| && t[q] == '[' && t[q + 1] == 'n'
    ensures r.Some? && r.value != 0 ==> IsSign(t[q + 2])
  {
    if q + 2 < |t| && t[q] == '[' && t[q + 1] == 'n' then
      if t[q + 2] == ']' then Some(0)
      else if IsSign(t[q + 2]) then
        var d := DigitRun(t, q + 3);
        if d >= 1 && q + 3 + d < |t| && t[q + 3 + d] == ']' then
          var value: int := DigitsValue(t[q + 3..q + 3 + d]);
          Some(if t[q + 2] == '-' then value else -value)
        else None
      else None
    else None
  }

  /** The two patterns: `(?:δ|delta)\[n([+-]\d+)?\]` and `u\[n([+-]\d+)?\]`. */
  datatype Pattern = ImpulsePattern | StepPattern

  /** The delay of a match of the pattern starting at position p. */
  function MatchAt(pat: Pattern, t: string, p: nat): Option<int>
    requires p <= |t|
  {
    match pat
    case ImpulsePattern =>
      if p < |t| && t[p] == Delta then BracketDelay(t, p + 1)
      else if "delta" <= t[p..] then BracketDelay(t, p + 5)
      else None
    case StepPattern =>
      if p < |t| && t[p] == 'u' then BracketDelay(t, p + 1) else None
  }

  /** `t.match(pattern)` from position `from` on: the delay of the leftmost match. */
  function FindFrom(pat: Pattern, t: string, from: nat): (r: Option<int>)
    requires from <= |t|
    ensures r.None? ==> forall p :: from <= p <= |t| ==> MatchAt(pat, t, p).None?
    ensures r.Some? ==> exists p :: from <= p <= |t| && MatchAt(pat, t, p) == r
                          && forall p' :: from <= p' < p ==> MatchAt(pat, t, p').None?
    decreases |t| - from
  {
    if MatchAt(pat, t, from).Some? then MatchAt(pat, t, from)
    else if from == |t| then None
    else FindFrom(pat, t, from + 1)
  }

  function Find(pat: Pattern, t: string): Option<int> {
    FindFrom(pat, t, 0)
  }

  /** In a text with all its signs in front no bracket carries a shift, so any
      match has delay 0. */
  lemma FindUnshifted(pat: Pattern, t: string)
    requires SignsFirst(t)
    ensures Find(pat, t) == None || Find(pat, t) == Some(0)
  {
    if Find(pat, t).Some? {
      var p :| 0 <= p <= |t| && MatchAt(pat, t, p) == Find(pat, t);
      var q := if pat == ImpulsePattern && !(p < |t| && t[p] == Delta) then p + 5 else p + 1;
      assert MatchAt(pat, t, p) == BracketDelay(t, q);
      assert !IsSign(t[q + 1]) ==> !IsSign(t[q + 2]);
    }
  }

  // ---------------------------------------------------------------------------
  // parseTerm
  // ---------------------------------------------------------------------------

  predicate IsFactorChar(c: char) {
    IsDigit(c) || c == '.'
  }

  /** The length of the longest run of digits and points starting at i. */
  function FactorRun(s: string, i: nat): (n: nat)
    requires i <= |s|
    ensures i + n <= |s|
    ensures forall j :: i <= j < i + n ==> IsFactorChar(s[j])
    ensures i + n == |s| || !IsFactorChar(s[i + n])
    decreases |s| - i
  {
    if i < |s| && IsFactorChar(s[i]) then 1 + FactorRun(s, i + 1) else 0
  }

  function DotCount(s: string): nat {
    if s == [] then 0 else DotCount(s[..|s| - 1]) + (if s[|s| - 1] == '.' then 1 else 0)
  }

  /** The amplitude pattern of parseTerm, `^(\d*\.?\d*)` followed by a star: the
      length of the factor when the text starts with digits holding at most one
      point, followed by '*'. */
  function FactorPrefix(s: string): (r: Option<nat>)
    ensures r.Some? ==> r.value < |s| && s[r.value] == '*' && DotCount(s[..r.value]) <= 1
                        && forall j :: 0 <= j < r.value ==> IsFactorChar(s[j])
  {
    var c := FactorRun(s, 0);
    if c < |s| && s[c] == '*' && DotCount(s[..c]) <= 1 then Some(c) else None
  }

  /** Any factor followed by '*' at the front of the text is the one FactorPrefix finds. */
  lemma FactorPrefixComplete(s: string, c: nat)
    requires c < |s| && s[c] == '*' && DotCount(s[..c]) <= 1
    requires forall j :: 0 <= j < c ==> IsFactorChar(s[j])
    ensures FactorPrefix(s) == Some(c)
  {
    // The run of factor characters from 0 stops exactly at the '*'.
    assert FactorRun(s, 0) == c;
  }

  /** A term's signal shape, before it is sampled over a range. */
  datatype Primitive = Impulse(amplitude: real, delay: int) | Step(amplitude: real, delay: int)

  /** The impulse pattern is tried first, then the step pattern. */
  function Token(amplitude: real, body: string): Option<Primitive> {
    match Find(ImpulsePattern, body)
    case Some(d) => Some(Impulse(amplitude, d))
    case None =>
      match Find(StepPattern, body)
      case Some(d) => Some(Step(amplitude, d))
      case None => None
  }

  /** What parseTerm reads from a term: an optional sign, an optional factor
      followed by '*', and then an impulse or a step anywhere in the rest. */
  function ReadTerm(inputTerm: string): Option<Primitive> {
    var w := Trim(inputTerm);
    if w == [] then None
    else
      ReadAfterSign(w[0] == '-', if IsSign(w[0]) then w[1..] else w)
  }

  /** The rest of parseTerm once the sign is read: the amplitude, then the impulse
      or step in what follows the factor. */
  function ReadAfterSign(negative: bool, rest: string): Option<Primitive> {
    match ReadAmplitude(negative, rest)
    case Some((amplitude, body)) => Token(amplitude, body)
    case None => None
  }

  /** The amplitude starts at 1, negated after a '-'; a non-empty factor before
      '*' multiplies it and is consumed; a factor parseFloat reads as NaN yields None. */
  function ReadAmplitude(negative: bool, rest: string): Option<(real, string)> {
    match FactorPrefix(rest)
    case Some(c) =>
      if c == 0 then Some((Signed(negative, 1.0), rest))
      else (match ParseFloat(rest[..c])
            case Some(x) => Some((Signed(negative, x), rest[c + 1..]))
            case None => None)
    case None => Some((Signed(negative, 1.0), rest))
  }

  /** x multiplied by the sign read before it: -1 after a '-', else 1. */
  function Signed(negative: bool, x: real): real {
    if negative then -x else x
  }

  /** parseTerm's result: nothing for a term that is not recognised, else the
      impulse or step sampled over the range. */
  function TermSignal(term: string, range: IndexRange): Result<Option<DiscreteSignal>> {
    match ReadTerm(term)
    case None => Ok(None)
    case Some(Impulse(a, d)) =>
      (match ImpulseSignal(a, d, range)
       case Err(e) => Err(e)
       case Ok(s) => Ok(Some(s)))
    case Some(Step(a, d)) =>
      (match StepSignal(a, d, range)
       case Err(e) => Err(e)
       case Ok(s) => Ok(Some(s)))
  }

  /** signalFunctions.ts parseTerm. */
  method ParseTerm(inputTerm: string, range: IndexRange) returns (r: Result<Option<DiscreteSignal>>)
    ensures r == TermSignal(inputTerm, range)
    ensures r.Err? <==> ReadTerm(inputTerm).Some? && RangeLength(range) < 0
    ensures r.Ok? && r.value.Some? ==>
      r.value.value.startIndex == range.start && |r.value.value.values| == RangeLength(range)
  {
    match ReadTerm(inputTerm)
    case None =>
      r := Ok(None);
    case Some(Impulse(a, d)) =>
      var s := GenerateImpulse(a, d, range);
      r := if s.Err? then Err(s.error) else Ok(Some(s.value));
    case Some(Step(a, d)) =>
      var s := GenerateUnitStep(a, d, range);
      r := if s.Err? then Err(s.error) else Ok(Some(s.value));
  }

  /** How a user writes one term: an optional '-', an optional decimal factor
      and '*', a head, and a bracket "[n]", "[n+digits]" or "[n-digits]". */
  datatype Head = DeltaSymbol | DeltaWord | UnitStep
  datatype Shift = NoShift | Plus(digits: string) | Minus(digits: string)
  datatype Written = Written(negative: bool, factor: Option<Decimal>, head: Head, shift: Shift)

  predicate Numeral(d: string) {
    |d| >= 1 && AllDigits(d)
  }

  predicate WellShifted(shift: Shift) {
    shift.NoShift? || Numeral(shift.digits)
  }

  predicate WellFactored(factor: Option<Decimal>) {
    factor.Some? ==> WellFormedDecimal(factor.value)
  }

  predicate WellWritten(w: Written) {
    WellFactored(w.factor) && WellShifted(w.shift)
  }

  function HeadText(h: Head): string {
    match h
    case DeltaSymbol => [Delta]
    case DeltaWord => "delta"
    case UnitStep => "u"
  }

  function BracketText(shift: Shift): string {
    match shift
    case NoShift => "[n]"
    case Plus(d) => ['[', 'n', '+'] + d + [']']
    case Minus(d) => ['[', 'n', '-'] + d + [']']
  }

  function FactorText(factor: Option<Decimal>): string {
    match factor
    case Some(d) => DecimalText(d) + "*"
    case None => ""
  }

  function Render(w: Written): string {
    (if w.negative then "-" else "") + FactorText(w.factor) + HeadText(w.head) + BracketText(w.shift)
  }

  /** x[n - d] has delay d: "[n-k]" is delay k, "[n+k]" delay -k, "[n]" delay 0. */
  function Delay(shift: Shift): int
    requires WellShifted(shift)
  {
    match shift
    case NoShift => 0
    case Plus(d) => -(DigitsValue(d) as int)
    case Minus(d) => DigitsValue(d)
  }

  function Amplitude(negative: bool, factor: Option<Decimal>): real
    requires WellFactored(factor)
  {
    match factor
    case Some(d) => Signed(negative, DecimalValue(d))
    case None => Signed(negative, 1.0)
  }

  function Shape(h: Head, amplitude: real, delay: int): Primitive {
    if h == UnitStep then Step(amplitude, delay) else Impulse(amplitude, delay)
  }

  /** What the written term means: the sign times the factor, at the bracket's delay. */
  function Meaning(w: Written): Primitive
    requires WellWritten(w)
  {
    Shape(w.head, Amplitude(w.negative, w.factor), Delay(w.shift))
  }

  /** The bracket of a written term, read right after its head. */
  lemma BracketDelayOf(head: string, shift: Shift)
    requires WellShifted(shift)
    ensures BracketDelay(head + BracketText(shift), |head|) == Some(Delay(shift))
  {
    match shift
    case NoShift =>
      var t := head + BracketText(shift);
      assert t[|head|] == '[' && t[|head| + 1] == 'n' && t[|head| + 2] == ']';
    case Plus(d) =>
      BracketDelaySigned(head, '+', d);
    case Minus(d) =>
      BracketDelaySigned(head, '-', d);
  }

  /** "[n", a sign, digits and "]" right after the head. */
  lemma BracketDelaySigned(head: string, sc: char, d: string)
    requires IsSign(sc) && Numeral(d)
    ensures BracketDelay(head + (['[', 'n', sc] + d + [']']), |head|)
      == Some(if sc == '-' then DigitsValue(d) else -(DigitsValue(d) as int))
  {
    var t := head + (['[', 'n', sc] + d + [']']);
    BracketLayout(head, sc, d);
    BracketDelayOfDigits(t, |head|, d);
  }

  /** Where the characters of a signed bracket sit after the head. */
  lemma BracketLayout(head: string, sc: char, d: string)
    ensures var t := head + (['[', 'n', sc] + d + [']']);
            var q := |head|;
            q + 3 + |d| < |t| && t[q] == '[' && t[q + 1] == 'n' && t[q + 2] == sc
            && t[q + 3 + |d|] == ']' && t[q + 3..q + 3 + |d|] == d
  {
    var b := ['[', 'n', sc] + d + [']'];
    var t := head + b;
    var q := |head|;
    assert forall i :: 0 <= i < |b| ==> t[q + i] == b[i];
    assert t[q] == b[0] == '[' && t[q + 1] == b[1] == 'n' && t[q + 2] == b[2] == sc;
    assert t[q + 3 + |d|] == b[3 + |d|] == ']';
    assert forall i :: 0 <= i < |d| ==> t[q + 3 + i] == b[3 + i] == d[i];
    assert t[q + 3..q + 3 + |d|] == d;
  }

  /** "[n", a sign, digits and "]" at q read as the digits' value, negated after '+'. */
  lemma BracketDelayOfDigits(t: string, q: nat, digits: string)
    requires AllDigits(digits) && |digits| >= 1 && q + 3 + |digits| < |t|
    requires t[q] == '[' && t[q + 1] == 'n' && IsSign(t[q + 2]) && t[q + 3 + |digits|] == ']'
    requires t[q + 3..q + 3 + |digits|] == digits
    ensures BracketDelay(t, q)
      == Some(if t[q + 2] == '-' then DigitsValue(digits) else -(DigitsValue(digits) as int))
  {
    DigitRunOfDigits(t, q + 3, digits);
    BracketDelayShifted(t, q, |digits|);
  }

  /** The shifted form "[n" sign digits "]" read at q. */
  lemma BracketDelayShifted(t: string, q: nat, d: nat)
    requires q + 3 + d < |t| && d >= 1
    requires t[q] == '[' && t[q + 1] == 'n' && IsSign(t[q + 2]) && t[q + 3 + d] == ']'
    requires DigitRun(t, q + 3) == d
    ensures BracketDelay(t, q)
      == Some(if t[q + 2] == '-' then DigitsValue(t[q + 3..q + 3 + d]) else -(DigitsValue(t[q + 3..q + 3 + d]) as int))
  {
  }

  lemma TokenOfRendered(amplitude: real, h: Head, shift: Shift)
    requires WellShifted(shift)
    ensures Token(amplitude, HeadText(h) + BracketText(shift)) == Some(Shape(h, amplitude, Delay(shift)))
  {
    var head := HeadText(h);
    var body := head + BracketText(shift);
    BracketDelayOf(head, shift);
    match h
    case DeltaSymbol =>
      assert MatchAt(ImpulsePattern, body, 0) == Some(Delay(shift));
    case DeltaWord =>
      assert body[0] == 'd' && "delta" <= body[0..];
      assert MatchAt(ImpulsePattern, body, 0) == Some(Delay(shift));
    case UnitStep =>
      NoImpulseInStepBody(shift);
      assert MatchAt(StepPattern, body, 0) == Some(Delay(shift));
  }

  /** A character of a bracket "[n]", "[n+k]" or "[n-k]". */
  predicate BracketChar(c: char) {
    c == '[' || c == 'n' || c == ']' || IsSign(c) || IsDigit(c)
  }

  lemma BracketChars(shift: Shift)
    requires WellShifted(shift)
    ensures forall i :: 0 <= i < |BracketText(shift)| ==> BracketChar(BracketText(shift)[i])
  {
    var b := BracketText(shift);
    if !shift.NoShift? {
      var d := shift.digits;
      forall i | 0 <= i < |b|
        ensures BracketChar(b[i])
      {
        if 3 <= i < |b| - 1 {
          assert b[i] == d[i - 3];
        }
      }
    }
  }

  /** A step's text holds no impulse. */
  lemma NoImpulseInStepBody(shift: Shift)
    requires WellShifted(shift)
    ensures Find(ImpulsePattern, "u" + BracketText(shift)) == None
  {
    var body := "u" + BracketText(shift);
    BracketChars(shift);
    forall i | 0 <= i < |body|
      ensures body[i] != Delta && body[i] != 'd'
    {
      assert i == 0 || body[i] == BracketText(shift)[i - 1];
    }
    NoImpulseWithout(body);
  }

  /** A text with neither the Greek delta nor a 'd' holds no impulse. */
  lemma NoImpulseWithout(t: string)
    requires forall i :: 0 <= i < |t| ==> t[i] != Delta && t[i] != 'd'
    ensures Find(ImpulsePattern, t) == None
  {
    forall p | 0 <= p <= |t|
      ensures MatchAt(ImpulsePattern, t, p).None?
    {
      if p < |t| {
        assert t[p..][0] == t[p];
      }
    }
  }

  /** Reading a written term gives back what it means: a leading '-' negates the
      amplitude, "k*" multiplies it, "[n-k]" is delay k, "[n+k]" delay -k and "[n]"
      delay 0. */
  lemma ReadTermOfRendered(w: Written)
    requires WellWritten(w)
    ensures ReadTerm(Render(w)) == Some(Meaning(w))
  {
    var sign := if w.negative then "-" else "";
    var rest := FactorText(w.factor) + HeadText(w.head) + BracketText(w.shift);
    assert Render(w) == sign + rest;
    RestShape(w.factor, w.head, w.shift);
    ReadTermSigned(sign, rest);
    ReadAfterSignRendered(w.negative, w.factor, w.head, w.shift);
  }

  /** The text after the sign starts with a digit or a head and ends with ']'. */
  lemma RestShape(factor: Option<Decimal>, h: Head, shift: Shift)
    requires WellFactored(factor)
    ensures var rest := FactorText(factor) + HeadText(h) + BracketText(shift);
            rest != [] && !IsSign(rest[0]) && !IsWhitespace(rest[0]) && rest[|rest| - 1] == ']'
            && (factor.None? ==> !IsFactorChar(rest[0]) && rest[0] != '*')
  {
    var rest := FactorText(factor) + HeadText(h) + BracketText(shift);
    match factor
    case Some(d) =>
      DecimalTextChars(d);
      assert rest[0] == DecimalText(d)[0];
    case None =>
      assert rest[0] == HeadText(h)[0];
  }

  /** A leading '-' or nothing, then the rest, which trim leaves alone. */
  lemma ReadTermSigned(sign: string, rest: string)
    requires sign == "" || sign == "-"
    requires rest != [] && !IsSign(rest[0]) && !IsWhitespace(rest[0]) && rest[|rest| - 1] == ']'
    ensures ReadTerm(sign + rest) == ReadAfterSign(sign == "-", rest)
  {
    var text := sign + rest;
    assert text[0] == (if sign == "-" then '-' else rest[0]);
    assert text[|text| - 1] == ']';
    TrimKeeps(text);
    assert (if IsSign(text[0]) then text[1..] else text) == rest;
  }

  lemma ReadAfterSignRendered(negative: bool, factor: Option<Decimal>, h: Head, shift: Shift)
    requires WellFactored(factor)
    requires WellShifted(shift)
    ensures ReadAfterSign(negative, FactorText(factor) + HeadText(h) + BracketText(shift))
      == Some(Shape(h, Amplitude(negative, factor), Delay(shift)))
  {
    AmplitudeOfRendered(negative, factor, h, shift);
    TokenOfRendered(Amplitude(negative, factor), h, shift);
  }

  /** The factor of a written term, read after its sign, is its amplitude. */
  lemma AmplitudeOfRendered(negative: bool, factor: Option<Decimal>, h: Head, shift: Shift)
    requires WellFactored(factor)
    requires WellShifted(shift)
    ensures ReadAmplitude(negative, FactorText(factor) + HeadText(h) + BracketText(shift))
      == Some((Amplitude(negative, factor), HeadText(h) + BracketText(shift)))
  {
    var body := HeadText(h) + BracketText(shift);
    match factor
    case None =>
      assert FactorText(factor) + HeadText(h) + BracketText(shift) == body;
      ReadUnfactored(negative, h, shift);
    case Some(d) =>
      assert FactorText(factor) + HeadText(h) + BracketText(shift) == DecimalText(d) + "*" + body;
      FactorPrefixOfDecimal(d, body);
      ReadFactored(negative, d, body);
  }

  /** Without a factor the amplitude is the sign and the text is kept whole. */
  lemma ReadUnfactored(negative: bool, h: Head, shift: Shift)
    requires WellShifted(shift)
    ensures ReadAmplitude(negative, HeadText(h) + BracketText(shift))
      == Some((Signed(negative, 1.0), HeadText(h) + BracketText(shift)))
  {
    var body := HeadText(h) + BracketText(shift);
    RestShape(None, h, shift);
    assert FactorText(None) + HeadText(h) + BracketText(shift) == body;
    assert FactorPrefix(body) == None;
  }

  /** A decimal followed by '*' is a factor. */
  lemma FactorPrefixOfDecimal(d: Decimal, body: string)
    requires WellFormedDecimal(d)
    ensures FactorPrefix(DecimalText(d) + "*" + body) == Some(|DecimalText(d)|)
  {
    var t := DecimalText(d);
    var rest := t + "*" + body;
    var c := |t|;
    assert rest[..c] == t;
    DotCountOfDecimal(d);
    assert rest[c] == '*';
    DecimalTextChars(d);
    assert forall j :: 0 <= j < c ==> IsFactorChar(rest[j]) by {
      forall j | 0 <= j < c
        ensures IsFactorChar(rest[j])
      {
        assert rest[j] == t[j];
      }
    }
    FactorPrefixComplete(rest, c);
  }

  /** A decimal and '*' scale the amplitude by the decimal's value and are consumed. */
  lemma ReadFactored(negative: bool, d: Decimal, body: string)
    requires WellFormedDecimal(d) && FactorPrefix(DecimalText(d) + "*" + body) == Some(|DecimalText(d)|)
    ensures ReadAmplitude(negative, DecimalText(d) + "*" + body) == Some((Signed(negative, DecimalValue(d)), body))
  {
    var t := DecimalText(d);
    var rest := t + "*" + body;
    var c := |t|;
    DecimalTextChars(d);
    assert rest[..c] == t;
    assert rest[c + 1..] == body;
    assert "" + t == t;
    ParseFloatOfDecimal("", d);
  }

  /** A decimal holds at most one point. */
  lemma DotCountOfDecimal(d: Decimal)
    requires WellFormedDecimal(d)
    ensures DotCount(DecimalText(d)) <= 1
  {
    DotCountOfDigits(d.whole);
    match d.fraction
    case None =>
    case Some(f) =>
      DotCountOfDigits(f);
      DotCountConcat(d.whole, ".");
      DotCountConcat(d.whole + ".", f);
      assert DotCount(".") == 1 by {
        assert "."[..0] == [];
      }
  }

  lemma {:induction false} DotCountConcat(a: string, b: string)
    ensures DotCount(a + b) == DotCount(a) + DotCount(b)
    decreases |b|
  {
    if b != [] {
      assert (a + b)[..|a + b| - 1] == a + b[..|b| - 1];
      DotCountConcat(a, b[..|b| - 1]);
    } else {
      assert a + b == a;
    }
  }

  lemma {:induction false} DotCountOfDigits(s: string)
    requires AllDigits(s)
    ensures DotCount(s) == 0
  {
    if s != [] {
      DotCountOfDigits(s[..|s| - 1]);
    }
  }

  // ---------------------------------------------------------------------------
  // determineExpressionRange
  // ---------------------------------------------------------------------------

  /** The range determineExpressionRange computes: [0, count - 1] (at least [0, 0])
      for a list of numbers, and [-2, 12] for any sum of terms, because its
      splitter never leaves a sign after the head of a pattern (see SignsFirst),
      so every term it recognises is unshifted and the initial bounds 0 and 10,
      padded by 2, stand. */
  function ExpressionRange(expression: string): IndexRange {
    var expr := Clean(expression);
    if NumericMode(expr) then IndexRange(0, Max(0, |NumericSamples(expr)| - 1))
    else IndexRange(-2, 12)
  }

  /** The clean-up of determineExpressionRange: one leading sign removed, then a
      factor and its '*' (even an empty factor). */
  function StripSignAndFactor(term: string): (r: string)
    ensures |r| <= |term| && r == term[|term| - |r|..]
  {
    var t := if term != [] && IsSign(term[0]) then term[1..] else term;
    assert t == term[|term| - |t|..];
    match FactorPrefix(t)
    case Some(c) => t[c + 1..]
    case None => t
  }

  /** Every term of determineExpressionRange's splitter, once cleaned up, matches
      only with delay 0. */
  lemma RangeTermUnshifted(expr: string, terms: seq<string>, k: nat)
    requires SplitsAt(SignsOnly, expr, terms) && k < |terms|
    ensures var body := StripSignAndFactor(Trim(terms[k]));
            (Find(ImpulsePattern, body) == None || Find(ImpulsePattern, body) == Some(0))
            && (Find(StepPattern, body) == None || Find(StepPattern, body) == Some(0))
  {
    SignsOnlyTerms(expr, terms, k);
    TrimSignsFirst(terms[k]);
    var term := Trim(terms[k]);
    var body := StripSignAndFactor(term);
    SignsFirstSlice(term, |term| - |body|, |term|);
    FindUnshifted(ImpulsePattern, body);
    FindUnshifted(StepPattern, body);
  }

  /** signalFunctions.ts determineExpressionRange. */
  method DetermineExpressionRange(expression: string) returns (range: IndexRange)
    ensures range == ExpressionRange(expression)
  {
    var expr := Clean(expression);
    if NumericMode(expr) {
      var values := NumericSamples(expr);
      return IndexRange(0, Max(0, |values| - 1));
    }
    var minIndex := 0;
    var maxIndex := 10;
    var terms := SplitAtSigns(expr);
    for k := 0 to |terms|
      invariant minIndex == 0 && maxIndex == 10
    {
      var term := Trim(terms[k]);
      if term == [] {
        continue;
      }
      var body := StripSignAndFactor(term);
      RangeTermUnshifted(expr, terms, k);
      var impulse := Find(ImpulsePattern, body);
      if impulse.Some? {
        var delay := impulse.value;
        minIndex := Min(minIndex, delay);
        maxIndex := Max(maxIndex, delay);
        continue;
      }
      var step := Find(StepPattern, body);
      if step.Some? {
        var delay := step.value;
        minIndex := Min(minIndex, delay);
        maxIndex := Max(maxIndex, delay + 10);
        continue;
      }
    }
    range := IndexRange(minIndex - 2, maxIndex + 2);
  }

  // ---------------------------------------------------------------------------
  // parseSignalExpression
  // ---------------------------------------------------------------------------

  /** The signals of the recognised terms, in order; the first term that fails
      (a range of negative length) makes the whole list fail. */
  function TermSignals(terms: seq<string>, range: IndexRange): Result<seq<DiscreteSignal>> {
    if terms == [] then Ok([])
    else
      match TermSignals(terms[..|terms| - 1], range)
      case Err(e) => Err(e)
      case Ok(signals) =>
        match TermSignal(terms[|terms| - 1], range)
        case Err(e) => Err(e)
        case Ok(None) => Ok(signals)
        case Ok(Some(s)) => Ok(signals + [s])
  }

  /** What parseSignalExpression returns: the list of numbers at index 0 when the
      text holds no pattern, otherwise the sum of its terms over the supplied
      range, or over the automatic one when none is supplied. */
  function ParseSpec(expression: string, customRange: Option<IndexRange>): Result<DiscreteSignal> {
    var expr := Clean(expression);
    var range := match customRange case Some(r) => r case None => ExpressionRange(expression);
    if NumericMode(expr) then Ok(DiscreteSignal(NumericSamples(expr), 0))
    else
      match TermSignals(SplitBy(BracketAware, expr), range)
      case Err(e) => Err(e)
      case Ok(signals) => Combined(signals)
  }

  lemma {:induction false} TermSignalsFail(terms: seq<string>, i: nat, range: IndexRange)
    requires i <= |terms| && TermSignals(terms[..i], range).Err?
    ensures TermSignals(terms, range).Err?
    decreases |terms| - i
  {
    if i < |terms| {
      assert terms[..i + 1][..i] == terms[..i];
      TermSignalsFail(terms, i + 1, range);
    } else {
      assert terms[..i] == terms;
    }
  }

  /** The term loop of parseSignalExpression: the signal of every recognised term,
      in order. */
  method ParseTerms(terms: seq<string>, range: IndexRange) returns (r: Result<seq<DiscreteSignal>>)
    ensures r == TermSignals(terms, range)
  {
    var signals: seq<DiscreteSignal> := [];
    for i := 0 to |terms|
      invariant TermSignals(terms[..i], range) == Ok(signals)
    {
      assert terms[..i + 1][..i] == terms[..i];
      var signal := ParseTerm(terms[i], range);
      if signal.Err? {
        TermSignalsFail(terms, i + 1, range);
        return Err(signal.error);
      }
      if signal.value.Some? {
        signals := signals + [signal.value.value];
      }
    }
    assert terms[..|terms|] == terms;
    r := Ok(signals);
  }

  /** signalFunctions.ts parseSignalExpression. */
  method ParseSignalExpression(expression: string, customRange: Option<IndexRange>) returns (r: Result<DiscreteSignal>)
    ensures r == ParseSpec(expression, customRange)
  {
    var expr := Clean(expression);
    var range: IndexRange;
    if customRange.Some? {
      range := customRange.value;
    } else {
      range := DetermineExpressionRange(expression);
    }
    if NumericMode(expr) {
      var values := NumericSamples(expr);
      return Ok(DiscreteSignal(values, 0));
    }
    var terms := SplitExpression(expr);
    var signals := ParseTerms(terms, range);
    if signals.Err? {
      return Err(signals.error);
    }
    r := CombineSignals(signals.value);
  }

  /** Over a range that is not empty every term signal has that range's shape. */
  lemma {:induction false} TermSignalsShape(terms: seq<string>, range: IndexRange)
    requires range.start <= range.end
    ensures TermSignals(terms, range).Ok?
    ensures var signals := TermSignals(terms, range).value;
            forall k :: 0 <= k < |signals| ==>
              signals[k].startIndex == range.start && |signals[k].values| == RangeLength(range)
    decreases |terms|
  {
    if terms != [] {
      var init := terms[..|terms| - 1];
      TermSignalsShape(init, range);
      var signals := TermSignals(init, range).value;
      TermSignalShape(terms[|terms| - 1], range);
      match TermSignal(terms[|terms| - 1], range)
      case Ok(None) =>
      case Ok(Some(x)) =>
        assert TermSignals(terms, range) == Ok(signals + [x]);
    }
  }

  /** Over a range that is not empty a term yields nothing or a signal on that range. */
  lemma TermSignalShape(term: string, range: IndexRange)
    requires range.start <= range.end
    ensures TermSignal(term, range).Ok?
    ensures TermSignal(term, range).value.Some? <==> ReadTerm(term).Some?
    ensures TermSignal(term, range).value.Some? ==>
      var x := TermSignal(term, range).value.value;
      x.startIndex == range.start && |x.values| == RangeLength(range)
  {
    match ReadTerm(term)
    case None =>
    case Some(Impulse(a, d)) =>
      var x := ImpulseSignal(a, d, range);
      assert x.Ok? && x.value.startIndex == range.start && |x.value.values| == RangeLength(range);
    case Some(Step(a, d)) =>
      var x := StepSignal(a, d, range);
      assert x.Ok? && x.value.startIndex == range.start && |x.value.values| == RangeLength(range);
  }

  /** A recognised term contributes a signal. */
  lemma {:induction false} TermSignalsRecognised(terms: seq<string>, range: IndexRange, k: nat)
    requires range.start <= range.end && k < |terms| && ReadTerm(terms[k]).Some?
    ensures TermSignals(terms, range).Ok? && |TermSignals(terms, range).value| >= 1
    decreases |terms|
  {
    var init := terms[..|terms| - 1];
    TermSignalsShape(init, range);
    TermSignalShape(terms[|terms| - 1], range);
    var signals := TermSignals(init, range).value;
    if k < |terms| - 1 {
      assert init[k] == terms[k];
      TermSignalsRecognised(init, range, k);
    }
    match TermSignal(terms[|terms| - 1], range)
    case Ok(None) =>
    case Ok(Some(x)) =>
      assert TermSignals(terms, range) == Ok(signals + [x]);
  }

  /** A sum of terms over a non-empty range, with at least one recognised term,
      is a signal covering exactly that range. */
  lemma TermSumCoversRange(expression: string, customRange: Option<IndexRange>)
    requires !NumericMode(Clean(expression))
    requires var range := match customRange case Some(r) => r case None => ExpressionRange(expression);
             range.start <= range.end
    requires var terms := SplitBy(BracketAware, Clean(expression));
             exists k :: 0 <= k < |terms| && ReadTerm(terms[k]).Some?
    ensures var range := match customRange case Some(r) => r case None => ExpressionRange(expression);
            var r := ParseSpec(expression, customRange);
            r.Ok? && r.value.startIndex == range.start && |r.value.values| == RangeLength(range)
  {
    var range := match customRange case Some(r) => r case None => ExpressionRange(expression);
    var terms := SplitBy(BracketAware, Clean(expression));
    var k :| 0 <= k < |terms| && ReadTerm(terms[k]).Some?;
    TermSignalsShape(terms, range);
    TermSignalsRecognised(terms, range, k);
    var signals := TermSignals(terms, range).value;
    CombinedOnCommonRange(signals, range.start, RangeLength(range));
    assert ParseSpec(expression, customRange) == Combined(signals);
  }
}
