/** The string primitives of JavaScript that src/utils/Convolucion/signalFunctions.ts
    relies on: the `\s` class, `trim`, `includes`, `split(',')`, `parseInt` over
    `\d+` and `parseFloat` over a decimal literal. */
module Text {

  datatype Option<T> = None | Some(value: T)

  // ---------------------------------------------------------------------------
  // Whitespace: the `\s` class of JavaScript regular expressions, which is also
  // the set String.prototype.trim removes
  // ---------------------------------------------------------------------------

  predicate IsWhitespace(c: char) {
    c == ' ' || ('\t' <= c <= '\r')                     // space, U+0009..U+000D
    || c == '\U{00A0}' || c == '\U{1680}'
    || ('\U{2000}' <= c <= '\U{200A}')
    || c == '\U{2028}' || c == '\U{2029}' || c == '\U{202F}' || c == '\U{205F}'
    || c == '\U{3000}' || c == '\U{FEFF}'
  }

  predicate NoWhitespace(s: string) {
    forall i :: 0 <= i < |s| ==> !IsWhitespace(s[i])
  }

  predicate AllWhitespace(s: string) {
    forall i :: 0 <= i < |s| ==> IsWhitespace(s[i])
  }

  /** `s.replace(/\s+/g, '')`: every whitespace character removed, the others kept in
      order. The one-character case below and StripWhitespaceAppend pin the result:
      it is the text with its whitespace filtered out. */
  function StripWhitespace(s: string): (r: string)
    ensures NoWhitespace(r)
    ensures |r| <= |s|
    ensures NoWhitespace(s) ==> r == s
    ensures |s| == 1 ==> r == (if IsWhitespace(s[0]) then [] else s)
  {
    if s == [] then []
    else if IsWhitespace(s[0]) then StripWhitespace(s[1..])
    else [s[0]] + StripWhitespace(s[1..])
  }

  /** Stripping works piece by piece: nothing is dropped or reordered across a cut. */
  lemma {:induction false} StripWhitespaceAppend(a: string, b: string)
    ensures StripWhitespace(a + b) == StripWhitespace(a) + StripWhitespace(b)
    decreases |a|
  {
    if a == [] {
      assert a + b == b;
    } else {
      assert (a + b)[0] == a[0];
      assert (a + b)[1..] == a[1..] + b;
      StripWhitespaceAppend(a[1..], b);
    }
  }

  /** Text made of whitespace only strips to nothing. */
  lemma {:induction false} StripWhitespaceOnly(s: string)
    requires AllWhitespace(s)
    ensures StripWhitespace(s) == []
    decreases |s|
  {
    if s != [] {
      StripWhitespaceOnly(s[1..]);
    }
  }

  /** `s.trim()`: leading and trailing whitespace removed. The result is a prefix of a
      suffix of `s` (TrimStart, TrimEnd); what is cut away is whitespace (TrimStartCut,
      TrimEndCut), so no other character is lost (TrimKeepsContent). */
  function Trim(s: string): (r: string)
    ensures |r| <= |s|
    ensures NoWhitespace(s) ==> r == s
    ensures r != [] ==> !IsWhitespace(r[0]) && !IsWhitespace(r[|r| - 1])
  {
    TrimEnd(TrimStart(s))
  }

  /** Leading whitespace removed: a suffix of `s` (TrimStartCut: the cut-off
      prefix is all whitespace). */
  function TrimStart(s: string): (r: string)
    ensures |r| <= |s| && r == s[|s| - |r|..]
    ensures r != [] ==> !IsWhitespace(r[0])
  {
    if s != [] && IsWhitespace(s[0]) then TrimStart(s[1..]) else s
  }

  /** Trailing whitespace removed: a prefix of `s` (TrimEndCut: the cut-off
      suffix is all whitespace). */
  function TrimEnd(s: string): (r: string)
    ensures |r| <= |s| && r == s[..|r|]
    ensures r != [] ==> !IsWhitespace(r[|r| - 1])
  {
    if s != [] && IsWhitespace(s[|s| - 1]) then TrimEnd(s[..|s| - 1]) else s
  }

  /** TrimStart removes whitespace only. */
  lemma {:induction false} TrimStartCut(s: string)
    ensures AllWhitespace(s[..|s| - |TrimStart(s)|])
    decreases |s|
  {
    if s != [] && IsWhitespace(s[0]) {
      TrimStartCut(s[1..]);
      var k := |s| - |TrimStart(s)|;
      assert s[..k] == [s[0]] + s[1..][..k - 1];
    }
  }

  /** TrimEnd removes whitespace only. */
  lemma {:induction false} TrimEndCut(s: string)
    ensures AllWhitespace(s[|TrimEnd(s)|..])
    decreases |s|
  {
    if s != [] && IsWhitespace(s[|s| - 1]) {
      var init := s[..|s| - 1];
      TrimEndCut(init);
      var k := |TrimEnd(s)|;
      assert s[k..] == init[k..] + [s[|s| - 1]];
    }
  }

  /** TrimStart removes nothing but whitespace. */
  lemma {:induction false} TrimStartKeepsContent(s: string)
    ensures StripWhitespace(TrimStart(s)) == StripWhitespace(s)
    decreases |s|
  {
    if s != [] && IsWhitespace(s[0]) {
      TrimStartKeepsContent(s[1..]);
    }
  }

  /** TrimEnd removes nothing but whitespace. */
  lemma {:induction false} TrimEndKeepsContent(s: string)
    ensures StripWhitespace(TrimEnd(s)) == StripWhitespace(s)
    decreases |s|
  {
    if s != [] && IsWhitespace(s[|s| - 1]) {
      var init := s[..|s| - 1];
      TrimEndKeepsContent(init);
      assert s == init + [s[|s| - 1]];
      StripWhitespaceAppend(init, [s[|s| - 1]]);
    }
  }

  /** Trimming keeps every non-whitespace character, in order. */
  lemma TrimKeepsContent(s: string)
    ensures StripWhitespace(Trim(s)) == StripWhitespace(s)
  {
    TrimStartKeepsContent(s);
    TrimEndKeepsContent(TrimStart(s));
  }

  /** `s.includes(sub)`. */
  predicate Contains(s: string, sub: string) {
    exists i | 0 <= i <= |s| :: sub <= s[i..]
  }

  // ---------------------------------------------------------------------------
  // Digits and parseInt
  // ---------------------------------------------------------------------------

  predicate IsDigit(c: char) {
    '0' <= c <= '9'
  }

  predicate AllDigits(s: string) {
    forall i :: 0 <= i < |s| ==> IsDigit(s[i])
  }

  /** The value of a string of decimal digits (parseInt of `\d+`, without the
      precision loss of doubles). */
  function DigitsValue(s: string): nat
    requires AllDigits(s)
  {
    if s == [] then 0
    else 10 * DigitsValue(s[..|s| - 1]) + (s[|s| - 1] as int - '0' as int)
  }

  /** The length of the longest run of digits starting at i. */
  function DigitRun(s: string, i: nat): (n: nat)
    requires i <= |s|
    ensures i + n <= |s|
    ensures AllDigits(s[i..i + n])
    ensures i + n == |s| || !IsDigit(s[i + n])
    decreases |s| - i
  {
    if i < |s| && IsDigit(s[i]) then
      var n := DigitRun(s, i + 1);
      assert s[i..i + 1 + n] == [s[i]] + s[i + 1..i + 1 + n];
      1 + n
    else 0
  }

  /** A run of digits d at position i, followed by the end or a non-digit, is
      exactly what DigitRun measures. */
  lemma {:induction false} DigitRunOfDigits(s: string, i: nat, d: string)
    requires i + |d| <= |s| && s[i..i + |d|] == d && AllDigits(d)
    requires i + |d| == |s| || !IsDigit(s[i + |d|])
    ensures DigitRun(s, i) == |d|
    decreases |d|
  {
    if d != [] {
      assert s[i] == d[0];
      assert s[i + 1..i + |d|] == d[1..];
      DigitRunOfDigits(s, i + 1, d[1..]);
    }
  }

  function Pow10(k: nat): (r: nat)
    ensures r >= 1
  {
    if k == 0 then 1 else 10 * Pow10(k - 1)
  }

  // ---------------------------------------------------------------------------
  // parseFloat, for the decimal literals the signal editor accepts
  // ---------------------------------------------------------------------------

  /** parseFloat of a string without leading whitespace: an optional sign, then
      digits with at most one '.', read as far as they go; None stands for NaN,
      when no digit is found. */
  function ParseFloat(s: string): (r: Option<real>)
    ensures r.Some? && s != [] && s[0] == '-' ==> r.value <= 0.0
    ensures s == [] || s == "." ==> r == None
  {
    var start := SignLength(s);
    match ParseUnsigned(s, start)
    case None => None
    case Some(x) => Some(if start == 1 && s[0] == '-' then -x else x)
  }

  /** 1 when the text starts with a sign, else 0. */
  function SignLength(s: string): (n: nat)
    ensures n <= |s|
  {
    if s != [] && (s[0] == '+' || s[0] == '-') then 1 else 0
  }

  /** The unsigned part of parseFloat from `start`: digits, then optionally a
      point and more digits; None when there is no digit at all. */
  function ParseUnsigned(s: string, start: nat): (r: Option<real>)
    requires start <= |s|
    ensures r.Some? ==> r.value >= 0.0
    ensures r.None? <==> DigitRun(s, start) == 0 && FractionRun(s, start) == 0
  {
    var a := DigitRun(s, start);
    var point := start + a;
    var b := FractionRun(s, start);
    if a + b == 0 then None
    else
      var frac := if b == 0 then 0.0 else Fraction(DigitsValue(s[point + 1..point + 1 + b]), b);
      Some(DigitsValue(s[start..point]) as real + frac)
  }

  /** The length of the digits after the point that follows the digit run from `start`. */
  function FractionRun(s: string, start: nat): (b: nat)
    requires start <= |s|
    ensures b > 0 ==> start + DigitRun(s, start) + 1 + b <= |s|
  {
    var point := start + DigitRun(s, start);
    if point < |s| && s[point] == '.' then DigitRun(s, point + 1) else 0
  }

  /** The value of the b digits after the point, which read as the natural number digits. */
  function Fraction(digits: nat, b: nat): (r: real)
    ensures 0.0 <= r
  {
    digits as real / Pow10(b) as real
  }

  /** A decimal literal as a user writes it: digits, then optionally a point
      followed by more digits ("2", "2.5", ".5", "2."). */
  datatype Decimal = Decimal(whole: string, fraction: Option<string>)

  /** Digits on both sides of the point, and at least one digit in all. */
  predicate WellFormedDecimal(d: Decimal) {
    AllDigits(d.whole)
    && (d.fraction.Some? ==> AllDigits(d.fraction.value))
    && (|d.whole| >= 1 || (d.fraction.Some? && |d.fraction.value| >= 1))
  }

  function DecimalText(d: Decimal): string {
    match d.fraction
    case None => d.whole
    case Some(f) => d.whole + "." + f
  }

  /** The number the literal denotes. */
  function DecimalValue(d: Decimal): real
    requires WellFormedDecimal(d)
  {
    var frac := match d.fraction
                case Some(f) => if f == [] then 0.0 else Fraction(DigitsValue(f), |f|)
                case None => 0.0;
    DigitsValue(d.whole) as real + frac
  }

  /** A well-formed literal is non-empty and made of digits and at most one point. */
  lemma DecimalTextChars(d: Decimal)
    requires WellFormedDecimal(d)
    ensures |DecimalText(d)| >= 1
    ensures forall i :: 0 <= i < |DecimalText(d)| ==> IsDigit(DecimalText(d)[i]) || DecimalText(d)[i] == '.'
  {
    match d.fraction
    case None =>
    case Some(f) =>
      var t := DecimalText(d);
      forall i | 0 <= i < |t|
        ensures IsDigit(t[i]) || t[i] == '.'
      {
        if i < |d.whole| {
          assert t[i] == d.whole[i];
        } else if i > |d.whole| {
          assert t[i] == f[i - |d.whole| - 1];
        }
      }
  }

  /** A decimal literal, with an optional sign in front, reads back as its value. */
  lemma ParseFloatOfDecimal(sign: string, d: Decimal)
    requires sign == "" || sign == "-" || sign == "+"
    requires WellFormedDecimal(d)
    ensures ParseFloat(sign + DecimalText(d)) == Some(if sign == "-" then -DecimalValue(d) else DecimalValue(d))
  {
    var w := d.whole;
    var r := ParseFloat(sign + DecimalText(d));
    match d.fraction
    case None =>
      assert DecimalText(d) == w;
      ParseFloatOfWhole(sign, w);
      SomeValue(r, if sign == "-" then -DecimalValue(d) else DecimalValue(d));
    case Some(f) =>
      assert DecimalText(d) == w + "." + f;
      ParseFloatOfPoint(sign, w, f);
      SomeValue(r, if sign == "-" then -DecimalValue(d) else DecimalValue(d));
  }

  lemma SomeValue(r: Option<real>, v: real)
    requires r.Some? && r.value == v
    ensures r == Some(v)
  {
  }

  /** A signed run of digits reads back as its value. */
  lemma ParseFloatOfWhole(sign: string, w: string)
    requires sign == "" || sign == "-" || sign == "+"
    requires AllDigits(w) && |w| >= 1
    ensures var r := ParseFloat(sign + w);
            r.Some? && r.value == if sign == "-" then -(DigitsValue(w) as real) else DigitsValue(w) as real
  {
    var s := sign + w;
    SignBefore(sign, w);
    WholeLayout(sign, w);
    ParseUnsignedOfWhole(s, |sign|, w);
    var x := DigitsValue(w) as real;
    SignedUnsigned(s, |sign|, sign == "-", x);
  }

  /** Signed digits w, a point and digits f read back as w plus f over a power of ten. */
  lemma ParseFloatOfPoint(sign: string, w: string, f: string)
    requires sign == "" || sign == "-" || sign == "+"
    requires AllDigits(w) && AllDigits(f) && |w| + |f| >= 1
    ensures ParseFloat(sign + (w + "." + f)).Some?
    ensures ParseFloat(sign + (w + "." + f)).value
            == if sign == "-" then -(DigitsValue(w) as real + (if f == [] then 0.0 else Fraction(DigitsValue(f), |f|)))
               else DigitsValue(w) as real + (if f == [] then 0.0 else Fraction(DigitsValue(f), |f|))
  {
    var t := w + "." + f;
    var s := sign + t;
    var x := DigitsValue(w) as real + (if f == [] then 0.0 else Fraction(DigitsValue(f), |f|));
    assert |sign| == SignLength(s) && (sign == "-" <==> |sign| == 1 && s[0] == '-') by {
      assert t[0] == if w == [] then '.' else w[0];
      SignBefore(sign, t);
    }
    PointAfterSign(sign, w, f);
    SignedUnsigned(s, |sign|, sign == "-", x);
  }

  /** After the sign, digits w, a point and digits f read as w plus f over a power of ten. */
  lemma PointAfterSign(sign: string, w: string, f: string)
    requires AllDigits(w) && AllDigits(f) && |w| + |f| >= 1
    ensures var s := sign + (w + "." + f);
            ParseUnsigned(s, |sign|).Some?
            && ParseUnsigned(s, |sign|).value == DigitsValue(w) as real + (if f == [] then 0.0 else Fraction(DigitsValue(f), |f|))
  {
    var s := sign + (w + "." + f);
    PointLayout(sign, w, f);
    DigitRunOfDigits(s, |sign|, w);
    DigitRunOfDigits(s, |sign| + |w| + 1, f);
    ParseUnsignedOfPoint(s, |sign|, w, f);
  }

  /** parseFloat negates the unsigned value after a minus sign and keeps it after any other start. */
  lemma SignedUnsigned(s: string, start: nat, negative: bool, x: real)
    requires start == SignLength(s)
    requires negative <==> start == 1 && s[0] == '-'
    requires ParseUnsigned(s, start).Some? && ParseUnsigned(s, start).value == x
    ensures ParseFloat(s).Some? && ParseFloat(s).value == if negative then -x else x
  {
  }

  /** Before a digit or a point, the sign is exactly the part that parseFloat reads as one. */
  lemma SignBefore(sign: string, t: string)
    requires sign == "" || sign == "-" || sign == "+"
    requires t != [] && (IsDigit(t[0]) || t[0] == '.')
    ensures var s := sign + t;
            |sign| == SignLength(s) && (sign == "-" <==> |sign| == 1 && s[0] == '-')
  {
    assert (sign + t)[|sign|] == t[0];
  }

  /** Digits w that run from `start` to the end of `s` read as their value. */
  lemma ParseUnsignedOfWhole(s: string, start: nat, w: string)
    requires AllDigits(w) && |w| >= 1
    requires start + |w| == |s| && s[start..start + |w|] == w
    ensures ParseUnsigned(s, start).Some? && ParseUnsigned(s, start).value == DigitsValue(w) as real
  {
    DigitRunOfDigits(s, start, w);
    assert FractionRun(s, start) == 0;
  }

  /** Digits w, a point and digits f, each run as long as it goes, read as the value
      of w plus f over a power of ten. */
  lemma ParseUnsignedOfPoint(s: string, start: nat, w: string, f: string)
    requires |w| + |f| >= 1
    requires start + |w| < |s| && s[start..start + |w|] == w && s[start + |w|] == '.'
    requires DigitRun(s, start) == |w| && DigitRun(s, start + |w| + 1) == |f|
    requires s[start + |w| + 1..start + |w| + 1 + |f|] == f
    ensures AllDigits(w) && AllDigits(f)
    ensures var r := ParseUnsigned(s, start);
            r.Some? && r.value == DigitsValue(w) as real + (if f == [] then 0.0 else Fraction(DigitsValue(f), |f|))
  {
    assert FractionRun(s, start) == |f|;
  }

  /** The digits w fill `p + w` after p. */
  lemma WholeLayout(p: string, w: string)
    ensures (p + w)[|p|..|p| + |w|] == w
  {
    var s := p + w;
    forall i | 0 <= i < |w|
      ensures s[|p| + i] == w[i]
    {
    }
  }

  /** Where the whole digits, the point and the fraction digits sit in `p + (w + "." + f)`. */
  lemma PointLayout(p: string, w: string, f: string)
    ensures var s := p + (w + "." + f);
            |p| + |w| + 1 + |f| == |s| && s[|p|..|p| + |w|] == w && s[|p| + |w|] == '.'
            && s[|p| + |w| + 1..|p| + |w| + 1 + |f|] == f
  {
    var s := p + (w + "." + f);
    var k := |p| + |w|;
    forall i | 0 <= i < |w|
      ensures s[|p| + i] == w[i]
    {
      assert s[|p| + i] == (w + "." + f)[i];
    }
    assert s[|p|..k] == w;
    forall i | 0 <= i < |f|
      ensures s[k + 1 + i] == f[i]
    {
      assert s[k + 1 + i] == (w + "." + f)[|w| + 1 + i];
    }
    assert s[k + 1..k + 1 + |f|] == f;
  }

  // ---------------------------------------------------------------------------
  // split
  // ---------------------------------------------------------------------------

  /** The first position of c in s, if any. */
  function IndexOf(s: string, c: char): (r: Option<nat>)
    ensures r.None? ==> forall i :: 0 <= i < |s| ==> s[i] != c
    ensures r.Some? ==> r.value < |s| && s[r.value] == c && forall i :: 0 <= i < r.value ==> s[i] != c
  {
    if s == [] then None
    else if s[0] == c then Some(0)
    else match IndexOf(s[1..], c)
      case None => None
      case Some(i) => Some(i + 1)
  }

  /** The pieces joined back with the separator between them. */
  function Join(pieces: seq<string>, sep: char): string {
    if |pieces| == 0 then []
    else if |pieces| == 1 then pieces[0]
    else pieces[0] + [sep] + Join(pieces[1..], sep)
  }

  /** `s.split(c)`: the text between consecutive separators, so always at least
      one piece ("" splits into [""]); no piece holds the separator and joining
      the pieces with it gives s back. */
  function SplitOn(s: string, c: char): (pieces: seq<string>)
    ensures |pieces| >= 1
    ensures forall k, i :: 0 <= k < |pieces| && 0 <= i < |pieces[k]| ==> pieces[k][i] != c
    ensures Join(pieces, c) == s
    decreases |s|
  {
    match IndexOf(s, c)
    case None => [s]
    case Some(i) =>
      var rest := SplitOn(s[i + 1..], c);
      var pieces := [s[..i]] + rest;
      assert pieces[1..] == rest;
      assert s == s[..i] + [c] + s[i + 1..];
      pieces
  }

  /** Splitting pieces joined with a separator none of them holds gives the pieces back. */
  lemma {:induction false} SplitOnJoin(pieces: seq<string>, c: char)
    requires |pieces| >= 1
    requires forall k, i :: 0 <= k < |pieces| && 0 <= i < |pieces[k]| ==> pieces[k][i] != c
    ensures SplitOn(Join(pieces, c), c) == pieces
    decreases |pieces|
  {
    var s := Join(pieces, c);
    if |pieces| == 1 {
      assert forall i :: 0 <= i < |s| ==> s[i] == pieces[0][i];
    } else {
      var p := pieces[0];
      var rest := pieces[1..];
      assert s == p + [c] + Join(rest, c);
      assert s[|p|] == c;
      assert forall i :: 0 <= i < |p| ==> s[i] == p[i];
      var r := IndexOf(s, c);
      assert r == Some(|p|);
      assert s[..|p|] == p;
      assert s[|p| + 1..] == Join(rest, c);
      SplitOnJoin(rest, c);
      assert [p] + rest == pieces;
    }
  }
}
