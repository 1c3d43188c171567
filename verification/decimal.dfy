/**
 * Python's `float(...)` on strings: C's whitespace around the text is ignored,
 * underscores may stand only between two digits and are then dropped, and
 * what is left must be a float literal: an optional sign, a mantissa of
 * digits with at most one point, and an optional exponent. Its value is the
 * signed mantissa times ten to the exponent. Values are exact reals, not IEEE
 * doubles, and the spellings of infinity and NaN are not accepted.
 */
module Decimal {
  import opened Ascii
  import opened Results

  predicate AllDigits(s: string) {
    forall i :: 0 <= i < |s| ==> IsDigit(s[i])
  }

  /** The strings `\d*\.?\d*` matches: digits and at most one point. */
  predicate IsDecimalShape(g: string) {
    && (forall i :: 0 <= i < |g| ==> IsDigit(g[i]) || g[i] == '.')
    && (forall i, j :: 0 <= i < j < |g| && g[i] == '.' ==> g[j] != '.')
  }

  predicate HasDigit(g: string) {
    exists i | 0 <= i < |g| :: IsDigit(g[i])
  }

  predicate HasNonZeroDigit(g: string) {
    exists i | 0 <= i < |g| :: IsDigit(g[i]) && g[i] != '0'
  }

  function DigitValue(c: char): (d: nat)
    requires IsDigit(c)
    ensures d <= 9
    ensures d == 0 <==> c == '0'
  {
    c as int - '0' as int
  }

  function Pow10(n: nat): (p: nat)
    ensures p >= 1
  {
    if n == 0 then 1 else 10 * Pow10(n - 1)
  }

  /** The number a string of decimal digits denotes (most significant digit first). */
  function DigitsValue(ds: string): (v: nat)
    requires AllDigits(ds)
  {
    if ds == [] then 0 else 10 * DigitsValue(ds[..|ds| - 1]) + DigitValue(ds[|ds| - 1])
  }

  /** A digit string denotes a positive number exactly when one of its digits is not zero. */
  lemma {:induction false} DigitsValuePositive(ds: string)
    requires AllDigits(ds)
    ensures DigitsValue(ds) > 0 <==> HasNonZeroDigit(ds)
  {
    if ds != [] {
      var init := ds[..|ds| - 1];
      DigitsValuePositive(init);
      if HasNonZeroDigit(init) {
        var i :| 0 <= i < |init| && IsDigit(init[i]) && init[i] != '0';
        assert ds[i] == init[i];
      }
      if HasNonZeroDigit(ds) && ds[|ds| - 1] == '0' {
        var i :| 0 <= i < |ds| && IsDigit(ds[i]) && ds[i] != '0';
        assert init[i] == ds[i];
      }
    }
  }

  /** The index of the point in a decimal-shaped string, or its length when it has none. */
  function PointIndex(g: string): (d: nat)
    requires IsDecimalShape(g)
    ensures d <= |g|
    ensures AllDigits(g[..d])
    ensures d < |g| ==> g[d] == '.' && AllDigits(g[d + 1..])
  {
    Span(g, IsDigit)
  }

  /** The digits before the point. */
  function WholePart(g: string): (w: string)
    requires IsDecimalShape(g)
    ensures AllDigits(w)
  {
    g[..PointIndex(g)]
  }

  /** The digits after the point, empty when there is no point. */
  function FractionPart(g: string): (f: string)
    requires IsDecimalShape(g)
    ensures AllDigits(f)
  {
    var d := PointIndex(g);
    if d < |g| then g[d + 1..] else ""
  }

  lemma DigitLessParts(g: string)
    requires IsDecimalShape(g)
    ensures WholePart(g) == [] && FractionPart(g) == [] <==> !HasDigit(g)
    ensures !HasDigit(g) <==> (g == "" || g == ".")
  {
    var d := PointIndex(g);
    if WholePart(g) == [] && FractionPart(g) == [] {
      if d < |g| { assert |g| == d + 1; assert g == ['.']; }
    } else if WholePart(g) != [] {
      assert IsDigit(g[0]);
    } else {
      assert IsDigit(g[d + 1]);
    }
  }

  lemma NonZeroParts(g: string)
    requires IsDecimalShape(g)
    ensures HasNonZeroDigit(g) <==> HasNonZeroDigit(WholePart(g)) || HasNonZeroDigit(FractionPart(g))
  {
    var d := PointIndex(g);
    var whole, frac := WholePart(g), FractionPart(g);
    if HasNonZeroDigit(g) {
      var i :| 0 <= i < |g| && IsDigit(g[i]) && g[i] != '0';
      if i < d { assert whole[i] == g[i]; } else { assert frac[i - d - 1] == g[i]; }
    }
    if HasNonZeroDigit(frac) {
      var i :| 0 <= i < |frac| && IsDigit(frac[i]) && frac[i] != '0';
      assert g[d + 1 + i] == frac[i];
    }
    if HasNonZeroDigit(whole) {
      var i :| 0 <= i < |whole| && IsDigit(whole[i]) && whole[i] != '0';
      assert g[i] == whole[i];
    }
  }

  /**
   * `float(g)` for a string matched by `\d*\.?\d*`: `None` (Python raises
   * `ValueError`) exactly for the two digit-less strings `""` and `"."`;
   * otherwise the whole part plus the fraction, positive exactly when some
   * digit is not zero.
   */
  function FloatOfDecimal(g: string): (r: Option<real>)
    requires IsDecimalShape(g)
    ensures r.None? <==> !HasDigit(g)
    ensures r.None? <==> (g == "" || g == ".")
    ensures r.Some? ==> r.value >= 0.0 && (r.value > 0.0 <==> HasNonZeroDigit(g))
  {
    var whole, frac := WholePart(g), FractionPart(g);
    DigitLessParts(g);
    if whole == [] && frac == [] then None
    else
      DigitsValuePositive(whole);
      DigitsValuePositive(frac);
      NonZeroParts(g);
      var w, f, p := DigitsValue(whole), DigitsValue(frac), Pow10(|frac|);
      QuotientSign(f, p);
      Some(w as real + f as real / p as real)
  }

  /** A natural number over a positive one is non-negative, and positive exactly when the numerator is. */
  lemma QuotientSign(f: nat, p: nat)
    requires p >= 1
    ensures f as real / p as real >= 0.0
    ensures f as real / p as real > 0.0 <==> f > 0
  {
  }

  /** A character a mantissa is made of: a digit or the point. */
  predicate IsMantissaChar(c: char) {
    IsDigit(c) || c == '.'
  }

  predicate IsSign(c: char) {
    c == '+' || c == '-'
  }

  /** `[+-]?\d+`: the digits of an exponent, optionally signed. */
  predicate IsExponentDigits(e: string) {
    if |e| > 0 && IsSign(e[0]) then |e| > 1 && AllDigits(e[1..]) else |e| > 0 && AllDigits(e)
  }

  /** Nothing, or `e` or `E` followed by the exponent's digits. */
  predicate IsExponentText(x: string) {
    x == [] || (|x| > 0 && (x[0] == 'e' || x[0] == 'E') && IsExponentDigits(x[1..]))
  }

  /** `t[..i]` is an optional sign, `t[i..j]` a mantissa with a digit and `t[j..]` an optional exponent. */
  predicate FloatTextAt(t: string, i: int, j: int) {
    && 0 <= i <= j <= |t|
    && (i == 0 || (i == 1 && IsSign(t[0])))
    && IsDecimalShape(t[i..j]) && HasDigit(t[i..j])
    && IsExponentText(t[j..])
  }

  /** The float literals Python accepts once whitespace and underscores are gone: `[+-]?(\d+\.?\d*|\.\d+)([eE][+-]?\d+)?`. */
  predicate IsFloatText(t: string) {
    exists i, j | 0 <= i <= j <= |t| :: FloatTextAt(t, i, j)
  }

  /** The value of an exponent text, zero when there is none. */
  function ExponentValue(x: string): (k: int)
    requires IsExponentText(x)
    ensures x == [] ==> k == 0
  {
    if x == [] then 0
    else
      var e := x[1..];
      if IsSign(e[0]) then (if e[0] == '-' then -(DigitsValue(e[1..]) as int) else DigitsValue(e[1..]))
      else DigitsValue(e)
  }

  /** `v` times ten to the power `k`. */
  function Scale(v: real, k: int): (r: real)
    ensures k == 0 ==> r == v
    decreases if k < 0 then -k else k
  {
    if k == 0 then v else if k > 0 then Scale(v * 10.0, k - 1) else Scale(v / 10.0, k + 1)
  }

  /** Scaling by a non-negative `n` multiplies by ten to the `n`. */
  lemma {:induction false} ScaleUpIsPower(v: real, n: nat)
    ensures Scale(v, n) == v * Pow10(n) as real
    decreases n
  {
    if n > 0 {
      ScaleUpIsPower(v * 10.0, n - 1);
      var p := Pow10(n - 1) as real;
      assert Pow10(n) as real == 10.0 * p;
      assert (v * 10.0) * p == v * (10.0 * p);
    }
  }

  /** Scaling by `-n` divides by ten to the `n`. */
  lemma {:induction false} ScaleDownIsPower(v: real, n: nat)
    ensures Scale(v, -(n as int)) == v / Pow10(n) as real
    decreases n
  {
    if n > 0 {
      ScaleDownIsPower(v / 10.0, n - 1);
      var p := Pow10(n - 1) as real;
      assert Pow10(n) as real == 10.0 * p;
      assert p > 0.0;
      assert (v / 10.0) / p == v / (10.0 * p);
    }
  }

  /** Where the reading looks for the mantissa: after a leading sign, if any. */
  function SignLength(t: string): (i: nat)
    ensures i <= |t|
  {
    if |t| > 0 && IsSign(t[0]) then 1 else 0
  }

  /** Where the mantissa's run of digits and points ends. */
  function MantissaEnd(t: string): (j: nat)
    ensures SignLength(t) <= j <= |t|
  {
    SignLength(t) + Span(t[SignLength(t)..], IsMantissaChar)
  }

  /** The value of a float literal split at `i` and `j`: the signed mantissa scaled by the exponent. */
  function FloatTextValue(t: string, i: int, j: int): real
    requires FloatTextAt(t, i, j)
  {
    var v := FloatOfDecimal(t[i..j]).value;
    Scale(if i == 1 && t[0] == '-' then -v else v, ExponentValue(t[j..]))
  }

  /** Reading a float literal: the sign, then the mantissa's value scaled by its exponent. */
  function ParseFloatText(t: string): (r: Option<real>)
    ensures r.Some? ==> FloatTextAt(t, SignLength(t), MantissaEnd(t))
  {
    if FloatTextAt(t, SignLength(t), MantissaEnd(t)) then Some(FloatTextValue(t, SignLength(t), MantissaEnd(t)))
    else None
  }

  /** A float literal splits in one way only: at its sign and at the end of its mantissa. */
  lemma FloatTextSplit(t: string, i: int, j: int)
    requires FloatTextAt(t, i, j)
    ensures i == SignLength(t) && j == MantissaEnd(t)
  {
    var m := t[i..j];
    assert IsMantissaChar(m[0]) by {
      var k :| 0 <= k < |m| && IsDigit(m[k]);
    }
    var rest := t[i..];
    assert forall k :: 0 <= k < j - i ==> rest[k] == m[k];
    assert j < |t| ==> rest[j - i] == t[j..][0];
    SpanIs(rest, IsMantissaChar, j - i);
  }

  lemma FloatTextUnique(t: string)
    ensures IsFloatText(t) <==> FloatTextAt(t, SignLength(t), MantissaEnd(t))
  {
    if IsFloatText(t) {
      var i, j :| 0 <= i <= j <= |t| && FloatTextAt(t, i, j);
      FloatTextSplit(t, i, j);
    }
  }

  /** Whatever the split of a float literal, its reading is the value at that split. */
  lemma ReadAt(t: string, i: int, j: int)
    requires FloatTextAt(t, i, j)
    ensures ParseFloatText(t) == Some(FloatTextValue(t, i, j))
  {
    FloatTextSplit(t, i, j);
  }

  /** CPython's rule for underscores in a number: each one stands between two digits. */
  predicate UnderscoresBetweenDigits(s: string) {
    forall i {:trigger UnderscoreFitsAt(s, i)} :: 0 <= i < |s| ==> UnderscoreFitsAt(s, i)
  }

  /** Position `i` holds no underscore, or one with a digit on each side. */
  predicate UnderscoreFitsAt(s: string, i: int)
    requires 0 <= i < |s|
  {
    s[i] == '_' ==> 0 < i < |s| - 1 && IsDigit(s[i - 1]) && IsDigit(s[i + 1])
  }

  /** `s` with its underscores removed. */
  function DropUnderscores(s: string): (r: string)
    ensures |r| <= |s|
    ensures forall i :: 0 <= i < |r| ==> r[i] != '_'
    ensures (forall i :: 0 <= i < |s| ==> s[i] != '_') ==> r == s
  {
    if s == [] then []
    else (if s[0] == '_' then [] else [s[0]]) + DropUnderscores(s[1..])
  }

  /**
   * The whitespace `float` strips from an ASCII string: the six characters of
   * C's `isspace`. The separators `\x1c` to `\x1f`, which `str.isspace`
   * counts as whitespace, are not among them.
   */
  predicate FloatSpace(c: char) {
    c == ' ' || c == '\t' || c == '\n' || c == '\r' || c == '\U{B}' || c == '\U{C}'
  }

  /**
   * `float(s)` for a string: underscores must stand between digits and are
   * then dropped, surrounding `FloatSpace` is ignored, and what is left must be
   * a float literal. On plain decimal strings this is the decimal reading.
   */
  function PythonFloat(s: string): (r: Option<real>)
    ensures !UnderscoresBetweenDigits(s) ==> r.None?
  {
    if !UnderscoresBetweenDigits(s) then None
    else ParseFloatText(Trim(DropUnderscores(s), FloatSpace))
  }

  /** On plain decimal strings `float` is the decimal reading. */
  lemma PythonFloatDecimal(s: string)
    requires IsDecimalShape(s)
    ensures PythonFloat(s) == FloatOfDecimal(s)
  {
    DecimalUnpadded(s);
    DecimalIsFloatText(s);
  }

  /**
   * The strings `float` accepts are exactly those whose underscores all stand
   * between digits and which, once the underscores and the surrounding
   * `FloatSpace` are gone, are float literals.
   */
  lemma PythonFloatAccepts(s: string)
    ensures PythonFloat(s).Some? <==> UnderscoresBetweenDigits(s) && IsFloatText(Trim(DropUnderscores(s), FloatSpace))
  {
    FloatTextUnique(Trim(DropUnderscores(s), FloatSpace));
  }

  /** A plain decimal string has no underscores and no whitespace to remove. */
  lemma DecimalUnpadded(g: string)
    requires IsDecimalShape(g)
    ensures Trim(DropUnderscores(g), FloatSpace) == g
  {
    assert DropUnderscores(g) == g;
    if g != [] {
      assert IsMantissaChar(g[0]) && IsMantissaChar(g[|g| - 1]);
    }
    TrimUnpadded(g, FloatSpace);
  }

  /** A plain decimal string is read as the literal it is, with no sign and no exponent. */
  lemma DecimalIsFloatText(g: string)
    requires IsDecimalShape(g)
    ensures ParseFloatText(g) == FloatOfDecimal(g)
  {
    if |g| > 0 {
      assert IsMantissaChar(g[0]);
    }
    assert SignLength(g) == 0;
    assert g[0..] == g;
    SpanIs(g, IsMantissaChar, |g|);
    assert MantissaEnd(g) == |g|;
    assert g[0..|g|] == g && g[|g|..] == [];
    if HasDigit(g) {
      assert FloatTextAt(g, 0, |g|);
      assert FloatTextValue(g, 0, |g|) == FloatOfDecimal(g).value;
    }
  }

  /** A string with no underscores and no whitespace at its ends is read as the literal it is. */
  lemma Unpadded(t: string)
    requires forall k :: 0 <= k < |t| ==> t[k] != '_'
    requires t == [] || (!FloatSpace(t[0]) && !FloatSpace(t[|t| - 1]))
    ensures PythonFloat(t) == ParseFloatText(t)
  {
    assert UnderscoresBetweenDigits(t);
    assert DropUnderscores(t) == t;
    TrimUnpadded(t, FloatSpace);
  }

  /** A leading minus negates a decimal and a leading plus keeps it. */
  lemma SignedDecimal(g: string, v: real)
    requires IsDecimalShape(g) && FloatOfDecimal(g) == Some(v)
    ensures PythonFloat("-" + g) == Some(-v)
    ensures PythonFloat("+" + g) == Some(v)
  {
    SignBefore(g, v, '-');
    SignBefore(g, v, '+');
    assert "-" + g == ['-'] + g && "+" + g == ['+'] + g;
  }

  lemma SignBefore(g: string, v: real, sign: char)
    requires IsDecimalShape(g) && FloatOfDecimal(g) == Some(v) && IsSign(sign)
    ensures PythonFloat([sign] + g) == Some(if sign == '-' then -v else v)
  {
    var t := SignSplit(g, sign);
    assert FloatTextValue(t, 1, |t|) == Scale(if sign == '-' then -v else v, 0);
    ReadAt(t, 1, |t|);
  }

  /** A sign followed by a decimal with a digit is a float literal split after the sign, read as it is. */
  lemma SignSplit(g: string, sign: char) returns (t: string)
    requires IsDecimalShape(g) && HasDigit(g) && IsSign(sign)
    ensures t == [sign] + g && FloatTextAt(t, 1, |t|) && t[1..|t|] == g && t[|t|..] == []
    ensures PythonFloat(t) == ParseFloatText(t)
  {
    t := [sign] + g;
    assert t[1..] == g && t[1..|t|] == g && t[|t|..] == [];
    assert t[|t| - 1] == g[|g| - 1] && IsMantissaChar(g[|g| - 1]);
    Unpadded(t);
  }

  /** An exponent of `n` after a decimal worth `v` scales it up by ten to the `n`. */
  lemma {:induction false} ExponentMultiplies(g: string, v: real, mark: char, d: string)
    requires IsDecimalShape(g) && FloatOfDecimal(g) == Some(v)
    requires mark == 'e' || mark == 'E'
    requires d != [] && AllDigits(d)
    ensures PythonFloat(g + [mark] + d) == Some(Scale(v, DigitsValue(d)))
  {
    PositiveExponent(mark, d);
    ExponentRead(g + [mark] + d, g, v, [mark] + d, DigitsValue(d));
  }

  /** An exponent of `-n` after a decimal worth `v` scales it down by ten to the `n`. */
  lemma {:induction false} ExponentDivides(g: string, v: real, mark: char, d: string)
    requires IsDecimalShape(g) && FloatOfDecimal(g) == Some(v)
    requires mark == 'e' || mark == 'E'
    requires d != [] && AllDigits(d)
    ensures PythonFloat(g + [mark, '-'] + d) == Some(v / Pow10(DigitsValue(d)) as real)
  {
    NegativeExponent(mark, d);
    ExponentRead(g + [mark, '-'] + d, g, v, [mark, '-'] + d, -(DigitsValue(d) as int));
    ScaleDownIsPower(v, DigitsValue(d));
  }

  /** A decimal worth `v` followed by an exponent text of value `k` is worth `v` scaled by ten to the `k`. */
  lemma ExponentRead(s: string, g: string, v: real, x: string, k: int)
    requires IsDecimalShape(g) && FloatOfDecimal(g) == Some(v)
    requires x != [] && IsExponentText(x) && IsDigit(x[|x| - 1]) && ExponentValue(x) == k
    requires s == g + x
    ensures PythonFloat(s) == Some(Scale(v, k))
  {
    var t := ExponentSplit(g, x);
    UnsignedValue(t, g, x, v);
    ReadAt(t, 0, |g|);
  }

  /** A float literal with no sign is worth its mantissa scaled by its exponent. */
  lemma UnsignedValue(t: string, g: string, x: string, v: real)
    requires FloatTextAt(t, 0, |g|) && t[0..|g|] == g && t[|g|..] == x
    requires FloatOfDecimal(g) == Some(v)
    ensures FloatTextValue(t, 0, |g|) == Scale(v, ExponentValue(x))
  {
  }

  lemma PositiveExponent(mark: char, d: string)
    requires mark == 'e' || mark == 'E'
    requires d != [] && AllDigits(d)
    ensures IsExponentText([mark] + d) && ExponentValue([mark] + d) == DigitsValue(d)
    ensures IsDigit(([mark] + d)[|d|])
  {
    assert ([mark] + d)[1..] == d;
  }

  lemma NegativeExponent(mark: char, d: string)
    requires mark == 'e' || mark == 'E'
    requires d != [] && AllDigits(d)
    ensures IsExponentText([mark, '-'] + d) && ExponentValue([mark, '-'] + d) == -(DigitsValue(d) as int)
    ensures IsDigit(([mark, '-'] + d)[|d| + 1])
  {
    assert ([mark, '-'] + d)[1..] == ['-'] + d && (['-'] + d)[1..] == d;
  }

  /** A decimal with a digit followed by an exponent text is a float literal split after the decimal, read as it is. */
  lemma ExponentSplit(g: string, x: string) returns (t: string)
    requires IsDecimalShape(g) && HasDigit(g)
    requires x != [] && IsExponentText(x) && IsDigit(x[|x| - 1])
    ensures t == g + x && FloatTextAt(t, 0, |g|)
    ensures t[0..|g|] == g && t[|g|..] == x
    ensures PythonFloat(t) == ParseFloatText(t)
  {
    var k :| 0 <= k < |g| && IsDigit(g[k]);
    assert IsMantissaChar(g[0]);
    t := g + x;
    assert t[0] == g[0] && t[|t| - 1] == x[|x| - 1];
    assert t[0..|g|] == g && t[|g|..] == x;
    Unpadded(t);
  }

  /** A non-empty run of digits is read as the whole number it denotes. */
  lemma WholeNumber(g: string)
    requires g != [] && AllDigits(g)
    ensures IsDecimalShape(g) && FloatOfDecimal(g) == Some(DigitsValue(g) as real)
  {
    SpanIs(g, IsDigit, |g|);
    assert g[..|g|] == g;
  }

  lemma OneDigit(c: char)
    requires IsDigit(c)
    ensures DigitsValue([c]) == DigitValue(c)
  {
    assert [c][..0] == [];
  }

  lemma AppendDigit(ds: string, c: char)
    requires AllDigits(ds) && IsDigit(c)
    ensures DigitsValue(ds + [c]) == 10 * DigitsValue(ds) + DigitValue(c)
  {
    assert (ds + [c])[..|ds|] == ds;
  }

  lemma ThousandScale()
    ensures Scale(1.0, 3) == 1000.0
  {
    assert Pow10(3) == 1000;
  }

  lemma TwoTenths()
    ensures DigitValue('2') as real / Pow10(DigitValue('1')) as real == 0.2
  {
    assert Pow10(1) == 10;
  }

  /** A digit, an exponent mark and a digit: the first digit scaled up by the second. */
  lemma DigitExponentDigit(a: char, mark: char, b: char)
    requires IsDigit(a) && IsDigit(b) && (mark == 'e' || mark == 'E')
    ensures PythonFloat([a, mark, b]) == Some(Scale(DigitValue(a) as real, DigitValue(b)))
  {
    assert [a] + [mark] + [b] == [a, mark, b];
    OneDigit(a);
    OneDigit(b);
    WholeNumber([a]);
    ExponentMultiplies([a], DigitValue(a) as real, mark, [b]);
  }

  /** A digit, an exponent mark, a minus and a digit: the first digit scaled down by the second. */
  lemma DigitNegativeExponentDigit(a: char, mark: char, b: char)
    requires IsDigit(a) && IsDigit(b) && (mark == 'e' || mark == 'E')
    ensures PythonFloat([a, mark, '-', b]) == Some(DigitValue(a) as real / Pow10(DigitValue(b)) as real)
  {
    assert [a] + [mark, '-'] + [b] == [a, mark, '-', b];
    OneDigit(a);
    OneDigit(b);
    WholeNumber([a]);
    ExponentDivides([a], DigitValue(a) as real, mark, [b]);
  }

  /** A blank at each end of a string whose inner ends are not whitespace is stripped away. */
  lemma TrimOneBlank(s: string)
    requires |s| >= 3 && s[0] == ' ' && s[|s| - 1] == ' '
    requires !FloatSpace(s[1]) && !FloatSpace(s[|s| - 2])
    ensures Trim(s, FloatSpace) == s[1..|s| - 1]
  {
    SpanIs(s, FloatSpace, 1);
    TrailingSpanIs(s[1..], FloatSpace, 1);
    assert s[1..][..|s| - 2] == s[1..|s| - 1];
  }

  /** Blanks at the ends of a string without underscores change nothing. */
  lemma PaddedUnderscoreFree(s: string)
    requires |s| >= 3 && s[0] == ' ' && s[|s| - 1] == ' '
    requires !FloatSpace(s[1]) && !FloatSpace(s[|s| - 2])
    requires forall k :: 0 <= k < |s| ==> s[k] != '_'
    ensures PythonFloat(s) == PythonFloat(s[1..|s| - 1])
  {
    var x := s[1..|s| - 1];
    assert forall k :: 0 <= k < |x| ==> x[k] == s[k + 1];
    assert UnderscoresBetweenDigits(s) && UnderscoresBetweenDigits(x);
    assert DropUnderscores(s) == s && DropUnderscores(x) == x;
    TrimOneBlank(s);
    TrimUnpadded(x, FloatSpace);
  }

  /** The same, between two blanks. */
  lemma PaddedDigitNegativeExponentDigit(a: char, mark: char, b: char)
    requires IsDigit(a) && IsDigit(b) && (mark == 'e' || mark == 'E')
    ensures PythonFloat([' ', a, mark, '-', b, ' ']) == Some(DigitValue(a) as real / Pow10(DigitValue(b)) as real)
  {
    var s := [' ', a, mark, '-', b, ' '];
    assert s[1..5] == [a, mark, '-', b];
    PaddedUnderscoreFree(s);
    DigitNegativeExponentDigit(a, mark, b);
  }

  /** `float("1e3")` is a thousand. */
  lemma ExponentExample()
    ensures PythonFloat("1e3") == Some(1000.0)
  {
    DigitExponentDigit('1', 'e', '3');
    ThousandScale();
  }

  /** `float(" 2E-1 ")` is two tenths: padding is ignored and the exponent may be negative. */
  lemma PaddedExponentExample()
    ensures PythonFloat(" 2E-1 ") == Some(0.2)
  {
    PaddedDigitNegativeExponentDigit('2', 'E', '1');
    TwoTenths();
  }

  lemma Thousand()
    ensures DigitsValue("1000") == 1000
  {
    OneDigit('1');
    AppendDigit("1", '0');
    AppendDigit("10", '0');
    AppendDigit("100", '0');
    assert "1" == ['1'];
    assert "10" == "1" + ['0'];
    assert "100" == "10" + ['0'];
    assert "1000" == "100" + ['0'];
  }

  /** Dropping underscores works piece by piece. */
  lemma {:induction false} DropUnderscoresConcat(a: string, b: string)
    ensures DropUnderscores(a + b) == DropUnderscores(a) + DropUnderscores(b)
  {
    if a == [] {
      assert a + b == b;
    } else {
      var head := if a[0] == '_' then [] else [a[0]];
      assert (a + b)[0] == a[0] && (a + b)[1..] == a[1..] + b;
      DropUnderscoresConcat(a[1..], b);
      assert head + (DropUnderscores(a[1..]) + DropUnderscores(b)) == (head + DropUnderscores(a[1..])) + DropUnderscores(b);
    }
  }

  /** Digits with no underscore: there is nothing to drop. */
  lemma DigitsUnderscoreFree(t: string)
    requires AllDigits(t)
    ensures UnderscoresBetweenDigits(t) && DropUnderscores(t) == t
  {
    assert forall k :: 0 <= k < |t| ==> t[k] != '_';
  }

  /** An underscore with a run of digits on each side stands between digits, and dropping it joins the runs. */
  lemma UnderscoreJoins(x: string, y: string)
    requires x != [] && y != [] && AllDigits(x) && AllDigits(y)
    ensures UnderscoresBetweenDigits(x + ['_'] + y)
    ensures DropUnderscores(x + ['_'] + y) == x + y
  {
    var s := x + ['_'] + y;
    forall i | 0 <= i < |s|
      ensures UnderscoreFitsAt(s, i)
    {
      if i < |x| {
        assert s[i] == x[i];
      } else if i > |x| {
        assert s[i] == y[i - |x| - 1];
      } else {
        assert s[i - 1] == x[|x| - 1] && s[i + 1] == y[0];
      }
    }
    DigitsUnderscoreFree(x);
    DigitsUnderscoreFree(y);
    DropUnderscoresConcat(x + ['_'], y);
    DropUnderscoresConcat(x, ['_']);
    assert DropUnderscores(['_']) == [] by {
      assert ['_'][1..] == [];
    }
    assert x + [] == x;
  }

  /** An underscore between two runs of digits is ignored. */
  lemma UnderscoreIgnored(x: string, y: string)
    requires x != [] && y != [] && AllDigits(x) && AllDigits(y)
    ensures PythonFloat(x + ['_'] + y) == PythonFloat(x + y)
  {
    assert AllDigits(x + y) by {
      forall k | 0 <= k < |x + y| ensures IsDigit((x + y)[k]) {
        if k >= |x| { assert (x + y)[k] == y[k - |x|]; }
      }
    }
    DigitsUnderscoreFree(x + y);
    UnderscoreJoins(x, y);
  }

  /** A digit, an underscore and three digits read as the four digits' number. */
  lemma DigitUnderscoreThreeDigits(a: char, b: char, c: char, d: char)
    requires IsDigit(a) && IsDigit(b) && IsDigit(c) && IsDigit(d)
    ensures PythonFloat([a, '_', b, c, d]) == Some(DigitsValue([a, b, c, d]) as real)
  {
    assert [a] + ['_'] + [b, c, d] == [a, '_', b, c, d];
    assert [a] + [b, c, d] == [a, b, c, d];
    UnderscoreIgnored([a], [b, c, d]);
    WholeNumber([a, b, c, d]);
    PythonFloatDecimal([a, b, c, d]);
  }

  /** `float("1_000")` is a thousand: an underscore between digits is dropped. */
  lemma UnderscoreExample()
    ensures PythonFloat("1_000") == Some(1000.0)
  {
    DigitUnderscoreThreeDigits('1', '0', '0', '0');
    Thousand();
  }

  /** Underscores that do not stand between two digits make `float` fail. */
  lemma MisplacedUnderscoreExamples()
    ensures PythonFloat("1__0") == None
    ensures PythonFloat("_1") == None
    ensures PythonFloat("1_") == None
    ensures PythonFloat("1_.5") == None
  {
    assert !UnderscoreFitsAt("1__0", 1);
    assert !UnderscoreFitsAt("_1", 0);
    assert !UnderscoreFitsAt("1_", 1);
    assert !UnderscoreFitsAt("1_.5", 1);
  }

  /** An exponent mark needs digits after it. */
  lemma ExponentWithoutDigits()
    ensures PythonFloat("1e") == None
  {
    Unpadded("1e");
    SpanIs("1e", IsMantissaChar, 1);
    assert "1e"[0..] == "1e" && "1e"[1..] == "e";
    FloatTextUnique("1e");
  }

  /** An exponent needs a mantissa before it. */
  lemma ExponentWithoutMantissa()
    ensures PythonFloat("e3") == None
  {
    Unpadded("e3");
    SpanIs("e3", IsMantissaChar, 0);
    assert "e3"[0..] == "e3" && "e3"[0..0] == [];
    FloatTextUnique("e3");
  }

  /** Removing underscores keeps every other character. */
  lemma {:induction false} DropKeeps(s: string, k: nat)
    requires k < |s| && s[k] != '_'
    ensures exists m :: 0 <= m < |DropUnderscores(s)| && DropUnderscores(s)[m] == s[k]
  {
    var head := if s[0] == '_' then [] else [s[0]];
    assert DropUnderscores(s) == head + DropUnderscores(s[1..]);
    if k == 0 {
      assert DropUnderscores(s)[0] == s[0];
    } else {
      DropKeeps(s[1..], k - 1);
      var m :| 0 <= m < |DropUnderscores(s[1..])| && DropUnderscores(s[1..])[m] == s[1..][k - 1];
      assert DropUnderscores(s)[|head| + m] == s[k];
    }
  }

  /** A character trimming may not remove stays in the trimmed text. */
  lemma TrimKeeps(t: string, k: nat, p: char -> bool)
    requires k < |t| && !p(t[k])
    ensures exists m :: 0 <= m < |Trim(t, p)| && Trim(t, p)[m] == t[k]
  {
    var r := Trim(t, p);
    var i :| Bordered(t, r, i, p);
    assert i <= k < i + |r|;
    assert r[k - i] == t[k];
  }

  /** A float literal is made of signs, digits, points and exponent marks only. */
  lemma FloatTextAlphabet(t: string, i: int, j: int, m: nat)
    requires FloatTextAt(t, i, j) && m < |t|
    ensures IsSign(t[m]) || IsMantissaChar(t[m]) || t[m] == 'e' || t[m] == 'E'
  {
    if m < i {
      assert IsSign(t[0]);
    } else if m < j {
      assert t[i..j][m - i] == t[m];
    } else {
      var x := t[j..];
      assert x[m - j] == t[m];
      if m > j {
        assert x[1..][m - j - 1] == t[m];
      }
    }
  }

  /** A float literal holds no separator character. */
  lemma SeparatorNotFloatText(r: string, n: nat)
    requires n < |r| && '\U{1C}' <= r[n] <= '\U{1F}'
    ensures ParseFloatText(r) == None
  {
    if ParseFloatText(r).Some? {
      FloatTextAlphabet(r, SignLength(r), MantissaEnd(r), n);
      assert false;
    }
  }

  /**
   * The separators `\x1c` to `\x1f` are whitespace to `str.isspace` but not to
   * `float`: a string holding one anywhere is refused.
   */
  lemma SeparatorRefused(s: string, k: nat)
    requires k < |s| && '\U{1C}' <= s[k] <= '\U{1F}'
    ensures IsSpace(s[k])
    ensures PythonFloat(s) == None
  {
    if UnderscoresBetweenDigits(s) {
      var t := DropUnderscores(s);
      DropKeeps(s, k);
      var m :| 0 <= m < |t| && t[m] == s[k];
      var r := Trim(t, FloatSpace);
      TrimKeeps(t, m, FloatSpace);
      var n :| 0 <= n < |r| && r[n] == s[k];
      SeparatorNotFloatText(r, n);
    }
  }

  /** `"1\x1f"` is refused, although `str.strip` would leave `"1"`. */
  lemma UnitSeparatorExample()
    ensures PythonFloat("1\U{1F}") == None
    ensures Strip("1\U{1F}") == "1"
  {
    SeparatorRefused("1\U{1F}", 1);
    SpanIs("1\U{1F}", IsSpace, 0);
    TrailingSpanIs("1\U{1F}", IsSpace, 1);
    TrailingSpanIs("1\U{1F}"[0..], IsSpace, 1);
  }
}
