/**
 * Python's `float(text)` and `int(text)` over a restricted decimal grammar, with exact values:
 * surrounding whitespace, an optional sign, then decimal digits (for `float`, with at most one
 * point and at least one digit).  A text outside the grammar is `None`, where Python raises
 * `ValueError`.
 */
module PyNumbers {
  import opened Wrappers
  import opened Text

  predicate IsDigit(c: char) {
    '0' <= c <= '9'
  }

  predicate AllDigits(s: string) {
    forall i :: 0 <= i < |s| ==> IsDigit(s[i])
  }

  /** The value of a string of decimal digits, most significant first. */
  function DigitsValue(ds: string): nat
    requires AllDigits(ds)
    decreases |ds|
  {
    if ds == [] then 0
    else DigitsValue(ds[..|ds| - 1]) * 10 + (ds[|ds| - 1] as int - '0' as int)
  }

  function Pow10(n: nat): (p: nat)
    ensures p >= 1
  {
    if n == 0 then 1 else 10 * Pow10(n - 1)
  }

  lemma ShiftDigit(x: int, p: int, y: int, d: int)
    ensures (x * p + y) * 10 + d == x * (10 * p) + (y * 10 + d)
  {
  }

  lemma ShiftFraction(x: int, p: int, y: int)
    requires p >= 1
    ensures (x * p + y) as real / p as real == x as real + y as real / p as real
  {
    var pr := p as real;
    assert (x * p + y) as real == x as real * pr + y as real;
    assert (x as real * pr + y as real) / pr == x as real * pr / pr + y as real / pr;
    assert x as real * pr / pr == x as real;
  }

  /** Reading digits `a` then digits `b` is reading `a`, shifted by `|b|` places, plus `b`. */
  lemma {:induction false} DigitsAppend(a: string, b: string)
    requires AllDigits(a) && AllDigits(b)
    ensures AllDigits(a + b)
    ensures DigitsValue(a + b) == DigitsValue(a) * Pow10(|b|) + DigitsValue(b)
    decreases |b|
  {
    if b == [] {
      assert a + b == a;
    } else {
      var b' := b[..|b| - 1];
      DigitsAppend(a, b');
      assert (a + b)[..|a + b| - 1] == a + b';
      var x, p, y, d := DigitsValue(a), Pow10(|b'|), DigitsValue(b'), b[|b| - 1] as int - '0' as int;
      assert DigitsValue(a + b) == (x * p + y) * 10 + d;
      ShiftDigit(x, p, y, d);
    }
  }

  /** A leading `-` or `+`, as Python's numeric parsers read it: (negative, rest). */
  function SplitSign(t: string): (bool, string)
  {
    if t != [] && t[0] == '-' then (true, t[1..])
    else if t != [] && t[0] == '+' then (false, t[1..])
    else (false, t)
  }

  /**
   * An exact decimal number, `units / 10^scale`: the text `1.50` reads as units 150 at scale 2.
   * Python's `float` rounds this to binary; the model keeps it exact.
   */
  datatype Decimal = Decimal(units: int, scale: nat) {
    function Value(): real {
      units as real / Pow10(scale) as real
    }
  }

  /** Digits with at most one decimal point and at least one digit, as an exact non-negative decimal. */
  function ParseUnsignedDecimal(b: string): (r: Option<Decimal>)
    ensures r.Some? ==> r.value.units >= 0
  {
    match Find(b, ".")
    case None =>
      if b != [] && AllDigits(b) then Some(Decimal(DigitsValue(b), 0)) else None
    case Some(i) =>
      var whole, frac := b[..i], b[i + 1..];
      if AllDigits(whole) && AllDigits(frac) && |whole| + |frac| > 0 then
        assert AllDigits(whole + frac);
        Some(Decimal(DigitsValue(whole + frac), |frac|))
      else None
  }

  /** The characters a text accepted by ParseFloat can hold. */
  predicate FloatChar(c: char) {
    IsDigit(c) || c == '.' || c == '+' || c == '-' || IsSpace(c)
  }

  /** Python's `float(s)` on the decimal grammar; `None` where it raises `ValueError`. */
  function ParseFloat(s: string): (r: Option<Decimal>)
    ensures r.Some? ==> s != []
    ensures r.Some? && r.value.units < 0 ==> '-' in s
  {
    var (negative, body) := SplitSign(Strip(s));
    match ParseUnsignedDecimal(body)
    case None => None
    case Some(d) => Some(if negative then Decimal(-d.units, d.scale) else d)
  }

  /** Python's `int(s)` in base 10; `None` where it raises `ValueError`. */
  function ParseInt(s: string): (r: Option<int>)
    ensures r.Some? ==> s != []
    ensures r.Some? && r.value < 0 ==> '-' in s
  {
    var (negative, body) := SplitSign(Strip(s));
    if body != [] && AllDigits(body) then
      var n := DigitsValue(body) as int;
      Some(if negative then -n else n)
    else None
  }

  /** Only digits and at most one point survive a successful unsigned parse. */
  lemma UnsignedDecimalChars(b: string)
    requires ParseUnsignedDecimal(b).Some?
    ensures forall c :: c in b ==> IsDigit(c) || c == '.'
  {
    match Find(b, ".")
    case None =>
    case Some(i) =>
      assert b[i..i + 1][0] == b[i];
      assert b == b[..i] + [b[i]] + b[i + 1..];
  }

  /** A text `float()` accepts holds only digits, a point, signs and whitespace. */
  lemma ParseFloatChars(s: string)
    requires ParseFloat(s).Some?
    ensures forall c :: c in s ==> FloatChar(c)
  {
    var t := Strip(s);
    StripChars(s);
    SignChars(t);
    UnsignedDecimalChars(SplitSign(t).1);
  }

  /** Splitting off the sign keeps every other character in the body. */
  lemma SignChars(t: string)
    ensures forall c :: c in t ==> c in SplitSign(t).1 || c == '+' || c == '-'
  {
    if t != [] {
      assert t == [t[0]] + t[1..];
    }
  }

  lemma NoWhitespaceDigits(ds: string)
    requires AllDigits(ds)
    ensures forall c :: c in ds ==> !IsSpace(c) && c != '.'
  {
  }

  /** A plain digit string (leading zeros allowed) reads as its decimal value. */
  lemma ParseFloatOfDigits(ds: string)
    requires ds != [] && AllDigits(ds)
    ensures ParseFloat(ds) == Some(Decimal(DigitsValue(ds), 0))
  {
    assert IsDigit(ds[0]) && IsDigit(ds[|ds| - 1]);
    ParseFloatUnsigned(ds);
    UnsignedOfDigits(ds);
  }

  /** Without a point, a digit string is read with scale 0. */
  lemma UnsignedOfDigits(ds: string)
    requires ds != [] && AllDigits(ds)
    ensures ParseUnsignedDecimal(ds) == Some(Decimal(DigitsValue(ds), 0))
  {
    NoWhitespaceDigits(ds);
    ContainsChar(ds, '.');
  }

  /** In `whole.frac` with a digit string before the point, the first point is that one. */
  lemma FindPointAfterDigits(whole: string, frac: string)
    requires AllDigits(whole)
    ensures Find(whole + "." + frac, ".") == Some(|whole|)
  {
    var b := whole + "." + frac;
    assert OccursAt(b, ".", |whole|) by {
      assert b[|whole|..|whole| + 1] == ".";
    }
    forall j: nat | j < |whole| ensures !OccursAt(b, ".", j) {
      assert b[j] == whole[j];
      assert b[j..j + 1][0] == b[j];
    }
    assert Contains(b, ".");
  }

  /** A text with no surrounding whitespace and no sign is read by float() as unsigned. */
  lemma ParseFloatUnsigned(b: string)
    requires b != [] && !IsSpace(b[0]) && !IsSpace(b[|b| - 1]) && b[0] != '-' && b[0] != '+'
    ensures ParseFloat(b) == ParseUnsignedDecimal(b)
  {
    assert Strip(b) == b;
    assert SplitSign(b) == (false, b);
  }

  lemma UnsignedOfDecimal(whole: string, frac: string)
    requires AllDigits(whole) && AllDigits(frac) && |whole| + |frac| > 0
    ensures AllDigits(whole + frac)
    ensures ParseUnsignedDecimal(whole + "." + frac) == Some(Decimal(DigitsValue(whole + frac), |frac|))
  {
    var b := whole + "." + frac;
    FindPointAfterDigits(whole, frac);
    assert b[..|whole|] == whole;
    assert b[|whole| + 1..] == frac;
  }

  lemma DecimalTextEnds(whole: string, frac: string)
    requires AllDigits(whole) && AllDigits(frac)
    ensures var b := whole + "." + frac;
      b != [] && !IsSpace(b[0]) && !IsSpace(b[|b| - 1]) && b[0] != '-' && b[0] != '+'
  {
    var b := whole + "." + frac;
    assert b[0] == if whole == [] then '.' else whole[0];
    assert b[|b| - 1] == if frac == [] then '.' else frac[|frac| - 1];
  }

  /** `whole.frac` with digit strings reads as the digits `whole frac` at scale `|frac|`. */
  lemma ParseFloatOfDecimal(whole: string, frac: string)
    requires AllDigits(whole) && AllDigits(frac) && |whole| + |frac| > 0
    ensures AllDigits(whole + frac)
    ensures ParseFloat(whole + "." + frac) == Some(Decimal(DigitsValue(whole + frac), |frac|))
  {
    DecimalTextEnds(whole, frac);
    ParseFloatUnsigned(whole + "." + frac);
    UnsignedOfDecimal(whole, frac);
  }

  /** The decimal read from `whole.frac` is worth whole + frac / 10^|frac|. */
  lemma DecimalMeaning(whole: string, frac: string)
    requires AllDigits(whole) && AllDigits(frac)
    ensures AllDigits(whole + frac)
    ensures Decimal(DigitsValue(whole + frac), |frac|).Value()
         == DigitsValue(whole) as real + DigitsValue(frac) as real / Pow10(|frac|) as real
  {
    DigitsAppend(whole, frac);
    ShiftFraction(DigitsValue(whole), Pow10(|frac|), DigitsValue(frac));
  }

  /** A plain digit string reads back with `int()` as its decimal value. */
  lemma ParseIntOfDigits(ds: string)
    requires ds != [] && AllDigits(ds)
    ensures ParseInt(ds) == Some(DigitsValue(ds))
  {
    NoWhitespaceDigits(ds);
    assert Strip(ds) == ds;
  }

  /** A digit string after a minus sign reads back with `int()` as its negated value. */
  lemma ParseIntOfNegative(ds: string)
    requires ds != [] && AllDigits(ds)
    ensures ParseInt("-" + ds) == Some(-(DigitsValue(ds) as int))
  {
    NoWhitespaceDigits(ds);
    var t := "-" + ds;
    assert !IsSpace(t[0]) && t[|t| - 1] == ds[|ds| - 1];
    assert Strip(t) == t;
    assert t[1..] == ds;
  }
}
