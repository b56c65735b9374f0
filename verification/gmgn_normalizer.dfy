/**
 * The gmgn amount normaliser: a leaderboard amount such as `+1.5K` or `2M` read as a number.
 * Every `+` is dropped; a `K` anywhere multiplies by one thousand, otherwise an `M` anywhere
 * by one million.  `None` stands for the `ValueError` that `float()` raises on malformed text.
 */
module GmgnNormalizer {
  import opened Wrappers
  import opened Text
  import opened PyNumbers

  /** A parsed amount in thousands; a failed parse stays failed. */
  function Kilo(r: Option<Decimal>): Option<Decimal>
  {
    match r
    case None => None
    case Some(d) => Some(Decimal(d.units * 1000, d.scale))
  }

  /** A parsed amount in millions; a failed parse stays failed. */
  function Mega(r: Option<Decimal>): Option<Decimal>
  {
    match r
    case None => None
    case Some(d) => Some(Decimal(d.units * 1000000, d.scale))
  }

  /**
   * `convert_to_number`.  The contract restates the chain of `replace` calls as character
   * removal: the text with its `+` (and the multiplier letter) gone, parsed and scaled.
   */
  function ConvertToNumber(value: string): (r: Option<Decimal>)
    ensures 'K' in value ==> r == Kilo(ParseFloat(Without(value, {'+', 'K'})))
    ensures 'K' !in value && 'M' in value ==> r == Mega(ParseFloat(Without(value, {'+', 'M'})))
    ensures 'K' !in value && 'M' !in value ==> r == ParseFloat(Without(value, {'+'}))
  {
    var v := ReplaceAll(value, "+", "");
    SignAndLetterRemoved(value, 'K');
    SignAndLetterRemoved(value, 'M');
    if Contains(v, "K") then Kilo(ParseFloat(ReplaceAll(v, "K", "")))
    else if Contains(v, "M") then Mega(ParseFloat(ReplaceAll(v, "M", "")))
    else ParseFloat(v)
  }

  /** Dropping every `+` and then every `c` is removing both characters. */
  lemma SignAndLetterRemoved(value: string, c: char)
    requires c != '+'
    ensures ReplaceAll(value, "+", "") == Without(value, {'+'})
    ensures Contains(ReplaceAll(value, "+", ""), [c]) <==> c in value
    ensures ReplaceAll(ReplaceAll(value, "+", ""), [c], "") == Without(value, {'+', c})
  {
    var v := ReplaceAll(value, "+", "");
    ReplaceCharIsWithout(value, '+');
    ReplaceCharIsWithout(v, c);
    ContainsChar(v, c);
    WithoutWithout(value, {'+'}, {c});
    assert {'+'} + {c} == {'+', c};
  }

  /** A text holding both multiplier letters never parses: the `K` branch leaves the `M` in. */
  lemma BothMultipliersFail(value: string)
    requires 'K' in value && 'M' in value
    ensures ConvertToNumber(value) == None
  {
    var t := Without(value, {'+', 'K'});
    assert 'M' in t;
    assert !FloatChar('M');
    if ParseFloat(t).Some? {
      ParseFloatChars(t);
      assert false;
    }
  }

  /** Removing a set of characters that includes `+` erases a `+` between `a` and `b`. */
  lemma DropPlus(a: string, b: string, cs: set<char>)
    requires '+' in cs
    ensures Without(a + "+" + b, cs) == Without(a + b, cs)
  {
    assert Without(a + "+", cs) == Without(a, cs) by {
      WithoutAppend(a, "+", cs);
      assert Without("+", cs) == [];
    }
    WithoutAppend(a + "+", b, cs);
    WithoutAppend(a, b, cs);
  }

  /** `+` signs may sit anywhere: removing one changes nothing. */
  lemma PlusIsIgnored(a: string, b: string)
    ensures ConvertToNumber(a + "+" + b) == ConvertToNumber(a + b)
  {
    var x, y := a + "+" + b, a + b;
    DropPlus(a, b, {'+', 'K'});
    DropPlus(a, b, {'+', 'M'});
    DropPlus(a, b, {'+'});
    assert 'K' in x <==> 'K' in y;
    assert 'M' in x <==> 'M' in y;
  }

  /** A `K` after a text free of signs and multipliers scales that text's parse by one thousand. */
  lemma TrailingKilo(b: string)
    requires '+' !in b && 'K' !in b
    ensures ConvertToNumber(b + "K") == Kilo(ParseFloat(b))
  {
    var v := b + "K";
    WithoutAppend(b, "K", {'+', 'K'});
    WithoutNothing(b, {'+', 'K'});
    assert Without("K", {'+', 'K'}) == [];
    assert v[|b|] == 'K';
    assert Without(v, {'+', 'K'}) == b;
  }

  /** An `M` after a text free of signs and multipliers scales that text's parse by one million. */
  lemma TrailingMega(b: string)
    requires '+' !in b && 'K' !in b && 'M' !in b
    ensures ConvertToNumber(b + "M") == Mega(ParseFloat(b))
  {
    var v := b + "M";
    WithoutAppend(b, "M", {'+', 'M'});
    WithoutNothing(b, {'+', 'M'});
    assert Without("M", {'+', 'M'}) == [];
    assert v[|b|] == 'M';
    assert 'K' !in v;
    assert Without(v, {'+', 'M'}) == b;
  }

  /** A digit string with a trailing `K` is that many thousands. */
  lemma Thousands(ds: string)
    requires ds != [] && AllDigits(ds)
    ensures ConvertToNumber(ds + "K") == Some(Decimal(DigitsValue(ds) * 1000, 0))
  {
    NoWhitespaceDigits(ds);
    TrailingKilo(ds);
    ParseFloatOfDigits(ds);
  }

  /** A digit string with a trailing `M` is that many millions. */
  lemma Millions(ds: string)
    requires ds != [] && AllDigits(ds)
    ensures ConvertToNumber(ds + "M") == Some(Decimal(DigitsValue(ds) * 1000000, 0))
  {
    NoWhitespaceDigits(ds);
    TrailingMega(ds);
    ParseFloatOfDigits(ds);
  }

  /** A decimal amount `whole.frac` followed by `K` is its exact value times one thousand. */
  lemma DecimalThousands(whole: string, frac: string)
    requires AllDigits(whole) && AllDigits(frac) && |whole| + |frac| > 0
    ensures AllDigits(whole + frac)
    ensures ConvertToNumber(whole + "." + frac + "K") == Some(Decimal(DigitsValue(whole + frac) * 1000, |frac|))
  {
    var b := whole + "." + frac;
    assert '+' !in b && 'K' !in b by {
      assert !IsDigit('+') && !IsDigit('K');
      assert forall i :: 0 <= i < |b| ==> b[i] == '.' || IsDigit(b[i]);
    }
    TrailingKilo(b);
    ParseFloatOfDecimal(whole, frac);
  }

}
