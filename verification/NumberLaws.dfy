/** What decimal text means, as laws about the bytes: the exponent can be counted down to zero, the point
    moved to the end and the digits taken off one by one. */
module NumberLaws {
  import opened Options
  import opened Bytes
  import opened Numerals

  const ZERO: byte := 48
  const PLUS: byte := 43

  lemma PowerStep(e: int)
    ensures Pow10(e + 1) == 10.0 * Pow10(e)
  {}

  function Scaled(m: int, e: int): real { m as real * Pow10(e) }

  lemma ScaledStep(m: int, e: int)
    ensures Scaled(m, e + 1) == 10.0 * Scaled(m, e)
  {
    PowerStep(e);
  }

  lemma ValueOfText(n: Numeral)
    requires n.Valid()
    ensures ToNumber(n.Text()) == Some(n.Value())
  {
    ScanText(n);
  }

  function Plain(w: bytes): Numeral { Numeral(false, w, false, [], None) }

  function Pointed(w: bytes, f: bytes): Numeral { Numeral(false, w, true, f, None) }

  lemma PlainText(w: bytes)
    requires AllDigits(w) && w != []
    ensures ToNumber(w) == Some(DigitsValue(w) as real)
  {
    assert w + [] == w && Plain(w).Text() == w;
    ValueOfText(Plain(w));
  }

  lemma PointedText(w: bytes, f: bytes)
    requires AllDigits(w) && AllDigits(f) && w + f != []
    ensures ToNumber(w + [DOT] + f) == Some(Scaled(DigitsValue(w + f), -|f|))
  {
    hide ToNumber, DigitsValue, Scaled, Numeral.Text, Numeral.Valid, Numeral.Value;
    PointedParts(w, f);
    ValueOfText(Pointed(w, f));
  }

  lemma PointedParts(w: bytes, f: bytes)
    requires AllDigits(w) && AllDigits(f) && w + f != []
    ensures Pointed(w, f).Valid() && Pointed(w, f).Text() == w + [DOT] + f
    ensures Pointed(w, f).Value() == Scaled(DigitsValue(w + f), -|f|)
  {
    hide DigitsValue, Pow10, AllDigits;
    var n := Pointed(w, f);
    assert n.Text() == w + [DOT] + f by {
      hide Numeral.Value, Numeral.Valid;
      assert n.FractionText() == [DOT] + f && n.SignText() == [] && n.ExponentText() == [];
      FourJoined(w, [DOT], f);
    }
    PointedValue(w, f);
  }

  lemma FourJoined(a: bytes, b: bytes, c: bytes)
    ensures [] + (a + (b + c + [])) == a + b + c
  {}

  lemma PointedValue(w: bytes, f: bytes)
    ensures Pointed(w, f).Value() == Scaled(DigitsValue(w + f), -|f|)
  {
    hide DigitsValue, Pow10;
    assert 0 - |f| == -|f|;
  }

  // ---------------------------------------------------------------- digits

  lemma OneDigit(d: nat)
    requires d < 10
    ensures ToNumber([ZERO + d]) == Some(d as real)
  {
    PlainText([ZERO + d]);
    assert [ZERO + d][..0] == [];
  }

  /** One more digit at the end multiplies by ten and adds the digit. */
  lemma MoreDigits(w: bytes, d: nat)
    requires AllDigits(w) && w != [] && d < 10
    ensures ToNumber(w).Some?
    ensures ToNumber(w + [ZERO + d]) == Some(10.0 * ToNumber(w).value + d as real)
  {
    PlainText(w);
    PlainText(w + [ZERO + d]);
    assert (w + [ZERO + d])[..|w|] == w;
  }

  // ---------------------------------------------------------------- the point

  lemma PointAtEnd(w: bytes)
    requires AllDigits(w) && w != []
    ensures ToNumber(w + [DOT]) == ToNumber(w)
  {
    PlainText(w);
    PointedText(w, []);
    assert w + [] == w && w + [DOT] + [] == w + [DOT];
  }

  /** Moving the point one digit to the right multiplies by ten. */
  lemma MovePoint(w: bytes, d: byte, f: bytes)
    requires AllDigits(w) && IsDigit(d) && AllDigits(f)
    ensures ToNumber(w + [DOT] + ([d] + f)).Some?
    ensures ToNumber(w + [d] + [DOT] + f) == Some(10.0 * ToNumber(w + [DOT] + ([d] + f)).value)
  {
    hide ToNumber, DigitsValue, Scaled;
    PointedText(w, [d] + f);
    PointedText(w + [d], f);
    assert w + [d] + f == w + ([d] + f);
    assert -|[d] + f| == -|f| - 1;
    ScaledStep(DigitsValue(w + [d] + f), -|f| - 1);
  }

  // ---------------------------------------------------------------- the sign

  lemma MinusNegates(s: bytes)
    requires ToNumber(s).Some? && s[..1] != [MINUS]
    ensures ToNumber([MINUS] + s) == Some(-ToNumber(s).value)
  {
    hide DigitsValue, Pow10, Scan, Numeral.Value;
    ScanSound(s);
    ScanValid(s);
    var n := Scan(s).value;
    SignedText(n);
    ValueOfText(n.(negative := true));
    NegativeValue(n);
  }

  lemma SignedText(n: Numeral)
    requires n.Valid()
    ensures n.negative ==> n.Text()[..1] == [MINUS]
    ensures !n.negative ==> n.(negative := true).Valid() && n.(negative := true).Text() == [MINUS] + n.Text()
  {
    var m := n.(negative := true);
    assert m.FractionText() == n.FractionText() && m.ExponentText() == n.ExponentText();
    hide Numeral.FractionText, Numeral.ExponentText;
  }

  lemma NegativeValue(n: Numeral)
    requires !n.negative
    ensures n.(negative := true).Value() == -n.Value()
  {}

  // ---------------------------------------------------------------- the exponent

  /** A number without an exponent: nothing but digits, a point and a sign. */
  predicate Mantissa(s: bytes) {
    ToNumber(s).Some? && forall k :: 0 <= k < |s| ==> IsDigit(s[k]) || s[k] == DOT || s[k] == MINUS
  }

  predicate IsExponentLetter(e: byte) { e == 'e' as int || e == 'E' as int }

  lemma MantissaPlain(s: bytes) returns (n: Numeral)
    requires Mantissa(s)
    ensures n.Valid() && n.exponent.None? && n.Text() == s && Scan(s) == Some(n)
  {
    hide DigitsValue, Pow10;
    ScanSound(s);
    ScanValid(s);
    n := Scan(s).value;
    if n.exponent.Some? {
      LetterAt(n);
      assert false;
    }
  }

  lemma LetterAt(n: Numeral)
    requires n.exponent.Some?
    ensures exists k :: 0 <= k < |n.Text()| && n.Text()[k] == n.exponent.value.letter
  {
    var k := |n.SignText()| + |n.whole| + |n.FractionText()|;
    assert n.Text()[k] == n.exponent.value.letter;
  }

  lemma ExtendedText(n: Numeral, x: Exponent)
    requires n.exponent.None?
    ensures n.(exponent := Some(x)).Text() == n.Text() + x.Text()
  {
    var m := n.(exponent := Some(x));
    assert m.SignText() == n.SignText() && m.FractionText() == n.FractionText();
    hide Numeral.SignText, Numeral.FractionText, Exponent.Text;
    assert n.Text() == n.SignText() + (n.whole + n.FractionText()) by {
      assert n.FractionText() + [] == n.FractionText();
    }
  }

  lemma WithExponent(s: bytes, e: byte, sign: bytes, ds: bytes) returns (n: Numeral)
    requires Mantissa(s) && IsExponentLetter(e) && (sign == [] || sign == [PLUS] || sign == [MINUS])
    requires AllDigits(ds) && ds != []
    ensures n.Valid() && n.exponent == Some(Exponent(e, sign, ds))
    ensures Scan(s) == Some(n.(exponent := None))
    ensures ToNumber(s + [e] + sign + ds) == Some(n.Value())
  {
    hide DigitsValue, Pow10, ToNumber, Scan, Numeral.Text, Numeral.Value, Mantissa;
    var m := MantissaPlain(s);
    var x := Exponent(e, sign, ds);
    n := m.(exponent := Some(x));
    assert n.(exponent := None) == m;
    ExtendedText(m, x);
    assert s + [e] + sign + ds == s + ([e] + sign + ds);
    ValueOfText(n);
  }

  /** The exponent zero, with any sign, changes nothing. */
  lemma ExponentZero(s: bytes, e: byte, sign: bytes)
    requires Mantissa(s) && IsExponentLetter(e) && (sign == [] || sign == [PLUS] || sign == [MINUS])
    ensures ToNumber(s + [e] + sign + [ZERO]) == ToNumber(s)
  {
    hide Mantissa, Pow10, Scan;
    var n := WithExponent(s, e, sign, [ZERO]);
    assert [ZERO][..0] == [];
    assert DigitsValue([ZERO]) == 0;
    assert n.Value() == n.(exponent := None).Value() by { hide DigitsValue; }
  }

  /** An exponent larger by one multiplies by ten, or divides by ten after a minus; only its value counts. */
  lemma ExponentStep(s: bytes, e: byte, sign: bytes, ds: bytes, e': byte, sign': bytes, ds': bytes)
    requires Mantissa(s) && IsExponentLetter(e) && IsExponentLetter(e')
    requires sign == sign' == [MINUS] || (sign in {[], [PLUS]} && sign' in {[], [PLUS]})
    requires AllDigits(ds) && ds != [] && AllDigits(ds') && ds' != []
    ensures ToNumber(ds).Some? && ToNumber(ds').Some?
    ensures ToNumber(s + [e] + sign + ds).Some? && ToNumber(s + [e'] + sign' + ds').Some?
    ensures var x, y := ToNumber(s + [e] + sign + ds).value, ToNumber(s + [e'] + sign' + ds').value;
            && (ToNumber(ds') == ToNumber(ds) ==> y == x)
            && (ToNumber(ds').value == ToNumber(ds).value + 1.0 ==>
                  if sign == [MINUS] then x == 10.0 * y else y == 10.0 * x)
  {
    hide ToNumber, DigitsValue, Pow10, Mantissa;
    PlainText(ds);
    PlainText(ds');
    var n := WithExponent(s, e, sign, ds);
    var m := WithExponent(s, e', sign', ds');
    assert n.(exponent := None) == m.(exponent := None);
    if DigitsValue(ds') == DigitsValue(ds) { SamePower(n, m); }
    if DigitsValue(ds') == DigitsValue(ds) + 1 { if sign == [MINUS] { NextPower(m, n); } else { NextPower(n, m); } }
  }

  lemma SamePower(n: Numeral, m: Numeral)
    requires n.exponent.Some? && m.exponent.Some? && n.(exponent := None) == m.(exponent := None)
    requires n.exponent.value.Value() == m.exponent.value.Value()
    ensures n.Value() == m.Value()
  {}

  lemma NextPower(n: Numeral, m: Numeral)
    requires n.exponent.Some? && m.exponent.Some? && n.(exponent := None) == m.(exponent := None)
    requires m.exponent.value.Value() == n.exponent.value.Value() + 1
    ensures m.Value() == 10.0 * n.Value()
  {
    PowerStep(n.exponent.value.Value() - |n.fraction|);
  }
}
