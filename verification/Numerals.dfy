/** Decimal numerals: their text, their exact value, and the scanner behind `tonumber`. */
module Numerals {
  import opened Options
  import opened Bytes

  datatype Exponent = Exponent(letter: byte, sign: bytes, digits: bytes) {
    predicate Valid() {
      && (letter == 69 || letter == 101)
      && (sign == [] || sign == [43] || sign == [MINUS])
      && AllDigits(digits) && digits != []
    }

    function Text(): bytes { [letter] + sign + digits }

    function Value(): int {
      if sign == [MINUS] then -DigitsValue(digits) else DigitsValue(digits)
    }
  }

  datatype Numeral = Numeral(negative: bool, whole: bytes, dot: bool, fraction: bytes, exponent: Option<Exponent>) {
    /** The decimal forms `strtod` takes: at least one digit before or after the point. */
    predicate Valid() {
      && AllDigits(whole) && AllDigits(fraction)
      && whole + fraction != []
      && (!dot ==> fraction == [])
      && (exponent.Some? ==> exponent.value.Valid())
    }

    /** The numerals of section 6 of RFC 8259. */
    predicate IsJson() {
      && Valid()
      && whole != [] && (whole[0] == 48 ==> |whole| == 1)
      && (dot ==> fraction != [])
    }

    function SignText(): bytes { if negative then [MINUS] else [] }

    function FractionText(): bytes { if dot then [DOT] + fraction else [] }

    function ExponentText(): bytes { if exponent.Some? then exponent.value.Text() else [] }

    function Text(): bytes { SignText() + (whole + (FractionText() + ExponentText())) }

    function Value(): real {
      var m := DigitsValue(whole + fraction) as real;
      var e := (if exponent.Some? then exponent.value.Value() else 0) - |fraction|;
      (if negative then -m else m) * Pow10(e)
    }
  }

  function DigitsValue(s: bytes): int {
    if s == [] then 0 else DigitsValue(s[..|s| - 1]) * 10 + (s[|s| - 1] as int - 48)
  }

  function Pow10(e: int): real
    decreases if e < 0 then -e else e
  {
    if e == 0 then 1.0 else if e > 0 then 10.0 * Pow10(e - 1) else Pow10(e + 1) / 10.0
  }

  /** The end of the run of digits that starts at `i`. */
  function DigitsEnd(s: bytes, i: nat): (e: nat)
    requires i <= |s|
    ensures i <= e <= |s| && AllDigits(s[i..e])
    ensures e < |s| ==> !IsDigit(s[e])
    decreases |s| - i
  {
    if i < |s| && IsDigit(s[i]) then
      var e := DigitsEnd(s, i + 1);
      assert s[i..e] == [s[i]] + s[i + 1..e];
      e
    else i
  }

  /** Reads the rest of a token, from `c` on, as an optional exponent. */
  function ScanExponent(s: bytes, c: nat): Option<Option<Exponent>>
    requires c <= |s|
  {
    if c == |s| then Some(None)
    else if s[c] != 69 && s[c] != 101 then None
    else
      var d := if c + 1 < |s| && (s[c + 1] == 43 || s[c + 1] == MINUS) then c + 2 else c + 1;
      if d == |s| || DigitsEnd(s, d) < |s| then None
      else Some(Some(Exponent(s[c], s[c + 1..d], s[d..])))
  }

  /** Where the parts of a token end: the sign at `a`, the whole part at `b`, the fraction at `c`. */
  datatype Layout = Layout(a: nat, b: nat, c: nat)

  function LayoutOf(s: bytes): (l: Layout)
    ensures l.a <= l.b <= l.c <= |s|
  {
    var a := if |s| > 0 && s[0] == MINUS then 1 else 0;
    var b := DigitsEnd(s, a);
    Layout(a, b, if b < |s| && s[b] == DOT then DigitsEnd(s, b + 1) else b)
  }

  /** Splits a whole token into a numeral, as `strtod` reads it; `None` when some byte is left over. */
  function Scan(s: bytes): Option<Numeral> {
    var l := LayoutOf(s);
    if l.a == l.b && l.c <= l.b + 1 then None
    else
      match ScanExponent(s, l.c)
      case None => None
      case Some(x) =>
        Some(Numeral(l.a == 1, s[l.a..l.b], l.b < l.c, if l.b < l.c then s[l.b + 1..l.c] else [], x))
  }

  /** Lua's `tonumber` on decimal text. */
  function ToNumber(s: bytes): Option<real> {
    match Scan(s)
    case None => None
    case Some(n) => Some(n.Value())
  }

  lemma DigitsEndAt(s: bytes, i: nat, ds: bytes)
    requires At(s, i, ds) && AllDigits(ds)
    requires i + |ds| < |s| ==> !IsDigit(s[i + |ds|])
    ensures DigitsEnd(s, i) == i + |ds|
    decreases |ds|
  {
    if ds != [] {
      assert s[i] == ds[0];
      assert s[i + 1..i + |ds|] == ds[1..];
      DigitsEndAt(s, i + 1, ds[1..]);
    }
  }

  lemma SignEnd(s: bytes, c: nat, x: Exponent)
    requires x.Valid() && At(s, c, x.Text())
    ensures s[c] == x.letter
    ensures (s[c + 1] == 43 || s[c + 1] == MINUS) <==> |x.sign| == 1
    ensures At(s, c + 1, x.sign) && At(s, c + 1 + |x.sign|, x.digits)
  {
    AtSplit(s, c, [x.letter] + x.sign, x.digits);
    AtSplit(s, c, [x.letter], x.sign);
  }

  lemma ScanExponentText(s: bytes, c: nat, x: Exponent)
    requires x.Valid() && At(s, c, x.Text()) && c + |x.Text()| == |s|
    ensures ScanExponent(s, c) == Some(Some(x))
  {
    SignEnd(s, c, x);
    assert s[c + 1..c + 1 + |x.sign|] == x.sign && s[c + 1 + |x.sign|..] == x.digits;
    DigitsEndAt(s, c + 1 + |x.sign|, x.digits);
  }

  lemma SliceAt(s: bytes, i: nat, t: bytes)
    requires At(s, i, t)
    ensures s[i..i + |t|] == t
  {}

  lemma SignAt(s: bytes, n: Numeral)
    requires n.Valid() && At(s, 0, n.SignText()) && At(s, |n.SignText()|, n.whole)
    requires n.whole == [] ==> |s| > |n.SignText()| && s[|n.SignText()|] == DOT
    ensures |n.SignText()| == if |s| > 0 && s[0] == MINUS then 1 else 0
  {
    if n.whole != [] { assert s[|n.SignText()|] == n.whole[0]; }
  }

  /** After the whole part comes the point, or else the exponent or the end. */
  lemma AfterWhole(s: bytes, n: Numeral, l: Layout)
    requires n.Valid() && |s| == l.c + |n.ExponentText()| && l.c == l.b + |n.FractionText()|
    requires At(s, l.b, n.FractionText()) && At(s, l.c, n.ExponentText())
    ensures n.dot ==> l.b < |s| && s[l.b] == DOT && At(s, l.b + 1, n.fraction) && l.c == l.b + 1 + |n.fraction|
    ensures !n.dot ==> l.c == l.b && (l.b < |s| ==> s[l.b] != DOT)
    ensures l.b < |s| ==> !IsDigit(s[l.b])
    ensures l.c < |s| ==> !IsDigit(s[l.c])
  {
    hide AllDigits;
    if n.dot { AtSplit(s, l.b, [DOT], n.fraction); }
  }

  lemma LayoutText(s: bytes, n: Numeral, l: Layout)
    requires n.Valid() && |s| == l.c + |n.ExponentText()|
    requires l.a == |n.SignText()| && l.b == l.a + |n.whole| && l.c == l.b + |n.FractionText()|
    requires At(s, 0, n.SignText()) && At(s, l.a, n.whole)
    requires At(s, l.b, n.FractionText()) && At(s, l.c, n.ExponentText())
    ensures LayoutOf(s) == l
    ensures s[l.a..l.b] == n.whole && (n.dot ==> s[l.b + 1..l.c] == n.fraction)
  {
    hide At, AllDigits, DigitsEnd, Numeral.SignText, Numeral.FractionText, Numeral.ExponentText;
    AfterWhole(s, n, l);
    SignAt(s, n);
    DigitsEndAt(s, l.a, n.whole);
    SliceAt(s, l.a, n.whole);
    if n.dot {
      DigitsEndAt(s, l.b + 1, n.fraction);
      SliceAt(s, l.b + 1, n.fraction);
    }
  }

  lemma ScanParts(s: bytes, n: Numeral, l: Layout)
    requires n.Valid() && |s| == l.c + |n.ExponentText()|
    requires l.a == |n.SignText()| && l.b == l.a + |n.whole| && l.c == l.b + |n.FractionText()|
    requires At(s, 0, n.SignText()) && At(s, l.a, n.whole)
    requires At(s, l.b, n.FractionText()) && At(s, l.c, n.ExponentText())
    ensures Scan(s) == Some(n)
  {
    hide At, AllDigits, LayoutOf, ScanExponent, Exponent.Valid, Exponent.Text;
    LayoutText(s, n, l);
    NoExponent(s);
    PartLengths(n);
    if n.exponent.Some? { ScanExponentText(s, l.c, n.exponent.value); }
  }

  lemma NoExponent(s: bytes)
    ensures ScanExponent(s, |s|) == Some(None)
  {}

  lemma PartLengths(n: Numeral)
    requires n.Valid()
    ensures |n.SignText()| == if n.negative then 1 else 0
    ensures |n.FractionText()| == if n.dot then 1 + |n.fraction| else 0
    ensures n.whole != [] || n.fraction != []
  {}

  lemma FourParts(s: bytes, a: bytes, b: bytes, c: bytes, d: bytes)
    requires s == a + (b + (c + d))
    ensures At(s, 0, a) && At(s, |a|, b) && At(s, |a| + |b|, c) && At(s, |a| + |b| + |c|, d)
    ensures |s| == |a| + |b| + |c| + |d|
  {}

  lemma FourCuts(s: bytes, i: nat, j: nat, k: nat, a: bytes, b: bytes, c: bytes, d: bytes)
    requires i <= j <= k <= |s|
    requires a == s[..i] && b == s[i..j] && c == s[j..k] && d == s[k..]
    ensures s == a + (b + (c + d))
  {}

  /** Scanning undoes printing: every numeral is read back as itself. */
  lemma ScanText(n: Numeral)
    requires n.Valid()
    ensures Scan(n.Text()) == Some(n)
  {
    var a, b, c, d := n.SignText(), n.whole, n.FractionText(), n.ExponentText();
    FourParts(n.Text(), a, b, c, d);
    ScanParts(n.Text(), n, Layout(|a|, |a| + |b|, |a| + |b| + |c|));
  }

  lemma ThreeCuts(s: bytes, i: nat, j: nat, k: nat)
    requires i <= j <= k <= |s|
    ensures s[i..] == s[i..j] + s[j..k] + s[k..]
  {}

  lemma ScanExponentSound(s: bytes, c: nat)
    requires c <= |s| && ScanExponent(s, c).Some?
    ensures var x := ScanExponent(s, c).value;
            (x.Some? ==> x.value.Valid()) && s[c..] == if x.Some? then x.value.Text() else []
  {
    hide AllDigits, DigitsEnd;
    var x := ScanExponent(s, c).value;
    if x.Some? {
      var d := c + 1 + |x.value.sign|;
      ThreeCuts(s, c, c + 1, d);
      assert s[c..c + 1] == [s[c]];
      assert s[d..DigitsEnd(s, d)] == s[d..];
    }
  }

  lemma ScanValid(s: bytes)
    requires Scan(s).Some?
    ensures Scan(s).value.Valid()
  {
    ScanExponentSound(s, LayoutOf(s).c);
  }

  /** Whatever the scanner accepts is a numeral with exactly that text. */
  lemma ScanSound(s: bytes)
    requires Scan(s).Some?
    ensures Scan(s).value.Text() == s
  {
    hide AllDigits, DigitsEnd, ScanExponent, Exponent.Text, Exponent.Valid;
    var n, l := Scan(s).value, LayoutOf(s);
    assert s[l.c..] == n.ExponentText() by { ScanExponentSound(s, l.c); }
    FourCuts(s, l.a, l.b, l.c, n.SignText(), n.whole, n.FractionText(), n.ExponentText());
  }

  /** `tonumber` accepts exactly the texts of valid numerals and returns their value. */
  lemma ToNumberExact(s: bytes, v: real)
    ensures ToNumber(s) == Some(v) <==> exists n: Numeral :: n.Valid() && n.Text() == s && n.Value() == v
  {
    if ToNumber(s) == Some(v) { ScanValid(s); ScanSound(s); }
    forall n: Numeral | n.Valid() && n.Text() == s && n.Value() == v
      ensures ToNumber(s) == Some(v)
    {
      ScanText(n);
    }
  }

  // ---------------------------------------------------------------- integers

  /** The decimal digits of `n`, as `%d` prints them. */
  function NatDigits(n: nat): (ds: bytes)
    ensures AllDigits(ds) && ds != []
  {
    if n < 10 then [48 + n] else NatDigits(n / 10) + [48 + n % 10]
  }

  lemma NatDigitsRoundTrip(n: nat)
    ensures DigitsValue(NatDigits(n)) == n
    ensures NatDigits(n)[0] == 48 ==> n == 0
  {
    if n >= 10 {
      NatDigitsRoundTrip(n / 10);
      assert NatDigits(n)[..|NatDigits(n)| - 1] == NatDigits(n / 10);
    }
  }

  function IntNumeral(n: int): Numeral {
    Numeral(n < 0, NatDigits(if n < 0 then -n else n), false, [], None)
  }

  /** An integer printed in decimal is a JSON numeral and is read back as itself. */
  lemma IntNumeralRoundTrip(n: int)
    ensures IntNumeral(n).IsJson()
    ensures ToNumber(IntNumeral(n).Text()) == Some(n as real)
  {
    var x := IntNumeral(n);
    var m := if n < 0 then -n else n;
    NatDigitsRoundTrip(m);
    assert x.whole + x.fraction == x.whole;
    ScanText(x);
  }
}
