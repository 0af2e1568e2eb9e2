/** The UTF-8 and surrogate arithmetic of the decoder, against RFC 3629 and RFC 2781. */
module Unicode {
  import opened Options
  import opened Bytes

  /** codepoint_to_utf8; `None` is its error above U+10FFFF. */
  function CodepointToUtf8(n: nat): Option<bytes> {
    if n <= 0x7f then Some([n])
    else if n <= 0x7ff then Some([n / 64 + 192, n % 64 + 128])
    else if n <= 0xffff then Some([n / 4096 + 224, n % 4096 / 64 + 128, n % 64 + 128])
    else if n <= 0x10ffff then
      Some([n / 262144 + 240, n % 262144 / 4096 + 128, n % 4096 / 64 + 128, n % 64 + 128])
    else None
  }

  /** The number a `\uXXXX\uXXXX` match stands for; the second half is not checked to be a low surrogate. */
  function Combine(n1: nat, n2: nat): (n: nat)
    requires 0xd800 <= n1
    ensures n == (n1 - 0xd800) * 0x400 + n2 + 0x2400
  {
    (n1 - 0xd800) * 0x400 + (n2 - 0xdc00) + 0x10000
  }

  predicate IsScalar(n: int) { 0 <= n < 0xd800 || 0xe000 <= n <= 0x10ffff }

  predicate IsContinuation(b: byte) { 128 <= b < 192 }

  /** One UTF-8 character by the syntax of section 4 of RFC 3629: shortest form, no surrogates.
      The result is the character and its length. */
  function DecodeOne(s: bytes): (r: Option<(nat, nat)>)
    ensures r.Some? ==> 0 < r.value.1 <= |s|
  {
    if |s| == 0 then None
    else
      var b0: int := s[0];
      if b0 < 128 then Some((b0, 1))
      else if |s| == 1 || !IsContinuation(s[1]) then None
      else
        var b1: int := s[1];
        if 194 <= b0 < 224 then Some(((b0 - 192) * 64 + (b1 - 128), 2))
        else if |s| == 2 || !IsContinuation(s[2]) then None
        else
          var b2: int := s[2];
          if 224 <= b0 < 240 && (b0 == 224 ==> 160 <= b1) && (b0 == 237 ==> b1 < 160) then
            Some(((b0 - 224) * 4096 + (b1 - 128) * 64 + (b2 - 128), 3))
          else if |s| == 3 || !IsContinuation(s[3]) then None
          else if 240 <= b0 < 245 && (b0 == 240 ==> 144 <= b1) && (b0 == 244 ==> b1 < 144) then
            Some(((b0 - 240) * 262144 + (b1 - 128) * 4096 + (b2 - 128) * 64 + (s[3] as int - 128), 4))
          else None
  }

  /** Strict UTF-8 decoding of a whole byte string. */
  function DecodeUtf8(s: bytes): Option<seq<int>> {
    if s == [] then Some([])
    else
      match DecodeOne(s)
      case None => None
      case Some((n, k)) =>
        match DecodeUtf8(s[k..])
        case None => None
        case Some(ns) => Some([n] + ns)
  }

  predicate AllScalars(ns: seq<int>) { forall k :: 0 <= k < |ns| ==> IsScalar(ns[k]) }

  function Utf8(ns: seq<int>): bytes
    requires AllScalars(ns)
  {
    if ns == [] then [] else CodepointToUtf8(ns[0]).value + Utf8(ns[1..])
  }

  /** The encoding of `n` in terms of its base-64 digits. */
  lemma EncodedDigits(n: nat, a: nat, b: nat, c: nat, d: nat)
    requires n <= 0x10ffff && n == a * 262144 + b * 4096 + c * 64 + d
    requires b < 64 && c < 64 && d < 64
    ensures a <= 4
    ensures CodepointToUtf8(n).value ==
            if n <= 0x7f then [n]
            else if n <= 0x7ff then [c + 192, d + 128]
            else if n <= 0xffff then [b + 224, c + 128, d + 128]
            else [a + 240, b + 128, c + 128, d + 128]
  {
    assert n % 64 == d && n / 64 == a * 4096 + b * 64 + c;
    assert n % 4096 == c * 64 + d && n / 4096 == a * 64 + b;
    assert n % 262144 == b * 4096 + c * 64 + d && n / 262144 == a;
  }

  lemma DecodeThree(s: bytes, b: nat, c: nat, d: nat)
    requires |s| >= 3 && s[0] == b + 224 && s[1] == c + 128 && s[2] == d + 128
    requires b < 16 && c < 64 && d < 64 && (b == 0 ==> 32 <= c) && (b == 13 ==> c < 32)
    ensures DecodeOne(s) == Some((b * 4096 + c * 64 + d, 3))
  {}

  lemma DecodeFour(s: bytes, a: nat, b: nat, c: nat, d: nat)
    requires |s| >= 4 && s[0] == a + 240 && s[1] == b + 128 && s[2] == c + 128 && s[3] == d + 128
    requires a <= 4 && b < 64 && c < 64 && d < 64 && (a == 0 ==> 16 <= b) && (a == 4 ==> b < 16)
    ensures DecodeOne(s) == Some((a * 262144 + b * 4096 + c * 64 + d, 4))
  {}

  lemma DecodeOneEncoded(n: nat, s: bytes)
    requires IsScalar(n) && At(s, 0, CodepointToUtf8(n).value)
    ensures DecodeOne(s) == Some((n, |CodepointToUtf8(n).value|))
  {
    var m := n / 64;
    var a, b, c, d := m / 64 / 64, m / 64 % 64, m % 64, n % 64;
    EncodedDigits(n, a, b, c, d);
    DecodeByDigits(n, s, CodepointToUtf8(n).value, a, b, c, d);
  }

  lemma DecodeByDigits(n: nat, s: bytes, e: bytes, a: nat, b: nat, c: nat, d: nat)
    requires IsScalar(n) && At(s, 0, e)
    requires n == a * 262144 + b * 4096 + c * 64 + d && a <= 4 && b < 64 && c < 64 && d < 64
    requires if n <= 0x7f then e == [n] else if n <= 0x7ff then e == [c + 192, d + 128]
             else if n <= 0xffff then |e| == 3 && e[0] == b + 224 && e[1] == c + 128 && e[2] == d + 128
             else |e| == 4 && e[0] == a + 240 && e[1] == b + 128 && e[2] == c + 128 && e[3] == d + 128
    ensures DecodeOne(s) == Some((n, |e|))
  {
    if n <= 0x7ff {
    } else if n <= 0xffff {
      DecodeThree(s, b, c, d);
    } else {
      DecodeFour(s, a, b, c, d);
    }
  }

  /** The encoder's output decodes strictly, and uniquely, to the scalar values it was given. */
  lemma {:induction false} Utf8RoundTrip(ns: seq<int>)
    requires AllScalars(ns)
    ensures DecodeUtf8(Utf8(ns)) == Some(ns)
  {
    if ns != [] {
      var e, rest := CodepointToUtf8(ns[0]).value, Utf8(ns[1..]);
      assert At(e + rest, 0, e);
      DecodeOneEncoded(ns[0], e + rest);
      Utf8Step(ns, e, rest);
      Utf8RoundTrip(ns[1..]);
      assert [ns[0]] + ns[1..] == ns;
    }
  }

  lemma Utf8Step(ns: seq<int>, e: bytes, rest: bytes)
    requires AllScalars(ns) && ns != []
    requires e == CodepointToUtf8(ns[0]).value && rest == Utf8(ns[1..])
    requires DecodeOne(e + rest) == Some((ns[0], |e|))
    ensures DecodeUtf8(Utf8(ns)) == match DecodeUtf8(rest) case None => None case Some(ms) => Some([ns[0]] + ms)
  {
    assert (e + rest)[|e|..] == rest;
  }

  /** Surrogates of section 2.1 of RFC 2781 for a scalar value above U+FFFF. */
  function HighSurrogate(n: int): int { 0xd800 + (n - 0x10000) / 0x400 }

  function LowSurrogate(n: int): int { 0xdc00 + (n - 0x10000) % 0x400 }

  lemma CombineSurrogates(n: nat)
    requires 0x10000 <= n <= 0x10ffff
    ensures 0xd800 <= HighSurrogate(n) < 0xdc00 && 0xdc00 <= LowSurrogate(n) < 0xe000
    ensures Combine(HighSurrogate(n), LowSurrogate(n)) == n
  {}

  /** A code point that is half a surrogate pair is encoded like any other of its size, although it is no
      character. */
  lemma LoneSurrogate(n: nat)
    requires 0xd800 <= n < 0xe000
    ensures CodepointToUtf8(n) == Some([237, 128 + n / 64 % 64, 128 + n % 64])
    ensures DecodeUtf8(CodepointToUtf8(n).value) == None
  {
    assert n / 4096 == 13 && n % 4096 / 64 == n / 64 % 64;
    assert DecodeOne(CodepointToUtf8(n).value) == None;
  }
}
