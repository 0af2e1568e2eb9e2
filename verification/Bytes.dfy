/** Byte strings, Lua's only text type, and what it means for one to occur inside another. */
module Bytes {
  type byte = x: int | 0 <= x < 256
  type bytes = seq<byte>

  const QUOTE: byte := 34
  const APOSTROPHE: byte := 39
  const COMMA: byte := 44
  const MINUS: byte := 45
  const DOT: byte := 46
  const COLON: byte := 58
  const LBRACKET: byte := 91
  const BACKSLASH: byte := 92
  const RBRACKET: byte := 93
  const LOWER_U: byte := 117
  const LBRACE: byte := 123
  const RBRACE: byte := 125

  /** `t` occurs in `s` at index `i`. */
  predicate At(s: bytes, i: nat, t: bytes) {
    i + |t| <= |s| && forall k {:trigger s[k]} :: i <= k < i + |t| ==> s[k] == t[k - i]
  }

  lemma AtSplit(s: bytes, i: nat, a: bytes, b: bytes)
    ensures At(s, i, a + b) <==> At(s, i, a) && At(s, i + |a|, b)
  {}

  predicate IsDigit(b: byte) { 48 <= b <= 57 }

  predicate AllDigits(s: bytes) { forall k :: 0 <= k < |s| ==> IsDigit(s[k]) }

  predicate IsHex(b: byte) { IsDigit(b) || 65 <= b <= 70 || 97 <= b <= 102 }

  /** The value of one hexadecimal digit, upper or lower case. */
  function HexDigit(b: byte): (v: nat)
    requires IsHex(b)
    ensures v < 16
  {
    if IsDigit(b) then b - 48 else if b <= 70 then b - 55 else b - 87
  }

  /** Four hexadecimal digits. */
  datatype Hex = Hex(a: byte, b: byte, c: byte, d: byte) {
    predicate Valid() { IsHex(a) && IsHex(b) && IsHex(c) && IsHex(d) }

    function Value(): (v: nat)
      requires Valid()
      ensures v < 0x10000
    {
      HexDigit(a) * 4096 + HexDigit(b) * 256 + HexDigit(c) * 16 + HexDigit(d)
    }

    /** The first half of a surrogate pair. */
    predicate IsHigh() { Valid() && 0xd800 <= Value() < 0xdc00 }
  }

  /** The four bytes at `i`. */
  function HexAt(s: bytes, i: nat): Hex
    requires i + 4 <= |s|
  {
    Hex(s[i], s[i + 1], s[i + 2], s[i + 3])
  }
}
