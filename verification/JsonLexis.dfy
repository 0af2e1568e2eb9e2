/** The character tables of json.lua, which its parser and the grammar share. */
module JsonLexis {
  import opened Options
  import opened Bytes

  const SPACES: set<byte> := {32, 9, 13, 10}
  const DELIMITERS: set<byte> := {32, 9, 13, 10, RBRACKET, RBRACE, COMMA}
  const TRUE: bytes := [116, 114, 117, 101]
  const FALSE: bytes := [102, 97, 108, 115, 101]
  const NULL: bytes := [110, 117, 108, 108]

  /** escape_char_map_inv. `\'` is in escape_chars, yet has no entry here. */
  function Unescape(c: byte): Option<byte> {
    if c == 47 || c == BACKSLASH || c == QUOTE then Some(c)
    else if c == 98 then Some(8)
    else if c == 102 then Some(12)
    else if c == 110 then Some(10)
    else if c == 114 then Some(13)
    else if c == 116 then Some(9)
    else None
  }

  predicate StartsNumber(b: byte) { IsDigit(b) || b == MINUS }

  predicate StartsLiteral(b: byte) { b == 116 || b == 102 || b == 110 }
}
