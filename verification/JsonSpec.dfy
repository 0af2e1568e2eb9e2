/** What each function of the decoder returns, as a function of the text and a start index
    (from 0; the Lua code counts from 1). */
module JsonSpec {
  import opened Bytes
  import opened LuaValue
  import opened Numerals
  import opened Unicode
  import opened JsonLexis

  /** The first index from `i` on whose byte is in `chars` (not in it when `negate`), or the end. */
  function NextChar(s: bytes, i: nat, chars: set<byte>, negate: bool): (k: nat)
    requires i <= |s|
    ensures i <= k <= |s|
    decreases |s| - i
  {
    if i == |s| || (s[i] in chars) != negate then i else NextChar(s, i + 1, chars, negate)
  }

  // ---------------------------------------------------------------- strings

  /** The pattern `%x%x%x%x` at `i`. */
  predicate HexDigitsAt(s: bytes, i: nat) { i + 4 <= |s| && HexAt(s, i).Valid() }

  /** The pattern `[dD][89aAbB]%x%x\u%x%x%x%x` at `i`. */
  predicate PairAt(s: bytes, i: nat) {
    && HexDigitsAt(s, i) && HexAt(s, i).IsHigh()
    && i + 6 <= |s| && s[i + 4] == BACKSLASH && s[i + 5] == LOWER_U
    && HexDigitsAt(s, i + 6)
  }

  /** One escape; `j` is the index after the backslash. */
  function Escape(s: bytes, j: nat): (r: Parsed<bytes>)
    requires 0 < j <= |s|
    ensures r.Ok? ==> j < r.next <= |s|
  {
    if j == |s| then Err(InvalidEscape, j - 1)
    else if s[j] == LOWER_U then
      if PairAt(s, j + 1) then
        match CodepointToUtf8(Combine(HexAt(s, j + 1).Value(), HexAt(s, j + 7).Value()))
        case Some(b) => Ok(b, j + 11)
        case None => Err(InvalidCodepoint, j - 1)
      else if HexDigitsAt(s, j + 1) then Ok(CodepointToUtf8(HexAt(s, j + 1).Value()).value, j + 5)
      else Err(InvalidUnicodeEscape, j - 1)
    else if s[j] == APOSTROPHE then Err(ConcatenateNil, j - 1)
    else
      match Unescape(s[j])
      case Some(b) => Ok([b], j + 1)
      case None => Err(InvalidEscape, j - 1)
  }

  /** The rest of a string literal from `j` on; `open` is the index of its opening quote. */
  function StringRest(s: bytes, j: nat, quote: byte, open: nat): (r: Parsed<bytes>)
    requires j <= |s|
    ensures r.Ok? ==> j < r.next <= |s|
    decreases |s| - j
  {
    if j == |s| then Err(ExpectedClosingQuote, open)
    else if s[j] < 32 then Err(ControlCharacter, j)
    else if s[j] == BACKSLASH then
      match Escape(s, j + 1)
      case Ok(b, k) => StringRest(s, k, quote, open).Map(r => b + r)
      case Err(e, at) => Err(e, at)
    else if s[j] == quote then Ok([], j + 1)
    else StringRest(s, j + 1, quote, open).Map(r => [s[j]] + r)
  }

  // ---------------------------------------------------------------- values

  function ParseNumber(s: bytes, i: nat): Parsed<Value>
    requires i <= |s|
  {
    var x := NextChar(s, i, DELIMITERS, false);
    match ToNumber(s[i..x])
    case Some(n) => Ok(Num(n), x)
    case None => Err(InvalidNumber, i)
  }

  function ParseLiteral(s: bytes, i: nat): Parsed<Value>
    requires i <= |s|
  {
    var x := NextChar(s, i, DELIMITERS, false);
    var word := s[i..x];
    if word == TRUE then Ok(Bool(true), x)
    else if word == FALSE then Ok(Bool(false), x)
    else if word == NULL then Ok(Nil, x)
    else Err(InvalidLiteral, i)
  }

  /** Any value, starting exactly at `i`. */
  function Parse(s: bytes, i: nat): (r: Parsed<Value>)
    requires i <= |s|
    ensures r.Ok? ==> i < r.next <= |s|
    decreases |s| - i, 0
  {
    if i == |s| then Err(UnexpectedCharacter, i)
    else if s[i] == QUOTE || s[i] == APOSTROPHE then StringRest(s, i + 1, s[i], i).Map(b => Str(b))
    else if StartsNumber(s[i]) then ParseNumber(s, i)
    else if StartsLiteral(s[i]) then ParseLiteral(s, i)
    else if s[i] == LBRACKET then ParseArray(s, i + 1, 1, map[]).Map(t => Table(t))
    else if s[i] == LBRACE then ParseObject(s, i + 1, map[]).Map(t => Table(t))
    else Err(UnexpectedCharacter, i)
  }

  /** The loop of parse_array, about to look for element `n`. */
  function ParseArray(s: bytes, i: nat, n: nat, res: map<Key, Value>): (r: Parsed<map<Key, Value>>)
    requires i <= |s|
    ensures r.Ok? ==> i < r.next <= |s|
    decreases |s| - i, 1
  {
    var j := NextChar(s, i, SPACES, true);
    if j < |s| && s[j] == RBRACKET then Ok(res, j + 1)
    else
      match Parse(s, j)
      case Err(e, at) => Err(e, at)
      case Ok(x, k) =>
        var res' := Put(res, KNum(n as real), x);
        var m := NextChar(s, k, SPACES, true);
        if m < |s| && s[m] == RBRACKET then Ok(res', m + 1)
        else if m < |s| && s[m] == COMMA then ParseArray(s, m + 1, n + 1, res')
        else Err(ExpectedArrayNext, m + 1)
  }

  /** A member's key, colon and value, from the key's quote on. */
  function ParseMember(s: bytes, j: nat): (r: Parsed<(bytes, Value)>)
    requires j <= |s|
    ensures r.Ok? ==> j < r.next <= |s|
    decreases |s| - j, 1
  {
    if j == |s| || (s[j] != QUOTE && s[j] != APOSTROPHE) then Err(ExpectedKey, j)
    else
      match StringRest(s, j + 1, s[j], j)
      case Err(e, at) => Err(e, at)
      case Ok(key, k) =>
        var c := NextChar(s, k, SPACES, true);
        if c == |s| || s[c] != COLON then Err(ExpectedColon, c)
        else Parse(s, NextChar(s, c + 1, SPACES, true)).Map(v => (key, v))
  }

  /** The loop of parse_object. */
  function ParseObject(s: bytes, i: nat, res: map<Key, Value>): (r: Parsed<map<Key, Value>>)
    requires i <= |s|
    ensures r.Ok? ==> i < r.next <= |s|
    decreases |s| - i, 2
  {
    var j := NextChar(s, i, SPACES, true);
    if j < |s| && s[j] == RBRACE then Ok(res, j + 1)
    else
      match ParseMember(s, j)
      case Err(e, at) => Err(e, at)
      case Ok((key, v), k) =>
        var res' := Put(res, KStr(key), v);
        var m := NextChar(s, k, SPACES, true);
        if m < |s| && s[m] == RBRACE then Ok(res', m + 1)
        else if m < |s| && s[m] == COMMA then ParseObject(s, m + 1, res')
        else Err(ExpectedObjectNext, m + 1)
  }

  /** json.decode: one value, with nothing but white space around it. */
  function Decode(s: bytes): Parsed<Value> {
    match Parse(s, NextChar(s, 0, SPACES, true))
    case Err(e, at) => Err(e, at)
    case Ok(v, k) =>
      var x := NextChar(s, k, SPACES, true);
      if x < |s| then Err(TrailingGarbage, x) else Ok(v, x)
  }
}
