/** The decoder in the form of json.lua: loops over an index, a result built up step by step. */
module JsonDecoder {
  import opened Options
  import opened Bytes
  import opened LuaValue
  import opened Numerals
  import opened Unicode
  import opened JsonLexis
  import JsonSpec

  method NextChar(s: bytes, idx: nat, chars: set<byte>, negate: bool) returns (k: nat)
    requires idx <= |s|
    ensures k == JsonSpec.NextChar(s, idx, chars, negate)
  {
    for i := idx to |s|
      invariant JsonSpec.NextChar(s, idx, chars, negate) == JsonSpec.NextChar(s, i, chars, negate)
    {
      if (s[i] in chars) != negate { return i; }
    }
    return |s|;
  }

  // ---------------------------------------------------------------- escapes

  /** escape_chars, and escape_char_map_inv as json.lua builds it. */
  const ESCAPE_CHARS: set<byte> := {BACKSLASH, 47, QUOTE, APOSTROPHE, 98, 102, 110, 114, 116, LOWER_U}
  const ESCAPE_INVERSE: map<byte, byte> :=
    map[47 := 47, BACKSLASH := BACKSLASH, QUOTE := QUOTE, 98 := 8, 102 := 12, 110 := 10, 114 := 13, 116 := 9]

  /** One position of a pattern: `%x` or a set of characters. */
  datatype Class = AnyHex | OneOf(chars: set<byte>) {
    predicate Holds(b: byte) { if AnyHex? then IsHex(b) else b in chars }
  }

  /** `%x%x%x%x` and `[dD][89aAbB]%x%x\u%x%x%x%x`. */
  const HEX_PATTERN: seq<Class> := [AnyHex, AnyHex, AnyHex, AnyHex]
  const PAIR_PATTERN: seq<Class> :=
    [OneOf({68, 100}), OneOf({56, 57, 65, 66, 97, 98}), AnyHex, AnyHex, OneOf({BACKSLASH}), OneOf({LOWER_U})]
    + HEX_PATTERN

  predicate Matches(s: bytes, i: nat, pattern: seq<Class>) {
    i + |pattern| <= |s| && forall k :: 0 <= k < |pattern| ==> pattern[k].Holds(s[i + k])
  }

  /** string.match, anchored at `i`. */
  method Match(s: bytes, i: nat, pattern: seq<Class>) returns (found: bool)
    ensures found == Matches(s, i, pattern)
  {
    if i + |pattern| > |s| { return false; }
    for k := 0 to |pattern|
      invariant forall m :: 0 <= m < k ==> pattern[m].Holds(s[i + m])
    {
      if !pattern[k].Holds(s[i + k]) { return false; }
    }
    return true;
  }

  lemma HexMatches(s: bytes, i: nat)
    ensures Matches(s, i, HEX_PATTERN) <==> JsonSpec.HexDigitsAt(s, i)
  {
    var p := HEX_PATTERN;
    if Matches(s, i, p) {
      assert p[0].Holds(s[i + 0]) && p[1].Holds(s[i + 1]) && p[2].Holds(s[i + 2]) && p[3].Holds(s[i + 3]);
    }
  }

  lemma HighDigits(h: Hex)
    requires h.Valid()
    ensures h.IsHigh() <==> h.a in {68, 100} && h.b in {56, 57, 65, 66, 97, 98}
  {}

  lemma MatchesBoth(s: bytes, i: nat, p: seq<Class>, q: seq<Class>)
    ensures Matches(s, i, p + q) <==> Matches(s, i, p) && Matches(s, i + |p|, q)
  {
    if Matches(s, i, p + q) {
      forall k | 0 <= k < |p| ensures p[k].Holds(s[i + k]) { assert (p + q)[k] == p[k]; }
      forall k | 0 <= k < |q| ensures q[k].Holds(s[i + |p| + k]) {
        assert (p + q)[|p| + k] == q[k] && (p + q)[|p| + k].Holds(s[i + (|p| + k)]);
      }
    }
  }

  /** The pattern recognises exactly a high surrogate with an escape after it. */
  lemma PairMatches(s: bytes, i: nat)
    ensures Matches(s, i, PAIR_PATTERN) <==> JsonSpec.PairAt(s, i)
  {
    var p: seq<Class> := PAIR_PATTERN[..6];
    assert PAIR_PATTERN == p + HEX_PATTERN && |p| == 6;
    MatchesBoth(s, i, p, HEX_PATTERN);
    HexMatches(s, i + 6);
    if i + 6 <= |s| {
      FirstHalf(s, i, p);
      if JsonSpec.HexDigitsAt(s, i) { HighDigits(HexAt(s, i)); }
    }
  }

  lemma FirstHalf(s: bytes, i: nat, p: seq<Class>)
    requires i + 6 <= |s| && p == PAIR_PATTERN[..6]
    ensures Matches(s, i, p)
            <==> && s[i] in {68, 100} && s[i + 1] in {56, 57, 65, 66, 97, 98} && IsHex(s[i + 2]) && IsHex(s[i + 3])
                 && s[i + 4] == BACKSLASH && s[i + 5] == LOWER_U
  {
    if Matches(s, i, p) {
      assert p[0].Holds(s[i + 0]) && p[1].Holds(s[i + 1]) && p[2].Holds(s[i + 2]);
      assert p[3].Holds(s[i + 3]) && p[4].Holds(s[i + 4]) && p[5].Holds(s[i + 5]);
    }
  }

  /** parse_unicode_escape: one escape or, when it is longer, two. */
  method ParseUnicodeEscape(hex: bytes) returns (code: Option<bytes>)
    requires Matches(hex, 0, HEX_PATTERN) && (|hex| == 4 || (|hex| == 10 && Matches(hex, 0, PAIR_PATTERN)))
    ensures |hex| == 4 ==> JsonSpec.HexDigitsAt(hex, 0) && code == CodepointToUtf8(HexAt(hex, 0).Value())
    ensures |hex| == 10 ==>
              JsonSpec.PairAt(hex, 0) && code == CodepointToUtf8(Combine(HexAt(hex, 0).Value(), HexAt(hex, 6).Value()))
  {
    hide Matches, CodepointToUtf8;
    HexMatches(hex, 0);
    PairMatches(hex, 0);
    var n1: int := HexAt(hex, 0).Value();
    if |hex| == 10 {
      var n2: int := HexAt(hex, 6).Value();
      return CodepointToUtf8((n1 - 0xd800) * 0x400 + (n2 - 0xdc00) + 0x10000);
    }
    return CodepointToUtf8(n1);
  }

  lemma MatchesSlice(s: bytes, i: nat, n: nat, pattern: seq<Class>)
    requires i + n <= |s| && |pattern| <= n
    ensures Matches(s[i..i + n], 0, pattern) <==> Matches(s, i, pattern)
  {
    var t := s[i..i + n];
    if Matches(s, i, pattern) {
      forall k | 0 <= k < |pattern| ensures pattern[k].Holds(t[0 + k]) { assert pattern[k].Holds(s[i + k]); }
    }
    if Matches(t, 0, pattern) {
      forall k | 0 <= k < |pattern| ensures pattern[k].Holds(s[i + k]) { assert pattern[k].Holds(t[0 + k]); }
    }
  }

  /** One escape; `j` is the index after the backslash. */
  method ParseEscape(s: bytes, j: nat) returns (r: Parsed<bytes>)
    requires 0 < j <= |s|
    ensures r == JsonSpec.Escape(s, j)
  {
    hide Matches;
    if j == |s| { return Err(InvalidEscape, j - 1); }
    var c := s[j];
    if c == LOWER_U {
      PairMatches(s, j + 1);
      HexMatches(s, j + 1);
      var n := 0;
      var pair := Match(s, j + 1, PAIR_PATTERN);
      if pair {
        n := 10;
      } else {
        var single := Match(s, j + 1, HEX_PATTERN);
        if !single { return Err(InvalidUnicodeEscape, j - 1); }
        n := 4;
      }
      var hex := s[j + 1..j + 1 + n];
      MatchesSlice(s, j + 1, n, HEX_PATTERN);
      if pair { MatchesSlice(s, j + 1, n, PAIR_PATTERN); }
      var code := ParseUnicodeEscape(hex);
      if code.None? { return Err(InvalidCodepoint, j - 1); }
      return Ok(code.value, j + 1 + n);
    }
    EscapeTables(c);
    if c !in ESCAPE_CHARS { return Err(InvalidEscape, j - 1); }
    if c !in ESCAPE_INVERSE { return Err(ConcatenateNil, j - 1); }
    return Ok([ESCAPE_INVERSE[c]], j + 1);
  }

  /** Of the characters that may be escaped only the apostrophe, and `u`, have no entry in the inverse table. */
  lemma EscapeTables(c: byte)
    ensures c in ESCAPE_INVERSE <==> Unescape(c).Some?
    ensures c in ESCAPE_INVERSE ==> Unescape(c) == Some(ESCAPE_INVERSE[c])
    ensures c in ESCAPE_CHARS <==> c in ESCAPE_INVERSE || c == APOSTROPHE || c == LOWER_U
  {}

  // ---------------------------------------------------------------- strings

  /** `whole` is `tail` with `done` put in front of its value. */
  predicate Continues(whole: Parsed<bytes>, done: bytes, tail: Parsed<bytes>) {
    match tail
    case Err(e, at) => whole == Err(e, at)
    case Ok(rest, next) => whole == Ok(done + rest, next)
  }

  lemma ContinuesFurther(whole: Parsed<bytes>, done: bytes, tail: Parsed<bytes>, more: bytes, tail': Parsed<bytes>)
    requires Continues(whole, done, tail) && Continues(tail, more, tail')
    ensures Continues(whole, done + more, tail')
  {
    if tail'.Ok? { assert done + (more + tail'.value) == (done + more) + tail'.value; }
  }

  lemma StringStep(s: bytes, j: nat, quote: byte, open: nat)
    requires j < |s| && s[j] >= 32
    ensures var whole := JsonSpec.StringRest(s, j, quote, open);
            if s[j] == BACKSLASH then
              match JsonSpec.Escape(s, j + 1)
              case Ok(b, k) => Continues(whole, b, JsonSpec.StringRest(s, k, quote, open))
              case Err(e, at) => whole == Err(e, at)
            else if s[j] == quote then whole == Ok([], j + 1)
            else Continues(whole, [s[j]], JsonSpec.StringRest(s, j + 1, quote, open))
  {
    hide JsonSpec.Escape;
  }

  lemma LongerRun(s: bytes, res: bytes, k: nat, j: nat)
    requires k <= j < |s|
    ensures (res + s[k..j]) + [s[j]] == res + s[k..j + 1]
  {}

  /** `s[k..j]` holds the plain bytes read since the last escape. */
  method ParseString(s: bytes, i: nat, quote: byte) returns (r: Parsed<bytes>)
    requires i < |s|
    ensures r == JsonSpec.StringRest(s, i + 1, quote, i)
  {
    hide JsonSpec.Escape, Continues;
    var res: bytes := [];
    var j, k := i + 1, i + 1;
    ghost var whole := JsonSpec.StringRest(s, j, quote, i);
    NothingRead(s, i + 1, whole);
    while j < |s|
      invariant i < k <= j <= |s|
      invariant Continues(whole, res + s[k..j], JsonSpec.StringRest(s, j, quote, i))
    {
      var x := s[j];
      if x < 32 {
        StringEnds(whole, res + s[k..j], JsonSpec.StringRest(s, j, quote, i));
        return Err(ControlCharacter, j);
      }
      ghost var tail := JsonSpec.StringRest(s, j, quote, i);
      StringStep(s, j, quote, i);
      if x == BACKSLASH {
        res := res + s[k..j];
        var escape := ParseEscape(s, j + 1);
        match escape {
          case Err(e, at) =>
            StringEnds(whole, res, tail);
            return Err(e, at);
          case Ok(b, next) =>
            ContinuesFurther(whole, res, tail, b, JsonSpec.StringRest(s, next, quote, i));
            res := res + b;
            j := next;
            k := next;
            assert res + s[k..j] == res;
        }
      } else if x == quote {
        StringEnds(whole, res + s[k..j], tail);
        return Ok(res + s[k..j], j + 1);
      } else {
        ContinuesFurther(whole, res + s[k..j], tail, [x], JsonSpec.StringRest(s, j + 1, quote, i));
        LongerRun(s, res, k, j);
        j := j + 1;
      }
    }
    StringEnds(whole, res + s[k..j], JsonSpec.StringRest(s, j, quote, i));
    return Err(ExpectedClosingQuote, i);
  }

  lemma NothingRead(s: bytes, k: nat, whole: Parsed<bytes>)
    requires k <= |s|
    ensures Continues(whole, [] + s[k..k], whole)
  {
    if whole.Ok? { assert ([] + s[k..k]) + whole.value == whole.value; }
  }

  lemma StringEnds(whole: Parsed<bytes>, done: bytes, tail: Parsed<bytes>)
    requires Continues(whole, done, tail)
    ensures tail.Err? ==> whole == tail
    ensures tail.Ok? && tail.value == [] ==> whole == Ok(done, tail.next)
  {
    assert done + [] == done;
  }

  method ParseNumber(s: bytes, i: nat) returns (r: Parsed<Value>)
    requires i <= |s|
    ensures r == JsonSpec.ParseNumber(s, i)
  {
    var x := NextChar(s, i, DELIMITERS, false);
    match ToNumber(s[i..x])
    case None => return Err(InvalidNumber, i);
    case Some(n) => return Ok(Num(n), x);
  }

  method ParseLiteral(s: bytes, i: nat) returns (r: Parsed<Value>)
    requires i <= |s|
    ensures r == JsonSpec.ParseLiteral(s, i)
  {
    var x := NextChar(s, i, DELIMITERS, false);
    var word := s[i..x];
    if word == TRUE { return Ok(Bool(true), x); }
    if word == FALSE { return Ok(Bool(false), x); }
    if word == NULL { return Ok(Nil, x); }
    return Err(InvalidLiteral, i);
  }

  method ParseArray(s: bytes, start: nat) returns (r: Parsed<Value>)
    requires start < |s| && s[start] == LBRACKET
    ensures r == JsonSpec.Parse(s, start)
    decreases |s| - start, 0
  {
    hide JsonSpec.NextChar, JsonSpec.StringRest, JsonSpec.ParseNumber, JsonSpec.ParseLiteral, JsonSpec.ParseObject;
    var res: map<Key, Value> := map[];
    var n := 1;
    var i := start + 1;
    while true
      invariant start < i <= |s|
      invariant JsonSpec.ParseArray(s, start + 1, 1, map[]) == JsonSpec.ParseArray(s, i, n, res)
      decreases |s| - i
    {
      i := NextChar(s, i, SPACES, true);
      if i < |s| && s[i] == RBRACKET { return Ok(Table(res), i + 1); }
      var x := Parse(s, i);
      if x.Err? { return Err(x.kind, x.at); }
      res := Put(res, KNum(n as real), x.value);
      n := n + 1;
      i := NextChar(s, x.next, SPACES, true);
      if i < |s| && s[i] == RBRACKET { return Ok(Table(res), i + 1); }
      if i == |s| || s[i] != COMMA { return Err(ExpectedArrayNext, i + 1); }
      i := i + 1;
    }
  }

  /** How parse treats a string and an object. */
  lemma Dispatch(s: bytes, i: nat)
    requires i < |s|
    ensures s[i] == QUOTE || s[i] == APOSTROPHE ==>
        JsonSpec.Parse(s, i) == JsonSpec.StringRest(s, i + 1, s[i], i).Map(b => Str(b))
    ensures s[i] == LBRACE ==> JsonSpec.Parse(s, i) == JsonSpec.ParseObject(s, i + 1, map[]).Map(t => Table(t))
  {
    hide JsonSpec.StringRest, JsonSpec.ParseObject, JsonSpec.ParseArray, JsonSpec.ParseNumber, JsonSpec.ParseLiteral;
  }

  /** One turn of the loop of parse_object. */
  lemma ObjectTurn(s: bytes, i: nat, res: map<Key, Value>)
    requires i <= |s|
    ensures var j := JsonSpec.NextChar(s, i, SPACES, true); var whole := JsonSpec.ParseObject(s, i, res);
            if j < |s| && s[j] == RBRACE then whole == Ok(res, j + 1)
            else
              match JsonSpec.ParseMember(s, j)
              case Err(e, at) => whole == Err(e, at)
              case Ok((key, v), k) =>
                var m := JsonSpec.NextChar(s, k, SPACES, true);
                if m < |s| && s[m] == RBRACE then whole == Ok(Put(res, KStr(key), v), m + 1)
                else if m < |s| && s[m] == COMMA then whole == JsonSpec.ParseObject(s, m + 1, Put(res, KStr(key), v))
                else whole == Err(ExpectedObjectNext, m + 1)
  {
    hide JsonSpec.ParseMember, JsonSpec.NextChar, Put;
  }

  /** The part of the loop of parse_object that reads a key, a colon and a value. */
  method ParseMember(s: bytes, j: nat) returns (r: Parsed<(bytes, Value)>)
    requires j <= |s|
    ensures r == JsonSpec.ParseMember(s, j)
    decreases |s| - j, 2
  {
    hide JsonSpec.NextChar, JsonSpec.StringRest, JsonSpec.Parse;
    if j == |s| || (s[j] != QUOTE && s[j] != APOSTROPHE) { return Err(ExpectedKey, j); }
    var key := Parse(s, j);
    Dispatch(s, j);
    if key.Err? { return Err(key.kind, key.at); }
    var c := NextChar(s, key.next, SPACES, true);
    if c == |s| || s[c] != COLON { return Err(ExpectedColon, c); }
    c := NextChar(s, c + 1, SPACES, true);
    var val := Parse(s, c);
    if val.Err? { return Err(val.kind, val.at); }
    r := Ok((key.value.s, val.value), val.next);
  }

  method ParseObject(s: bytes, start: nat) returns (r: Parsed<Value>)
    requires start < |s| && s[start] == LBRACE
    ensures r == JsonSpec.Parse(s, start)
    decreases |s| - start, 0
  {
    hide JsonSpec.NextChar, JsonSpec.StringRest, JsonSpec.Parse, JsonSpec.ParseMember, JsonSpec.ParseObject, Put;
    Dispatch(s, start);
    var res: map<Key, Value> := map[];
    var i := start + 1;
    while true
      invariant start < i <= |s|
      invariant JsonSpec.ParseObject(s, start + 1, map[]) == JsonSpec.ParseObject(s, i, res)
      decreases |s| - i
    {
      ObjectTurn(s, i, res);
      i := NextChar(s, i, SPACES, true);
      if i < |s| && s[i] == RBRACE { return Ok(Table(res), i + 1); }
      var member := ParseMember(s, i);
      if member.Err? { return Err(member.kind, member.at); }
      res := Put(res, KStr(member.value.0), member.value.1);
      i := NextChar(s, member.next, SPACES, true);
      if i < |s| && s[i] == RBRACE { return Ok(Table(res), i + 1); }
      if i == |s| || s[i] != COMMA { return Err(ExpectedObjectNext, i + 1); }
      i := i + 1;
    }
  }

  method Parse(s: bytes, idx: nat) returns (r: Parsed<Value>)
    requires idx <= |s|
    ensures r == JsonSpec.Parse(s, idx)
    decreases |s| - idx, 1
  {
    if idx == |s| { return Err(UnexpectedCharacter, idx); }
    var chr := s[idx];
    if chr == QUOTE || chr == APOSTROPHE {
      var b := ParseString(s, idx, chr);
      return b.Map(x => Str(x));
    } else if StartsNumber(chr) {
      r := ParseNumber(s, idx);
    } else if StartsLiteral(chr) {
      r := ParseLiteral(s, idx);
    } else if chr == LBRACKET {
      r := ParseArray(s, idx);
    } else if chr == LBRACE {
      r := ParseObject(s, idx);
    } else {
      return Err(UnexpectedCharacter, idx);
    }
  }

  method Decode(s: bytes) returns (r: Parsed<Value>)
    ensures r == JsonSpec.Decode(s)
  {
    var i := NextChar(s, 0, SPACES, true);
    r := Parse(s, i);
    if r.Ok? {
      var x := NextChar(s, r.next, SPACES, true);
      if x < |s| { return Err(TrailingGarbage, x); }
      return Ok(r.value, x);
    }
  }
}
