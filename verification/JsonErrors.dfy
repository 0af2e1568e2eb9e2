/** What an error of the decoder says about the text: every kind of error points at a byte that is to blame. */
module JsonErrors {
  import opened Bytes
  import opened LuaValue
  import opened Numerals
  import opened Unicode
  import opened JsonLexis
  import opened JsonSpec

  predicate OneOf(b: byte, chars: string) { b as char in chars }

  /** The text ends at `at`, or has none of the given characters there. */
  predicate NoneOf(s: bytes, at: nat, chars: string) { at <= |s| && (at < |s| ==> !OneOf(s[at], chars)) }

  predicate IsOneOf(s: bytes, at: nat, chars: string) { at < |s| && OneOf(s[at], chars) }

  predicate HexChar(b: byte) {
    '0' as int <= b <= '9' as int || 'a' as int <= b <= 'f' as int || 'A' as int <= b <= 'F' as int
  }

  /** Four hexadecimal digits. */
  predicate FourHex(s: bytes, at: nat) {
    at + 4 <= |s| && HexChar(s[at]) && HexChar(s[at + 1]) && HexChar(s[at + 2]) && HexChar(s[at + 3])
  }

  lemma HexIsHex(s: bytes, at: nat)
    ensures FourHex(s, at) <==> HexDigitsAt(s, at)
  {}

  /** Two escapes, the first of a high surrogate, that make up no character. */
  predicate PairTooLarge(s: bytes, at: nat) {
    && BackslashU(s, at) && FourHex(s, at + 2) && BackslashU(s, at + 6) && FourHex(s, at + 8)
    && var n1, n2 := HexAt(s, at + 2).Value(), HexAt(s, at + 8).Value();
       0xd800 <= n1 < 0xdc00 && (n1 - 0xd800) * 0x400 + n2 - 0xdc00 + 0x10000 > 0x10ffff
  }

  /** A backslash and a `u`. */
  predicate BackslashU(s: bytes, at: nat) { IsOneOf(s, at, "\\") && IsOneOf(s, at + 1, "u") }

  /** `word` stands at `at` up to the next delimiter or the end. */
  predicate Word(s: bytes, at: nat, word: bytes) {
    && At(s, at, word) && NextIsDelimiter(s, at + |word|)
    && forall k :: 0 <= k < |word| ==> !OneOf(word[k], " \t\n\r]},")
  }

  predicate NextIsDelimiter(s: bytes, at: nat) { at < |s| ==> OneOf(s[at], " \t\n\r]},") }

  /** What is wrong at the index an error names; two kinds name the index after it. */
  ghost predicate Blames(s: bytes, kind: ErrorKind, at: nat) {
    match kind
    case ControlCharacter => at < |s| && s[at] < 32
    case InvalidEscape => IsOneOf(s, at, "\\") && NoneOf(s, at + 1, "\\/\"'bfnrtu")
    case ConcatenateNil => IsOneOf(s, at, "\\") && IsOneOf(s, at + 1, "'")
    case InvalidUnicodeEscape => BackslashU(s, at) && !FourHex(s, at + 2)
    case InvalidCodepoint => PairTooLarge(s, at)
    case ExpectedClosingQuote => IsOneOf(s, at, "\"'")
    case InvalidNumber =>
      IsOneOf(s, at, "-0123456789") && exists word :: Word(s, at, word) && ToNumber(word).None?
    case InvalidLiteral =>
      IsOneOf(s, at, "tfn") && exists word :: Word(s, at, word) && word != TRUE && word != FALSE && word != NULL
    case ExpectedArrayNext => 0 < at && NoneOf(s, at - 1, " \t\n\r,]")
    case ExpectedObjectNext => 0 < at && NoneOf(s, at - 1, " \t\n\r,}")
    case ExpectedKey => NoneOf(s, at, " \t\n\r}\"'")
    case ExpectedColon => NoneOf(s, at, " \t\n\r:")
    case UnexpectedCharacter => NoneOf(s, at, "\"'-0123456789tfn[{")
    case TrailingGarbage => at < |s| && NoneOf(s, at, " \t\n\r")
  }

  lemma EscapeBlames(s: bytes, j: nat)
    requires 0 < j <= |s| && s[j - 1] == BACKSLASH && Escape(s, j).Err?
    ensures Blames(s, Escape(s, j).kind, Escape(s, j).at)
  {
    hide PairTooLarge, FourHex, PairAt, HexDigitsAt, Hex.Value, Combine;
    HexIsHex(s, j + 1);
    if j < |s| && s[j] == LOWER_U && PairAt(s, j + 1) { PairBlames(s, j); }
  }

  lemma PairBlames(s: bytes, j: nat)
    requires 0 < j < |s| && s[j - 1] == BACKSLASH && s[j] == LOWER_U && PairAt(s, j + 1)
    requires CodepointToUtf8(Combine(HexAt(s, j + 1).Value(), HexAt(s, j + 7).Value())).None?
    ensures PairTooLarge(s, j - 1)
  {
    hide Hex.Value;
    HexIsHex(s, j + 1);
    HexIsHex(s, j + 7);
  }

  lemma QuoteBlames(s: bytes, open: nat)
    requires open < |s| && (s[open] == QUOTE || s[open] == APOSTROPHE)
    ensures Blames(s, ExpectedClosingQuote, open)
  {}

  lemma ControlBlames(s: bytes, j: nat)
    requires j < |s| && s[j] < 32
    ensures Blames(s, ControlCharacter, j)
  {}

  lemma {:induction false} StringBlames(s: bytes, j: nat, quote: byte, open: nat)
    requires open < j <= |s| && s[open] == quote && (quote == QUOTE || quote == APOSTROPHE)
    requires StringRest(s, j, quote, open).Err?
    ensures var r := StringRest(s, j, quote, open); Blames(s, r.kind, r.at)
    decreases |s| - j
  {
    hide Blames, Escape;
    if j == |s| {
      QuoteBlames(s, open);
    } else if s[j] < 32 {
      ControlBlames(s, j);
    } else if s[j] == BACKSLASH {
      if Escape(s, j + 1).Err? { EscapeBlames(s, j + 1); } else { StringBlames(s, Escape(s, j + 1).next, quote, open); }
    } else if s[j] != quote {
      StringBlames(s, j + 1, quote, open);
    }
  }

  // ---------------------------------------------------------------- runs of characters

  lemma {:induction false} SkipsSpaces(s: bytes, i: nat)
    requires i <= |s|
    ensures NoneOf(s, NextChar(s, i, SPACES, true), " \t\n\r")
    decreases |s| - i
  {
    if i < |s| && s[i] in SPACES { SkipsSpaces(s, i + 1); }
  }

  lemma {:induction false} WordAt(s: bytes, i: nat)
    requires i <= |s|
    ensures var x := NextChar(s, i, DELIMITERS, false); Word(s, i, s[i..x])
    decreases |s| - i
  {
    if i < |s| && s[i] !in DELIMITERS {
      WordAt(s, i + 1);
      var x := NextChar(s, i + 1, DELIMITERS, false);
      assert s[i..x] == [s[i]] + s[i + 1..x];
    }
  }

  lemma NumberBlames(s: bytes, i: nat)
    requires i < |s| && StartsNumber(s[i]) && ParseNumber(s, i).Err?
    ensures Blames(s, ParseNumber(s, i).kind, ParseNumber(s, i).at)
  {
    hide Word, ToNumber;
    WordAt(s, i);
  }

  lemma LiteralBlames(s: bytes, i: nat)
    requires i < |s| && StartsLiteral(s[i]) && ParseLiteral(s, i).Err?
    ensures Blames(s, ParseLiteral(s, i).kind, ParseLiteral(s, i).at)
  {
    hide Word;
    WordAt(s, i);
  }

  // ---------------------------------------------------------------- values

  lemma {:induction false} ParseBlames(s: bytes, i: nat)
    requires i <= |s| && Parse(s, i).Err?
    ensures Blames(s, Parse(s, i).kind, Parse(s, i).at)
    decreases |s| - i, 0
  {
    hide StringRest, ParseNumber, ParseLiteral, ParseArray, ParseObject;
    if i < |s| {
      if s[i] == QUOTE || s[i] == APOSTROPHE {
        StringBlames(s, i + 1, s[i], i);
      } else if StartsNumber(s[i]) {
        NumberBlames(s, i);
      } else if StartsLiteral(s[i]) {
        LiteralBlames(s, i);
      } else if s[i] == LBRACKET {
        ArrayBlames(s, i + 1, 1, map[]);
      } else if s[i] == LBRACE {
        ObjectBlames(s, i + 1, map[]);
      }
    }
  }

  lemma {:induction false} ArrayBlames(s: bytes, i: nat, n: nat, res: map<Key, Value>)
    requires i <= |s| && ParseArray(s, i, n, res).Err?
    ensures var r := ParseArray(s, i, n, res); Blames(s, r.kind, r.at)
    decreases |s| - i, 1
  {
    hide Parse, Put;
    var j := NextChar(s, i, SPACES, true);
    if Parse(s, j).Err? {
      ParseBlames(s, j);
    } else {
      var x, k := Parse(s, j).value, Parse(s, j).next;
      var m := NextChar(s, k, SPACES, true);
      SkipsSpaces(s, k);
      if m < |s| && s[m] == COMMA { ArrayBlames(s, m + 1, n + 1, Put(res, KNum(n as real), x)); }
    }
  }

  lemma {:induction false} MemberBlames(s: bytes, j: nat)
    requires j <= |s| && ParseMember(s, j).Err? && NoneOf(s, j, " \t\n\r}")
    ensures Blames(s, ParseMember(s, j).kind, ParseMember(s, j).at)
    decreases |s| - j, 1
  {
    hide Parse;
    if j < |s| && (s[j] == QUOTE || s[j] == APOSTROPHE) {
      var key := StringRest(s, j + 1, s[j], j);
      if key.Err? {
        StringBlames(s, j + 1, s[j], j);
      } else {
        var c := NextChar(s, key.next, SPACES, true);
        SkipsSpaces(s, key.next);
        if c < |s| && s[c] == COLON { ParseBlames(s, NextChar(s, c + 1, SPACES, true)); }
      }
    }
  }

  lemma {:induction false} ObjectBlames(s: bytes, i: nat, res: map<Key, Value>)
    requires i <= |s| && ParseObject(s, i, res).Err?
    ensures var r := ParseObject(s, i, res); Blames(s, r.kind, r.at)
    decreases |s| - i, 2
  {
    hide ParseMember, Put;
    var j := NextChar(s, i, SPACES, true);
    SkipsSpaces(s, i);
    var p := ParseMember(s, j);
    if p.Err? {
      MemberBlames(s, j);
    } else {
      var m := NextChar(s, p.next, SPACES, true);
      SkipsSpaces(s, p.next);
      if m < |s| && s[m] == COMMA { ObjectBlames(s, m + 1, Put(res, KStr(p.value.0), p.value.1)); }
    }
  }

  /** Every error of json.decode names an index at which something of its kind is wrong. */
  lemma ErrorsExplained(s: bytes)
    requires Decode(s).Err?
    ensures Blames(s, Decode(s).kind, Decode(s).at)
  {
    hide Parse;
    var i := NextChar(s, 0, SPACES, true);
    if Parse(s, i).Err? {
      ParseBlames(s, i);
    } else {
      SkipsSpaces(s, Parse(s, i).next);
    }
  }
}
