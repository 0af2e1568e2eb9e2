/** What the decoder makes of single characters, in terms of the characters themselves. */
module JsonCharacters {
  import opened Options
  import opened Bytes
  import opened LuaValue
  import opened Numerals
  import opened NumberLaws
  import opened JsonLexis
  import opened JsonSpec
  import opened JsonGrammar
  import opened JsonComplete

  /** The bytes of a text of characters below 256. */
  function Ascii(text: string): (s: bytes)
    ensures |s| == |text| && forall k :: 0 <= k < |text| ==> s[k] == text[k] as int % 256
  {
    seq(|text|, k requires 0 <= k < |text| => text[k] as int % 256)
  }

  // ---------------------------------------------------------------- digits, blanks, delimiters

  lemma DigitValues(v: nat)
    requires v < 16
    ensures var lower, upper := "0123456789abcdef"[v] as int, "0123456789ABCDEF"[v] as int;
            IsHex(lower) && HexDigit(lower) == v && IsHex(upper) && HexDigit(upper) == v
  {}

  lemma HexExact(b: byte)
    ensures IsHex(b) <==> b as char in "0123456789abcdefABCDEF"
  {}

  lemma DigitExact(b: byte)
    ensures IsDigit(b) <==> b as char in "0123456789"
  {}

  lemma BlankExact(b: byte)
    ensures Blank([b]) <==> b as char in " \t\n\r"
  {
    assert [b][0] == b;
  }

  lemma DelimiterExact(b: byte)
    ensures IsToken([b]) <==> b as char !in " \t\n\r]},"
  {
    assert [b][0] == b;
  }

  // ---------------------------------------------------------------- values

  /** A text that is exactly one tree. */
  lemma DecodeTree(x: Syntax, s: bytes)
    requires Valid(x) && Text(x) == s
    ensures Decode(s) == Ok(Denote(x), |s|)
  {
    hide Text, Valid, Denote, Decode;
    DecodeComplete([], x, []);
    assert [] + (s + []) == s;
  }

  lemma Words()
    ensures Decode(Ascii("true")) == Ok(Bool(true), 4)
    ensures Decode(Ascii("false")) == Ok(Bool(false), 5)
    ensures Decode(Ascii("null")) == Ok(Nil, 4)
  {
    hide Decode;
    DecodeTree(SBool(true), Ascii("true"));
    DecodeTree(SBool(false), Ascii("false"));
    DecodeTree(SNull, Ascii("null"));
  }

  /** A numeral on its own is the number `tonumber` reads. */
  lemma Numbers(t: bytes)
    requires t != [] && (t[0] as char == '-' || t[0] as char in "0123456789") && IsToken(t) && ToNumber(t).Some?
    ensures Decode(t) == Ok(Num(ToNumber(t).value), |t|)
  {
    hide Decode, ToNumber;
    DecodeTree(SNumber(t), t);
  }

  lemma Fraction()
    ensures Decode(Ascii("1.5")) == Ok(Num(1.5), 3)
  {
    hide Decode, ToNumber;
    var one, five: byte := 49, 53;
    OneDigit(1);
    MoreDigits([one], 5);
    PointAtEnd([one, five]);
    assert [one] + [five] == [one, five] && [one] + [five] + [DOT] + [] == [one, five] + [DOT];
    MovePoint([one], five, []);
    assert [one] + [DOT] + ([five] + []) == Ascii("1.5");
    Numbers(Ascii("1.5"));
  }

  lemma Scientific()
    ensures Decode(Ascii("-25e-2")) == Ok(Num(-0.25), 6)
  {
    hide Decode, ToNumber;
    var two, five, e: byte := 50, 53, 101;
    OneDigit(2);
    MoreDigits([two], 5);
    assert [two] + [five] == [two, five];
    MinusNegates([two, five]);
    var m: bytes := [MINUS] + [two, five];
    assert Mantissa(m);
    OneDigit(0);
    OneDigit(1);
    ExponentZero(m, e, [MINUS]);
    ExponentStep(m, e, [MINUS], [48], e, [MINUS], [49]);
    ExponentStep(m, e, [MINUS], [49], e, [MINUS], [two]);
    assert m + [e] + [MINUS] + [two] == Ascii("-25e-2");
    Numbers(Ascii("-25e-2"));
  }

  /** What may follow a backslash, and what it then stands for. */
  function Meaning(c: char): Option<char> {
    match c
    case '"' => Some('"')
    case '\\' => Some('\\')
    case '/' => Some('/')
    case 'b' => Some(8 as char)
    case 'f' => Some(12 as char)
    case 'n' => Some('\n')
    case 'r' => Some('\r')
    case 't' => Some('\t')
    case _ => None
  }

  lemma MeaningIs(c: char)
    ensures Meaning(c).Some? ==> c as int < 128
    ensures c as int < 128 ==>
              Meaning(c) == if Unescape(c as int).Some? then Some(Unescape(c as int).value as char) else None
  {}

  /** A string of one character. */
  lemma OneItem(q: byte, it: Item)
    requires IsQuote(q) && it.Valid(q)
    ensures Decode([q] + it.Text() + [q]) == Ok(Str(it.Bytes(q)), |it.Text()| + 2)
  {
    hide Decode, Item.Text, Item.Valid, Item.Bytes;
    var items := Char(it, Done);
    assert ItemsText(items) == it.Text() && ItemsBytes(items, q) == it.Bytes(q) && ValidItems(items, q) by {
      assert it.Text() + [] == it.Text() && it.Bytes(q) + [] == it.Bytes(q);
    }
    assert [q] + it.Text() + [q] == [q] + (it.Text() + [q]);
    DecodeTree(SString(q, items), [q] + it.Text() + [q]);
  }

  /** A byte stands for itself in a string unless it is a control character, the quote or a backslash. */
  lemma Characters(b: byte)
    ensures b >= 32 && b != '"' as int && b != '\\' as int ==> Decode([34, b, 34]) == Ok(Str([b]), 3)
    ensures b < 32 ==> Decode([34, b, 34]) == Err(ControlCharacter, 1)
  {
    if b >= 32 && b != QUOTE && b != BACKSLASH {
      hide Decode;
      assert [QUOTE] + Raw(b).Text() + [QUOTE] == [34, b, 34];
      OneItem(QUOTE, Raw(b));
    } else if b < 32 {
      var s := [34, b, 34];
      assert NextChar(s, 0, SPACES, true) == 0;
      assert StringRest(s, 1, 34, 0) == Err(ControlCharacter, 1);
    }
  }

  lemma Escapes(c: char)
    requires Meaning(c).Some?
    ensures Decode(Ascii(['"', '\\', c, '"'])) == Ok(Str([Meaning(c).value as int]), 4)
  {
    hide Decode, Meaning, Unescape;
    MeaningIs(c);
    assert [QUOTE] + Short(c as int).Text() + [QUOTE] == Ascii(['"', '\\', c, '"']);
    OneItem(QUOTE, Short(c as int));
  }

  /** Either quote delimits a string, and the other one may stand in it. */
  lemma Quotes()
    ensures Decode(Ascii("\"'\"")) == Ok(Str(Ascii("'")), 3)
    ensures Decode(Ascii("'\"'")) == Ok(Str(Ascii("\"")), 3)
  {
    hide Decode;
    assert [QUOTE] + Raw(39).Text() + [QUOTE] == Ascii("\"'\"");
    assert [APOSTROPHE] + Raw(34).Text() + [APOSTROPHE] == Ascii("'\"'");
    OneItem(QUOTE, Raw(39));
    OneItem(APOSTROPHE, Raw(34));
    assert Ascii("'") == [39] && Ascii("\"") == [34];
  }

  // ---------------------------------------------------------------- arrays and objects

  lemma Brackets(x: Syntax, y: Syntax)
    requires Valid(x) && Valid(y)
    ensures Decode(Ascii("[]")) == Ok(Table(map[]), 2)
    ensures var s := Ascii("[") + Text(x) + Ascii(",") + Text(y) + Ascii("]");
            Decode(s) == Ok(Table(Put(Put(map[], KNum(1.0), Denote(x)), KNum(2.0), Denote(y))), |s|)
  {
    hide Decode, Put, Text, Valid, Denote, Ascii;
    NoElements();
    TwoElements(x, y);
    BracketTexts(Text(x), Text(y));
    var s := Ascii("[") + Text(x) + Ascii(",") + Text(y) + Ascii("]");
    DecodeTree(SArray(More([], x, [], Last([], y, []))), s);
  }

  lemma BracketTexts(x: bytes, y: bytes)
    ensures [LBRACKET] + (x + ([COMMA] + (y + [RBRACKET]))) == Ascii("[") + x + Ascii(",") + y + Ascii("]")
  {
    assert Ascii("[") == [LBRACKET] && Ascii(",") == [COMMA] && Ascii("]") == [RBRACKET];
  }

  lemma NoElements()
    ensures Decode(Ascii("[]")) == Ok(Table(map[]), 2)
  {
    hide Decode, Valid, Text, Denote;
    ArrayIs(End([]));
    EndIs(1, map[]);
    assert [LBRACKET] + [RBRACKET] == Ascii("[]");
    DecodeTree(SArray(End([])), Ascii("[]"));
  }

  lemma TwoElements(x: Syntax, y: Syntax)
    requires Valid(x) && Valid(y)
    ensures var z := SArray(More([], x, [], Last([], y, [])));
            && Valid(z) && Denote(z) == Table(Put(Put(map[], KNum(1.0), Denote(x)), KNum(2.0), Denote(y)))
            && Text(z) == [LBRACKET] + (Text(x) + ([COMMA] + (Text(y) + [RBRACKET])))
  {
    hide Valid, Text, Denote, ValidElements, ElementsText, DenoteElements, Put;
    var last := Last([], y, []);
    LastIs(y, 2, Put(map[], KNum(1.0), Denote(x)));
    MoreIs(x, last, 1, map[]);
    ArrayIs(More([], x, [], last));
  }

  lemma ArrayIs(a: Elements)
    ensures Valid(SArray(a)) <==> ValidElements(a)
    ensures Text(SArray(a)) == [LBRACKET] + ElementsText(a)
    ensures ValidElements(a) ==> Denote(SArray(a)) == Table(DenoteElements(a, 1, map[]))
  {
    hide ValidElements, ElementsText, DenoteElements;
  }

  lemma EndIs(n: nat, t: map<Key, Value>)
    ensures ValidElements(End([])) && ElementsText(End([])) == [RBRACKET] && DenoteElements(End([]), n, t) == t
  {}

  lemma LastIs(v: Syntax, n: nat, t: map<Key, Value>)
    requires Valid(v)
    ensures var a := Last([], v, []);
            && ValidElements(a) && ElementsText(a) == Text(v) + [RBRACKET]
            && DenoteElements(a, n, t) == Put(t, KNum(n as real), Denote(v))
  {
    hide Valid, Text, Denote;
  }

  lemma MoreIs(v: Syntax, rest: Elements, n: nat, t: map<Key, Value>)
    requires Valid(v) && ValidElements(rest)
    ensures var a := More([], v, [], rest);
            && ValidElements(a) && ElementsText(a) == Text(v) + ([COMMA] + ElementsText(rest))
            && DenoteElements(a, n, t) == DenoteElements(rest, n + 1, Put(t, KNum(n as real), Denote(v)))
  {
    hide Valid, Text, Denote;
  }

  lemma Braces(x: Syntax, y: Syntax)
    requires Valid(x) && Valid(y)
    ensures Decode(Ascii("{}")) == Ok(Table(map[]), 2)
    ensures var s := Ascii("{\"a\":") + Text(x) + Ascii(",'b':") + Text(y) + Ascii("}");
            Decode(s) == Ok(Table(Put(Put(map[], KStr(Ascii("a")), Denote(x)), KStr(Ascii("b")), Denote(y))), |s|)
  {
    hide Decode, Put, Text, Valid, Denote, Ascii;
    NoMembers();
    var a, b := Letter(QUOTE, 97, x), Letter(APOSTROPHE, 98, y);
    assert Ascii("a") == [97] && Ascii("b") == [98];
    LetterIs(QUOTE, 97, x, map[]);
    LetterIs(APOSTROPHE, 98, y, DenoteMember(a, map[]));
    TwoMembers(a, b);
    TwoTexts(Text(x), Text(y));
    DecodeTree(SObject(MoreM(a, LastM(b))), Ascii("{\"a\":") + Text(x) + Ascii(",'b':") + Text(y) + Ascii("}"));
  }

  lemma TwoTexts(x: bytes, y: bytes)
    ensures [LBRACE]
            + (([QUOTE, 97, QUOTE, COLON] + x) + ([COMMA] + (([APOSTROPHE, 98, APOSTROPHE, COLON] + y) + [RBRACE])))
         == Ascii("{\"a\":") + x + Ascii(",'b':") + y + Ascii("}")
  {
    assert Ascii("{\"a\":") == [LBRACE] + [QUOTE, 97, QUOTE, COLON] && Ascii("}") == [RBRACE];
    assert Ascii(",'b':") == [COMMA] + [APOSTROPHE, 98, APOSTROPHE, COLON];
  }

  lemma NoMembers()
    ensures Decode(Ascii("{}")) == Ok(Table(map[]), 2)
  {
    hide Decode, Valid, Text, Denote;
    ObjectIs(EndM([]));
    EndMIs(map[]);
    assert [LBRACE] + [RBRACE] == Ascii("{}");
    DecodeTree(SObject(EndM([])), Ascii("{}"));
  }

  lemma TwoMembers(a: Member, b: Member)
    requires ValidMember(a) && ValidMember(b) && a.w == a.w' == b.w == b.w' == []
    ensures var x := SObject(MoreM(a, LastM(b)));
            && Valid(x) && Denote(x) == Table(DenoteMember(b, DenoteMember(a, map[])))
            && Text(x) == [LBRACE] + (MemberText(a) + ([COMMA] + (MemberText(b) + [RBRACE])))
  {
    hide Valid, Text, Denote, ValidMember, MemberText, DenoteMember, ValidMembers, MembersText, DenoteMembers;
    LastMIs(b, DenoteMember(a, map[]));
    MoreMIs(a, LastM(b), map[]);
    ObjectIs(MoreM(a, LastM(b)));
  }

  function Letter(q: byte, c: byte, v: Syntax): Member { Member([], q, Char(Raw(c), Done), [], [], v, []) }

  lemma LetterIs(q: byte, c: byte, v: Syntax, t: map<Key, Value>)
    requires IsQuote(q) && c >= 97 && Valid(v)
    ensures var m := Letter(q, c, v);
            && ValidMember(m) && MemberText(m) == [q, c, q, COLON] + Text(v)
            && DenoteMember(m, t) == Put(t, KStr([c]), Denote(v))
  {
    hide Valid, Text, Denote, Put;
    var key := Char(Raw(c), Done);
    RawKey(q, c);
    hide ItemsText, ValidItems, ItemsBytes;
    assert [q] + ([c] + [q]) + ([] + ([COLON] + ([] + Text(v)))) == [q, c, q, COLON] + Text(v);
  }

  lemma RawKey(q: byte, c: byte)
    requires IsQuote(q) && c >= 97
    ensures var key := Char(Raw(c), Done); ItemsText(key) == [c] && ValidItems(key, q) && ItemsBytes(key, q) == [c]
  {
    var it := Raw(c);
    assert it.Valid(q) && it.Text() + [] == [c] && it.Bytes(q) + [] == [c];
    assert ItemsText(Done) == [] && ItemsBytes(Done, q) == [];
  }

  lemma ObjectIs(o: Members)
    ensures Valid(SObject(o)) <==> ValidMembers(o)
    ensures Text(SObject(o)) == [LBRACE] + MembersText(o)
    ensures ValidMembers(o) ==> Denote(SObject(o)) == Table(DenoteMembers(o, map[]))
  {
    hide ValidMembers, MembersText, DenoteMembers;
  }

  lemma EndMIs(t: map<Key, Value>)
    ensures ValidMembers(EndM([])) && MembersText(EndM([])) == [RBRACE] && DenoteMembers(EndM([]), t) == t
  {}

  lemma LastMIs(m: Member, t: map<Key, Value>)
    requires ValidMember(m) && m.w == m.w' == []
    ensures var o := LastM(m);
            && ValidMembers(o) && MembersText(o) == MemberText(m) + [RBRACE]
            && DenoteMembers(o, t) == DenoteMember(m, t)
  {
    hide MemberText, DenoteMember, ValidMember;
  }

  lemma MoreMIs(m: Member, rest: Members, t: map<Key, Value>)
    requires ValidMember(m) && ValidMembers(rest) && m.w == m.w' == []
    ensures var o := MoreM(m, rest);
            && ValidMembers(o) && MembersText(o) == MemberText(m) + ([COMMA] + MembersText(rest))
            && DenoteMembers(o, t) == DenoteMembers(rest, DenoteMember(m, t))
  {
    hide MemberText, DenoteMember, ValidMember;
  }
}
