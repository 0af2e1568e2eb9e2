/** Every syntax tree, printed anywhere in a text, is parsed to the value it denotes. */
module JsonComplete {
  import opened Bytes
  import opened LuaValue
  import opened Numerals
  import opened JsonLexis
  import opened JsonSpec
  import opened JsonGrammar

  // ---------------------------------------------------------------- layout of concatenations

  lemma AtFour(s: bytes, i: nat, a: bytes, b: bytes, c: bytes, d: bytes)
    requires At(s, i, a + (b + (c + d)))
    ensures At(s, i, a) && At(s, i + |a|, b) && At(s, i + |a| + |b|, c) && At(s, i + |a| + |b| + |c|, d)
    ensures |a + (b + (c + d))| == |a| + |b| + |c| + |d|
  {
    AtSplit(s, i, a, b + (c + d));
    AtSplit(s, i + |a|, b, c + d);
    AtSplit(s, i + |a| + |b|, c, d);
  }

  /** A run of bytes that are in `chars` exactly when `negate` is scanned to its end. */
  lemma {:induction false} NextCharAt(s: bytes, i: nat, k: nat, chars: set<byte>, negate: bool)
    requires i <= k <= |s|
    requires forall j {:trigger s[j]} :: i <= j < k ==> (s[j] in chars) == negate
    requires k == |s| || (s[k] in chars) != negate
    ensures NextChar(s, i, chars, negate) == k
    decreases k - i
  {
    if i < k { NextCharAt(s, i + 1, k, chars, negate); }
  }

  lemma SkipBlank(s: bytes, i: nat, w: bytes)
    requires At(s, i, w) && Blank(w)
    requires i + |w| == |s| || s[i + |w|] !in SPACES
    ensures NextChar(s, i, SPACES, true) == i + |w|
  {
    NextCharAt(s, i, i + |w|, SPACES, true);
  }

  /** The token that starts at `i` ends at `k`: at the end of the text or before a delimiter. */
  predicate EndsToken(s: bytes, k: nat) { k >= |s| || s[k] in DELIMITERS }

  lemma TokenAt(s: bytes, i: nat, t: bytes)
    requires At(s, i, t) && IsToken(t) && EndsToken(s, i + |t|)
    ensures NextChar(s, i, DELIMITERS, false) == i + |t| && s[i..i + |t|] == t
  {
    NextCharAt(s, i, i + |t|, DELIMITERS, false);
  }

  /** Only numbers and literals run up to a delimiter. */
  predicate NeedsDelimiter(x: Syntax) { x.SNull? || x.SBool? || x.SNumber? }

  // ---------------------------------------------------------------- strings

  /** One escape is decoded, provided a lone high surrogate is not followed by another `\u`. */
  lemma EscapeItem(s: bytes, i: nat, it: Item, quote: byte)
    requires it.Valid(quote) && !it.Raw? && At(s, i, it.Text())
    requires it.Uni? && it.h.IsHigh() ==> !(i + 7 < |s| && s[i + 6] == BACKSLASH && s[i + 7] == LOWER_U)
    ensures s[i] == BACKSLASH && Escape(s, i + 1) == Ok(it.Bytes(quote), i + |it.Text()|)
  {
    match it
    case Short(c) =>
    case Uni(h) =>
      assert HexAt(s, i + 2) == h;
    case Pair(hi, lo) =>
      assert HexAt(s, i + 2) == hi && HexAt(s, i + 8) == lo;
  }

  lemma ItemStart(it: Item, quote: byte)
    requires it.Valid(quote)
    ensures |it.Text()| > 0
    ensures it.Raw? ==> it.Text()[0] == it.b
    ensures !it.Raw? ==> |it.Text()| > 1 && it.Text()[0] == BACKSLASH && (it.Text()[1] == LOWER_U <==> it.IsUnicode())
  {}

  lemma AtRegroup(s: bytes, i: nat, a: bytes, b: bytes, c: bytes)
    requires At(s, i, (a + b) + c)
    ensures At(s, i, a) && At(s, i + |a|, b + c)
  {
    assert (a + b) + c == a + (b + c);
    AtSplit(s, i, a, b + c);
  }

  /** The text of `items` followed by `tail` starts with `\u` only if `items` does. */
  lemma NotUnicode(s: bytes, k: nat, items: Items, quote: byte, tail: bytes)
    requires At(s, k, ItemsText(items) + tail)
    requires items.Char? ==> items.first.Valid(quote) && !items.first.IsUnicode()
    requires tail != [] && (tail[0] == BACKSLASH ==> |tail| > 1 && tail[1] != LOWER_U)
    ensures !(k + 1 < |s| && s[k] == BACKSLASH && s[k + 1] == LOWER_U)
  {
    match items
    case Done =>
      assert ItemsText(items) + tail == tail;
    case Char(it, rest) =>
      AtRegroup(s, k, it.Text(), ItemsText(rest), tail);
      ItemStart(it, quote);
  }

  lemma AtByte(s: bytes, i: nat, b: byte, rest: bytes)
    requires At(s, i, [b] + rest)
    ensures i < |s| && s[i] == b && At(s, i + 1, rest)
  {
    AtSplit(s, i, [b], rest);
  }

  lemma RawItem(s: bytes, i: nat, it: Item, quote: byte)
    requires it.Valid(quote) && it.Raw? && At(s, i, it.Text())
    ensures i < |s| && s[i] == it.b && s[i] >= 32 && s[i] != BACKSLASH && s[i] != quote
    ensures it.Bytes(quote) == [s[i]] && |it.Text()| == 1
  {}

  lemma {:induction false} CompleteString(s: bytes, i: nat, items: Items, quote: byte, open: nat)
    requires IsQuote(quote) && ValidItems(items, quote)
    requires At(s, i, ItemsText(items) + [quote])
    ensures StringRest(s, i, quote, open) == Ok(ItemsBytes(items, quote), i + |ItemsText(items)| + 1)
    decreases items
  {
    hide At, Escape, Item.Text, Item.Bytes, Item.Valid, Hex.IsHigh;
    match items
    case Done =>
      assert ItemsText(items) + [quote] == [quote] + [];
      AtByte(s, i, quote, []);
    case Char(it, rest) =>
      AtRegroup(s, i, it.Text(), ItemsText(rest), [quote]);
      CompleteString(s, i + |it.Text()|, rest, quote, open);
      if it.Raw? {
        RawItem(s, i, it, quote);
      } else {
        if it.Uni? && it.h.IsHigh() { UniLength(it); NotUnicode(s, i + 6, rest, quote, [quote]); }
        EscapeItem(s, i, it, quote);
      }
  }

  lemma UniLength(it: Item)
    requires it.Uni?
    ensures |it.Text()| == 6
  {}

  lemma CompleteStringText(s: bytes, i: nat, quote: byte, items: Items)
    requires IsQuote(quote) && ValidItems(items, quote) && At(s, i, StringText(quote, items))
    ensures s[i] == quote
    ensures StringRest(s, i + 1, quote, i) == Ok(ItemsBytes(items, quote), i + |StringText(quote, items)|)
  {
    AtSplit(s, i, [quote], ItemsText(items) + [quote]);
    CompleteString(s, i + 1, items, quote, i);
  }

  // ---------------------------------------------------------------- values

  /** A value starts with a byte that is neither blank nor a closing bracket. */
  lemma TextStart(x: Syntax)
    requires Valid(x)
    ensures Text(x) != [] && Text(x)[0] !in SPACES && Text(x)[0] != RBRACKET && Text(x)[0] != RBRACE
  {}

  lemma CompleteNumber(s: bytes, i: nat, t: bytes)
    requires Valid(SNumber(t)) && At(s, i, t) && EndsToken(s, i + |t|)
    ensures Parse(s, i) == Ok(Num(ToNumber(t).value), i + |t|)
  {
    hide ToNumber;
    TokenAt(s, i, t);
    assert s[i] == t[0];
  }

  lemma CompleteWord(s: bytes, i: nat, w: bytes)
    requires w == TRUE || w == FALSE || w == NULL
    requires At(s, i, w) && EndsToken(s, i + |w|)
    ensures Parse(s, i) == Ok(if w == TRUE then Bool(true) else if w == FALSE then Bool(false) else Nil, i + |w|)
  {
    TokenAt(s, i, w);
    assert s[i] == w[0];
  }

  /** How parse dispatches on the first byte of a string, an array or an object. */
  lemma ParseDispatch(s: bytes, i: nat)
    requires i < |s|
    ensures IsQuote(s[i]) ==> Parse(s, i) == StringRest(s, i + 1, s[i], i).Map(b => Str(b))
    ensures s[i] == LBRACKET ==> Parse(s, i) == ParseArray(s, i + 1, 1, map[]).Map(t => Table(t))
    ensures s[i] == LBRACE ==> Parse(s, i) == ParseObject(s, i + 1, map[]).Map(t => Table(t))
  {
    hide StringRest, ParseArray, ParseObject, ParseNumber, ParseLiteral;
  }

  lemma CompleteStringValue(s: bytes, i: nat, q: byte, items: Items)
    requires Valid(SString(q, items)) && At(s, i, StringText(q, items))
    ensures Parse(s, i) == Ok(Denote(SString(q, items)), i + |Text(SString(q, items))|)
  {
    hide At, Parse, StringRest, ValidItems, StringText;
    AtBound(s, i, StringText(q, items));
    CompleteStringText(s, i, q, items);
    ParseDispatch(s, i);
  }

  lemma {:induction false} CompleteValue(s: bytes, i: nat, x: Syntax)
    requires Valid(x) && At(s, i, Text(x))
    requires NeedsDelimiter(x) ==> EndsToken(s, i + |Text(x)|)
    ensures Parse(s, i) == Ok(Denote(x), i + |Text(x)|)
    decreases x
  {
    hide At, Parse, ParseArray, ParseObject, ElementsText, MembersText, StringText, EndsToken, ToNumber, IsToken,
         ValidItems, ValidElements, ValidMembers, DenoteElements, DenoteMembers;
    match x
    case SNull => CompleteWord(s, i, NULL);
    case SBool(b) => CompleteWord(s, i, if b then TRUE else FALSE);
    case SNumber(t) => CompleteNumber(s, i, t);
    case SString(q, items) => CompleteStringValue(s, i, q, items);
    case SArray(a) =>
      AtByte(s, i, LBRACKET, ElementsText(a));
      CompleteElements(s, i + 1, a, 1, map[]);
      ParseDispatch(s, i);
    case SObject(o) =>
      AtByte(s, i, LBRACE, MembersText(o));
      CompleteMembers(s, i + 1, o, map[]);
      ParseDispatch(s, i);
  }

  /** A value between blanks, before a comma or a closing bracket. */
  lemma CompleteElement(s: bytes, i: nat, w: bytes, v: Syntax, w': bytes, tail: bytes)
    requires Blank(w) && Valid(v) && Blank(w') && At(s, i, w + (Text(v) + (w' + tail)))
    requires tail != [] && (tail[0] == COMMA || tail[0] == RBRACKET || tail[0] == RBRACE)
    ensures var j := i + |w|; var k := j + |Text(v)|; var m := k + |w'|;
            && NextChar(s, i, SPACES, true) == j && s[j] != RBRACKET && s[j] != RBRACE
            && At(s, j, Text(v)) && EndsToken(s, k)
            && NextChar(s, k, SPACES, true) == m && m < |s| && s[m] == tail[0] && At(s, m, tail)
  {
    var j := i + |w|;
    var k := j + |Text(v)|;
    var m := k + |w'|;
    AtFour(s, i, w, Text(v), w', tail);
    TextStart(v);
    assert s[j] == Text(v)[0];
    SkipBlank(s, i, w);
    assert s[m] == tail[0];
    SkipBlank(s, k, w');
    if w' == [] { assert m == k; } else { assert s[k] == w'[0]; }
  }

  /** One turn of the loop of parse_array. */
  lemma ArrayTurn(s: bytes, i: nat, n: nat, t: map<Key, Value>, j: nat, x: Value, k: nat, m: nat)
    requires i <= |s| && NextChar(s, i, SPACES, true) == j && j < |s| && s[j] != RBRACKET
    requires Parse(s, j) == Ok(x, k) && NextChar(s, k, SPACES, true) == m && m < |s|
    ensures s[m] == RBRACKET ==> ParseArray(s, i, n, t) == Ok(Put(t, KNum(n as real), x), m + 1)
    ensures s[m] == COMMA ==> ParseArray(s, i, n, t) == ParseArray(s, m + 1, n + 1, Put(t, KNum(n as real), x))
  {
    hide Parse, NextChar;
  }

  lemma {:induction false} CompleteElements(s: bytes, i: nat, a: Elements, n: nat, t: map<Key, Value>)
    requires ValidElements(a) && At(s, i, ElementsText(a))
    ensures ParseArray(s, i, n, t) == Ok(DenoteElements(a, n, t), i + |ElementsText(a)|)
    decreases a
  {
    hide At, Text, Valid, Blank, Parse, ParseArray, NextChar, Denote, EndsToken, Put;
    match a
    case End(w) =>
      CompleteArrayEnd(s, i, w, n, t);
    case Last(w, v, w') =>
      CompleteElement(s, i, w, v, w', [RBRACKET]);
      CompleteValue(s, i + |w|, v);
      var m := i + |w| + |Text(v)| + |w'|;
      ArrayTurn(s, i, n, t, i + |w|, Denote(v), m - |w'|, m);
    case More(w, v, w', rest) =>
      CompleteElement(s, i, w, v, w', [COMMA] + ElementsText(rest));
      CompleteValue(s, i + |w|, v);
      var m := i + |w| + |Text(v)| + |w'|;
      AtByte(s, m, COMMA, ElementsText(rest));
      ArrayTurn(s, i, n, t, i + |w|, Denote(v), m - |w'|, m);
      CompleteElements(s, m + 1, rest, n + 1, Put(t, KNum(n as real), Denote(v)));
  }

  lemma CompleteArrayEnd(s: bytes, i: nat, w: bytes, n: nat, t: map<Key, Value>)
    requires Blank(w) && At(s, i, w + [RBRACKET])
    ensures ParseArray(s, i, n, t) == Ok(t, i + |w| + 1)
  {
    AtSplit(s, i, w, [RBRACKET]);
    SkipBlank(s, i, w);
  }

  /** A member: key, colon and value, from the key's quote on. */
  lemma CompleteMember(s: bytes, j: nat, m: Member)
    requires ValidMember(m) && At(s, j, MemberText(m)) && (NeedsDelimiter(m.v) ==> EndsToken(s, j + |MemberText(m)|))
    ensures ParseMember(s, j) == Ok((ItemsBytes(m.key, m.quote), Denote(m.v)), j + |MemberText(m)|)
    decreases m, 0
  {
    hide At, Text, Valid, Blank, Parse, NextChar, Denote, StringText, StringRest, ItemsBytes, ValidItems, EndsToken;
    var k := j + |StringText(m.quote, m.key)|;
    var tail := [COLON] + (m.w2 + Text(m.v));
    AtSplit(s, j, StringText(m.quote, m.key), m.w1 + tail);
    AtSplit(s, k, m.w1, tail);
    var c := k + |m.w1|;
    AtByte(s, c, COLON, m.w2 + Text(m.v));
    AtSplit(s, c + 1, m.w2, Text(m.v));
    CompleteStringText(s, j, m.quote, m.key);
    AtBound(s, j, MemberText(m));
    SkipTo(s, k, m.w1);
    SkipToText(s, c + 1, m.w2, m.v);
    CompleteValue(s, c + 1 + |m.w2|, m.v);
  }

  lemma AtBound(s: bytes, i: nat, t: bytes)
    requires At(s, i, t)
    ensures i + |t| <= |s|
  {}

  lemma SkipTo(s: bytes, i: nat, w: bytes)
    requires At(s, i, w) && Blank(w) && i + |w| < |s| && s[i + |w|] == COLON
    ensures NextChar(s, i, SPACES, true) == i + |w|
  {
    SkipBlank(s, i, w);
  }

  lemma SkipToText(s: bytes, i: nat, w: bytes, v: Syntax)
    requires At(s, i, w) && Blank(w) && Valid(v) && At(s, i + |w|, Text(v))
    ensures NextChar(s, i, SPACES, true) == i + |w|
  {
    TextStart(v);
    assert s[i + |w|] == Text(v)[0];
    SkipBlank(s, i, w);
  }

  /** One turn of the loop of parse_object. */
  lemma ObjectTurn(s: bytes, i: nat, t: map<Key, Value>, j: nat, key: bytes, x: Value, k: nat, m: nat)
    requires i <= |s| && NextChar(s, i, SPACES, true) == j && j < |s| && s[j] != RBRACE
    requires ParseMember(s, j) == Ok((key, x), k) && NextChar(s, k, SPACES, true) == m && m < |s|
    ensures s[m] == RBRACE ==> ParseObject(s, i, t) == Ok(Put(t, KStr(key), x), m + 1)
    ensures s[m] == COMMA ==> ParseObject(s, i, t) == ParseObject(s, m + 1, Put(t, KStr(key), x))
  {
    hide ParseMember, NextChar;
  }

  lemma CompleteObjectEnd(s: bytes, i: nat, w: bytes, t: map<Key, Value>)
    requires Blank(w) && At(s, i, w + [RBRACE])
    ensures ParseObject(s, i, t) == Ok(t, i + |w| + 1)
  {
    AtSplit(s, i, w, [RBRACE]);
    SkipBlank(s, i, w);
  }

  /** A member between blanks, before a comma or the closing brace. */
  lemma CompletePair(s: bytes, i: nat, m: Member, tail: bytes)
    requires ValidMember(m) && At(s, i, m.w + (MemberText(m) + (m.w' + tail)))
    requires tail != [] && (tail[0] == COMMA || tail[0] == RBRACE)
    ensures var j := i + |m.w|; var k := j + |MemberText(m)|; var e := k + |m.w'|;
            && NextChar(s, i, SPACES, true) == j && j < |s| && s[j] != RBRACE
            && At(s, j, MemberText(m)) && EndsToken(s, k)
            && NextChar(s, k, SPACES, true) == e && e < |s| && s[e] == tail[0] && At(s, e, tail)
  {
    hide Text, Valid, ItemsText, ValidItems;
    var j := i + |m.w|;
    var k := j + |MemberText(m)|;
    var e := k + |m.w'|;
    AtFour(s, i, m.w, MemberText(m), m.w', tail);
    assert MemberText(m)[0] == m.quote;
    assert s[j] == m.quote;
    SkipBlank(s, i, m.w);
    assert s[e] == tail[0];
    SkipBlank(s, k, m.w');
    if m.w' == [] { assert e == k; } else { assert s[k] == m.w'[0]; }
  }

  lemma {:induction false} CompleteMembers(s: bytes, i: nat, o: Members, t: map<Key, Value>)
    requires ValidMembers(o) && At(s, i, MembersText(o))
    ensures ParseObject(s, i, t) == Ok(DenoteMembers(o, t), i + |MembersText(o)|)
    decreases o
  {
    hide At, MemberText, ValidMember, Blank, ParseMember, ParseObject, NextChar, Denote, EndsToken, Put, ItemsBytes,
         ValidItems;
    match o
    case EndM(w) =>
      CompleteObjectEnd(s, i, w, t);
    case LastM(m) =>
      CompletePair(s, i, m, [RBRACE]);
      MemberTurn(s, i, m, t);
    case MoreM(m, rest) =>
      var e := i + |m.w| + |MemberText(m)| + |m.w'|;
      CompletePair(s, i, m, [COMMA] + MembersText(rest));
      AtByte(s, e, COMMA, MembersText(rest));
      MemberTurn(s, i, m, t);
      CompleteMembers(s, e + 1, rest, DenoteMember(m, t));
  }

  lemma MemberTurn(s: bytes, i: nat, m: Member, t: map<Key, Value>)
    requires ValidMember(m)
    requires var j := i + |m.w|; var k := j + |MemberText(m)|; var e := k + |m.w'|;
             && i <= |s| && NextChar(s, i, SPACES, true) == j && j < |s| && s[j] != RBRACE
             && At(s, j, MemberText(m)) && EndsToken(s, k) && k <= |s|
             && NextChar(s, k, SPACES, true) == e && e < |s|
    ensures var e := i + |m.w| + |MemberText(m)| + |m.w'|;
            && (s[e] == RBRACE ==> ParseObject(s, i, t) == Ok(DenoteMember(m, t), e + 1))
            && (s[e] == COMMA ==> ParseObject(s, i, t) == ParseObject(s, e + 1, DenoteMember(m, t)))
    decreases m, 1
  {
    hide At, MemberText, NextChar, Denote, EndsToken, ParseMember, ParseObject, Put, ItemsBytes, ValidItems;
    var j := i + |m.w|;
    var k := j + |MemberText(m)|;
    CompleteMember(s, j, m);
    ObjectTurn(s, i, t, j, ItemsBytes(m.key, m.quote), Denote(m.v), k, k + |m.w'|);
  }

  // ---------------------------------------------------------------- whole texts

  /** Every tree of the accepted language, with blanks around it, decodes to what it denotes. */
  lemma DecodeComplete(w: bytes, x: Syntax, w': bytes)
    requires Blank(w) && Valid(x) && Blank(w')
    ensures Decode(w + (Text(x) + w')) == Ok(Denote(x), |w| + |Text(x)| + |w'|)
  {
    hide Text, Valid, Denote, Parse, NeedsDelimiter;
    var s := w + (Text(x) + w');
    var k := |w| + |Text(x)|;
    AtSelf(s);
    AtSplit(s, 0, w, Text(x) + w');
    AtSplit(s, |w|, Text(x), w');
    SkipToText(s, 0, w, x);
    assert EndsToken(s, k) by { if w' != [] { assert s[k] == w'[0]; } }
    CompleteValue(s, |w|, x);
    SkipBlank(s, k, w');
  }

  lemma AtSelf(s: bytes)
    ensures At(s, 0, s)
  {}

  /** Every RFC 8259 text, surrogates in pairs, decodes without error to the value it denotes. */
  lemma DecodeJson(w: bytes, x: Syntax, w': bytes)
    requires Blank(w) && IsJson(x) && Blank(w')
    ensures Valid(x) && Decode(w + (Text(x) + w')) == Ok(Denote(x), |w| + |Text(x)| + |w'|)
  {
    JsonValid(x);
    DecodeComplete(w, x, w');
  }
}
