/** Whatever the decoder accepts is the text of a syntax tree that denotes the result; with
    `JsonComplete` this fixes the accepted language and its meaning exactly. */
module JsonSound {
  import opened Bytes
  import opened LuaValue
  import opened Numerals
  import opened JsonLexis
  import opened JsonSpec
  import opened JsonGrammar
  import opened JsonComplete

  // ---------------------------------------------------------------- building texts

  lemma JoinFour(s: bytes, i: nat, a: bytes, b: bytes, c: bytes, d: bytes)
    requires At(s, i, a) && At(s, i + |a|, b) && At(s, i + |a| + |b|, c) && At(s, i + |a| + |b| + |c|, d)
    ensures At(s, i, a + (b + (c + d)))
    ensures |a + (b + (c + d))| == |a| + |b| + |c| + |d|
  {
    AtSplit(s, i + |a| + |b|, c, d);
    AtSplit(s, i + |a|, b, c + d);
    AtSplit(s, i, a, b + (c + d));
  }

  lemma Join(s: bytes, i: nat, a: bytes, b: bytes)
    requires At(s, i, a) && At(s, i + |a|, b)
    ensures At(s, i, a + b)
  {
    AtSplit(s, i, a, b);
  }

  lemma OneByte(s: bytes, i: nat)
    requires i < |s|
    ensures At(s, i, [s[i]])
  {}

  lemma SliceAt(s: bytes, i: nat, k: nat)
    requires i <= k <= |s|
    ensures At(s, i, s[i..k])
  {}

  lemma {:induction false} NextCharStops(s: bytes, i: nat, chars: set<byte>, negate: bool)
    requires i <= |s|
    ensures var k := NextChar(s, i, chars, negate);
            && (forall j {:trigger s[j]} :: i <= j < k ==> (s[j] in chars) == negate)
            && (k == |s| || (s[k] in chars) != negate)
    decreases |s| - i
  {
    if i < |s| && (s[i] in chars) == negate { NextCharStops(s, i + 1, chars, negate); }
  }

  /** The blanks skipped from `i` on. */
  lemma Skipped(s: bytes, i: nat) returns (w: bytes)
    requires i <= |s|
    ensures Blank(w) && At(s, i, w) && NextChar(s, i, SPACES, true) == i + |w|
  {
    var k := NextChar(s, i, SPACES, true);
    NextCharStops(s, i, SPACES, true);
    w := s[i..k];
    SliceAt(s, i, k);
  }

  // ---------------------------------------------------------------- strings

  lemma SoundPair(s: bytes, i: nat, quote: byte, it: Item)
    requires i + 12 <= |s| && s[i] == BACKSLASH && s[i + 1] == LOWER_U && PairAt(s, i + 2)
    requires Escape(s, i + 1).Ok? && it == Pair(HexAt(s, i + 2), HexAt(s, i + 8))
    ensures it.Valid(quote) && At(s, i, it.Text()) && Escape(s, i + 1) == Ok(it.Bytes(quote), i + |it.Text()|)
  {}

  lemma SoundUni(s: bytes, i: nat, quote: byte, it: Item)
    requires i + 6 <= |s| && s[i] == BACKSLASH && s[i + 1] == LOWER_U && HexDigitsAt(s, i + 2) && !PairAt(s, i + 2)
    requires it == Uni(HexAt(s, i + 2))
    ensures it.Valid(quote) && At(s, i, it.Text()) && Escape(s, i + 1) == Ok(it.Bytes(quote), i + |it.Text()|)
  {}

  lemma SoundShort(s: bytes, i: nat, quote: byte)
    requires i + 2 <= |s| && s[i] == BACKSLASH && s[i + 1] != LOWER_U && Escape(s, i + 1).Ok?
    ensures var it := Short(s[i + 1]);
            it.Valid(quote) && At(s, i, it.Text()) && Escape(s, i + 1) == Ok(it.Bytes(quote), i + |it.Text()|)
  {}

  lemma SoundEscape(s: bytes, i: nat, quote: byte) returns (it: Item)
    requires i < |s| && s[i] == BACKSLASH && Escape(s, i + 1).Ok?
    ensures it.Valid(quote) && !it.Raw? && At(s, i, it.Text())
    ensures Escape(s, i + 1) == Ok(it.Bytes(quote), i + |it.Text()|)
    ensures it.Uni? && it.h.IsHigh() ==> !PairAt(s, i + 2)
  {
    hide At, Item.Text, Item.Bytes, Item.Valid, Hex.IsHigh;
    if s[i + 1] != LOWER_U {
      SoundShort(s, i, quote);
      it := Short(s[i + 1]);
    } else if PairAt(s, i + 2) {
      it := Pair(HexAt(s, i + 2), HexAt(s, i + 8));
      SoundPair(s, i, quote, it);
    } else {
      it := Uni(HexAt(s, i + 2));
      SoundUni(s, i, quote, it);
    }
  }

  /** A `\u` item leaves a match of `\u%x%x%x%x` in the text. */
  lemma UnicodeItemText(s: bytes, k: nat, it: Item, quote: byte, rest: bytes)
    requires it.Valid(quote) && it.IsUnicode() && At(s, k, it.Text() + rest)
    ensures k + 6 <= |s| && s[k] == BACKSLASH && s[k + 1] == LOWER_U && HexDigitsAt(s, k + 2)
  {
    AtSplit(s, k, it.Text(), rest);
    var h := if it.Uni? then it.h else it.hi;
    assert HexAt(s, k + 2) == h;
  }

  /** A lone high surrogate is never followed by another `\u` in an accepted string. */
  lemma NotSwallowed(s: bytes, i: nat, it: Item, rest: Items, quote: byte)
    requires it.Valid(quote) && it.Uni? && it.h.IsHigh() && At(s, i, it.Text()) && !PairAt(s, i + 2)
    requires ValidItems(rest, quote) && At(s, i + 6, ItemsText(rest) + [quote])
    ensures rest.Char? ==> !rest.first.IsUnicode()
  {
    assert HexAt(s, i + 2) == it.h;
    if rest.Char? && rest.first.IsUnicode() {
      assert ItemsText(rest) + [quote] == rest.first.Text() + (ItemsText(rest.rest) + [quote]);
      UnicodeItemText(s, i + 6, rest.first, quote, ItemsText(rest.rest) + [quote]);
    }
  }

  lemma PrependItem(s: bytes, i: nat, it: Item, rest: Items, quote: byte)
    requires At(s, i, it.Text()) && At(s, i + |it.Text()|, ItemsText(rest) + [quote])
    ensures At(s, i, ItemsText(Char(it, rest)) + [quote])
  {
    hide At, Item.Text;
    AtSplit(s, i, it.Text(), ItemsText(rest) + [quote]);
    assert (it.Text() + ItemsText(rest)) + [quote] == it.Text() + (ItemsText(rest) + [quote]);
  }

  lemma SoundString(s: bytes, i: nat, quote: byte, open: nat) returns (items: Items)
    requires i <= |s| && IsQuote(quote) && StringRest(s, i, quote, open).Ok?
    ensures ValidItems(items, quote) && At(s, i, ItemsText(items) + [quote])
    ensures StringRest(s, i, quote, open) == Ok(ItemsBytes(items, quote), i + |ItemsText(items)| + 1)
    decreases |s| - i
  {
    hide At, Escape, Item.Text, Item.Bytes, Item.Valid, PairAt, Hex.IsHigh;
    if s[i] == quote {
      items := Done;
      OneByte(s, i);
      assert ItemsText(items) + [quote] == [quote];
    } else {
      var it;
      if s[i] == BACKSLASH {
        it := SoundEscape(s, i, quote);
      } else {
        it := Raw(s[i]);
        RawItemAt(s, i, quote);
      }
      var k := i + |it.Text()|;
      var rest := SoundString(s, k, quote, open);
      if it.Uni? && it.h.IsHigh() {
        UniLength(it);
        NotSwallowed(s, i, it, rest, quote);
      }
      PrependItem(s, i, it, rest, quote);
      items := Char(it, rest);
    }
  }

  lemma RawItemAt(s: bytes, i: nat, quote: byte)
    requires i < |s| && s[i] >= 32 && s[i] != BACKSLASH && s[i] != quote
    ensures Raw(s[i]).Valid(quote) && Raw(s[i]).Bytes(quote) == [s[i]] && Raw(s[i]).Text() == [s[i]]
    ensures At(s, i, [s[i]])
  {}

  lemma SoundStringText(s: bytes, i: nat) returns (items: Items)
    requires i < |s| && IsQuote(s[i]) && StringRest(s, i + 1, s[i], i).Ok?
    ensures ValidItems(items, s[i]) && At(s, i, StringText(s[i], items))
    ensures StringRest(s, i + 1, s[i], i) == Ok(ItemsBytes(items, s[i]), i + |StringText(s[i], items)|)
  {
    hide At, ItemsText, ValidItems, StringRest;
    items := SoundString(s, i + 1, s[i], i);
    OneByte(s, i);
    Join(s, i, [s[i]], ItemsText(items) + [s[i]]);
  }

  // ---------------------------------------------------------------- values

  /** `x` is a tree for the part of `s` that `r` was parsed from, starting at `i`. */
  ghost predicate Explains(s: bytes, i: nat, r: Parsed<Value>, x: Syntax) {
    && Valid(x) && At(s, i, Text(x))
    && r == Ok(Denote(x), i + |Text(x)|)
    && (NeedsDelimiter(x) ==> EndsToken(s, i + |Text(x)|))
  }

  lemma SoundToken(s: bytes, i: nat) returns (x: Syntax)
    requires i < |s| && (StartsNumber(s[i]) || StartsLiteral(s[i])) && Parse(s, i).Ok?
    ensures Explains(s, i, Parse(s, i), x)
  {
    hide ToNumber;
    var k := NextChar(s, i, DELIMITERS, false);
    NextCharStops(s, i, DELIMITERS, false);
    SliceAt(s, i, k);
    var t := s[i..k];
    if StartsNumber(s[i]) {
      assert t[0] == s[i];
      x := SNumber(t);
    } else if t == NULL {
      x := SNull;
    } else {
      x := SBool(t == TRUE);
    }
  }

  lemma SoundParse(s: bytes, i: nat) returns (x: Syntax)
    requires i <= |s| && Parse(s, i).Ok?
    ensures Explains(s, i, Parse(s, i), x)
    decreases |s| - i, 0
  {
    hide At, StringRest, ItemsText, ItemsBytes, ValidItems, ParseArray, ElementsText, ValidElements, DenoteElements,
         ParseObject, MembersText, ValidMembers, DenoteMembers, ParseNumber, ParseLiteral;
    OneByte(s, i);
    if IsQuote(s[i]) {
      var items := SoundStringText(s, i);
      x := SString(s[i], items);
    } else if StartsNumber(s[i]) || StartsLiteral(s[i]) {
      x := SoundToken(s, i);
    } else if s[i] == LBRACKET {
      var a := SoundArray(s, i + 1, 1, map[]);
      Join(s, i, [LBRACKET], ElementsText(a));
      x := SArray(a);
    } else {
      var o := SoundObject(s, i + 1, map[]);
      Join(s, i, [LBRACE], MembersText(o));
      x := SObject(o);
    }
  }

  /** What an accepted turn of the loop of parse_array has found. */
  lemma ArrayAccepted(s: bytes, i: nat, n: nat, t: map<Key, Value>) returns (j: nat, m: nat)
    requires i <= |s| && ParseArray(s, i, n, t).Ok?
    ensures j == NextChar(s, i, SPACES, true) && j < |s|
    ensures s[j] == RBRACKET ==> ParseArray(s, i, n, t) == Ok(t, j + 1)
    ensures s[j] != RBRACKET ==>
            && Parse(s, j).Ok? && m == NextChar(s, Parse(s, j).next, SPACES, true)
            && m < |s| && (s[m] == RBRACKET || s[m] == COMMA)
            && var t' := Put(t, KNum(n as real), Parse(s, j).value);
               ParseArray(s, i, n, t) == if s[m] == RBRACKET then Ok(t', m + 1) else ParseArray(s, m + 1, n + 1, t')
  {
    hide Parse, NextChar, Put;
    j := NextChar(s, i, SPACES, true);
    m := if j < |s| && s[j] != RBRACKET then NextChar(s, Parse(s, j).next, SPACES, true) else 0;
  }

  lemma SoundArray(s: bytes, i: nat, n: nat, t: map<Key, Value>) returns (a: Elements)
    requires i <= |s| && ParseArray(s, i, n, t).Ok?
    ensures ValidElements(a) && At(s, i, ElementsText(a))
    ensures ParseArray(s, i, n, t) == Ok(DenoteElements(a, n, t), i + |ElementsText(a)|)
    decreases |s| - i, 1
  {
    hide At, Text, Valid, Blank, Parse, ParseArray, NextChar, Denote, NeedsDelimiter, EndsToken, Put;
    var j, m := ArrayAccepted(s, i, n, t);
    var w := Skipped(s, i);
    OneByte(s, j);
    if s[j] == RBRACKET {
      Join(s, i, w, [RBRACKET]);
      a := End(w);
    } else {
      var v := SoundParse(s, j);
      var w' := Skipped(s, j + |Text(v)|);
      OneByte(s, m);
      if s[m] == RBRACKET {
        JoinFour(s, i, w, Text(v), w', [RBRACKET]);
        a := Last(w, v, w');
      } else {
        var rest := SoundArray(s, m + 1, n + 1, Put(t, KNum(n as real), Denote(v)));
        Join(s, m, [COMMA], ElementsText(rest));
        JoinFour(s, i, w, Text(v), w', [COMMA] + ElementsText(rest));
        a := More(w, v, w', rest);
      }
    }
  }

  /** The parts of a member that starts at `j`; `w` and `w'` are the blanks around it. */
  lemma SoundMember(s: bytes, j: nat, w: bytes) returns (m: Member)
    requires j <= |s| && ParseMember(s, j).Ok? && Blank(w)
    ensures m.w == w && m.w' == [] && ValidMember(m) && At(s, j, MemberText(m))
    ensures ParseMember(s, j) == Ok((ItemsBytes(m.key, m.quote), Denote(m.v)), j + |MemberText(m)|)
    decreases |s| - j, 1
  {
    hide At, Text, Valid, Parse, NextChar, Denote, NeedsDelimiter, EndsToken, StringText, StringRest, ItemsBytes,
         ValidItems;
    var items := SoundStringText(s, j);
    var st := StringText(s[j], items);
    var k := j + |st|;
    var w1 := Skipped(s, k);
    var c := k + |w1|;
    OneByte(s, c);
    var w2 := Skipped(s, c + 1);
    var v := SoundParse(s, c + 1 + |w2|);
    Join(s, c + 1, w2, Text(v));
    JoinFour(s, j, st, w1, [COLON], w2 + Text(v));
    m := Member(w, s[j], items, w1, w2, v, []);
  }

  /** What an accepted turn of the loop of parse_object has found. */
  lemma ObjectAccepted(s: bytes, i: nat, t: map<Key, Value>) returns (j: nat, m: nat)
    requires i <= |s| && ParseObject(s, i, t).Ok?
    ensures j == NextChar(s, i, SPACES, true) && j < |s|
    ensures s[j] == RBRACE ==> ParseObject(s, i, t) == Ok(t, j + 1)
    ensures s[j] != RBRACE ==>
            && ParseMember(s, j).Ok? && m == NextChar(s, ParseMember(s, j).next, SPACES, true)
            && m < |s| && (s[m] == RBRACE || s[m] == COMMA)
            && var (key, v) := ParseMember(s, j).value;
               var t' := Put(t, KStr(key), v);
               ParseObject(s, i, t) == if s[m] == RBRACE then Ok(t', m + 1) else ParseObject(s, m + 1, t')
  {
    hide ParseMember, NextChar, Put;
    j := NextChar(s, i, SPACES, true);
    m := if j < |s| && s[j] != RBRACE then NextChar(s, ParseMember(s, j).next, SPACES, true) else 0;
  }

  lemma SoundObject(s: bytes, i: nat, t: map<Key, Value>) returns (o: Members)
    requires i <= |s| && ParseObject(s, i, t).Ok?
    ensures ValidMembers(o) && At(s, i, MembersText(o))
    ensures ParseObject(s, i, t) == Ok(DenoteMembers(o, t), i + |MembersText(o)|)
    decreases |s| - i, 2
  {
    hide At, ParseMember, ParseObject, Text, Valid, ValidMember, Blank, NextChar, Denote, EndsToken, Put, ItemsBytes,
         ValidItems, MemberText;
    var j, e := ObjectAccepted(s, i, t);
    var w := Skipped(s, i);
    OneByte(s, j);
    if s[j] == RBRACE {
      Join(s, i, w, [RBRACE]);
      o := EndM(w);
    } else {
      var m0 := SoundMember(s, j, w);
      var w' := Skipped(s, j + |MemberText(m0)|);
      OneByte(s, e);
      var m := m0.(w' := w');
      MemberTrailer(m0, w');
      if s[e] == RBRACE {
        JoinFour(s, i, w, MemberText(m), w', [RBRACE]);
        o := LastM(m);
      } else {
        var rest := SoundObject(s, e + 1, DenoteMember(m, t));
        Join(s, e, [COMMA], MembersText(rest));
        JoinFour(s, i, w, MemberText(m), w', [COMMA] + MembersText(rest));
        o := MoreM(m, rest);
      }
    }
  }

  lemma MemberTrailer(m: Member, w': bytes)
    requires ValidMember(m) && Blank(w')
    ensures ValidMember(m.(w' := w')) && MemberText(m.(w' := w')) == MemberText(m)
    ensures forall t :: DenoteMember(m.(w' := w'), t) == DenoteMember(m, t)
  {
    hide Valid, Text;
  }

  // ---------------------------------------------------------------- whole texts

  /** `s` is the text of an accepted tree that denotes `v`. */
  ghost predicate Means(s: bytes, v: Value) {
    exists w: bytes, x: Syntax, w': bytes ::
      Blank(w) && Valid(x) && Blank(w') && s == w + (Text(x) + w') && v == Denote(x)
  }

  lemma SoundDecode(s: bytes) returns (w: bytes, x: Syntax, w': bytes)
    requires Decode(s).Ok?
    ensures Blank(w) && Valid(x) && Blank(w') && s == w + (Text(x) + w')
    ensures Decode(s) == Ok(Denote(x), |s|)
  {
    hide Text, Valid, Denote, Parse, NextChar, Blank, NeedsDelimiter, EndsToken, At;
    w := Skipped(s, 0);
    x := SoundParse(s, |w|);
    w' := Skipped(s, |w| + |Text(x)|);
    Join(s, |w|, Text(x), w');
    Join(s, 0, w, Text(x) + w');
    WholeText(s, w + (Text(x) + w'));
  }

  lemma WholeText(s: bytes, t: bytes)
    requires At(s, 0, t) && |t| == |s|
    ensures s == t
  {}

  /** json.decode accepts exactly the texts of trees, and returns what they denote. */
  lemma DecodeExact(s: bytes, v: Value)
    ensures (exists k :: Decode(s) == Ok(v, k)) <==> Means(s, v)
  {
    hide Text, Valid, Denote, Decode, Blank;
    if Decode(s).Ok? && Decode(s).value == v {
      var w, x, w' := SoundDecode(s);
    }
    forall w: bytes, x: Syntax, w': bytes
      | Blank(w) && Valid(x) && Blank(w') && s == w + (Text(x) + w') && v == Denote(x)
      ensures Decode(s) == Ok(v, |w| + |Text(x)| + |w'|)
    {
      DecodeComplete(w, x, w');
    }
  }

  /** No byte after the returned index matters, except that a number or literal must end there. */
  lemma Locality(s: bytes, s': bytes, i: nat, v: Value, k: nat)
    requires i <= |s| && Parse(s, i) == Ok(v, k)
    requires k <= |s'| && s'[..k] == s[..k]
    requires (v.Nil? || v.Bool? || v.Num?) && k < |s'| ==> s'[k] in DELIMITERS
    ensures Parse(s', i) == Ok(v, k)
  {
    hide At, Parse, Text, Valid, ItemsText, ItemsBytes, DenoteElements, DenoteMembers;
    var x := SoundParse(s, i);
    TransferAt(s, s', i, Text(x), k);
    CompleteValue(s', i, x);
  }

  lemma TransferAt(s: bytes, s': bytes, i: nat, t: bytes, k: nat)
    requires At(s, i, t) && i + |t| == k && k <= |s'| && s'[..k] == s[..k]
    ensures At(s', i, t)
  {
    forall j | i <= j < k ensures s'[j] == t[j - i] {
      assert s'[j] == s'[..k][j] == s[..k][j] == s[j];
    }
  }
}
