/** Errors are not reported late: whatever stands before the index of an error can be continued to an
    accepted text. */
module JsonViable {
  import opened Bytes
  import opened LuaValue
  import opened JsonLexis
  import opened JsonSpec
  import opened JsonGrammar
  import opened JsonComplete
  import opened JsonSound

  /** The index of the byte an error is about. */
  function Point(kind: ErrorKind, at: nat): int {
    if kind.ExpectedArrayNext? || kind.ExpectedObjectNext? then at - 1 else at
  }

  /** From `i` up to `p` the text of `s` is a first part of `t`. */
  predicate Begins(s: bytes, i: nat, p: int, t: bytes) { i <= p <= |s| && p - i <= |t| && s[i..p] == t[..p - i] }

  lemma BeginsAfter(s: bytes, i: nat, p: int, a: bytes, b: bytes)
    requires At(s, i, a) && Begins(s, i + |a|, p, b)
    ensures Begins(s, i, p, a + b)
  {
    assert s[i..p] == a + s[i + |a|..p];
  }

  lemma BeginsAfterThree(s: bytes, i: nat, p: int, a: bytes, b: bytes, c: bytes, d: bytes)
    requires At(s, i, a) && At(s, i + |a|, b) && At(s, i + |a| + |b|, c) && Begins(s, i + |a| + |b| + |c|, p, d)
    ensures Begins(s, i, p, a + (b + (c + d)))
  {
    hide At, Begins;
    BeginsAfter(s, i + |a| + |b|, p, c, d);
    BeginsAfter(s, i + |a|, p, b, c + d);
    BeginsAfter(s, i, p, a, b + (c + d));
  }

  lemma BeginsMore(s: bytes, i: nat, p: int, a: bytes, b: bytes)
    requires Begins(s, i, p, a)
    ensures Begins(s, i, p, a + b)
  {}

  lemma BeginsHere(s: bytes, i: nat, t: bytes)
    requires i <= |s|
    ensures Begins(s, i, i, t)
  {}

  lemma BeginsAt(s: bytes, i: nat, t: bytes)
    requires At(s, i, t)
    ensures Begins(s, i, i + |t|, t)
  {}

  // ---------------------------------------------------------------- strings

  lemma RestIsNoEscape(s: bytes, i: nat, it: Item, rest: Items, quote: byte)
    requires it.Valid(quote) && it.Uni? && it.h.IsHigh() && At(s, i, it.Text()) && !PairAt(s, i + 2)
    requires ValidItems(rest, quote) && At(s, i + 6, ItemsText(rest))
    ensures rest.Char? ==> !rest.first.IsUnicode()
  {
    assert HexAt(s, i + 2) == it.h;
    if rest.Char? && rest.first.IsUnicode() {
      UnicodeItemText(s, i + 6, rest.first, quote, ItemsText(rest.rest));
    }
  }

  /** What an unfinished or faulty string has up to its error. */
  lemma {:induction false} StringBefore(s: bytes, i: nat, quote: byte, open: nat) returns (items: Items)
    requires i <= |s| && IsQuote(quote) && StringRest(s, i, quote, open).Err?
    requires StringRest(s, i, quote, open).kind != ExpectedClosingQuote
    ensures ValidItems(items, quote) && At(s, i, ItemsText(items))
    ensures StringRest(s, i, quote, open).at == i + |ItemsText(items)|
    ensures Point(StringRest(s, i, quote, open).kind, StringRest(s, i, quote, open).at) == i + |ItemsText(items)|
    decreases |s| - i
  {
    hide At, Escape, Item.Text, Item.Bytes, Item.Valid, PairAt, Hex.IsHigh;
    if s[i] < 32 || (s[i] == BACKSLASH && Escape(s, i + 1).Err?) {
      items := Done;
      NoItems(s, i, quote);
      if s[i] >= 32 { EscapeErrors(s, i + 1); }
    } else {
      var it;
      if s[i] == BACKSLASH {
        it := SoundEscape(s, i, quote);
      } else {
        it := Raw(s[i]);
        RawItemAt(s, i, quote);
      }
      var k := i + |it.Text()|;
      var rest := StringBefore(s, k, quote, open);
      if it.Uni? && it.h.IsHigh() {
        UniLength(it);
        RestIsNoEscape(s, i, it, rest, quote);
      }
      Join(s, i, it.Text(), ItemsText(rest));
      items := Char(it, rest);
    }
  }

  lemma NoItems(s: bytes, i: nat, quote: byte)
    requires i <= |s|
    ensures ValidItems(Done, quote) && ItemsText(Done) == [] && At(s, i, [])
  {}

  lemma EscapeErrors(s: bytes, j: nat)
    requires 0 < j <= |s| && Escape(s, j).Err?
    ensures Escape(s, j).at == j - 1 && Point(Escape(s, j).kind, j - 1) == j - 1
    ensures Escape(s, j).kind != ExpectedClosingQuote
  {}

  lemma {:induction false} ClosingQuoteAt(s: bytes, i: nat, quote: byte, open: nat)
    requires i <= |s| && StringRest(s, i, quote, open).Err?
    ensures StringRest(s, i, quote, open).kind == ExpectedClosingQuote ==> StringRest(s, i, quote, open).at == open
    decreases |s| - i
  {
    hide Escape;
    if i < |s| && s[i] == BACKSLASH {
      if Escape(s, i + 1).Ok? {
        ClosingQuoteAt(s, Escape(s, i + 1).next, quote, open);
      } else {
        EscapeErrors(s, i + 1);
      }
    } else if i < |s| && s[i] >= 32 && s[i] != quote {
      ClosingQuoteAt(s, i + 1, quote, open);
    }
  }

  /** A string literal from its quote on: either nothing of it counts, or its characters so far do. */
  lemma StringLiteralBefore(s: bytes, i: nat) returns (items: Items)
    requires i < |s| && IsQuote(s[i]) && StringRest(s, i + 1, s[i], i).Err?
    ensures ValidItems(items, s[i])
    ensures var r := StringRest(s, i + 1, s[i], i); Begins(s, i, Point(r.kind, r.at), StringText(s[i], items))
  {
    hide At, ItemsText, StringRest, ValidItems;
    var r := StringRest(s, i + 1, s[i], i);
    if r.kind == ExpectedClosingQuote {
      ClosingQuoteAt(s, i + 1, s[i], i);
      items := Done;
      NoItems(s, i, s[i]);
      BeginsHere(s, i, StringText(s[i], items));
    } else {
      items := StringBefore(s, i + 1, s[i], i);
      OneByte(s, i);
      BeginsAt(s, i + 1, ItemsText(items));
      BeginsMore(s, i + 1, r.at, ItemsText(items), [s[i]]);
      BeginsAfter(s, i, r.at, [s[i]], ItemsText(items) + [s[i]]);
    }
  }

  // ---------------------------------------------------------------- values

  lemma {:induction false} ValueBefore(s: bytes, i: nat) returns (x: Syntax)
    requires i <= |s| && Parse(s, i).Err?
    ensures Valid(x) && Begins(s, i, Point(Parse(s, i).kind, Parse(s, i).at), Text(x))
    decreases |s| - i, 0
  {
    hide At, StringRest, ItemsText, ItemsBytes, ValidItems, ParseArray, ElementsText, ValidElements, ParseObject,
         MembersText, ValidMembers, Begins;
    if i < |s| && IsQuote(s[i]) {
      var items := StringLiteralBefore(s, i);
      x := SString(s[i], items);
    } else if i < |s| && s[i] == LBRACKET {
      var a := ArrayBefore(s, i + 1, 1, map[]);
      OneByte(s, i);
      BeginsAfter(s, i, Point(Parse(s, i).kind, Parse(s, i).at), [LBRACKET], ElementsText(a));
      x := SArray(a);
    } else if i < |s| && s[i] == LBRACE {
      var o := ObjectBefore(s, i + 1, map[]);
      OneByte(s, i);
      BeginsAfter(s, i, Point(Parse(s, i).kind, Parse(s, i).at), [LBRACE], MembersText(o));
      x := SObject(o);
    } else {
      x := SNull;
      BeginsHere(s, i, Text(x));
    }
  }

  /** What a failing turn of the loop of parse_array has found. */
  lemma ArrayFails(s: bytes, i: nat, n: nat, t: map<Key, Value>)
    requires i <= |s| && ParseArray(s, i, n, t).Err?
    ensures var j := NextChar(s, i, SPACES, true);
            match Parse(s, j)
            case Err(e, at) => ParseArray(s, i, n, t) == Err(e, at)
            case Ok(x, k) =>
              var m := NextChar(s, k, SPACES, true);
              ParseArray(s, i, n, t) == if m < |s| && s[m] == COMMA
                                        then ParseArray(s, m + 1, n + 1, Put(t, KNum(n as real), x))
                                        else Err(ExpectedArrayNext, m + 1)
  {
    hide Parse, NextChar, Put;
  }

  lemma {:induction false} ArrayBefore(s: bytes, i: nat, n: nat, t: map<Key, Value>) returns (a: Elements)
    requires i <= |s| && ParseArray(s, i, n, t).Err?
    ensures var r := ParseArray(s, i, n, t); ValidElements(a) && Begins(s, i, Point(r.kind, r.at), ElementsText(a))
    decreases |s| - i, 1
  {
    hide At, Text, Valid, Blank, Parse, ParseArray, NextChar, Denote, NeedsDelimiter, EndsToken, Put, Begins;
    var r := ParseArray(s, i, n, t);
    var p := Point(r.kind, r.at);
    ArrayFails(s, i, n, t);
    var w := Skipped(s, i);
    var j := i + |w|;
    if Parse(s, j).Err? {
      var x := ValueBefore(s, j);
      NoBlanks();
      a := Last(w, x, []);
      BeginsMore(s, j, p, Text(x), [] + [RBRACKET]);
      BeginsAfter(s, i, p, w, Text(x) + ([] + [RBRACKET]));
    } else {
      var x := SoundParse(s, j);
      var k := j + |Text(x)|;
      var w' := Skipped(s, k);
      var m := k + |w'|;
      if m < |s| && s[m] == COMMA {
        var rest := ArrayBefore(s, m + 1, n + 1, Put(t, KNum(n as real), Parse(s, j).value));
        a := More(w, x, w', rest);
        OneByte(s, m);
        BeginsAfter(s, m, p, [COMMA], ElementsText(rest));
        BeginsAfterThree(s, i, p, w, Text(x), w', [COMMA] + ElementsText(rest));
      } else {
        a := Last(w, x, w');
        AtBound(s, k, w');
        BeginsHere(s, m, [RBRACKET]);
        BeginsAfterThree(s, i, p, w, Text(x), w', [RBRACKET]);
      }
    }
  }

  lemma NoBlanks()
    ensures Blank([])
  {}

  lemma WordText()
    ensures Valid(SNull) && Text(SNull) == NULL
  {}

  /** A member up to its error, with whatever may come before it. */
  lemma {:induction false} MemberBefore(s: bytes, j: nat, w: bytes) returns (m: Member)
    requires j < |s| && IsQuote(s[j]) && ParseMember(s, j).Err? && Blank(w)
    ensures ValidMember(m) && m.w == w && m.w' == []
    ensures var r := ParseMember(s, j); Begins(s, j, Point(r.kind, r.at), MemberText(m))
    decreases |s| - j, 1
  {
    hide At, Text, Valid, Blank, Parse, NextChar, Denote, NeedsDelimiter, EndsToken, StringText, StringRest, ItemsBytes,
         ValidItems, Begins;
    var r := ParseMember(s, j);
    var p := Point(r.kind, r.at);
    NoBlanks();
    WordText();
    if StringRest(s, j + 1, s[j], j).Err? {
      var items := StringLiteralBefore(s, j);
      m := Member(w, s[j], items, [], [], SNull, []);
      BeginsMore(s, j, p, StringText(s[j], items), [] + ([COLON] + ([] + NULL)));
    } else {
      var items := SoundStringText(s, j);
      var st := StringText(s[j], items);
      var k := j + |st|;
      var w1 := Skipped(s, k);
      var c := k + |w1|;
      if c < |s| && s[c] == COLON {
        OneByte(s, c);
        var w2 := Skipped(s, c + 1);
        var x := ValueBefore(s, c + 1 + |w2|);
        m := Member(w, s[j], items, w1, w2, x, []);
        BeginsAfter(s, c + 1, p, w2, Text(x));
        BeginsAfterThree(s, j, p, st, w1, [COLON], w2 + Text(x));
      } else {
        m := Member(w, s[j], items, w1, [], SNull, []);
        AtBound(s, k, w1);
        BeginsHere(s, c, [COLON] + ([] + NULL));
        BeginsAfter(s, k, p, w1, [COLON] + ([] + NULL));
        BeginsAfter(s, j, p, st, w1 + ([COLON] + ([] + NULL)));
      }
    }
  }

  /** What a failing turn of the loop of parse_object has found. */
  lemma ObjectFails(s: bytes, i: nat, t: map<Key, Value>)
    requires i <= |s| && ParseObject(s, i, t).Err?
    ensures var j := NextChar(s, i, SPACES, true);
            match ParseMember(s, j)
            case Err(e, at) => ParseObject(s, i, t) == Err(e, at)
            case Ok(member, k) =>
              var m := NextChar(s, k, SPACES, true);
              ParseObject(s, i, t) == if m < |s| && s[m] == COMMA
                                      then ParseObject(s, m + 1, Put(t, KStr(member.0), member.1))
                                      else Err(ExpectedObjectNext, m + 1)
  {
    hide ParseMember, NextChar, Put;
  }

  lemma {:induction false} ObjectBefore(s: bytes, i: nat, t: map<Key, Value>) returns (o: Members)
    requires i <= |s| && ParseObject(s, i, t).Err?
    ensures var r := ParseObject(s, i, t); ValidMembers(o) && Begins(s, i, Point(r.kind, r.at), MembersText(o))
    decreases |s| - i, 2
  {
    hide At, ParseMember, ParseObject, Text, Valid, ValidMember, Blank, NextChar, Denote, EndsToken, Put, ItemsBytes,
         ValidItems, MemberText, Begins;
    var r := ParseObject(s, i, t);
    var p := Point(r.kind, r.at);
    ObjectFails(s, i, t);
    var w := Skipped(s, i);
    var j := i + |w|;
    AtBound(s, i, w);
    if j == |s| || !IsQuote(s[j]) { KeyExpected(s, j); }
    if j == |s| || !IsQuote(s[j]) {
      o := EndM(w);
      BeginsHere(s, j, [RBRACE]);
      BeginsAfter(s, i, p, w, [RBRACE]);
    } else if ParseMember(s, j).Err? {
      var m := MemberBefore(s, j, w);
      o := LastM(m);
      BeginsMore(s, j, p, MemberText(m), [] + [RBRACE]);
      BeginsAfter(s, i, p, w, MemberText(m) + ([] + [RBRACE]));
    } else {
      var m0 := SoundMember(s, j, w);
      var k := j + |MemberText(m0)|;
      var w' := Skipped(s, k);
      var e := k + |w'|;
      var m := m0.(w' := w');
      MemberTrailer(m0, w');
      AtBound(s, k, w');
      if e < |s| && s[e] == COMMA {
        var rest := ObjectBefore(s, e + 1, Put(t, KStr(ParseMember(s, j).value.0), ParseMember(s, j).value.1));
        o := MoreM(m, rest);
        OneByte(s, e);
        BeginsAfter(s, e, p, [COMMA], MembersText(rest));
        BeginsAfterThree(s, i, p, w, MemberText(m), w', [COMMA] + MembersText(rest));
      } else {
        o := LastM(m);
        BeginsHere(s, e, [RBRACE]);
        BeginsAfterThree(s, i, p, w, MemberText(m), w', [RBRACE]);
      }
    }
  }

  lemma KeyExpected(s: bytes, j: nat)
    requires j <= |s| && (j == |s| || !IsQuote(s[j]))
    ensures ParseMember(s, j) == Err(ExpectedKey, j)
  {}

  // ---------------------------------------------------------------- whole texts

  /** Whatever comes before the byte an error is about can be continued to a text that is accepted. */
  lemma ViablePrefix(s: bytes) returns (t: bytes)
    requires Decode(s).Err?
    ensures var p := Point(Decode(s).kind, Decode(s).at); 0 <= p <= |s| && Decode(s[..p] + t).Ok?
  {
    hide Text, Valid, Denote, Parse, NextChar, Blank, NeedsDelimiter, EndsToken, At;
    var p := Point(Decode(s).kind, Decode(s).at);
    var w := Skipped(s, 0);
    var x, w' := SNull, [];
    NoBlanks();
    if Parse(s, |w|).Err? {
      x := ValueBefore(s, |w|);
      BeginsMore(s, |w|, p, Text(x), w');
    } else {
      x := SoundParse(s, |w|);
      w' := Skipped(s, |w| + |Text(x)|);
      AtBound(s, |w| + |Text(x)|, w');
      BeginsAt(s, |w| + |Text(x)|, w');
      BeginsAfter(s, |w|, p, Text(x), w');
    }
    var all := w + (Text(x) + w');
    BeginsAfter(s, 0, p, w, Text(x) + w');
    t := all[p..];
    assert s[..p] + t == all;
    DecodeComplete(w, x, w');
  }
}
