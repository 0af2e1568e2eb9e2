/** Strings with `\u` escapes that are not properly paired surrogates: section 7 of RFC 8259 allows
    them, and this is exactly when and how the decoder takes them. */
module JsonSurrogates {
  import opened Bytes
  import opened LuaValue
  import opened Unicode
  import opened JsonSpec
  import opened JsonGrammar
  import opened JsonComplete

  /** A string of the RFC's grammar: each `\u` escape on its own, paired or not. */
  predicate Grammatical(items: Items) {
    items.Char? ==> items.first.Valid(QUOTE) && !items.first.Pair? && Grammatical(items.rest)
  }

  /** Reads a high surrogate and the `\u` escape after it, whatever it is, as one pair. */
  function Merge(items: Items): Items {
    match items
    case Done => Done
    case Char(it, rest) =>
      if it.Uni? && it.h.IsHigh() && rest.Char? && rest.first.Uni? then
        Char(Pair(it.h, rest.first.h), Merge(rest.rest))
      else Char(it, Merge(rest))
  }

  /** Every pair stands for a code point within Unicode. */
  predicate Fits(items: Items) {
    items.Char? ==>
      && (items.first.Pair? && items.first.hi.IsHigh() && items.first.lo.Valid()
          ==> Combine(items.first.hi.Value(), items.first.lo.Value()) <= 0x10ffff)
      && Fits(items.rest)
  }

  /** The shape `Merge` leaves: as `ValidItems`, without the bound on code points. */
  predicate Merged(items: Items) {
    items.Char? ==>
      && (items.first.Valid(QUOTE) || (items.first.Pair? && items.first.hi.IsHigh() && items.first.lo.Valid()))
      && (items.first.Uni? && items.first.h.IsHigh() && items.rest.Char? ==> !items.rest.first.IsUnicode())
      && Merged(items.rest)
  }

  lemma {:induction false} MergeShape(items: Items)
    requires Grammatical(items)
    ensures Merged(Merge(items)) && ItemsText(Merge(items)) == ItemsText(items)
    ensures Merge(items).Char? <==> items.Char?
    ensures items.Char? && !items.first.Uni? ==> Merge(items).first == items.first
    decreases items
  {
    hide Hex.IsHigh, Hex.Valid;
    match items
    case Done =>
    case Char(it, rest) =>
      MergeShape(rest);
      if it.Uni? && it.h.IsHigh() && rest.Char? && rest.first.Uni? {
        MergeShape(rest.rest);
        PairText(it.h, rest.first.h, ItemsText(rest.rest));
      }
  }

  lemma PairText(hi: Hex, lo: Hex, t: bytes)
    ensures Pair(hi, lo).Text() + t == Uni(hi).Text() + (Uni(lo).Text() + t)
  {}

  lemma {:induction false} MergedValid(items: Items)
    requires Merged(items)
    ensures ValidItems(items, QUOTE) <==> Fits(items)
    decreases items
  {
    if items.Char? { MergedValid(items.rest); }
  }

  lemma OverflowEscape(s: bytes, i: nat, it: Item)
    requires it.Pair? && it.hi.IsHigh() && it.lo.Valid() && At(s, i, it.Text())
    requires Combine(it.hi.Value(), it.lo.Value()) > 0x10ffff
    ensures s[i] == BACKSLASH && Escape(s, i + 1).Err?
  {
    assert HexAt(s, i + 2) == it.hi && HexAt(s, i + 8) == it.lo;
  }

  lemma {:induction false} OverflowFails(s: bytes, i: nat, items: Items, open: nat)
    requires Merged(items) && !Fits(items) && At(s, i, ItemsText(items) + [QUOTE])
    ensures StringRest(s, i, QUOTE, open).Err?
    decreases items
  {
    hide At, Escape, Item.Text, Item.Bytes, Hex.IsHigh, Hex.Valid, ItemsBytes;
    var it, rest := items.first, items.rest;
    AtRegroup(s, i, it.Text(), ItemsText(rest), [QUOTE]);
    if !it.Valid(QUOTE) {
      OverflowEscape(s, i, it);
    } else {
      OverflowFails(s, i + |it.Text()|, rest, open);
      if it.Raw? {
        RawItem(s, i, it, QUOTE);
      } else {
        if it.Uni? && it.h.IsHigh() {
          UniLength(it);
          NotUnicode(s, i + 6, rest, QUOTE, [QUOTE]);
        }
        EscapeItem(s, i, it, QUOTE);
      }
    }
  }

  /** A string of the RFC's grammar is accepted exactly when no high surrogate is followed by a `\u`
      escape that takes the pair above U+10FFFF; the value is that of the merged string. */
  lemma GrammaticalString(items: Items)
    requires Grammatical(items)
    ensures Decode(StringText(QUOTE, items)).Ok? <==> Fits(Merge(items))
    ensures Fits(Merge(items)) ==>
              ValidItems(Merge(items), QUOTE)
              && Decode(StringText(QUOTE, items)).value == Str(ItemsBytes(Merge(items), QUOTE))
  {
    hide Merged, Fits, ItemsText, ItemsBytes, ValidItems, Grammatical, At;
    var s, m := StringText(QUOTE, items), Merge(items);
    MergeShape(items);
    MergedValid(m);
    AtSelf(s);
    AtByte(s, 0, QUOTE, ItemsText(m) + [QUOTE]);
    if Fits(m) {
      DecodeComplete([], SString(QUOTE, m), []);
      assert [] + (Text(SString(QUOTE, m)) + []) == s;
    } else {
      OverflowFails(s, 1, m, 0);
    }
  }

  function TwoEscapes(a: Hex, b: Hex): Items { Char(Uni(a), Char(Uni(b), Done)) }

  const LETTER := TwoEscapes(Hex(100, 56, 48, 48), Hex(48, 48, 52, 49))
  const OVERFLOW := TwoEscapes(Hex(100, 98, 102, 102), Hex(102, 102, 102, 102))

  lemma MergedLetter()
    ensures Grammatical(LETTER) && Fits(Merge(LETTER)) && ItemsText(Merge(LETTER)) == ItemsText(LETTER)
    ensures ValidItems(Merge(LETTER), QUOTE) && ItemsBytes(Merge(LETTER), QUOTE) == [226, 145, 129]
  {
    var a, b := Hex(100, 56, 48, 48), Hex(48, 48, 52, 49);
    assert a.Value() == 0xd800 && b.Value() == 0x41;
    assert Merge(LETTER) == Char(Pair(a, b), Done);
    assert CodepointToUtf8(0x2441).value == [226, 145, 129];
    MergeShape(LETTER);
  }

  lemma MergedOverflow()
    ensures Grammatical(OVERFLOW) && !Fits(Merge(OVERFLOW))
  {
    var c, d := Hex(100, 98, 102, 102), Hex(102, 102, 102, 102);
    assert c.Value() == 0xdbff && d.Value() == 0xffff;
    assert Merge(OVERFLOW) == Char(Pair(c, d), Done);
  }

  /** Both departures from RFC 2781 happen: in `\ud800\u0041` the unpaired surrogate takes the letter
      with it, giving U+2441, and `\udbff\uffff`, which the grammar allows, is refused. */
  lemma UnpairedSurrogates()
    ensures Decode(StringText(QUOTE, LETTER)).Ok? && Decode(StringText(QUOTE, LETTER)).value == Str([226, 145, 129])
    ensures Decode(StringText(QUOTE, OVERFLOW)).Err?
  {
    hide Decode, StringText, Grammatical, Fits, Merge, ItemsText, ItemsBytes, ValidItems, TwoEscapes;
    MergedLetter();
    MergedOverflow();
    GrammaticalString(LETTER);
    GrammaticalString(OVERFLOW);
  }
}
