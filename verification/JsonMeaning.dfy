/** What decoded texts mean, without following the parser: lookups in arrays and objects, the
    irrelevance of white space, and Unicode escapes. */
module JsonMeaning {
  import opened Options
  import opened Bytes
  import opened LuaValue
  import opened Unicode
  import opened JsonSpec
  import opened JsonGrammar
  import opened JsonComplete

  // ---------------------------------------------------------------- arrays and objects

  /** The values of the elements, in order. */
  function Values(a: Elements): seq<Value>
    requires ValidElements(a)
  {
    match a
    case End(_) => []
    case Last(_, v, _) => [Denote(v)]
    case More(_, v, _, rest) => [Denote(v)] + Values(rest)
  }

  /** The whole number a key is, if it is one. */
  function IndexOf(key: Key): Option<int> {
    if key.KNum? && key.n.Floor as real == key.n then Some(key.n.Floor) else None
  }

  lemma IndexKey(n: nat, key: Key)
    ensures IndexOf(key) == Some(n) <==> key == KNum(n as real)
  {}

  lemma TailAt(v: Value, vs: seq<Value>)
    ensures ([v] + vs)[0] == v && forall k :: 0 < k <= |vs| ==> ([v] + vs)[k] == vs[k - 1]
  {}

  /** Element `k` ends up at index `n + k`, or nothing does when it is null; no other key changes. */
  lemma {:induction false} ElementAt(a: Elements, n: nat, t: map<Key, Value>, key: Key)
    requires ValidElements(a)
    ensures var r := DenoteElements(a, n, t); var vs := Values(a); var m := IndexOf(key);
            if m.Some? && n <= m.value < n + |vs| then
              if vs[m.value - n].Nil? then key !in r else key in r && r[key] == vs[m.value - n]
            else
              (key in r <==> key in t) && (key in t ==> r[key] == t[key])
    decreases a
  {
    hide Valid, Denote, Blank, Put;
    IndexKey(n, key);
    if a.More? {
      ElementAt(a.rest, n + 1, Put(t, KNum(n as real), Denote(a.v)), key);
      TailAt(Denote(a.v), Values(a.rest));
    }
  }

  /** A decoded array is the table of its non-null elements, counted from 1. */
  lemma ArrayMeaning(a: Elements)
    requires ValidElements(a)
    ensures var vs := Values(a); var d := Denote(SArray(a));
            && d.Table?
            && (forall key :: key in d.fields ==> var m := IndexOf(key); m.Some? && 1 <= m.value <= |vs|)
            && (forall k: nat :: k < |vs| ==>
                  (KNum((k + 1) as real) in d.fields <==> !vs[k].Nil?)
                  && (!vs[k].Nil? ==> d.fields[KNum((k + 1) as real)] == vs[k]))
  {
    hide Denote;
    var vs, r := Values(a), DenoteElements(a, 1, map[]);
    assert Denote(SArray(a)) == Table(r) by { DenoteArray(a); }
    forall key | key in r ensures var m := IndexOf(key); m.Some? && 1 <= m.value <= |vs| {
      ElementAt(a, 1, map[], key);
    }
    forall k: nat | k < |vs|
      ensures (KNum((k + 1) as real) in r <==> !vs[k].Nil?)
      ensures !vs[k].Nil? ==> r[KNum((k + 1) as real)] == vs[k]
    {
      ElementAt(a, 1, map[], KNum((k + 1) as real));
    }
  }

  lemma DenoteArray(a: Elements)
    requires ValidElements(a)
    ensures Denote(SArray(a)) == Table(DenoteElements(a, 1, map[]))
  {}

  function KeyOf(m: Member): bytes
    requires ValidMember(m)
  {
    ItemsBytes(m.key, m.quote)
  }

  /** The last value written for `key`, if the key occurs. */
  function LastFor(o: Members, key: bytes): Option<Value>
    requires ValidMembers(o)
  {
    match o
    case EndM(_) => None
    case LastM(m) => if KeyOf(m) == key then Some(Denote(m.v)) else None
    case MoreM(m, rest) =>
      if LastFor(rest, key).Some? then LastFor(rest, key)
      else if KeyOf(m) == key then Some(Denote(m.v)) else None
  }

  lemma {:induction false} MemberAt(o: Members, t: map<Key, Value>, key: bytes)
    requires ValidMembers(o)
    ensures var r := DenoteMembers(o, t);
            match LastFor(o, key)
            case None => (KStr(key) in r <==> KStr(key) in t) && (KStr(key) in t ==> r[KStr(key)] == t[KStr(key)])
            case Some(v) => (KStr(key) in r <==> !v.Nil?) && (!v.Nil? ==> r[KStr(key)] == v)
    decreases o
  {
    hide Valid, Denote, Blank, ItemsBytes, ValidItems;
    match o
    case EndM(_) =>
    case LastM(m) => assert ValidMember(m);
    case MoreM(m, rest) =>
      assert ValidMember(m);
      MemberAt(rest, DenoteMember(m, t), key);
  }

  lemma {:induction false} MemberKeys(o: Members, t: map<Key, Value>, key: Key)
    requires ValidMembers(o) && !key.KStr?
    ensures key in DenoteMembers(o, t) <==> key in t
    decreases o
  {
    hide Valid, Denote, Blank, ItemsBytes, ValidItems;
    match o
    case EndM(_) =>
    case LastM(m) => assert ValidMember(m);
    case MoreM(m, rest) =>
      assert ValidMember(m);
      MemberKeys(rest, DenoteMember(m, t), key);
  }

  /** In a decoded object the last of several equal keys wins, and a key whose last value is null is absent. */
  lemma ObjectMeaning(o: Members)
    requires ValidMembers(o)
    ensures var d := Denote(SObject(o));
            && d.Table?
            && (forall key :: key in d.fields ==> key.KStr?)
            && (forall key :: KStr(key) in d.fields <==> LastFor(o, key).Some? && !LastFor(o, key).value.Nil?)
            && (forall key :: KStr(key) in d.fields ==> Some(d.fields[KStr(key)]) == LastFor(o, key))
  {
    hide Denote;
    var r := DenoteMembers(o, map[]);
    assert Denote(SObject(o)) == Table(r) by { DenoteObject(o); }
    forall key | key in r ensures key.KStr? {
      if !key.KStr? { MemberKeys(o, map[], key); }
    }
    forall key
      ensures KStr(key) in r <==> LastFor(o, key).Some? && !LastFor(o, key).value.Nil?
      ensures KStr(key) in r ==> Some(r[KStr(key)]) == LastFor(o, key)
    {
      MemberAt(o, map[], key);
    }
  }

  lemma DenoteObject(o: Members)
    requires ValidMembers(o)
    ensures Denote(SObject(o)) == Table(DenoteMembers(o, map[]))
  {}

  // ---------------------------------------------------------------- white space

  /** The same tree with every blank between tokens removed. */
  function Compact(x: Syntax): Syntax {
    match x
    case SArray(a) => SArray(CompactElements(a))
    case SObject(o) => SObject(CompactMembers(o))
    case _ => x
  }

  function CompactElements(a: Elements): Elements {
    match a
    case End(_) => End([])
    case Last(_, v, _) => Last([], Compact(v), [])
    case More(_, v, _, rest) => More([], Compact(v), [], CompactElements(rest))
  }

  function CompactMember(m: Member): Member {
    Member([], m.quote, m.key, [], [], Compact(m.v), [])
  }

  function CompactMembers(o: Members): Members {
    match o
    case EndM(_) => EndM([])
    case LastM(m) => LastM(CompactMember(m))
    case MoreM(m, rest) => MoreM(CompactMember(m), CompactMembers(rest))
  }

  lemma {:induction false} CompactMeans(x: Syntax)
    requires Valid(x)
    ensures Valid(Compact(x)) && Denote(Compact(x)) == Denote(x)
    decreases x
  {
    match x
    case SArray(a) => CompactElementsMean(a, 1, map[]);
    case SObject(o) => CompactMembersMean(o, map[]);
    case _ =>
  }

  lemma {:induction false} CompactElementsMean(a: Elements, n: nat, t: map<Key, Value>)
    requires ValidElements(a)
    ensures ValidElements(CompactElements(a)) && DenoteElements(CompactElements(a), n, t) == DenoteElements(a, n, t)
    decreases a
  {
    hide Valid, Denote, Put;
    match a
    case End(_) =>
    case Last(_, v, _) => CompactMeans(v);
    case More(_, v, _, rest) =>
      CompactMeans(v);
      CompactElementsMean(rest, n + 1, Put(t, KNum(n as real), Denote(v)));
  }

  lemma {:induction false} CompactMemberMeans(m: Member, t: map<Key, Value>)
    requires ValidMember(m)
    ensures ValidMember(CompactMember(m)) && DenoteMember(CompactMember(m), t) == DenoteMember(m, t)
    decreases m
  {
    CompactMeans(m.v);
  }

  lemma {:induction false} CompactMembersMean(o: Members, t: map<Key, Value>)
    requires ValidMembers(o)
    ensures ValidMembers(CompactMembers(o)) && DenoteMembers(CompactMembers(o), t) == DenoteMembers(o, t)
    decreases o
  {
    hide ValidMember, DenoteMember, CompactMember;
    match o
    case EndM(_) =>
    case LastM(m) => CompactMemberMeans(m, t);
    case MoreM(m, rest) =>
      CompactMemberMeans(m, t);
      CompactMembersMean(rest, DenoteMember(m, t));
  }

  /** Removing all white space between the tokens of an accepted text does not change its value. */
  lemma BlanksIrrelevant(w: bytes, x: Syntax, w': bytes)
    requires Blank(w) && Valid(x) && Blank(w')
    ensures Decode(w + (Text(x) + w')).Ok? && Decode(Text(Compact(x))).Ok?
    ensures Decode(Text(Compact(x))).value == Decode(w + (Text(x) + w')).value
  {
    hide Valid, Denote, Decode, Text, Compact;
    DecodeComplete(w, x, w');
    CompactMeans(x);
    DecodeComplete([], Compact(x), []);
    assert [] + (Text(Compact(x)) + []) == Text(Compact(x));
  }

  // ---------------------------------------------------------------- Unicode escapes

  /** `items` spells out `ns` in `\u` escapes, in any letter case, with surrogate pairs above U+FFFF. */
  predicate Spells(items: Items, ns: seq<int>) {
    match items
    case Done => ns == []
    case Char(it, rest) =>
      && ns != [] && Spells(rest, ns[1..])
      && match it
         case Uni(h) => h.Valid() && h.Value() == ns[0]
         case Pair(hi, lo) =>
           && hi.Valid() && lo.Valid() && 0x10000 <= ns[0]
           && hi.Value() == HighSurrogate(ns[0]) && lo.Value() == LowSurrogate(ns[0])
         case _ => false
  }

  lemma SpelledItem(it: Item, n: int)
    requires IsScalar(n) && Spells(Char(it, Done), [n])
    ensures it.IsJson() && it.Bytes(QUOTE) == CodepointToUtf8(n).value
  {
    if it.Pair? { CombineSurrogates(n); }
  }

  lemma {:induction false} SpelledItems(items: Items, ns: seq<int>)
    requires AllScalars(ns) && Spells(items, ns)
    ensures JsonItems(items) && ValidItems(items, QUOTE) && ItemsBytes(items, QUOTE) == Utf8(ns)
    decreases items
  {
    match items
    case Done =>
    case Char(it, rest) =>
      hide CodepointToUtf8, Item.Bytes, Item.Text;
      assert [ns[0]][1..] == [];
      SpelledItem(it, ns[0]);
      SpelledItems(rest, ns[1..]);
      JsonItemsValid(items);
  }

  /** A string of `\u` escapes decodes to the UTF-8 form of the scalar values, from which they can be read back. */
  lemma UnicodeEscapes(items: Items, ns: seq<int>)
    requires AllScalars(ns) && Spells(items, ns)
    ensures Decode(StringText(QUOTE, items)) == Ok(Str(Utf8(ns)), |StringText(QUOTE, items)|)
    ensures DecodeUtf8(Utf8(ns)) == Some(ns)
  {
    hide Decode, Spells;
    SpelledItems(items, ns);
    Utf8RoundTrip(ns);
    var x := SString(QUOTE, items);
    DecodeComplete([], x, []);
    assert [] + (Text(x) + []) == StringText(QUOTE, items);
  }

  // ---------------------------------------------------------------- where the code departs from its tables

  /** `\'` is listed among the escapes but has no inverse: after any valid text it stops the decoder. */
  lemma {:induction false} ApostropheEscapeFails(s: bytes, i: nat, items: Items, quote: byte, open: nat)
    requires IsQuote(quote) && ValidItems(items, quote)
    requires At(s, i, ItemsText(items) + [BACKSLASH, APOSTROPHE])
    ensures StringRest(s, i, quote, open) == Err(ConcatenateNil, i + |ItemsText(items)|)
    decreases items
  {
    hide At, Item.Text, Item.Bytes, Item.Valid, Hex.IsHigh;
    var tail := [BACKSLASH, APOSTROPHE];
    match items
    case Done =>
      assert ItemsText(items) + tail == [BACKSLASH] + ([APOSTROPHE] + []);
      AtByte(s, i, BACKSLASH, [APOSTROPHE] + []);
      AtByte(s, i + 1, APOSTROPHE, []);
    case Char(it, rest) =>
      AtRegroup(s, i, it.Text(), ItemsText(rest), tail);
      ApostropheEscapeFails(s, i + |it.Text()|, rest, quote, open);
      if it.Raw? {
        RawItem(s, i, it, quote);
      } else {
        if it.Uni? && it.h.IsHigh() { UniLength(it); NotUnicode(s, i + 6, rest, quote, tail); }
        EscapeItem(s, i, it, quote);
      }
  }
}
