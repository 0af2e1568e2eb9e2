/** How json.encode spells values, and why it refuses some. */
module JsonPrinting {
  import opened Bytes
  import opened LuaValue
  import opened Numerals
  import opened Unicode
  import opened JsonLexis
  import opened JsonGrammar
  import opened JsonCharacters
  import opened JsonEncodeSpec
  import opened HeapGraphs
  import opened JsonEncodable

  // ---------------------------------------------------------------- strings

  lemma {:induction false} EscapeConcat(a: bytes, b: bytes)
    ensures EscapeAll(a + b) == EscapeAll(a) + EscapeAll(b)
    decreases |a|
  {
    hide EscapeChar, EscapeAll;
    if a == [] {
      assert [] + b == b && EscapeAll([]) + EscapeAll(b) == EscapeAll(b) by { EscapeEmpty(); }
    } else {
      var x, t := a[0], a[1..];
      EscapeConcat(t, b);
      assert a == [x] + t && a + b == [x] + (t + b);
      EscapeStep(x, t);
      EscapeStep(x, t + b);
    }
  }

  lemma EscapeEmpty()
    ensures EscapeAll([]) == []
  {}

  lemma EscapeByte(c: byte)
    ensures EscapeAll([c]) == if c < 32 || c == BACKSLASH || c == QUOTE then EscapeChar(c) else [c]
  {
    assert [c][1..] == [] && EscapeAll([]) == [];
  }

  /** Bytes that are not escaped. */
  lemma {:induction false} EscapeNone(s: bytes)
    requires forall k :: 0 <= k < |s| ==> s[k] >= 128
    ensures EscapeAll(s) == s
  {
    if s != [] {
      EscapeNone(s[1..]);
      assert [s[0]] + s[1..] == s;
    }
  }

  lemma ShortestCodepoint(n: nat)
    requires n <= 0x10ffff
    ensures |EscapeAll(CodepointToUtf8(n).value)| <= if n <= 0xffff then 6 else 12
  {
    hide EscapeAll;
    var s := CodepointToUtf8(n).value;
    if n <= 0x7f { EscapeByte(n); } else { EscapeNone(s); }
  }

  lemma ShortestItem(it: Item)
    requires it.Valid(QUOTE)
    ensures |EscapeAll(it.Bytes(QUOTE))| <= |it.Text()|
  {
    hide EscapeAll, CodepointToUtf8;
    match it
    case Raw(b) => EscapeByte(b);
    case Short(c) => EscapeByte(Unescape(c).value);
    case Uni(h) => ShortestCodepoint(h.Value());
    case Pair(hi, lo) => ShortestCodepoint(Combine(hi.Value(), lo.Value()));
  }

  lemma {:induction false} ShortestItems(items: Items)
    requires ValidItems(items, QUOTE)
    ensures |EscapeAll(ItemsBytes(items, QUOTE))| <= |ItemsText(items)|
  {
    hide Item.Text, Item.Bytes, Item.Valid, Hex.IsHigh;
    match items
    case Done =>
    case Char(it, rest) =>
      ShortestItem(it);
      ShortestItems(rest);
      EscapeConcat(it.Bytes(QUOTE), ItemsBytes(rest, QUOTE));
  }

  /** No JSON string that stands for `s` is shorter than the printed one. */
  lemma ShortestString(items: Items)
    requires ValidItems(items, QUOTE)
    ensures |EncodeString(ItemsBytes(items, QUOTE))| <= |StringText(QUOTE, items)|
  {
    ShortestItems(items);
  }

  predicate IsCapital(b: byte) { 'A' as int <= b <= 'Z' as int }

  /** Hexadecimal digits are printed in lower case. */
  lemma EscapesInLowerCase(c: byte)
    requires !IsCapital(c)
    ensures forall b :: b in EscapeAll([c]) ==> !IsCapital(b)
  {
    EscapeByte(c);
    hide EscapeAll;
  }

  // ---------------------------------------------------------------- tables

  lemma {:induction false} AllNumericIs(h: Heap, e: Entries)
    requires EntriesOk(h, e)
    ensures AllNumeric(e) <==> forall k :: Lookup(e, k).Some? ==> k.KNum?
  {
    if e.Entry? {
      AllNumericIs(h, e.rest);
      assert Lookup(e, e.key).Some?;
      forall k ensures Lookup(e, k).Some? <==> k == e.key || Lookup(e.rest, k).Some? {}
    }
  }

  lemma {:induction false} AllStringsIs(h: Heap, e: Entries)
    requires EntriesOk(h, e)
    ensures AllStrings(e) <==> forall k :: Lookup(e, k).Some? ==> k.KStr?
  {
    if e.Entry? {
      AllStringsIs(h, e.rest);
      assert Lookup(e, e.key).Some?;
      forall k ensures Lookup(e, k).Some? <==> k == e.key || Lookup(e.rest, k).Some? {}
    }
  }

  /** `keys` are the keys of the entries. */
  ghost predicate KeysAre(e: Entries, keys: set<Key>) { forall k :: k in keys <==> Lookup(e, k).Some? }

  lemma {:induction false} LengthIsCount(h: Heap, e: Entries, keys: set<Key>)
    requires EntriesOk(h, e) && KeysAre(e, keys)
    ensures Length(e) == |keys|
    decreases e
  {
    if e.Entry? {
      assert Lookup(e, e.key).Some?;
      forall k ensures k in keys - {e.key} <==> Lookup(e.rest, k).Some? {
        assert Lookup(e, k).Some? <==> k == e.key || Lookup(e.rest, k).Some?;
      }
      LengthIsCount(h, e.rest, keys - {e.key});
    } else {
      assert keys == {} by { forall k ensures k !in keys {} }
    }
  }

  /** The shapes encode_table takes, by the keys: a table that is empty or has the key 1 must have numbers
      only, as many as its border says; any other must have strings only. */
  lemma ShapeExact(h: Heap, id: nat, keys: set<Key>)
    requires WellFormed(h) && id in h && KeysAre(h[id].entries, keys)
    ensures Encodable(h, id) <==>
            && (if keys == {} || KNum(1.0) in keys then (forall k :: k in keys ==> k.KNum?) && |keys| == h[id].border
                else forall k :: k in keys ==> k.KStr?)
            && forall k :: 0 <= k < |Visited(h, id)| ==> !Visited(h, id)[k].HOther? && !Visited(h, id)[k].HNotFinite?
  {
    hide Visited, Lookup, AllNumeric, AllStrings;
    var e := h[id].entries;
    AllNumericIs(h, e);
    AllStringsIs(h, e);
    LengthIsCount(h, e, keys);
    EmptyKeys(e, keys);
  }

  lemma EmptyKeys(e: Entries, keys: set<Key>)
    requires KeysAre(e, keys)
    ensures keys == {} <==> e.Empty?
    ensures KNum(1.0) in keys <==> Lookup(e, Index(1)).Some?
  {
    if e.Entry? { assert Lookup(e, e.key).Some?; }
  }

  // ---------------------------------------------------------------- why encoding fails

  /** What is wrong with a table that is walked over while those of `stack` are open. */
  ghost predicate TableFault(h: Heap, id: nat, stack: set<nat>, why: Failure)
    requires WellFormed(h) && id in h
  {
    match why
    case CircularReference => id in stack || OnCycle(h, id)
    case MixedKeys => if ArrayLike(h[id]) then !AllNumeric(h[id].entries) else !AllStrings(h[id].entries)
    case SparseArray => ArrayLike(h[id]) && AllNumeric(h[id].entries) && Length(h[id].entries) != h[id].border
    case NumberNotFinite => HNotFinite in Visited(h, id)
    case UnexpectedType => HOther in Visited(h, id)
  }

  ghost predicate Fault(h: Heap, v: HVal, stack: set<nat>, why: Failure)
    requires WellFormed(h)
  {
    || (why.NumberNotFinite? && v.HNotFinite?) || (why.UnexpectedType? && v.HOther?)
    || (v.HRef? && exists r :: Reaches(h, v.id, r) && r in h && TableFault(h, r, stack, why))
  }

  /** A fault of something in a table is a fault of the table. */
  lemma FaultInside(h: Heap, id: nat, stack: set<nat>, v: HVal, why: Failure)
    requires WellFormed(h) && id in h && v in Visited(h, id) && Fault(h, v, stack + {id}, why)
    ensures Fault(h, HRef(id), stack, why)
  {
    hide Visited;
    ReachSelf(h, id);
    if v.HRef? {
      VisitedOk(h, id);
      var k: nat :| k < |Visited(h, id)| && Visited(h, id)[k] == v;
      assert v.id in Kids(h, id);
      var r :| Reaches(h, v.id, r) && r in h && TableFault(h, r, stack + {id}, why);
      ReachStep(h, id, v.id, r);
      if why.CircularReference? && r == id { assert OnCycle(h, id); }
      assert TableFault(h, r, stack, why);
    } else {
      assert TableFault(h, id, stack, why);
    }
  }

  lemma {:induction false} ItemsFault(h: Heap, id: nat, i: nat, stack: set<nat>) returns (v: HVal)
    requires WellFormed(h) && id in h && 1 <= i <= h[id].border + 1 && EncodeItems(h, id, i, stack).Bad?
    ensures v in ItemValues(h, id, i) && Fault(h, v, stack, EncodeItems(h, id, i, stack).why)
    decreases h.Keys - stack, 2, h[id].border + 1 - i
  {
    hide Fault, Encode;
    v := Lookup(h[id].entries, Index(i)).value;
    LookupOk(h, h[id].entries, Index(i));
    if Encode(h, v, stack).Bad? {
      EncodeFault(h, v, stack);
    } else {
      v := ItemsFault(h, id, i + 1, stack);
    }
  }

  lemma {:induction false} FieldsFault(h: Heap, e: Entries, stack: set<nat>) returns (v: HVal)
    requires WellFormed(h) && EntriesOk(h, e) && EncodeFields(h, e, stack).Bad?
    ensures (EncodeFields(h, e, stack).why == MixedKeys && !AllStrings(e))
            || (v in FieldValues(e) && Fault(h, v, stack, EncodeFields(h, e, stack).why))
    decreases h.Keys - stack, 2, e
  {
    hide Fault, Encode;
    v := e.val;
    if e.key.KStr? {
      if Encode(h, e.val, stack).Bad? {
        EncodeFault(h, e.val, stack);
      } else {
        v := FieldsFault(h, e.rest, stack);
      }
    }
  }

  lemma {:induction false} EncodeFault(h: Heap, v: HVal, stack: set<nat>)
    requires WellFormed(h) && ValOk(h, v) && Encode(h, v, stack).Bad?
    ensures Fault(h, v, stack, Encode(h, v, stack).why)
    decreases h.Keys - stack, 1
  {
    if v.HRef? {
      hide EncodeItems, EncodeFields, ItemValues, FieldValues;
      var id, why := v.id, Encode(h, v, stack).why;
      ReachSelf(h, id);
      if id in stack {
        assert TableFault(h, id, stack, CircularReference);
      } else if ArrayLike(h[id]) {
        if AllNumeric(h[id].entries) && Length(h[id].entries) == h[id].border {
          var x := ItemsFault(h, id, 1, stack + {id});
          FaultInside(h, id, stack, x, why);
        } else {
          assert TableFault(h, id, stack, why);
        }
      } else {
        var x := FieldsFault(h, h[id].entries, stack + {id});
        if why == MixedKeys && !AllStrings(h[id].entries) {
          assert TableFault(h, id, stack, why);
        } else {
          FaultInside(h, id, stack, x, why);
        }
      }
    }
  }

  /** When json.encode fails, the value itself or a table that can be reached is at fault, in the way the
      error says. */
  lemma FailureExplained(h: Heap, v: HVal)
    requires WellFormed(h) && ValOk(h, v) && Encode(h, v, {}).Bad?
    ensures var why := Encode(h, v, {}).why;
            || (why.NumberNotFinite? && v.HNotFinite?) || (why.UnexpectedType? && v.HOther?)
            || (v.HRef? && exists r :: Reaches(h, v.id, r) && r in h && TableFault(h, r, {}, why))
  {
    hide Encode, TableFault;
    EncodeFault(h, v, {});
  }

  lemma EmptyTable(h: Heap, id: nat)
    requires WellFormed(h) && id in h && h[id].entries.Empty?
    ensures Encode(h, HRef(id), {}) == Good(Ascii("[]"))
  {
    assert h[id].border == 0;
    assert EncodeItems(h, id, 1, {} + {id}) == Good([]);
    assert EncodeTable(h, id, {}) == Good([LBRACKET] + (Concat([]) + [RBRACKET]));
    assert [LBRACKET] + ([] + [RBRACKET]) == Ascii("[]");
  }

  /** Fields are printed in the order `pairs` yields them. */
  lemma TwoFields(h: Heap, id: nat, a: bytes, v: HVal, b: bytes, w: HVal)
    requires WellFormed(h) && id in h && h[id].entries == Entry(KStr(a), v, Entry(KStr(b), w, Empty))
    requires ValOk(h, v) && ValOk(h, w)
    requires Encode(h, v, {id}).Good? && Encode(h, w, {id}).Good?
    ensures Encode(h, HRef(id), {})
         == Good(Ascii("{") + (EncodeString(a) + Ascii(":") + Encode(h, v, {id}).value)
                 + Ascii(",") + (EncodeString(b) + Ascii(":") + Encode(h, w, {id}).value) + Ascii("}"))
  {
    hide Encode, EncodeString;
    var x, y := Encode(h, v, {id}).value, Encode(h, w, {id}).value;
    var p, q := EncodeString(a) + ([COLON] + x), EncodeString(b) + ([COLON] + y);
    assert {} + {id} == {id};
    assert EncodeFields(h, Empty, {id}) == Good([]);
    assert EncodeFields(h, h[id].entries.rest, {id}) == Good([q]) by { assert [q] + [] == [q]; }
    assert EncodeFields(h, h[id].entries, {id}) == Good([p, q]) by { assert [p] + [q] == [p, q]; }
    assert Concat([p, q]) == p + ([COMMA] + q) by { assert [p, q][1..] == [q]; }
    EncodesTable(h, id);
    assert !ArrayLike(h[id]) by { NoIndex(a, v, b, w); }
    assert EncodeTable(h, id, {}) == Good([LBRACE] + (Concat([p, q]) + [RBRACE]));
    assert [LBRACE] + ((p + ([COMMA] + q)) + [RBRACE])
        == [LBRACE] + (EncodeString(a) + [COLON] + x) + [COMMA] + (EncodeString(b) + [COLON] + y) + [RBRACE];
    assert Ascii("{") == [LBRACE] && Ascii("}") == [RBRACE] && Ascii(":") == [COLON] && Ascii(",") == [COMMA];
  }

  lemma NoIndex(a: bytes, v: HVal, b: bytes, w: HVal)
    ensures Lookup(Entry(KStr(a), v, Entry(KStr(b), w, Empty)), Index(1)).None?
  {
    assert Lookup(Empty, Index(1)).None?;
    assert Lookup(Entry(KStr(b), w, Empty), Index(1)).None?;
  }

  lemma EncodesTable(h: Heap, id: nat)
    requires WellFormed(h) && id in h
    ensures Encode(h, HRef(id), {}) == EncodeTable(h, id, {})
  {}

  /** Integers are printed in decimal, without leading zeros and with a minus only below zero. */
  lemma Integers(n: nat, d: nat)
    requires d < 10
    ensures IntNumeral(d).Text() == [48 + d]
    ensures n > 0 ==> IntNumeral(10 * n + d).Text() == IntNumeral(n).Text() + [48 + d]
    ensures n > 0 ==> IntNumeral(0 - n).Text() == Ascii("-") + IntNumeral(n).Text()
  {
    hide IntNumeral, Numeral.Text, NatDigits, Ascii;
    IntegerText(n);
    IntegerText(10 * n + d);
    IntegerText(d);
    DigitsOf(n, d);
    MinusText();
  }

  lemma MinusText()
    ensures Ascii("-") == [MINUS]
  {}

  lemma DigitsOf(n: nat, d: nat)
    requires d < 10
    ensures NatDigits(d) == [48 + d]
    ensures n > 0 ==> NatDigits(10 * n + d) == NatDigits(n) + [48 + d]
  {
    assert (10 * n + d) / 10 == n && (10 * n + d) % 10 == d;
  }

  lemma IntegerText(n: nat)
    ensures IntNumeral(n).Text() == NatDigits(n)
    ensures n > 0 ==> IntNumeral(0 - n).Text() == [MINUS] + NatDigits(n)
  {
    hide NatDigits;
    assert [] + (NatDigits(n) + ([] + [])) == NatDigits(n);
    assert [MINUS] + (NatDigits(n) + ([] + [])) == [MINUS] + NatDigits(n);
  }

  lemma Scalars(h: Heap)
    requires WellFormed(h)
    ensures Encode(h, HNil, {}) == Good(Ascii("null"))
    ensures Encode(h, HBool(true), {}) == Good(Ascii("true"))
    ensures Encode(h, HBool(false), {}) == Good(Ascii("false"))
  {
    assert Ascii("null") == NULL && Ascii("true") == TRUE && Ascii("false") == FALSE;
  }
}
