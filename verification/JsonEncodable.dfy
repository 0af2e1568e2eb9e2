/** When encoding succeeds, and the strings it prints. */
module JsonEncodable {
  import opened Bytes
  import opened JsonGrammar
  import opened JsonEncodeSpec
  import opened HeapGraphs

  // ---------------------------------------------------------------- strings

  function ItemOf(c: byte): Item {
    if c == BACKSLASH || c == QUOTE then Short(c)
    else if c == 8 then Short(98)
    else if c == 12 then Short(102)
    else if c == 10 then Short(110)
    else if c == 13 then Short(114)
    else if c == 9 then Short(116)
    else if c < 32 then Uni(Hex(48, 48, HexLower(c / 16), HexLower(c % 16)))
    else Raw(c)
  }

  lemma ItemOfSound(c: byte)
    ensures ItemOf(c).IsJson() && ItemOf(c).Bytes(QUOTE) == [c]
    ensures ItemOf(c).Text() == if c < 32 || c == BACKSLASH || c == QUOTE then EscapeChar(c) else [c]
  {
    if ItemOf(c).Uni? { assert ItemOf(c).h.Value() == c; }
  }

  lemma EscapeStep(x: byte, t: bytes)
    ensures EscapeAll([x] + t) == (if x < 32 || x == BACKSLASH || x == QUOTE then EscapeChar(x) else [x]) + EscapeAll(t)
  {
    hide EscapeChar;
    assert ([x] + t)[1..] == t;
  }

  function ItemsOf(s: bytes): Items {
    if s == [] then Done else Char(ItemOf(s[0]), ItemsOf(s[1..]))
  }

  lemma {:induction false} ItemsOfSound(s: bytes)
    ensures JsonItems(ItemsOf(s)) && ValidItems(ItemsOf(s), QUOTE)
    ensures ItemsText(ItemsOf(s)) == EscapeAll(s) && ItemsBytes(ItemsOf(s), QUOTE) == s
    ensures StringText(QUOTE, ItemsOf(s)) == EncodeString(s)
  {
    hide ItemOf, Item.Bytes, Item.Text, Item.IsJson, Item.Valid, EscapeChar, Hex.IsHigh;
    if s != [] {
      ItemOfSound(s[0]);
      ItemsOfSound(s[1..]);
      assert [s[0]] + s[1..] == s;
      JsonItemsValid(ItemsOf(s));
    }
  }

  // ---------------------------------------------------------------- when encoding succeeds

  /** A table whose own shape and scalars encode_table accepts. */
  ghost predicate Encodable(h: Heap, id: nat)
    requires WellFormed(h) && id in h
  {
    && (if ArrayLike(h[id]) then AllNumeric(h[id].entries) && Length(h[id].entries) == h[id].border
        else AllStrings(h[id].entries))
    && forall k :: 0 <= k < |Visited(h, id)| ==> !Visited(h, id)[k].HOther? && !Visited(h, id)[k].HNotFinite?
  }

  ghost function EncodableIn(h: Heap): nat -> bool
    requires WellFormed(h)
  {
    (id: nat) => id in h && Encodable(h, id)
  }

  ghost predicate ValGood(h: Heap, v: HVal, stack: set<nat>)
    requires WellFormed(h) && ValOk(h, v)
  {
    !v.HOther? && !v.HNotFinite? && (v.HRef? ==> Sweep(h, v.id, stack, EncodableIn(h)))
  }

  ghost predicate AllGood(h: Heap, vs: seq<HVal>, stack: set<nat>)
    requires WellFormed(h) && Storable(h, vs)
  {
    forall k :: 0 <= k < |vs| ==> ValGood(h, vs[k], stack)
  }

  lemma AllGoodCons(h: Heap, v: HVal, vs: seq<HVal>, stack: set<nat>)
    requires WellFormed(h) && Storable(h, vs) && ValOk(h, v) && !v.HNil?
    ensures AllGood(h, [v] + vs, stack) <==> ValGood(h, v, stack) && AllGood(h, vs, stack)
  {
    hide ValGood;
    var all := [v] + vs;
    if AllGood(h, all, stack) {
      assert all[0] == v;
      forall k | 0 <= k < |vs| ensures ValGood(h, vs[k], stack) { assert all[k + 1] == vs[k]; }
    }
  }

  lemma {:induction false} ItemsGood(h: Heap, id: nat, i: nat, stack: set<nat>)
    requires WellFormed(h) && id in h && 1 <= i <= h[id].border + 1
    ensures Storable(h, ItemValues(h, id, i))
    ensures EncodeItems(h, id, i, stack).Good? <==> AllGood(h, ItemValues(h, id, i), stack)
    decreases h.Keys - stack, 2, h[id].border + 1 - i
  {
    hide ValGood, AllGood, Encode, Storable;
    ItemValuesOk(h, id, i);
    if HasIndex(h[id], i) {
      var v := Lookup(h[id].entries, Index(i)).value;
      LookupOk(h, h[id].entries, Index(i));
      EncodeGood(h, v, stack);
      ItemsGood(h, id, i + 1, stack);
      AllGoodCons(h, v, ItemValues(h, id, i + 1), stack);
    } else {
      NoneGood(h, stack);
    }
  }

  lemma NoneGood(h: Heap, stack: set<nat>)
    requires WellFormed(h)
    ensures Storable(h, []) && AllGood(h, [], stack)
  {}

  lemma {:induction false} FieldsGood(h: Heap, e: Entries, stack: set<nat>)
    requires WellFormed(h) && EntriesOk(h, e)
    ensures Storable(h, FieldValues(e))
    ensures EncodeFields(h, e, stack).Good? <==> AllStrings(e) && AllGood(h, FieldValues(e), stack)
    decreases h.Keys - stack, 2, e
  {
    hide ValGood, AllGood, Encode, Storable;
    FieldValuesOk(h, e);
    if e.Entry? {
      EncodeGood(h, e.val, stack);
      FieldsGood(h, e.rest, stack);
      AllGoodCons(h, e.val, FieldValues(e.rest), stack);
    } else {
      NoneGood(h, stack);
    }
  }

  /** The walk's view of the same condition. */
  lemma SweepTable(h: Heap, id: nat, stack: set<nat>)
    requires WellFormed(h) && id in h && Storable(h, Visited(h, id))
    ensures Sweep(h, id, stack, EncodableIn(h)) <==>
            && id !in stack
            && (if ArrayLike(h[id]) then AllNumeric(h[id].entries) && Length(h[id].entries) == h[id].border
                else AllStrings(h[id].entries))
            && AllGood(h, Visited(h, id), stack + {id})
  {
    hide Visited;
    var vs := Visited(h, id);
    if AllGood(h, vs, stack + {id}) {
      forall c | c in Kids(h, id) && c in h ensures Sweep(h, c, stack + {id}, EncodableIn(h)) {
        var k: nat :| k < |vs| && vs[k].HRef? && vs[k].id == c;
        assert ValGood(h, vs[k], stack + {id});
      }
    }
    if Sweep(h, id, stack, EncodableIn(h)) {
      forall k | 0 <= k < |vs| ensures ValGood(h, vs[k], stack + {id}) {
        if vs[k].HRef? { assert vs[k].id in Kids(h, id); }
      }
    }
  }

  lemma {:induction false} EncodeGood(h: Heap, v: HVal, stack: set<nat>)
    requires WellFormed(h) && ValOk(h, v)
    ensures Encode(h, v, stack).Good? <==> ValGood(h, v, stack)
    decreases h.Keys - stack, 1
  {
    if v.HRef? {
      hide AllGood, Sweep, EncodeItems, EncodeFields, Storable;
      var id := v.id;
      VisitedOk(h, id);
      SweepTable(h, id, stack);
      if id !in stack {
        if ArrayLike(h[id]) {
          ItemsGood(h, id, 1, stack + {id});
        } else {
          FieldsGood(h, h[id].entries, stack + {id});
        }
      }
    }
  }

  /** json.encode succeeds exactly when every reachable table has an acceptable shape, no reachable
      value is of an unexpected type, and no reachable table lies on a cycle. */
  lemma EncodeExact(h: Heap, v: HVal)
    requires WellFormed(h) && ValOk(h, v)
    ensures Encode(h, v, {}).Good? <==>
            && !v.HOther? && !v.HNotFinite?
            && (v.HRef? ==> forall r :: Reaches(h, v.id, r) && r in h ==> Encodable(h, r) && !OnCycle(h, r))
  {
    EncodeGood(h, v, {});
    if v.HRef? { SweepExact(h, v.id, {}, EncodableIn(h)); }
  }
}
