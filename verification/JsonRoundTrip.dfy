/** encode followed by decode: the output is JSON, and decoding gives the encoded value back. */
module JsonRoundTrip {
  import opened Options
  import opened Bytes
  import opened LuaValue
  import opened Numerals
  import opened JsonLexis
  import opened JsonSpec
  import opened JsonGrammar
  import opened JsonComplete
  import opened JsonMeaning
  import opened JsonEncodeSpec
  import opened HeapGraphs
  import opened JsonEncodable

  // ---------------------------------------------------------------- values of a heap

  /** `val` is the value `v` has in the heap, tables unfolded: same keys, and the same value at each. */
  ghost predicate Represents(h: Heap, v: HVal, val: Value)
    decreases val
  {
    match v
    case HNil => val == Nil
    case HBool(b) => val == Bool(b)
    case HInt(n) => val == Num(n as real)
    case HStr(s) => val == Str(s)
    case HRef(id) =>
      && id in h && val.Table?
      && (forall k :: k in val.fields <==> Lookup(h[id].entries, k).Some?)
      && (forall k :: k in val.fields ==> Represents(h, Lookup(h[id].entries, k).value, val.fields[k]))
    case _ => false
  }

  /** A value of the heap has at most one unfolding. */
  lemma {:induction false} RepresentsUnique(h: Heap, v: HVal, a: Value, b: Value)
    requires Represents(h, v, a) && Represents(h, v, b)
    ensures a == b
    decreases a
  {
    if v.HRef? {
      assert a.fields.Keys == b.fields.Keys;
      forall k | k in a.fields ensures a.fields[k] == b.fields[k] {
        RepresentsUnique(h, Lookup(h[v.id].entries, k).value, a.fields[k], b.fields[k]);
      }
    }
  }

  /** An array-like table hides no entry: every key is an index before the first hole. */
  ghost predicate Dense(h: Heap, id: nat)
    requires WellFormed(h) && id in h
  {
    ArrayLike(h[id]) ==>
      forall key :: Lookup(h[id].entries, key).Some? ==>
        IndexOf(key).Some? && 1 <= IndexOf(key).value <= |ItemValues(h, id, 1)|
  }

  ghost function DenseIn(h: Heap): nat -> bool
    requires WellFormed(h)
  {
    (id: nat) => id in h && Dense(h, id)
  }

  ghost predicate ValDense(h: Heap, v: HVal, stack: set<nat>)
    requires WellFormed(h) && ValOk(h, v)
  {
    v.HRef? ==> Sweep(h, v.id, stack, DenseIn(h))
  }

  // ---------------------------------------------------------------- the printed tree

  /** `x` is a JSON tree with text `t`; its value represents `v` if and only if no reachable table hides entries. */
  ghost predicate Prints(h: Heap, v: HVal, stack: set<nat>, t: bytes, x: Syntax)
    requires WellFormed(h) && ValOk(h, v)
  {
    && IsJson(x) && Valid(x) && Text(x) == t
    && (!v.HNil? ==> !Denote(x).Nil?)
    && (Represents(h, v, Denote(x)) <==> ValDense(h, v, stack))
  }

  /** The same for a list of values and the values of an array's elements. */
  ghost predicate PrintsAll(h: Heap, vs: seq<HVal>, stack: set<nat>, ds: seq<Value>)
    requires WellFormed(h) && Storable(h, vs)
  {
    && |ds| == |vs|
    && forall k :: 0 <= k < |vs| ==>
         !ds[k].Nil? && (Represents(h, vs[k], ds[k]) <==> ValDense(h, vs[k], stack))
  }

  lemma PrintsAllCons(h: Heap, v: HVal, d: Value, vs: seq<HVal>, stack: set<nat>, ds: seq<Value>)
    requires WellFormed(h) && Storable(h, vs) && ValOk(h, v) && !v.HNil?
    requires PrintsAll(h, vs, stack, ds) && !d.Nil? && (Represents(h, v, d) <==> ValDense(h, v, stack))
    ensures Storable(h, [v] + vs) && PrintsAll(h, [v] + vs, stack, [d] + ds)
  {
    hide Represents, ValDense;
  }

  lemma IntPrints(h: Heap, n: int, stack: set<nat>)
    requires WellFormed(h) && ValOk(h, HInt(n))
    ensures Prints(h, HInt(n), stack, IntNumeral(n).Text(), SNumber(IntNumeral(n).Text()))
  {
    hide ToNumber;
    IntNumeralRoundTrip(n);
    JsonNumberValid(IntNumeral(n));
  }

  lemma StringPrints(h: Heap, s: bytes, stack: set<nat>)
    requires WellFormed(h)
    ensures Prints(h, HStr(s), stack, EncodeString(s), SString(QUOTE, ItemsOf(s)))
  {
    ItemsOfSound(s);
  }

  lemma {:induction false} EncodePrints(h: Heap, v: HVal, stack: set<nat>) returns (x: Syntax)
    requires WellFormed(h) && ValOk(h, v) && Encode(h, v, stack).Good?
    ensures Prints(h, v, stack, Encode(h, v, stack).value, x)
    decreases h.Keys - stack, 1
  {
    match v
    case HNil => x := SNull;
    case HBool(b) => x := SBool(b);
    case HInt(n) =>
      x := SNumber(IntNumeral(n).Text());
      IntPrints(h, n, stack);
    case HStr(s) =>
      x := SString(QUOTE, ItemsOf(s));
      StringPrints(h, s, stack);
    case HRef(id) =>
      if ArrayLike(h[id]) {
        x := ArrayPrints(h, id, stack);
      } else {
        x := ObjectPrints(h, id, stack);
      }
  }

  // ---------------------------------------------------------------- arrays

  lemma {:induction false} ItemsPrint(h: Heap, id: nat, i: nat, stack: set<nat>) returns (a: Elements)
    requires WellFormed(h) && id in h && 1 <= i <= h[id].border + 1 && EncodeItems(h, id, i, stack).Good?
    ensures JsonElements(a) && ValidElements(a)
    ensures ElementsText(a) == Concat(EncodeItems(h, id, i, stack).value) + [RBRACKET]
    ensures a.End? <==> EncodeItems(h, id, i, stack).value == []
    ensures Storable(h, ItemValues(h, id, i)) && PrintsAll(h, ItemValues(h, id, i), stack, Values(a))
    decreases h.Keys - stack, 2, h[id].border + 1 - i
  {
    hide Encode, Represents, ValDense, Denote, PrintsAll, Storable, Text, IsJson, Valid;
    if HasIndex(h[id], i) {
      var v := Lookup(h[id].entries, Index(i)).value;
      LookupOk(h, h[id].entries, Index(i));
      var x := EncodePrints(h, v, stack);
      var rest := ItemsPrint(h, id, i + 1, stack);
      var ps := EncodeItems(h, id, i + 1, stack).value;
      PrintsAllCons(h, v, Denote(x), ItemValues(h, id, i + 1), stack, Values(rest));
      ElementText(x, rest, ps);
      a := if rest.End? then Last([], x, []) else More([], x, [], rest);
      assert rest.End? ==> [Denote(x)] + Values(rest) == [Denote(x)];
    } else {
      a := End([]);
      NoValues(h, stack);
    }
  }

  lemma NoValues(h: Heap, stack: set<nat>)
    requires WellFormed(h)
    ensures Storable(h, []) && PrintsAll(h, [], stack, [])
  {}

  lemma ElementText(x: Syntax, rest: Elements, ps: seq<bytes>)
    requires ElementsText(rest) == Concat(ps) + [RBRACKET] && (rest.End? <==> ps == [])
    ensures ElementsText(if rest.End? then Last([], x, []) else More([], x, [], rest))
         == Concat([Text(x)] + ps) + [RBRACKET]
  {
    hide Text;
    var all := [Text(x)] + ps;
    if ps != [] {
      assert all[1..] == ps;
      assert Concat(all) + [RBRACKET] == Text(x) + ([COMMA] + (Concat(ps) + [RBRACKET]));
    }
  }

  lemma {:induction false} ItemValuesAt(h: Heap, id: nat, i: nat, k: nat)
    requires WellFormed(h) && id in h && 1 <= i <= h[id].border + 1 && k < |ItemValues(h, id, i)|
    ensures Lookup(h[id].entries, Index(i + k)) == Some(ItemValues(h, id, i)[k])
    decreases k
  {
    if k > 0 { ItemValuesAt(h, id, i + 1, k - 1); }
  }

  lemma ArrayPrints(h: Heap, id: nat, stack: set<nat>) returns (x: Syntax)
    requires WellFormed(h) && id in h && ArrayLike(h[id]) && EncodeTable(h, id, stack).Good?
    ensures Prints(h, HRef(id), stack, EncodeTable(h, id, stack).value, x)
    decreases h.Keys - stack, 0
  {
    hide Represents, ValDense, PrintsAll, Storable, Values, Denote, EncodeItems;
    var a := ItemsPrint(h, id, 1, stack + {id});
    x := SArray(a);
    assert IsJson(x) && Valid(x) && Text(x) == EncodeTable(h, id, stack).value;
    ArrayMeaning(a);
    ArrayRepresents(h, id, stack, a);
  }

  /** `d` is the decoded form of the array-like table `id`: its fields are the values `ds`, which stand for
      the table's values `vs` one by one. */
  ghost predicate DecodedArray(h: Heap, id: nat, stack: set<nat>, vs: seq<HVal>, ds: seq<Value>, d: Value)
    requires WellFormed(h) && id in h
  {
    && vs == ItemValues(h, id, 1) && Storable(h, vs) && PrintsAll(h, vs, stack + {id}, ds) && d.Table?
    && (forall k: nat :: k < |vs| ==> Lookup(h[id].entries, KNum((k + 1) as real)) == Some(vs[k]))
    && (forall key :: key in d.fields ==> var m := IndexOf(key); m.Some? && 1 <= m.value <= |vs|)
    && (forall k: nat :: k < |vs| ==> FieldAt(d, k) == Some(ds[k]))
  }

  /** Field `k + 1` of a table, if there is one. */
  function FieldAt(d: Value, k: nat): Option<Value>
    requires d.Table?
  {
    if KNum((k + 1) as real) in d.fields then Some(d.fields[KNum((k + 1) as real)]) else None
  }

  lemma ArrayDecoded(h: Heap, id: nat, stack: set<nat>, a: Elements)
    requires WellFormed(h) && id in h && ArrayLike(h[id]) && id !in stack && ValidElements(a)
    requires Storable(h, ItemValues(h, id, 1)) && PrintsAll(h, ItemValues(h, id, 1), stack + {id}, Values(a))
    ensures DecodedArray(h, id, stack, ItemValues(h, id, 1), Values(a), Denote(SArray(a)))
  {
    hide Denote, ItemValues, Values, ValidElements, Represents, ValDense;
    ArrayMeaning(a);
    var vs, ds, d := ItemValues(h, id, 1), Values(a), Denote(SArray(a));
    forall k: nat | k < |vs| ensures Lookup(h[id].entries, KNum((k + 1) as real)) == Some(vs[k]) {
      ItemValuesAt(h, id, 1, k);
    }
    forall k: nat | k < |vs| ensures FieldAt(d, k) == Some(ds[k]) {
      assert !ds[k].Nil?;
    }
  }

  lemma FieldsRepresented(h: Heap, id: nat, stack: set<nat>, vs: seq<HVal>, ds: seq<Value>, d: Value)
    requires WellFormed(h) && id in h && ArrayLike(h[id]) && DecodedArray(h, id, stack, vs, ds, d)
    requires forall c :: c in Kids(h, id) ==> Sweep(h, c, stack + {id}, DenseIn(h))
    ensures forall key :: key in d.fields && Lookup(h[id].entries, key).Some?
              ==> Represents(h, Lookup(h[id].entries, key).value, d.fields[key])
  {
    hide Represents, ItemValues, Sweep;
    forall key | key in d.fields && Lookup(h[id].entries, key).Some?
      ensures Represents(h, Lookup(h[id].entries, key).value, d.fields[key])
    {
      var k: nat := IndexOf(key).value - 1;
      assert key == KNum((k + 1) as real);
      assert FieldAt(d, k) == Some(ds[k]);
      if vs[k].HRef? { assert vs[k].id in Kids(h, id); }
      assert ValDense(h, vs[k], stack + {id});
    }
  }

  lemma KidsDense(h: Heap, id: nat, stack: set<nat>, vs: seq<HVal>, ds: seq<Value>, d: Value)
    requires WellFormed(h) && id in h && ArrayLike(h[id]) && DecodedArray(h, id, stack, vs, ds, d)
    requires forall key :: key in d.fields && Lookup(h[id].entries, key).Some?
               ==> Represents(h, Lookup(h[id].entries, key).value, d.fields[key])
    ensures forall c :: c in Kids(h, id) ==> Sweep(h, c, stack + {id}, DenseIn(h))
  {
    hide Represents, ItemValues, Sweep;
    forall c | c in Kids(h, id) ensures Sweep(h, c, stack + {id}, DenseIn(h)) {
      var k: nat :| k < |vs| && vs[k].HRef? && vs[k].id == c;
      assert FieldAt(d, k) == Some(ds[k]);
      assert Represents(h, vs[k], d.fields[KNum((k + 1) as real)]);
      assert ValDense(h, vs[k], stack + {id});
    }
  }

  lemma ArrayRepresents(h: Heap, id: nat, stack: set<nat>, a: Elements)
    requires WellFormed(h) && id in h && ArrayLike(h[id]) && id !in stack && ValidElements(a)
    requires Storable(h, ItemValues(h, id, 1)) && PrintsAll(h, ItemValues(h, id, 1), stack + {id}, Values(a))
    ensures Represents(h, HRef(id), Denote(SArray(a))) <==> ValDense(h, HRef(id), stack)
  {
    hide Denote, ItemValues, Values, ValidElements, ValDense;
    var vs, ds, d := ItemValues(h, id, 1), Values(a), Denote(SArray(a));
    ArrayDecoded(h, id, stack, a);
    ArrayKeys(h, id, vs, ds, d);
    ValDenseIs(h, id, stack);
    if Represents(h, HRef(id), d) { KidsDense(h, id, stack, vs, ds, d); }
    if ValDense(h, HRef(id), stack) { FieldsRepresented(h, id, stack, vs, ds, d); }
  }

  lemma ValDenseIs(h: Heap, id: nat, stack: set<nat>)
    requires WellFormed(h) && id in h && id !in stack
    ensures ValDense(h, HRef(id), stack)
            <==> Dense(h, id) && forall c :: c in Kids(h, id) ==> Sweep(h, c, stack + {id}, DenseIn(h))
  {
    hide Dense, Kids;
  }

  /** The decoded array has the table's keys exactly when the table hides none. */
  lemma ArrayKeys(h: Heap, id: nat, vs: seq<HVal>, ds: seq<Value>, d: Value)
    requires WellFormed(h) && id in h && ArrayLike(h[id]) && vs == ItemValues(h, id, 1) && |ds| == |vs| && d.Table?
    requires forall k: nat :: k < |vs| ==> !ds[k].Nil?
    requires forall k: nat :: k < |vs| ==> Lookup(h[id].entries, KNum((k + 1) as real)) == Some(vs[k])
    requires forall key :: key in d.fields ==> var m := IndexOf(key); m.Some? && 1 <= m.value <= |ds|
    requires forall k: nat :: k < |ds| ==> (KNum((k + 1) as real) in d.fields <==> !ds[k].Nil?)
    ensures (forall key :: key in d.fields <==> Lookup(h[id].entries, key).Some?) <==> Dense(h, id)
  {
    hide ItemValues;
    forall key | IndexOf(key).Some? && 1 <= IndexOf(key).value <= |vs|
      ensures key in d.fields && Lookup(h[id].entries, key).Some?
    {
      var k: nat := IndexOf(key).value - 1;
      assert key == KNum((k + 1) as real);
      assert !ds[k].Nil? && Lookup(h[id].entries, KNum((k + 1) as real)) == Some(vs[k]);
    }
  }

  // ---------------------------------------------------------------- objects

  /** Keys are looked up alike in the entries and in the printed members. */
  ghost predicate SameFields(h: Heap, e: Entries, stack: set<nat>, o: Members)
    requires WellFormed(h) && EntriesOk(h, e) && ValidMembers(o)
  {
    forall key :: Lookup(e, KStr(key)).Some? == LastFor(o, key).Some? &&
      (LastFor(o, key).Some? ==>
        LookupVal(h, e, KStr(key)) &&
        !LastFor(o, key).value.Nil? &&
        (Represents(h, Lookup(e, KStr(key)).value, LastFor(o, key).value)
         <==> ValDense(h, Lookup(e, KStr(key)).value, stack)))
  }

  predicate LookupVal(h: Heap, e: Entries, k: Key)
    requires EntriesOk(h, e)
    ensures LookupVal(h, e, k) && Lookup(e, k).Some? ==> ValOk(h, Lookup(e, k).value)
  {
    Lookup(e, k).Some? ==> ValOk(h, Lookup(e, k).value)
  }

  lemma FieldText(k: bytes, x: Syntax, rest: Members, ps: seq<bytes>, m: Member)
    requires MembersText(rest) == Concat(ps) + [RBRACE] && (rest.EndM? <==> ps == [])
    requires m == Member([], QUOTE, ItemsOf(k), [], [], x, [])
    ensures MembersText(if rest.EndM? then LastM(m) else MoreM(m, rest))
         == Concat([EncodeString(k) + ([COLON] + Text(x))] + ps) + [RBRACE]
  {
    hide Text, EncodeString, StringText;
    ItemsOfSound(k);
    var p := EncodeString(k) + ([COLON] + Text(x));
    assert MemberText(m) == p;
    var all := [p] + ps;
    if ps != [] {
      assert all[1..] == ps;
      assert Concat(all) + [RBRACE] == p + ([COMMA] + (Concat(ps) + [RBRACE]));
    }
  }

  lemma {:induction false} FieldsPrint(h: Heap, e: Entries, stack: set<nat>) returns (o: Members)
    requires WellFormed(h) && EntriesOk(h, e) && EncodeFields(h, e, stack).Good?
    ensures AllStrings(e) && JsonMembers(o) && ValidMembers(o)
    ensures MembersText(o) == Concat(EncodeFields(h, e, stack).value) + [RBRACE]
    ensures o.EndM? <==> EncodeFields(h, e, stack).value == []
    ensures SameFields(h, e, stack, o)
    decreases h.Keys - stack, 2, e
  {
    hide Encode, Represents, ValDense, Denote, Text, IsJson, Valid, SameFields, EncodeString, ItemsText, ItemsBytes;
    if e.Entry? {
      var x := EncodePrints(h, e.val, stack);
      var rest := FieldsPrint(h, e.rest, stack);
      var ps := EncodeFields(h, e.rest, stack).value;
      var m := Member([], QUOTE, ItemsOf(e.key.s), [], [], x, []);
      ItemsOfSound(e.key.s);
      FieldText(e.key.s, x, rest, ps, m);
      assert JsonMember(m) && ValidMember(m);
      o := if rest.EndM? then LastM(m) else MoreM(m, rest);
      SameFieldsCons(h, e, stack, m, rest, o);
    } else {
      o := EndM([]);
      SameFieldsNone(h, e, stack, o);
    }
  }

  lemma SameFieldsNone(h: Heap, e: Entries, stack: set<nat>, o: Members)
    requires WellFormed(h) && e.Empty? && o == EndM([])
    ensures ValidMembers(o) && SameFields(h, e, stack, o)
  {}

  lemma SameFieldsCons(h: Heap, e: Entries, stack: set<nat>, m: Member, rest: Members, o: Members)
    requires WellFormed(h) && EntriesOk(h, e) && e.Entry? && e.key.KStr?
    requires ValidMember(m) && m.key == ItemsOf(e.key.s) && m.quote == QUOTE && ValidMembers(rest)
    requires SameFields(h, e.rest, stack, rest)
    requires !Denote(m.v).Nil? && (Represents(h, e.val, Denote(m.v)) <==> ValDense(h, e.val, stack))
    requires o == if rest.EndM? then LastM(m) else MoreM(m, rest)
    ensures ValidMembers(o) && SameFields(h, e, stack, o)
  {
    hide Represents, ValDense, Denote, ItemsText, Valid, ValidItems, ItemsBytes;
    ItemsOfSound(e.key.s);
    assert KeyOf(m) == e.key.s;
    forall key
      ensures LastFor(o, key) == if key == e.key.s then Some(Denote(m.v)) else LastFor(rest, key)
    {
      if key == e.key.s { assert LastFor(rest, key).None?; }
    }
  }

  lemma {:induction false} FieldValuesAt(e: Entries, k: nat, h: Heap) returns (key: Key)
    requires EntriesOk(h, e) && k < |FieldValues(e)|
    ensures Lookup(e, key) == Some(FieldValues(e)[k])
    decreases e
  {
    if k == 0 {
      key := e.key;
    } else {
      key := FieldValuesAt(e.rest, k - 1, h);
    }
  }

  lemma {:induction false} LookupVisited(e: Entries, key: Key) returns (k: nat)
    requires Lookup(e, key).Some?
    ensures k < |FieldValues(e)| && FieldValues(e)[k] == Lookup(e, key).value
    decreases e
  {
    if e.key == key {
      k := 0;
    } else {
      var j := LookupVisited(e.rest, key);
      k := j + 1;
    }
  }

  lemma {:induction false} StringKeys(e: Entries, key: Key)
    requires AllStrings(e) && Lookup(e, key).Some?
    ensures key.KStr?
    decreases e
  {
    if e.key != key { StringKeys(e.rest, key); }
  }

  lemma ObjectPrints(h: Heap, id: nat, stack: set<nat>) returns (x: Syntax)
    requires WellFormed(h) && id in h && !ArrayLike(h[id]) && EncodeTable(h, id, stack).Good?
    ensures Prints(h, HRef(id), stack, EncodeTable(h, id, stack).value, x)
    decreases h.Keys - stack, 0
  {
    hide Represents, ValDense, SameFields, LastFor, Denote, EncodeFields;
    var o := FieldsPrint(h, h[id].entries, stack + {id});
    x := SObject(o);
    assert IsJson(x) && Valid(x) && Text(x) == EncodeTable(h, id, stack).value;
    ObjectMeaning(o);
    ObjectRepresents(h, id, stack, o);
  }

  lemma ObjectRepresents(h: Heap, id: nat, stack: set<nat>, o: Members)
    requires WellFormed(h) && id in h && !ArrayLike(h[id]) && id !in stack && ValidMembers(o)
    requires AllStrings(h[id].entries) && SameFields(h, h[id].entries, stack + {id}, o)
    ensures Represents(h, HRef(id), Denote(SObject(o))) <==> ValDense(h, HRef(id), stack)
  {
    hide Denote, LastFor, ValidMembers, AllStrings, FieldValues;
    var e, d := h[id].entries, Denote(SObject(o));
    ObjectMeaning(o);
    forall key ensures key in d.fields <==> Lookup(e, key).Some? {
      if Lookup(e, key).Some? { StringKeys(e, key); }
      if key.KStr? { assert Lookup(e, KStr(key.s)).Some? == LastFor(o, key.s).Some?; }
    }
    if Represents(h, HRef(id), d) {
      forall c | c in Kids(h, id) ensures Sweep(h, c, stack + {id}, DenseIn(h)) {
        var vs := FieldValues(e);
        var k: nat :| k < |vs| && vs[k].HRef? && vs[k].id == c;
        var key := FieldValuesAt(e, k, h);
        assert Represents(h, Lookup(e, KStr(key.s)).value, d.fields[key]);
        assert ValDense(h, vs[k], stack + {id});
      }
    }
    if ValDense(h, HRef(id), stack) {
      forall key | key in d.fields ensures Represents(h, Lookup(e, key).value, d.fields[key]) {
        var k := LookupVisited(e, key);
        assert Lookup(e, KStr(key.s)).Some?;
        if FieldValues(e)[k].HRef? { assert FieldValues(e)[k].id in Kids(h, id); }
        assert ValDense(h, Lookup(e, key).value, stack + {id});
      }
    }
  }

  // ---------------------------------------------------------------- main results

  /** Whatever json.encode returns is a text of RFC 8259's grammar, read byte by byte. */
  lemma EncodeIsJson(h: Heap, v: HVal) returns (x: Syntax)
    requires WellFormed(h) && ValOk(h, v) && Encode(h, v, {}).Good?
    ensures IsJson(x) && Encode(h, v, {}).value == Text(x)
  {
    x := EncodePrints(h, v, {});
  }

  /** Decoding an encoded value succeeds, and gives the value back if and only if no reachable
      array-like table has an entry outside the indices before its first hole. */
  lemma RoundTrip(h: Heap, v: HVal)
    requires WellFormed(h) && ValOk(h, v) && Encode(h, v, {}).Good?
    ensures var d := Decode(Encode(h, v, {}).value);
            && d.Ok?
            && (Represents(h, v, d.value)
                <==> (v.HRef? ==> forall r :: Reaches(h, v.id, r) && r in h ==> Dense(h, r)))
  {
    hide Decode, Encode, Represents, Denote, Text, Sweep;
    EncodeExact(h, v);
    var x := EncodePrints(h, v, {});
    DecodeComplete([], x, []);
    assert [] + (Text(x) + []) == Text(x);
    if v.HRef? {
      SweepExact(h, v.id, {}, DenseIn(h));
      if forall r :: Reaches(h, v.id, r) && r in h ==> Dense(h, r) {
        assert Clear(h, v.id, {}, DenseIn(h));
      }
    }
  }

  /** The output is also read back, as the same value and up to its last byte, in the middle of a larger
      text that goes on with a delimiter. */
  lemma RoundTripWithin(h: Heap, v: HVal, before: bytes, after: bytes)
    requires WellFormed(h) && ValOk(h, v) && Encode(h, v, {}).Good?
    requires after != [] ==> after[0] in DELIMITERS
    ensures var t := Encode(h, v, {}).value;
            Decode(t).Ok? && Parse(before + (t + after), |before|) == Ok(Decode(t).value, |before| + |t|)
  {
    hide Decode, Encode, Parse, Denote, Text, Represents, ValDense, At;
    var x := EncodePrints(h, v, {});
    var t := Text(x);
    DecodeComplete([], x, []);
    assert [] + (t + []) == t;
    var s := before + (t + after);
    AtMiddle(before, t, after);
    assert |before| + |t| < |s| ==> s[|before| + |t|] == after[0];
    CompleteValue(s, |before|, x);
  }

  lemma AtMiddle(a: bytes, b: bytes, c: bytes)
    ensures At(a + (b + c), |a|, b)
  {}

  /** A table with entries at 1, 3 and 0.5, and 3 for its border: encoded as an array of one element. */
  const SPARSE: Heap := map[0 := HTab(
    Entry(Index(1), HInt(7), Entry(Index(3), HInt(8), Entry(KNum(0.5), HInt(9), Empty))), 3)]

  /** The condition of `RoundTrip` can fail: such a table is accepted and loses two of its entries. */
  lemma SparseTableLosesEntries()
    ensures WellFormed(SPARSE) && Encode(SPARSE, HRef(0), {}).Good?
    ensures var d := Decode(Encode(SPARSE, HRef(0), {}).value); d.Ok? && !Represents(SPARSE, HRef(0), d.value)
  {
    hide Decode, Represents, IntNumeral;
    var h := SPARSE;
    assert Lookup(h[0].entries, Index(2)).None? && Lookup(h[0].entries, Index(4)).None?;
    assert EntriesOk(h, h[0].entries);
    assert EncodeItems(h, 0, 1, {0}).Good? by {
      assert EncodeItems(h, 0, 2, {0}) == Good([]);
      assert Encode(h, HInt(7), {0}).Good?;
    }
    assert Length(h[0].entries) == 3;
    RoundTrip(h, HRef(0));
    assert !Dense(h, 0) by {
      assert ItemValues(h, 0, 1) == [HInt(7)] by { assert ItemValues(h, 0, 2) == []; }
      assert Lookup(h[0].entries, Index(3)).Some?;
      assert IndexOf(Index(3)) == Some(3);
    }
    ReachSelf(h, 0);
  }
}
