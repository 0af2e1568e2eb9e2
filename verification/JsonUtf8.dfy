/** When the output of json.encode is UTF-8, as section 8.1 of RFC 8259 asks of a JSON text. The encoder
    copies every byte above 127 as it is. */
module JsonUtf8 {
  import opened Options
  import opened Bytes
  import opened Numerals
  import opened Unicode
  import opened JsonLexis
  import opened JsonGrammar
  import opened JsonEncodeSpec
  import opened HeapGraphs
  import opened JsonEncodable
  import opened JsonRoundTrip

  predicate IsUtf8(s: bytes) { DecodeUtf8(s).Some? }

  predicate IsAscii(s: bytes) { forall k :: 0 <= k < |s| ==> s[k] < 128 }

  // ---------------------------------------------------------------- an ASCII byte separates

  lemma Utf8Head(s: bytes)
    requires s != []
    ensures IsUtf8(s) <==> DecodeOne(s).Some? && IsUtf8(s[DecodeOne(s).value.1..])
  {
    hide DecodeOne;
  }

  /** Where the bytes run out, a byte that continues nothing stops a character just the same. */
  lemma HeadBefore(a: bytes, c: byte, b: bytes)
    requires a != [] && c < 128
    ensures DecodeOne(a + ([c] + b)) == DecodeOne(a)
  {
    var s := a + ([c] + b);
    assert s[|a|] == c && forall k :: 0 <= k < |a| ==> s[k] == a[k];
  }

  lemma AsciiHead(c: byte, b: bytes)
    requires c < 128
    ensures IsUtf8([c] + b) <==> IsUtf8(b)
  {
    var s := [c] + b;
    Utf8Head(s);
    assert DecodeOne(s) == Some((c as nat, 1)) && s[1..] == b;
  }

  lemma {:induction false} AsciiSplits(a: bytes, c: byte, b: bytes)
    requires c < 128
    ensures IsUtf8(a + ([c] + b)) <==> IsUtf8(a) && IsUtf8(b)
    decreases |a|
  {
    hide DecodeOne, IsUtf8;
    if a == [] {
      assert a + ([c] + b) == [c] + b;
      AsciiHead(c, b);
      EmptyIsUtf8();
    } else {
      HeadBefore(a, c, b);
      Utf8Head(a);
      Utf8Head(a + ([c] + b));
      if DecodeOne(a).Some? {
        var k := DecodeOne(a).value.1;
        AsciiSplits(a[k..], c, b);
        assert (a + ([c] + b))[k..] == a[k..] + ([c] + b);
      }
    }
  }

  lemma EmptyIsUtf8()
    ensures IsUtf8([])
  {}

  lemma {:induction false} AsciiPrefix(a: bytes, b: bytes)
    requires IsAscii(a)
    ensures IsUtf8(a + b) <==> IsUtf8(b)
    decreases |a|
  {
    hide IsUtf8;
    if a == [] {
      assert a + b == b;
    } else {
      AsciiPrefix(a[1..], b);
      AsciiHead(a[0], a[1..] + b);
      assert a + b == [a[0]] + (a[1..] + b);
    }
  }

  lemma AsciiIsUtf8(a: bytes)
    requires IsAscii(a)
    ensures IsUtf8(a)
  {
    AsciiPrefix(a, []);
    EmptyIsUtf8();
    assert a + [] == a;
  }

  lemma Enclosed(open: byte, a: bytes, close: byte)
    requires open < 128 && close < 128
    ensures IsUtf8([open] + (a + [close])) <==> IsUtf8(a)
  {
    hide IsUtf8;
    AsciiHead(open, a + [close]);
    AsciiSplits(a, close, []);
    EmptyIsUtf8();
    assert [close] + [] == [close];
  }

  // ---------------------------------------------------------------- strings

  lemma EscapeIsAscii(c: byte)
    requires c < 32 || c == BACKSLASH || c == QUOTE
    ensures EscapeChar(c) != [] && EscapeChar(c)[0] == BACKSLASH && IsAscii(EscapeChar(c))
  {}

  lemma {:induction false} EscapedUtf8(a: bytes, s: bytes)
    ensures IsUtf8(a + EscapeAll(s)) <==> IsUtf8(a + s)
    decreases |s|
  {
    hide IsUtf8, EscapeAll, EscapeChar;
    if s == [] {
      assert EscapeAll(s) == s by { EscapeNothing(); }
    } else {
      var x, t := s[0], s[1..];
      assert s == [x] + t;
      EscapeStep(x, t);
      if x < 32 || x == BACKSLASH || x == QUOTE {
        EscapedUtf8([], t);
        assert [] + EscapeAll(t) == EscapeAll(t) && [] + t == t;
        AsciiSplits(a, x, t);
        EscapeIsAscii(x);
        EscapeSplits(a, EscapeChar(x), EscapeAll(t));
      } else {
        EscapedUtf8(a + [x], t);
        assert a + EscapeAll(s) == (a + [x]) + EscapeAll(t) && a + s == (a + [x]) + t;
      }
    }
  }

  lemma EscapeNothing()
    ensures EscapeAll([]) == []
  {}

  lemma EscapeSplits(a: bytes, e: bytes, b: bytes)
    requires e != [] && IsAscii(e)
    ensures IsUtf8(a + (e + b)) <==> IsUtf8(a) && IsUtf8(b)
  {
    hide IsUtf8;
    AsciiSplits(a, e[0], e[1..] + b);
    AsciiPrefix(e[1..], b);
    assert e + b == [e[0]] + (e[1..] + b);
  }

  lemma StringUtf8(s: bytes)
    ensures IsUtf8(EncodeString(s)) <==> IsUtf8(s)
  {
    hide IsUtf8, EscapeAll;
    Enclosed(QUOTE, EscapeAll(s), QUOTE);
    EscapedUtf8([], s);
    assert [] + EscapeAll(s) == EscapeAll(s) && [] + s == s;
  }

  lemma NumeralIsUtf8(n: int)
    ensures IsUtf8(IntNumeral(n).Text())
  {
    hide NatDigits;
    assert IsAscii(IntNumeral(n).Text());
    AsciiIsUtf8(IntNumeral(n).Text());
  }

  // ---------------------------------------------------------------- lists of texts

  predicate AllTexts(ps: seq<bytes>) { forall k :: 0 <= k < |ps| ==> IsUtf8(ps[k]) }

  lemma AllTextsCons(p: bytes, ps: seq<bytes>)
    ensures AllTexts([p] + ps) <==> IsUtf8(p) && AllTexts(ps)
  {
    hide IsUtf8;
    var all := [p] + ps;
    assert all[0] == p && forall k :: 0 <= k < |ps| ==> all[k + 1] == ps[k];
    if AllTexts(all) {
      forall k | 0 <= k < |ps| ensures IsUtf8(ps[k]) { assert IsUtf8(all[k + 1]); }
    }
  }

  lemma {:induction false} ConcatUtf8(ps: seq<bytes>)
    ensures IsUtf8(Concat(ps)) <==> AllTexts(ps)
    decreases |ps|
  {
    hide IsUtf8, AllTexts;
    NoTexts();
    if |ps| == 1 {
      AllTextsCons(ps[0], []);
      assert ps == [ps[0]] + [];
    } else if |ps| > 1 {
      ConcatUtf8(ps[1..]);
      AsciiSplits(ps[0], COMMA, Concat(ps[1..]));
      AllTextsCons(ps[0], ps[1..]);
      assert ps == [ps[0]] + ps[1..];
    } else {
      EmptyIsUtf8();
      assert ps == [];
    }
  }

  lemma NoTexts()
    ensures AllTexts([])
  {}

  // ---------------------------------------------------------------- values of a heap

  predicate KeysUtf8(e: Entries) { e.Entry? ==> (e.key.KStr? ==> IsUtf8(e.key.s)) && KeysUtf8(e.rest) }

  /** The strings a table prints itself are UTF-8: those among its values and, as an object, its keys. */
  ghost predicate Utf8Table(h: Heap, id: nat)
    requires WellFormed(h) && id in h
  {
    && (forall k :: 0 <= k < |Visited(h, id)| && Visited(h, id)[k].HStr? ==> IsUtf8(Visited(h, id)[k].s))
    && (!ArrayLike(h[id]) ==> KeysUtf8(h[id].entries))
  }

  ghost function Utf8In(h: Heap): nat -> bool
    requires WellFormed(h)
  {
    (id: nat) => id in h && Utf8Table(h, id)
  }

  ghost predicate ValUtf8(h: Heap, v: HVal, stack: set<nat>)
    requires WellFormed(h) && ValOk(h, v)
  {
    (v.HStr? ==> IsUtf8(v.s)) && (v.HRef? ==> Sweep(h, v.id, stack, Utf8In(h)))
  }

  ghost predicate AllUtf8(h: Heap, vs: seq<HVal>, stack: set<nat>)
    requires WellFormed(h) && Storable(h, vs)
  {
    forall k :: 0 <= k < |vs| ==> ValUtf8(h, vs[k], stack)
  }

  lemma NoneUtf8(h: Heap, stack: set<nat>)
    requires WellFormed(h)
    ensures Storable(h, []) && AllUtf8(h, [], stack)
  {}

  lemma AllUtf8Cons(h: Heap, v: HVal, vs: seq<HVal>, stack: set<nat>)
    requires WellFormed(h) && Storable(h, vs) && ValOk(h, v) && !v.HNil?
    ensures Storable(h, [v] + vs)
    ensures AllUtf8(h, [v] + vs, stack) <==> ValUtf8(h, v, stack) && AllUtf8(h, vs, stack)
  {
    hide ValUtf8;
    StorableCons(h, v, vs);
    var all := [v] + vs;
    if AllUtf8(h, all, stack) {
      assert all[0] == v;
      forall k | 0 <= k < |vs| ensures ValUtf8(h, vs[k], stack) { assert all[k + 1] == vs[k]; }
    }
  }

  lemma SweepTableUtf8(h: Heap, id: nat, stack: set<nat>)
    requires WellFormed(h) && id in h && Storable(h, Visited(h, id))
    ensures Sweep(h, id, stack, Utf8In(h))
            <==> && id !in stack && (!ArrayLike(h[id]) ==> KeysUtf8(h[id].entries))
                 && AllUtf8(h, Visited(h, id), stack + {id})
  {
    hide Visited, IsUtf8, KeysUtf8;
    var vs := Visited(h, id);
    if AllUtf8(h, vs, stack + {id}) {
      forall k | 0 <= k < |vs| && vs[k].HStr? ensures IsUtf8(vs[k].s) { assert ValUtf8(h, vs[k], stack + {id}); }
      forall c | c in Kids(h, id) && c in h ensures Sweep(h, c, stack + {id}, Utf8In(h)) {
        var k: nat :| k < |vs| && vs[k].HRef? && vs[k].id == c;
        assert ValUtf8(h, vs[k], stack + {id});
      }
    }
    if Sweep(h, id, stack, Utf8In(h)) {
      forall k | 0 <= k < |vs| ensures ValUtf8(h, vs[k], stack + {id}) {
        if vs[k].HRef? { assert vs[k].id in Kids(h, id); }
      }
    }
  }

  lemma {:induction false} ItemsUtf8(h: Heap, id: nat, i: nat, stack: set<nat>)
    requires WellFormed(h) && id in h && 1 <= i <= h[id].border + 1 && EncodeItems(h, id, i, stack).Good?
    ensures Storable(h, ItemValues(h, id, i))
    ensures AllTexts(EncodeItems(h, id, i, stack).value) <==> AllUtf8(h, ItemValues(h, id, i), stack)
    decreases h.Keys - stack, 2, h[id].border + 1 - i
  {
    hide ValUtf8, AllUtf8, Encode, Storable, AllTexts, IsUtf8;
    ItemValuesOk(h, id, i);
    if HasIndex(h[id], i) {
      var v := Lookup(h[id].entries, Index(i)).value;
      LookupOk(h, h[id].entries, Index(i));
      EncodeUtf8(h, v, stack);
      ItemsUtf8(h, id, i + 1, stack);
      AllUtf8Cons(h, v, ItemValues(h, id, i + 1), stack);
      AllTextsCons(Encode(h, v, stack).value, EncodeItems(h, id, i + 1, stack).value);
    } else {
      NoneUtf8(h, stack);
      NoTexts();
    }
  }

  lemma FieldUtf8(k: bytes, p: bytes)
    ensures IsUtf8(EncodeString(k) + ([COLON] + p)) <==> IsUtf8(k) && IsUtf8(p)
  {
    hide IsUtf8, EncodeString;
    AsciiSplits(EncodeString(k), COLON, p);
    StringUtf8(k);
  }

  lemma {:induction false} FieldsUtf8(h: Heap, e: Entries, stack: set<nat>)
    requires WellFormed(h) && EntriesOk(h, e) && EncodeFields(h, e, stack).Good?
    ensures Storable(h, FieldValues(e))
    ensures AllTexts(EncodeFields(h, e, stack).value) <==> KeysUtf8(e) && AllUtf8(h, FieldValues(e), stack)
    decreases h.Keys - stack, 2, e
  {
    hide ValUtf8, AllUtf8, Encode, Storable, AllTexts, IsUtf8, EncodeString;
    FieldValuesOk(h, e);
    if e.Entry? {
      var p := Encode(h, e.val, stack).value;
      EncodeUtf8(h, e.val, stack);
      FieldsUtf8(h, e.rest, stack);
      AllUtf8Cons(h, e.val, FieldValues(e.rest), stack);
      FieldUtf8(e.key.s, p);
      AllTextsCons(EncodeString(e.key.s) + ([COLON] + p), EncodeFields(h, e.rest, stack).value);
    } else {
      NoneUtf8(h, stack);
      NoTexts();
    }
  }

  lemma ScalarsUtf8()
    ensures IsUtf8(NULL) && IsUtf8(TRUE) && IsUtf8(FALSE)
  {
    hide IsUtf8;
    AsciiIsUtf8(NULL);
    AsciiIsUtf8(TRUE);
    AsciiIsUtf8(FALSE);
  }

  lemma {:induction false} EncodeUtf8(h: Heap, v: HVal, stack: set<nat>)
    requires WellFormed(h) && ValOk(h, v) && Encode(h, v, stack).Good?
    ensures IsUtf8(Encode(h, v, stack).value) <==> ValUtf8(h, v, stack)
    decreases h.Keys - stack, 1
  {
    hide AllUtf8, Sweep, EncodeItems, EncodeFields, Storable, IsUtf8, Concat, KeysUtf8, EncodeString, IntNumeral;
    match v
    case HStr(s) => StringUtf8(s);
    case HInt(n) => NumeralIsUtf8(n);
    case HRef(id) =>
      VisitedOk(h, id);
      SweepTableUtf8(h, id, stack);
      if ArrayLike(h[id]) {
        ItemsUtf8(h, id, 1, stack + {id});
        var ps := EncodeItems(h, id, 1, stack + {id}).value;
        ConcatUtf8(ps);
        Enclosed(LBRACKET, Concat(ps), RBRACKET);
      } else {
        FieldsUtf8(h, h[id].entries, stack + {id});
        var ps := EncodeFields(h, h[id].entries, stack + {id}).value;
        ConcatUtf8(ps);
        Enclosed(LBRACE, Concat(ps), RBRACE);
      }
    case _ => ScalarsUtf8();
  }

  // ---------------------------------------------------------------- main results

  /** Every string that is printed, as a value or as a key, is UTF-8. */
  ghost predicate PrintsUtf8(h: Heap, v: HVal)
    requires WellFormed(h) && ValOk(h, v)
  {
    && (v.HStr? ==> IsUtf8(v.s))
    && (v.HRef? ==> forall r :: Reaches(h, v.id, r) && r in h ==> Utf8Table(h, r))
  }

  /** A JSON text by the letter of RFC 8259: the grammar, over Unicode characters encoded in UTF-8. */
  ghost predicate IsRfcText(t: bytes) { IsUtf8(t) && exists x :: IsJson(x) && Text(x) == t }

  /** What encode returns is an RFC 8259 text if and only if every string it prints is UTF-8. */
  lemma EncodeIsRfcExact(h: Heap, v: HVal)
    requires WellFormed(h) && ValOk(h, v) && Encode(h, v, {}).Good?
    ensures IsRfcText(Encode(h, v, {}).value) <==> PrintsUtf8(h, v)
  {
    hide Encode, IsUtf8, Utf8Table, Text, Encodable, IsJson;
    var x := EncodeIsJson(h, v);
    EncodeUtf8(h, v, {});
    if v.HRef? {
      SweepExact(h, v.id, {}, Utf8In(h));
      EncodeExact(h, v);
      if PrintsUtf8(h, v) { assert Clear(h, v.id, {}, Utf8In(h)); }
    }
  }

  /** A single byte above 127 is encoded without complaint, and the output is not UTF-8. */
  lemma RawByteIsNotUtf8()
    ensures Encode(map[], HStr([255]), {}).Good? && !IsRfcText(Encode(map[], HStr([255]), {}).value)
  {
    assert !IsUtf8([255]);
    EncodeIsRfcExact(map[], HStr([255]));
  }
}
