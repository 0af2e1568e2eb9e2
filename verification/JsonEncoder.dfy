/** The encoder in the form of json.lua: one mutable set of open tables, loops that build `res`. */
module JsonEncoder {
  import opened Bytes
  import opened Numerals
  import opened JsonLexis
  import opened JsonEncodeSpec

  /** The `stack` argument of encode, shared by all calls. */
  class Stack {
    var open: set<nat>

    constructor ()
      ensures open == {}
    {
      open := {};
    }
  }

  method EncodeValue(h: Heap, v: HVal, stack: Stack) returns (r: Result<bytes>)
    requires WellFormed(h) && ValOk(h, v)
    modifies stack
    ensures r == Encode(h, v, old(stack.open))
    ensures r.Good? ==> stack.open == old(stack.open)
    decreases h.Keys - stack.open, 1
  {
    match v
    case HNil => return Good(NULL);
    case HBool(b) => return Good(if b then TRUE else FALSE);
    case HInt(n) => return Good(IntNumeral(n).Text());
    case HNotFinite => return Bad(NumberNotFinite);
    case HStr(s) => return Good(EncodeString(s));
    case HRef(id) => r := EncodeTableValue(h, id, stack);
    case HOther => return Bad(UnexpectedType);
  }

  method EncodeTableValue(h: Heap, id: nat, stack: Stack) returns (r: Result<bytes>)
    requires WellFormed(h) && id in h
    modifies stack
    ensures r == EncodeTable(h, id, old(stack.open))
    ensures r.Good? ==> stack.open == old(stack.open)
    decreases h.Keys - stack.open, 0
  {
    if id in stack.open { return Bad(CircularReference); }
    ghost var before := stack.open;
    stack.open := stack.open + {id};
    var t := h[id];
    var res: seq<bytes> := [];
    if Lookup(t.entries, Index(1)).Some? || t.entries.Empty? {
      var n := 0;
      var e := t.entries;
      while e.Entry?
        invariant Length(t.entries) == n + Length(e)
        invariant AllNumeric(t.entries) == AllNumeric(e)
        decreases e
      {
        if !e.key.KNum? { return Bad(MixedKeys); }
        n := n + 1;
        e := e.rest;
      }
      if n != t.border { return Bad(SparseArray); }
      var i := 1;
      ghost var all := EncodeItems(h, id, 1, stack.open);
      PrependNone(all);
      while Lookup(t.entries, Index(i)).Some?
        invariant 1 <= i <= t.border + 1
        invariant stack.open == before + {id}
        invariant all == Prepend(res, EncodeItems(h, id, i, stack.open))
        decreases t.border + 1 - i
      {
        LookupOk(h, t.entries, Index(i));
        var p := EncodeValue(h, Lookup(t.entries, Index(i)).value, stack);
        if p.Bad? { return Bad(p.why); }
        PrependMore(res, p.value, EncodeItems(h, id, i + 1, stack.open));
        res := res + [p.value];
        i := i + 1;
      }
      assert res + [] == res;
      stack.open := stack.open - {id};
      return Good([LBRACKET] + (Concat(res) + [RBRACKET]));
    } else {
      var e := t.entries;
      ghost var all := EncodeFields(h, e, stack.open);
      PrependNone(all);
      while e.Entry?
        invariant stack.open == before + {id} && EntriesOk(h, e)
        invariant all == Prepend(res, EncodeFields(h, e, stack.open))
        decreases e
      {
        if !e.key.KStr? { return Bad(MixedKeys); }
        var p := EncodeValue(h, e.val, stack);
        if p.Bad? { return Bad(p.why); }
        var field := EncodeString(e.key.s) + ([COLON] + p.value);
        PrependMore(res, field, EncodeFields(h, e.rest, stack.open));
        res := res + [field];
        e := e.rest;
      }
      assert res + [] == res;
      stack.open := stack.open - {id};
      return Good([LBRACE] + (Concat(res) + [RBRACE]));
    }
  }

  /** The pieces already in `res`, followed by the rest. */
  ghost function Prepend(res: seq<bytes>, rest: Result<seq<bytes>>): Result<seq<bytes>> {
    match rest
    case Good(ps) => Good(res + ps)
    case Bad(why) => Bad(why)
  }

  lemma PrependNone(rest: Result<seq<bytes>>)
    ensures Prepend([], rest) == rest
  {
    if rest.Good? { assert [] + rest.value == rest.value; }
  }

  lemma PrependMore(res: seq<bytes>, p: bytes, rest: Result<seq<bytes>>)
    ensures Prepend(res + [p], rest) == Prepend(res, if rest.Good? then Good([p] + rest.value) else rest)
  {
    if rest.Good? { assert (res + [p]) + rest.value == res + ([p] + rest.value); }
  }

  /** json.encode: starts with no table open. */
  method EncodeTop(h: Heap, v: HVal) returns (r: Result<bytes>)
    requires WellFormed(h) && ValOk(h, v)
    ensures r == Encode(h, v, {})
  {
    var stack := new Stack();
    r := EncodeValue(h, v, stack);
  }
}
