/** The graph of tables that encode walks, and when a walk with a stack of open tables gets through. */
module HeapGraphs {
  import opened JsonEncodeSpec

  /** What the ipairs loop visits from index `i` on. */
  function ItemValues(h: Heap, id: nat, i: nat): seq<HVal>
    requires WellFormed(h) && id in h && 1 <= i <= h[id].border + 1
    decreases h[id].border + 1 - i
  {
    var v := Lookup(h[id].entries, Index(i));
    if v.None? then [] else [v.value] + ItemValues(h, id, i + 1)
  }

  function FieldValues(e: Entries): seq<HVal> {
    if e.Empty? then [] else [e.val] + FieldValues(e.rest)
  }

  /** The values encode_table passes on to encode. */
  function Visited(h: Heap, id: nat): seq<HVal>
    requires WellFormed(h) && id in h
  {
    if ArrayLike(h[id]) then ItemValues(h, id, 1) else FieldValues(h[id].entries)
  }

  /** The tables among some values. */
  function Tables(vs: seq<HVal>): set<nat> {
    set k: nat | k < |vs| && vs[k].HRef? :: vs[k].id
  }

  function Kids(h: Heap, id: nat): (ks: set<nat>)
    requires WellFormed(h) && id in h
    ensures ks <= h.Keys
  {
    VisitedOk(h, id);
    Tables(Visited(h, id))
  }

  predicate Storable(h: Heap, vs: seq<HVal>) {
    forall k :: 0 <= k < |vs| ==> ValOk(h, vs[k]) && !vs[k].HNil?
  }

  lemma StorableCons(h: Heap, v: HVal, vs: seq<HVal>)
    requires ValOk(h, v) && !v.HNil? && Storable(h, vs)
    ensures Storable(h, [v] + vs)
  {}

  lemma VisitedOk(h: Heap, id: nat)
    requires WellFormed(h) && id in h
    ensures Storable(h, Visited(h, id))
  {
    if ArrayLike(h[id]) { ItemValuesOk(h, id, 1); } else { FieldValuesOk(h, h[id].entries); }
  }

  lemma {:induction false} ItemValuesOk(h: Heap, id: nat, i: nat)
    requires WellFormed(h) && id in h && 1 <= i <= h[id].border + 1
    ensures Storable(h, ItemValues(h, id, i))
    decreases h[id].border + 1 - i
  {
    if HasIndex(h[id], i) {
      LookupOk(h, h[id].entries, Index(i));
      ItemValuesOk(h, id, i + 1);
      StorableCons(h, Lookup(h[id].entries, Index(i)).value, ItemValues(h, id, i + 1));
    }
  }

  lemma {:induction false} FieldValuesOk(h: Heap, e: Entries)
    requires EntriesOk(h, e)
    ensures Storable(h, FieldValues(e))
    decreases e
  {
    if e.Entry? {
      FieldValuesOk(h, e.rest);
      StorableCons(h, e.val, FieldValues(e.rest));
    }
  }

  // ---------------------------------------------------------------- walks

  /** A depth-first walk from `id` meets only tables satisfying `p` and none that is still open. */
  ghost predicate Sweep(h: Heap, id: nat, stack: set<nat>, p: nat -> bool)
    requires WellFormed(h) && id in h
    decreases h.Keys - stack
  {
    id !in stack && p(id) && forall c :: c in Kids(h, id) ==> Sweep(h, c, stack + {id}, p)
  }

  ghost predicate IsPath(h: Heap, ids: seq<nat>)
    requires WellFormed(h)
  {
    && ids != []
    && (forall k: nat :: k < |ids| ==> ids[k] in h)
    && (forall k: nat :: k + 1 < |ids| ==> ids[k + 1] in Kids(h, ids[k]))
  }

  ghost predicate Reaches(h: Heap, a: nat, b: nat)
    requires WellFormed(h)
  {
    exists ids: seq<nat> :: IsPath(h, ids) && ids[0] == a && ids[|ids| - 1] == b
  }

  ghost predicate OnCycle(h: Heap, a: nat)
    requires WellFormed(h) && a in h
  {
    exists c :: c in Kids(h, a) && Reaches(h, c, a)
  }

  lemma ReachSelf(h: Heap, a: nat)
    requires WellFormed(h) && a in h
    ensures Reaches(h, a, a)
  {
    assert IsPath(h, [a]);
  }

  lemma ReachStep(h: Heap, a: nat, c: nat, b: nat)
    requires WellFormed(h) && a in h && c in Kids(h, a) && Reaches(h, c, b)
    ensures Reaches(h, a, b)
  {
    var ids :| IsPath(h, ids) && ids[0] == c && ids[|ids| - 1] == b;
    var more := [a] + ids;
    assert IsPath(h, more) && more[0] == a && more[|more| - 1] == b;
  }

  /** Nothing reachable is open, every reachable table satisfies `p` and lies on no cycle. */
  ghost predicate Clear(h: Heap, id: nat, stack: set<nat>, p: nat -> bool)
    requires WellFormed(h)
  {
    forall r :: Reaches(h, id, r) && r in h ==> r !in stack && p(r) && !OnCycle(h, r)
  }

  lemma {:induction false} ClearSweeps(h: Heap, id: nat, stack: set<nat>, p: nat -> bool)
    requires WellFormed(h) && id in h && Clear(h, id, stack, p)
    ensures Sweep(h, id, stack, p)
    decreases h.Keys - stack
  {
    ReachSelf(h, id);
    forall c | c in Kids(h, id) ensures Sweep(h, c, stack + {id}, p) {
      forall r | Reaches(h, c, r) && r in h ensures r !in stack + {id} && p(r) && !OnCycle(h, r) {
        ReachStep(h, id, c, r);
      }
      ClearSweeps(h, c, stack + {id}, p);
    }
  }

  /** Along any path from a swept table the sweep goes on, with a larger stack. */
  lemma {:induction false} SweepAlong(h: Heap, ids: seq<nat>, stack: set<nat>, p: nat -> bool) returns (open: set<nat>)
    requires WellFormed(h) && IsPath(h, ids) && Sweep(h, ids[0], stack, p)
    ensures stack <= open && Sweep(h, ids[|ids| - 1], open, p)
    decreases |ids|
  {
    if |ids| == 1 {
      open := stack;
    } else {
      var rest := ids[1..];
      assert ids[0 + 1] in Kids(h, ids[0]);
      assert IsPath(h, rest) by {
        forall k: nat | k + 1 < |rest| ensures rest[k + 1] in Kids(h, rest[k]) {
          assert ids[(k + 1) + 1] in Kids(h, ids[k + 1]);
        }
      }
      open := SweepAlong(h, rest, stack + {ids[0]}, p);
    }
  }

  lemma SweepsClear(h: Heap, id: nat, stack: set<nat>, p: nat -> bool)
    requires WellFormed(h) && id in h && Sweep(h, id, stack, p)
    ensures Clear(h, id, stack, p)
  {
    forall r | Reaches(h, id, r) && r in h ensures r !in stack && p(r) && !OnCycle(h, r) {
      var ids :| IsPath(h, ids) && ids[0] == id && ids[|ids| - 1] == r;
      var open := SweepAlong(h, ids, stack, p);
      if OnCycle(h, r) {
        var c :| c in Kids(h, r) && Reaches(h, c, r);
        var back :| IsPath(h, back) && back[0] == c && back[|back| - 1] == r;
        var open' := SweepAlong(h, back, open + {r}, p);
        assert false;
      }
    }
  }

  /** A walk gets through exactly when the reachable tables are fine and form no cycle. */
  lemma SweepExact(h: Heap, id: nat, stack: set<nat>, p: nat -> bool)
    requires WellFormed(h) && id in h
    ensures Sweep(h, id, stack, p) <==> Clear(h, id, stack, p)
  {
    if Clear(h, id, stack, p) { ClearSweeps(h, id, stack, p); }
    if Sweep(h, id, stack, p) { SweepsClear(h, id, stack, p); }
  }
}
