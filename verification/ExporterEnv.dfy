/** The variables of the monitor exporter's container. Its options are a map that is visited in an order
    of its own each time, so what is generated may differ from one time to the next. */
module ExporterEnv {
  import opened Options
  import opened EnvVars

  datatype Exporter = Exporter(enabled: bool, structure: seq<EnvVar>, options: map<string, string>)

  /** Lower and upper case, as the strings library has them. */
  datatype Casing = Casing(lower: string -> string, upper: string -> string)

  const PREFIX := "FLUENTBIT_OUTPUT_OPTION_"

  /** A structure option has the same name up to case. */
  predicate Shadowed(c: Casing, e: Exporter, key: string) {
    exists k :: 0 <= k < |e.structure| && c.lower(e.structure[k].name) == c.lower(key)
  }

  predicate Remains(c: Casing, e: Exporter, key: string): (r: bool)
    ensures r ==> key in e.options
  {
    key in e.options && !Shadowed(c, e, key)
  }

  function VarFor(c: Casing, e: Exporter, key: string): EnvVar
    requires key in e.options
  {
    EnvVar(PREFIX + c.upper(key), e.options[key], None)
  }

  function StructureVars(c: Casing, vars: seq<EnvVar>): seq<EnvVar> {
    if vars == [] then []
    else
      var last := vars[|vars| - 1];
      StructureVars(c, vars[..|vars| - 1]) + [last.(name := PREFIX + c.upper(last.name))]
  }

  /** The variables of the options that remain, in the order of the visit. */
  function OptionVars(c: Casing, e: Exporter, order: seq<string>): seq<EnvVar> {
    if order == [] then []
    else
      var key := order[|order| - 1];
      OptionVars(c, e, order[..|order| - 1]) + if Remains(c, e, key) then [VarFor(c, e, key)] else []
  }

  function Vars(c: Casing, e: Exporter, order: seq<string>): seq<EnvVar> {
    StructureVars(c, e.structure) + OptionVars(c, e, order)
  }

  ghost predicate Distinct(order: seq<string>) { forall j, k :: 0 <= j < k < |order| ==> order[j] != order[k] }

  /** An order in which a map can be visited: every key once. */
  ghost predicate Visits(options: map<string, string>, order: seq<string>) {
    Distinct(order) && forall key :: key in order <==> key in options
  }

  /** All options that remain give one and the same variable; in particular when at most one remains. */
  ghost predicate OrderFree(c: Casing, e: Exporter) {
    forall k, k' :: Remains(c, e, k) && Remains(c, e, k') ==> VarFor(c, e, k) == VarFor(c, e, k')
  }

  // ---------------------------------------------------------------- the loops

  /** The structure options, and their names in lower case. */
  method GenerateStructureVars(c: Casing, e: Exporter) returns (vars: seq<EnvVar>, seen: set<string>)
    ensures vars == StructureVars(c, e.structure)
    ensures forall key :: c.lower(key) in seen <==> Shadowed(c, e, key)
  {
    vars, seen := [], {};
    for n := 0 to |e.structure|
      invariant vars == StructureVars(c, e.structure[..n])
      invariant forall s :: s in seen <==> exists k :: 0 <= k < n && c.lower(e.structure[k].name) == s
    {
      assert e.structure[..n + 1][..n] == e.structure[..n];
      seen := seen + {c.lower(e.structure[n].name)};
      vars := vars + [e.structure[n].(name := PREFIX + c.upper(e.structure[n].name))];
    }
    assert e.structure[..|e.structure|] == e.structure;
  }

  method GenerateVars(c: Casing, e: Exporter) returns (vars: seq<EnvVar>)
    ensures exists order :: Visits(e.options, order) && vars == Vars(c, e, order)
  {
    hide VarFor, Distinct, Shadowed, StructureVars, OptionVars, Vars;
    var seen;
    vars, seen := GenerateStructureVars(c, e);
    ghost var order: seq<string> := [];
    var todo := e.options.Keys;
    NothingVisited(c, e);
    while todo != {}
      invariant todo <= e.options.Keys && Distinct(order)
      invariant forall key :: key in order <==> key in e.options && key !in todo
      invariant vars == Vars(c, e, order)
      decreases |todo|
    {
      var key :| key in todo;
      todo := todo - {key};
      VisitOne(c, e, order, key);
      order := order + [key];
      if c.lower(key) in seen { continue; }
      vars := vars + [EnvVar(PREFIX + c.upper(key), e.options[key], None)];
    }
    assert Visits(e.options, order);
  }

  lemma NothingVisited(c: Casing, e: Exporter)
    ensures Distinct([]) && Vars(c, e, []) == StructureVars(c, e.structure)
  {
    hide StructureVars;
  }

  lemma VisitOne(c: Casing, e: Exporter, order: seq<string>, key: string)
    requires Distinct(order) && key !in order && key in e.options
    ensures Distinct(order + [key]) && forall k :: k in order + [key] <==> k in order || k == key
    ensures Vars(c, e, order + [key])
         == Vars(c, e, order) +
            if Shadowed(c, e, key) then [] else [EnvVar(PREFIX + c.upper(key), e.options[key], None)]
  {
    hide Shadowed, StructureVars;
    assert (order + [key])[..|order|] == order;
  }

  // ---------------------------------------------------------------- one visit against another

  /** The keys among those visited that give the variable `x`. */
  ghost function Giving(c: Casing, e: Exporter, order: seq<string>, x: EnvVar): set<string> {
    set key | key in order && Remains(c, e, key) && VarFor(c, e, key) == x
  }

  lemma {:induction false} CountVars(c: Casing, e: Exporter, order: seq<string>, x: EnvVar)
    requires Distinct(order)
    ensures multiset(OptionVars(c, e, order))[x] == |Giving(c, e, order, x)|
  {
    hide VarFor, Remains, Giving;
    if order == [] {
      GivingNone(c, e, x);
    } else {
      var init, key := order[..|order| - 1], order[|order| - 1];
      CountVars(c, e, init, x);
      GivingOneMore(c, e, init, key, x);
      assert order == init + [key];
    }
  }

  lemma GivingNone(c: Casing, e: Exporter, x: EnvVar)
    ensures Giving(c, e, [], x) == {}
  {}

  lemma GivingOneMore(c: Casing, e: Exporter, init: seq<string>, key: string, x: EnvVar)
    requires Distinct(init + [key])
    ensures |Giving(c, e, init + [key], x)|
         == |Giving(c, e, init, x)| + if Remains(c, e, key) && VarFor(c, e, key) == x then 1 else 0
  {
    hide VarFor, Remains;
    var order := init + [key];
    assert order[|init|] == key && forall k :: 0 <= k < |init| ==> order[k] == init[k];
    assert key !in init;
    if Remains(c, e, key) && VarFor(c, e, key) == x {
      assert Giving(c, e, order, x) == Giving(c, e, init, x) + {key};
    } else {
      assert Giving(c, e, order, x) == Giving(c, e, init, x);
    }
  }

  /** Two visits give the same variables, each as often. */
  lemma SameVars(c: Casing, e: Exporter, order: seq<string>, order': seq<string>)
    requires Visits(e.options, order) && Visits(e.options, order')
    ensures multiset(OptionVars(c, e, order)) == multiset(OptionVars(c, e, order'))
    ensures multiset(Vars(c, e, order)) == multiset(Vars(c, e, order'))
  {
    hide Remains, VarFor, Distinct;
    var vars, vars' := OptionVars(c, e, order), OptionVars(c, e, order');
    forall x ensures multiset(vars)[x] == multiset(vars')[x] {
      CountVars(c, e, order, x);
      CountVars(c, e, order', x);
      assert Giving(c, e, order, x) == Giving(c, e, order', x);
    }
    assert multiset(vars) == multiset(vars');
  }

  lemma {:induction false} VarsComeFromKeys(c: Casing, e: Exporter, order: seq<string>, n: nat) returns (key: string)
    requires n < |OptionVars(c, e, order)|
    ensures Remains(c, e, key) && OptionVars(c, e, order)[n] == VarFor(c, e, key)
  {
    hide Remains, VarFor;
    var init := order[..|order| - 1];
    if n < |OptionVars(c, e, init)| {
      key := VarsComeFromKeys(c, e, init, n);
    } else {
      key := order[|order| - 1];
    }
  }

  lemma OrderFreeAgrees(c: Casing, e: Exporter, order: seq<string>, order': seq<string>)
    requires OrderFree(c, e) && Visits(e.options, order) && Visits(e.options, order')
    ensures OptionVars(c, e, order) == OptionVars(c, e, order')
  {
    hide Remains, VarFor, Visits, OptionVars;
    var vars, vars' := OptionVars(c, e, order), OptionVars(c, e, order');
    SameVars(c, e, order, order');
    assert |vars| == |multiset(vars)| == |multiset(vars')| == |vars'|;
    forall n | 0 <= n < |vars| ensures vars[n] == vars'[n] {
      var k := VarsComeFromKeys(c, e, order, n);
      var k' := VarsComeFromKeys(c, e, order', n);
    }
  }

  /** The variable of the key at position `p` follows those of the keys before it. */
  lemma {:induction false} VarAt(c: Casing, e: Exporter, order: seq<string>, p: nat)
    requires p < |order| && Remains(c, e, order[p])
    ensures var n := |OptionVars(c, e, order[..p])|;
            n < |OptionVars(c, e, order)| && OptionVars(c, e, order)[n] == VarFor(c, e, order[p])
    decreases |order|
  {
    hide Remains, VarFor;
    var init := order[..|order| - 1];
    if p < |init| {
      VarAt(c, e, init, p);
      assert init[..p] == order[..p];
    }
  }

  lemma SwapVisits(options: map<string, string>, order: seq<string>, p: nat, q: nat)
    requires Visits(options, order) && p < q < |order|
    ensures Visits(options, order[p := order[q]][q := order[p]])
  {
    var swapped := order[p := order[q]][q := order[p]];
    assert forall k :: 0 <= k < |order| ==> swapped[k] == order[if k == p then q else if k == q then p else k];
    forall key ensures key in swapped <==> key in order {
      if key in order {
        var k :| 0 <= k < |order| && order[k] == key;
        assert swapped[if k == p then q else if k == q then p else k] == key;
      }
    }
  }

  /** Two options that give different variables: visiting them the other way round changes the list. */
  lemma AnotherVisit(c: Casing, e: Exporter, order: seq<string>) returns (order': seq<string>)
    requires !OrderFree(c, e) && Visits(e.options, order)
    ensures Visits(e.options, order') && OptionVars(c, e, order') != OptionVars(c, e, order)
  {
    hide Remains, VarFor, OptionVars, Distinct;
    var k, k' :| Remains(c, e, k) && Remains(c, e, k') && VarFor(c, e, k) != VarFor(c, e, k');
    var p: nat :| p < |order| && order[p] == k;
    var q: nat :| q < |order| && order[q] == k';
    var lo, hi := if p < q then p else q, if p < q then q else p;
    order' := order[lo := order[hi]][hi := order[lo]];
    SwapVisits(e.options, order, lo, hi);
    VarAt(c, e, order, lo);
    VarAt(c, e, order', lo);
    assert order'[..lo] == order[..lo];
  }

  /** Every two visits generate the same list if and only if the remaining options all give one variable. */
  lemma VisitsAgreeExact(c: Casing, e: Exporter, order: seq<string>)
    requires Visits(e.options, order)
    ensures (forall order' :: Visits(e.options, order') ==> Vars(c, e, order') == Vars(c, e, order))
            <==> OrderFree(c, e)
  {
    hide OrderFree, Visits, OptionVars, StructureVars;
    if OrderFree(c, e) {
      forall order' | Visits(e.options, order') ensures Vars(c, e, order') == Vars(c, e, order) {
        OrderFreeAgrees(c, e, order, order');
      }
    } else {
      var order' := AnotherVisit(c, e, order);
      var s, x, y := StructureVars(c, e.structure), OptionVars(c, e, order'), OptionVars(c, e, order);
      assert (s + x)[|s|..] == x && (s + y)[|s|..] == y;
    }
  }

  /** Two options suffice for two different lists, whatever upper and lower case are. */
  lemma TwoOptionsDisagree(c: Casing)
    ensures var e := Exporter(true, [], map["a" := "1", "b" := "2"]);
            && Visits(e.options, ["a", "b"]) && Visits(e.options, ["b", "a"])
            && Vars(c, e, ["a", "b"]) != Vars(c, e, ["b", "a"])
  {
    var e := Exporter(true, [], map["a" := "1", "b" := "2"]);
    assert "a"[0] != "b"[0];
    var ab, ba := ["a", "b"], ["b", "a"];
    assert ab[..1] == ["a"] && ba[..1] == ["b"] && ["a"][..0] == [] && ["b"][..0] == [];
    assert Vars(c, e, ab)[0].value == "1" && Vars(c, e, ba)[0].value == "2" by {
      assert Remains(c, e, "a") && Remains(c, e, "b");
      assert OptionVars(c, e, ["a"]) == [VarFor(c, e, "a")] && OptionVars(c, e, ["b"]) == [VarFor(c, e, "b")];
    }
    assert "1"[0] != "2"[0];
  }

  /** At most one option remains. */
  ghost predicate AtMostOne(c: Casing, e: Exporter) {
    forall k, k' :: Remains(c, e, k) && Remains(c, e, k') ==> k == k'
  }

  /** Where the names of the remaining options differ by more than case, one list means at most one option. */
  lemma OrderFreeIsAtMostOne(c: Casing, e: Exporter)
    requires forall k, k' :: Remains(c, e, k) && Remains(c, e, k') && c.upper(k) == c.upper(k') ==> k == k'
    ensures OrderFree(c, e) <==> AtMostOne(c, e)
  {
    hide Remains;
    if OrderFree(c, e) {
      forall k, k' | Remains(c, e, k) && Remains(c, e, k') ensures k == k' {
        var x, y := VarFor(c, e, k), VarFor(c, e, k');
        assert x.name[|PREFIX|..] == c.upper(k) && y.name[|PREFIX|..] == c.upper(k');
      }
    }
  }

  /** Two options that differ in nothing but case still give one list. */
  lemma TwoCasesAgree(c: Casing)
    requires c.upper("a") == c.upper("A")
    ensures var e := Exporter(true, [], map["a" := "1", "A" := "1"]); OrderFree(c, e) && !AtMostOne(c, e)
  {
    var e := Exporter(true, [], map["a" := "1", "A" := "1"]);
    assert "a"[0] != "A"[0];
    assert Remains(c, e, "a") && Remains(c, e, "A");
  }

  // ---------------------------------------------------------------- spelled out

  function VarName(c: Casing, name: string): string { "FLUENTBIT_OUTPUT_OPTION_" + c.upper(name) }

  lemma {:induction false} StructureVarsSpelled(c: Casing, vars: seq<EnvVar>, k: nat)
    requires k < |vars|
    ensures |StructureVars(c, vars)| == |vars|
    ensures StructureVars(c, vars)[k] == EnvVar(VarName(c, vars[k].name), vars[k].value, vars[k].source)
    decreases |vars|
  {
    var init := vars[..|vars| - 1];
    if k < |init| {
      StructureVarsSpelled(c, init, k);
    } else if init != [] {
      StructureVarsSpelled(c, init, 0);
    }
  }

  /** No structure option has the name in upper or lower case. */
  predicate Unstructured(c: Casing, e: Exporter, key: string) {
    key in e.options && forall v :: v in e.structure ==> c.lower(v.name) != c.lower(key)
  }

  lemma RemainsIs(c: Casing, e: Exporter, key: string)
    ensures Remains(c, e, key) <==> Unstructured(c, e, key)
  {
    if key in e.options && Shadowed(c, e, key) {
      var k :| 0 <= k < |e.structure| && c.lower(e.structure[k].name) == c.lower(key);
      assert e.structure[k] in e.structure;
    }
  }

  /** First come the structure options in order, then a variable for each option whose name is not taken by
      one of them. */
  lemma VarsSpelled(c: Casing, e: Exporter, order: seq<string>)
    requires Visits(e.options, order)
    ensures var vars, s := Vars(c, e, order), e.structure;
            && |vars| >= |s|
            && (forall k :: 0 <= k < |s| ==> vars[k] == EnvVar(VarName(c, s[k].name), s[k].value, s[k].source))
            && forall x :: x in vars[|s|..] <==> ComesFromOption(c, e, x)
  {
    hide Remains, OptionVars, StructureVars, Unstructured, Distinct, VarName;
    var s, o := StructureVars(c, e.structure), OptionVars(c, e, order);
    NoStructure(c);
    if e.structure != [] { StructureVarsSpelled(c, e.structure, 0); }
    forall k: nat | k < |e.structure|
      ensures Vars(c, e, order)[k]
           == EnvVar(VarName(c, e.structure[k].name), e.structure[k].value, e.structure[k].source)
    {
      StructureVarsSpelled(c, e.structure, k);
    }
    assert (s + o)[|s|..] == o;
    forall x: EnvVar ensures x in o <==> ComesFromOption(c, e, x) {
      if x in o {
        var n: nat :| n < |o| && o[n] == x;
        var key := VarsComeFromKeys(c, e, order, n);
        FromOption(c, e, key, x);
      }
      if ComesFromOption(c, e, x) {
        var key :| key in e.options && Unstructured(c, e, key) && x == EnvVar(VarName(c, key), e.options[key], None);
        FromOption(c, e, key, x);
        var p: nat :| p < |order| && order[p] == key;
        VarAt(c, e, order, p);
      }
    }
  }

  predicate ComesFromOption(c: Casing, e: Exporter, x: EnvVar) {
    exists key :: key in e.options && Unstructured(c, e, key) && x == EnvVar(VarName(c, key), e.options[key], None)
  }

  lemma NoStructure(c: Casing)
    ensures StructureVars(c, []) == []
  {}

  lemma FromOption(c: Casing, e: Exporter, key: string, x: EnvVar)
    requires key in e.options
    ensures Remains(c, e, key) <==> Unstructured(c, e, key)
    ensures x == VarFor(c, e, key) <==> x == EnvVar(VarName(c, key), e.options[key], None)
  {
    RemainsIs(c, e, key);
  }
}
