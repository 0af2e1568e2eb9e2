/** The environment of the main container: the user's variables, defaults, and the monitoring options. */
module PodEnv {
  import opened Options
  import opened EnvVars

  datatype Built = Ok(envs: seq<EnvVar>, port: int) | BadPort

  const OPTIONS := "BENTOML_CONFIG_OPTIONS"
  const MONITORING := "monitoring"

  /** The parts that live in other libraries. */
  datatype Library = Library(
    portName: string, basePort: int, atoi: string -> Option<int>, itoa: int -> string, trimSpace: string -> string)

  // ---------------------------------------------------------------- lists of variables

  predicate Has(envs: seq<EnvVar>, name: string) { exists k :: 0 <= k < |envs| && envs[k].name == name }

  /** The first variable of that name. */
  function Lookup(envs: seq<EnvVar>, name: string): Option<EnvVar> {
    if envs == [] then None
    else if Has(envs[..|envs| - 1], name) then Lookup(envs[..|envs| - 1], name)
    else if envs[|envs| - 1].name == name then Some(envs[|envs| - 1])
    else None
  }

  /** Its value. */
  function Value(envs: seq<EnvVar>, name: string): Option<string> {
    match Lookup(envs, name) case None => None case Some(env) => Some(env.value)
  }

  predicate Distinct(envs: seq<EnvVar>) { forall j, k :: 0 <= j < k < |envs| ==> envs[j].name != envs[k].name }

  /** The first variable of each name, in order. */
  function Firsts(envs: seq<EnvVar>): seq<EnvVar> {
    if envs == [] then []
    else
      var init, last := envs[..|envs| - 1], envs[|envs| - 1];
      Firsts(init) + if Has(init, last.name) then [] else [last]
  }

  /** The variables of `envs` whose names are not among `taken`. */
  function Missing(taken: seq<EnvVar>, envs: seq<EnvVar>): seq<EnvVar> {
    if envs == [] then []
    else
      var init, last := envs[..|envs| - 1], envs[|envs| - 1];
      Missing(taken, init) + if Has(taken, last.name) then [] else [last]
  }

  /** All variables but those of one name. */
  function Others(envs: seq<EnvVar>, name: string): seq<EnvVar> {
    if envs == [] then []
    else
      var init, last := envs[..|envs| - 1], envs[|envs| - 1];
      Others(init, name) + if last.name == name then [] else [last]
  }

  lemma {:induction false} LookupHas(envs: seq<EnvVar>, name: string)
    ensures Lookup(envs, name).Some? <==> Has(envs, name)
  {
    if envs != [] {
      var init := envs[..|envs| - 1];
      LookupHas(init, name);
      if Has(envs, name) && !Has(init, name) {
        assert forall k :: 0 <= k < |init| ==> init[k] == envs[k];
      } else if Has(init, name) {
        var k :| 0 <= k < |init| && init[k].name == name;
        assert envs[k].name == name;
      }
    }
  }

  lemma HasSnoc(envs: seq<EnvVar>, last: EnvVar, name: string)
    ensures Has(envs + [last], name) <==> Has(envs, name) || last.name == name
  {
    var all := envs + [last];
    assert all[|envs|] == last && forall k :: 0 <= k < |envs| ==> all[k] == envs[k];
  }

  lemma LookupSnoc(envs: seq<EnvVar>, last: EnvVar, name: string)
    ensures Lookup(envs + [last], name)
         == if Has(envs, name) then Lookup(envs, name) else if last.name == name then Some(last) else None
  {
    assert (envs + [last])[..|envs|] == envs;
  }

  lemma DistinctSnoc(envs: seq<EnvVar>, last: EnvVar)
    requires Distinct(envs) && !Has(envs, last.name)
    ensures Distinct(envs + [last])
  {
    var all := envs + [last];
    assert all[|envs|] == last && forall k :: 0 <= k < |envs| ==> all[k] == envs[k];
  }

  lemma {:induction false} LookupConcat(a: seq<EnvVar>, b: seq<EnvVar>, name: string)
    ensures Has(a + b, name) <==> Has(a, name) || Has(b, name)
    ensures Lookup(a + b, name) == if Has(a, name) then Lookup(a, name) else Lookup(b, name)
    decreases |b|
  {
    hide Has, Lookup;
    if b == [] {
      assert a + b == a;
      LookupHas(a, name);
      LookupNil(name);
    } else {
      var init, last := b[..|b| - 1], b[|b| - 1];
      LookupConcat(a, init, name);
      assert a + b == (a + init) + [last] && b == init + [last];
      HasSnoc(a + init, last, name);
      HasSnoc(init, last, name);
      LookupSnoc(a + init, last, name);
      LookupSnoc(init, last, name);
    }
  }

  lemma LookupNil(name: string)
    ensures Lookup([], name) == None && !Has([], name)
  {}

  // ---------------------------------------------------------------- user variables and defaults

  lemma {:induction false} FirstsLookup(envs: seq<EnvVar>, name: string)
    ensures Lookup(Firsts(envs), name) == Lookup(envs, name)
    ensures Has(Firsts(envs), name) <==> Has(envs, name)
  {
    hide Has, Lookup;
    if envs == [] {
      LookupNil(name);
    } else {
      var init, last := envs[..|envs| - 1], envs[|envs| - 1];
      FirstsLookup(init, name);
      LookupHas(init, name);
      assert envs == init + [last];
      HasSnoc(init, last, name);
      LookupSnoc(init, last, name);
      HasSnoc(Firsts(init), last, name);
      LookupSnoc(Firsts(init), last, name);
      if Has(init, last.name) { assert Firsts(envs) == Firsts(init); }
    }
  }

  lemma {:induction false} FirstsDistinct(envs: seq<EnvVar>)
    ensures Distinct(Firsts(envs))
  {
    hide Has, Lookup, Distinct;
    if envs == [] {
      NilDistinct();
    } else {
      var init, last := envs[..|envs| - 1], envs[|envs| - 1];
      FirstsDistinct(init);
      FirstsLookup(init, last.name);
      if Has(init, last.name) {
        assert Firsts(envs) == Firsts(init);
      } else {
        DistinctSnoc(Firsts(init), last);
      }
    }
  }

  /** Variables keep the order of their first occurrences. */
  lemma {:induction false} FirstsInOrder(envs: seq<EnvVar>, j: nat, k: nat) returns (p: nat, q: nat)
    requires j < k < |Firsts(envs)|
    ensures p < q < |envs| && envs[p] == Firsts(envs)[j] && envs[q] == Firsts(envs)[k]
    decreases |envs|
  {
    hide Has;
    var init := envs[..|envs| - 1];
    if k < |Firsts(init)| {
      p, q := FirstsInOrder(init, j, k);
    } else {
      p := FirstsFrom(init, j);
      q := |init|;
    }
  }

  lemma {:induction false} FirstsFrom(envs: seq<EnvVar>, k: nat) returns (p: nat)
    requires k < |Firsts(envs)|
    ensures p < |envs| && envs[p] == Firsts(envs)[k]
    decreases |envs|
  {
    hide Has;
    var init := envs[..|envs| - 1];
    if k < |Firsts(init)| { p := FirstsFrom(init, k); } else { p := |envs| - 1; }
  }

  lemma NilDistinct()
    ensures Distinct([])
  {}

  lemma {:induction false} MissingLookup(taken: seq<EnvVar>, envs: seq<EnvVar>, name: string)
    ensures Has(Missing(taken, envs), name) <==> Has(envs, name) && !Has(taken, name)
    ensures !Has(taken, name) ==> Lookup(Missing(taken, envs), name) == Lookup(envs, name)
  {
    hide Has, Lookup;
    if envs == [] {
      LookupNil(name);
    } else {
      var init, last := envs[..|envs| - 1], envs[|envs| - 1];
      MissingLookup(taken, init, name);
      LookupHas(init, name);
      assert envs == init + [last];
      HasSnoc(init, last, name);
      LookupSnoc(init, last, name);
      HasSnoc(Missing(taken, init), last, name);
      LookupSnoc(Missing(taken, init), last, name);
      if Has(taken, last.name) { assert Missing(taken, envs) == Missing(taken, init); }
    }
  }

  lemma {:induction false} MissingDistinct(taken: seq<EnvVar>, envs: seq<EnvVar>)
    requires Distinct(taken) && Distinct(envs)
    ensures Distinct(taken + Missing(taken, envs))
  {
    hide Has, Lookup;
    if envs == [] {
      assert taken + Missing(taken, envs) == taken;
    } else {
      var init, last := envs[..|envs| - 1], envs[|envs| - 1];
      assert Distinct(init) by { assert forall k :: 0 <= k < |init| ==> init[k] == envs[k]; }
      MissingDistinct(taken, init);
      if Has(taken, last.name) {
        assert Missing(taken, envs) == Missing(taken, init);
      } else {
        MissingLookup(taken, init, last.name);
        LookupConcat(taken, Missing(taken, init), last.name);
        assert !Has(init, last.name) by { LastIsNew(envs); }
        DistinctSnoc(taken + Missing(taken, init), last);
        assert taken + Missing(taken, envs) == taken + Missing(taken, init) + [last];
      }
    }
  }

  lemma LastIsNew(envs: seq<EnvVar>)
    requires envs != [] && Distinct(envs)
    ensures !Has(envs[..|envs| - 1], envs[|envs| - 1].name)
  {
    assert forall k :: 0 <= k < |envs| - 1 ==> envs[k].name != envs[|envs| - 1].name;
  }

  /** The user's first variable of that name is at index `k`. */
  predicate FirstOf(envs: seq<EnvVar>, name: string, k: nat) {
    k < |envs| && envs[k].name == name && forall j :: 0 <= j < k ==> envs[j].name != name
  }

  predicate NoneOf(envs: seq<EnvVar>, name: string) { forall env :: env in envs ==> env.name != name }

  lemma {:induction false} LookupAt(envs: seq<EnvVar>, name: string, k: nat)
    requires FirstOf(envs, name, k)
    ensures Lookup(envs, name) == Some(envs[k])
    decreases |envs|
  {
    hide Has, Lookup;
    var init, last := envs[..|envs| - 1], envs[|envs| - 1];
    assert envs == init + [last];
    LookupSnoc(init, last, name);
    if k < |init| {
      LookupAt(init, name, k);
      LookupHas(init, name);
    } else {
      assert !Has(init, name) by { NotBefore(envs, name, k); }
    }
  }

  lemma NotBefore(envs: seq<EnvVar>, name: string, k: nat)
    requires FirstOf(envs, name, k)
    ensures !Has(envs[..k], name)
  {}

  lemma {:induction false} FirstExists(envs: seq<EnvVar>, name: string) returns (k: nat)
    requires Lookup(envs, name).Some?
    ensures FirstOf(envs, name, k)
    decreases |envs|
  {
    var init := envs[..|envs| - 1];
    if Has(init, name) {
      LookupHas(init, name);
      k := FirstExists(init, name);
    } else {
      k := |init|;
      forall j | 0 <= j < k ensures envs[j].name != name { assert init[j] == envs[j]; }
    }
  }

  lemma LookupNone(envs: seq<EnvVar>, name: string)
    ensures Lookup(envs, name).None? <==> NoneOf(envs, name)
  {
    hide Lookup;
    LookupHas(envs, name);
    if !NoneOf(envs, name) {
      var env :| env in envs && env.name == name;
      var k :| 0 <= k < |envs| && envs[k] == env;
    }
  }

  lemma LookupIn(envs: seq<EnvVar>, env: EnvVar)
    requires Distinct(envs)
    ensures env in envs <==> Lookup(envs, env.name) == Some(env)
  {
    hide Lookup;
    if env in envs {
      var k: nat :| k < |envs| && envs[k] == env;
      LookupAt(envs, env.name, k);
    }
    if Lookup(envs, env.name) == Some(env) {
      var k := FirstExists(envs, env.name);
      LookupAt(envs, env.name, k);
    }
  }

  /** The port is the user's first value for its variable, if that is a number. */
  function Port(lib: Library, user: seq<EnvVar>): Option<int> {
    match Value(user, lib.portName) case None => Some(lib.basePort) case Some(text) => lib.atoi(text)
  }

  /** The port is the number in the user's first variable for it, or else the default one. */
  ghost predicate PortIs(lib: Library, user: seq<EnvVar>, port: int) {
    && (forall k: nat :: FirstOf(user, lib.portName, k) ==> lib.atoi(user[k].value) == Some(port))
    && (NoneOf(user, lib.portName) ==> port == lib.basePort)
  }

  lemma PortSpelled(lib: Library, user: seq<EnvVar>, port: int)
    requires Port(lib, user) == Some(port)
    ensures PortIs(lib, user, port)
  {
    hide Lookup, NoneOf;
    LookupNone(user, lib.portName);
    forall k: nat | FirstOf(user, lib.portName, k) ensures Lookup(user, lib.portName) == Some(user[k]) {
      LookupAt(user, lib.portName, k);
    }
  }

  function Defaults(lib: Library, port: int, rest: seq<EnvVar>): seq<EnvVar> {
    [EnvVar(lib.portName, lib.itoa(port), None)] + rest
  }

  /** Only the name and the value of a variable are taken over. */
  function Plain(env: EnvVar): EnvVar { EnvVar(env.name, env.value, None) }

  function PlainAll(envs: seq<EnvVar>): (r: seq<EnvVar>)
    ensures |r| == |envs| && forall k :: 0 <= k < |envs| ==> r[k] == Plain(envs[k])
  {
    seq(|envs|, k requires 0 <= k < |envs| => Plain(envs[k]))
  }

  function BuiltEnvs(lib: Library, user: seq<EnvVar>, rest: seq<EnvVar>): Built {
    var plain := PlainAll(user);
    match Port(lib, plain)
    case None => BadPort
    case Some(port) => Built.Ok(Firsts(plain) + Missing(plain, Defaults(lib, port, rest)), port)
  }

  lemma {:induction false} PlainLookup(envs: seq<EnvVar>, name: string)
    ensures Has(PlainAll(envs), name) <==> Has(envs, name)
    ensures Lookup(PlainAll(envs), name)
         == match Lookup(envs, name) case None => None case Some(env) => Some(Plain(env))
    ensures Value(PlainAll(envs), name) == Value(envs, name)
  {
    hide Has, Lookup, Plain;
    if envs == [] {
      LookupNil(name);
      assert PlainAll(envs) == [];
    } else {
      var init, last := envs[..|envs| - 1], envs[|envs| - 1];
      PlainLookup(init, name);
      assert envs == init + [last] && PlainAll(envs) == PlainAll(init) + [Plain(last)];
      PlainName(last);
      LookupSnoc(init, last, name);
      LookupSnoc(PlainAll(init), Plain(last), name);
      HasSnoc(init, last, name);
      HasSnoc(PlainAll(init), Plain(last), name);
      LookupHas(init, name);
    }
  }

  lemma PlainName(env: EnvVar)
    ensures Plain(env).name == env.name && Plain(env).value == env.value
  {}

  /** `user` is the component's list of variables; `rest` the defaults other than the port. */
  method BuildEnvs(lib: Library, user: seq<EnvVar>, rest: seq<EnvVar>) returns (r: Built)
    ensures r == BuiltEnvs(lib, user, rest)
    ensures r.Ok? ==> PortIs(lib, user, r.port)
  {
    hide Has, Lookup;
    ghost var plain := PlainAll(user);
    var envs: seq<EnvVar>, seen: set<string>, port := [], {}, lib.basePort;
    LookupNil(lib.portName);
    forall name ensures !Has([], name) { LookupNil(name); }
    for n := 0 to |user|
      invariant envs == Firsts(plain[..n])
      invariant forall name :: name in seen <==> Has(plain[..n], name)
      invariant Port(lib, plain[..n]) == Some(port)
    {
      var env := EnvVar(user[n].name, user[n].value, None);
      ghost var init, next := plain[..n], plain[..n + 1];
      assert next == init + [env] && next[..n] == init && next[n] == env;
      forall name ensures Has(next, name) <==> Has(init, name) || env.name == name { HasSnoc(init, env, name); }
      LookupSnoc(init, env, lib.portName);
      LookupHas(init, lib.portName);
      if env.name in seen {
        assert Firsts(next) == Firsts(init);
        continue;
      }
      if env.name == lib.portName {
        match lib.atoi(env.value) {
          case None =>
            StaysFirst(plain, n, lib.portName);
            return BadPort;
          case Some(value) => port := value;
        }
      }
      seen := seen + {env.name};
      envs := envs + [env];
    }
    assert plain[..|user|] == plain;
    var defaults := Defaults(lib, port, rest);
    ghost var firsts := envs;
    for n := 0 to |defaults|
      invariant envs == firsts + Missing(plain, defaults[..n])
    {
      assert defaults[..n + 1][..n] == defaults[..n] && defaults[..n + 1][n] == defaults[n];
      if defaults[n].name !in seen { envs := envs + [defaults[n]]; }
    }
    assert defaults[..|defaults|] == defaults;
    r := Built.Ok(envs, port);
    PlainLookup(user, lib.portName);
    PortSpelled(lib, user, port);
  }

  /** Later variables do not change a first value. */
  lemma StaysFirst(user: seq<EnvVar>, n: nat, name: string)
    requires n < |user| && Has(user[..n + 1], name)
    ensures Lookup(user, name) == Lookup(user[..n + 1], name)
  {
    assert user == user[..n + 1] + user[n + 1..];
    LookupConcat(user[..n + 1], user[n + 1..], name);
  }

  /** The names are pairwise distinct; each variable is the user's first one of that name, without its
      source, or else its default; and this fails exactly when the value of the user's first port is not a
      number, which is the case of a port given by a source alone. */
  lemma EnvsExact(lib: Library, user: seq<EnvVar>, rest: seq<EnvVar>)
    requires Distinct(Defaults(lib, 0, rest))
    ensures BuiltEnvs(lib, user, rest).BadPort?
            <==> Value(user, lib.portName).Some? && lib.atoi(Value(user, lib.portName).value).None?
    ensures BuiltEnvs(lib, user, rest).Ok? ==>
              var r := BuiltEnvs(lib, user, rest);
              && Distinct(r.envs) && Firsts(PlainAll(user)) <= r.envs
              && forall name :: Lookup(r.envs, name)
                   == match Lookup(user, name)
                      case Some(env) => Some(Plain(env))
                      case None => Lookup(Defaults(lib, r.port, rest), name)
  {
    hide Has, Lookup, Distinct, Defaults, Firsts, Missing, PlainAll, Plain;
    PlainLookup(user, lib.portName);
    var r, plain := BuiltEnvs(lib, user, rest), PlainAll(user);
    if r.Ok? {
      var firsts, defaults := Firsts(plain), Defaults(lib, r.port, rest);
      assert Distinct(defaults) by { SameNames(lib, r.port, rest); }
      FirstsDistinct(plain);
      assert Missing(firsts, defaults) == Missing(plain, defaults) by { SameMissing(plain, defaults); }
      MissingDistinct(firsts, defaults);
      forall name
        ensures Lookup(r.envs, name)
             == match Lookup(user, name) case Some(env) => Some(Plain(env)) case None => Lookup(defaults, name)
      {
        LookupConcat(firsts, Missing(plain, defaults), name);
        FirstsLookup(plain, name);
        MissingLookup(plain, defaults, name);
        PlainLookup(user, name);
        LookupHas(user, name);
      }
    }
  }

  /** The port and the variables of the container, in terms of the user's list. */
  lemma EnvsSpelled(lib: Library, user: seq<EnvVar>, rest: seq<EnvVar>)
    requires Distinct(Defaults(lib, 0, rest))
    ensures BuiltEnvs(lib, user, rest).BadPort?
            <==> exists k: nat :: FirstOf(user, lib.portName, k) && lib.atoi(user[k].value).None?
    ensures BuiltEnvs(lib, user, rest).Ok? ==>
              var r := BuiltEnvs(lib, user, rest);
              && PortIs(lib, user, r.port)
              && (forall name, k: nat :: FirstOf(user, name, k) ==> EnvVar(name, user[k].value, None) in r.envs)
              && (NoneOf(user, lib.portName) ==> EnvVar(lib.portName, lib.itoa(lib.basePort), None) in r.envs)
              && (forall env :: env in rest && NoneOf(user, env.name) ==> env in r.envs)
              && (forall env :: env in r.envs ==> !NoneOf(user, env.name) || env.name == lib.portName || env in rest)
  {
    hide Lookup, Distinct, Defaults, BuiltEnvs, NoneOf;
    EnvsExact(lib, user, rest);
    LookupNone(user, lib.portName);
    forall k: nat | FirstOf(user, lib.portName, k) ensures Lookup(user, lib.portName) == Some(user[k]) {
      LookupAt(user, lib.portName, k);
    }
    var r := BuiltEnvs(lib, user, rest);
    if Lookup(user, lib.portName).Some? { var k := FirstExists(user, lib.portName); }
    if r.Ok? {
      PortKnown(lib, user, rest);
      PortSpelled(lib, user, r.port);
      forall name, k: nat | FirstOf(user, name, k) ensures EnvVar(name, user[k].value, None) in r.envs {
        LookupAt(user, name, k);
        LookupIn(r.envs, EnvVar(name, user[k].value, None));
      }
      forall env: EnvVar ensures NoneOf(user, env.name) ==> (env in r.envs <==> env in Defaults(lib, r.port, rest)) {
        LookupNone(user, env.name);
        LookupIn(r.envs, env);
        SameNames(lib, r.port, rest);
        LookupIn(Defaults(lib, r.port, rest), env);
      }
      forall env: EnvVar ensures env in Defaults(lib, r.port, rest) <==> env == Default(lib, r.port) || env in rest {
        DefaultsAre(lib, r.port, rest, env);
      }
    }
  }

  function Default(lib: Library, port: int): EnvVar { EnvVar(lib.portName, lib.itoa(port), None) }

  lemma DefaultsAre(lib: Library, port: int, rest: seq<EnvVar>, env: EnvVar)
    ensures env in Defaults(lib, port, rest) <==> env == Default(lib, port) || env in rest
  {}

  lemma PortKnown(lib: Library, user: seq<EnvVar>, rest: seq<EnvVar>)
    requires BuiltEnvs(lib, user, rest).Ok?
    ensures Port(lib, user) == Some(BuiltEnvs(lib, user, rest).port)
  {
    hide Lookup, Firsts, Missing, Defaults;
    PlainLookup(user, lib.portName);
  }

  /** A variable of the user reaches the container as it is if and only if it has no source. */
  lemma SurvivesExact(lib: Library, user: seq<EnvVar>, rest: seq<EnvVar>, name: string)
    requires Distinct(Defaults(lib, 0, rest)) && BuiltEnvs(lib, user, rest).Ok? && Lookup(user, name).Some?
    ensures Lookup(BuiltEnvs(lib, user, rest).envs, name) == Lookup(user, name)
            <==> Lookup(user, name).value.source.None?
  {
    hide Lookup, Distinct, Defaults, BuiltEnvs;
    EnvsExact(lib, user, rest);
  }

  lemma SameNames(lib: Library, port: int, rest: seq<EnvVar>)
    requires Distinct(Defaults(lib, 0, rest))
    ensures Distinct(Defaults(lib, port, rest))
  {
    var a, b := Defaults(lib, 0, rest), Defaults(lib, port, rest);
    assert forall k :: 0 <= k < |a| ==> a[k].name == b[k].name;
  }

  lemma {:induction false} SameMissing(user: seq<EnvVar>, envs: seq<EnvVar>)
    ensures Missing(Firsts(user), envs) == Missing(user, envs)
  {
    hide Has, Firsts;
    if envs != [] {
      SameMissing(user, envs[..|envs| - 1]);
      FirstsLookup(user, envs[|envs| - 1].name);
    }
  }

  // ---------------------------------------------------------------- monitoring

  predicate OccursAt(s: string, t: string, k: int) { 0 <= k <= |s| - |t| && s[k..k + |t|] == t }

  predicate Contains(s: string, t: string) { exists k :: 0 <= k <= |s| && OccursAt(s, t, k) }

  lemma ContainsExact(s: string, t: string)
    ensures Contains(s, t) <==> exists a, b :: s == a + t + b
  {
    if Contains(s, t) {
      var k :| 0 <= k <= |s| && OccursAt(s, t, k);
      assert s == s[..k] + t + s[k + |t|..];
    }
    forall a: string, b: string | s == a + t + b ensures Contains(s, t) {
      assert OccursAt(s, t, |a|);
    }
  }

  /** The exporter's options; the text starts with the word that is searched for. */
  function MonitoringText(lib: Library, port: int): string {
    MONITORING + (".enabled=true\nmonitoring.type=otlp\nmonitoring.options.endpoint=http://127.0.0.1:" + lib.itoa(port)
                  + "\nmonitoring.options.insecure=true")
  }

  /** The options with the monitoring ones added, unless they mention monitoring already. */
  function WithMonitoring(lib: Library, options: Option<string>, text: string): string {
    if options.None? then text
    else if Contains(options.value, MONITORING) then options.value
    else
      var trimmed := lib.trimSpace(options.value);
      if trimmed == "" then text else trimmed + "\n" + text
  }

  method AddMonitoring(lib: Library, envs0: seq<EnvVar>, port: int) returns (envs: seq<EnvVar>)
    ensures Others(envs, OPTIONS) == Others(envs0, OPTIONS)
    ensures Distinct(envs0) ==> Distinct(envs)
    ensures Distinct(envs0) ==>
              Value(envs, OPTIONS) == Some(WithMonitoring(lib, Value(envs0, OPTIONS), MonitoringText(lib, port)))
    ensures Value(envs0, OPTIONS).Some? && Contains(Value(envs0, OPTIONS).value, MONITORING) ==> envs == envs0
    ensures Distinct(envs0) && !(Value(envs0, OPTIONS).Some? && Contains(Value(envs0, OPTIONS).value, MONITORING)) ==>
              envs == Others(envs0, OPTIONS)
                      + [EnvVar(OPTIONS, WithMonitoring(lib, Value(envs0, OPTIONS), MonitoringText(lib, port)), None)]
  {
    hide Lookup, Others, Contains, MonitoringText;
    envs := envs0;
    var text := MonitoringText(lib, port);
    var index := -1;
    for n := 0 to |envs|
      invariant index == -1 && !Has(envs[..n], OPTIONS)
    {
      if envs[n].name == OPTIONS {
        index := n;
        break;
      }
      HasSnoc(envs[..n], envs[n], OPTIONS);
      assert envs[..n + 1] == envs[..n] + [envs[n]];
    }
    LookupHas(envs0, OPTIONS);
    if index == -1 {
      assert envs[..|envs|] == envs;
      NoOthers(envs0, OPTIONS);
      envs := envs + [EnvVar(OPTIONS, text, None)];
      Appended(envs0, text);
    } else {
      FoundAt(envs0, index);
      var options := envs[index].value;
      if !Contains(options, MONITORING) {
        envs := envs[..index] + envs[index + 1..];
        Removed(envs0, index);
        if Distinct(envs0) { NoOthers(envs, OPTIONS); }
        options := lib.trimSpace(options);
        if options != "" { options := options + "\n"; }
        options := options + text;
        ghost var rest := envs;
        envs := envs + [EnvVar(OPTIONS, options, None)];
        Appended(rest, options);
        assert "" + text == text;
      }
    }
  }

  lemma Appended(envs: seq<EnvVar>, text: string)
    ensures Others(envs + [EnvVar(OPTIONS, text, None)], OPTIONS) == Others(envs, OPTIONS)
    ensures !Has(envs, OPTIONS) ==> Value(envs + [EnvVar(OPTIONS, text, None)], OPTIONS) == Some(text)
    ensures !Has(envs, OPTIONS) && Distinct(envs) ==> Distinct(envs + [EnvVar(OPTIONS, text, None)])
  {
    hide Has, Distinct, Lookup;
    var last := EnvVar(OPTIONS, text, None);
    OthersDrop(envs, last);
    LookupSnoc(envs, last, OPTIONS);
    if Distinct(envs) && !Has(envs, OPTIONS) { DistinctSnoc(envs, last); }
  }

  lemma FoundAt(envs: seq<EnvVar>, n: nat)
    requires n < |envs| && envs[n].name == OPTIONS && !Has(envs[..n], OPTIONS)
    ensures Has(envs, OPTIONS) && Value(envs, OPTIONS) == Some(envs[n].value)
  {
    hide Has, Lookup;
    assert envs[..n + 1] == envs[..n] + [envs[n]];
    HasSnoc(envs[..n], envs[n], OPTIONS);
    LookupSnoc(envs[..n], envs[n], OPTIONS);
    StaysFirst(envs, n, OPTIONS);
    HasAt(envs, n);
  }

  lemma HasAt(envs: seq<EnvVar>, n: nat)
    requires n < |envs|
    ensures Has(envs, envs[n].name)
  {}

  lemma {:induction false} OthersConcat(a: seq<EnvVar>, b: seq<EnvVar>, name: string)
    ensures Others(a + b, name) == Others(a, name) + Others(b, name)
    decreases |b|
  {
    if b == [] {
      assert a + b == a;
    } else {
      var init, last := b[..|b| - 1], b[|b| - 1];
      OthersConcat(a, init, name);
      assert (a + b)[..|a + b| - 1] == a + init && (a + b)[|a + b| - 1] == last;
    }
  }

  lemma OthersDrop(envs: seq<EnvVar>, last: EnvVar)
    requires last.name == OPTIONS
    ensures Others(envs + [last], OPTIONS) == Others(envs, OPTIONS)
  {
    assert (envs + [last])[..|envs|] == envs;
    assert Others(envs + [last], OPTIONS) == Others(envs, OPTIONS) + [];
  }

  lemma Removed(envs: seq<EnvVar>, n: nat)
    requires n < |envs| && envs[n].name == OPTIONS
    ensures Others(envs[..n] + envs[n + 1..], OPTIONS) == Others(envs, OPTIONS)
    ensures Distinct(envs) ==> Distinct(envs[..n] + envs[n + 1..]) && !Has(envs[..n] + envs[n + 1..], OPTIONS)
  {
    hide Distinct, Has, Others;
    OthersConcat(envs[..n], envs[n + 1..], OPTIONS);
    OthersConcat(envs[..n] + [envs[n]], envs[n + 1..], OPTIONS);
    assert envs == envs[..n] + [envs[n]] + envs[n + 1..];
    OthersDrop(envs[..n], envs[n]);
    if Distinct(envs) { RemovedDistinct(envs, n); }
  }

  lemma RemovedDistinct(envs: seq<EnvVar>, n: nat)
    requires n < |envs| && Distinct(envs)
    ensures Distinct(envs[..n] + envs[n + 1..]) && !Has(envs[..n] + envs[n + 1..], envs[n].name)
  {
    var rest := envs[..n] + envs[n + 1..];
    assert forall k :: 0 <= k < |rest| ==> rest[k] == if k < n then envs[k] else envs[k + 1];
  }

  /** Afterwards the options mention monitoring, so adding it again changes nothing; what the user wrote
      is kept up to surrounding blanks. */
  lemma MonitoringMentioned(lib: Library, options: Option<string>, port: int)
    ensures var value := WithMonitoring(lib, options, MonitoringText(lib, port));
            && Contains(value, MONITORING)
            && WithMonitoring(lib, Some(value), MonitoringText(lib, port)) == value
            && (options.Some? && lib.trimSpace(options.value) == options.value ==> options.value <= value)
  {
    hide Contains, MonitoringText;
    var text := MonitoringText(lib, port);
    TextMentions(lib, port);
    if options.Some? && !Contains(options.value, MONITORING) {
      var trimmed := lib.trimSpace(options.value);
      ContainsAfter(trimmed + "\n", text);
    }
  }

  lemma TextMentions(lib: Library, port: int)
    ensures Contains(MonitoringText(lib, port), MONITORING)
  {
    var text := MonitoringText(lib, port);
    assert OccursAt(text, MONITORING, 0);
  }

  lemma ContainsAfter(a: string, b: string)
    requires Contains(b, MONITORING)
    ensures Contains(a + b, MONITORING)
  {
    var k :| 0 <= k <= |b| && OccursAt(b, MONITORING, k);
    assert (a + b)[|a| + k..|a| + k + |MONITORING|] == b[k..k + |MONITORING|];
    assert OccursAt(a + b, MONITORING, |a| + k);
  }

  /** The options afterwards, and the variable that holds them. */
  lemma MonitoringSpelled(lib: Library, options: Option<string>, port: int)
    ensures OPTIONS == "BENTOML_CONFIG_OPTIONS"
    ensures MonitoringText(lib, port)
         == "monitoring" + (".enabled=true\nmonitoring.type=otlp\nmonitoring.options.endpoint=http://127.0.0.1:"
                            + lib.itoa(port) + "\nmonitoring.options.insecure=true")
    ensures WithMonitoring(lib, options, MonitoringText(lib, port))
         == if options.Some? && Contains(options.value, "monitoring") then options.value
            else if options.None? || lib.trimSpace(options.value) == "" then MonitoringText(lib, port)
            else lib.trimSpace(options.value) + "\n" + MonitoringText(lib, port)
  {
    hide Contains;
  }

  lemma {:induction false} NoOthers(envs: seq<EnvVar>, name: string)
    requires !Has(envs, name)
    ensures Others(envs, name) == envs
  {
    hide Has;
    if envs != [] {
      var init, last := envs[..|envs| - 1], envs[|envs| - 1];
      assert envs == init + [last];
      HasSnoc(init, last, name);
      NoOthers(init, name);
    }
  }

  lemma {:induction false} OthersAre(envs: seq<EnvVar>, name: string, env: EnvVar)
    ensures env in Others(envs, name) <==> env in envs && env.name != name
  {
    if envs != [] {
      var init, last := envs[..|envs| - 1], envs[|envs| - 1];
      OthersAre(init, name, env);
      assert envs == init + [last];
    }
  }

  // ---------------------------------------------------------------- both together

  /** The environment of the main container; the exporter's port is counted up from the default port. */
  method GenerateEnvs(lib: Library, user: seq<EnvVar>, rest: seq<EnvVar>, needMonitor: bool) returns (r: Built)
    requires Distinct(Defaults(lib, 0, rest))
    ensures r.BadPort? <==> BuiltEnvs(lib, user, rest).BadPort?
    ensures r.Ok? ==> PortIs(lib, user, r.port)
    ensures r.Ok? ==>
              var built := BuiltEnvs(lib, user, rest);
              && Distinct(r.envs) && r.port == built.port && Others(r.envs, OPTIONS) == Others(built.envs, OPTIONS)
              && Value(r.envs, OPTIONS) ==
                 if needMonitor
                 then Some(WithMonitoring(lib, Value(built.envs, OPTIONS), MonitoringText(lib, lib.basePort + 2)))
                 else Value(built.envs, OPTIONS)
  {
    hide Lookup, Others, WithMonitoring, MonitoringText, Distinct, BuiltEnvs, Defaults, PortIs;
    EnvsExact(lib, user, rest);
    r := BuildEnvs(lib, user, rest);
    if r.Ok? && needMonitor {
      var envs := AddMonitoring(lib, r.envs, lib.basePort + 2);
      r := Built.Ok(envs, r.port);
    }
  }
}
