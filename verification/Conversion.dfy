/** Whole BentoDeployments converted from the v1alpha3 API to v2alpha1 and back. */
module Conversion {
  import opened Options
  import opened EnvVars
  import opened Autoscaling

  datatype Item = Item(key: string, value: string)

  type Texts = map<string, string>

  /** What v2alpha1 has for pods; v1alpha3 has the common fields only. */
  datatype PodSpec = PodSpec(common: string, containers: seq<string>, serviceAccount: string)

  /** `rest` are the fields copied unchanged in both directions. */
  datatype OldRunner = OldRunner(
    name: string, annotations: Texts, labels: Texts, autoscaling: Option<OldHpa>, envs: Option<seq<Item>>,
    podSpec: Option<string>, rest: string)

  datatype NewRunner = NewRunner(
    name: string, annotations: Texts, labels: Texts, autoscaling: Option<NewHpa>, envs: Option<seq<EnvVar>>,
    podSpec: Option<PodSpec>, rest: string)

  datatype OldSpec = OldSpec(
    annotations: Texts, labels: Texts, bentoTag: string, autoscaling: Option<OldHpa>, envs: Option<seq<Item>>,
    runners: seq<OldRunner>, podSpec: Option<string>, rest: string)

  datatype NewSpec = NewSpec(
    annotations: Texts, labels: Texts, bento: string, autoscaling: Option<NewHpa>, envs: Option<seq<EnvVar>>,
    runners: seq<NewRunner>, monitorExporter: Option<string>, podSpec: Option<PodSpec>, rest: string)

  // ---------------------------------------------------------------- environment variables

  function NewEnvs(items: seq<Item>): seq<EnvVar> {
    if items == [] then []
    else NewEnvs(items[..|items| - 1]) + [EnvVar(items[|items| - 1].key, items[|items| - 1].value, None)]
  }

  function OldEnvs(envs: seq<EnvVar>): seq<Item> {
    if envs == [] then []
    else
      var last := envs[|envs| - 1];
      OldEnvs(envs[..|envs| - 1]) + if last.value == "" then [] else [Item(last.name, last.value)]
  }

  /** The items that have a value, in order. */
  function Valued(items: seq<Item>): seq<Item> {
    if items == [] then []
    else Valued(items[..|items| - 1]) + if items[|items| - 1].value == "" then [] else [items[|items| - 1]]
  }

  method TransformToNewEnvs(items: Option<seq<Item>>) returns (envs: Option<seq<EnvVar>>)
    ensures envs == if items.None? then None else Some(NewEnvs(items.value))
  {
    if items.None? { return None; }
    var result: seq<EnvVar> := [];
    for n := 0 to |items.value|
      invariant result == NewEnvs(items.value[..n])
    {
      assert items.value[..n + 1][..n] == items.value[..n];
      result := result + [EnvVar(items.value[n].key, items.value[n].value, None)];
    }
    assert items.value[..|items.value|] == items.value;
    envs := Some(result);
  }

  method TransformToOldEnvs(envs: Option<seq<EnvVar>>) returns (items: Option<seq<Item>>)
    ensures items == if envs.None? then None else Some(OldEnvs(envs.value))
  {
    if envs.None? { return None; }
    var result: seq<Item> := [];
    for n := 0 to |envs.value|
      invariant result == OldEnvs(envs.value[..n])
    {
      assert envs.value[..n + 1][..n] == envs.value[..n];
      if envs.value[n].value == "" { continue; }
      result := result + [Item(envs.value[n].name, envs.value[n].value)];
    }
    assert envs.value[..|envs.value|] == envs.value;
    items := Some(result);
  }

  /** A round drops the variables without a value and keeps the others in order. */
  lemma {:induction false} EnvsRound(items: seq<Item>)
    ensures OldEnvs(NewEnvs(items)) == Valued(items)
  {
    if items != [] {
      var init, last := items[..|items| - 1], items[|items| - 1];
      EnvsRound(init);
      assert NewEnvs(items)[..|NewEnvs(items)| - 1] == NewEnvs(init);
    }
  }

  lemma {:induction false} ValuedTwice(items: seq<Item>)
    ensures Valued(Valued(items)) == Valued(items)
  {
    if items != [] {
      var init, last := items[..|items| - 1], items[|items| - 1];
      ValuedTwice(init);
      if last.value == "" {
        assert Valued(items) == Valued(init);
      } else {
        assert Valued(items)[..|Valued(items)| - 1] == Valued(init);
      }
    }
  }

  predicate Plain(env: EnvVar) { env.value != "" && env.source.None? }

  /** What a round in the other direction leaves of a list. */
  lemma {:induction false} NewEnvsRound(envs: seq<EnvVar>)
    requires envs != []
    ensures var init, last := envs[..|envs| - 1], envs[|envs| - 1];
            NewEnvs(OldEnvs(envs)) == NewEnvs(OldEnvs(init)) + if last.value == "" then [] else [last.(source := None)]
  {
    var init, last := envs[..|envs| - 1], envs[|envs| - 1];
    if last.value == "" {
      assert OldEnvs(envs) == OldEnvs(init);
    } else {
      assert OldEnvs(envs)[..|OldEnvs(envs)| - 1] == OldEnvs(init);
    }
  }

  /** In the other direction a list survives exactly when every variable has a value of its own and no
      other source. */
  lemma {:induction false} NewEnvsRoundExact(envs: seq<EnvVar>)
    ensures NewEnvs(OldEnvs(envs)) == envs <==> AllPlain(envs)
    ensures |NewEnvs(OldEnvs(envs))| <= |envs|
  {
    hide OldEnvs, NewEnvs, Plain, AllPlain;
    if envs == [] {
      NothingToRound();
    } else {
      var init, last := envs[..|envs| - 1], envs[|envs| - 1];
      NewEnvsRoundExact(init);
      NewEnvsRound(envs);
      LastPlain(last);
      AllPlainSnoc(init, last);
      SnocEqual(NewEnvs(OldEnvs(init)), last.(source := None), init, last);
      assert envs == init + [last];
    }
  }

  predicate AllPlain(envs: seq<EnvVar>) { forall k :: 0 <= k < |envs| ==> Plain(envs[k]) }

  lemma NothingToRound()
    ensures NewEnvs(OldEnvs([])) == [] && AllPlain([])
  {}

  lemma LastPlain(last: EnvVar)
    ensures Plain(last) <==> last.value != "" && last.(source := None) == last
  {}

  lemma AllPlainSnoc(init: seq<EnvVar>, last: EnvVar)
    ensures AllPlain(init + [last]) <==> AllPlain(init) && Plain(last)
  {
    hide Plain;
    var envs := init + [last];
    assert envs[|init|] == last && forall k :: 0 <= k < |init| ==> envs[k] == init[k];
  }

  lemma SnocEqual<T>(a: seq<T>, x: T, b: seq<T>, y: T)
    ensures a + [x] == b + [y] <==> a == b && x == y
  {
    if a + [x] == b + [y] {
      assert a == (a + [x])[..|a|] && b == (b + [y])[..|b|] && |a + [x]| == |b + [y]|;
      assert (a + [x])[|a|] == x && (b + [y])[|b|] == y;
    }
  }

  // ---------------------------------------------------------------- specifications

  function NewAutoscaling(lib: Library, hpa: Option<OldHpa>): Result<Option<NewHpa>> {
    if hpa.None? then Success(None)
    else match ToNew(lib, hpa.value) case Success(n) => Success(Some(n)) case Failure => Failure
  }

  function OldAutoscaling(lib: Library, hpa: Option<NewHpa>): Option<OldHpa> {
    if hpa.None? then None else Some(ToOld(lib, hpa.value))
  }

  function MapEnvs(items: Option<seq<Item>>): Option<seq<EnvVar>> {
    if items.None? then None else Some(NewEnvs(items.value))
  }

  function MapItems(envs: Option<seq<EnvVar>>): Option<seq<Item>> {
    if envs.None? then None else Some(OldEnvs(envs.value))
  }

  function ToNewPodSpec(p: Option<string>): Option<PodSpec> { if p.None? then None else Some(PodSpec(p.value, [], "")) }

  function ToOldPodSpec(p: Option<PodSpec>): Option<string> { if p.None? then None else Some(p.value.common) }

  /** Annotations and labels of a runner are not copied. */
  function ToNewRunner(lib: Library, r: OldRunner): Result<NewRunner> {
    match NewAutoscaling(lib, r.autoscaling)
    case Failure => Failure
    case Success(hpa) => Success(NewRunner(r.name, map[], map[], hpa, MapEnvs(r.envs), ToNewPodSpec(r.podSpec), r.rest))
  }

  function ToOldRunner(lib: Library, r: NewRunner): OldRunner {
    OldRunner(
      r.name, map[], map[], OldAutoscaling(lib, r.autoscaling), MapItems(r.envs), ToOldPodSpec(r.podSpec), r.rest)
  }

  function ToNewRunners(lib: Library, rs: seq<OldRunner>): Result<seq<NewRunner>> {
    if rs == [] then Success([])
    else
      match (ToNewRunners(lib, rs[..|rs| - 1]), ToNewRunner(lib, rs[|rs| - 1]))
      case (Success(init), Success(last)) => Success(init + [last])
      case _ => Failure
  }

  function ToOldRunners(lib: Library, rs: seq<NewRunner>): seq<OldRunner> {
    if rs == [] then [] else ToOldRunners(lib, rs[..|rs| - 1]) + [ToOldRunner(lib, rs[|rs| - 1])]
  }

  function ToNewSpec(lib: Library, src: OldSpec, bento: string): Result<NewSpec> {
    match (NewAutoscaling(lib, src.autoscaling), ToNewRunners(lib, src.runners))
    case (Success(hpa), Success(runners)) =>
      Success(NewSpec(
        map[], map[], bento, hpa, MapEnvs(src.envs), runners, None, ToNewPodSpec(src.podSpec), src.rest))
    case _ => Failure
  }

  function ToOldSpec(lib: Library, src: NewSpec, tag: string): OldSpec {
    OldSpec(
      map[], map[], tag, OldAutoscaling(lib, src.autoscaling), MapItems(src.envs),
      ToOldRunners(lib, src.runners), ToOldPodSpec(src.podSpec), src.rest)
  }

  lemma {:induction false} FailsEarly(lib: Library, rs: seq<OldRunner>, n: nat)
    requires n <= |rs| && ToNewRunners(lib, rs[..n]).Failure?
    ensures ToNewRunners(lib, rs).Failure?
    decreases |rs| - n
  {
    hide ToNewRunner;
    if n == |rs| {
      assert rs[..n] == rs;
    } else {
      assert rs[..n + 1][..n] == rs[..n];
      FailsEarly(lib, rs, n + 1);
    }
  }

  lemma NoRunners(lib: Library)
    ensures ToNewRunners(lib, []) == Success([])
  {}

  lemma OneMoreRunner(lib: Library, rs: seq<OldRunner>, n: nat)
    requires n < |rs|
    ensures ToNewRunners(lib, rs[..n + 1])
         == match (ToNewRunners(lib, rs[..n]), ToNewRunner(lib, rs[n]))
            case (Success(init), Success(last)) => Success(init + [last])
            case _ => Failure
  {
    hide ToNewRunner;
    assert rs[..n + 1][..n] == rs[..n];
  }

  method ConvertToV2alpha1(lib: Library, src: OldSpec, bento: string) returns (dst: Result<NewSpec>)
    ensures dst == ToNewSpec(lib, src, bento)
  {
    hide ToNew, NewEnvs, ToNewRunners;
    assert ToNewRunners(lib, src.runners[..0]) == Success([]) by { NoRunners(lib); }
    var hpa := TransformToNewHPA(lib, src.autoscaling);
    if hpa.Failure? { return Failure; }
    var envs := TransformToNewEnvs(src.envs);
    var runners: seq<NewRunner> := [];
    for n := 0 to |src.runners|
      invariant ToNewRunners(lib, src.runners[..n]) == Success(runners)
    {
      var runner := src.runners[n];
      OneMoreRunner(lib, src.runners, n);
      var runnerHpa := TransformToNewHPA(lib, runner.autoscaling);
      if runnerHpa.Failure? {
        FailsEarly(lib, src.runners, n + 1);
        return Failure;
      }
      var runnerEnvs := TransformToNewEnvs(runner.envs);
      var podSpec := if runner.podSpec.None? then None else Some(PodSpec(runner.podSpec.value, [], ""));
      runners := runners + [NewRunner(runner.name, map[], map[], runnerHpa.value, runnerEnvs, podSpec, runner.rest)];
    }
    assert src.runners[..|src.runners|] == src.runners;
    var podSpec := if src.podSpec.None? then None else Some(PodSpec(src.podSpec.value, [], ""));
    dst := Success(NewSpec(map[], map[], bento, hpa.value, envs, runners, None, podSpec, src.rest));
  }

  /** `tag` is the tag of the Bento the specification names, if it was found. */
  method ConvertFrom(lib: Library, src: NewSpec, tag: Result<string>) returns (dst: Result<OldSpec>)
    ensures dst == match tag case Failure => Failure case Success(t) => Success(ToOldSpec(lib, src, t))
  {
    hide ToOld;
    if tag.Failure? { return Failure; }
    var hpa := TransformToOldHPA(lib, src.autoscaling);
    var envs := TransformToOldEnvs(src.envs);
    var runners: seq<OldRunner> := [];
    for n := 0 to |src.runners|
      invariant runners == ToOldRunners(lib, src.runners[..n])
    {
      var runner := src.runners[n];
      assert src.runners[..n + 1][..n] == src.runners[..n];
      var runnerHpa := TransformToOldHPA(lib, runner.autoscaling);
      var runnerEnvs := TransformToOldEnvs(runner.envs);
      var podSpec := if runner.podSpec.None? then None else Some(runner.podSpec.value.common);
      runners := runners + [OldRunner(runner.name, map[], map[], runnerHpa, runnerEnvs, podSpec, runner.rest)];
    }
    assert src.runners[..|src.runners|] == src.runners;
    var podSpec := if src.podSpec.None? then None else Some(src.podSpec.value.common);
    dst := Success(OldSpec(map[], map[], tag.value, hpa, envs, runners, podSpec, src.rest));
  }

  // ---------------------------------------------------------------- field by field

  lemma {:induction false} NewEnvsSpelled(items: seq<Item>)
    ensures |NewEnvs(items)| == |items|
    ensures forall k :: 0 <= k < |items| ==> NewEnvs(items)[k] == EnvVar(items[k].key, items[k].value, None)
  {
    if items != [] { NewEnvsSpelled(items[..|items| - 1]); }
  }

  /** One variable after the other, those without a value left out. */
  lemma {:induction false} OldEnvsSpelled(a: seq<EnvVar>, b: seq<EnvVar>, env: EnvVar)
    ensures OldEnvs(a + b) == OldEnvs(a) + OldEnvs(b)
    ensures OldEnvs([env]) == if env.value == "" then [] else [Item(env.name, env.value)]
    decreases |b|
  {
    if b == [] {
      assert a + b == a;
    } else {
      var init, last := b[..|b| - 1], b[|b| - 1];
      OldEnvsSpelled(a, init, env);
      assert (a + b)[..|a + b| - 1] == a + init && (a + b)[|a + b| - 1] == last;
    }
  }

  /** What becomes of the parts every component has. */
  ghost predicate Upgraded(
    lib: Library, hpa: Option<OldHpa>, envs: Option<seq<Item>>, pods: Option<string>,
    hpa': Option<NewHpa>, envs': Option<seq<EnvVar>>, pods': Option<PodSpec>)
  {
    && (if hpa.None? then hpa' == None else hpa'.Some? && ToNew(lib, hpa.value) == Success(hpa'.value))
    && (if envs.None? then envs' == None
        else
          && envs'.Some? && |envs'.value| == |envs.value|
          && forall k :: 0 <= k < |envs.value| ==>
              envs'.value[k] == EnvVar(envs.value[k].key, envs.value[k].value, None))
    && pods' == if pods.None? then None else Some(PodSpec(pods.value, [], ""))
  }

  lemma PartsUpgraded(lib: Library, hpa: Option<OldHpa>, envs: Option<seq<Item>>, pods: Option<string>)
    requires NewAutoscaling(lib, hpa).Success?
    ensures Upgraded(lib, hpa, envs, pods, NewAutoscaling(lib, hpa).value, MapEnvs(envs), ToNewPodSpec(pods))
  {
    hide ToNew, NewEnvs;
    if envs.Some? { NewEnvsSpelled(envs.value); }
  }

  lemma {:induction false} RunnersUpgraded(lib: Library, rs: seq<OldRunner>)
    requires ToNewRunners(lib, rs).Success?
    ensures |ToNewRunners(lib, rs).value| == |rs|
    ensures forall k :: 0 <= k < |rs| ==> ToNewRunner(lib, rs[k]) == Success(ToNewRunners(lib, rs).value[k])
  {
    hide ToNewRunner;
    if rs != [] { RunnersUpgraded(lib, rs[..|rs| - 1]); }
  }

  /** A v1alpha3 specification as v2alpha1: each field where it comes from, and nothing in the others. */
  lemma NewSpecSpelled(lib: Library, src: OldSpec, bento: string)
    requires ToNewSpec(lib, src, bento).Success?
    ensures var n := ToNewSpec(lib, src, bento).value;
            && n.annotations == n.labels == map[] && n.bento == bento && n.monitorExporter == None && n.rest == src.rest
            && Upgraded(lib, src.autoscaling, src.envs, src.podSpec, n.autoscaling, n.envs, n.podSpec)
            && |n.runners| == |src.runners|
            && forall k :: 0 <= k < |src.runners| ==>
                 var r, r' := src.runners[k], n.runners[k];
                 && r'.name == r.name && r'.annotations == r'.labels == map[] && r'.rest == r.rest
                 && Upgraded(lib, r.autoscaling, r.envs, r.podSpec, r'.autoscaling, r'.envs, r'.podSpec)
  {
    hide NewAutoscaling, MapEnvs, ToNewPodSpec, ToNewRunners, Upgraded;
    PartsUpgraded(lib, src.autoscaling, src.envs, src.podSpec);
    RunnersUpgraded(lib, src.runners);
    forall k | 0 <= k < |src.runners|
      ensures var r, r' := src.runners[k], ToNewRunners(lib, src.runners).value[k];
              && r'.name == r.name && r'.annotations == r'.labels == map[] && r'.rest == r.rest
              && Upgraded(lib, r.autoscaling, r.envs, r.podSpec, r'.autoscaling, r'.envs, r'.podSpec)
    {
      var r := src.runners[k];
      assert ToNewRunner(lib, r).Success?;
      PartsUpgraded(lib, r.autoscaling, r.envs, r.podSpec);
    }
  }

  lemma {:induction false} RunnersFail(lib: Library, rs: seq<OldRunner>)
    ensures ToNewRunners(lib, rs).Failure? <==> exists r :: r in rs && NewAutoscaling(lib, r.autoscaling).Failure?
  {
    hide NewAutoscaling, MapEnvs;
    if rs != [] {
      var init, last := rs[..|rs| - 1], rs[|rs| - 1];
      RunnersFail(lib, init);
      assert rs == init + [last];
    }
  }

  /** A memory target whose text is no quantity. */
  predicate BadMemory(lib: Library, hpa: Option<OldHpa>) {
    && hpa.Some? && hpa.value.memory.Some?
    && hpa.value.memory.value != "" && !lib.parses(hpa.value.memory.value)
  }

  /** A conversion fails if and only if the memory target of some component does not parse. */
  lemma FailureExact(lib: Library, src: OldSpec, bento: string)
    ensures ToNewSpec(lib, src, bento).Failure?
            <==> BadMemory(lib, src.autoscaling) || exists r :: r in src.runners && BadMemory(lib, r.autoscaling)
  {
    hide MapEnvs, ToNewRunners;
    RunnersFail(lib, src.runners);
    forall hpa ensures NewAutoscaling(lib, hpa).Failure? <==> BadMemory(lib, hpa) {}
  }

  /** What becomes of them on the way back. */
  predicate Downgraded(
    lib: Library, hpa: Option<NewHpa>, envs: Option<seq<EnvVar>>, pods: Option<PodSpec>,
    hpa': Option<OldHpa>, envs': Option<seq<Item>>, pods': Option<string>)
  {
    && hpa' == (if hpa.None? then None else Some(ToOld(lib, hpa.value)))
    && envs' == (if envs.None? then None else Some(OldEnvs(envs.value)))
    && pods' == if pods.None? then None else Some(pods.value.common)
  }

  lemma {:induction false} RunnersDowngraded(lib: Library, rs: seq<NewRunner>)
    ensures |ToOldRunners(lib, rs)| == |rs|
    ensures forall k :: 0 <= k < |rs| ==> ToOldRunners(lib, rs)[k] == ToOldRunner(lib, rs[k])
  {
    hide ToOldRunner;
    if rs != [] { RunnersDowngraded(lib, rs[..|rs| - 1]); }
  }

  /** A v2alpha1 specification as v1alpha3. */
  lemma OldSpecSpelled(lib: Library, src: NewSpec, tag: string)
    ensures var o := ToOldSpec(lib, src, tag);
            && o.annotations == o.labels == map[] && o.bentoTag == tag && o.rest == src.rest
            && Downgraded(lib, src.autoscaling, src.envs, src.podSpec, o.autoscaling, o.envs, o.podSpec)
            && |o.runners| == |src.runners|
            && forall k :: 0 <= k < |src.runners| ==>
                 var r, r' := src.runners[k], o.runners[k];
                 && r'.name == r.name && r'.annotations == r'.labels == map[] && r'.rest == r.rest
                 && Downgraded(lib, r.autoscaling, r.envs, r.podSpec, r'.autoscaling, r'.envs, r'.podSpec)
  {
    hide ToOld, OldEnvs, ToOldRunners;
    RunnersDowngraded(lib, src.runners);
  }

  // ---------------------------------------------------------------- there and back

  function RoundSpec(lib: Library, s: OldSpec, bento: string): Result<OldSpec> {
    match ToNewSpec(lib, s, bento) case Failure => Failure case Success(n) => Success(ToOldSpec(lib, n, s.bentoTag))
  }

  predicate AllConvertible(lib: Library, s: OldSpec) {
    && (s.autoscaling.Some? ==> Convertible(lib, s.autoscaling.value))
    && forall k :: 0 <= k < |s.runners| && s.runners[k].autoscaling.Some? ==>
        Convertible(lib, s.runners[k].autoscaling.value)
  }

  /** No component's settings consist of nothing but memory. */
  predicate NoneMemoryOnly(s: OldSpec) {
    && (s.autoscaling.Some? ==> !MemoryOnly(s.autoscaling.value))
    && forall k :: 0 <= k < |s.runners| && s.runners[k].autoscaling.Some? ==>
        !MemoryOnly(s.runners[k].autoscaling.value)
  }

  function RoundedHpa(lib: Library, hpa: Option<OldHpa>): Option<OldHpa> {
    if hpa.None? then None
    else match Round(lib, hpa.value) case Success(h) => Some(h) case Failure => None
  }

  function RoundedRunner(lib: Library, r: OldRunner): OldRunner {
    OldRunner(
      r.name, map[], map[], RoundedHpa(lib, r.autoscaling),
      if r.envs.None? then None else Some(Valued(r.envs.value)), r.podSpec, r.rest)
  }

  lemma RunnerRound(lib: Library, r: OldRunner)
    requires Sane(lib) && (r.autoscaling.Some? ==> Convertible(lib, r.autoscaling.value))
    ensures ToNewRunner(lib, r).Success? && ToOldRunner(lib, ToNewRunner(lib, r).value) == RoundedRunner(lib, r)
  {
    hide ToNew, ToOld, Convertible, NewEnvs, OldEnvs, Valued;
    if r.autoscaling.Some? { RoundIs(lib, r.autoscaling.value); }
    if r.envs.Some? { EnvsRound(r.envs.value); }
  }

  lemma {:induction false} RunnersRound(lib: Library, rs: seq<OldRunner>)
    requires Sane(lib)
    requires forall k :: 0 <= k < |rs| && rs[k].autoscaling.Some? ==> Convertible(lib, rs[k].autoscaling.value)
    ensures ToNewRunners(lib, rs).Success?
    ensures var back := ToOldRunners(lib, ToNewRunners(lib, rs).value);
            |back| == |rs| && forall k :: 0 <= k < |rs| ==> back[k] == RoundedRunner(lib, rs[k])
  {
    hide ToNewRunner, ToOldRunner, RoundedRunner, Convertible;
    if rs != [] {
      var init, last := rs[..|rs| - 1], rs[|rs| - 1];
      RunnersRound(lib, init);
      RunnerRound(lib, last);
      var all := ToNewRunners(lib, rs).value;
      assert all[..|all| - 1] == ToNewRunners(lib, init).value;
    }
  }

  /** A round keeps the Bento's tag, the runners with their names and order, the variables that have a
      value and all fields that are simply copied; it clears all annotations and labels and brings the
      autoscaling settings into their normal form. */
  lemma SpecRound(lib: Library, s: OldSpec, bento: string)
    requires Sane(lib) && AllConvertible(lib, s)
    ensures RoundSpec(lib, s, bento).Success?
    ensures var r := RoundSpec(lib, s, bento).value;
            && r.annotations == map[] && r.labels == map[] && r.bentoTag == s.bentoTag
            && r.podSpec == s.podSpec && r.rest == s.rest
            && r.autoscaling == RoundedHpa(lib, s.autoscaling)
            && r.envs == (if s.envs.None? then None else Some(Valued(s.envs.value)))
            && |r.runners| == |s.runners|
            && forall k :: 0 <= k < |s.runners| ==> r.runners[k] == RoundedRunner(lib, s.runners[k])
  {
    hide ToNew, ToOld, Convertible, RoundedRunner, ToNewRunners, ToOldRunners;
    if s.autoscaling.Some? { RoundIs(lib, s.autoscaling.value); }
    if s.envs.Some? { EnvsRound(s.envs.value); }
    RunnersRound(lib, s.runners);
  }

  lemma HpaTwice(lib: Library, hpa: Option<OldHpa>)
    requires Sane(lib) && (hpa.Some? ==> Convertible(lib, hpa.value))
    ensures var h := RoundedHpa(lib, hpa);
            && h.Some? == hpa.Some? && (h.Some? ==> Convertible(lib, h.value))
            && (RoundedHpa(lib, h) == h <==> hpa.None? || !MemoryOnly(hpa.value))
  {
    hide Round, Convertible, MemoryOnly;
    if hpa.Some? {
      RoundIs(lib, hpa.value);
      NoMemory(lib, Round(lib, hpa.value).value);
      RoundIs(lib, Round(lib, hpa.value).value);
      RoundsAre(lib, hpa.value);
      TwoRoundsExact(lib, hpa.value);
    }
  }

  lemma RunnerTwice(lib: Library, r: OldRunner)
    requires Sane(lib) && (r.autoscaling.Some? ==> Convertible(lib, r.autoscaling.value))
    ensures var x := RoundedRunner(lib, r);
            && (x.autoscaling.Some? ==> Convertible(lib, x.autoscaling.value))
            && (RoundedRunner(lib, x) == x <==> r.autoscaling.None? || !MemoryOnly(r.autoscaling.value))
  {
    hide RoundedHpa, Convertible, MemoryOnly;
    HpaTwice(lib, r.autoscaling);
    if r.envs.Some? { ValuedTwice(r.envs.value); }
  }

  /** A converted BentoDeployment survives every further round exactly when no component of the original
      had memory as its only positive autoscaling setting. */
  lemma SpecTwoRoundsExact(lib: Library, s: OldSpec, bento: string)
    requires Sane(lib) && AllConvertible(lib, s)
    ensures RoundSpec(lib, s, bento).Success?
    ensures var r := RoundSpec(lib, s, bento).value; RoundSpec(lib, r, bento) == Success(r) <==> NoneMemoryOnly(s)
  {
    hide RoundSpec, RoundedRunner, RoundedHpa, Convertible, MemoryOnly;
    SpecRound(lib, s, bento);
    var r := RoundSpec(lib, s, bento).value;
    HpaTwice(lib, s.autoscaling);
    if s.envs.Some? { ValuedTwice(s.envs.value); }
    forall k | 0 <= k < |s.runners|
      ensures r.runners[k].autoscaling.Some? ==> Convertible(lib, r.runners[k].autoscaling.value)
      ensures RoundedRunner(lib, r.runners[k]) == r.runners[k]
              <==> s.runners[k].autoscaling.None? || !MemoryOnly(s.runners[k].autoscaling.value)
    {
      RunnerTwice(lib, s.runners[k]);
    }
    SpecRound(lib, r, bento);
    var again := RoundSpec(lib, r, bento).value;
    if NoneMemoryOnly(s) {
      assert again.runners == r.runners;
    } else if again.runners == r.runners {
      assert forall k :: 0 <= k < |s.runners| ==> RoundedRunner(lib, r.runners[k]) == r.runners[k];
    }
  }

  // ---------------------------------------------------------------- the other way round

  /** One round of a v2alpha1 specification through v1alpha3; `tag` is the tag of its Bento and `bento` the
      name a Bento with that tag is given. */
  function NewRound(lib: Library, s: NewSpec, tag: string, bento: string): Result<NewSpec> {
    ToNewSpec(lib, ToOldSpec(lib, s, tag), bento)
  }

  predicate HpaSurvives(lib: Library, hpa: Option<NewHpa>) {
    hpa.Some? ==> hpa.value.behavior.None? && Normal(lib, hpa.value.metrics)
  }

  predicate EnvsSurvive(envs: Option<seq<EnvVar>>) { envs.Some? ==> AllPlain(envs.value) }

  predicate PodSpecSurvives(p: Option<PodSpec>) { p.Some? ==> p.value.containers == [] && p.value.serviceAccount == "" }

  predicate RunnerSurvives(lib: Library, r: NewRunner) {
    && r.annotations == map[] && r.labels == map[]
    && HpaSurvives(lib, r.autoscaling) && EnvsSurvive(r.envs) && PodSpecSurvives(r.podSpec)
  }

  predicate SpecSurvives(lib: Library, s: NewSpec) {
    && s.annotations == map[] && s.labels == map[] && s.monitorExporter.None?
    && HpaSurvives(lib, s.autoscaling) && EnvsSurvive(s.envs) && PodSpecSurvives(s.podSpec)
    && forall k :: 0 <= k < |s.runners| ==> RunnerSurvives(lib, s.runners[k])
  }

  lemma PartsSurvive(lib: Library, hpa: Option<NewHpa>, envs: Option<seq<EnvVar>>, p: Option<PodSpec>)
    requires Sane(lib)
    ensures NewAutoscaling(lib, OldAutoscaling(lib, hpa)) == Success(hpa) <==> HpaSurvives(lib, hpa)
    ensures MapEnvs(MapItems(envs)) == envs <==> EnvsSurvive(envs)
    ensures ToNewPodSpec(ToOldPodSpec(p)) == p <==> PodSpecSurvives(p)
  {
    hide ToNew, ToOld, Normal, AllPlain, NewEnvs, OldEnvs;
    if hpa.Some? { NewFixedExact(lib, hpa.value); }
    if envs.Some? { NewEnvsRoundExact(envs.value); }
  }

  lemma RunnerSurvivesExact(lib: Library, r: NewRunner)
    requires Sane(lib)
    ensures ToNewRunner(lib, ToOldRunner(lib, r)) == Success(r) <==> RunnerSurvives(lib, r)
  {
    hide NewAutoscaling, OldAutoscaling, MapEnvs, MapItems, ToNewPodSpec, ToOldPodSpec, HpaSurvives, EnvsSurvive,
         PodSpecSurvives;
    PartsSurvive(lib, r.autoscaling, r.envs, r.podSpec);
  }

  predicate AllSurvive(lib: Library, rs: seq<NewRunner>) { forall k :: 0 <= k < |rs| ==> RunnerSurvives(lib, rs[k]) }

  lemma AllSurviveSnoc(lib: Library, init: seq<NewRunner>, last: NewRunner)
    ensures AllSurvive(lib, init + [last]) <==> AllSurvive(lib, init) && RunnerSurvives(lib, last)
  {
    hide RunnerSurvives;
    var rs := init + [last];
    assert rs[|init|] == last && forall k :: 0 <= k < |init| ==> rs[k] == init[k];
  }

  lemma {:induction false} RunnersSurviveExact(lib: Library, rs: seq<NewRunner>)
    requires Sane(lib)
    ensures ToNewRunners(lib, ToOldRunners(lib, rs)) == Success(rs) <==> AllSurvive(lib, rs)
    ensures ToNewRunners(lib, ToOldRunners(lib, rs)).Success? ==>
              |ToNewRunners(lib, ToOldRunners(lib, rs)).value| == |rs|
  {
    hide ToNewRunner, ToOldRunner, RunnerSurvives, AllSurvive;
    if rs == [] {
      NoRunnersSurvive(lib);
    } else {
      var init, last := rs[..|rs| - 1], rs[|rs| - 1];
      RunnersSurviveExact(lib, init);
      RunnerSurvivesExact(lib, last);
      AllSurviveSnoc(lib, init, last);
      assert rs == init + [last];
      var old_ := ToOldRunners(lib, rs);
      assert old_[..|old_| - 1] == ToOldRunners(lib, init) && old_[|old_| - 1] == ToOldRunner(lib, last);
      var a, b := ToNewRunners(lib, ToOldRunners(lib, init)), ToNewRunner(lib, ToOldRunner(lib, last));
      if a.Success? && b.Success? { SnocEqual(a.value, b.value, init, last); }
    }
  }

  lemma NoRunnersSurvive(lib: Library)
    ensures AllSurvive(lib, [])
  {}

  /** A v2alpha1 specification survives a round through v1alpha3 if and only if its Bento has the name its
      tag is given, it has no annotations, labels or monitor exporter, and in every component scaling has no
      behaviour and metrics v1alpha3 can express, every variable has a value and no source, and pods get no
      extra containers and no service account. */
  lemma NewSpecRoundExact(lib: Library, s: NewSpec, tag: string, bento: string)
    requires Sane(lib)
    ensures NewRound(lib, s, tag, bento) == Success(s) <==> bento == s.bento && SpecSurvives(lib, s)
  {
    hide NewAutoscaling, OldAutoscaling, MapEnvs, MapItems, ToNewPodSpec, ToOldPodSpec, HpaSurvives, EnvsSurvive,
         PodSpecSurvives, RunnerSurvives, ToNewRunners, ToOldRunners;
    PartsSurvive(lib, s.autoscaling, s.envs, s.podSpec);
    RunnersSurviveExact(lib, s.runners);
  }
}
