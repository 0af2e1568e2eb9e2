/** The autoscaling settings of the v1alpha3 API and of the v2alpha1 API, and what is lost between them. */
module Autoscaling {
  import opened Options

  datatype Result<+T> = Success(value: T) | Failure

  /** A quantity: a whole number, or one parsed from text. */
  datatype Quantity = Count(n: int) | Parsed(text: string)

  datatype MetricType = Pods | Resource | OtherMetric
  datatype ResourceName = Cpu | Memory | OtherResource
  datatype TargetType = Utilization | OtherTarget

  datatype Target = Target(kind: TargetType, averageValue: Option<Quantity>, averageUtilization: Option<int>)
  datatype PodsSource = PodsSource(metric: string, target: Target)
  datatype ResourceSource = ResourceSource(name: ResourceName, target: Target)
  datatype Metric = Metric(kind: MetricType, pods: Option<PodsSource>, resource: Option<ResourceSource>)

  /** `behavior` is the text of the scaling behaviour, which v1alpha3 does not have. */
  datatype NewHpa = NewHpa(minReplicas: int, maxReplicas: int, metrics: seq<Metric>, behavior: Option<string>)

  datatype OldHpa = OldHpa(
    minReplicas: Option<int>, maxReplicas: Option<int>, qps: Option<int>, cpu: Option<int>, memory: Option<string>,
    gpu: Option<int>)

  /** The parts that live in other libraries: constants, and quantities as numbers and as text. */
  datatype Library = Library(
    qpsMetric: string, defaultMax: int, defaultCpu: int,
    parses: string -> bool, value: Quantity -> int, show: Option<Quantity> -> string)

  const DEFAULT_MIN := 2

  ghost predicate Sane(lib: Library) { forall n :: lib.value(Count(n)) == n }

  // ---------------------------------------------------------------- v2alpha1 to v1alpha3

  /** The settings a metric carries over, if it is one of the three kinds known to v1alpha3. */
  function QpsOf(lib: Library, m: Metric): Option<int> {
    if m.kind.Pods? && m.pods.Some? && m.pods.value.metric == lib.qpsMetric && m.pods.value.target.kind.Utilization?
       && m.pods.value.target.averageValue.Some?
    then Some(lib.value(m.pods.value.target.averageValue.value)) else None
  }

  function CpuOf(m: Metric): Option<int> {
    if m.kind.Resource? && m.resource.Some? && m.resource.value.name.Cpu? && m.resource.value.target.kind.Utilization?
    then m.resource.value.target.averageUtilization else None
  }

  function MemoryOf(lib: Library, m: Metric): Option<string> {
    if m.kind.Resource? && m.resource.Some? && m.resource.value.name.Memory?
       && m.resource.value.target.kind.Utilization?
       && m.resource.value.target.averageUtilization.Some?
    then Some(lib.show(m.resource.value.target.averageValue)) else None
  }

  /** What the last metric that carries something carries. */
  function Last<T>(ms: seq<Metric>, f: Metric -> Option<T>): Option<T> {
    if ms == [] then None
    else if f(ms[|ms| - 1]).Some? then f(ms[|ms| - 1])
    else Last(ms[..|ms| - 1], f)
  }

  /** The last qualifying metric wins. */
  lemma {:induction false} LastWins<T(!new)>(ms: seq<Metric>, f: Metric -> Option<T>, v: T)
    ensures Last(ms, f) == Some(v)
            <==> exists k :: 0 <= k < |ms| && f(ms[k]) == Some(v) && forall l :: k < l < |ms| ==> f(ms[l]) == None
  {
    if ms != [] {
      var init, m := ms[..|ms| - 1], ms[|ms| - 1];
      LastWins(init, f, v);
      if f(m).Some? {
        if f(m) == Some(v) { assert f(ms[|ms| - 1]) == Some(v); }
      } else if Last(init, f) == Some(v) {
        var k :| 0 <= k < |init| && f(init[k]) == Some(v) && forall l :: k < l < |init| ==> f(init[l]) == None;
        assert forall l :: k < l < |init| ==> init[l] == ms[l];
        assert f(ms[k]) == Some(v) && forall l :: k < l < |ms| ==> f(ms[l]) == None;
      }
    }
  }

  function ToOld(lib: Library, hpa: NewHpa): OldHpa {
    OldHpa(
      Some(hpa.minReplicas), Some(hpa.maxReplicas),
      Last(hpa.metrics, m => QpsOf(lib, m)), Last(hpa.metrics, m => CpuOf(m)), Last(hpa.metrics, m => MemoryOf(lib, m)),
      None)
  }

  method TransformToOldHPA(lib: Library, hpa: Option<NewHpa>) returns (old_: Option<OldHpa>)
    ensures old_ == if hpa.None? then None else Some(ToOld(lib, hpa.value))
  {
    if hpa.None? { return None; }
    var ms := hpa.value.metrics;
    var result := OldHpa(Some(hpa.value.minReplicas), Some(hpa.value.maxReplicas), None, None, None, None);
    for n := 0 to |ms|
      invariant result == ToOld(lib, NewHpa(hpa.value.minReplicas, hpa.value.maxReplicas, ms[..n], hpa.value.behavior))
    {
      var m := ms[n];
      assert ms[..n + 1][..n] == ms[..n];
      if m.kind.Pods? {
        if m.pods.None? { continue; }
        if m.pods.value.metric == lib.qpsMetric {
          var target := m.pods.value.target;
          if !target.kind.Utilization? { continue; }
          if target.averageValue.None? { continue; }
          result := result.(qps := Some(lib.value(target.averageValue.value)));
        }
      } else if m.kind.Resource? {
        if m.resource.None? { continue; }
        var target := m.resource.value.target;
        if m.resource.value.name.Cpu? {
          if !target.kind.Utilization? { continue; }
          if target.averageUtilization.None? { continue; }
          result := result.(cpu := target.averageUtilization);
        } else if m.resource.value.name.Memory? {
          if !target.kind.Utilization? { continue; }
          if target.averageUtilization.None? { continue; }
          result := result.(memory := Some(lib.show(target.averageValue)));
        }
      }
    }
    assert ms[..|ms|] == ms;
    old_ := Some(result);
  }

  predicate QpsTarget(lib: Library, m: Metric) {
    && m.kind.Pods? && m.pods.Some? && m.pods.value.metric == lib.qpsMetric
    && m.pods.value.target.kind.Utilization? && m.pods.value.target.averageValue.Some?
  }

  predicate ResourceTarget(m: Metric, name: ResourceName) {
    && m.kind.Resource? && m.resource.Some? && m.resource.value.name == name
    && m.resource.value.target.kind.Utilization? && m.resource.value.target.averageUtilization.Some?
  }

  /** `k` is the last index of a metric with the property. */
  predicate LastAt(ms: seq<Metric>, p: Metric -> bool, k: nat) {
    k < |ms| && p(ms[k]) && forall l :: k < l < |ms| ==> !p(ms[l])
  }

  predicate Nowhere(ms: seq<Metric>, p: Metric -> bool) { forall m :: m in ms ==> !p(m) }

  lemma {:induction false} LastIs<T(!new)>(ms: seq<Metric>, f: Metric -> Option<T>, p: Metric -> bool)
    requires forall m :: f(m).Some? <==> p(m)
    ensures forall k: nat :: LastAt(ms, p, k) ==> Last(ms, f) == f(ms[k])
    ensures Nowhere(ms, p) ==> Last(ms, f) == None
  {
    forall k: nat | LastAt(ms, p, k) ensures Last(ms, f) == f(ms[k]) {
      var v := f(ms[k]).value;
      LastWins(ms, f, v);
      assert f(ms[k]) == Some(v) && forall l :: k < l < |ms| ==> f(ms[l]) == None;
    }
    if Nowhere(ms, p) && Last(ms, f).Some? {
      LastWins(ms, f, Last(ms, f).value);
      assert false;
    }
  }

  /** Each setting is that of the last metric of its kind that has a target; there is none for GPUs. */
  lemma OldSpelled(lib: Library, n: NewHpa)
    ensures var o, ms := ToOld(lib, n), n.metrics;
            && o.minReplicas == Some(n.minReplicas) && o.maxReplicas == Some(n.maxReplicas) && o.gpu == None
            && (forall k: nat :: LastAt(ms, m => QpsTarget(lib, m), k) ==>
                  o.qps == Some(lib.value(ms[k].pods.value.target.averageValue.value)))
            && (Nowhere(ms, m => QpsTarget(lib, m)) ==> o.qps == None)
            && (forall k: nat :: LastAt(ms, m => ResourceTarget(m, Cpu), k) ==>
                  o.cpu == ms[k].resource.value.target.averageUtilization)
            && (Nowhere(ms, m => ResourceTarget(m, Cpu)) ==> o.cpu == None)
            && (forall k: nat :: LastAt(ms, m => ResourceTarget(m, Memory), k) ==>
                  o.memory == Some(lib.show(ms[k].resource.value.target.averageValue)))
            && (Nowhere(ms, m => ResourceTarget(m, Memory)) ==> o.memory == None)
  {
    hide Last, Nowhere;
    LastIs(n.metrics, m => QpsOf(lib, m), m => QpsTarget(lib, m));
    LastIs(n.metrics, m => CpuOf(m), m => ResourceTarget(m, Cpu));
    LastIs(n.metrics, m => MemoryOf(lib, m), m => ResourceTarget(m, Memory));
  }

  // ---------------------------------------------------------------- v1alpha3 to v2alpha1

  function QpsMetric(lib: Library, qps: int): Metric {
    Metric(Pods, Some(PodsSource(lib.qpsMetric, Target(Utilization, Some(Count(qps)), None))), None)
  }

  function CpuMetric(cpu: int): Metric {
    Metric(Resource, None, Some(ResourceSource(Cpu, Target(Utilization, None, Some(cpu)))))
  }

  function MemoryMetric(memory: string): Metric {
    Metric(Resource, None, Some(ResourceSource(Memory, Target(Utilization, Some(Parsed(memory)), None))))
  }

  predicate Positive(n: Option<int>) { n.Some? && n.value > 0 }

  predicate HasMemory(hpa: OldHpa) { hpa.memory.Some? && hpa.memory.value != "" }

  /** Memory is the only setting that makes a metric. */
  predicate MemoryOnly(hpa: OldHpa) { HasMemory(hpa) && !Positive(hpa.qps) && !Positive(hpa.cpu) }

  predicate Convertible(lib: Library, hpa: OldHpa) { HasMemory(hpa) ==> lib.parses(hpa.memory.value) }

  function Metrics(lib: Library, hpa: OldHpa): seq<Metric> {
    var given :=
      (if Positive(hpa.qps) then [QpsMetric(lib, hpa.qps.value)] else [])
      + (if Positive(hpa.cpu) then [CpuMetric(hpa.cpu.value)] else [])
      + (if HasMemory(hpa) then [MemoryMetric(hpa.memory.value)] else []);
    if given == [] then [CpuMetric(lib.defaultCpu)] else given
  }

  function ToNew(lib: Library, hpa: OldHpa): Result<NewHpa> {
    if !Convertible(lib, hpa) then Failure
    else
      Success(NewHpa(
        if hpa.minReplicas.Some? then hpa.minReplicas.value else DEFAULT_MIN,
        if hpa.maxReplicas.Some? then hpa.maxReplicas.value else lib.defaultMax,
        Metrics(lib, hpa),
        None))
  }

  method TransformToNewHPA(lib: Library, hpa: Option<OldHpa>) returns (new_: Result<Option<NewHpa>>)
    ensures hpa.None? ==> new_ == Success(None)
    ensures hpa.Some? ==>
              new_ == match ToNew(lib, hpa.value) case Success(n) => Success(Some(n)) case Failure => Failure
  {
    if hpa.None? { return Success(None); }
    var maxReplicas := lib.defaultMax;
    if hpa.value.maxReplicas.Some? { maxReplicas := hpa.value.maxReplicas.value; }
    var metrics: seq<Metric> := [];
    if Positive(hpa.value.qps) { metrics := metrics + [QpsMetric(lib, hpa.value.qps.value)]; }
    if Positive(hpa.value.cpu) { metrics := metrics + [CpuMetric(hpa.value.cpu.value)]; }
    if HasMemory(hpa.value) {
      if !lib.parses(hpa.value.memory.value) { return Failure; }
      metrics := metrics + [MemoryMetric(hpa.value.memory.value)];
    }
    assert metrics == (if Positive(hpa.value.qps) then [QpsMetric(lib, hpa.value.qps.value)] else [])
                      + (if Positive(hpa.value.cpu) then [CpuMetric(hpa.value.cpu.value)] else [])
                      + (if HasMemory(hpa.value) then [MemoryMetric(hpa.value.memory.value)] else []);
    if |metrics| == 0 { metrics := [CpuMetric(lib.defaultCpu)]; }
    var minReplicas := DEFAULT_MIN;
    if hpa.value.minReplicas.Some? { minReplicas := hpa.value.minReplicas.value; }
    new_ := Success(Some(NewHpa(minReplicas, maxReplicas, metrics, None)));
  }

  predicate IsFor(m: Metric, name: ResourceName) {
    m.kind.Resource? && m.resource.Some? && m.resource.value.name == name
  }

  /** The metrics of a conversion hold what the settings say, and there are no others. */
  lemma MetricsSpelled(lib: Library, o: OldHpa, m: Metric)
    requires ToNew(lib, o).Success? && m in ToNew(lib, o).value.metrics
    ensures m.kind.Pods? ==>
              && o.qps.Some? && o.qps.value > 0
              && m == Metric(
                   Pods, Some(PodsSource(lib.qpsMetric, Target(Utilization, Some(Count(o.qps.value)), None))), None)
    ensures IsFor(m, Memory) ==>
              && o.memory.Some? && o.memory.value != ""
              && m == Metric(Resource, None, Some(ResourceSource(
                   Memory, Target(Utilization, Some(Parsed(o.memory.value)), None))))
    ensures IsFor(m, Cpu) ==>
              var cpu := if o.cpu.Some? && o.cpu.value > 0 then o.cpu.value else lib.defaultCpu;
              m == Metric(Resource, None, Some(ResourceSource(Cpu, Target(Utilization, None, Some(cpu)))))
    ensures m.kind.Pods? || IsFor(m, Cpu) || IsFor(m, Memory)
  {}

  function Rank(m: Metric): int { if m.kind.Pods? then 0 else if IsFor(m, Cpu) then 1 else 2 }

  /** There is a metric for each setting that qualifies, a number of requests first and memory last, and one
      for CPU also when no setting qualifies; no behaviour, and bounds with their defaults. */
  lemma NewSpelled(lib: Library, o: OldHpa)
    requires ToNew(lib, o).Success?
    ensures var n := ToNew(lib, o).value;
            && n.minReplicas == (if o.minReplicas.Some? then o.minReplicas.value else 2)
            && n.maxReplicas == (if o.maxReplicas.Some? then o.maxReplicas.value else lib.defaultMax)
            && n.behavior == None
    ensures var ms := ToNew(lib, o).value.metrics;
            var qps, cpu := o.qps.Some? && o.qps.value > 0, o.cpu.Some? && o.cpu.value > 0;
            var memory := o.memory.Some? && o.memory.value != "";
            && ((exists m :: m in ms && m.kind.Pods?) <==> qps)
            && ((exists m :: m in ms && IsFor(m, Cpu)) <==> cpu || (!qps && !memory))
            && ((exists m :: m in ms && IsFor(m, Memory)) <==> memory)
            && forall j, k :: 0 <= j < k < |ms| ==> Rank(ms[j]) < Rank(ms[k])
  {
    var ms := ToNew(lib, o).value.metrics;
    Placed(lib, o);
    forall m | m in ms
      ensures m.kind.Pods? ==> Positive(o.qps)
      ensures IsFor(m, Memory) ==> HasMemory(o)
    {
      MetricsSpelled(lib, o, m);
    }
    hide Metrics;
    if Positive(o.qps) { assert ms[0] in ms && ms[0].kind.Pods?; }
    if HasMemory(o) { assert ms[|ms| - 1] in ms && IsFor(ms[|ms| - 1], Memory); }
    if Positive(o.cpu) {
      var k := if Positive(o.qps) then 1 else 0;
      assert ms[k] in ms && IsFor(ms[k], Cpu);
    } else if !Positive(o.qps) && !HasMemory(o) {
      assert ms[0] in ms && IsFor(ms[0], Cpu);
    }
  }

  /** Where the metrics stand. */
  lemma Placed(lib: Library, o: OldHpa)
    ensures var ms := Metrics(lib, o); var q, c := if Positive(o.qps) then 1 else 0, if Positive(o.cpu) then 1 else 0;
            && (q == 1 ==> |ms| > 0 && Rank(ms[0]) == 0) && (c == 1 ==> |ms| > q && Rank(ms[q]) == 1)
            && (HasMemory(o) ==> |ms| == q + c + 1 && Rank(ms[q + c]) == 2)
            && (!HasMemory(o) && q + c > 0 ==> |ms| == q + c)
            && (!HasMemory(o) && q + c == 0 ==> |ms| == 1 && Rank(ms[0]) == 1)
  {}

  // ---------------------------------------------------------------- there and back

  /** One round from v1alpha3 to v2alpha1 and back. */
  function Round(lib: Library, hpa: OldHpa): Result<OldHpa> {
    match ToNew(lib, hpa) case Failure => Failure case Success(n) => Success(ToOld(lib, n))
  }

  function Rounds(lib: Library, hpa: OldHpa, n: nat): Result<OldHpa> {
    if n == 0 then Success(hpa)
    else match Rounds(lib, hpa, n - 1) case Failure => Failure case Success(h) => Round(lib, h)
  }

  lemma Lasts<T>(ms: seq<Metric>, f: Metric -> Option<T>)
    ensures |ms| == 1 ==> Last(ms, f) == f(ms[0])
    ensures |ms| == 2 ==> Last(ms, f) == if f(ms[1]).Some? then f(ms[1]) else f(ms[0])
    ensures |ms| == 3 ==>
              Last(ms, f) == if f(ms[2]).Some? then f(ms[2]) else if f(ms[1]).Some? then f(ms[1]) else f(ms[0])
  {
    if |ms| == 3 {
      assert ms[..2][..1] == ms[..1];
    }
  }

  /** What one round does: replica bounds get their defaults, settings that are not positive go, and so do
      the memory and the GPU setting; CPU gets its default if no setting made a metric. */
  lemma RoundIs(lib: Library, hpa: OldHpa)
    requires Sane(lib)
    ensures Convertible(lib, hpa) ==> Round(lib, hpa) == Success(OldHpa(
              Some(if hpa.minReplicas.Some? then hpa.minReplicas.value else DEFAULT_MIN),
              Some(if hpa.maxReplicas.Some? then hpa.maxReplicas.value else lib.defaultMax),
              if Positive(hpa.qps) then hpa.qps else None,
              if Positive(hpa.cpu) then hpa.cpu
              else if Positive(hpa.qps) || HasMemory(hpa) then None else Some(lib.defaultCpu),
              None, None))
    ensures !Convertible(lib, hpa) ==> Round(lib, hpa) == Failure
  {
    if Convertible(lib, hpa) {
      var ms := Metrics(lib, hpa);
      Lasts(ms, m => QpsOf(lib, m));
      Lasts(ms, m => CpuOf(m));
      Lasts(ms, m => MemoryOf(lib, m));
    }
  }

  /** A second round changes something exactly when the input was memory-only. */
  lemma TwoRoundsExact(lib: Library, hpa: OldHpa)
    requires Sane(lib) && Convertible(lib, hpa)
    ensures Rounds(lib, hpa, 2) == Rounds(lib, hpa, 1) <==> !MemoryOnly(hpa)
  {
    hide Round, Convertible;
    RoundIs(lib, hpa);
    var h := Round(lib, hpa).value;
    NoMemory(lib, h);
    RoundIs(lib, h);
    RoundsAre(lib, hpa);
  }

  lemma NoMemory(lib: Library, hpa: OldHpa)
    requires hpa.memory == None
    ensures Convertible(lib, hpa) && !HasMemory(hpa)
  {}

  lemma RoundsAre(lib: Library, hpa: OldHpa)
    ensures Rounds(lib, hpa, 1) == Round(lib, hpa)
    ensures Round(lib, hpa).Success? ==> Rounds(lib, hpa, 2) == Round(lib, Round(lib, hpa).value)
  {
    hide Round;
    assert Rounds(lib, hpa, 0) == Success(hpa);
  }

  /** From the second round on nothing changes any more. */
  lemma {:induction false} RoundsStabilise(lib: Library, hpa: OldHpa, n: nat)
    requires Sane(lib) && Convertible(lib, hpa) && n >= 2
    ensures Rounds(lib, hpa, n) == Rounds(lib, hpa, 2) && Rounds(lib, hpa, 2).Success?
  {
    hide Round, Convertible;
    RoundIs(lib, hpa);
    var h := Round(lib, hpa).value;
    NoMemory(lib, h);
    RoundIs(lib, h);
    RoundsAre(lib, hpa);
    var h2 := Round(lib, h).value;
    NoMemory(lib, h2);
    RoundIs(lib, h2);
    if n > 2 { RoundsStabilise(lib, hpa, n - 1); }
  }

  /** The settings that survive a round unchanged. */
  lemma FixedExact(lib: Library, hpa: OldHpa)
    requires Sane(lib)
    ensures Round(lib, hpa) == Success(hpa) <==>
              && hpa.minReplicas.Some? && hpa.maxReplicas.Some? && hpa.memory.None? && hpa.gpu.None?
              && (hpa.qps.Some? ==> hpa.qps.value > 0)
              && (if hpa.cpu.None? then hpa.qps.Some?
                  else hpa.cpu.value > 0 || (hpa.qps.None? && hpa.cpu.value == lib.defaultCpu))
  {
    hide Round;
    RoundIs(lib, hpa);
  }

  // ---------------------------------------------------------------- the other way round

  predicate PlainQps(lib: Library, m: Metric) {
    Positive(QpsOf(lib, m)) && m == QpsMetric(lib, QpsOf(lib, m).value)
  }

  predicate PlainCpu(m: Metric) { Positive(CpuOf(m)) && m == CpuMetric(CpuOf(m).value) }

  /** The metric lists that v1alpha3 can express: QPS, CPU or both in this order, positive, or the default. */
  predicate Normal(lib: Library, ms: seq<Metric>) {
    || (|ms| == 1 && (PlainQps(lib, ms[0]) || PlainCpu(ms[0]) || ms[0] == CpuMetric(lib.defaultCpu)))
    || (|ms| == 2 && PlainQps(lib, ms[0]) && PlainCpu(ms[1]))
  }

  lemma MetricsAre(lib: Library, o: OldHpa)
    requires Sane(lib)
    ensures Last(Metrics(lib, o), m => MemoryOf(lib, m)) == None
    ensures !HasMemory(o) ==> Normal(lib, Metrics(lib, o))
  {
    Lasts(Metrics(lib, o), m => MemoryOf(lib, m));
  }

  lemma NormalMetrics(lib: Library, n: NewHpa)
    requires Sane(lib) && Normal(lib, n.metrics)
    ensures !HasMemory(ToOld(lib, n)) && Metrics(lib, ToOld(lib, n)) == n.metrics
  {
    var ms := n.metrics;
    Lasts(ms, m => QpsOf(lib, m));
    Lasts(ms, m => CpuOf(m));
    Lasts(ms, m => MemoryOf(lib, m));
  }

  /** The v2alpha1 settings that survive a round through v1alpha3. */
  lemma NewFixedExact(lib: Library, n: NewHpa)
    requires Sane(lib)
    ensures ToNew(lib, ToOld(lib, n)) == Success(n) <==> n.behavior.None? && Normal(lib, n.metrics)
  {
    hide Normal, Metrics;
    var o := ToOld(lib, n);
    MetricsAre(lib, o);
    if Normal(lib, n.metrics) { NormalMetrics(lib, n); }
  }
}
