/** The objects the operator generates for a BentoDeployment: their names, labels, selectors,
    ports and proxy routes. Everything else in them is carried along as opaque text. */
module Desired {
  import opened Options
  import opened Names
  import opened EnvVars
  import opened ExporterEnv

  /** Label keys. The reserved ones are constants of another library, known only to be distinct. */
  datatype Label = Owner | Repository | Version | TargetType | Creator | ComponentType | ComponentName | Selector
                 | Custom(key: string)

  type Labels = map<Label, string>

  const STEALING := "yatai.ai/enable-stealing-traffic-debug-mode"
  const RECEIVE_PRODUCTION := "yatai.ai/enable-debug-pod-receive-production-traffic"
  const TRUE_VALUE := "true"
  const PRODUCTION := "production"
  const DEBUG := "debug"
  const API_SERVER := "api-server"
  const RUNNER := "runner"
  const DEFAULT_ACCOUNT := "default"

  datatype RunnerSpec = RunnerSpec(
    name: string, annotations: map<string, string>, labels: Labels, podLabels: Option<Labels>,
    port: Option<int>, account: string, other: string)

  /** `port` is the value of the PORT variable if the component's environment has one, `account` the service
      account the user names or the empty text, `exporter` the monitor exporter of the API server; `other`
      stands for the fields that only end up inside objects. */
  datatype Deployment = Deployment(
    name: string, namespace: string, annotations: map<string, string>, labels: Labels, runners: seq<RunnerSpec>,
    podLabels: Option<Labels>, ingressEnabled: bool, ingressTls: bool, ingressLabels: Labels,
    port: Option<int>, account: string, exporter: Option<Exporter>, other: string)

  /** The order in which the exporter's options are visited for each of the API server's Deployments, and
      the account that is listed first for each Deployment. */
  datatype Orders = Orders(
    production: seq<string>, debug: seq<string>, accounts: map<(Option<string>, bool), string>)

  /** What a run takes from its surroundings; `basePort` is the default port of a Bento's server, `accounts`
      are the service accounts of the namespace that are labelled for pods. */
  datatype Input = Input(
    d: Deployment, b: Bento, hash: Hash, domainSuffix: string, basePort: int, casing: Casing, accounts: set<string>,
    orders: Orders)

  // ---------------------------------------------------------------- annotations

  predicate HasTrue(annotations: map<string, string>, key: string) {
    key in annotations && annotations[key] == TRUE_VALUE
  }

  /** The first entry for a runner, as every loop over spec.runners finds it. */
  function FindRunner(rs: seq<RunnerSpec>, name: string): Option<RunnerSpec> {
    if rs == [] then None else if rs[0].name == name then Some(rs[0]) else FindRunner(rs[1..], name)
  }

  function ResourceAnnotations(d: Deployment, runner: Option<string>): map<string, string> {
    match runner
    case None => d.annotations
    case Some(r) => (match FindRunner(d.runners, r) case None => map[] case Some(spec) => spec.annotations)
  }

  predicate IsStealing(d: Deployment, runner: Option<string>) { HasTrue(ResourceAnnotations(d, runner), STEALING) }

  predicate ContainsStealing(d: Deployment) {
    HasTrue(d.annotations, STEALING) || exists k :: 0 <= k < |d.runners| && HasTrue(d.runners[k].annotations, STEALING)
  }

  /** Whether the component gets debug objects: the API server if anything is in stealing mode, a
      runner if it is itself. */
  predicate WantsDebug(d: Deployment, runner: Option<string>) {
    if runner.None? then ContainsStealing(d) else IsStealing(d, runner)
  }

  // ---------------------------------------------------------------- labels

  function ExtraLabels(d: Deployment, runner: Option<string>): Labels {
    if runner.Some? && FindRunner(d.runners, runner.value).Some? then FindRunner(d.runners, runner.value).value.labels
    else d.labels
  }

  function KubeLabels(d: Deployment, b: Bento, runner: Option<string>): Labels {
    var labels := map[
      Owner := d.name, Repository := b.repository, Version := b.version, TargetType := PRODUCTION,
      Creator := "yatai-deployment"];
    var typed :=
      if runner.Some? then labels[ComponentType := RUNNER][ComponentName := runner.value]
      else labels[ComponentType := API_SERVER];
    typed + ExtraLabels(d, runner)
  }

  function ExtraPodLabels(d: Deployment, runner: Option<string>): Labels {
    var extra :=
      if runner.Some? && FindRunner(d.runners, runner.value).Some?
      then FindRunner(d.runners, runner.value).value.podLabels
      else d.podLabels;
    if extra.Some? then extra.value else map[]
  }

  function PodLabels(d: Deployment, b: Bento, runner: Option<string>, debug: bool): Labels {
    var kube := KubeLabels(d, b, runner);
    var tagged := if runner.Some? then kube[Repository := b.repository][Version := b.version] else kube;
    var typed := if debug then tagged[TargetType := DEBUG] else tagged;
    typed[Selector := KubeName(d.name, b, runner, debug)] + ExtraPodLabels(d, runner)
  }

  function ServiceSelector(d: Deployment, b: Bento, runner: Option<string>, v: Variant): Labels {
    var labels := KubeLabels(d, b, runner);
    var typed := if v.Debug? then labels[TargetType := DEBUG] else labels;
    if v.Generic? && (runner.None? || HasTrue(ResourceAnnotations(d, runner), RECEIVE_PRODUCTION)) then
      typed - {TargetType}
    else typed
  }

  // ---------------------------------------------------------------- objects

  datatype PortName = Http | HttpProxy

  /** An address in the proxy's configuration. */
  datatype Address = Localhost(port: int) | ClusterService(name: string, namespace: string)

  /** The routes of the proxy: requests with the debug header go to `debug`, others to `production`. */
  datatype Routes = Routes(debug: Address, production: Address)

  /** The proxy of a pod: the name of its ConfigMap and the port it listens on. */
  datatype Proxy = Proxy(config: string, port: int)

  /** A pod template: labels, the main container's port, the proxy if there is one, the Services the main
      container reaches its runners by, the variables of the exporter container if there is one, and the
      service account. */
  datatype Template = Template(
    labels: Labels, port: int, proxy: Option<Proxy>, runnerServices: seq<string>, exporterVars: seq<EnvVar>,
    account: string, other: string)

  datatype Object =
    | DeploymentObj(labels: Labels, selector: Labels, template: Template)
    | ServiceObj(labels: Labels, selector: Labels, httpTarget: PortName)
    | HpaObj(labels: Labels, target: string, other: string)
    | IngressObj(labels: Labels, host: string, tlsHost: Option<string>, backend: string, other: string)
    | ConfigObj(routes: Routes)

  function Other(d: Deployment, runner: Option<string>): string {
    if runner.Some? && FindRunner(d.runners, runner.value).Some? then FindRunner(d.runners, runner.value).value.other
    else d.other
  }

  /** The Services an API server reaches its runners by: a debug pod names the debug Service of a
      stealing runner and the production Service of any other; a production pod the generic ones. */
  function RunnerServices(i: Input, debug: bool): seq<string> {
    seq(|i.b.runners|, k requires 0 <= k < |i.b.runners| => RunnerReference(i, i.b.runners[k], debug))
  }

  function RunnerReference(i: Input, runner: string, debug: bool): string {
    var v := if !debug then Generic else if IsStealing(i.d, Some(runner)) then Variant.Debug else Production;
    ServiceName(i.d.name, i.hash, i.b, Some(runner), v)
  }

  /** The main container listens on the user's port, or else on the default one. */
  function ContainerPort(i: Input, runner: Option<string>): int {
    var own :=
      if runner.None? then i.d.port
      else match FindRunner(i.d.runners, runner.value) case None => None case Some(spec) => spec.port;
    if own.Some? then own.value else i.basePort
  }

  /** Ports of sidecars are counted up from the default port: 2 for the monitor exporter, 3 for the
      metrics transformer, 4 for the proxy. */
  function ProxyPort(i: Input): int { i.basePort + 4 }

  /** Only an API server has an exporter. */
  predicate HasExporter(d: Deployment, runner: Option<string>) {
    runner.None? && d.exporter.Some? && d.exporter.value.enabled
  }

  function ExporterVars(i: Input, runner: Option<string>, debug: bool): seq<EnvVar> {
    if HasExporter(i.d, runner)
    then Vars(i.casing, i.d.exporter.value, if debug then i.orders.debug else i.orders.production)
    else []
  }

  /** The account the user names; a runner without an entry has that of the API server. */
  function OwnAccount(d: Deployment, runner: Option<string>): string {
    if runner.Some? && FindRunner(d.runners, runner.value).Some? then FindRunner(d.runners, runner.value).value.account
    else d.account
  }

  /** Without a name the first account that is listed, or the default one if none is. */
  function ServiceAccount(i: Input, runner: Option<string>, debug: bool): string {
    if OwnAccount(i.d, runner) != "" then OwnAccount(i.d, runner)
    else if i.accounts == {} then DEFAULT_ACCOUNT
    else if (runner, debug) in i.orders.accounts then i.orders.accounts[(runner, debug)]
    else ""
  }

  function ConfigName(i: Input, debug: bool): string { KubeName(i.d.name, i.b, None, debug) + "-envoy-config" }

  function ProxyRoutes(i: Input, debug: bool): Routes {
    var own := Localhost(ContainerPort(i, None));
    var v := if debug then Production else Variant.Debug;
    var away := ClusterService(ServiceName(i.d.name, i.hash, i.b, None, v), i.d.namespace);
    if debug then Routes(own, away) else Routes(away, own)
  }

  function MakeDeployment(i: Input, runner: Option<string>, debug: bool): Object {
    DeploymentObj(
      KubeLabels(i.d, i.b, runner),
      map[Selector := KubeName(i.d.name, i.b, runner, debug)],
      Template(
        PodLabels(i.d, i.b, runner, debug), ContainerPort(i, runner),
        if runner.None? then Some(Proxy(ConfigName(i, debug), ProxyPort(i))) else None,
        if runner.None? then RunnerServices(i, debug) else [],
        ExporterVars(i, runner, debug),
        ServiceAccount(i, runner, debug),
        Other(i.d, runner)))
  }

  function MakeService(i: Input, runner: Option<string>, v: Variant): Object {
    ServiceObj(
      KubeLabels(i.d, i.b, runner), ServiceSelector(i.d, i.b, runner, v),
      if runner.None? && v.Generic? && ContainsStealing(i.d) then HttpProxy else Http)
  }

  function MakeHpa(i: Input, runner: Option<string>): Object {
    HpaObj(KubeLabels(i.d, i.b, runner), KubeName(i.d.name, i.b, runner, false), Other(i.d, runner))
  }

  function IngressHost(i: Input): string { i.d.name + "-" + i.d.namespace + "." + i.domainSuffix }

  function MakeIngress(i: Input): Object {
    IngressObj(
      KubeLabels(i.d, i.b, None) + i.d.ingressLabels, IngressHost(i),
      if i.d.ingressTls then Some(IngressHost(i)) else None,
      ServiceName(i.d.name, i.hash, i.b, None, Generic), i.d.other)
  }
}
