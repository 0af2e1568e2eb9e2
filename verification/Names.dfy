/** The names of the objects a BentoDeployment owns, and why they never clash. */
module Names {
  import opened Options

  predicate IsHexDigit(c: char) { '0' <= c <= '9' || 'a' <= c <= 'f' }

  /** 32 lower-case hexadecimal digits: what hash returns. */
  predicate IsDigest(s: string) { |s| == 32 && forall k :: 0 <= k < |s| ==> IsHexDigit(s[k]) }

  /** The MD5 hash: any function whose results are digests. */
  type Hash = string -> string

  ghost predicate Digests(hash: Hash) { forall s :: IsDigest(hash(s)) }

  /** A Bento: the two halves of its tag around the first colon, and its runners in order. */
  datatype Bento = Bento(repository: string, version: string, runners: seq<string>)

  /** `%d` */
  function Decimal(n: nat): string {
    if n < 10 then [('0' as int + n) as char] else Decimal(n / 10) + [('0' as int + n % 10) as char]
  }

  function FirstIndex(names: seq<string>, name: string): Option<nat> {
    if names == [] then None
    else if names[0] == name then Some(0)
    else match FirstIndex(names[1..], name)
         case None => None
         case Some(k) => Some(k + 1)
  }

  /** A component of this Bento. */
  predicate Known(b: Bento, r: Option<string>) { r.Some? ==> r.value in b.runners }

  // ---------------------------------------------------------------- Deployments, HPAs, the Ingress

  /** What follows the BentoDeployment's name in getKubeName. */
  function KubeSuffix(b: Bento, runner: Option<string>, debug: bool): string {
    if runner.Some? && FirstIndex(b.runners, runner.value).Some? then
      var idx := FirstIndex(b.runners, runner.value).value;
      if debug then "-runner-d-" + Decimal(idx) else "-runner-" + Decimal(idx)
    else if debug then "-d" else ""
  }

  function KubeName(name: string, b: Bento, runner: Option<string>, debug: bool): string {
    name + KubeSuffix(b, runner, debug)
  }

  // ---------------------------------------------------------------- Services

  /** The three Services of a component: the generic one, the production one and the debug one. */
  datatype Variant = Generic | Production | Debug

  function Infix(v: Variant): string {
    match v
    case Generic => "runner-"
    case Production => "runner-p-"
    case Debug => "runner-d-"
  }

  function RunnerText(b: Bento, runner: string): string { b.repository + ":" + b.version + "-" + runner }

  function OwnedText(name: string, b: Bento, runner: string): string { name + "-" + RunnerText(b, runner) }

  function ServiceSuffix(hash: Hash, b: Bento, runner: Option<string>, v: Variant): string {
    match runner
    case None => (match v case Generic => "" case Production => "-p" case Debug => "-d")
    case Some(r) => "-" + Infix(v) + hash(RunnerText(b, r))
  }

  predicate TooLong(name: string, hash: Hash, b: Bento, runner: Option<string>, v: Variant) {
    runner.Some? && |name + ServiceSuffix(hash, b, runner, v)| > 63
  }

  /** getServiceName, getGenericServiceName and the two functions for runners behind them. */
  function ServiceName(name: string, hash: Hash, b: Bento, runner: Option<string>, v: Variant): string {
    if TooLong(name, hash, b, runner, v) then Infix(v) + hash(OwnedText(name, b, runner.value))
    else name + ServiceSuffix(hash, b, runner, v)
  }

  // ---------------------------------------------------------------- lengths

  lemma InfixLength(v: Variant)
    ensures |Infix(v)| == if v.Generic? then 7 else 9
  {}

  /** Names too long for the plain form of that variant. */
  predicate LongName(name: string, v: Variant) { |name| > if v.Generic? then 23 else 21 }

  /** Each form is chosen by the length of the BentoDeployment's name alone. */
  lemma TooLongExact(name: string, hash: Hash, b: Bento, runner: string, v: Variant)
    requires Digests(hash)
    ensures |ServiceSuffix(hash, b, Some(runner), v)| == if v.Generic? then 40 else 42
    ensures TooLong(name, hash, b, Some(runner), v) <==> LongName(name, v)
  {
    InfixLength(v);
    assert IsDigest(hash(RunnerText(b, runner)));
  }

  /** Runner Services always have a name of at most 63 characters, the limit of a DNS label. */
  lemma RunnerServiceNameFits(name: string, hash: Hash, b: Bento, runner: string, v: Variant)
    requires Digests(hash)
    ensures |ServiceName(name, hash, b, Some(runner), v)| <= 63
  {
    InfixLength(v);
    assert IsDigest(hash(OwnedText(name, b, runner)));
  }

  // ---------------------------------------------------------------- distinct names

  /** The hashes that tell runners apart do not collide: those of the runners alone if some Service takes
      the plain form, and those that include the BentoDeployment's name if some Service takes the other. */
  predicate NoCollision(name: string, hash: Hash, b: Bento) {
    forall r, r' :: r in b.runners && r' in b.runners && r != r' ==>
      && (!LongName(name, Generic) ==> hash(RunnerText(b, r)) != hash(RunnerText(b, r')))
      && (LongName(name, Production) ==> hash(OwnedText(name, b, r)) != hash(OwnedText(name, b, r')))
  }

  /** The BentoDeployment is not itself named like one of its own hashed Services. */
  predicate NotOwnHash(name: string, hash: Hash, b: Bento) {
    forall r, v: Variant :: r in b.runners && LongName(name, v) ==> name != Infix(v) + hash(OwnedText(name, b, r))
  }

  lemma CancelLeft(a: string, b: string, c: string)
    requires a + b == a + c
    ensures b == c
  {
    assert (a + b)[|a|..] == b && (a + c)[|a|..] == c;
  }

  /** `Infix(v)` and a digest determine each other. */
  lemma InfixInjective(v: Variant, h: string, v': Variant, h': string)
    requires IsDigest(h) && IsDigest(h') && Infix(v) + h == Infix(v') + h'
    ensures v == v' && h == h'
  {
    InfixLength(v);
    InfixLength(v');
    var s := Infix(v) + h;
    assert (v.Production? ==> s[7] == 'p') && (v'.Production? ==> s[7] == 'p');
    assert (v.Debug? ==> s[7] == 'd') && (v'.Debug? ==> s[7] == 'd');
    CancelLeft(Infix(v), h, h');
  }

  /** A hashed name is a name in the plain form only as the bare name of a BentoDeployment. */
  lemma HashedMeetsPlain(v: Variant, h: string, name: string, hash: Hash, b: Bento, r: Option<string>, w: Variant)
    requires Digests(hash) && IsDigest(h) && !TooLong(name, hash, b, r, w)
    requires Infix(v) + h == name + ServiceSuffix(hash, b, r, w)
    ensures r.None? && w.Generic? && name == Infix(v) + h
  {
    hide ServiceSuffix, TooLong, Infix;
    InfixLength(v);
    InfixStart(v, h);
    var s := Infix(v) + h;
    assert s[|s| - 2] == h[30] && IsHexDigit(h[30]);
    SuffixEnds(name, hash, b, r, w);
  }

  lemma InfixStart(v: Variant, h: string)
    ensures var s := Infix(v) + h; |s| > 1 && s[1] == 'u'
  {}

  lemma SuffixEnds(name: string, hash: Hash, b: Bento, r: Option<string>, w: Variant)
    requires Digests(hash)
    ensures var t := name + ServiceSuffix(hash, b, r, w);
            if r.Some? then |t| == |name| + (if w.Generic? then 40 else 42) && t[|name|] == '-'
            else if w.Generic? then t == name
            else |t| == |name| + 2 && t[|t| - 2] == '-'
  {
    if r.Some? { TooLongExact(name, hash, b, r.value, w); }
  }

  lemma PlainSuffixInjective(hash: Hash, b: Bento, r: Option<string>, v: Variant, r': Option<string>, v': Variant)
    requires Digests(hash)
    requires ServiceSuffix(hash, b, r, v) == ServiceSuffix(hash, b, r', v')
    ensures v == v' && r.Some? == r'.Some?
    ensures r.Some? ==> hash(RunnerText(b, r.value)) == hash(RunnerText(b, r'.value))
  {
    if r.Some? { TooLongExact("", hash, b, r.value, v); }
    if r'.Some? { TooLongExact("", hash, b, r'.value, v'); }
    if r.Some? && r'.Some? {
      RunnerSuffixInjective(v, hash(RunnerText(b, r.value)), v', hash(RunnerText(b, r'.value)));
    }
  }

  lemma RunnerSuffixInjective(v: Variant, h: string, v': Variant, h': string)
    requires IsDigest(h) && IsDigest(h') && "-" + Infix(v) + h == "-" + Infix(v') + h'
    ensures v == v' && h == h'
  {
    hide Infix, IsDigest;
    assert "-" + Infix(v) + h == "-" + (Infix(v) + h) && "-" + Infix(v') + h' == "-" + (Infix(v') + h');
    CancelLeft("-", Infix(v) + h, Infix(v') + h');
    InfixInjective(v, h, v', h');
  }

  /** Within one BentoDeployment no two Services share a name, whichever of them take the hashed form. */
  lemma ServiceNamesDistinct(
      name: string, hash: Hash, b: Bento, r: Option<string>, v: Variant, r': Option<string>, v': Variant)
    requires Digests(hash) && NoCollision(name, hash, b) && NotOwnHash(name, hash, b)
    requires Known(b, r) && Known(b, r')
    requires ServiceName(name, hash, b, r, v) == ServiceName(name, hash, b, r', v')
    ensures r == r' && v == v'
  {
    hide IsDigest, ServiceSuffix, TooLong, OwnedText, RunnerText;
    if r.Some? { TooLongExact(name, hash, b, r.value, v); }
    if r'.Some? { TooLongExact(name, hash, b, r'.value, v'); }
    var long, long' := TooLong(name, hash, b, r, v), TooLong(name, hash, b, r', v');
    assert long ==> r.Some? by { ShortApi(name, hash, b, r, v); }
    assert long' ==> r'.Some? by { ShortApi(name, hash, b, r', v'); }
    if long && long' {
      InfixInjective(v, hash(OwnedText(name, b, r.value)), v', hash(OwnedText(name, b, r'.value)));
    } else if long {
      HashedMeetsPlain(v, hash(OwnedText(name, b, r.value)), name, hash, b, r', v');
      assert false;
    } else if long' {
      HashedMeetsPlain(v', hash(OwnedText(name, b, r'.value)), name, hash, b, r, v);
      assert false;
    } else {
      CancelLeft(name, ServiceSuffix(hash, b, r, v), ServiceSuffix(hash, b, r', v'));
      PlainSuffixInjective(hash, b, r, v, r', v');
    }
  }

  /** All Services of the BentoDeployment have different names. */
  ghost predicate AllDistinct(name: string, hash: Hash, b: Bento) {
    forall r, v, r', v' :: Known(b, r) && Known(b, r') ==>
      ServiceName(name, hash, b, r, v) == ServiceName(name, hash, b, r', v') ==> r == r' && v == v'
  }

  /** The two conditions on the hashes are exactly what distinct names take. */
  lemma NamesDistinctExact(name: string, hash: Hash, b: Bento)
    requires Digests(hash)
    ensures AllDistinct(name, hash, b) <==> NoCollision(name, hash, b) && NotOwnHash(name, hash, b)
  {
    hide IsDigest, ServiceSuffix, TooLong, OwnedText, RunnerText, ServiceName, AllDistinct, Infix, Digests;
    if NoCollision(name, hash, b) && NotOwnHash(name, hash, b) {
      DistinctFromHashes(name, hash, b);
    }
    if AllDistinct(name, hash, b) {
      forall r, r' | r in b.runners && r' in b.runners && r != r'
        ensures !LongName(name, Generic) ==> hash(RunnerText(b, r)) != hash(RunnerText(b, r'))
        ensures LongName(name, Production) ==> hash(OwnedText(name, b, r)) != hash(OwnedText(name, b, r'))
      {
        DistinctAt(name, hash, b, Some(r), Generic, Some(r'), Generic);
        DistinctAt(name, hash, b, Some(r), Production, Some(r'), Production);
        NameByHash(name, hash, b, r, Generic);
        NameByHash(name, hash, b, r', Generic);
        NameByHash(name, hash, b, r, Production);
        NameByHash(name, hash, b, r', Production);
      }
      forall r, v: Variant | r in b.runners && LongName(name, v)
        ensures name != Infix(v) + hash(OwnedText(name, b, r))
      {
        NameByHash(name, hash, b, r, v);
        BareName(name, hash, b);
        DistinctAt(name, hash, b, Some(r), v, None, Generic);
      }
    }
  }

  lemma DistinctFromHashes(name: string, hash: Hash, b: Bento)
    requires Digests(hash) && NoCollision(name, hash, b) && NotOwnHash(name, hash, b)
    ensures AllDistinct(name, hash, b)
  {
    hide Digests, NoCollision, NotOwnHash, ServiceName;
    forall r, v, r', v' |
      Known(b, r) && Known(b, r') && ServiceName(name, hash, b, r, v) == ServiceName(name, hash, b, r', v')
      ensures r == r' && v == v'
    {
      ServiceNamesDistinct(name, hash, b, r, v, r', v');
    }
  }

  lemma DistinctAt(name: string, hash: Hash, b: Bento, r: Option<string>, v: Variant, r': Option<string>, v': Variant)
    requires AllDistinct(name, hash, b)
    requires Known(b, r) && Known(b, r') && r != r'
    ensures ServiceName(name, hash, b, r, v) != ServiceName(name, hash, b, r', v')
  {
    hide ServiceName;
  }

  /** A runner enters the name of a Service only through one of two hashes. */
  lemma NameByHash(name: string, hash: Hash, b: Bento, r: string, v: Variant)
    requires Digests(hash)
    ensures ServiceName(name, hash, b, Some(r), v)
         == if LongName(name, v) then Infix(v) + hash(OwnedText(name, b, r))
            else name + ("-" + Infix(v) + hash(RunnerText(b, r)))
  {
    TooLongExact(name, hash, b, r, v);
  }

  lemma BareName(name: string, hash: Hash, b: Bento)
    ensures ServiceName(name, hash, b, None, Generic) == name
  {
    assert name + "" == name;
  }

  lemma ShortApi(name: string, hash: Hash, b: Bento, r: Option<string>, v: Variant)
    ensures TooLong(name, hash, b, r, v) ==> r.Some?
  {}

  // ---------------------------------------------------------------- Deployment names

  function DecimalValue(s: string): int {
    if s == [] then 0 else DecimalValue(s[..|s| - 1]) * 10 + (s[|s| - 1] as int - '0' as int)
  }

  lemma {:induction false} DecimalRoundTrip(n: nat)
    ensures DecimalValue(Decimal(n)) == n && Decimal(n) != []
    ensures forall k :: 0 <= k < |Decimal(n)| ==> '0' <= Decimal(n)[k] <= '9'
  {
    if n >= 10 {
      DecimalRoundTrip(n / 10);
      assert Decimal(n)[..|Decimal(n)| - 1] == Decimal(n / 10);
    }
  }

  lemma {:induction false} FirstIndexFinds(names: seq<string>, name: string)
    requires name in names
    ensures FirstIndex(names, name).Some?
    ensures var k := FirstIndex(names, name).value; k < |names| && names[k] == name
  {
    if names[0] != name { FirstIndexFinds(names[1..], name); }
  }

  /** Within one BentoDeployment no two Deployments share a name. */
  lemma KubeNamesDistinct(name: string, b: Bento, r: Option<string>, debug: bool, r': Option<string>, debug': bool)
    requires Known(b, r) && Known(b, r')
    requires KubeName(name, b, r, debug) == KubeName(name, b, r', debug')
    ensures r == r' && debug == debug'
  {
    CancelLeft(name, KubeSuffix(b, r, debug), KubeSuffix(b, r', debug'));
    KubeSuffixesDistinct(b, r, debug, r', debug');
  }

  lemma RunnerNumber(b: Bento, r: string, debug: bool)
    requires r in b.runners
    ensures FirstIndex(b.runners, r).Some?
    ensures var k := FirstIndex(b.runners, r).value;
            && k < |b.runners| && b.runners[k] == r
            && KubeSuffix(b, Some(r), debug) == (if debug then "-runner-d-" else "-runner-") + Decimal(k)
            && DecimalValue(Decimal(k)) == k && Decimal(k) != [] && '0' <= Decimal(k)[0] <= '9'
  {
    hide Decimal, DecimalValue, FirstIndex;
    FirstIndexFinds(b.runners, r);
    DecimalRoundTrip(FirstIndex(b.runners, r).value);
  }

  lemma NumberedDistinct(debug: bool, m: string, debug': bool, n: string)
    requires m != [] && n != [] && '0' <= m[0] <= '9' && '0' <= n[0] <= '9'
    requires (if debug then "-runner-d-" else "-runner-") + m == (if debug' then "-runner-d-" else "-runner-") + n
    ensures debug == debug' && m == n
  {
    var s := (if debug then "-runner-d-" else "-runner-") + m;
    assert s[8] == (if debug then 'd' else m[0]) && s[8] == (if debug' then 'd' else n[0]);
    CancelLeft(if debug then "-runner-d-" else "-runner-", m, n);
  }

  lemma KubeSuffixesDistinct(b: Bento, r: Option<string>, debug: bool, r': Option<string>, debug': bool)
    requires Known(b, r) && Known(b, r')
    requires KubeSuffix(b, r, debug) == KubeSuffix(b, r', debug')
    ensures r == r' && debug == debug'
  {
    hide Decimal, DecimalValue, FirstIndex;
    if r.Some? { RunnerNumber(b, r.value, debug); }
    if r'.Some? { RunnerNumber(b, r'.value, debug'); }
    if r.Some? && r'.Some? {
      var k, k' := FirstIndex(b.runners, r.value).value, FirstIndex(b.runners, r'.value).value;
      NumberedDistinct(debug, Decimal(k), debug', Decimal(k'));
    }
  }
}
