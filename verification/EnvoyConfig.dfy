/** daggerverse/envoy: builders, validation and rendering. A YAML document is the tree it
    decodes to; encoding and decoding are assumed inverse, so a listener's body is that tree. */
module EnvoyConfig {
  import opened Text

  // ------------------------------------------------------------ trees

  datatype Value =
    | Str(s: string) | Int(n: int) | Float(r: real) | Bool(b: bool) | Null
    | List(items: seq<Value>) | Map(entries: map<string, Value>)

  type Tree = map<string, Value>

  function Get(v: Value, key: string): Value {
    if v.Map? && key in v.entries then v.entries[key] else Null
  }

  function Items(v: Value): seq<Value> {
    if v.List? then v.items else []
  }

  // ------------------------------------------------------------ entities

  datatype Mode = Plaintext | Tls | Mtls

  /** Certificates and keys, by where they come from; their bytes are not modelled. */
  datatype Material =
    | Absent
    | LeafCert(owner: string, ca: string) | LeafKey(owner: string, ca: string)
    | StoreTrust(store: string) | StoreCert(store: string) | StoreKey(store: string)

  datatype ServerSecurity = ServerSecurity(mode: Mode, ca: Option<string>, clientTrust: Option<string>)
  datatype UpstreamSecurity = UpstreamSecurity(mode: Mode, trust: Option<string>, keys: Option<string>)

  datatype Endpoint = Endpoint(host: string, port: int)
  datatype Cluster = Cluster(
    name: string, kind: string, endpoints: seq<Endpoint>, mode: Mode, trust: Material, cert: Material, key: Material)

  datatype Route = Route(prefix: string, cluster: string)
  datatype VirtualHost = VirtualHost(name: string, domains: seq<string>, routes: seq<Route>)
  datatype RouteConfig = RouteConfig(name: string, hosts: seq<VirtualHost>)
  datatype HttpFilter = HttpFilter(name: string, body: Tree)
  datatype Hcm = Hcm(statPrefix: string, routeConfig: RouteConfig, filters: seq<HttpFilter>)
  datatype TcpProxy = TcpProxy(statPrefix: string, cluster: string)

  datatype Listener = Listener(
    name: string, body: Tree, clusterRefs: seq<string>, mode: Mode, cert: Material, key: Material, trust: Material)

  datatype BuildError =
    | BadName | NoAddress | BadPort | Missing | NoCa | NoClientTrust | NoTrustStore | NoKeyStore | BadKind | NamedBody

  // ------------------------------------------------------------ transport sockets

  const SECRETS := "/etc/envoy/secrets/"

  function ListenerCertPath(name: string): string { SECRETS + "listener-" + name + ".crt" }

  function ListenerKeyPath(name: string): string { SECRETS + "listener-" + name + ".key" }

  function ListenerTrustPath(name: string): string { SECRETS + "listener-" + name + "-trust.pem" }

  function UpstreamCertPath(name: string): string { SECRETS + "upstream-" + name + ".crt" }

  function UpstreamKeyPath(name: string): string { SECRETS + "upstream-" + name + ".key" }

  function UpstreamTrustPath(name: string): string { SECRETS + "upstream-" + name + "-trust.pem" }

  function FileName(path: string): Value {
    Map(map["filename" := Str(path)])
  }

  function Certificates(cert: string, key: string): Value {
    List([Map(map["certificate_chain" := FileName(cert)]["private_key" := FileName(key)])])
  }

  function Validation(trust: string): Value {
    Map(map["trusted_ca" := FileName(trust)])
  }

  function Socket(typed: Tree): Value {
    Map(map["name" := Str("envoy.transport_sockets.tls")]["typed_config" := Map(typed)])
  }

  const DOWNSTREAM_TYPE := "type.googleapis.com/envoy.extensions.transport_sockets.tls.v3.DownstreamTlsContext"
  const UPSTREAM_TYPE := "type.googleapis.com/envoy.extensions.transport_sockets.tls.v3.UpstreamTlsContext"

  /** `renderDownstreamTransportSocket`; `None` for plaintext. */
  function DownstreamSocket(name: string, mode: Mode): Option<Value> {
    if mode.Plaintext? then None
    else
      var common0 := map["tls_certificates" := Certificates(ListenerCertPath(name), ListenerKeyPath(name))];
      var common := if mode.Mtls? then common0["validation_context" := Validation(ListenerTrustPath(name))]
          else common0;
      var typed0 := map["@type" := Str(DOWNSTREAM_TYPE)]["common_tls_context" := Map(common)];
      Some(Socket(if mode.Mtls? then typed0["require_client_certificate" := Bool(true)] else typed0))
  }

  /** `renderUpstreamTransportSocket`; `None` for plaintext. */
  function UpstreamSocket(name: string, mode: Mode): Option<Value> {
    if mode.Plaintext? then None
    else
      var common0 := map["validation_context" := Validation(UpstreamTrustPath(name))];
      var common := if mode.Mtls?
                    then common0["tls_certificates" := Certificates(UpstreamCertPath(name), UpstreamKeyPath(name))]
                    else common0;
      Some(Socket(map["@type" := Str(UPSTREAM_TYPE)]["common_tls_context" := Map(common)]))
  }

  // ------------------------------------------------------------ builders

  predicate NameChar(c: char) {
    'A' <= c <= 'Z' || 'a' <= c <= 'z' || '0' <= c <= '9' || c == '_' || c == '-'
  }

  predicate ValidName(name: string) {
    name != "" && forall k :: 0 <= k < |name| ==> NameChar(name[k])
  }

  predicate ValidPort(port: int) {
    1 <= port <= 65535
  }

  const HCM := "envoy.filters.network.http_connection_manager"
  const TCP := "envoy.filters.network.tcp_proxy"
  const ROUTER := "envoy.filters.http.router"
  const HCM_TYPE :=
      "type.googleapis.com/envoy.extensions.filters.network.http_connection_manager.v3.HttpConnectionManager"
  const TCP_TYPE := "type.googleapis.com/envoy.extensions.filters.network.tcp_proxy.v3.TcpProxy"
  const ROUTER_TYPE := "type.googleapis.com/envoy.extensions.filters.http.router.v3.Router"

  function RenderRoute(r: Route): Value {
    Map(map["match" := Map(map["prefix" := Str(r.prefix)])]["route" := Map(map["cluster" := Str(r.cluster)])])
  }

  function Strings(ss: seq<string>): Value {
    List(seq(|ss|, i requires 0 <= i < |ss| => Str(ss[i])))
  }

  function RenderVirtualHost(v: VirtualHost): Value {
    var out := map["name" := Str(v.name)]["domains" := Strings(v.domains)];
    Map(if v.routes == [] then out
        else out["routes" := List(seq(|v.routes|, i requires 0 <= i < |v.routes| => RenderRoute(v.routes[i])))])
  }

  function RenderRouteConfig(rc: RouteConfig): Value {
    var out := map["name" := Str(rc.name)];
    Map(if rc.hosts == [] then out
        else out["virtual_hosts" :=
            List(seq(|rc.hosts|, i requires 0 <= i < |rc.hosts| => RenderVirtualHost(rc.hosts[i])))])
  }

  function RenderHttpFilter(f: HttpFilter): Value {
    Map(map["name" := Str(f.name)][
          "typed_config" := Map(if f.name == ROUTER then map["@type" := Str(ROUTER_TYPE)] else f.body)])
  }

  function RenderHcm(h: Hcm): Tree {
    var out := map["@type" := Str(HCM_TYPE)]["stat_prefix" := Str(h.statPrefix)]
                 ["route_config" := RenderRouteConfig(h.routeConfig)];
    if h.filters == [] then out
    else out["http_filters" :=
        List(seq(|h.filters|, i requires 0 <= i < |h.filters| => RenderHttpFilter(h.filters[i])))]
  }

  function RenderTcpProxy(p: TcpProxy): Tree {
    map["@type" := Str(TCP_TYPE)]["stat_prefix" := Str(p.statPrefix)]["cluster" := Str(p.cluster)]
  }

  /** The body both typed listeners share: an address and one filter chain of one filter. */
  function ListenerBody(name: string, address: string, port: int, filter: string, typed: Tree, mode: Mode): Tree {
    var chain0 := map["filters" := List([Map(map["name" := Str(filter)]["typed_config" := Map(typed)])])];
    var ts := DownstreamSocket(name, mode);
    var chain := if ts.Some? then chain0["transport_socket" := ts.value] else chain0;
    var socket := Map(map["address" := Str(address)]["port_value" := Int(port)]);
    map["address" := Map(map["socket_address" := socket])]["filter_chains" := List([Map(chain)])]
  }

  function ServerMode(sec: Option<ServerSecurity>): Mode {
    if sec.None? then Plaintext else sec.value.mode
  }

  /** `bakeListenerSecurity`. */
  function Bake(l: Listener, sec: Option<ServerSecurity>): Result<Listener, BuildError> {
    if ServerMode(sec).Plaintext? then Ok(l)
    else if sec.value.ca.None? then Err(NoCa)
    else
      var baked := l.(mode := sec.value.mode, cert := LeafCert(l.name, sec.value.ca.value),
          key := LeafKey(l.name, sec.value.ca.value));
      if !sec.value.mode.Mtls? then Ok(baked)
      else if sec.value.clientTrust.None? then Err(NoClientTrust)
      else Ok(baked.(trust := StoreTrust(sec.value.clientTrust.value)))
  }

  function CheckAddress(name: string, address: string, port: int): Option<BuildError> {
    if !ValidName(name) then Some(BadName)
    else if address == "" then Some(NoAddress)
    else if !ValidPort(port) then Some(BadPort)
    else None
  }

  /** The first occurrence of each element. */
  function FirstOnly<T(==)>(s: seq<T>): seq<T> {
    if s == [] then []
    else
      var before := FirstOnly(s[..|s| - 1]);
      if s[|s| - 1] in before then before else before + [s[|s| - 1]]
  }

  function HostTargets(routes: seq<Route>): (targets: seq<string>)
    ensures |targets| == |routes|
  {
    seq(|routes|, i requires 0 <= i < |routes| => routes[i].cluster)
  }

  /** The cluster of every route, in order. */
  function Targets(hosts: seq<VirtualHost>): seq<string> {
    if hosts == [] then [] else Targets(hosts[..|hosts| - 1]) + HostTargets(hosts[|hosts| - 1].routes)
  }

  function HttpListener(name: string, address: string, port: int, hcm: Option<Hcm>, sec: Option<ServerSecurity>):
      Result<Listener, BuildError>
  {
    if CheckAddress(name, address, port).Some? then Err(CheckAddress(name, address, port).value)
    else if hcm.None? then Err(Missing)
    else
      Bake(Listener(name, ListenerBody(name, address, port, HCM, RenderHcm(hcm.value), ServerMode(sec)),
                    FirstOnly(Targets(hcm.value.routeConfig.hosts)), Plaintext, Absent, Absent, Absent), sec)
  }

  function TcpListener(name: string, address: string, port: int, proxy: Option<TcpProxy>, sec: Option<ServerSecurity>):
      Result<Listener, BuildError>
  {
    if CheckAddress(name, address, port).Some? then Err(CheckAddress(name, address, port).value)
    else if proxy.None? then Err(Missing)
    else
      Bake(Listener(name, ListenerBody(name, address, port, TCP, RenderTcpProxy(proxy.value), ServerMode(sec)),
                    [proxy.value.cluster], Plaintext, Absent, Absent, Absent), sec)
  }

  function CustomListener(name: string, body: Tree): Result<Listener, BuildError> {
    if !ValidName(name) then Err(BadName)
    else if "name" in body then Err(NamedBody)
    else Ok(Listener(name, body, [], Plaintext, Absent, Absent, Absent))
  }

  function NewCluster(name: string, kind: string, up: Option<UpstreamSecurity>): Result<Cluster, BuildError> {
    if !ValidName(name) then Err(BadName)
    else if kind !in {"STATIC", "STRICT_DNS", "LOGICAL_DNS"} then Err(BadKind)
    else
      var c := Cluster(name, kind, [], Plaintext, Absent, Absent, Absent);
      if up.None? || up.value.mode.Plaintext? then Ok(c)
      else if up.value.trust.None? then Err(NoTrustStore)
      else
        var trusted := c.(mode := up.value.mode, trust := StoreTrust(up.value.trust.value));
        if !up.value.mode.Mtls? then Ok(trusted)
        else if up.value.keys.None? then Err(NoKeyStore)
        else Ok(trusted.(cert := StoreCert(up.value.keys.value), key := StoreKey(up.value.keys.value)))
  }

  // ------------------------------------------------------------ rendering

  /** `renderListener`: the body, with the name keyed in under it. */
  function RenderListener(l: Listener): Tree {
    map["name" := Str(l.name)] + l.body
  }

  function RenderEndpoint(e: Endpoint): Value {
    Map(map["endpoint" := Map(map["address" := Map(map["socket_address" :=
          Map(map["address" := Str(e.host)]["port_value" := Int(e.port)])])])])
  }

  function RenderCluster(c: Cluster): Tree {
    var out0 := map["name" := Str(c.name)]["type" := Str(c.kind)];
    var ts := UpstreamSocket(c.name, c.mode);
    var out := if ts.Some? then out0["transport_socket" := ts.value] else out0;
    if c.endpoints == [] then out
    else
      var lb := List(seq(|c.endpoints|, i requires 0 <= i < |c.endpoints| => RenderEndpoint(c.endpoints[i])));
      out["load_assignment" :=
          Map(map["cluster_name" := Str(c.name)]["endpoints" := List([Map(map["lb_endpoints" := lb])])])]
  }

  function RenderListeners(ls: seq<Listener>): (out: seq<Value>)
    ensures |out| == |ls|
  {
    seq(|ls|, i requires 0 <= i < |ls| => Map(RenderListener(ls[i])))
  }

  function RenderClusters(cs: seq<Cluster>): (out: seq<Value>)
    ensures |out| == |cs|
  {
    seq(|cs|, i requires 0 <= i < |cs| => Map(RenderCluster(cs[i])))
  }

  function Admin(port: int): Value {
    Map(map["address" :=
        Map(map["socket_address" := Map(map["address" := Str("0.0.0.0")]["port_value" := Int(port)])])])
  }

  /** `renderBootstrap`. */
  function RenderBootstrap(adminPort: int, ls: seq<Listener>, cs: seq<Cluster>): Value {
    var static0: Tree := if ls == [] then map[] else map["listeners" := List(RenderListeners(ls))];
    var resources := if cs == [] then static0 else static0["clusters" := List(RenderClusters(cs))];
    var root: Tree := map["admin" := Admin(adminPort)];
    Map(if resources == map[] then root else root["static_resources" := Map(resources)])
  }

  // ------------------------------------------------------------ validation

  datatype ResourceError = Duplicate(name: string) | Unknown(listener: string, cluster: string)

  predicate DistinctNames(ls: seq<Listener>) {
    forall i, j :: 0 <= i < j < |ls| ==> ls[i].name != ls[j].name
  }

  function ClusterNames(cs: seq<Cluster>): set<string> {
    set c | c in cs :: c.name
  }

  predicate RefsKnown(ls: seq<Listener>, cs: seq<Cluster>) {
    forall l, r :: l in ls && r in l.clusterRefs ==> r in ClusterNames(cs)
  }

  predicate Names(cs: seq<Cluster>, name: string) {
    exists i :: 0 <= i < |cs| && cs[i].name == name
  }

  lemma {:induction false} NamesExactly(cs: seq<Cluster>, name: string)
    ensures Names(cs, name) <==> name in ClusterNames(cs)
  {
    if Names(cs, name) {
      var i :| 0 <= i < |cs| && cs[i].name == name;
      assert cs[i] in cs;
    }
  }

  /** `validateResources`: duplicates are looked for first, then references. */
  method ValidateResources(ls: seq<Listener>, cs: seq<Cluster>) returns (error: Option<ResourceError>)
    ensures error.None? <==> DistinctNames(ls) && RefsKnown(ls, cs)
    ensures error.None? <==>
      && (forall i, j :: 0 <= i < j < |ls| ==> ls[i].name != ls[j].name)
      && (forall l, r :: l in ls && r in l.clusterRefs ==> Names(cs, r))
    ensures error.Some? && error.value.Duplicate? <==> !DistinctNames(ls)
    ensures error.Some? && error.value.Duplicate? ==>
      exists i, j :: 0 <= i < j < |ls| && ls[i].name == ls[j].name == error.value.name
    ensures error.Some? && error.value.Unknown? ==>
      && error.value.cluster !in ClusterNames(cs)
      && exists l :: l in ls && l.name == error.value.listener && error.value.cluster in l.clusterRefs
  {
    forall name ensures Names(cs, name) <==> name in ClusterNames(cs) {
      NamesExactly(cs, name);
    }
    var seen: set<string> := {};
    for i := 0 to |ls|
      invariant DistinctNames(ls[..i])
      invariant forall x :: x in seen <==> exists k :: 0 <= k < i && ls[k].name == x
    {
      if ls[i].name in seen {
        return Some(Duplicate(ls[i].name));
      }
      seen := seen + {ls[i].name};
    }
    assert ls[..|ls|] == ls;
    var known: set<string> := {};
    for i := 0 to |cs|
      invariant known == ClusterNames(cs[..i])
    {
      assert cs[..i + 1] == cs[..i] + [cs[i]];
      known := known + {cs[i].name};
    }
    assert cs[..|cs|] == cs;
    for i := 0 to |ls|
      invariant RefsKnown(ls[..i], cs)
    {
      var refs := ls[i].clusterRefs;
      for j := 0 to |refs|
        invariant forall r :: r in refs[..j] ==> r in known
      {
        if refs[j] !in known {
          return Some(Unknown(ls[i].name, refs[j]));
        }
      }
      assert refs[..|refs|] == refs;
      assert ls[..i + 1] == ls[..i] + [ls[i]];
    }
    return None;
  }

  // ------------------------------------------------------------ route targets

  lemma {:induction false} FirstOnlyExactly<T>(s: seq<T>)
    ensures forall x :: x in FirstOnly(s) <==> x in s
    ensures forall i, j :: 0 <= i < j < |FirstOnly(s)| ==> FirstOnly(s)[i] != FirstOnly(s)[j]
  {
    if s != [] {
      var n := |s| - 1;
      FirstOnlyExactly(s[..n]);
      assert s == s[..n] + [s[n]];
    }
  }

  lemma {:induction false} FirstOnlySnoc<T>(s: seq<T>, x: T)
    ensures FirstOnly(s + [x]) == if x in FirstOnly(s) then FirstOnly(s) else FirstOnly(s) + [x]
  {
    assert (s + [x])[..|s|] == s;
  }

  /** `x` stands in a list before `y` first does. */
  ghost predicate Earlier<T(!new)>(s: seq<T>, x: T, y: T) {
    exists k :: 0 <= k < |s| && s[k] == x && y !in s[..k + 1]
  }

  lemma {:induction false} FirstOnlyInOrder<T(!new)>(s: seq<T>, i: nat, j: nat)
    requires i < j < |FirstOnly(s)|
    ensures Earlier(s, FirstOnly(s)[i], FirstOnly(s)[j])
  {
    var n := |s| - 1;
    var before, x, y := FirstOnly(s[..n]), FirstOnly(s)[i], FirstOnly(s)[j];
    FirstOnlyExactly(s[..n]);
    assert before <= FirstOnly(s);
    if j < |before| {
      FirstOnlyInOrder(s[..n], i, j);
      var k :| 0 <= k < n && s[..n][k] == x && y !in s[..n][..k + 1];
      assert s[..n][..k + 1] == s[..k + 1];
    } else {
      assert x in before && y !in s[..n];
      var k :| 0 <= k < n && s[..n][k] == x;
      assert forall z :: z in s[..k + 1] ==> z in s[..n];
    }
  }

  /** The targets of hosts one after the other are those of each, one after the other. */
  lemma {:induction false} TargetsConcat(a: seq<VirtualHost>, b: seq<VirtualHost>)
    ensures Targets(a + b) == Targets(a) + Targets(b)
  {
    if b == [] {
      assert a + b == a;
    } else {
      assert (a + b)[..|a + b| - 1] == a + b[..|b| - 1];
      TargetsConcat(a, b[..|b| - 1]);
    }
  }

  lemma {:induction false} TargetsOfOne(v: VirtualHost)
    ensures |Targets([v])| == |v.routes| && forall k :: 0 <= k < |v.routes| ==> Targets([v])[k] == v.routes[k].cluster
  {
    var none: seq<VirtualHost> := [];
    assert [v][..0] == none && Targets(none) == [];
  }

  /** `collectHcmClusterRefs`: two loops and a table of what was seen. */
  method CollectHcmClusterRefs(h: Hcm) returns (refs: seq<string>)
    ensures refs == FirstOnly(Targets(h.routeConfig.hosts))
    ensures forall x :: x in refs <==> exists v, r :: v in h.routeConfig.hosts && r in v.routes && r.cluster == x
    ensures forall i, j :: 0 <= i < j < |refs| ==> refs[i] != refs[j]
    ensures forall i, j :: 0 <= i < j < |refs| ==> Earlier(Targets(h.routeConfig.hosts), refs[i], refs[j])
  {
    var hosts := h.routeConfig.hosts;
    var seen: set<string> := {};
    refs := [];
    ghost var done: seq<string> := [];
    for i := 0 to |hosts|
      invariant done == Targets(hosts[..i])
      invariant refs == FirstOnly(done) && forall x :: x in seen <==> x in refs
    {
      assert hosts[..i + 1][..i] == hosts[..i];
      refs, seen := CollectFromRoutes(hosts[i].routes, refs, seen, done);
      done := done + HostTargets(hosts[i].routes);
    }
    assert hosts[..|hosts|] == hosts;
    FirstOnlyExactly(done);
    TargetsExactly(hosts);
    forall i, j | 0 <= i < j < |refs| ensures Earlier(done, refs[i], refs[j]) {
      FirstOnlyInOrder(done, i, j);
    }
  }

  /** The loop over the routes of one host. */
  method CollectFromRoutes(routes: seq<Route>, refs0: seq<string>, seen0: set<string>, ghost before: seq<string>)
      returns (refs: seq<string>, seen: set<string>)
    requires refs0 == FirstOnly(before) && forall x :: x in seen0 <==> x in refs0
    ensures refs == FirstOnly(before + HostTargets(routes)) && forall x :: x in seen <==> x in refs
  {
    hide FirstOnly;
    refs, seen := refs0, seen0;
    ghost var done := before;
    for j := 0 to |routes|
      invariant done == before + HostTargets(routes)[..j]
      invariant refs == FirstOnly(done) && forall x :: x in seen <==> x in refs
    {
      FirstOnlySnoc(done, routes[j].cluster);
      done := done + [routes[j].cluster];
      if routes[j].cluster in seen {
        continue;
      }
      seen := seen + {routes[j].cluster};
      refs := refs + [routes[j].cluster];
    }
    assert HostTargets(routes)[..|routes|] == HostTargets(routes);
  }

  lemma {:induction false} TargetsExactly(hosts: seq<VirtualHost>)
    ensures forall x :: x in Targets(hosts) <==> exists v, r :: v in hosts && r in v.routes && r.cluster == x
  {
    if hosts != [] {
      var n := |hosts| - 1;
      TargetsExactly(hosts[..n]);
      assert hosts == hosts[..n] + [hosts[n]];
      forall x ensures x in HostTargets(hosts[n].routes) <==> exists r :: r in hosts[n].routes && r.cluster == x {
        if r :| r in hosts[n].routes && r.cluster == x {
          var k :| 0 <= k < |hosts[n].routes| && hosts[n].routes[k] == r;
          assert HostTargets(hosts[n].routes)[k] == x;
        }
      }
    }
  }
}
