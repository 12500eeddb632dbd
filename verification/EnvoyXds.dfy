/** daggerverse/envoy: file-based xDS. The discovery documents are rendered from the same
    listeners and clusters as the static bootstrap, and read back for their ports. */
module EnvoyXds {
  import opened Text
  import opened EnvoyConfig
  import opened EnvoyClosure

  const LISTENER_TYPE := "type.googleapis.com/envoy.config.listener.v3.Listener"
  const CLUSTER_TYPE := "type.googleapis.com/envoy.config.cluster.v3.Cluster"

  /** One resource of a discovery response: the type first, then what was rendered. */
  function Stamped(typeUrl: string, resource: Value): Value {
    if resource.Map? then Map(map["@type" := Str(typeUrl)] + resource.entries) else resource
  }

  function Stamp(typeUrl: string, resources: seq<Value>): (out: seq<Value>)
    ensures |out| == |resources|
  {
    seq(|resources|, i requires 0 <= i < |resources| => Stamped(typeUrl, resources[i]))
  }

  /** `renderDiscoveryResponse`. */
  function DiscoveryResponse(typeUrl: string, resources: seq<Value>): Value {
    Map(map["version_info" := Str("1")]["resources" := List(Stamp(typeUrl, resources))])
  }

  /** A discovery document that gives resources a type, and what was rendered for each. */
  ghost predicate Typed(doc: Value, typeUrl: string, rendered: seq<Value>) {
    var found := Items(Get(doc, "resources"));
    && Get(doc, "version_info") == Str("1") && |found| == |rendered|
    && forall i :: 0 <= i < |found| ==>
         && (rendered[i].Map? && "@type" !in rendered[i].entries ==> Get(found[i], "@type") == Str(typeUrl))
         && forall key :: key != "@type" ==> Get(found[i], key) == Get(rendered[i], key)
  }

  lemma {:induction false} ResponseTyped(typeUrl: string, rendered: seq<Value>)
    requires forall i :: 0 <= i < |rendered| ==> rendered[i].Map?
    ensures Typed(DiscoveryResponse(typeUrl, rendered), typeUrl, rendered)
  {
    var doc := DiscoveryResponse(typeUrl, rendered);
    var found := Items(Get(doc, "resources"));
    assert found == Stamp(typeUrl, rendered);
    forall i, key | 0 <= i < |found| && key != "@type" ensures Get(found[i], key) == Get(rendered[i], key) {
      assert found[i] == Stamped(typeUrl, rendered[i]);
    }
  }

  datatype XdsError =
    | Invalid(error: ResourceError) | SecuredListener(name: string) | SecuredCluster(name: string)
    | FileMissing(file: string) | Unparsed | NotPresent | NoPort

  /** A directory of discovery files, decoded. */
  type Dir = map<string, Value>

  const LDS := "lds.yaml"
  const CDS := "cds.yaml"

  predicate PlaintextOnly(ls: seq<Listener>, cs: seq<Cluster>) {
    (forall l :: l in ls ==> l.mode.Plaintext?) && (forall c :: c in cs ==> c.mode.Plaintext?)
  }

  /** `XdsResources.Directory`: it accepts what the static proxy accepts, less all TLS. */
  method Directory(ls: seq<Listener>, cs: seq<Cluster>) returns (r: Result<Dir, XdsError>)
    ensures r.Ok? <==> DistinctNames(ls) && RefsKnown(ls, cs) && PlaintextOnly(ls, cs)
    ensures r.Ok? ==> (forall l :: l in ls ==> l.mode == Plaintext) && (forall c :: c in cs ==> c.mode == Plaintext)
    ensures r.Ok? ==>
      r.value == map[LDS := DiscoveryResponse(LISTENER_TYPE, RenderListeners(ls))][
                     CDS := DiscoveryResponse(CLUSTER_TYPE, RenderClusters(cs))]
    ensures r.Ok? ==>
      && r.value.Keys == {"lds.yaml", "cds.yaml"}
      && Typed(r.value["lds.yaml"], "type.googleapis.com/envoy.config.listener.v3.Listener", RenderListeners(ls))
      && Typed(r.value["cds.yaml"], "type.googleapis.com/envoy.config.cluster.v3.Cluster", RenderClusters(cs))
    ensures r.Err? ==> r.error.Invalid? || r.error.SecuredListener? || r.error.SecuredCluster?
    ensures r.Err? && r.error.SecuredListener? ==>
      exists l :: l in ls && l.name == r.error.name && !l.mode.Plaintext?
    ensures r.Err? && r.error.SecuredCluster? ==>
      exists c :: c in cs && c.name == r.error.name && !c.mode.Plaintext?
    ensures r.Err? && r.error.Invalid? <==> !(DistinctNames(ls) && RefsKnown(ls, cs))
  {
    var invalid := ValidateResources(ls, cs);
    if invalid.Some? {
      return Err(Invalid(invalid.value));
    }
    for i := 0 to |ls|
      invariant forall k :: 0 <= k < i ==> ls[k].mode.Plaintext?
    {
      if !ls[i].mode.Plaintext? {
        return Err(SecuredListener(ls[i].name));
      }
    }
    for i := 0 to |cs|
      invariant forall k :: 0 <= k < i ==> cs[k].mode.Plaintext?
    {
      if !cs[i].mode.Plaintext? {
        return Err(SecuredCluster(cs[i].name));
      }
    }
    ResponseTyped(LISTENER_TYPE, RenderListeners(ls));
    ResponseTyped(CLUSTER_TYPE, RenderClusters(cs));
    return Ok(map[LDS := DiscoveryResponse(LISTENER_TYPE, RenderListeners(ls))][
                  CDS := DiscoveryResponse(CLUSTER_TYPE, RenderClusters(cs))]);
  }

  // ------------------------------------------------------------ ports

  /** Go's conversion of a float to int: towards zero. */
  function Truncate(r: real): int {
    if r >= 0.0 then r.Floor else -((-r).Floor)
  }

  /** `extractListenerPort`. */
  function PortOf(body: Value): Option<int> {
    var port := Get(Get(Get(body, "address"), "socket_address"), "port_value");
    if port.Int? then Some(port.n) else if port.Float? then Some(Truncate(port.r)) else None
  }

  /** A listener without a port is a failure. */
  function Answer(port: Option<int>): Result<int, XdsError> {
    if port.None? then Err(NoPort) else Ok(port.value)
  }

  predicate FirstListener(ls: seq<Listener>, name: string, i: int) {
    0 <= i < |ls| && ls[i].name == name && forall j :: 0 <= j < i ==> ls[j].name != name
  }

  predicate FirstResource(resources: seq<Value>, name: string, i: int) {
    && 0 <= i < |resources| && Get(resources[i], "name") == Str(name)
    && forall j :: 0 <= j < i ==> Get(resources[j], "name") != Str(name)
  }

  /** `listenerPort` on a static proxy: the first registered listener of that name decides. */
  method StaticPort(ls: seq<Listener>, name: string) returns (r: Result<int, XdsError>)
    ensures r == StaticPortOf(ls, name)
    ensures r == Err(NotPresent) <==> forall i :: 0 <= i < |ls| ==> ls[i].name != name
    ensures forall i :: FirstListener(ls, name, i) ==> r == Answer(PortOf(Map(ls[i].body)))
  {
    for i := 0 to |ls|
      invariant forall j :: 0 <= j < i ==> ls[j].name != name
      invariant StaticPortOf(ls, name) == StaticPortOf(ls[i..], name)
    {
      if ls[i].name != name {
        continue;
      }
      return Answer(PortOf(Map(ls[i].body)));
    }
    return Err(NotPresent);
  }

  function StaticPortOf(ls: seq<Listener>, name: string): Result<int, XdsError> {
    if ls == [] then Err(NotPresent)
    else if ls[0].name != name then StaticPortOf(ls[1..], name)
    else Answer(PortOf(Map(ls[0].body)))
  }

  function Resources(doc: Value): seq<Value> {
    Items(Get(doc, "resources"))
  }

  /** A document that fits the struct it is decoded into: a list of mappings under
      `resources`, where what is missing or null counts as empty. */
  predicate Decodable(doc: Value) {
    || doc.Null?
    || (doc.Map? &&
        var list := Get(doc, "resources");
        list.Null? || (list.List? && forall i :: 0 <= i < |list.items| ==> list.items[i].Map? || list.items[i].Null?))
  }

  /** What does not fit: a document that is neither a mapping nor null, resources that are
      neither a list nor null, or one of them that is neither a mapping nor null. */
  ghost predicate Misfit(doc: Value) {
    var raw := if doc.Map? && "resources" in doc.entries then doc.entries["resources"] else Null;
    || (doc != Null && !doc.Map?)
    || (raw != Null && !raw.List?)
    || (raw.List? && exists x :: x in raw.items && x != Null && !x.Map?)
  }

  lemma {:induction false} DecodableExactly(doc: Value)
    ensures Decodable(doc) <==> !Misfit(doc)
  {
  }

  lemma {:induction false} ResponsesDecode(typeUrl: string, resources: seq<Value>)
    requires forall i :: 0 <= i < |resources| ==> resources[i].Map?
    ensures Decodable(DiscoveryResponse(typeUrl, resources))
  {
    assert Get(DiscoveryResponse(typeUrl, resources), "resources") == List(Stamp(typeUrl, resources));
  }

  function DynamicResolve(lds: Value, name: string): Result<int, XdsError> {
    if Decodable(lds) then DynamicPortOf(Resources(lds), name) else Err(Unparsed)
  }

  /** `xdsListenerPort`: the first resource of that name in the lds document decides. */
  method DynamicPort(lds: Value, name: string) returns (r: Result<int, XdsError>)
    ensures r == DynamicResolve(lds, name)
    ensures r == Err(Unparsed) <==> Misfit(lds)
    ensures var found := Resources(lds);
      && (r == Err(NotPresent) <==>
            !Misfit(lds) && forall i :: 0 <= i < |found| ==> Get(found[i], "name") != Str(name))
      && (forall i :: !Misfit(lds) && FirstResource(found, name, i) ==> r == Answer(PortOf(found[i])))
  {
    DecodableExactly(lds);
    if !Decodable(lds) {
      return Err(Unparsed);
    }
    var resources := Resources(lds);
    for i := 0 to |resources|
      invariant forall j :: 0 <= j < i ==> Get(resources[j], "name") != Str(name)
      invariant DynamicPortOf(resources, name) == DynamicPortOf(resources[i..], name)
    {
      if Get(resources[i], "name") != Str(name) {
        continue;
      }
      return Answer(PortOf(resources[i]));
    }
    return Err(NotPresent);
  }

  function DynamicPortOf(resources: seq<Value>, name: string): Result<int, XdsError> {
    if resources == [] then Err(NotPresent)
    else if Get(resources[0], "name") != Str(name) then DynamicPortOf(resources[1..], name)
    else Answer(PortOf(resources[0]))
  }

  /** A listener reads the same in either document. */
  lemma {:induction false} StampedListener(l: Listener)
    requires "name" !in l.body
    ensures var res := Stamped(LISTENER_TYPE, Map(RenderListener(l)));
      Get(res, "name") == Str(l.name) && PortOf(res) == PortOf(Map(l.body))
  {
  }

  lemma {:induction false} SamePort(resources: seq<Value>, ls: seq<Listener>, name: string)
    requires |resources| == |ls|
    requires forall i :: 0 <= i < |ls| ==>
      Get(resources[i], "name") == Str(ls[i].name) && PortOf(resources[i]) == PortOf(Map(ls[i].body))
    ensures DynamicPortOf(resources, name) == StaticPortOf(ls, name)
  {
    if ls != [] {
      SamePort(resources[1..], ls[1..], name);
    }
  }

  /** The two ways of finding a port agree, on success and on both failures. */
  lemma {:induction false} PortsAgree(ls: seq<Listener>, name: string)
    requires forall l :: l in ls ==> Built(l)
    ensures DynamicResolve(DiscoveryResponse(LISTENER_TYPE, RenderListeners(ls)), name) == StaticPortOf(ls, name)
  {
    ResponsesDecode(LISTENER_TYPE, RenderListeners(ls));
    var resources := Stamp(LISTENER_TYPE, RenderListeners(ls));
    assert Resources(DiscoveryResponse(LISTENER_TYPE, RenderListeners(ls))) == resources;
    forall i | 0 <= i < |ls|
      ensures Get(resources[i], "name") == Str(ls[i].name) && PortOf(resources[i]) == PortOf(Map(ls[i].body))
    {
      BuiltUnnamed(ls[i]);
      StampedListener(ls[i]);
    }
    SamePort(resources, ls, name);
  }

  /** The ports of a list of bodies, for those that have one. */
  function Ports(bodies: seq<Value>): seq<int> {
    if bodies == [] then []
    else
      var port := PortOf(bodies[|bodies| - 1]);
      Ports(bodies[..|bodies| - 1]) + if port.Some? then [port.value] else []
  }

  lemma {:induction false} PortsSnoc(bodies: seq<Value>, i: nat)
    requires i < |bodies|
    ensures Ports(bodies[..i + 1])
         == if PortOf(bodies[i]).Some? then Ports(bodies[..i]) + [PortOf(bodies[i]).value] else Ports(bodies[..i])
  {
    assert bodies[..i + 1][..i] == bodies[..i];
    assert Ports(bodies[..i]) + [] == Ports(bodies[..i]);
  }

  /** A resource listens on a port: a number there, or one with a fraction cut off. */
  ghost predicate ListensOn(resource: Value, p: int) {
    var named := Get(Get(Get(resource, "address"), "socket_address"), "port_value");
    || named == Int(p)
    || (named.Float? && (if named.r >= 0.0 then p as real <= named.r < p as real + 1.0
                         else p as real - 1.0 < named.r <= p as real))
  }

  /** Exactly the ports the resources listen on, each once, in order of their first mention. */
  ghost predicate Opened(ports: seq<int>, resources: seq<Value>) {
    && (forall p :: p in ports <==> exists i :: 0 <= i < |resources| && ListensOn(resources[i], p))
    && (forall i, j :: 0 <= i < j < |ports| ==> ports[i] != ports[j])
    && (forall i, j :: 0 <= i < j < |ports| ==> Sooner(resources, ports[i], ports[j]))
  }

  /** Some resource listens on `p`, and none up to it on `q`. */
  ghost predicate Sooner(resources: seq<Value>, p: int, q: int) {
    exists k ::
      0 <= k < |resources| && ListensOn(resources[k], p) && forall h :: 0 <= h <= k ==> !ListensOn(resources[h], q)
  }

  lemma {:induction false} TruncateIs(r: real, p: int)
    ensures Truncate(r) == p
       <==> if r >= 0.0 then p as real <= r < p as real + 1.0 else p as real - 1.0 < r <= p as real
  {
  }

  lemma {:induction false} PortOfExactly(resource: Value, p: int)
    ensures PortOf(resource) == Some(p) <==> ListensOn(resource, p)
  {
    var named := Get(Get(Get(resource, "address"), "socket_address"), "port_value");
    if named.Float? {
      TruncateIs(named.r, p);
    }
  }

  lemma {:induction false} PortsExactly(bodies: seq<Value>, p: int)
    ensures p in Ports(bodies) <==> exists i :: 0 <= i < |bodies| && PortOf(bodies[i]) == Some(p)
  {
    if bodies != [] {
      var n := |bodies| - 1;
      PortsExactly(bodies[..n], p);
      PortsSnoc(bodies, n);
      assert bodies[..n + 1] == bodies;
      assert forall i :: 0 <= i < n ==> bodies[..n][i] == bodies[i];
    }
  }

  lemma {:induction false} NotEmpty(bodies: seq<Value>)
    ensures bodies == [] ==> FirstOnly(Ports(bodies)) == []
  {
  }

  /** Of two ports, the one listed first was mentioned before the other ever was. */
  lemma {:induction false} PortsInOrder(bodies: seq<Value>, i: nat, j: nat) returns (k: nat)
    requires i < j < |FirstOnly(Ports(bodies))|
    ensures k < |bodies| && PortOf(bodies[k]) == Some(FirstOnly(Ports(bodies))[i])
    ensures forall h :: 0 <= h <= k ==> PortOf(bodies[h]) != Some(FirstOnly(Ports(bodies))[j])
  {
    hide PortOf, FirstOnly;
    var n := |bodies| - 1;
    NotEmpty(bodies);
    PortsSnoc(bodies, n);
    assert bodies[..n + 1] == bodies;
    var before, all := Ports(bodies[..n]), Ports(bodies);
    if PortOf(bodies[n]).Some? {
      FirstOnlySnoc(before, PortOf(bodies[n]).value);
    }
    assert FirstOnly(before) <= FirstOnly(all);
    if j < |FirstOnly(before)| {
      k := PortsInOrder(bodies[..n], i, j);
    } else {
      var p, q := FirstOnly(all)[i], FirstOnly(all)[j];
      FirstOnlyExactly(before);
      FirstOnlyExactly(all);
      PortsExactly(bodies[..n], p);
      PortsExactly(bodies[..n], q);
      assert p in FirstOnly(before);
      k :| 0 <= k < n && PortOf(bodies[..n][k]) == Some(p);
      assert forall h :: 0 <= h < n ==> bodies[..n][h] == bodies[h];
    }
  }

  lemma {:induction false} PortsOpened(resources: seq<Value>)
    ensures Opened(FirstOnly(Ports(resources)), resources)
  {
    hide PortOf, ListensOn, FirstOnly, Ports;
    var ports := FirstOnly(Ports(resources));
    forall i, p | 0 <= i < |resources| ensures PortOf(resources[i]) == Some(p) <==> ListensOn(resources[i], p) {
      PortOfExactly(resources[i], p);
    }
    FirstOnlyExactly(Ports(resources));
    forall p ensures p in ports <==> exists i :: 0 <= i < |resources| && ListensOn(resources[i], p) {
      PortsExactly(resources, p);
      assert p in ports <==> p in Ports(resources);
    }
    forall i, j | 0 <= i < j < |ports| ensures Sooner(resources, ports[i], ports[j]) {
      var k := PortsInOrder(resources, i, j);
      assert ListensOn(resources[k], ports[i]);
    }
  }

  /** `xdsListenerPorts`: the two files must be there and the first must decode; each port is
      opened once. */
  method ListenerPorts(dir: Dir) returns (r: Result<seq<int>, XdsError>)
    ensures r.Ok? <==> "lds.yaml" in dir && "cds.yaml" in dir && !Misfit(dir["lds.yaml"])
    ensures r.Ok? ==> r.value == FirstOnly(Ports(Resources(dir["lds.yaml"])))
    ensures r.Ok? ==> Opened(r.value, Items(Get(dir["lds.yaml"], "resources")))
    ensures r.Err? ==>
      r.error == if "lds.yaml" !in dir then FileMissing("lds.yaml")
                 else if "cds.yaml" !in dir then FileMissing("cds.yaml") else Unparsed
  {
    var required := [LDS, CDS];
    for i := 0 to |required|
      invariant forall k :: 0 <= k < i ==> required[k] in dir
    {
      assert required[i] == if i == 0 then LDS else CDS;
      assert i == 1 ==> required[0] in dir;
      if required[i] !in dir {
        return Err(FileMissing(required[i]));
      }
    }
    assert required[0] in dir && required[1] in dir;
    DecodableExactly(dir[LDS]);
    if !Decodable(dir[LDS]) {
      return Err(Unparsed);
    }
    var resources := Resources(dir[LDS]);
    var seen: set<int> := {};
    var ports: seq<int> := [];
    for i := 0 to |resources|
      invariant ports == FirstOnly(Ports(resources[..i]))
      invariant forall p :: p in seen <==> p in ports
    {
      PortsSnoc(resources, i);
      var port := PortOf(resources[i]);
      if port.Some? {
        FirstOnlySnoc(Ports(resources[..i]), port.value);
      }
      if port.None? || port.value in seen {
        continue;
      }
      seen := seen + {port.value};
      ports := ports + [port.value];
    }
    assert resources[..|resources|] == resources;
    PortsOpened(resources);
    return Ok(ports);
  }

  function Bodies(ls: seq<Listener>): (bodies: seq<Value>)
    ensures |bodies| == |ls|
  {
    seq(|ls|, i requires 0 <= i < |ls| => Map(ls[i].body))
  }

  lemma {:induction false} SamePorts(a: seq<Value>, b: seq<Value>)
    requires |a| == |b| && forall i :: 0 <= i < |a| ==> PortOf(a[i]) == PortOf(b[i])
    ensures Ports(a) == Ports(b)
  {
    if a != [] {
      SamePorts(a[..|a| - 1], b[..|b| - 1]);
    }
  }

  /** In a directory made from listeners, those are the static ports, each once. */
  lemma {:induction false} ListenerPortsAgree(ls: seq<Listener>)
    requires forall l :: l in ls ==> Built(l)
    ensures Decodable(DiscoveryResponse(LISTENER_TYPE, RenderListeners(ls)))
    ensures Ports(Resources(DiscoveryResponse(LISTENER_TYPE, RenderListeners(ls)))) == Ports(Bodies(ls))
  {
    ResponsesDecode(LISTENER_TYPE, RenderListeners(ls));
    var resources := Resources(DiscoveryResponse(LISTENER_TYPE, RenderListeners(ls)));
    forall i | 0 <= i < |ls| ensures PortOf(resources[i]) == PortOf(Bodies(ls)[i]) {
      BuiltUnnamed(ls[i]);
      StampedListener(ls[i]);
      assert resources[i] == Stamped(LISTENER_TYPE, Map(RenderListener(ls[i])));
    }
    SamePorts(resources, Bodies(ls));
  }

  lemma {:induction false} BodyPort(name: string, address: string, port: int, filter: string, typed: Tree, mode: Mode)
    ensures PortOf(Map(ListenerBody(name, address, port, filter, typed, mode))) == Some(port)
  {
    var body := Map(ListenerBody(name, address, port, filter, typed, mode));
    assert Get(Get(Get(body, "address"), "socket_address"), "port_value") == Int(port);
  }

  /** A typed listener's port is the one it was built with. */
  lemma {:induction false} HttpPort(l: Listener, address: string, port: int, hcm: Hcm, sec: Option<ServerSecurity>)
    requires HttpListener(l.name, address, port, Some(hcm), sec) == Ok(l)
    ensures PortOf(Map(l.body)) == Some(port)
  {
    var bare := Listener(l.name, ListenerBody(l.name, address, port, HCM, RenderHcm(hcm), ServerMode(sec)),
                         FirstOnly(Targets(hcm.routeConfig.hosts)), Plaintext, Absent, Absent, Absent);
    BakeKeeps(bare, sec);
    BodyPort(l.name, address, port, HCM, RenderHcm(hcm), ServerMode(sec));
  }

  lemma {:induction false} TcpPort(l: Listener, address: string, port: int, proxy: TcpProxy,
        sec: Option<ServerSecurity>)
    requires TcpListener(l.name, address, port, Some(proxy), sec) == Ok(l)
    ensures PortOf(Map(l.body)) == Some(port)
  {
    var bare := Listener(l.name, ListenerBody(l.name, address, port, TCP, RenderTcpProxy(proxy), ServerMode(sec)),
                         [proxy.cluster], Plaintext, Absent, Absent, Absent);
    BakeKeeps(bare, sec);
    BodyPort(l.name, address, port, TCP, RenderTcpProxy(proxy), ServerMode(sec));
  }

  /** Apart from its type, a resource is the static entry of the same component. */
  lemma {:induction false} SameStructure(ls: seq<Listener>, cs: seq<Cluster>, adminPort: int, key: string)
    requires key != "@type"
    ensures var doc := RenderBootstrap(adminPort, ls, cs);
      && |StaticListeners(doc)| == |Resources(DiscoveryResponse(LISTENER_TYPE, RenderListeners(ls)))| == |ls|
      && |StaticClusters(doc)| == |Resources(DiscoveryResponse(CLUSTER_TYPE, RenderClusters(cs)))| == |cs|
    ensures forall i :: 0 <= i < |ls| ==>
      Get(Resources(DiscoveryResponse(LISTENER_TYPE, RenderListeners(ls)))[i], key)
      == Get(StaticListeners(RenderBootstrap(adminPort, ls, cs))[i], key)
    ensures forall i :: 0 <= i < |cs| ==>
      Get(Resources(DiscoveryResponse(CLUSTER_TYPE, RenderClusters(cs)))[i], key)
      == Get(StaticClusters(RenderBootstrap(adminPort, ls, cs))[i], key)
  {
    BootstrapLists(adminPort, ls, cs);
    StampKeeps(LISTENER_TYPE, RenderListeners(ls), key);
    StampKeeps(CLUSTER_TYPE, RenderClusters(cs), key);
  }

  lemma {:induction false} StampKeeps(typeUrl: string, resources: seq<Value>, key: string)
    requires key != "@type"
    ensures Resources(DiscoveryResponse(typeUrl, resources)) == Stamp(typeUrl, resources)
    ensures forall i :: 0 <= i < |resources| ==> Get(Stamp(typeUrl, resources)[i], key) == Get(resources[i], key)
  {
  }
}
