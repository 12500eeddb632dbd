/** daggerverse/envoy: what the proxy reads from the documents, key by key, and what it finds in
    the files they name. */
module EnvoyReads {
  import opened Text
  import opened EnvoyConfig
  import opened EnvoyClosure
  import opened EnvoyMounts
  import opened Mounting

  /** What stands at a path of keys, `Null` when something on the way is missing. */
  function At(v: Value, path: seq<string>): Value
    decreases |path|
  {
    if path == [] then v else At(Get(v, path[0]), path[1..])
  }

  /** The one element of a list. */
  function Only(v: Value): Value {
    if v.List? && |v.items| == 1 then v.items[0] else Null
  }

  lemma {:induction false} AtTwo(v: Value, a: string, b: string)
    ensures At(v, [a, b]) == Get(Get(v, a), b)
  {
    var none: seq<string> := [];
    assert [a, b][1..] == [b] && [b][1..] == none;
    assert At(Get(v, a), [b]) == At(Get(Get(v, a), b), none);
  }

  lemma {:induction false} AtThree(v: Value, a: string, b: string, c: string)
    ensures At(v, [a, b, c]) == Get(Get(Get(v, a), b), c)
  {
    assert [a, b, c][1..] == [b, c];
    AtTwo(Get(v, a), b, c);
  }

  lemma {:induction false} AtFive(v: Value, a: string, b: string, c: string, d: string, e: string)
    ensures At(v, [a, b, c, d, e]) == Get(Get(Get(Get(Get(v, a), b), c), d), e)
  {
    assert [a, b, c, d, e][1..] == [b, c, d, e] && [b, c, d, e][1..] == [c, d, e];
    AtThree(Get(Get(v, a), b), c, d, e);
  }

  // ------------------------------------------------------------ transport sockets

  /** The certificate and the key a socket presents, by file. */
  ghost predicate Presents(socket: Value, cert: string, key: string) {
    var own := Only(At(socket, ["typed_config", "common_tls_context", "tls_certificates"]));
    At(own, ["certificate_chain", "filename"]) == Str(cert) && At(own, ["private_key", "filename"]) == Str(key)
  }

  /** The authority a socket checks its peers against. */
  function Trusts(socket: Value): Value {
    At(socket, ["typed_config", "common_tls_context", "validation_context", "trusted_ca", "filename"])
  }

  /** A listener's socket: none in plain text; under TLS the listener's own certificate; under
      mutual TLS also the clients' authority, and clients must show a certificate. */
  ghost predicate ServesAs(socket: Value, name: string, mode: Mode) {
    if mode == Plaintext then socket == Null
    else
      && Get(socket, "name") == Str("envoy.transport_sockets.tls")
      && At(socket, ["typed_config", "@type"])
           == Str("type.googleapis.com/envoy.extensions.transport_sockets.tls.v3.DownstreamTlsContext")
      && Presents(socket, "/etc/envoy/secrets/listener-" + name + ".crt",
                          "/etc/envoy/secrets/listener-" + name + ".key")
      && Trusts(socket) == (if mode == Mtls then Str("/etc/envoy/secrets/listener-" + name + "-trust.pem") else Null)
      && At(socket, ["typed_config", "require_client_certificate"]) == (if mode == Mtls then Bool(true) else Null)
  }

  /** A cluster's socket: under TLS the servers' authority, and under mutual TLS also the
      cluster's own certificate. */
  ghost predicate ConnectsAs(socket: Value, name: string, mode: Mode) {
    if mode == Plaintext then socket == Null
    else
      && Get(socket, "name") == Str("envoy.transport_sockets.tls")
      && At(socket, ["typed_config", "@type"])
           == Str("type.googleapis.com/envoy.extensions.transport_sockets.tls.v3.UpstreamTlsContext")
      && Trusts(socket) == Str("/etc/envoy/secrets/upstream-" + name + "-trust.pem")
      && (if mode == Mtls
          then Presents(socket, "/etc/envoy/secrets/upstream-" + name + ".crt",
                                "/etc/envoy/secrets/upstream-" + name + ".key")
          else At(socket, ["typed_config", "common_tls_context", "tls_certificates"]) == Null)
  }

  lemma {:induction false} CertificatesRead(socket: Value, cert: string, key: string)
    requires Get(Get(Get(socket, "typed_config"), "common_tls_context"), "tls_certificates") == Certificates(cert, key)
    ensures Presents(socket, cert, key)
  {
    AtThree(socket, "typed_config", "common_tls_context", "tls_certificates");
    var own := Only(Certificates(cert, key));
    AtTwo(own, "certificate_chain", "filename");
    AtTwo(own, "private_key", "filename");
    assert Get(own, "certificate_chain") == FileName(cert) && Get(own, "private_key") == FileName(key);
  }

  lemma {:induction false} TrustRead(socket: Value)
    ensures
      var context := Get(Get(socket, "typed_config"), "common_tls_context");
      Trusts(socket) == Get(Get(Get(context, "validation_context"), "trusted_ca"), "filename")
  {
    AtFive(socket, "typed_config", "common_tls_context", "validation_context", "trusted_ca", "filename");
  }

  lemma {:induction false} DownstreamKeys(name: string, mode: Mode)
    requires !mode.Plaintext?
    ensures DownstreamSocket(name, mode).Some?
    ensures var socket := DownstreamSocket(name, mode).value;
      var typed := Get(socket, "typed_config");
      var common := Get(typed, "common_tls_context");
      && Get(socket, "name") == Str("envoy.transport_sockets.tls")
      && Get(typed, "@type") == Str(DOWNSTREAM_TYPE)
      && Get(typed, "require_client_certificate") == (if mode.Mtls? then Bool(true) else Null)
      && Get(common, "tls_certificates") == Certificates(ListenerCertPath(name), ListenerKeyPath(name))
      && Get(common, "validation_context") == if mode.Mtls? then Validation(ListenerTrustPath(name)) else Null
  {
    hide Certificates, Validation;
  }

  lemma {:induction false} ValidationRead(trust: string)
    ensures Get(Get(Validation(trust), "trusted_ca"), "filename") == Str(trust)
    ensures Get(Get(Null, "trusted_ca"), "filename") == Null
  {
  }

  lemma {:induction false} DownstreamReads(name: string, mode: Mode)
    ensures var ts := DownstreamSocket(name, mode); ServesAs(if ts.Some? then ts.value else Null, name, mode)
  {
    if !mode.Plaintext? {
      hide DownstreamSocket, Certificates, Validation, At, Presents, Trusts, Get;
      var socket := DownstreamSocket(name, mode).value;
      DownstreamKeys(name, mode);
      CertificatesRead(socket, ListenerCertPath(name), ListenerKeyPath(name));
      ValidationRead(ListenerTrustPath(name));
      TrustRead(socket);
      AtTwo(socket, "typed_config", "@type");
      AtTwo(socket, "typed_config", "require_client_certificate");
      ListenerPathsSpelled(name);
    }
  }

  lemma {:induction false} ListenerPathsSpelled(name: string)
    ensures ListenerCertPath(name) == "/etc/envoy/secrets/listener-" + name + ".crt"
    ensures ListenerKeyPath(name) == "/etc/envoy/secrets/listener-" + name + ".key"
    ensures ListenerTrustPath(name) == "/etc/envoy/secrets/listener-" + name + "-trust.pem"
  {
    assert SECRETS + "listener-" == "/etc/envoy/secrets/listener-";
  }

  lemma {:induction false} UpstreamPathsSpelled(name: string)
    ensures UpstreamCertPath(name) == "/etc/envoy/secrets/upstream-" + name + ".crt"
    ensures UpstreamKeyPath(name) == "/etc/envoy/secrets/upstream-" + name + ".key"
    ensures UpstreamTrustPath(name) == "/etc/envoy/secrets/upstream-" + name + "-trust.pem"
  {
    assert SECRETS + "upstream-" == "/etc/envoy/secrets/upstream-";
  }

  lemma {:induction false} UpstreamKeys(name: string, mode: Mode)
    requires !mode.Plaintext?
    ensures UpstreamSocket(name, mode).Some?
    ensures var socket := UpstreamSocket(name, mode).value;
      var typed := Get(socket, "typed_config");
      var common := Get(typed, "common_tls_context");
      && Get(socket, "name") == Str("envoy.transport_sockets.tls")
      && Get(typed, "@type") == Str(UPSTREAM_TYPE)
      && Get(common, "validation_context") == Validation(UpstreamTrustPath(name))
      && Get(common, "tls_certificates")
           == if mode.Mtls? then Certificates(UpstreamCertPath(name), UpstreamKeyPath(name)) else Null
  {
    hide Certificates, Validation;
  }

  lemma {:induction false} UpstreamReads(name: string, mode: Mode)
    ensures var ts := UpstreamSocket(name, mode); ConnectsAs(if ts.Some? then ts.value else Null, name, mode)
  {
    if !mode.Plaintext? {
      hide UpstreamSocket, Certificates, Validation, At, Presents, Trusts, Get;
      var socket := UpstreamSocket(name, mode).value;
      UpstreamKeys(name, mode);
      if mode.Mtls? {
        CertificatesRead(socket, UpstreamCertPath(name), UpstreamKeyPath(name));
      }
      ValidationRead(UpstreamTrustPath(name));
      TrustRead(socket);
      AtTwo(socket, "typed_config", "@type");
      AtThree(socket, "typed_config", "common_tls_context", "tls_certificates");
      UpstreamPathsSpelled(name);
    }
  }

  // ------------------------------------------------------------ listeners

  /** The one filter chain of a typed listener, and its one filter. */
  function Chain(listener: Value): Value {
    Only(Get(listener, "filter_chains"))
  }

  function Filter(listener: Value): Value {
    Only(Get(Chain(listener), "filters"))
  }

  /** A listener's name and address, and how its one chain is served. */
  ghost predicate ListensAt(listener: Value, name: string, address: string, port: int, mode: Mode) {
    && Get(listener, "name") == Str(name)
    && At(listener, ["address", "socket_address", "address"]) == Str(address)
    && At(listener, ["address", "socket_address", "port_value"]) == Int(port)
    && ServesAs(Get(Chain(listener), "transport_socket"), name, mode)
  }

  lemma {:induction false} BodyKeys(name: string, address: string, port: int, filter: string, typed: Tree, mode: Mode)
    ensures var listener := Map(map["name" := Str(name)] + ListenerBody(name, address, port, filter, typed, mode));
      var socket, ts := Get(Get(listener, "address"), "socket_address"), DownstreamSocket(name, mode);
      && Get(listener, "name") == Str(name)
      && Get(socket, "address") == Str(address) && Get(socket, "port_value") == Int(port)
      && Get(Chain(listener), "transport_socket") == (if ts.Some? then ts.value else Null)
      && Filter(listener) == Map(map["name" := Str(filter)]["typed_config" := Map(typed)])
  {
    hide DownstreamSocket;
    var body := ListenerBody(name, address, port, filter, typed, mode);
    var listener := Map(map["name" := Str(name)] + body);
    assert Get(listener, "address") == body["address"] && Get(listener, "filter_chains") == body["filter_chains"];
  }

  lemma {:induction false} BodyReads(name: string, address: string, port: int, filter: string, typed: Tree, mode: Mode)
    ensures var listener := Map(map["name" := Str(name)] + ListenerBody(name, address, port, filter, typed, mode));
      && ListensAt(listener, name, address, port, mode)
      && Get(Filter(listener), "name") == Str(filter) && Get(Filter(listener), "typed_config") == Map(typed)
  {
    hide ListenerBody, DownstreamSocket, ServesAs, At, Chain, Filter;
    var listener := Map(map["name" := Str(name)] + ListenerBody(name, address, port, filter, typed, mode));
    BodyKeys(name, address, port, filter, typed, mode);
    DownstreamReads(name, mode);
    AtThree(listener, "address", "socket_address", "address");
    AtThree(listener, "address", "socket_address", "port_value");
  }

  /** An http filter: the router is given its type, any other the body it came with. */
  ghost predicate FilterReads(v: Value, f: HttpFilter) {
    && Get(v, "name") == Str(f.name)
    && Get(v, "typed_config")
         == Map(if f.name == "envoy.filters.http.router"
                then map["@type" := Str("type.googleapis.com/envoy.extensions.filters.http.router.v3.Router")]
                else f.body)
  }

  /** A virtual host: its domains and its routes, in order. */
  ghost predicate HostReads(v: Value, h: VirtualHost) {
    && Get(v, "name") == Str(h.name)
    && |Items(Get(v, "domains"))| == |h.domains|
    && (forall k :: 0 <= k < |h.domains| ==> Items(Get(v, "domains"))[k] == Str(h.domains[k]))
    && |Items(Get(v, "routes"))| == |h.routes|
    && forall k :: 0 <= k < |h.routes| ==>
         && At(Items(Get(v, "routes"))[k], ["match", "prefix"]) == Str(h.routes[k].prefix)
         && At(Items(Get(v, "routes"))[k], ["route", "cluster"]) == Str(h.routes[k].cluster)
  }

  /** A connection manager's settings: its type, prefix, routes and filters. */
  ghost predicate ManagerReads(typed: Value, h: Hcm) {
    var hosts, filters := Items(At(typed, ["route_config", "virtual_hosts"])), Items(Get(typed, "http_filters"));
    && Get(typed, "@type") == Str(
         "type.googleapis.com/envoy.extensions.filters.network.http_connection_manager.v3.HttpConnectionManager")
    && Get(typed, "stat_prefix") == Str(h.statPrefix)
    && At(typed, ["route_config", "name"]) == Str(h.routeConfig.name)
    && |hosts| == |h.routeConfig.hosts| && |filters| == |h.filters|
    && (forall k :: 0 <= k < |hosts| ==> HostReads(hosts[k], h.routeConfig.hosts[k]))
    && (forall k :: 0 <= k < |filters| ==> FilterReads(filters[k], h.filters[k]))
  }

  lemma {:induction false} RouteReads(r: Route)
    ensures At(RenderRoute(r), ["match", "prefix"]) == Str(r.prefix)
    ensures At(RenderRoute(r), ["route", "cluster"]) == Str(r.cluster)
  {
    AtTwo(RenderRoute(r), "match", "prefix");
    AtTwo(RenderRoute(r), "route", "cluster");
  }

  lemma {:induction false} HostIsRead(h: VirtualHost)
    ensures HostReads(RenderVirtualHost(h), h)
  {
    hide RenderRoute;
    HostRoutes(h);
    forall k | 0 <= k < |h.routes|
      ensures At(RenderRoute(h.routes[k]), ["match", "prefix"]) == Str(h.routes[k].prefix)
      ensures At(RenderRoute(h.routes[k]), ["route", "cluster"]) == Str(h.routes[k].cluster)
    {
      RouteReads(h.routes[k]);
    }
    assert Items(Get(RenderVirtualHost(h), "domains"))
        == seq(|h.domains|, i requires 0 <= i < |h.domains| => Str(h.domains[i]));
  }

  lemma {:induction false} ManagerIsRead(h: Hcm)
    ensures ManagerReads(Map(RenderHcm(h)), h)
  {
    hide RenderVirtualHost, HostReads;
    var typed := Map(RenderHcm(h));
    AtTwo(typed, "route_config", "virtual_hosts");
    AtTwo(typed, "route_config", "name");
    assert Get(typed, "route_config") == RenderRouteConfig(h.routeConfig);
    var hosts := Items(Get(RenderRouteConfig(h.routeConfig), "virtual_hosts"));
    forall k | 0 <= k < |h.routeConfig.hosts|
      ensures |hosts| == |h.routeConfig.hosts| && HostReads(hosts[k], h.routeConfig.hosts[k])
    {
      assert hosts[k] == RenderVirtualHost(h.routeConfig.hosts[k]);
      HostIsRead(h.routeConfig.hosts[k]);
    }
  }

  /** What the proxy reads of an http listener, whatever it was built from. */
  lemma {:induction false} HttpListenerReads(
      l: Listener, address: string, port: int, hcm: Hcm, sec: Option<ServerSecurity>)
    requires HttpListener(l.name, address, port, Some(hcm), sec) == Ok(l)
    ensures var listener := Map(RenderListener(l));
      && ListensAt(listener, l.name, address, port, l.mode)
      && Get(Filter(listener), "name") == Str("envoy.filters.network.http_connection_manager")
      && ManagerReads(Get(Filter(listener), "typed_config"), hcm)
  {
    hide ListensAt, ListenerBody, Filter, ManagerReads, RenderHcm;
    BakeMode(Listener(l.name, ListenerBody(l.name, address, port, HCM, RenderHcm(hcm), ServerMode(sec)),
                      FirstOnly(Targets(hcm.routeConfig.hosts)), Plaintext, Absent, Absent, Absent), sec);
    BodyReads(l.name, address, port, HCM, RenderHcm(hcm), ServerMode(sec));
    ManagerIsRead(hcm);
  }

  lemma {:induction false} TcpListenerReads(l: Listener, address: string, port: int, proxy: TcpProxy,
        sec: Option<ServerSecurity>)
    requires TcpListener(l.name, address, port, Some(proxy), sec) == Ok(l)
    ensures var listener := Map(RenderListener(l));
      var typed := Get(Filter(listener), "typed_config");
      && ListensAt(listener, l.name, address, port, l.mode)
      && Get(Filter(listener), "name") == Str("envoy.filters.network.tcp_proxy")
      && Get(typed, "@type") == Str("type.googleapis.com/envoy.extensions.filters.network.tcp_proxy.v3.TcpProxy")
      && Get(typed, "stat_prefix") == Str(proxy.statPrefix) && Get(typed, "cluster") == Str(proxy.cluster)
  {
    hide ListensAt, ListenerBody, Filter;
    BakeMode(Listener(l.name, ListenerBody(l.name, address, port, TCP, RenderTcpProxy(proxy), ServerMode(sec)),
                      [proxy.cluster], Plaintext, Absent, Absent, Absent), sec);
    BodyReads(l.name, address, port, TCP, RenderTcpProxy(proxy), ServerMode(sec));
  }

  lemma {:induction false} ClusterKeys(c: Cluster)
    ensures var out, ts := RenderCluster(c), UpstreamSocket(c.name, c.mode);
      && "name" in out && out["name"] == Str(c.name) && "type" in out && out["type"] == Str(c.kind)
      && ("transport_socket" in out <==> ts.Some?) && (ts.Some? ==> out["transport_socket"] == ts.value)
      && (c.endpoints != [] ==>
            "load_assignment" in out && Get(out["load_assignment"], "cluster_name") == Str(c.name))
  {
    hide UpstreamSocket;
  }

  lemma {:induction false} ClusterReads(c: Cluster)
    ensures var cluster := Map(RenderCluster(c));
      && Get(cluster, "name") == Str(c.name) && Get(cluster, "type") == Str(c.kind)
      && ConnectsAs(Get(cluster, "transport_socket"), c.name, c.mode)
      && (c.endpoints != [] ==> At(cluster, ["load_assignment", "cluster_name"]) == Str(c.name))
  {
    hide ConnectsAs, UpstreamSocket, RenderCluster, At;
    ClusterKeys(c);
    UpstreamReads(c.name, c.mode);
    AtTwo(Map(RenderCluster(c)), "load_assignment", "cluster_name");
  }

  /** The document the proxy is started with lists them under these keys, and opens the admin
      port on every address. */
  lemma {:induction false} BootstrapReads(adminPort: int, ls: seq<Listener>, cs: seq<Cluster>)
    ensures var doc := RenderBootstrap(adminPort, ls, cs);
      var listeners, clusters :=
        Items(At(doc, ["static_resources", "listeners"])), Items(At(doc, ["static_resources", "clusters"]));
      && Get(At(doc, ["admin", "address"]), "socket_address")
           == Map(map["address" := Str("0.0.0.0"), "port_value" := Int(adminPort)])
      && |listeners| == |ls| && (forall i :: 0 <= i < |ls| ==> listeners[i] == Map(RenderListener(ls[i])))
      && |clusters| == |cs| && (forall i :: 0 <= i < |cs| ==> clusters[i] == Map(RenderCluster(cs[i])))
  {
    var doc := RenderBootstrap(adminPort, ls, cs);
    BootstrapLists(adminPort, ls, cs);
    AtTwo(doc, "static_resources", "listeners");
    AtTwo(doc, "static_resources", "clusters");
    AtTwo(doc, "admin", "address");
    assert Get(doc, "admin") == Admin(adminPort);
    assert map["address" := Str("0.0.0.0")]["port_value" := Int(adminPort)]
        == map["address" := Str("0.0.0.0"), "port_value" := Int(adminPort)];
  }
}
