/** daggerverse/envoy: the renderers as they run, filling slices and maps in loops. Ranging
    over a map visits its keys in any order. */
module EnvoyRender {
  import opened EnvoyConfig
  import opened EnvoyClosure
  import opened EnvoyXds

  /** What is copied when `todo` is not yet. */
  ghost function Partly(out0: Tree, body: Tree, todo: set<string>): Tree {
    out0 + (body - todo)
  }

  lemma {:induction false} PartlyEnds(out0: Tree, body: Tree)
    ensures Partly(out0, body, body.Keys) == out0
    ensures Partly(out0, body, {}) == out0 + body
  {
    assert body - {} == body;
  }

  lemma {:induction false} PartlyOne(out0: Tree, body: Tree, todo: set<string>, k: string)
    requires k in todo && todo <= body.Keys
    ensures Partly(out0, body, todo - {k}) == Partly(out0, body, todo)[k := body[k]]
  {
    assert (body - (todo - {k})) == (body - todo)[k := body[k]];
  }

  /** `for k, v := range body { out[k] = v }`, whatever the order. */
  method CopyInto(out0: Tree, body: Tree) returns (out: Tree)
    ensures out == out0 + body
  {
    hide Partly;
    PartlyEnds(out0, body);
    out := out0;
    var todo := body.Keys;
    while todo != {}
      invariant todo <= body.Keys
      invariant out == Partly(out0, body, todo)
      decreases |todo|
    {
      var k :| k in todo;
      PartlyOne(out0, body, todo, k);
      out := out[k := body[k]];
      todo := todo - {k};
    }
  }

  /** `renderListener`. */
  method BuildListener(l: Listener) returns (out: Tree)
    ensures out == RenderListener(l)
  {
    out := CopyInto(map["name" := Str(l.name)], l.body);
  }

  /** The endpoints a cluster resource lists. */
  function Endpoints(cluster: Value): seq<Value> {
    var localities := Items(Get(Get(cluster, "load_assignment"), "endpoints"));
    if localities == [] then [] else Items(Get(localities[0], "lb_endpoints"))
  }

  function SocketOf(endpoint: Value): Value {
    Get(Get(Get(endpoint, "endpoint"), "address"), "socket_address")
  }

  /** Endpoint by endpoint, the hosts and ports the cluster was given. */
  lemma {:induction false} EndpointsOf(c: Cluster)
    ensures var entries := Endpoints(Map(RenderCluster(c)));
      && |entries| == |c.endpoints|
      && forall i :: 0 <= i < |entries| ==>
           && Get(SocketOf(entries[i]), "address") == Str(c.endpoints[i].host)
           && Get(SocketOf(entries[i]), "port_value") == Int(c.endpoints[i].port)
  {
    if c.endpoints != [] {
      var localities := Items(Get(Get(Map(RenderCluster(c)), "load_assignment"), "endpoints"));
      assert |localities| == 1;
      forall i | 0 <= i < |c.endpoints|
        ensures Endpoints(Map(RenderCluster(c)))[i] == RenderEndpoint(c.endpoints[i])
      {
      }
    }
  }

  /** `renderCluster`: its endpoints are read back in order, and none when it has none. */
  method BuildCluster(c: Cluster) returns (out: Tree)
    ensures out == RenderCluster(c)
    ensures Get(Map(out), "name") == Str(c.name) && Get(Map(out), "type") == Str(c.kind)
    ensures "load_assignment" in out <==> c.endpoints != []
    ensures var entries := Endpoints(Map(out));
      && |entries| == |c.endpoints|
      && forall i :: 0 <= i < |entries| ==>
           && Get(SocketOf(entries[i]), "address") == Str(c.endpoints[i].host)
           && Get(SocketOf(entries[i]), "port_value") == Int(c.endpoints[i].port)
  {
    EndpointsOf(c);
    out := map["name" := Str(c.name)]["type" := Str(c.kind)];
    var ts := UpstreamSocket(c.name, c.mode);
    if ts.Some? {
      out := out["transport_socket" := ts.value];
    }
    if |c.endpoints| > 0 {
      var lbEndpoints: seq<Value> := [];
      for i := 0 to |c.endpoints|
        invariant |lbEndpoints| == i && forall k :: 0 <= k < i ==> lbEndpoints[k] == RenderEndpoint(c.endpoints[k])
      {
        lbEndpoints := lbEndpoints + [RenderEndpoint(c.endpoints[i])];
      }
      assert lbEndpoints == seq(|c.endpoints|, i requires 0 <= i < |c.endpoints| => RenderEndpoint(c.endpoints[i]));
      out := out["load_assignment" := Map(map["cluster_name" := Str(c.name)][
                                          "endpoints" := List([Map(map["lb_endpoints" := List(lbEndpoints)])])])];
    }
  }

  method BuildListeners(ls: seq<Listener>) returns (out: seq<Value>)
    ensures out == RenderListeners(ls)
    ensures forall i, key :: 0 <= i < |ls| && key in ls[i].body ==> Get(out[i], key) == ls[i].body[key]
    ensures forall i :: 0 <= i < |ls| && "name" !in ls[i].body ==> Get(out[i], "name") == Str(ls[i].name)
  {
    out := [];
    for i := 0 to |ls|
      invariant |out| == i && forall k :: 0 <= k < i ==> out[k] == Map(RenderListener(ls[k]))
    {
      var entry := BuildListener(ls[i]);
      out := out + [Map(entry)];
    }
  }

  method BuildClusters(cs: seq<Cluster>) returns (out: seq<Value>)
    ensures out == RenderClusters(cs)
    ensures forall i :: 0 <= i < |cs| ==>
        Get(out[i], "name") == Str(cs[i].name) && |Endpoints(out[i])| == |cs[i].endpoints|
  {
    out := [];
    for i := 0 to |cs|
      invariant |out| == i && forall k :: 0 <= k < i ==> out[k] == Map(RenderCluster(cs[k]))
    {
      var entry := BuildCluster(cs[i]);
      out := out + [Map(entry)];
    }
  }

  /** `renderBootstrap`: the document lists the components in the order they were added, as
      `StaticListeners` and `StaticClusters` read them back. */
  method BuildBootstrap(adminPort: int, ls: seq<Listener>, cs: seq<Cluster>) returns (doc: Value)
    ensures doc == RenderBootstrap(adminPort, ls, cs)
    ensures StaticListeners(doc) == RenderListeners(ls) && StaticClusters(doc) == RenderClusters(cs)
  {
    var root: Tree := map["admin" := Admin(adminPort)];
    var resources: Tree := map[];
    if |ls| > 0 {
      var ll := BuildListeners(ls);
      resources := resources["listeners" := List(ll)];
    }
    if |cs| > 0 {
      var cl := BuildClusters(cs);
      resources := resources["clusters" := List(cl)];
    }
    if |resources| > 0 {
      root := root["static_resources" := Map(resources)];
    }
    doc := Map(root);
    BootstrapLists(adminPort, ls, cs);
  }

  /** `renderDiscoveryResponse`: every key of a resource is as given, and the type is stamped
      where the resource has none of its own. */
  method BuildDiscovery(typeUrl: string, items: seq<Tree>) returns (doc: Value)
    ensures var out := Resources(doc);
      && |out| == |items|
      && (forall i, key :: 0 <= i < |items| && key in items[i] ==> Get(out[i], key) == items[i][key])
      && (forall i :: 0 <= i < |items| && "@type" !in items[i] ==> Get(out[i], "@type") == Str(typeUrl))
    ensures doc == DiscoveryResponse(typeUrl, seq(|items|, i requires 0 <= i < |items| => Map(items[i])))
  {
    var out: seq<Value> := [];
    for i := 0 to |items|
      invariant |out| == i && forall k :: 0 <= k < i ==> out[k] == Stamped(typeUrl, Map(items[k]))
    {
      var entry := CopyInto(map["@type" := Str(typeUrl)], items[i]);
      out := out + [Map(entry)];
    }
    assert out == Stamp(typeUrl, seq(|items|, i requires 0 <= i < |items| => Map(items[i])));
    doc := Map(map["version_info" := Str("1")]["resources" := List(out)]);
  }

  /** `renderVirtualHost`: its routes are read back in order. */
  method BuildVirtualHost(v: VirtualHost) returns (out: Value)
    ensures out == RenderVirtualHost(v)
    ensures Get(out, "name") == Str(v.name) && Get(out, "domains") == Strings(v.domains)
    ensures var routes := Items(Get(out, "routes"));
      && |routes| == |v.routes|
      && forall i :: 0 <= i < |routes| ==>
           && Get(Get(routes[i], "match"), "prefix") == Str(v.routes[i].prefix)
           && Get(Get(routes[i], "route"), "cluster") == Str(v.routes[i].cluster)
  {
    var entries := map["name" := Str(v.name)]["domains" := Strings(v.domains)];
    if |v.routes| > 0 {
      var routes: seq<Value> := [];
      for i := 0 to |v.routes|
        invariant |routes| == i && forall k :: 0 <= k < i ==> routes[k] == RenderRoute(v.routes[k])
      {
        routes := routes + [RenderRoute(v.routes[i])];
      }
      assert routes == seq(|v.routes|, i requires 0 <= i < |v.routes| => RenderRoute(v.routes[i]));
      entries := entries["routes" := List(routes)];
    }
    out := Map(entries);
  }

  /** `renderRouteConfig`: its hosts are read back in order. */
  method BuildRouteConfig(rc: RouteConfig) returns (out: Value)
    ensures out == RenderRouteConfig(rc)
    ensures Get(out, "name") == Str(rc.name)
    ensures var hosts := Items(Get(out, "virtual_hosts"));
      && |hosts| == |rc.hosts|
      && forall i :: 0 <= i < |hosts| ==>
           Get(hosts[i], "name") == Str(rc.hosts[i].name) && |Items(Get(hosts[i], "routes"))| == |rc.hosts[i].routes|
  {
    var entries := map["name" := Str(rc.name)];
    if |rc.hosts| > 0 {
      var hosts: seq<Value> := [];
      for i := 0 to |rc.hosts|
        invariant |hosts| == i && forall k :: 0 <= k < i ==> hosts[k] == RenderVirtualHost(rc.hosts[k])
      {
        var host := BuildVirtualHost(rc.hosts[i]);
        hosts := hosts + [host];
      }
      assert hosts == seq(|rc.hosts|, i requires 0 <= i < |rc.hosts| => RenderVirtualHost(rc.hosts[i]));
      entries := entries["virtual_hosts" := List(hosts)];
    }
    out := Map(entries);
  }

  /** `renderHttpConnectionManager`: the route targets it holds are the configured ones. */
  method BuildHcm(h: Hcm) returns (out: Tree)
    ensures out == RenderHcm(h)
    ensures forall x :: x in RouteClusters(Get(Map(out), "route_config")) <==> x in Targets(h.routeConfig.hosts)
  {
    var routeConfig := BuildRouteConfig(h.routeConfig);
    out := map["@type" := Str(HCM_TYPE)]["stat_prefix" := Str(h.statPrefix)]["route_config" := routeConfig];
    if |h.filters| > 0 {
      var filters: seq<Value> := [];
      for i := 0 to |h.filters|
        invariant |filters| == i && forall k :: 0 <= k < i ==> filters[k] == RenderHttpFilter(h.filters[k])
      {
        filters := filters + [RenderHttpFilter(h.filters[i])];
      }
      assert filters == seq(|h.filters|, i requires 0 <= i < |h.filters| => RenderHttpFilter(h.filters[i]));
      out := out["http_filters" := List(filters)];
    }
    HcmRoutes(h);
  }

  lemma {:induction false} HcmRoutes(h: Hcm)
    ensures forall x :: x in RouteClusters(Get(Map(RenderHcm(h)), "route_config")) <==>
        x in Targets(h.routeConfig.hosts)
  {
    RenderedRoutes(h.routeConfig);
    assert Get(Map(RenderHcm(h)), "route_config") == RenderRouteConfig(h.routeConfig);
  }
}
