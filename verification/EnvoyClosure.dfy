/** daggerverse/envoy: what validation buys. Every cluster a rendered document names in a route
    or a tcp_proxy is rendered in it too. */
module EnvoyClosure {
  import opened Text
  import opened EnvoyConfig

  // ------------------------------------------------------------ reading a document back

  /** The clusters the routes under one `route_config` name. */
  function RouteClusters(routeConfig: Value): set<string> {
    set v, r | v in Items(Get(routeConfig, "virtual_hosts")) && r in Items(Get(v, "routes"))
               && Get(Get(r, "route"), "cluster").Str? :: Get(Get(r, "route"), "cluster").s
  }

  function FilterClusters(filter: Value): set<string> {
    var typed := Get(filter, "typed_config");
    if Get(filter, "name") == Str(HCM) then RouteClusters(Get(typed, "route_config"))
    else if Get(filter, "name") == Str(TCP) && Get(typed, "cluster").Str? then {Get(typed, "cluster").s}
    else {}
  }

  /** The clusters a listener names, in any filter of any of its chains. */
  function ListenerClusters(listener: Value): set<string> {
    set chain, f, x | chain in Items(Get(listener, "filter_chains")) && f in Items(Get(chain, "filters"))
                      && x in FilterClusters(f) :: x
  }

  /** The names of the resources in a list. */
  function NamesOf(resources: seq<Value>): seq<Value> {
    seq(|resources|, i requires 0 <= i < |resources| => Get(resources[i], "name"))
  }

  function StaticListeners(doc: Value): seq<Value> {
    Items(Get(Get(doc, "static_resources"), "listeners"))
  }

  function StaticClusters(doc: Value): seq<Value> {
    Items(Get(Get(doc, "static_resources"), "clusters"))
  }

  /** Every cluster that a reading finds in the listeners is one of the clusters. */
  ghost predicate Closed(reading: Value -> set<string>, listeners: seq<Value>, clusters: seq<Value>) {
    forall l, x :: l in listeners && x in reading(l) ==> Str(x) in NamesOf(clusters)
  }

  // ------------------------------------------------------------ what the builders make

  /** A listener as one of the three constructors makes it. */
  ghost predicate FromHttp(l: Listener) {
    exists address, port, hcm, sec :: HttpListener(l.name, address, port, Some(hcm), sec) == Ok(l)
  }

  ghost predicate FromTcp(l: Listener) {
    exists address, port, proxy, sec :: TcpListener(l.name, address, port, Some(proxy), sec) == Ok(l)
  }

  ghost predicate FromCustom(l: Listener) {
    CustomListener(l.name, l.body) == Ok(l)
  }

  ghost predicate Built(l: Listener) {
    FromHttp(l) || FromTcp(l) || FromCustom(l)
  }

  lemma {:induction false} FilterNames()
    ensures HCM != TCP
  {
    assert |HCM| != |TCP|;
  }

  lemma {:induction false} BodyClusters(name: string, address: string, port: int, filter: string, typed: Tree,
        mode: Mode)
    ensures ListenerClusters(Map(ListenerBody(name, address, port, filter, typed, mode)))
         == FilterClusters(Map(map["name" := Str(filter)]["typed_config" := Map(typed)]))
  {
    var body := Map(ListenerBody(name, address, port, filter, typed, mode));
    var f := Map(map["name" := Str(filter)]["typed_config" := Map(typed)]);
    var chains := Items(Get(body, "filter_chains"));
    assert |chains| == 1 && Items(Get(chains[0], "filters")) == [f];
    assert chains[0] in chains && f in [f];
  }

  /** A rendered host holds its routes, in order. */
  lemma {:induction false} HostRoutes(v: VirtualHost)
    ensures var rs := Items(Get(RenderVirtualHost(v), "routes"));
      |rs| == |v.routes| && forall j :: 0 <= j < |rs| ==> rs[j] == RenderRoute(v.routes[j])
  {
  }

  lemma {:induction false} HostClusters(v: VirtualHost, x: string)
    ensures (exists r :: r in Items(Get(RenderVirtualHost(v), "routes")) && Get(Get(r, "route"), "cluster") == Str(x))
       <==> exists r :: r in v.routes && r.cluster == x
  {
    HostRoutes(v);
    var rs := Items(Get(RenderVirtualHost(v), "routes"));
    if r :| r in rs && Get(Get(r, "route"), "cluster") == Str(x) {
      var j :| 0 <= j < |rs| && rs[j] == r;
      assert v.routes[j].cluster == x;
    }
    if r :| r in v.routes && r.cluster == x {
      var j :| 0 <= j < |v.routes| && v.routes[j] == r;
      assert rs[j] == RenderRoute(r) && rs[j] in rs;
    }
  }

  /** The routes of a rendered route configuration name exactly its targets. */
  lemma {:induction false} RenderedRoutes(rc: RouteConfig)
    ensures forall x :: x in RouteClusters(RenderRouteConfig(rc)) <==> x in Targets(rc.hosts)
  {
    TargetsExactly(rc.hosts);
    var vs := Items(Get(RenderRouteConfig(rc), "virtual_hosts"));
    assert |vs| == |rc.hosts| && forall i :: 0 <= i < |vs| ==> vs[i] == RenderVirtualHost(rc.hosts[i]);
    forall x ensures x in RouteClusters(RenderRouteConfig(rc)) <==> x in Targets(rc.hosts) {
      RenderedRoute(rc, vs, x);
    }
  }

  lemma {:induction false} RenderedRoute(rc: RouteConfig, vs: seq<Value>, x: string)
    requires vs == Items(Get(RenderRouteConfig(rc), "virtual_hosts"))
    requires |vs| == |rc.hosts| && forall i :: 0 <= i < |vs| ==> vs[i] == RenderVirtualHost(rc.hosts[i])
    ensures x in RouteClusters(RenderRouteConfig(rc)) <==>
        exists v, r :: v in rc.hosts && r in v.routes && r.cluster == x
  {
    if x in RouteClusters(RenderRouteConfig(rc)) {
      var v, r :| v in vs && r in Items(Get(v, "routes")) && Get(Get(r, "route"), "cluster") == Str(x);
      var i :| 0 <= i < |vs| && vs[i] == v;
      HostClusters(rc.hosts[i], x);
    }
    if v, r :| v in rc.hosts && r in v.routes && r.cluster == x {
      var i :| 0 <= i < |rc.hosts| && rc.hosts[i] == v;
      HostClusters(v, x);
      assert vs[i] in vs;
    }
  }

  lemma {:induction false} BakeKeeps(l: Listener, sec: Option<ServerSecurity>)
    ensures Bake(l, sec).Ok? ==>
      var b := Bake(l, sec).value; b.name == l.name && b.body == l.body && b.clusterRefs == l.clusterRefs
  {
  }

  /** Keying in the name changes nothing else. */
  lemma {:induction false} RenderKeeps(l: Listener, key: string)
    requires key != "name"
    ensures Get(Map(RenderListener(l)), key) == Get(Map(l.body), key)
  {
  }

  /** The references a typed listener declares are those its rendered form names. */
  lemma {:induction false} DeclaredRefs(l: Listener)
    requires FromHttp(l) || FromTcp(l)
    ensures forall x :: x in ListenerClusters(Map(RenderListener(l))) <==> x in l.clusterRefs
    ensures "name" !in l.body && "@type" !in l.body
  {
    RenderKeeps(l, "filter_chains");
    assert ListenerClusters(Map(RenderListener(l))) == ListenerClusters(Map(l.body));
    FilterNames();
    if FromHttp(l) {
      HttpRefs(l);
    } else {
      TcpRefs(l);
    }
  }

  lemma {:induction false} HttpRefs(l: Listener)
    requires FromHttp(l)
    ensures forall x :: x in ListenerClusters(Map(l.body)) <==> x in l.clusterRefs
    ensures "name" !in l.body && "@type" !in l.body
  {
    var address, port, hcm, sec :| HttpListener(l.name, address, port, Some(hcm), sec) == Ok(l);
    var bare := Listener(l.name, ListenerBody(l.name, address, port, HCM, RenderHcm(hcm), ServerMode(sec)),
                         FirstOnly(Targets(hcm.routeConfig.hosts)), Plaintext, Absent, Absent, Absent);
    BakeKeeps(bare, sec);
    HcmBody(l.name, address, port, hcm, ServerMode(sec));
  }

  /** The clusters an http listener's body names. */
  lemma {:induction false} HcmBody(name: string, address: string, port: int, hcm: Hcm, mode: Mode)
    ensures forall x :: x in ListenerClusters(Map(ListenerBody(name, address, port, HCM, RenderHcm(hcm), mode)))
                   <==> x in FirstOnly(Targets(hcm.routeConfig.hosts))
  {
    BodyClusters(name, address, port, HCM, RenderHcm(hcm), mode);
    HcmClusters(hcm);
    RenderedRoutes(hcm.routeConfig);
    FirstOnlyExactly(Targets(hcm.routeConfig.hosts));
  }

  lemma {:induction false} HcmClusters(hcm: Hcm)
    ensures FilterClusters(Map(map["name" := Str(HCM)]["typed_config" := Map(RenderHcm(hcm))]))
         == RouteClusters(RenderRouteConfig(hcm.routeConfig))
  {
  }

  lemma {:induction false} TcpRefs(l: Listener)
    requires FromTcp(l)
    ensures forall x :: x in ListenerClusters(Map(l.body)) <==> x in l.clusterRefs
    ensures "name" !in l.body && "@type" !in l.body
  {
    FilterNames();
    var address, port, proxy, sec :| TcpListener(l.name, address, port, Some(proxy), sec) == Ok(l);
    var bare := Listener(l.name, ListenerBody(l.name, address, port, TCP, RenderTcpProxy(proxy), ServerMode(sec)),
                         [proxy.cluster], Plaintext, Absent, Absent, Absent);
    BakeKeeps(bare, sec);
    BodyClusters(l.name, address, port, TCP, RenderTcpProxy(proxy), ServerMode(sec));
  }

  /** No constructor leaves a name in a body. */
  lemma {:induction false} BuiltUnnamed(l: Listener)
    requires Built(l)
    ensures "name" !in l.body
  {
    if !FromCustom(l) {
      DeclaredRefs(l);
    }
  }

  // ------------------------------------------------------------ the documents

  lemma {:induction false} BootstrapLists(adminPort: int, ls: seq<Listener>, cs: seq<Cluster>)
    ensures StaticListeners(RenderBootstrap(adminPort, ls, cs)) == RenderListeners(ls)
    ensures StaticClusters(RenderBootstrap(adminPort, ls, cs)) == RenderClusters(cs)
  {
    if ls == [] && cs == [] {
    } else if cs == [] {
      assert "listeners" in map["listeners" := List(RenderListeners(ls))];
    } else if ls == [] {
      var empty: Tree := map[];
      assert "clusters" in empty["clusters" := List(RenderClusters(cs))];
    } else {
      assert "clusters" in map["listeners" := List(RenderListeners(ls))]["clusters" := List(RenderClusters(cs))];
    }
  }

  lemma {:induction false} RenderedNames(ls: seq<Listener>)
    requires forall l :: l in ls ==> Built(l)
    ensures NamesOf(RenderListeners(ls)) == seq(|ls|, i requires 0 <= i < |ls| => Str(ls[i].name))
  {
    forall i | 0 <= i < |ls| ensures Get(RenderListeners(ls)[i], "name") == Str(ls[i].name) {
      BuiltUnnamed(ls[i]);
    }
  }

  lemma {:induction false} RenderedClusterNames(cs: seq<Cluster>, x: string)
    ensures Str(x) in NamesOf(RenderClusters(cs)) <==> x in ClusterNames(cs)
  {
    assert forall i :: 0 <= i < |cs| ==> NamesOf(RenderClusters(cs))[i] == Str(cs[i].name);
    if x in ClusterNames(cs) {
      var c :| c in cs && c.name == x;
      var i :| 0 <= i < |cs| && cs[i] == c;
      assert NamesOf(RenderClusters(cs))[i] == Str(x);
    }
  }

  /** A reading that finds in the typed listeners what `ListenerClusters` does; in a custom
      listener, whose body is the caller's, it may find anything. */
  ghost predicate ReadsTyped(reading: Value -> set<string>, ls: seq<Listener>) {
    forall l :: l in ls && (FromHttp(l) || FromTcp(l)) ==>
      reading(Map(RenderListener(l))) == ListenerClusters(Map(RenderListener(l)))
  }

  /** However the bodies of custom listeners are read, a document is closed exactly when
      validation finds no unknown reference and the custom listeners, into whose bodies it
      does not look, keep to the known clusters. */
  lemma {:induction false} ReferencesClosed(reading: Value -> set<string>, ls: seq<Listener>, cs: seq<Cluster>)
    requires forall l :: l in ls ==> Built(l)
    requires ReadsTyped(reading, ls)
    ensures Closed(reading, RenderListeners(ls), RenderClusters(cs)) <==>
      && RefsKnown(ls, cs)
      && forall l :: l in ls && !FromHttp(l) && !FromTcp(l) ==>
          reading(Map(RenderListener(l))) <= ClusterNames(cs)
  {
    var out := RenderListeners(ls);
    forall x ensures Str(x) in NamesOf(RenderClusters(cs)) <==> x in ClusterNames(cs) {
      RenderedClusterNames(cs, x);
    }
    forall l | l in ls
      ensures FromHttp(l) || FromTcp(l) ==> forall x :: x in l.clusterRefs <==> x in reading(Map(RenderListener(l)))
    {
      if FromHttp(l) || FromTcp(l) {
        DeclaredRefs(l);
      }
    }
    assert forall l :: l in ls && l.clusterRefs != [] ==> FromHttp(l) || FromTcp(l);
    if Closed(reading, out, RenderClusters(cs)) {
      forall l | l in ls ensures reading(Map(RenderListener(l))) <= ClusterNames(cs) {
        var i :| 0 <= i < |ls| && ls[i] == l;
        assert out[i] == Map(RenderListener(l));
      }
    }
  }

  /** The static bootstrap of typed listeners that validation accepts is closed, and its
      listeners bear the declared names, no two alike. */
  lemma {:induction false} BootstrapClosed(adminPort: int, ls: seq<Listener>, cs: seq<Cluster>)
    requires forall l :: l in ls ==> FromHttp(l) || FromTcp(l)
    requires DistinctNames(ls) && RefsKnown(ls, cs)
    ensures var doc := RenderBootstrap(adminPort, ls, cs);
      var names := NamesOf(StaticListeners(doc));
      && Closed(ListenerClusters, StaticListeners(doc), StaticClusters(doc))
      && |names| == |ls| && (forall i :: 0 <= i < |ls| ==> names[i] == Str(ls[i].name))
      && (forall i, j :: 0 <= i < j < |names| ==> names[i] != names[j])
  {
    BootstrapLists(adminPort, ls, cs);
    ReferencesClosed(ListenerClusters, ls, cs);
    RenderedNames(ls);
  }
}
