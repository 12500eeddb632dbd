/** daggerverse/envoy: what the constructors accept, what they keep, and which file of the running
    proxy ends up with it. */
module EnvoyBuilds {
  import opened Text
  import opened EnvoyConfig
  import opened EnvoyMounts
  import opened EnvoyReads
  import opened Mounting

  /** Letters, digits, `_` and `-`, at least one. */
  predicate PlainName(name: string) {
    && name != ""
    && forall k :: 0 <= k < |name| ==>
         'a' <= name[k] <= 'z' || 'A' <= name[k] <= 'Z' || '0' <= name[k] <= '9' || name[k] == '_' || name[k] == '-'
  }

  function ModeOf(sec: Option<ServerSecurity>): Mode {
    if sec == None then Plaintext else sec.value.mode
  }

  /** Security with everything its mode needs: an authority to issue from, and under mutual TLS
      one to check clients against. */
  predicate Sufficient(sec: Option<ServerSecurity>) {
    || ModeOf(sec) == Plaintext
    || (sec.value.ca.Some? && (ModeOf(sec) == Mtls ==> sec.value.clientTrust.Some?))
  }

  /** What a listener holds for its files: a certificate and its key, issued to the listener by
      the authority given, and under mutual TLS the clients' authority. */
  predicate Issued(l: Listener, sec: Option<ServerSecurity>) {
    && l.mode == ModeOf(sec)
    && (if l.mode == Plaintext then l.cert == Absent && l.key == Absent
        else sec.value.ca.Some?
             && l.cert == LeafCert(l.name, sec.value.ca.value) && l.key == LeafKey(l.name, sec.value.ca.value))
    && (if l.mode == Mtls then sec.value.clientTrust.Some? && l.trust == StoreTrust(sec.value.clientTrust.value)
        else l.trust == Absent)
  }

  /** Why a listener is refused. */
  predicate Refused(
      error: BuildError, name: string, address: string, port: int, given: bool, sec: Option<ServerSecurity>) {
    match error
    case BadName => !PlainName(name)
    case NoAddress => address == ""
    case BadPort => port < 1 || port > 65535
    case Missing => !given
    case NoCa => ModeOf(sec) != Plaintext && sec.value.ca.None?
    case NoClientTrust => ModeOf(sec) == Mtls && sec.value.clientTrust.None?
    case _ => false
  }

  lemma {:induction false} NameSpelled(name: string)
    ensures ValidName(name) <==> PlainName(name)
  {
  }

  lemma {:induction false} BakeSpelled(l: Listener, sec: Option<ServerSecurity>)
    requires l.mode == Plaintext && l.cert == Absent && l.key == Absent && l.trust == Absent
    ensures Bake(l, sec).Ok? <==> Sufficient(sec)
    ensures Bake(l, sec).Ok? ==>
      var b := Bake(l, sec).value;
      b.name == l.name && b.body == l.body && b.clusterRefs == l.clusterRefs && Issued(b, sec)
    ensures Bake(l, sec).Err? ==>
      || (Bake(l, sec).error == NoCa && ModeOf(sec) != Plaintext && sec.value.ca.None?)
      || (Bake(l, sec).error == NoClientTrust && ModeOf(sec) == Mtls && sec.value.clientTrust.None?)
  {
  }

  ghost predicate RefersToRoutes(l: Listener, hcm: Hcm) {
    forall x :: x in l.clusterRefs <==> exists v, t :: v in hcm.routeConfig.hosts && t in v.routes && t.cluster == x
  }

  /** An http listener refers to the clusters of its routes. */
  lemma {:induction false} HttpListenerAccepts(name: string, address: string, port: int, hcm: Option<Hcm>,
        sec: Option<ServerSecurity>)
    ensures var r := HttpListener(name, address, port, hcm, sec);
      && (r.Ok? <==> PlainName(name) && address != "" && 1 <= port <= 65535 && hcm.Some? && Sufficient(sec))
      && (r.Ok? ==> r.value.name == name && Issued(r.value, sec) && RefersToRoutes(r.value, hcm.value))
      && (r.Err? ==> Refused(r.error, name, address, port, hcm.Some?, sec))
  {
    hide ListenerBody, RenderHcm, Targets, FirstOnly, PlainName, ValidName, Bake, Issued, Sufficient;
    NameSpelled(name);
    if hcm.Some? {
      var targets := Targets(hcm.value.routeConfig.hosts);
      FirstOnlyExactly(targets);
      TargetsExactly(hcm.value.routeConfig.hosts);
      BakeSpelled(Listener(name, ListenerBody(name, address, port, HCM, RenderHcm(hcm.value), ServerMode(sec)),
                           FirstOnly(targets), Plaintext, Absent, Absent, Absent), sec);
    }
  }

  /** A tcp listener refers to the one cluster it forwards to. */
  lemma {:induction false} TcpListenerAccepts(name: string, address: string, port: int, proxy: Option<TcpProxy>,
        sec: Option<ServerSecurity>)
    ensures var r := TcpListener(name, address, port, proxy, sec);
      && (r.Ok? <==> PlainName(name) && address != "" && 1 <= port <= 65535 && proxy.Some? && Sufficient(sec))
      && (r.Ok? ==> r.value.name == name && Issued(r.value, sec) && r.value.clusterRefs == [proxy.value.cluster])
      && (r.Err? ==> Refused(r.error, name, address, port, proxy.Some?, sec))
  {
    hide ListenerBody, RenderTcpProxy, PlainName, ValidName, Bake, Issued, Sufficient;
    NameSpelled(name);
    if proxy.Some? {
      BakeSpelled(Listener(name, ListenerBody(name, address, port, TCP, RenderTcpProxy(proxy.value), ServerMode(sec)),
                           [proxy.value.cluster], Plaintext, Absent, Absent, Absent), sec);
    }
  }

  /** A custom body is taken as it is, unless it brings a name. */
  lemma {:induction false} CustomListenerAccepts(name: string, body: Tree)
    ensures var r := CustomListener(name, body);
      && (r.Ok? <==> PlainName(name) && "name" !in body)
      && (r.Ok? ==> r.value == Listener(name, body, [], Plaintext, Absent, Absent, Absent))
      && (r.Err? ==> r.error == if PlainName(name) then NamedBody else BadName)
  {
    NameSpelled(name);
  }

  // ------------------------------------------------------------ clusters

  function UpstreamModeOf(up: Option<UpstreamSecurity>): Mode {
    if up == None then Plaintext else up.value.mode
  }

  /** What a cluster holds for its files: the servers' authority, and under mutual TLS a
      certificate and key of its own. */
  predicate Stored(c: Cluster, up: Option<UpstreamSecurity>) {
    && c.mode == UpstreamModeOf(up)
    && (if c.mode == Plaintext then c.trust == Absent
        else up.value.trust.Some? && c.trust == StoreTrust(up.value.trust.value))
    && (if c.mode == Mtls
        then up.value.keys.Some? && c.cert == StoreCert(up.value.keys.value) && c.key == StoreKey(up.value.keys.value)
        else c.cert == Absent && c.key == Absent)
  }

  lemma {:induction false} NewClusterAccepts(name: string, kind: string, up: Option<UpstreamSecurity>)
    ensures var r := NewCluster(name, kind, up);
      && (r.Ok? <==>
            && PlainName(name) && kind in {"STATIC", "STRICT_DNS", "LOGICAL_DNS"}
            && (UpstreamModeOf(up) != Plaintext ==> up.value.trust.Some?)
            && (UpstreamModeOf(up) == Mtls ==> up.value.keys.Some?))
      && (r.Ok? ==> r.value.name == name && r.value.kind == kind && r.value.endpoints == [] && Stored(r.value, up))
      && (r.Err? ==>
            match r.error
            case BadName => !PlainName(name)
            case BadKind => kind !in {"STATIC", "STRICT_DNS", "LOGICAL_DNS"}
            case NoTrustStore => UpstreamModeOf(up) != Plaintext && up.value.trust.None?
            case NoKeyStore => UpstreamModeOf(up) == Mtls && up.value.keys.None?
            case _ => false)
  {
    NameSpelled(name);
  }

  // ------------------------------------------------------------ files

  predicate Holds(files: map<string, Material>, path: string, material: Material) {
    path in files && files[path] == material
  }

  /** In the running proxy, the files a secured listener's socket names hold the certificate and
      key issued to it, and the authority of its clients. */
  lemma {:induction false} ListenerFilesHold(ls: seq<Listener>, cs: seq<Cluster>, i: nat, sec: Option<ServerSecurity>)
    requires i < |ls| && Issued(ls[i], sec) && SecuredListenersDistinct(ls) && SecuredClustersDistinct(cs)
    ensures var name, files := ls[i].name, Table(AllMounts(ls, cs));
      && (ls[i].mode != Plaintext ==>
            && Holds(files, "/etc/envoy/secrets/listener-" + name + ".crt", LeafCert(name, sec.value.ca.value))
            && Holds(files, "/etc/envoy/secrets/listener-" + name + ".key", LeafKey(name, sec.value.ca.value)))
      && (ls[i].mode == Mtls ==>
            Holds(files, "/etc/envoy/secrets/listener-" + name + "-trust.pem", StoreTrust(sec.value.clientTrust.value)))
  {
    hide AllMounts, Table, PathOf;
    var l := ls[i];
    ListenerPathsSpelled(l.name);
    PathFunctions(l.name);
    if l.mode != Plaintext {
      ListenerFileHolds(ls, cs, i, CertFile);
      ListenerFileHolds(ls, cs, i, KeyFile);
    }
    if l.mode == Mtls {
      ListenerFileHolds(ls, cs, i, TrustFile);
    }
  }

  lemma {:induction false} ListenerFileHolds(ls: seq<Listener>, cs: seq<Cluster>, i: nat, role: Role)
    requires i < |ls| && SecuredListenersDistinct(ls) && SecuredClustersDistinct(cs)
    requires ls[i].mode == Mtls || (ls[i].mode == Tls && role != TrustFile)
    ensures Holds(Table(AllMounts(ls, cs)), PathOf(Downstream, role, ls[i].name), ListenerMaterial(ls[i], role))
  {
    var path := PathOf(Downstream, role, ls[i].name);
    assert (role, path) in Needed(Downstream, ls[i].mode, ls[i].name);
    NeededOfListener(ls[i], role, path);
    var m := Mount(path, ListenerMaterial(ls[i], role));
    FlatMember(ListenerGroups(ls), i, m);
    MountedAt(ls, cs, m);
  }

  /** And those of a secured cluster the servers' authority and its own certificate and key. */
  lemma {:induction false} ClusterFilesHold(ls: seq<Listener>, cs: seq<Cluster>, i: nat, up: Option<UpstreamSecurity>)
    requires i < |cs| && Stored(cs[i], up) && SecuredListenersDistinct(ls) && SecuredClustersDistinct(cs)
    ensures var name, files := cs[i].name, Table(AllMounts(ls, cs));
      && (cs[i].mode != Plaintext ==>
            Holds(files, "/etc/envoy/secrets/upstream-" + name + "-trust.pem", StoreTrust(up.value.trust.value)))
      && (cs[i].mode == Mtls ==>
            && Holds(files, "/etc/envoy/secrets/upstream-" + name + ".crt", StoreCert(up.value.keys.value))
            && Holds(files, "/etc/envoy/secrets/upstream-" + name + ".key", StoreKey(up.value.keys.value)))
  {
    hide AllMounts, Table, PathOf;
    var c := cs[i];
    UpstreamPathsSpelled(c.name);
    PathFunctions(c.name);
    if c.mode != Plaintext {
      ClusterFileHolds(ls, cs, i, TrustFile);
    }
    if c.mode == Mtls {
      ClusterFileHolds(ls, cs, i, CertFile);
      ClusterFileHolds(ls, cs, i, KeyFile);
    }
  }

  lemma {:induction false} ClusterFileHolds(ls: seq<Listener>, cs: seq<Cluster>, i: nat, role: Role)
    requires i < |cs| && SecuredListenersDistinct(ls) && SecuredClustersDistinct(cs)
    requires cs[i].mode == Mtls || (cs[i].mode == Tls && role == TrustFile)
    ensures Holds(Table(AllMounts(ls, cs)), PathOf(Upstream, role, cs[i].name), ClusterMaterial(cs[i], role))
  {
    var path := PathOf(Upstream, role, cs[i].name);
    assert (role, path) in Needed(Upstream, cs[i].mode, cs[i].name);
    NeededOfCluster(cs[i], role, path);
    var m := Mount(path, ClusterMaterial(cs[i], role));
    FlatMember(ClusterGroups(cs), i, m);
    MountedAt(ls, cs, m);
  }
}
