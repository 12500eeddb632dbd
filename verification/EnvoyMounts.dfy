/** daggerverse/envoy: the certificate and key files a rendered document names, against those
    `Service` mounts. */
module EnvoyMounts {
  import opened Text
  import opened EnvoyConfig
  import opened EnvoyClosure
  import opened Mounting

  datatype Side = Downstream | Upstream

  datatype Role = CertFile | KeyFile | TrustFile

  function Prefix(side: Side): string {
    if side.Downstream? then "listener-" else "upstream-"
  }

  function Suffix(role: Role): string {
    match role
    case CertFile => ".crt"
    case KeyFile => ".key"
    case TrustFile => "-trust.pem"
  }

  /** All six path functions. */
  function PathOf(side: Side, role: Role, name: string): string {
    SECRETS + Prefix(side) + name + Suffix(role)
  }

  lemma {:induction false} PathFunctions(name: string)
    ensures ListenerCertPath(name) == PathOf(Downstream, CertFile, name)
    ensures ListenerKeyPath(name) == PathOf(Downstream, KeyFile, name)
    ensures ListenerTrustPath(name) == PathOf(Downstream, TrustFile, name)
    ensures UpstreamCertPath(name) == PathOf(Upstream, CertFile, name)
    ensures UpstreamKeyPath(name) == PathOf(Upstream, KeyFile, name)
    ensures UpstreamTrustPath(name) == PathOf(Upstream, TrustFile, name)
  {
  }

  /** A path tells its side, its role and its component, whatever the names hold. */
  lemma {:induction false} PathInjective(s1: Side, r1: Role, n1: string, s2: Side, r2: Role, n2: string)
    requires PathOf(s1, r1, n1) == PathOf(s2, r2, n2)
    ensures s1 == s2 && r1 == r2 && n1 == n2
  {
    var p, q := PathOf(s1, r1, n1), PathOf(s2, r2, n2);
    PathParts(s1, r1, n1);
    PathParts(s2, r2, n2);
  }

  lemma {:induction false} PathParts(s: Side, r: Role, n: string)
    ensures var p := PathOf(s, r, n);
      && |p| == |SECRETS| + 9 + |n| + |Suffix(r)|
      && p[|SECRETS|] == (if s.Downstream? then 'l' else 'u')
      && p[|p| - 1] == (match r case CertFile => 't' case KeyFile => 'y' case TrustFile => 'm')
      && p[|SECRETS| + 9..|SECRETS| + 9 + |n|] == n
  {
    assert |Prefix(s)| == 9;
  }

  // ------------------------------------------------------------ reading a document

  function FileNamed(v: Value, role: Role): set<(Role, string)> {
    if Get(v, "filename").Str? then {(role, Get(v, "filename").s)} else {}
  }

  function CertificateFiles(cert: Value): set<(Role, string)> {
    FileNamed(Get(cert, "certificate_chain"), CertFile) + FileNamed(Get(cert, "private_key"), KeyFile)
  }

  /** The files a transport socket names, with what each is for. */
  function SocketFiles(socket: Value): set<(Role, string)> {
    var common := Get(Get(socket, "typed_config"), "common_tls_context");
    AllCertificateFiles(Items(Get(common, "tls_certificates")))
    + FileNamed(Get(Get(common, "validation_context"), "trusted_ca"), TrustFile)
  }

  function AllCertificateFiles(certs: seq<Value>): set<(Role, string)> {
    set cert, f | cert in certs && f in CertificateFiles(cert) :: f
  }

  function ListenerFiles(listener: Value): set<(Role, string)> {
    set chain, f |
      chain in Items(Get(listener, "filter_chains")) && f in SocketFiles(Get(chain, "transport_socket")) :: f
  }

  function ClusterFiles(cluster: Value): set<(Role, string)> {
    SocketFiles(Get(cluster, "transport_socket"))
  }

  // ------------------------------------------------------------ what is named

  /** The files a component needs in a mode. */
  function Needed(side: Side, mode: Mode, name: string): set<(Role, string)> {
    match mode
    case Plaintext => {}
    case Tls =>
      if side.Downstream? then {(CertFile, PathOf(side, CertFile, name)), (KeyFile, PathOf(side, KeyFile, name))}
      else {(TrustFile, PathOf(side, TrustFile, name))}
    case Mtls =>
      {(CertFile, PathOf(side, CertFile, name)), (KeyFile, PathOf(side, KeyFile, name)),
       (TrustFile, PathOf(side, TrustFile, name))}
  }

  lemma {:induction false} CertificatesFiles(cert: string, key: string)
    ensures AllCertificateFiles(Items(Certificates(cert, key))) == {(CertFile, cert), (KeyFile, key)}
  {
    var c := Items(Certificates(cert, key))[0];
    assert Items(Certificates(cert, key)) == [c];
    assert Get(c, "certificate_chain") == FileName(cert) && Get(c, "private_key") == FileName(key);
    assert CertificateFiles(c) == {(CertFile, cert), (KeyFile, key)};
    assert c in [c];
  }

  lemma {:induction false} DownstreamFiles(name: string, mode: Mode)
    ensures var ts := DownstreamSocket(name, mode);
      SocketFiles(if ts.Some? then ts.value else Null) == Needed(Downstream, mode, name)
  {
    PathFunctions(name);
    CertificatesFiles(ListenerCertPath(name), ListenerKeyPath(name));
    if !mode.Plaintext? {
      var common := Get(Get(DownstreamSocket(name, mode).value, "typed_config"), "common_tls_context");
      assert Get(common, "tls_certificates") == Certificates(ListenerCertPath(name), ListenerKeyPath(name));
      assert Get(common, "validation_context") == if mode.Mtls? then Validation(ListenerTrustPath(name)) else Null;
    }
  }

  lemma {:induction false} UpstreamFiles(name: string, mode: Mode)
    ensures var ts := UpstreamSocket(name, mode);
      SocketFiles(if ts.Some? then ts.value else Null) == Needed(Upstream, mode, name)
  {
    PathFunctions(name);
    CertificatesFiles(UpstreamCertPath(name), UpstreamKeyPath(name));
    if !mode.Plaintext? {
      var common := Get(Get(UpstreamSocket(name, mode).value, "typed_config"), "common_tls_context");
      assert Get(common, "validation_context") == Validation(UpstreamTrustPath(name));
      assert Get(common, "tls_certificates")
          == if mode.Mtls? then Certificates(UpstreamCertPath(name), UpstreamKeyPath(name)) else Null;
    }
  }

  lemma {:induction false} BodyFiles(name: string, address: string, port: int, filter: string, typed: Tree, mode: Mode)
    ensures ListenerFiles(Map(ListenerBody(name, address, port, filter, typed, mode))) == Needed(Downstream, mode, name)
  {
    DownstreamFiles(name, mode);
    var body := Map(ListenerBody(name, address, port, filter, typed, mode));
    var chains := Items(Get(body, "filter_chains"));
    var ts := DownstreamSocket(name, mode);
    assert |chains| == 1 && Get(chains[0], "transport_socket") == if ts.Some? then ts.value else Null;
    assert chains[0] in chains;
  }

  /** A typed listener names exactly the files of its own name and mode, and was baked with
      the mode it was rendered in. */
  lemma {:induction false} TypedListenerFiles(l: Listener)
    requires FromHttp(l) || FromTcp(l)
    ensures ListenerFiles(Map(RenderListener(l))) == Needed(Downstream, l.mode, l.name)
  {
    RenderKeeps(l, "filter_chains");
    assert ListenerFiles(Map(RenderListener(l))) == ListenerFiles(Map(l.body));
    if FromHttp(l) {
      var address, port, hcm, sec :| HttpListener(l.name, address, port, Some(hcm), sec) == Ok(l);
      BakeMode(Listener(l.name, ListenerBody(l.name, address, port, HCM, RenderHcm(hcm), ServerMode(sec)),
                        FirstOnly(Targets(hcm.routeConfig.hosts)), Plaintext, Absent, Absent, Absent), sec);
      BodyFiles(l.name, address, port, HCM, RenderHcm(hcm), ServerMode(sec));
    } else {
      var address, port, proxy, sec :| TcpListener(l.name, address, port, Some(proxy), sec) == Ok(l);
      BakeMode(Listener(l.name, ListenerBody(l.name, address, port, TCP, RenderTcpProxy(proxy), ServerMode(sec)),
                        [proxy.cluster], Plaintext, Absent, Absent, Absent), sec);
      BodyFiles(l.name, address, port, TCP, RenderTcpProxy(proxy), ServerMode(sec));
    }
  }

  lemma {:induction false} BakeMode(l: Listener, sec: Option<ServerSecurity>)
    requires l.mode.Plaintext?
    ensures Bake(l, sec).Ok? ==>
      Bake(l, sec).value.mode == ServerMode(sec) && Bake(l, sec).value.body == l.body
  {
  }

  lemma {:induction false} RenderedClusterFiles(c: Cluster)
    ensures ClusterFiles(Map(RenderCluster(c))) == Needed(Upstream, c.mode, c.name)
  {
    UpstreamFiles(c.name, c.mode);
    var ts := UpstreamSocket(c.name, c.mode);
    assert Get(Map(RenderCluster(c)), "transport_socket") == if ts.Some? then ts.value else Null;
  }

  // ------------------------------------------------------------ what is mounted

  function ListenerMaterial(l: Listener, role: Role): Material {
    match role
    case CertFile => l.cert
    case KeyFile => l.key
    case TrustFile => l.trust
  }

  function ClusterMaterial(c: Cluster, role: Role): Material {
    match role
    case CertFile => c.cert
    case KeyFile => c.key
    case TrustFile => c.trust
  }

  /** What is mounted for a component, in that order. */
  function Roles(side: Side, mode: Mode): seq<Role> {
    match mode
    case Plaintext => []
    case Tls => if side.Downstream? then [CertFile, KeyFile] else [TrustFile]
    case Mtls => if side.Downstream? then [CertFile, KeyFile, TrustFile] else [TrustFile, CertFile, KeyFile]
  }

  function ListenerMounts(l: Listener): (mounts: seq<Mount<Material>>)
    ensures |mounts| == |Roles(Downstream, l.mode)|
  {
    var roles := Roles(Downstream, l.mode);
    seq(|roles|, k requires 0 <= k < |roles| =>
      Mount(PathOf(Downstream, roles[k], l.name), ListenerMaterial(l, roles[k])))
  }

  function ClusterMounts(c: Cluster): (mounts: seq<Mount<Material>>)
    ensures |mounts| == |Roles(Upstream, c.mode)|
  {
    var roles := Roles(Upstream, c.mode);
    seq(|roles|, k requires 0 <= k < |roles| => Mount(PathOf(Upstream, roles[k], c.name), ClusterMaterial(c, roles[k])))
  }

  function ListenerGroups(ls: seq<Listener>): (groups: seq<seq<Mount<Material>>>)
    ensures |groups| == |ls|
  {
    seq(|ls|, i requires 0 <= i < |ls| => ListenerMounts(ls[i]))
  }

  function ClusterGroups(cs: seq<Cluster>): (groups: seq<seq<Mount<Material>>>)
    ensures |groups| == |cs|
  {
    seq(|cs|, i requires 0 <= i < |cs| => ClusterMounts(cs[i]))
  }

  function AllMounts(ls: seq<Listener>, cs: seq<Cluster>): seq<Mount<Material>> {
    Flat(ListenerGroups(ls)) + Flat(ClusterGroups(cs))
  }

  /** The mounts of `Service`: listener by listener and then cluster by cluster. */
  method ServiceMounts(ls: seq<Listener>, cs: seq<Cluster>) returns (files: map<string, Material>)
    ensures files == Table(AllMounts(ls, cs))
  {
    files := MountListeners(ls);
    var upstream := MountClusters(cs);
    files := files + upstream;
    TableConcat(Flat(ListenerGroups(ls)), Flat(ClusterGroups(cs)));
  }

  method MountListeners(ls: seq<Listener>) returns (files: map<string, Material>)
    ensures files == Table(Flat(ListenerGroups(ls)))
  {
    ghost var groups := ListenerGroups(ls);
    files := map[];
    for i := 0 to |ls|
      invariant files == Table(Flat(groups[..i]))
    {
      var own := MountListener(ls[i]);
      FlatSnoc(groups, i);
      TableConcat(Flat(groups[..i]), groups[i]);
      files := files + own;
    }
    assert groups[..|ls|] == groups;
  }

  method MountClusters(cs: seq<Cluster>) returns (files: map<string, Material>)
    ensures files == Table(Flat(ClusterGroups(cs)))
  {
    ghost var groups := ClusterGroups(cs);
    files := map[];
    for i := 0 to |cs|
      invariant files == Table(Flat(groups[..i]))
    {
      var own := MountCluster(cs[i]);
      FlatSnoc(groups, i);
      TableConcat(Flat(groups[..i]), groups[i]);
      files := files + own;
    }
    assert groups[..|cs|] == groups;
  }

  method MountListener(l: Listener) returns (files: map<string, Material>)
    ensures files == Table(ListenerMounts(l))
  {
    PathFunctions(l.name);
    files := map[];
    if !l.mode.Plaintext? {
      files := files[ListenerCertPath(l.name) := l.cert][ListenerKeyPath(l.name) := l.key];
    }
    if l.mode.Mtls? {
      files := files[ListenerTrustPath(l.name) := l.trust];
    }
    UnfoldTable(ListenerMounts(l));
  }

  method MountCluster(c: Cluster) returns (files: map<string, Material>)
    ensures files == Table(ClusterMounts(c))
  {
    PathFunctions(c.name);
    files := map[];
    if !c.mode.Plaintext? {
      files := files[UpstreamTrustPath(c.name) := c.trust];
    }
    if c.mode.Mtls? {
      files := files[UpstreamCertPath(c.name) := c.cert][UpstreamKeyPath(c.name) := c.key];
    }
    UnfoldTable(ClusterMounts(c));
  }

  // ------------------------------------------------------------ no mount lost

  /** The mounts of one component: one a role, all under its own name and side. */
  ghost predicate Own(group: seq<Mount<Material>>, side: Side, mode: Mode, name: string) {
    && |group| == |Roles(side, mode)|
    && forall k :: 0 <= k < |group| ==> group[k].path == PathOf(side, Roles(side, mode)[k], name)
  }

  lemma {:induction false} OwnDistinct(group: seq<Mount<Material>>, side: Side, mode: Mode, name: string)
    requires Own(group, side, mode, name)
    ensures DistinctPaths(group)
  {
    var roles := Roles(side, mode);
    forall i, j | 0 <= i < j < |group| ensures group[i].path != group[j].path {
      if group[i].path == group[j].path {
        PathInjective(side, roles[i], name, side, roles[j], name);
      }
    }
  }

  /** Two components' mounts meet only under one name, and then they do if both have any. */
  lemma {:induction false} OwnMeet(a: seq<Mount<Material>>, ma: Mode, na: string, b: seq<Mount<Material>>, mb: Mode,
        nb: string, side: Side)
    requires Own(a, side, ma, na) && Own(b, side, mb, nb)
    ensures Separate(a, b) <==> (ma.Plaintext? || mb.Plaintext? || na != nb)
  {
    if !ma.Plaintext? && !mb.Plaintext? && na == nb {
      assert a[0] in a && b[0] in b && a[0].path == b[0].path;
    } else {
      forall x, y | x in a && y in b ensures x.path != y.path {
        var i :| 0 <= i < |a| && a[i] == x;
        var j :| 0 <= j < |b| && b[j] == y;
        if x.path == y.path {
          PathInjective(side, Roles(side, ma)[i], na, side, Roles(side, mb)[j], nb);
        }
      }
    }
  }

  ghost predicate SecuredListenersDistinct(ls: seq<Listener>) {
    forall i, j :: 0 <= i < j < |ls| ==> ls[i].mode.Plaintext? || ls[j].mode.Plaintext? || ls[i].name != ls[j].name
  }

  ghost predicate SecuredClustersDistinct(cs: seq<Cluster>) {
    forall i, j :: 0 <= i < j < |cs| ==> cs[i].mode.Plaintext? || cs[j].mode.Plaintext? || cs[i].name != cs[j].name
  }

  lemma {:induction false} ListenerPathsDistinct(ls: seq<Listener>)
    ensures DistinctPaths(Flat(ListenerGroups(ls))) <==> SecuredListenersDistinct(ls)
  {
    var groups := ListenerGroups(ls);
    FlatDistinct(groups);
    forall i | 0 <= i < |ls| ensures DistinctPaths(groups[i]) {
      OwnDistinct(groups[i], Downstream, ls[i].mode, ls[i].name);
    }
    forall i, j | 0 <= i < j < |ls|
      ensures Separate(groups[i], groups[j]) <==>
          (ls[i].mode.Plaintext? || ls[j].mode.Plaintext? || ls[i].name != ls[j].name)
    {
      OwnMeet(groups[i], ls[i].mode, ls[i].name, groups[j], ls[j].mode, ls[j].name, Downstream);
    }
  }

  lemma {:induction false} ClusterPathsDistinct(cs: seq<Cluster>)
    ensures DistinctPaths(Flat(ClusterGroups(cs))) <==> SecuredClustersDistinct(cs)
  {
    var groups := ClusterGroups(cs);
    FlatDistinct(groups);
    forall i | 0 <= i < |cs| ensures DistinctPaths(groups[i]) {
      OwnDistinct(groups[i], Upstream, cs[i].mode, cs[i].name);
    }
    forall i, j | 0 <= i < j < |cs|
      ensures Separate(groups[i], groups[j]) <==>
          (cs[i].mode.Plaintext? || cs[j].mode.Plaintext? || cs[i].name != cs[j].name)
    {
      OwnMeet(groups[i], cs[i].mode, cs[i].name, groups[j], cs[j].mode, cs[j].name, Upstream);
    }
  }

  lemma {:induction false} SidesApart(ls: seq<Listener>, cs: seq<Cluster>, x: Mount<Material>, y: Mount<Material>)
    requires x in Flat(ListenerGroups(ls)) && y in Flat(ClusterGroups(cs))
    ensures x.path != y.path
  {
    var i := FlatOrigin(ListenerGroups(ls), x);
    var j := FlatOrigin(ClusterGroups(cs), y);
    var k :| 0 <= k < |ListenerMounts(ls[i])| && ListenerMounts(ls[i])[k] == x;
    var h :| 0 <= h < |ClusterMounts(cs[j])| && ClusterMounts(cs[j])[h] == y;
    if x.path == y.path {
      PathInjective(Downstream, Roles(Downstream, ls[i].mode)[k], ls[i].name,
                    Upstream, Roles(Upstream, cs[j].mode)[h], cs[j].name);
    }
  }

  /** No mount overwrites another exactly when the secured listeners have names of their own
      and so have the secured clusters. */
  lemma {:induction false} MountsDistinct(ls: seq<Listener>, cs: seq<Cluster>)
    ensures DistinctPaths(AllMounts(ls, cs)) <==> SecuredListenersDistinct(ls) && SecuredClustersDistinct(cs)
  {
    var down, up := Flat(ListenerGroups(ls)), Flat(ClusterGroups(cs));
    ListenerPathsDistinct(ls);
    ClusterPathsDistinct(cs);
    forall x, y | x in down && y in up ensures x.path != y.path {
      SidesApart(ls, cs, x, y);
    }
    DistinctConcat(down, up);
  }

  lemma {:induction false} NeededOfListener(l: Listener, role: Role, path: string)
    requires (role, path) in Needed(Downstream, l.mode, l.name)
    ensures path == PathOf(Downstream, role, l.name)
    ensures Mount(path, ListenerMaterial(l, role)) in ListenerMounts(l)
  {
    var roles := Roles(Downstream, l.mode);
    var k := if role.CertFile? then 0 else if role.KeyFile? then 1 else 2;
    assert roles[k] == role;
    assert ListenerMounts(l)[k] == Mount(path, ListenerMaterial(l, role));
  }

  lemma {:induction false} NeededOfCluster(c: Cluster, role: Role, path: string)
    requires (role, path) in Needed(Upstream, c.mode, c.name)
    ensures path == PathOf(Upstream, role, c.name)
    ensures Mount(path, ClusterMaterial(c, role)) in ClusterMounts(c)
  {
    var roles := Roles(Upstream, c.mode);
    var k := if role.TrustFile? then 0 else if role.CertFile? then 1 else 2;
    assert roles[k] == role;
    assert ClusterMounts(c)[k] == Mount(path, ClusterMaterial(c, role));
  }

  lemma {:induction false} MountedAt(ls: seq<Listener>, cs: seq<Cluster>, m: Mount<Material>)
    requires SecuredListenersDistinct(ls) && SecuredClustersDistinct(cs)
    requires m in AllMounts(ls, cs)
    ensures m.path in Table(AllMounts(ls, cs)) && Table(AllMounts(ls, cs))[m.path] == m.content
  {
    MountsDistinct(ls, cs);
    var k :| 0 <= k < |AllMounts(ls, cs)| && AllMounts(ls, cs)[k] == m;
    TableGet(AllMounts(ls, cs), k);
  }

  /** Every file a typed listener's rendered form names holds, once everything is mounted,
      that same listener's certificate, key or client trust. */
  lemma {:induction false} ListenerFilesMounted(ls: seq<Listener>, cs: seq<Cluster>, i: nat, role: Role, path: string)
    requires i < |ls| && (FromHttp(ls[i]) || FromTcp(ls[i]))
    requires SecuredListenersDistinct(ls) && SecuredClustersDistinct(cs)
    requires (role, path) in ListenerFiles(Map(RenderListener(ls[i])))
    ensures path in Table(AllMounts(ls, cs)) && Table(AllMounts(ls, cs))[path] == ListenerMaterial(ls[i], role)
  {
    TypedListenerFiles(ls[i]);
    NeededOfListener(ls[i], role, path);
    var m := Mount(path, ListenerMaterial(ls[i], role));
    FlatMember(ListenerGroups(ls), i, m);
    MountedAt(ls, cs, m);
  }

  lemma {:induction false} ClusterFilesMounted(ls: seq<Listener>, cs: seq<Cluster>, i: nat, role: Role, path: string)
    requires i < |cs|
    requires SecuredListenersDistinct(ls) && SecuredClustersDistinct(cs)
    requires (role, path) in ClusterFiles(Map(RenderCluster(cs[i])))
    ensures path in Table(AllMounts(ls, cs)) && Table(AllMounts(ls, cs))[path] == ClusterMaterial(cs[i], role)
  {
    RenderedClusterFiles(cs[i]);
    NeededOfCluster(cs[i], role, path);
    var m := Mount(path, ClusterMaterial(cs[i], role));
    FlatMember(ClusterGroups(cs), i, m);
    MountedAt(ls, cs, m);
  }

  /** The same, read off the document the proxy is started with. */
  lemma {:induction false} BootstrapListenerFiles(adminPort: int, ls: seq<Listener>, cs: seq<Cluster>, i: nat,
        role: Role, path: string)
    requires i < |ls| == |StaticListeners(RenderBootstrap(adminPort, ls, cs))|
    requires FromHttp(ls[i]) || FromTcp(ls[i])
    requires SecuredListenersDistinct(ls) && SecuredClustersDistinct(cs)
    requires (role, path) in ListenerFiles(StaticListeners(RenderBootstrap(adminPort, ls, cs))[i])
    ensures path in Table(AllMounts(ls, cs)) && Table(AllMounts(ls, cs))[path] == ListenerMaterial(ls[i], role)
  {
    BootstrapLists(adminPort, ls, cs);
    ListenerFilesMounted(ls, cs, i, role, path);
  }

  lemma {:induction false} BootstrapClusterFiles(adminPort: int, ls: seq<Listener>, cs: seq<Cluster>, i: nat,
        role: Role, path: string)
    requires i < |cs| == |StaticClusters(RenderBootstrap(adminPort, ls, cs))|
    requires SecuredListenersDistinct(ls) && SecuredClustersDistinct(cs)
    requires (role, path) in ClusterFiles(StaticClusters(RenderBootstrap(adminPort, ls, cs))[i])
    ensures path in Table(AllMounts(ls, cs)) && Table(AllMounts(ls, cs))[path] == ClusterMaterial(cs[i], role)
  {
    BootstrapLists(adminPort, ls, cs);
    ClusterFilesMounted(ls, cs, i, role, path);
  }

  /** Validation accepts two clusters of one name, and the second's trust is then what the
      first one's peers are checked against. */
  lemma {:induction false} SharedClusterName(c1: Cluster, c2: Cluster)
    requires NewCluster("api", "STATIC", Some(UpstreamSecurity(Tls, Some("one"), None))) == Ok(c1)
    requires NewCluster("api", "STATIC", Some(UpstreamSecurity(Tls, Some("two"), None))) == Ok(c2)
    ensures DistinctNames([]) && RefsKnown([], [c1, c2])
    ensures (TrustFile, UpstreamTrustPath("api")) in ClusterFiles(Map(RenderCluster(c1)))
    ensures UpstreamTrustPath("api") in Table(AllMounts([], [c1, c2]))
    ensures Table(AllMounts([], [c1, c2]))[UpstreamTrustPath("api")] == c2.trust != c1.trust
  {
    RenderedClusterFiles(c1);
    PathFunctions("api");
    var groups := ClusterGroups([c1, c2]);
    assert groups == [ClusterMounts(c1), ClusterMounts(c2)];
    FlatSnoc(groups, 0);
    FlatSnoc(groups, 1);
    assert groups[..2] == groups && groups[..0] == [];
    var path := PathOf(Upstream, TrustFile, "api");
    assert AllMounts([], [c1, c2]) == [Mount(path, c1.trust), Mount(path, c2.trust)];
    UnfoldTable(AllMounts([], [c1, c2]));
  }
}
