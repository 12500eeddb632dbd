/** daggerverse/grafana-stack: what a backend reads from the spliced configuration, key by key. */
module YamlServed {
  import opened Text
  import opened YamlTree

  function TextNode(text: string): Tree {
    Tree(Scalar, "!!str", text, "", [])
  }

  /** The settings of the native listener: its certificate and key and, under mutual TLS, the
      authority that client certificates must come from and that they are asked for at all. */
  function ServerSetting(key: string, dir: string, mtls: bool): Option<Tree> {
    match key
    case "cert_file" => Some(TextNode(dir + "/tls.crt"))
    case "key_file" => Some(TextNode(dir + "/tls.key"))
    case "client_ca_file" => if mtls then Some(TextNode(dir + "/ca.crt")) else None
    case "client_auth_type" => if mtls then Some(TextNode("RequireAndVerifyClientCert")) else None
    case _ => None
  }

  /** A receiver asks for client certificates by naming their authority, and has no key for it. */
  function ReceiverSetting(key: string, dir: string, mtls: bool): Option<Tree> {
    match key
    case "cert_file" => Some(TextNode(dir + "/tls.crt"))
    case "key_file" => Some(TextNode(dir + "/tls.key"))
    case "client_ca_file" => if mtls then Some(TextNode(dir + "/ca.crt")) else None
    case _ => None
  }

  // ------------------------------------------------------------ blocks

  lemma {:induction false} ServerBlockReads(dir: string, mtls: bool, key: string)
    ensures Lookup(ServerBlock(dir, mtls), [key]) == ServerSetting(key, dir, mtls)
  {
    KeyLengths();
    var e := ServerEntries(dir, mtls);
    if i :| 0 <= i < |e| && e[i].0 == key {
      BlockEntry(e, i);
    } else {
      NoOtherEntry(e, key);
      assert key != e[0].0 && key != e[1].0;
      assert mtls ==> key != e[2].0 && key != e[3].0;
    }
  }

  lemma {:induction false} ReceiverBlockReads(dir: string, mtls: bool, key: string)
    ensures Lookup(ReceiverBlock(dir, mtls), [key]) == ReceiverSetting(key, dir, mtls)
  {
    KeyLengths();
    var e := ReceiverEntries(dir, mtls);
    if i :| 0 <= i < |e| && e[i].0 == key {
      BlockEntry(e, i);
    } else {
      NoOtherEntry(e, key);
      assert key != e[0].0 && key != e[1].0;
      assert mtls ==> key != e[2].0;
    }
  }

  lemma {:induction false} LookupThrough(t: Tree, path: seq<string>, key: string)
    requires Lookup(t, path).Some?
    ensures Lookup(t, path + [key]) == Lookup(Lookup(t, path).value, [key])
    decreases |path|
  {
    if path == [] {
      assert path + [key] == [key];
    } else {
      assert (path + [key])[1..] == path[1..] + [key];
      LookupThrough(t.children[Find(t, path[0]).value + 1], path[1..], key);
    }
  }

  // ------------------------------------------------------------ configurations

  /** The single server block: every key a backend looks up there, present or not. */
  lemma {:induction false} ServerFound(t: Tree, dir: string, mtls: bool, key: string)
    requires MapsPaired(t) && MappingsAlong(t, ["server", "http_tls_config"])
    ensures Lookup(DskitTree(t, dir, mtls), ["server", "http_tls_config", key]) == ServerSetting(key, dir, mtls)
  {
    PathsSpelled();
    PutThenLookup(t, SERVER, ServerBlock(dir, mtls), [key]);
    ServerBlockReads(dir, mtls, key);
    assert SERVER + [key] == ["server", "http_tls_config", key];
  }

  /** The three blocks of Tempo, the same. */
  lemma {:induction false} TempoFound(t: Tree, dir: string, mtls: bool, key: string)
    requires MapsPaired(t) && TempoMappings(t)
    ensures Lookup(TempoTree(t, dir, mtls), ["server", "http_tls_config", key]) == ServerSetting(key, dir, mtls)
    ensures Lookup(TempoTree(t, dir, mtls), ["distributor", "receivers", "otlp", "protocols", "grpc", "tls", key])
         == ReceiverSetting(key, dir, mtls)
    ensures Lookup(TempoTree(t, dir, mtls), ["distributor", "receivers", "otlp", "protocols", "http", "tls", key])
         == ReceiverSetting(key, dir, mtls)
  {
    hide *;
    var spliced := TempoTree(t, dir, mtls);
    var grpc := ["distributor", "receivers", "otlp", "protocols", "grpc", "tls"];
    var http := ["distributor", "receivers", "otlp", "protocols", "http", "tls"];
    TempoSecures(t, dir, mtls);
    ServerBlockReads(dir, mtls, key);
    ReceiverBlockReads(dir, mtls, key);
    LookupThrough(spliced, ["server", "http_tls_config"], key);
    LookupThrough(spliced, grpc, key);
    LookupThrough(spliced, http, key);
    assert ["server", "http_tls_config"] + [key] == ["server", "http_tls_config", key];
    assert grpc + [key] == ["distributor", "receivers", "otlp", "protocols", "grpc", "tls", key];
    assert http + [key] == ["distributor", "receivers", "otlp", "protocols", "http", "tls", key];
  }

  // ------------------------------------------------------------ documents

  /** The mapping a reader starts from: the one child of a document. */
  predicate Reads(doc: Tree, root: Tree) {
    doc.kind.Document? && doc.children == [root]
  }

  /** A document that holds a mapping, or nothing yet, ends up holding one with the block. */
  lemma {:induction false} DocumentServed(doc: Tree, dir: string, mtls: bool) returns (root: Tree)
    requires doc.kind.Document? && |doc.children| <= 1
    requires forall t :: t in doc.children ==> MapsPaired(t) && TempoMappings(t)
    ensures Reads(WithRoot(doc, TempoTree(Root(doc), dir, mtls)), root)
    ensures forall key :: Lookup(root, ["server", "http_tls_config", key]) == ServerSetting(key, dir, mtls)
    ensures forall key ::
      && Lookup(root, ["distributor", "receivers", "otlp", "protocols", "grpc", "tls", key])
           == ReceiverSetting(key, dir, mtls)
      && Lookup(root, ["distributor", "receivers", "otlp", "protocols", "http", "tls", key])
           == ReceiverSetting(key, dir, mtls)
  {
    hide TempoTree, TempoMappings, MapsPaired, Lookup, ServerSetting, ReceiverSetting;
    root := TempoTree(Root(doc), dir, mtls);
    NothingYet();
    forall key: string
      ensures Lookup(root, ["server", "http_tls_config", key]) == ServerSetting(key, dir, mtls)
      ensures Lookup(root, ["distributor", "receivers", "otlp", "protocols", "grpc", "tls", key])
           == ReceiverSetting(key, dir, mtls)
      ensures Lookup(root, ["distributor", "receivers", "otlp", "protocols", "http", "tls", key])
           == ReceiverSetting(key, dir, mtls)
    {
      TempoFound(Root(doc), dir, mtls, key);
    }
  }

  lemma {:induction false} MappingsInside(path: seq<string>)
    ensures MappingsAlong(EMPTY_MAP, path)
  {
    if path != [] {
      MappingsInside(path[1..]);
    }
  }

  lemma {:induction false} NothingYet()
    ensures MapsPaired(EMPTY_MAP) && TempoMappings(EMPTY_MAP)
  {
    MappingsInside(["server", "http_tls_config"]);
    MappingsInside(["distributor", "receivers", "otlp", "protocols", "grpc", "tls"]);
    MappingsInside(["distributor", "receivers", "otlp", "protocols", "http", "tls"]);
  }

  // ------------------------------------------------------------ the nodes that are made

  /** Where the first key of a path is not there, the splice appends plain mappings under it. */
  lemma {:induction false} PutCreates(t: Tree, outer: string, inner: string, v: Tree)
    requires forall k :: 0 <= k && 2 * k + 1 < |t.children| ==> t.children[2 * k].value != outer
    ensures Put(t, [outer, inner], v)
         == t.(children := t.children
              + [TextNode(outer), Tree(Mapping, "!!map", "", "", [TextNode(inner), v])])
  {
    FindFromSkipsAll(t.children, outer);
    assert [outer, inner][1..] == [inner] && [inner][1..] == [];
    assert Find(EMPTY_MAP, inner) == None;
    assert Put(EMPTY_MAP, [inner], v) == EMPTY_MAP.(children := [] + [KeyNode(inner)] + [v] + []);
    assert [] + [KeyNode(inner)] + [v] + [] == [TextNode(inner), v];
  }

  lemma {:induction false} FindFromSkipsAll(children: seq<Tree>, key: string)
    requires forall k :: 0 <= k && 2 * k + 1 < |children| ==> children[2 * k].value != key
    ensures FindFrom(children, key, 0) == None
  {
    forall k | 0 <= k && k % 2 == 0 && k + 1 < |children| ensures children[k].value != key {
      assert k == 2 * (k / 2);
    }
    FindFromSkips(children, key, 0, if |children| % 2 == 0 then |children| else |children| + 1);
  }
}
