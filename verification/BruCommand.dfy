/** daggerverse/bruno: what a run makes of a collection's indexed lists. Every collection a run
    of builder calls makes keeps those lists paired (`BruOptions.OwnLineage`), which is what
    the indexing here asks for. */
module BruCommand {
  import opened Text
  import opened BruOptions
  import opened BruStaging
  import opened Mounting

  // ------------------------------------------------------------ validation

  predicate Blank(s: string) {
    TrimSpace(s) == ""
  }

  predicate NamesFilled(names: seq<string>) {
    forall k :: 0 <= k < |names| ==> !Blank(names[k])
  }

  predicate Distinct(hosts: seq<string>) {
    forall i, j :: 0 <= i < j < |hosts| ==> hosts[i] != hosts[j]
  }

  predicate PlainVarNames(names: seq<string>) {
    forall k :: 0 <= k < |names| ==> '=' !in names[k]
  }

  /** What a run demands of its collection. */
  predicate Accepted(o: Options) {
    && (forall k :: 0 <= k < |o.varNames| ==> TrimSpace(o.varNames[k]) != "" && '=' !in o.varNames[k])
    && (forall k :: 0 <= k < |o.secretVarNames| ==> TrimSpace(o.secretVarNames[k]) != "")
    && (forall k :: 0 <= k < |o.serviceAliases| ==> TrimSpace(o.serviceAliases[k]) != "")
    && (forall k :: 0 <= k < |o.skipHeaders| ==> TrimSpace(o.skipHeaders[k]) != "")
    && (o.scalars.sandbox == "" || o.scalars.sandbox == "safe" || o.scalars.sandbox == "developer")
    && o.scalars.delay >= 0
    && !(o.scalars.insecure && o.scalars.caCert != NIL)
    && (o.scalars.ignoreTruststore ==> o.scalars.caCert != NIL)
    && (forall k :: 0 <= k < |o.clientCertHosts| ==> TrimSpace(o.clientCertHosts[k]) != "")
    && (forall i, j :: 0 <= i < j < |o.clientCertHosts| ==> o.clientCertHosts[i] != o.clientCertHosts[j])
  }

  datatype Complaint =
    | BlankName | EqualsInName(name: string) | BadSandbox | NegativeDelay
    | InsecureWithCa | TruststoreWithoutCa | HostTwice(host: string)

  /** A complaint is true of the collection, and the ones looked for before it are not. */
  ghost predicate Justified(o: Options, c: Complaint) {
    match c
    case BlankName =>
      exists name :: TrimSpace(name) == "" &&
        name in o.varNames + o.secretVarNames + o.serviceAliases + o.skipHeaders + o.clientCertHosts
    case EqualsInName(name) => name in o.varNames && '=' in name && TrimSpace(name) != ""
    case BadSandbox => NamesPassed(o) && o.scalars.sandbox !in {"", "safe", "developer"}
    case NegativeDelay => NamesPassed(o) && o.scalars.sandbox in {"", "safe", "developer"} && o.scalars.delay < 0
    case _ => SettingsPassed(o) && TlsJustified(o, c)
  }

  ghost predicate TlsJustified(o: Options, c: Complaint) {
    var insecureWithCa := o.scalars.insecure && o.scalars.caCert != "";
    match c
    case InsecureWithCa => insecureWithCa
    case TruststoreWithoutCa => !insecureWithCa && o.scalars.ignoreTruststore && o.scalars.caCert == ""
    case HostTwice(host) =>
      && !insecureWithCa && (o.scalars.ignoreTruststore ==> o.scalars.caCert != "")
      && exists i, j :: 0 <= i < j < |o.clientCertHosts| && o.clientCertHosts[i] == o.clientCertHosts[j] == host
    case BlankName => exists name :: name in o.clientCertHosts && TrimSpace(name) == ""
    case _ => false
  }

  ghost predicate NamesPassed(o: Options) {
    forall name :: name in o.varNames + o.secretVarNames + o.serviceAliases ==> TrimSpace(name) != ""
  }

  ghost predicate SettingsPassed(o: Options) {
    && NamesPassed(o) && o.scalars.sandbox in {"", "safe", "developer"} && o.scalars.delay >= 0
    && forall name :: name in o.skipHeaders ==> TrimSpace(name) != ""
  }

  method CheckFilled(names: seq<string>) returns (c: Option<Complaint>)
    ensures c == if NamesFilled(names) then None else Some(BlankName)
  {
    for i := 0 to |names|
      invariant forall k :: 0 <= k < i ==> !Blank(names[k])
    {
      if Blank(names[i]) {
        return Some(BlankName);
      }
    }
    return None;
  }

  /** `validate`: each complaint in the order the code looks for them. */
  method Validate(o: Options) returns (c: Option<Complaint>)
    ensures c.None? <==> Accepted(o)
    ensures c.Some? ==> Justified(o, c.value)
  {
    for i := 0 to |o.varNames|
      invariant NamesFilled(o.varNames[..i]) && PlainVarNames(o.varNames[..i])
    {
      if Blank(o.varNames[i]) {
        return Some(BlankName);
      }
      if '=' in o.varNames[i] {
        return Some(EqualsInName(o.varNames[i]));
      }
    }
    assert o.varNames[..|o.varNames|] == o.varNames;
    c := CheckFilled(o.secretVarNames);
    if c.Some? {
      return;
    }
    c := CheckFilled(o.serviceAliases);
    if c.Some? {
      return;
    }
    if o.scalars.sandbox != "" && o.scalars.sandbox != "safe" && o.scalars.sandbox != "developer" {
      return Some(BadSandbox);
    }
    if o.scalars.delay < 0 {
      return Some(NegativeDelay);
    }
    c := CheckFilled(o.skipHeaders);
    if c.Some? {
      return;
    }
    c := ValidateTls(o);
  }

  method ValidateTls(o: Options) returns (c: Option<Complaint>)
    ensures c.None? <==>
      && !(o.scalars.insecure && o.scalars.caCert != NIL) && (o.scalars.ignoreTruststore ==> o.scalars.caCert != NIL)
      && NamesFilled(o.clientCertHosts) && Distinct(o.clientCertHosts)
    ensures c.Some? ==> TlsJustified(o, c.value)
  {
    if o.scalars.insecure && o.scalars.caCert != NIL {
      return Some(InsecureWithCa);
    }
    if o.scalars.ignoreTruststore && o.scalars.caCert == NIL {
      return Some(TruststoreWithoutCa);
    }
    var hosts := o.clientCertHosts;
    var seen: set<string> := {};
    for i := 0 to |hosts|
      invariant NamesFilled(hosts[..i]) && Distinct(hosts[..i])
      invariant forall h :: h in seen <==> h in hosts[..i]
    {
      if Blank(hosts[i]) {
        return Some(BlankName);
      }
      if hosts[i] in seen {
        return Some(HostTwice(hosts[i]));
      }
      assert hosts[..i + 1] == hosts[..i] + [hosts[i]];
      seen := seen + {hosts[i]};
    }
    assert hosts[..|hosts|] == hosts;
    return None;
  }

  // ------------------------------------------------------------ --env-var name=value

  function VarArgs(names: seq<string>, values: seq<string>): seq<string>
    requires |names| == |values|
  {
    if names == [] then []
    else
      var n := |names| - 1;
      VarArgs(names[..n], values[..n]) + ["--env-var", names[n] + "=" + values[n]]
  }

  /** The variable loop of `args`, which walks two lists by one index. */
  method EnvVarArgs(o: Options) returns (args: seq<string>)
    requires Paired(o)
    ensures args == VarArgs(o.varNames, o.varValues)
    ensures |args| == 2 * |o.varNames|
    ensures forall i :: 0 <= i < |o.varNames| ==>
      args[2 * i] == "--env-var" && args[2 * i + 1] == o.varNames[i] + "=" + o.varValues[i]
  {
    args := [];
    for i := 0 to |o.varNames|
      invariant args == VarArgs(o.varNames[..i], o.varValues[..i]) && |args| == 2 * i
      invariant forall k :: 0 <= k < i ==>
        args[2 * k] == "--env-var" && args[2 * k + 1] == o.varNames[k] + "=" + o.varValues[k]
    {
      assert o.varNames[..i + 1][..i] == o.varNames[..i] && o.varValues[..i + 1][..i] == o.varValues[..i];
      args := args + ["--env-var", o.varNames[i] + "=" + o.varValues[i]];
    }
    assert o.varNames[..|o.varNames|] == o.varNames && o.varValues[..|o.varNames|] == o.varValues;
  }

  /** `name=value` cut at its first `=`. */
  function Cut(s: string): (string, string) {
    if s == "" then ("", "")
    else if s[0] == '=' then ("", s[1..])
    else (([s[0]] + Cut(s[1..]).0), Cut(s[1..]).1)
  }

  lemma {:induction false} CutJoined(name: string, value: string)
    ensures Cut(name + "=" + value) == (name, value) <==> '=' !in name
    ensures '=' !in Cut(name + "=" + value).0
  {
    var s := name + "=" + value;
    if name == "" {
      assert s[0] == '=' && s[1..] == value;
    } else {
      CutJoined(name[1..], value);
      assert s[1..] == name[1..] + "=" + value;
      assert name == [name[0]] + name[1..];
    }
  }

  /** The assignments on a command line: what follows each `--env-var`, cut. */
  function Assignments(args: seq<string>): seq<(string, string)> {
    if |args| < 2 then []
    else Assignments(args[..|args| - 2]) + if args[|args| - 2] == "--env-var" then [Cut(args[|args| - 1])] else []
  }

  function Pairs(names: seq<string>, values: seq<string>): (pairs: seq<(string, string)>)
    requires |names| == |values|
    ensures |pairs| == |names|
  {
    seq(|names|, i requires 0 <= i < |names| => (names[i], values[i]))
  }

  /** The variables set on the command line are the ones given, each once and in order,
      exactly when no name holds a `=`: the check `validate` makes is the one needed. */
  lemma {:induction false} AssignmentsRoundTrip(names: seq<string>, values: seq<string>)
    requires |names| == |values|
    ensures |Assignments(VarArgs(names, values))| == |names|
    ensures Assignments(VarArgs(names, values)) == Pairs(names, values) <==> PlainVarNames(names)
  {
    if names != [] {
      var n := |names| - 1;
      var before, args := VarArgs(names[..n], values[..n]), VarArgs(names, values);
      AssignmentsRoundTrip(names[..n], values[..n]);
      CutJoined(names[n], values[n]);
      assert args[..|args| - 2] == before;
      assert Assignments(args) == Assignments(before) + [Cut(names[n] + "=" + values[n])];
      assert Pairs(names, values) == Pairs(names[..n], values[..n]) + [(names[n], values[n])];
      assert Assignments(args)[..n] == Assignments(before)
          && Pairs(names, values)[..n] == Pairs(names[..n], values[..n]);
      assert names == names[..n] + [names[n]];
    }
  }

  // ------------------------------------------------------------ client certificates

  const CA_PATH := "/tmp/bruno-cacert.pem"
  const CONFIG_PATH := "/tmp/bruno-client-cert-config.json"
  const CERT_PREFIX := "/tmp/bruno-client-cert-"
  const KEY_PREFIX := "/tmp/bruno-client-key-"

  function CertPath(i: nat): string {
    CERT_PREFIX + Decimal(i) + ".pem"
  }

  function KeyPath(i: nat): string {
    KEY_PREFIX + Decimal(i) + ".pem"
  }

  lemma {:induction false} PathsInjective(i: nat, j: nat)
    ensures CertPath(i) == CertPath(j) ==> i == j
    ensures KeyPath(i) == KeyPath(j) ==> i == j
    ensures CertPath(i) != KeyPath(j)
  {
    assert CertPath(i)[18] == 'c' && KeyPath(j)[18] == 'k';
    if CertPath(i) == CertPath(j) {
      assert CertPath(i)[|CERT_PREFIX|..|CertPath(i)| - 4] == Decimal(i);
      assert CertPath(j)[|CERT_PREFIX|..|CertPath(j)| - 4] == Decimal(j);
      DecimalInjective(i, j);
    }
    if KeyPath(i) == KeyPath(j) {
      assert KeyPath(i)[|KEY_PREFIX|..|KeyPath(i)| - 4] == Decimal(i);
      assert KeyPath(j)[|KEY_PREFIX|..|KeyPath(j)| - 4] == Decimal(j);
      DecimalInjective(i, j);
    }
  }

  /** One entry of the document; an empty passphrase is left out of it. */
  datatype CertEntry = CertEntry(domain: string, certFile: string, keyFile: string, passphrase: string)

  /** Every passphrase there is can be read. */
  predicate Readable(o: Options, plaintext: Handle -> Option<string>) {
    forall i :: 0 <= i < |o.clientPassphrases| && o.clientPassphrases[i] != NIL ==>
        plaintext(o.clientPassphrases[i]).Some?
  }

  function Passphrase(handle: Handle, plaintext: Handle -> Option<string>): string {
    if handle == NIL || plaintext(handle).None? then "" else plaintext(handle).value
  }

  function DocumentOf(o: Options, plaintext: Handle -> Option<string>): (doc: seq<CertEntry>)
    requires Paired(o)
    ensures |doc| == |o.clientCertHosts|
  {
    seq(|o.clientCertHosts|, i requires 0 <= i < |o.clientCertHosts| =>
      CertEntry(o.clientCertHosts[i], CertPath(i), KeyPath(i), Passphrase(o.clientPassphrases[i], plaintext)))
  }

  /** The entry of host i: its pattern, the numbered files, and the passphrase if there is one. */
  ghost predicate EntryFor(o: Options, plaintext: Handle -> Option<string>, i: nat, e: CertEntry)
    requires Paired(o) && i < |o.clientCertHosts|
  {
    var handle := o.clientPassphrases[i];
    && e.domain == o.clientCertHosts[i]
    && (if handle == "" then e.passphrase == "" else plaintext(handle) == Some(e.passphrase))
    && forall n :: Numeral(n, i) ==>
         && e.certFile == "/tmp/bruno-client-cert-" + n + ".pem"
         && e.keyFile == "/tmp/bruno-client-key-" + n + ".pem"
  }

  lemma {:induction false} DocumentEntries(o: Options, plaintext: Handle -> Option<string>)
    requires Paired(o)
    ensures Readable(o, plaintext) ==> forall i :: 0 <= i < |o.clientCertHosts| ==>
      EntryFor(o, plaintext, i, DocumentOf(o, plaintext)[i])
  {
    forall i: nat, n ensures Numeral(n, i) <==> n == Decimal(i) {
      DecimalExactly(n, i);
    }
  }

  /** `clientCertConfig`, reading each passphrase there is. */
  method ClientCertConfig(o: Options, plaintext: Handle -> Option<string>) returns (doc: Option<seq<CertEntry>>)
    requires Paired(o)
    ensures doc == if Readable(o, plaintext) then Some(DocumentOf(o, plaintext)) else None
    ensures doc.None? <==> exists p :: p in o.clientPassphrases && p != "" && plaintext(p).None?
    ensures doc.Some? ==> |doc.value| == |o.clientCertHosts| && forall i ::
      0 <= i < |o.clientCertHosts| ==> EntryFor(o, plaintext, i, doc.value[i])
  {
    DocumentEntries(o, plaintext);
    ghost var whole := DocumentOf(o, plaintext);
    var entries: seq<CertEntry> := [];
    for i := 0 to |o.clientCertHosts|
      invariant entries == whole[..i]
      invariant forall k :: 0 <= k < i && o.clientPassphrases[k] != NIL ==> plaintext(o.clientPassphrases[k]).Some?
    {
      var entry := CertEntry(o.clientCertHosts[i], CertPath(i), KeyPath(i), "");
      if o.clientPassphrases[i] != NIL {
        var read := plaintext(o.clientPassphrases[i]);
        if read.None? {
          return None;
        }
        entry := entry.(passphrase := read.value);
      }
      assert entry == whole[i] && whole[..i + 1] == whole[..i] + [whole[i]];
      entries := entries + [entry];
    }
    assert whole[..|whole|] == whole;
    return Some(entries);
  }

  // ------------------------------------------------------------ which entry is presented

  /** `*.rest`, for every host below `rest`. */
  predicate Wildcard(pattern: string) {
    HasPrefix(pattern, "*.")
  }

  predicate EndsWith(s: string, suffix: string) {
    |suffix| <= |s| && s[|s| - |suffix|..] == suffix
  }

  /** A pattern matches the one host it spells, or every host below its domain. */
  predicate Matches(pattern: string, host: string) {
    if Wildcard(pattern) then |host| >= |pattern| && EndsWith(host, pattern[1..]) else host == pattern
  }

  lemma {:induction false} MatchesExactly(pattern: string, host: string)
    ensures Matches(pattern, host) <==>
      if |pattern| >= 2 && pattern[0] == '*' && pattern[1] == '.'
      then Below(pattern[1..], host)
      else host == pattern
  {
    assert |pattern| >= 2 ==> pattern[..2] == [pattern[0], pattern[1]];
    if Wildcard(pattern) && Matches(pattern, host) {
      var front := host[..|host| - |pattern| + 1];
      assert front != "" && host == front + pattern[1..];
    }
  }

  /** A host of a domain, the domain written with a dot in front. */
  ghost predicate Below(domain: string, host: string) {
    exists front :: front != "" && host == front + domain
  }

  /** The entry presented to a host: the first whose pattern matches; the length if none does. */
  function FirstFor(doc: seq<CertEntry>, host: string): (i: nat)
    ensures i <= |doc|
  {
    if doc == [] then 0 else if Matches(doc[0].domain, host) then 0 else 1 + FirstFor(doc[1..], host)
  }

  lemma {:induction false} FirstForIs(doc: seq<CertEntry>, host: string, k: nat)
    requires k < |doc|
    ensures FirstFor(doc, host) == k
       <==> Matches(doc[k].domain, host) && forall j :: 0 <= j < k ==> !Matches(doc[j].domain, host)
  {
    if k > 0 && !Matches(doc[0].domain, host) {
      FirstForIs(doc[1..], host, k - 1);
    }
  }

  /** Entry i is presented to a host exactly when its pattern matches it and no earlier does. */
  lemma {:induction false} EntryPresented(o: Options, plaintext: Handle -> Option<string>, i: nat, host: string)
    requires Paired(o) && i < |o.clientCertHosts|
    ensures FirstFor(DocumentOf(o, plaintext), host) == i
       <==> && Matches(o.clientCertHosts[i], host)
            && forall j :: 0 <= j < i ==> !Matches(o.clientCertHosts[j], host)
  {
    var doc := DocumentOf(o, plaintext);
    assert forall j :: 0 <= j < |doc| ==> doc[j].domain == o.clientCertHosts[j];
    FirstForIs(doc, host, i);
  }

  /** Pattern `p` leaves nothing to `q`, told from the two texts. */
  predicate Covers(p: string, q: string) {
    if Wildcard(q) then Wildcard(p) && EndsWith(q[1..], p[1..]) else Matches(p, q)
  }

  function As(n: nat): (s: string)
    ensures |s| == n && forall k :: 0 <= k < n ==> s[k] == 'a'
  {
    seq(n, _ => 'a')
  }

  /** A host below `q`'s domain that no text shorter than its first label spells or ends. */
  function LongHost(q: string, n: nat): string
    requires Wildcard(q)
  {
    As(n) + q[1..]
  }

  lemma {:induction false} SuffixOfSuffix(s: string, t: string, u: string)
    requires EndsWith(s, t) && EndsWith(t, u)
    ensures EndsWith(s, u)
  {
  }

  lemma {:induction false} LongHostEnds(p: string, q: string, n: nat)
    requires Wildcard(p) && Wildcard(q) && |p| <= n
    ensures EndsWith(LongHost(q, n), p[1..]) <==> EndsWith(q[1..], p[1..])
  {
    var host, tail, suffix := LongHost(q, n), q[1..], p[1..];
    var cut := |host| - |suffix|;
    if |suffix| <= |tail| {
      DropPast(As(n), tail, |tail| - |suffix|);
    } else {
      assert host[cut] == 'a';
      assert host[cut..][0] == host[cut] && p[..2][1] == '.' && suffix[0] == p[1];
    }
  }

  lemma {:induction false} LongHostMatched(p: string, q: string, n: nat)
    requires Wildcard(q) && |p| <= n && n > 0
    ensures Matches(q, LongHost(q, n))
    ensures Matches(p, LongHost(q, n)) <==> Covers(p, q)
  {
    DropPast(As(n), q[1..], 0);
    if Wildcard(p) {
      LongHostEnds(p, q, n);
    }
  }

  /** Covering is what it should be: whatever `q` matches, `p` matches. */
  lemma {:induction false} CoversExactly(p: string, q: string)
    ensures Covers(p, q) <==> forall host :: Matches(q, host) ==> Matches(p, host)
  {
    if Wildcard(q) {
      LongHostMatched(p, q, |p| + 1);
      if Covers(p, q) {
        forall host | Matches(q, host) ensures Matches(p, host) {
          SuffixOfSuffix(host, q[1..], p[1..]);
        }
      }
    } else {
      assert Matches(q, q);
    }
  }

  /** No pattern is covered by an earlier one. */
  predicate NoneCovered(hosts: seq<string>) {
    forall i, j :: 0 <= i < j < |hosts| ==> !Covers(hosts[i], hosts[j])
  }

  /** Some host is presented entry i. */
  ghost predicate Presented(doc: seq<CertEntry>, i: nat) {
    exists host :: FirstFor(doc, host) == i
  }

  function Longest(hosts: seq<string>): (n: nat)
    ensures forall h :: h in hosts ==> |h| <= n
  {
    if hosts == [] then 0
    else
      var n := Longest(hosts[1..]);
      if |hosts[0]| > n then |hosts[0]| else n
  }

  lemma {:induction false} PresentedExactly(o: Options, plaintext: Handle -> Option<string>, i: nat)
    requires Paired(o) && i < |o.clientCertHosts|
    ensures Presented(DocumentOf(o, plaintext), i)
       <==> forall j :: 0 <= j < i ==> !Covers(o.clientCertHosts[j], o.clientCertHosts[i])
  {
    var hosts := o.clientCertHosts;
    var doc, q := DocumentOf(o, plaintext), hosts[i];
    if host :| FirstFor(doc, host) == i {
      EntryPresented(o, plaintext, i, host);
      forall j | 0 <= j < i ensures !Covers(hosts[j], q) {
        CoversExactly(hosts[j], q);
      }
    }
    if forall j :: 0 <= j < i ==> !Covers(hosts[j], q) {
      var n := Longest(hosts) + 1;
      var host := if Wildcard(q) then LongHost(q, n) else q;
      forall j | 0 <= j < i ensures !Matches(hosts[j], host) {
        if Wildcard(q) {
          LongHostMatched(hosts[j], q, n);
        }
      }
      if Wildcard(q) {
        LongHostMatched(q, q, n);
      }
      EntryPresented(o, plaintext, i, host);
    }
  }

  /** No configured certificate is idle exactly when no pattern is covered by an earlier one. */
  lemma {:induction false} NoneShadowed(o: Options, plaintext: Handle -> Option<string>)
    requires Paired(o)
    ensures (forall i :: 0 <= i < |o.clientCertHosts| ==> Presented(DocumentOf(o, plaintext), i))
       <==> NoneCovered(o.clientCertHosts)
  {
    forall i | 0 <= i < |o.clientCertHosts|
      ensures Presented(DocumentOf(o, plaintext), i)
         <==> forall j :: 0 <= j < i ==> !Covers(o.clientCertHosts[j], o.clientCertHosts[i])
    {
      PresentedExactly(o, plaintext, i);
    }
  }

  /** What `validateTLS` checks is needed for that. */
  lemma {:induction false} DistinctNeeded(hosts: seq<string>)
    requires NoneCovered(hosts)
    ensures Distinct(hosts)
  {
    forall i, j | 0 <= i < j < |hosts| ensures hosts[i] != hosts[j] {
      CoversExactly(hosts[i], hosts[i]);
    }
  }

  /** It is not enough: behind a wildcard, a host of that domain passes the check and its
      certificate is presented to nobody. */
  lemma {:induction false} DistinctNotEnough(o: Options, plaintext: Handle -> Option<string>)
    requires Paired(o) && o.clientCertHosts == ["*.internal", "api.internal"]
    ensures NamesFilled(o.clientCertHosts) && Distinct(o.clientCertHosts)
    ensures FirstFor(DocumentOf(o, plaintext), "api.internal") == 0
    ensures !Presented(DocumentOf(o, plaintext), 1)
  {
    var hosts := o.clientCertHosts;
    assert hosts[0] == "*.internal" && hosts[1] == "api.internal";
    assert hosts[1][3..] == hosts[0][1..];
    EntryPresented(o, plaintext, 0, "api.internal");
    PresentedExactly(o, plaintext, 1);
    assert !IsSpace(hosts[0][0]) && !IsSpace(hosts[0][9]) && !IsSpace(hosts[1][0]) && !IsSpace(hosts[1][11]);
  }

  // ------------------------------------------------------------ mounts

  datatype Content = Given(handle: Handle) | Document(entries: seq<CertEntry>)

  /** What is mounted beside the certificates and keys. */
  function FixedMounts(o: Options, paths: Staged, doc: seq<CertEntry>): seq<Mount<Content>> {
    (if o.scalars.envFile != NIL then [Mount(paths.envFile, Given(o.scalars.envFile))] else [])
    + (if o.scalars.dataFile != NIL then [Mount(paths.dataFile, Given(o.scalars.dataFile))] else [])
    + (if o.scalars.caCert != NIL then [Mount(CA_PATH, Given(o.scalars.caCert))] else [])
    + (if o.clientCertHosts != [] then [Mount(CONFIG_PATH, Document(doc))] else [])
  }

  function CertMounts(o: Options): (groups: seq<seq<Mount<Content>>>)
    requires Paired(o)
    ensures |groups| == |o.clientCertHosts|
  {
    seq(|o.clientCertHosts|, i requires 0 <= i < |o.clientCertHosts| =>
      [Mount(CertPath(i), Given(o.clientCerts[i])), Mount(KeyPath(i), Given(o.clientKeys[i]))])
  }

  function AllMounts(o: Options, paths: Staged, doc: seq<CertEntry>): seq<Mount<Content>>
    requires Paired(o)
  {
    FixedMounts(o, paths, doc) + Flat(CertMounts(o))
  }

  /** What `container` binds besides the mounts. */
  datatype Wiring = Wiring(bindings: seq<(string, Handle)>, secrets: map<string, Handle>, files: map<string, Content>)

  function SecretMounts(o: Options): seq<Mount<Handle>>
    requires Paired(o)
  {
    seq(|o.secretVarNames|, i requires 0 <= i < |o.secretVarNames| => Mount(o.secretVarNames[i], o.secretVarValues[i]))
  }

  /** The table holds the names given, each with the value given for it last. */
  ghost predicate LastGiven(names: seq<string>, values: seq<Handle>, table: map<string, Handle>)
    requires |names| == |values|
  {
    && (forall name :: name in table <==> name in names)
    && forall i :: 0 <= i < |names| && (forall j :: i < j < |names| ==> names[j] != names[i]) ==>
         table[names[i]] == values[i]
  }

  lemma {:induction false} SecretsLast(o: Options)
    requires Paired(o)
    ensures LastGiven(o.secretVarNames, o.secretVarValues, Table(SecretMounts(o)))
  {
    hide Table;
    var names, mounts := o.secretVarNames, SecretMounts(o);
    assert forall i :: 0 <= i < |names| ==> mounts[i].path == names[i];
    forall i | 0 <= i < |names| && forall j :: i < j < |names| ==> names[j] != names[i]
      ensures names[i] in Table(mounts) && Table(mounts)[names[i]] == o.secretVarValues[i]
    {
      LastWins(mounts, i);
    }
    forall name ensures name in Table(mounts) <==> name in names {
      TableKeys(mounts, name);
      if i :| 0 <= i < |names| && names[i] == name {
        assert mounts[i].path == name;
      }
    }
  }

  /** `container` and `withTLS`: three indexed walks, and the files in the order mounted. */
  method Container(o: Options, paths: Staged, plaintext: Handle -> Option<string>) returns (r: Option<Wiring>)
    requires Paired(o)
    ensures r == if Readable(o, plaintext) then
                   Some(Wiring(Pairs(o.serviceAliases, o.services), Table(SecretMounts(o)),
                               Table(AllMounts(o, paths, DocumentOf(o, plaintext)))))
                 else None
    ensures r.Some? ==>
      && |r.value.bindings| == |o.serviceAliases|
      && (forall i :: 0 <= i < |o.serviceAliases| ==> r.value.bindings[i] == (o.serviceAliases[i], o.services[i]))
      && LastGiven(o.secretVarNames, o.secretVarValues, r.value.secrets)
  {
    hide FixedMounts, CertMounts;
    SecretsLast(o);
    var bindings := Bindings(o);
    var secrets := Secrets(o);
    var files: map<string, Content> := map[];
    var doc: seq<CertEntry> := [];
    if o.clientCertHosts != [] {
      var config := ClientCertConfig(o, plaintext);
      if config.None? {
        return None;
      }
      doc := config.value;
    }
    if o.scalars.envFile != NIL {
      files := files[paths.envFile := Given(o.scalars.envFile)];
    }
    if o.scalars.dataFile != NIL {
      files := files[paths.dataFile := Given(o.scalars.dataFile)];
    }
    if o.scalars.caCert != NIL {
      files := files[CA_PATH := Given(o.scalars.caCert)];
    }
    if o.clientCertHosts != [] {
      files := files[CONFIG_PATH := Document(doc)];
    }
    FixedTable(o, paths, doc);
    var certs := MountCerts(o);
    TableConcat(FixedMounts(o, paths, doc), Flat(CertMounts(o)));
    return Some(Wiring(bindings, secrets, files + certs));
  }

  lemma {:induction false} TableNone()
    ensures Table<Content>([]) == map[]
  {
    UnfoldTable<Content>([]);
  }

  lemma {:induction false} TableMaybe(mounts: seq<Mount<Content>>, given: bool, m: Mount<Content>)
    ensures Table(mounts + if given then [m] else [])
         == if given then Table(mounts)[m.path := m.content] else Table(mounts)
  {
    if given {
      assert (mounts + [m])[..|mounts|] == mounts;
    } else {
      assert mounts + [] == mounts;
    }
  }

  lemma {:induction false} FixedTable(o: Options, paths: Staged, doc: seq<CertEntry>)
    ensures var none: map<string, Content> := map[];
      var f1 := if o.scalars.envFile != NIL then none[paths.envFile := Given(o.scalars.envFile)] else none;
      var f2 := if o.scalars.dataFile != NIL then f1[paths.dataFile := Given(o.scalars.dataFile)] else f1;
      var f3 := if o.scalars.caCert != NIL then f2[CA_PATH := Given(o.scalars.caCert)] else f2;
      var f4 := if o.clientCertHosts != [] then f3[CONFIG_PATH := Document(doc)] else f3;
      Table(FixedMounts(o, paths, doc)) == f4
  {
    hide Table;
    var env: seq<Mount<Content>> :=
      if o.scalars.envFile != NIL then [Mount(paths.envFile, Given(o.scalars.envFile))] else [];
    var data: seq<Mount<Content>> :=
      if o.scalars.dataFile != NIL then [Mount(paths.dataFile, Given(o.scalars.dataFile))] else [];
    var ca: seq<Mount<Content>> := if o.scalars.caCert != NIL then [Mount(CA_PATH, Given(o.scalars.caCert))] else [];
    TableMaybe([], o.scalars.envFile != NIL, Mount(paths.envFile, Given(o.scalars.envFile)));
    TableMaybe(env, o.scalars.dataFile != NIL, Mount(paths.dataFile, Given(o.scalars.dataFile)));
    TableMaybe(env + data, o.scalars.caCert != NIL, Mount(CA_PATH, Given(o.scalars.caCert)));
    TableMaybe(env + data + ca, o.clientCertHosts != [], Mount(CONFIG_PATH, Document(doc)));
    assert [] + env == env;
    TableNone();
  }

  method Bindings(o: Options) returns (bindings: seq<(string, Handle)>)
    requires Paired(o)
    ensures bindings == Pairs(o.serviceAliases, o.services)
  {
    bindings := [];
    for i := 0 to |o.serviceAliases|
      invariant bindings == Pairs(o.serviceAliases, o.services)[..i]
    {
      bindings := bindings + [(o.serviceAliases[i], o.services[i])];
    }
  }

  method Secrets(o: Options) returns (secrets: map<string, Handle>)
    requires Paired(o)
    ensures secrets == Table(SecretMounts(o))
  {
    ghost var mounts := SecretMounts(o);
    secrets := map[];
    for i := 0 to |o.secretVarNames|
      invariant secrets == Table(mounts[..i])
    {
      assert mounts[..i + 1][..i] == mounts[..i];
      secrets := secrets[o.secretVarNames[i] := o.secretVarValues[i]];
    }
    assert mounts[..|mounts|] == mounts;
  }

  method MountCerts(o: Options) returns (files: map<string, Content>)
    requires Paired(o)
    ensures files == Table(Flat(CertMounts(o)))
  {
    ghost var groups := CertMounts(o);
    files := map[];
    for i := 0 to |o.clientCertHosts|
      invariant files == Table(Flat(groups[..i]))
    {
      CertTable(o, i);
      files := files[CertPath(i) := Given(o.clientCerts[i])][KeyPath(i) := Given(o.clientKeys[i])];
    }
    assert groups[..|groups|] == groups;
  }

  lemma {:induction false} CertTable(o: Options, i: nat)
    requires Paired(o) && i < |o.clientCertHosts|
    ensures Table(Flat(CertMounts(o)[..i + 1]))
         == Table(Flat(CertMounts(o)[..i]))
               [CertPath(i) := Given(o.clientCerts[i])][KeyPath(i) := Given(o.clientKeys[i])]
  {
    var groups := CertMounts(o);
    FlatSnoc(groups, i);
    TableConcat(Flat(groups[..i]), groups[i]);
    UnfoldTable(groups[i]);
  }

  lemma {:induction false} CertMountsDistinct(o: Options)
    requires Paired(o)
    ensures DistinctPaths(Flat(CertMounts(o)))
  {
    var groups := CertMounts(o);
    FlatDistinct(groups);
    forall i | 0 <= i < |groups| ensures DistinctPaths(groups[i]) {
      PathsInjective(i, i);
    }
    forall i, j | 0 <= i < j < |groups| ensures Separate(groups[i], groups[j]) {
      GroupsSeparate(o, i, j);
    }
  }

  lemma {:induction false} GroupsSeparate(o: Options, i: nat, j: nat)
    requires Paired(o) && i < j < |o.clientCertHosts|
    ensures Separate(CertMounts(o)[i], CertMounts(o)[j])
  {
    PathsInjective(i, j);
    PathsInjective(j, i);
  }

  /** What tells a client certificate's path from the others: `cl` after the directory, and
      the last letter. */
  predicate ClientShape(path: string) {
    |path| > 12 && path[11] == 'c' && path[12] == 'l' && path[|path| - 1] == 'm'
  }

  lemma {:induction false} CertShape(i: nat)
    ensures ClientShape(CertPath(i)) && ClientShape(KeyPath(i))
  {
    hide Decimal;
    assert CERT_PREFIX[11] == KEY_PREFIX[11] == 'c' && CERT_PREFIX[12] == KEY_PREFIX[12] == 'l';
    assert ".pem"[3] == 'm';
  }

  lemma {:induction false} FixedPath(o: Options, paths: Staged, doc: seq<CertEntry>, x: Mount<Content>)
    requires x in FixedMounts(o, paths, doc)
    ensures || (o.scalars.envFile != NIL && x.path == paths.envFile)
            || (o.scalars.dataFile != NIL && x.path == paths.dataFile)
            || x.path == CA_PATH || x.path == CONFIG_PATH
  {
  }

  lemma {:induction false} FixedShape(o: Options, paths: Staged, doc: seq<CertEntry>, x: Mount<Content>)
    requires StagedFor(o, paths) && x in FixedMounts(o, paths, doc)
    ensures !ClientShape(x.path)
  {
    hide FixedMounts;
    FixedPath(o, paths, doc, x);
    assert (ENV_PREFIX + ".bru")[11] == (ENV_PREFIX + ".json")[11] == 'e';
    assert (DATA_PREFIX + ".csv")[11] == (DATA_PREFIX + ".json")[11] == 'd';
    assert CA_PATH[12] == 'a';
    assert CONFIG_PATH[|CONFIG_PATH| - 1] == 'n';
  }

  lemma {:induction false} FixedApart(o: Options, paths: Staged, doc: seq<CertEntry>, x: Mount<Content>, i: nat)
    requires StagedFor(o, paths) && x in FixedMounts(o, paths, doc)
    ensures x.path != CertPath(i) && x.path != KeyPath(i)
  {
    hide *;
    FixedShape(o, paths, doc, x);
    CertShape(i);
  }

  lemma {:induction false} FixedDistinct(o: Options, paths: Staged, doc: seq<CertEntry>)
    requires StagedFor(o, paths)
    ensures DistinctPaths(FixedMounts(o, paths, doc))
  {
    assert CA_PATH[11] == CONFIG_PATH[11] == 'c' && CA_PATH[12] == 'a' && CONFIG_PATH[12] == 'l';
    assert o.scalars.envFile != NIL ==> paths.envFile[11] == 'e';
    assert o.scalars.dataFile != NIL ==> paths.dataFile[11] == 'd';
  }

  /** Whatever the collection, no mount overwrites another. */
  lemma {:induction false} MountsDistinct(o: Options, paths: Staged, doc: seq<CertEntry>)
    requires Paired(o) && StagedFor(o, paths)
    ensures DistinctPaths(AllMounts(o, paths, doc))
  {
    var fixed, certs := FixedMounts(o, paths, doc), Flat(CertMounts(o));
    FixedDistinct(o, paths, doc);
    CertMountsDistinct(o);
    forall x, y | x in fixed && y in certs ensures x.path != y.path {
      var i := FlatOrigin(CertMounts(o), y);
      FixedApart(o, paths, doc, x, i);
    }
    DistinctConcat(fixed, certs);
  }

  predicate Holds(files: map<string, Content>, path: string, content: Content) {
    path in files && files[path] == content
  }

  /** Entry i of the document names the files that hold host i's certificate and key, and no
      file the run is pointed at is lost. */
  lemma {:induction false} ClientCertsMounted(o: Options, envName: string, dataName: string, paths: Staged,
                           plaintext: Handle -> Option<string>, i: nat)
    requires Paired(o) && Stage(o, envName, dataName) == Some(paths) && i < |o.clientCertHosts|
    ensures var doc := DocumentOf(o, plaintext);
      var files := Table(AllMounts(o, paths, doc));
      && Holds(files, doc[i].certFile, Given(o.clientCerts[i]))
      && Holds(files, doc[i].keyFile, Given(o.clientKeys[i]))
      && Holds(files, "/tmp/bruno-client-cert-config.json", Document(doc))
      && (o.scalars.caCert != NIL ==> Holds(files, "/tmp/bruno-cacert.pem", Given(o.scalars.caCert)))
      && (o.scalars.envFile != NIL ==> Holds(files, paths.envFile, Given(o.scalars.envFile)))
      && (o.scalars.dataFile != NIL ==> Holds(files, paths.dataFile, Given(o.scalars.dataFile)))
  {
    assert StagedFor(o, paths);
    var doc, group := DocumentOf(o, plaintext), CertMounts(o)[i];
    FlatMember(CertMounts(o), i, group[0]);
    FlatMember(CertMounts(o), i, group[1]);
    MountedAt(o, paths, doc, group[0]);
    MountedAt(o, paths, doc, group[1]);
    MountedAt(o, paths, doc, Mount(CONFIG_PATH, Document(doc)));
    if o.scalars.caCert != NIL {
      MountedAt(o, paths, doc, Mount(CA_PATH, Given(o.scalars.caCert)));
    }
    if o.scalars.envFile != NIL {
      MountedAt(o, paths, doc, Mount(paths.envFile, Given(o.scalars.envFile)));
    }
    if o.scalars.dataFile != NIL {
      MountedAt(o, paths, doc, Mount(paths.dataFile, Given(o.scalars.dataFile)));
    }
  }

  lemma {:induction false} MountedAt(o: Options, paths: Staged, doc: seq<CertEntry>, m: Mount<Content>)
    requires Paired(o) && StagedFor(o, paths) && m in AllMounts(o, paths, doc)
    ensures m.path in Table(AllMounts(o, paths, doc)) && Table(AllMounts(o, paths, doc))[m.path] == m.content
  {
    MountsDistinct(o, paths, doc);
    var k :| 0 <= k < |AllMounts(o, paths, doc)| && AllMounts(o, paths, doc)[k] == m;
    TableGet(AllMounts(o, paths, doc), k);
  }
}
