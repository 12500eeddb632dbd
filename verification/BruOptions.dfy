/** daggerverse/bruno: what a `Collection` holds and what each builder adds to it, as values. */
module BruOptions {
  import opened Text

  /** A file, secret or service, by the id the engine knows it under; nil is the empty id. */
  type Handle = string

  const NIL: Handle := ""

  /** The fields that are not slices. */
  datatype Scalars = Scalars(
    source: Handle, environment: string, envFile: Handle, dataFile: Handle, sandbox: string, insecure: bool,
    caCert: Handle, ignoreTruststore: bool, testsOnly: bool, bail: bool, delay: int,
    skipAllHeaders: bool, skipRequestBody: bool, skipResponseBody: bool, skipBodies: bool, unredacted: bool)

  datatype Options = Options(
    scalars: Scalars,
    varNames: seq<string>, varValues: seq<string>,
    secretVarNames: seq<string>, secretVarValues: seq<Handle>,
    tags: seq<string>, excludedTags: seq<string>,
    serviceAliases: seq<string>, services: seq<Handle>,
    clientCertHosts: seq<string>, clientCerts: seq<Handle>, clientKeys: seq<Handle>, clientPassphrases: seq<Handle>,
    skipHeaders: seq<string>)

  function Empty(source: Handle): Options {
    Options(Scalars(source, "", NIL, NIL, "safe", false, NIL, false, false, false, 0,
                    false, false, false, false, false),
            [], [], [], [], [], [], [], [], [], [], [], [], [])
  }

  datatype Op =
    | WithEnvironment(name: string)
    | WithVar(name: string, value: string)
    | WithSecretVar(name: string, secret: Handle)
    | WithEnvFile(file: Handle)
    | WithData(file: Handle)
    | WithTags(tags: seq<string>)
    | WithoutTags(tags: seq<string>)
    | WithService(alias: string, service: Handle)
    | WithSandbox(mode: string)
    | WithInsecure
    | WithTestsOnly
    | WithBail
    | WithDelay(milliseconds: int)
    | WithCaCert(cert: Handle)
    | WithoutTruststore
    | WithClientCert(host: string, cert: Handle, key: Handle, passphrase: Handle)
    | WithoutHeaders(names: seq<string>)
    | WithoutAllHeaders
    | WithoutRequestBody
    | WithoutResponseBody
    | WithoutBodies
    | WithUnredactedReport

  function Apply(o: Options, op: Op): Options {
    var s := o.scalars;
    match op
    case WithEnvironment(name) => o.(scalars := s.(environment := name))
    case WithVar(name, value) => o.(varNames := o.varNames + [name], varValues := o.varValues + [value])
    case WithSecretVar(name, secret) =>
      o.(secretVarNames := o.secretVarNames + [name], secretVarValues := o.secretVarValues + [secret])
    case WithEnvFile(file) => o.(scalars := s.(envFile := file))
    case WithData(file) => o.(scalars := s.(dataFile := file))
    case WithTags(tags) => o.(tags := o.tags + tags)
    case WithoutTags(tags) => o.(excludedTags := o.excludedTags + tags)
    case WithService(alias, service) =>
      o.(serviceAliases := o.serviceAliases + [alias], services := o.services + [service])
    case WithSandbox(mode) => o.(scalars := s.(sandbox := mode))
    case WithInsecure => o.(scalars := s.(insecure := true))
    case WithTestsOnly => o.(scalars := s.(testsOnly := true))
    case WithBail => o.(scalars := s.(bail := true))
    case WithDelay(milliseconds) => o.(scalars := s.(delay := milliseconds))
    case WithCaCert(cert) => o.(scalars := s.(caCert := cert))
    case WithoutTruststore => o.(scalars := s.(ignoreTruststore := true))
    case WithClientCert(host, cert, key, passphrase) =>
      o.(clientCertHosts := o.clientCertHosts + [host], clientCerts := o.clientCerts + [cert],
         clientKeys := o.clientKeys + [key], clientPassphrases := o.clientPassphrases + [passphrase])
    case WithoutHeaders(names) => o.(skipHeaders := o.skipHeaders + names)
    case WithoutAllHeaders => o.(scalars := s.(skipAllHeaders := true))
    case WithoutRequestBody => o.(scalars := s.(skipRequestBody := true))
    case WithoutResponseBody => o.(scalars := s.(skipResponseBody := true))
    case WithoutBodies => o.(scalars := s.(skipBodies := true))
    case WithUnredactedReport => o.(scalars := s.(unredacted := true))
  }

  /** The lists that are walked by one index stay as long as each other. */
  predicate Paired(o: Options) {
    && |o.varNames| == |o.varValues|
    && |o.secretVarNames| == |o.secretVarValues|
    && |o.serviceAliases| == |o.services|
    && |o.clientCertHosts| == |o.clientCerts| == |o.clientKeys| == |o.clientPassphrases|
  }

  // ------------------------------------------------------------ branching runs

  /** One builder call, on any collection made so far. */
  datatype Step = Step(parent: nat, op: Op)

  predicate Runnable(script: seq<Step>) {
    forall k :: 0 <= k < |script| ==> script[k].parent <= k
  }

  /** Every collection of a run, the first one as `Bruno.Collection` makes it. */
  function History(source: Handle, script: seq<Step>): (h: seq<Options>)
    requires Runnable(script)
    ensures |h| == |script| + 1
  {
    if script == [] then [Empty(source)]
    else
      var before := History(source, script[..|script| - 1]);
      var step := script[|script| - 1];
      before + [Apply(before[step.parent], step.op)]
  }

  lemma {:induction false} HistorySnoc(source: Handle, script: seq<Step>, i: nat)
    requires Runnable(script) && i < |script|
    ensures History(source, script[..i + 1])
         == History(source, script[..i]) + [Apply(History(source, script[..i])[script[i].parent], script[i].op)]
  {
    assert script[..i + 1][..i] == script[..i];
  }

  lemma {:induction false} HistoryAt(source: Handle, script: seq<Step>, k: nat)
    requires Runnable(script) && k < |script|
    ensures History(source, script)[k + 1] == Apply(History(source, script)[script[k].parent], script[k].op)
  {
    if k < |script| - 1 {
      HistoryAt(source, script[..|script| - 1], k);
    }
  }

  /** The calls between the start and the k-th collection, the ones on other branches left out. */
  function Lineage(script: seq<Step>, k: nat): seq<Op>
    requires Runnable(script) && k <= |script|
    decreases k
  {
    if k == 0 then [] else Lineage(script, script[k - 1].parent) + [script[k - 1].op]
  }

  /** The builders that fill indexed lists. */
  datatype Kind = Var | SecretVar | Service | ClientCert

  predicate Of(op: Op, kind: Kind) {
    match kind
    case Var => op.WithVar?
    case SecretVar => op.WithSecretVar?
    case Service => op.WithService?
    case ClientCert => op.WithClientCert?
  }

  function Only(ops: seq<Op>, kind: Kind): seq<Op> {
    if ops == [] then []
    else Only(ops[..|ops| - 1], kind) + if Of(ops[|ops| - 1], kind) then [ops[|ops| - 1]] else []
  }

  function Count(o: Options, kind: Kind): nat {
    match kind
    case Var => |o.varNames|
    case SecretVar => |o.secretVarNames|
    case Service => |o.serviceAliases|
    case ClientCert => |o.clientCertHosts|
  }

  /** The call the i-th entries of a kind's lists come from. */
  function Entry(o: Options, kind: Kind, i: nat): Op
    requires Paired(o) && i < Count(o, kind)
  {
    match kind
    case Var => WithVar(o.varNames[i], o.varValues[i])
    case SecretVar => WithSecretVar(o.secretVarNames[i], o.secretVarValues[i])
    case Service => WithService(o.serviceAliases[i], o.services[i])
    case ClientCert => WithClientCert(o.clientCertHosts[i], o.clientCerts[i], o.clientKeys[i], o.clientPassphrases[i])
  }

  function Entries(o: Options, kind: Kind): (entries: seq<Op>)
    requires Paired(o)
    ensures |entries| == Count(o, kind)
  {
    seq(Count(o, kind), i requires 0 <= i < Count(o, kind) => Entry(o, kind, i))
  }

  lemma {:induction false} ApplyEntries(o: Options, op: Op, kind: Kind)
    requires Paired(o)
    ensures Paired(Apply(o, op))
    ensures Entries(Apply(o, op), kind) == if Of(op, kind) then Entries(o, kind) + [op] else Entries(o, kind)
  {
    var after := Apply(o, op);
    assert Count(after, kind) == Count(o, kind) + if Of(op, kind) then 1 else 0;
    assert forall i :: 0 <= i < Count(o, kind) ==> Entry(after, kind, i) == Entry(o, kind, i);
  }

  /** Whatever the branching, the indexed lists are paired, and each holds the calls of the
      collection's own lineage, in order, and no others. */
  lemma {:induction false} OwnLineage(source: Handle, script: seq<Step>, k: nat, kind: Kind)
    requires Runnable(script) && k <= |script|
    ensures var o := History(source, script)[k];
      Paired(o) && Entries(o, kind) == Only(Lineage(script, k), kind)
    decreases k
  {
    if k == 0 {
      HistoryStart(source, script);
    } else {
      var step := script[k - 1];
      OwnLineage(source, script, step.parent, kind);
      HistoryAt(source, script, k - 1);
      ApplyEntries(History(source, script)[step.parent], step.op, kind);
      var ops := Lineage(script, step.parent);
      assert Lineage(script, k)[..|ops|] == ops;
    }
  }

  lemma {:induction false} HistoryStart(source: Handle, script: seq<Step>)
    requires Runnable(script)
    ensures History(source, script)[0] == Empty(source)
  {
    if script != [] {
      HistoryStart(source, script[..|script| - 1]);
    }
  }
}
