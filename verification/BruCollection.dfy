/** daggerverse/bruno: the `Collection` struct and its builders, over slices that share memory
    when they are copied. No builder has a `modifies` clause, so whatever existed before a
    call, the arrays behind earlier collections included, is afterwards as it was. The struct's
    slice fields are one map from field to slice. */
module BruCollection {
  import opened BruOptions
  import opened GoSlice

  datatype Field =
    | VarNames | VarValues | SecretVarNames | SecretVarValues | Tags | ExcludedTags | ServiceAliases | Services
    | ClientCertHosts | ClientCerts | ClientKeys | ClientPassphrases | SkipHeaders

  const FIELDS :=
    [VarNames, VarValues, SecretVarNames, SecretVarValues, Tags, ExcludedTags, ServiceAliases, Services,
     ClientCertHosts, ClientCerts, ClientKeys, ClientPassphrases, SkipHeaders]

  lemma {:induction false} AllFields(f: Field)
    ensures f in FIELDS
  {
    var i := match f
      case VarNames => 0 case VarValues => 1 case SecretVarNames => 2 case SecretVarValues => 3
      case Tags => 4 case ExcludedTags => 5 case ServiceAliases => 6 case Services => 7
      case ClientCertHosts => 8 case ClientCerts => 9 case ClientKeys => 10 case ClientPassphrases => 11
      case SkipHeaders => 12;
    assert FIELDS[i] == f;
  }

  function Get(o: Options, f: Field): seq<string> {
    match f
    case VarNames => o.varNames
    case VarValues => o.varValues
    case SecretVarNames => o.secretVarNames
    case SecretVarValues => o.secretVarValues
    case Tags => o.tags
    case ExcludedTags => o.excludedTags
    case ServiceAliases => o.serviceAliases
    case Services => o.services
    case ClientCertHosts => o.clientCertHosts
    case ClientCerts => o.clientCerts
    case ClientKeys => o.clientKeys
    case ClientPassphrases => o.clientPassphrases
    case SkipHeaders => o.skipHeaders
  }

  /** The value with `xs` appended to one list. */
  function More(o: Options, field: Field, xs: seq<string>): Options {
    match field
    case VarNames => o.(varNames := o.varNames + xs)
    case VarValues => o.(varValues := o.varValues + xs)
    case SecretVarNames => o.(secretVarNames := o.secretVarNames + xs)
    case SecretVarValues => o.(secretVarValues := o.secretVarValues + xs)
    case Tags => o.(tags := o.tags + xs)
    case ExcludedTags => o.(excludedTags := o.excludedTags + xs)
    case ServiceAliases => o.(serviceAliases := o.serviceAliases + xs)
    case Services => o.(services := o.services + xs)
    case ClientCertHosts => o.(clientCertHosts := o.clientCertHosts + xs)
    case ClientCerts => o.(clientCerts := o.clientCerts + xs)
    case ClientKeys => o.(clientKeys := o.clientKeys + xs)
    case ClientPassphrases => o.(clientPassphrases := o.clientPassphrases + xs)
    case SkipHeaders => o.(skipHeaders := o.skipHeaders + xs)
  }

  /** Two values alike in every field are the same. */
  lemma {:induction false} SameFields(a: Options, b: Options)
    requires a.scalars == b.scalars && forall f :: Get(a, f) == Get(b, f)
    ensures a == b
  {
    assert Get(a, VarNames) == Get(b, VarNames) && Get(a, VarValues) == Get(b, VarValues);
    assert Get(a, SecretVarNames) == Get(b, SecretVarNames) && Get(a, SecretVarValues) == Get(b, SecretVarValues);
    assert Get(a, Tags) == Get(b, Tags) && Get(a, ExcludedTags) == Get(b, ExcludedTags);
    assert Get(a, ServiceAliases) == Get(b, ServiceAliases) && Get(a, Services) == Get(b, Services);
    assert Get(a, ClientCertHosts) == Get(b, ClientCertHosts) && Get(a, ClientCerts) == Get(b, ClientCerts);
    assert Get(a, ClientKeys) == Get(b, ClientKeys) && Get(a, ClientPassphrases) == Get(b, ClientPassphrases);
    assert Get(a, SkipHeaders) == Get(b, SkipHeaders);
  }

  lemma {:induction false} MoreScalars(o: Options, field: Field, xs: seq<string>)
    ensures More(o, field, xs).scalars == o.scalars
  {
  }

  lemma {:induction false} GetMore(o: Options, field: Field, xs: seq<string>)
    ensures forall f :: Get(More(o, field, xs), f) == if f == field then Get(o, f) + xs else Get(o, f)
  {
    forall f ensures Get(More(o, field, xs), f) == if f == field then Get(o, f) + xs else Get(o, f) {
      match f case VarNames => case _ =>
    }
  }

  lemma {:induction false} ScalarsOnly(o: Options, s: Scalars)
    ensures forall f :: Get(o.(scalars := s), f) == Get(o, f)
  {
    forall f ensures Get(o.(scalars := s), f) == Get(o, f) {
      match f case VarNames => case _ =>
    }
  }

  /** Four appends are one client certificate. */
  lemma {:induction false} MoreClientCert(o: Options, host: string, cert: Handle, key: Handle, passphrase: Handle)
    ensures More(More(More(More(o, ClientCertHosts, [host]), ClientCerts, [cert]), ClientKeys, [key]),
                 ClientPassphrases, [passphrase])
         == o.(clientCertHosts := o.clientCertHosts + [host], clientCerts := o.clientCerts + [cert],
               clientKeys := o.clientKeys + [key], clientPassphrases := o.clientPassphrases + [passphrase])
  {
  }

  // ------------------------------------------------------------ slices by field

  ghost function ArraysOf(m: map<Field, Slice>): set<array<string>> {
    set f, a | f in m && a in m[f].Arrays() :: a
  }

  /** The slices hold the value's lists. */
  ghost predicate Fits(m: map<Field, Slice>, o: Options)
    reads ArraysOf(m)
  {
    forall f :: f in m ==> m[f].Valid() && m[f].View() == Get(o, f)
  }

  /** No two fields share an array. */
  ghost predicate Apart(m: map<Field, Slice>) {
    forall f, g :: f in m && g in m && f != g ==> m[f].Arrays() !! m[g].Arrays()
  }

  method CopyField(from: map<Field, Slice>, own: map<Field, Slice>, field: Field, ghost o: Options)
    returns (r: map<Field, Slice>)
    requires field in from && Fits(from, o) && Fits(own, o) && Apart(own)
    ensures r.Keys == own.Keys + {field} && Fits(r, o) && Apart(r)
    ensures forall a :: a in ArraysOf(r) ==> a in ArraysOf(own) || fresh(a)
  {
    var slice := Copied(from[field]);
    r := own[field := slice];
  }

  /** An append to one field's slice, seen from the other fields. */
  method AppendBeside(own: map<Field, Slice>, field: Field, xs: seq<string>) returns (slice: Slice)
    requires field in own && (forall f :: f in own ==> own[f].Valid()) && Apart(own)
    modifies own[field].Arrays()
    ensures slice.Valid() && slice.View() == old(own[field].View()) + xs
    ensures slice.Arrays() == own[field].Arrays() || fresh(slice.Arrays())
    ensures forall f :: f in own && f != field ==> own[f].View() == old(own[f].View())
  {
    slice := Append(own[field], xs);
  }

  method AppendField(own: map<Field, Slice>, field: Field, xs: seq<string>, ghost o: Options)
    returns (r: map<Field, Slice>)
    requires field in own && Fits(own, o) && Apart(own)
    modifies own[field].Arrays()
    ensures r.Keys == own.Keys && Apart(r) && forall f :: f in r ==> r[f].Valid()
    ensures forall f :: f in r ==> r[f].View() == if f == field then Get(o, f) + xs else Get(o, f)
    ensures forall a :: a in ArraysOf(r) ==> a in ArraysOf(own) || fresh(a)
  {
    var slice := AppendBeside(own, field, xs);
    r := own[field := slice];
  }

  method AppendFits(own: map<Field, Slice>, field: Field, xs: seq<string>, ghost o: Options)
    returns (r: map<Field, Slice>)
    requires field in own && Fits(own, o) && Apart(own)
    modifies own[field].Arrays()
    ensures r.Keys == own.Keys && Fits(r, More(o, field, xs)) && Apart(r)
    ensures forall a :: a in ArraysOf(r) ==> a in ArraysOf(own) || fresh(a)
  {
    r := AppendField(own, field, xs, o);
    GetMore(o, field, xs);
  }

  class Collection {
    var scalars: Scalars
    var lists: map<Field, Slice>
    /** What the fields were set to when the collection was made. */
    ghost var value: Options

    /** The arrays its slices may lie in. */
    ghost var repr: set<array<string>>

    /** The slices hold, in whatever their arrays hold by now, the collection's value. */
    ghost predicate Valid()
      reads this, repr
    {
      ArraysOf(lists) <= repr && (forall f: Field :: f in lists) && scalars == value.scalars && Fits(lists, value)
    }

    /** `Bruno.Collection`: everything but the source and the sandbox is a zero value. */
    constructor (source: Handle)
      ensures Valid() && repr == {} && value == Empty(source)
      ensures value.scalars == Scalars(source, "", NIL, NIL, "safe", false, NIL, false, false, false, 0,
                                       false, false, false, false, false)
      ensures forall f :: Get(value, f) == []
    {
      scalars := Empty(source).scalars;
      lists := map f: Field | f in FIELDS :: Nil;
      value, repr := Empty(source), {};
      new;
      forall f: Field ensures f in FIELDS {
        AllFields(f);
      }
    }

    /** The struct copied field by field; the slices still share their arrays. */
    constructor Copy(c: Collection)
      ensures scalars == c.scalars && lists == c.lists && value == c.value && repr == c.repr
    {
      scalars, lists, value, repr := c.scalars, c.lists, c.value, c.repr;
    }

    method OwnLists() returns (own: map<Field, Slice>)
      requires Valid()
      ensures (forall f: Field :: f in own) && Fits(own, value) && Apart(own) && fresh(ArraysOf(own))
    {
      own := map[];
      for i := 0 to |FIELDS|
        invariant forall f: Field :: f in own <==> f in FIELDS[..i]
        invariant Fits(own, value) && Apart(own) && fresh(ArraysOf(own))
      {
        assert FIELDS[..i + 1] == FIELDS[..i] + [FIELDS[i]];
        own := CopyField(lists, own, FIELDS[i], value);
      }
      assert FIELDS[..|FIELDS|] == FIELDS;
      forall f: Field ensures f in own {
        AllFields(f);
      }
    }

    /** `clone`: a copy of the struct, then a copy of the array behind every slice. */
    method Clone() returns (out: Collection)
      requires Valid()
      ensures fresh(out) && out.Valid() && Apart(out.lists) && fresh(out.repr)
      ensures out.value == value
    {
      out := new Collection.Copy(this);
      out.lists := OwnLists();
      out.repr := ArraysOf(out.lists);
    }

    /** `out.field = append(out.field, xs...)`. */
    method Extend(field: Field, xs: seq<string>)
      requires Valid() && Apart(lists)
      modifies this, repr
      ensures Valid() && Apart(lists) && fresh(repr - old(repr))
      ensures value == More(old(value), field, xs)
    {
      MoreScalars(value, field, xs);
      ghost var after := More(value, field, xs);
      var r := AppendFits(lists, field, xs, value);
      Install(r, after);
    }

    /** The slices replaced, and the value with them. */
    method Install(r: map<Field, Slice>, ghost after: Options)
      requires (forall f: Field :: f in r) && Fits(r, after) && after.scalars == scalars
      modifies this
      ensures Valid() && lists == r && value == after && repr == old(repr) + ArraysOf(r)
    {
      lists, value, repr := r, after, repr + ArraysOf(r);
      assert Fits(r, after);
    }

    method ExtendBoth(first: Field, x: string, second: Field, y: string)
      requires Valid() && Apart(lists)
      modifies this, repr
      ensures Valid() && Apart(lists) && fresh(repr - old(repr))
      ensures value == More(More(old(value), first, [x]), second, [y])
    {
      Extend(first, [x]);
      Extend(second, [y]);
    }

    /** `out.field = ...`, for fields that are not slices. */
    method Set(s: Scalars)
      requires Valid()
      modifies this
      ensures Valid() && repr == old(repr) && value == old(value).(scalars := s)
    {
      ScalarsOnly(value, s);
      scalars, value := s, value.(scalars := s);
    }

    /** What a run reads from the slices now. */
    method Read() returns (o: Options)
      requires Valid()
      ensures o == value
    {
      o := Options(scalars, lists[VarNames].View(), lists[VarValues].View(),
                   lists[SecretVarNames].View(), lists[SecretVarValues].View(),
                   lists[Tags].View(), lists[ExcludedTags].View(),
                   lists[ServiceAliases].View(), lists[Services].View(),
                   lists[ClientCertHosts].View(), lists[ClientCerts].View(), lists[ClientKeys].View(),
                   lists[ClientPassphrases].View(), lists[SkipHeaders].View());
      forall f: Field ensures Get(o, f) == Get(value, f) {
        match f case VarNames => case _ =>
      }
      SameFields(o, value);
    }

    // ---------------------------------------------------------- builders

    method WithEnvironment(name: string) returns (out: Collection)
      requires Valid()
      ensures fresh(out) && out.Valid() && fresh(out.repr)
      ensures out.value == value.(scalars := value.scalars.(environment := name))
      ensures out.value == Apply(value, Op.WithEnvironment(name))
    {
      out := Clone();
      out.Set(out.scalars.(environment := name));
    }

    method WithVar(name: string, v: string) returns (out: Collection)
      requires Valid()
      ensures fresh(out) && out.Valid() && fresh(out.repr)
      ensures out.value == value.(varNames := value.varNames + [name], varValues := value.varValues + [v])
      ensures out.value == Apply(value, Op.WithVar(name, v))
    {
      out := Clone();
      out.ExtendBoth(VarNames, name, VarValues, v);
    }

    method WithSecretVar(name: string, secret: Handle) returns (out: Collection)
      requires Valid()
      ensures fresh(out) && out.Valid() && fresh(out.repr)
      ensures out.value == value.(secretVarNames := value.secretVarNames + [name],
                                   secretVarValues := value.secretVarValues + [secret])
      ensures out.value == Apply(value, Op.WithSecretVar(name, secret))
    {
      out := Clone();
      out.ExtendBoth(SecretVarNames, name, SecretVarValues, secret);
    }

    method WithEnvFile(file: Handle) returns (out: Collection)
      requires Valid()
      ensures fresh(out) && out.Valid() && fresh(out.repr)
      ensures out.value == value.(scalars := value.scalars.(envFile := file))
      ensures out.value == Apply(value, Op.WithEnvFile(file))
    {
      out := Clone();
      out.Set(out.scalars.(envFile := file));
    }

    method WithData(file: Handle) returns (out: Collection)
      requires Valid()
      ensures fresh(out) && out.Valid() && fresh(out.repr)
      ensures out.value == value.(scalars := value.scalars.(dataFile := file))
      ensures out.value == Apply(value, Op.WithData(file))
    {
      out := Clone();
      out.Set(out.scalars.(dataFile := file));
    }

    method WithTags(tags: seq<string>) returns (out: Collection)
      requires Valid()
      ensures fresh(out) && out.Valid() && fresh(out.repr)
      ensures out.value == value.(tags := value.tags + tags)
      ensures out.value == Apply(value, Op.WithTags(tags))
    {
      out := Clone();
      out.Extend(Tags, tags);
    }

    method WithoutTags(tags: seq<string>) returns (out: Collection)
      requires Valid()
      ensures fresh(out) && out.Valid() && fresh(out.repr)
      ensures out.value == value.(excludedTags := value.excludedTags + tags)
      ensures out.value == Apply(value, Op.WithoutTags(tags))
    {
      out := Clone();
      out.Extend(ExcludedTags, tags);
    }

    method WithService(alias: string, service: Handle) returns (out: Collection)
      requires Valid()
      ensures fresh(out) && out.Valid() && fresh(out.repr)
      ensures out.value == value.(serviceAliases := value.serviceAliases + [alias],
                                   services := value.services + [service])
      ensures out.value == Apply(value, Op.WithService(alias, service))
    {
      out := Clone();
      out.ExtendBoth(ServiceAliases, alias, Services, service);
    }

    method WithSandbox(mode: string) returns (out: Collection)
      requires Valid()
      ensures fresh(out) && out.Valid() && fresh(out.repr)
      ensures out.value == value.(scalars := value.scalars.(sandbox := mode))
      ensures out.value == Apply(value, Op.WithSandbox(mode))
    {
      out := Clone();
      out.Set(out.scalars.(sandbox := mode));
    }

    method WithInsecure() returns (out: Collection)
      requires Valid()
      ensures fresh(out) && out.Valid() && fresh(out.repr)
      ensures out.value == value.(scalars := value.scalars.(insecure := true))
      ensures out.value == Apply(value, Op.WithInsecure)
    {
      out := Clone();
      out.Set(out.scalars.(insecure := true));
    }

    method WithTestsOnly() returns (out: Collection)
      requires Valid()
      ensures fresh(out) && out.Valid() && fresh(out.repr)
      ensures out.value == value.(scalars := value.scalars.(testsOnly := true))
      ensures out.value == Apply(value, Op.WithTestsOnly)
    {
      out := Clone();
      out.Set(out.scalars.(testsOnly := true));
    }

    method WithBail() returns (out: Collection)
      requires Valid()
      ensures fresh(out) && out.Valid() && fresh(out.repr)
      ensures out.value == value.(scalars := value.scalars.(bail := true))
      ensures out.value == Apply(value, Op.WithBail)
    {
      out := Clone();
      out.Set(out.scalars.(bail := true));
    }

    method WithDelay(milliseconds: int) returns (out: Collection)
      requires Valid()
      ensures fresh(out) && out.Valid() && fresh(out.repr)
      ensures out.value == value.(scalars := value.scalars.(delay := milliseconds))
      ensures out.value == Apply(value, Op.WithDelay(milliseconds))
    {
      out := Clone();
      out.Set(out.scalars.(delay := milliseconds));
    }

    method WithCaCert(cert: Handle) returns (out: Collection)
      requires Valid()
      ensures fresh(out) && out.Valid() && fresh(out.repr)
      ensures out.value == value.(scalars := value.scalars.(caCert := cert))
      ensures out.value == Apply(value, Op.WithCaCert(cert))
    {
      out := Clone();
      out.Set(out.scalars.(caCert := cert));
    }

    method WithoutTruststore() returns (out: Collection)
      requires Valid()
      ensures fresh(out) && out.Valid() && fresh(out.repr)
      ensures out.value == value.(scalars := value.scalars.(ignoreTruststore := true))
      ensures out.value == Apply(value, Op.WithoutTruststore)
    {
      out := Clone();
      out.Set(out.scalars.(ignoreTruststore := true));
    }

    method WithClientCert(host: string, cert: Handle, key: Handle, passphrase: Handle) returns (out: Collection)
      requires Valid()
      ensures fresh(out) && out.Valid() && fresh(out.repr)
      ensures out.value == value.(
        clientCertHosts := value.clientCertHosts + [host], clientCerts := value.clientCerts + [cert],
        clientKeys := value.clientKeys + [key], clientPassphrases := value.clientPassphrases + [passphrase])
      ensures out.value == Apply(value, Op.WithClientCert(host, cert, key, passphrase))
    {
      hide Valid, Apart, More;
      MoreClientCert(value, host, cert, key, passphrase);
      out := Clone();
      out.ExtendBoth(ClientCertHosts, host, ClientCerts, cert);
      out.ExtendBoth(ClientKeys, key, ClientPassphrases, passphrase);
    }

    method WithoutHeaders(names: seq<string>) returns (out: Collection)
      requires Valid()
      ensures fresh(out) && out.Valid() && fresh(out.repr)
      ensures out.value == value.(skipHeaders := value.skipHeaders + names)
      ensures out.value == Apply(value, Op.WithoutHeaders(names))
    {
      hide Valid, Apart;
      out := Clone();
      out.Extend(SkipHeaders, names);
    }

    method WithoutAllHeaders() returns (out: Collection)
      requires Valid()
      ensures fresh(out) && out.Valid() && fresh(out.repr)
      ensures out.value == value.(scalars := value.scalars.(skipAllHeaders := true))
      ensures out.value == Apply(value, Op.WithoutAllHeaders)
    {
      out := Clone();
      out.Set(out.scalars.(skipAllHeaders := true));
    }

    method WithoutRequestBody() returns (out: Collection)
      requires Valid()
      ensures fresh(out) && out.Valid() && fresh(out.repr)
      ensures out.value == value.(scalars := value.scalars.(skipRequestBody := true))
      ensures out.value == Apply(value, Op.WithoutRequestBody)
    {
      out := Clone();
      out.Set(out.scalars.(skipRequestBody := true));
    }

    method WithoutResponseBody() returns (out: Collection)
      requires Valid()
      ensures fresh(out) && out.Valid() && fresh(out.repr)
      ensures out.value == value.(scalars := value.scalars.(skipResponseBody := true))
      ensures out.value == Apply(value, Op.WithoutResponseBody)
    {
      out := Clone();
      out.Set(out.scalars.(skipResponseBody := true));
    }

    method WithoutBodies() returns (out: Collection)
      requires Valid()
      ensures fresh(out) && out.Valid() && fresh(out.repr)
      ensures out.value == value.(scalars := value.scalars.(skipBodies := true))
      ensures out.value == Apply(value, Op.WithoutBodies)
    {
      out := Clone();
      out.Set(out.scalars.(skipBodies := true));
    }

    method WithUnredactedReport() returns (out: Collection)
      requires Valid()
      ensures fresh(out) && out.Valid() && fresh(out.repr)
      ensures out.value == value.(scalars := value.scalars.(unredacted := true))
      ensures out.value == Apply(value, Op.WithUnredactedReport)
    {
      out := Clone();
      out.Set(out.scalars.(unredacted := true));
    }

    method Call(op: Op) returns (out: Collection)
      requires Valid()
      ensures fresh(out) && out.Valid() && fresh(out.repr)
      ensures out.value == Apply(value, op)
    {
      match op
      case WithEnvironment(name) => out := WithEnvironment(name);
      case WithVar(name, v) => out := WithVar(name, v);
      case WithSecretVar(name, secret) => out := WithSecretVar(name, secret);
      case WithEnvFile(file) => out := WithEnvFile(file);
      case WithData(file) => out := WithData(file);
      case WithTags(tags) => out := WithTags(tags);
      case WithoutTags(tags) => out := WithoutTags(tags);
      case WithService(alias, service) => out := WithService(alias, service);
      case WithSandbox(mode) => out := WithSandbox(mode);
      case WithDelay(milliseconds) => out := WithDelay(milliseconds);
      case WithCaCert(cert) => out := WithCaCert(cert);
      case WithClientCert(host, cert, key, passphrase) => out := WithClientCert(host, cert, key, passphrase);
      case WithoutHeaders(names) => out := WithoutHeaders(names);
      case WithInsecure => out := WithInsecure();
      case WithTestsOnly => out := WithTestsOnly();
      case WithBail => out := WithBail();
      case WithoutTruststore => out := WithoutTruststore();
      case WithoutAllHeaders => out := WithoutAllHeaders();
      case WithoutRequestBody => out := WithoutRequestBody();
      case WithoutResponseBody => out := WithoutResponseBody();
      case WithoutBodies => out := WithoutBodies();
      case WithUnredactedReport => out := WithUnredactedReport();
    }
  }

  /** A run of builder calls, each on any collection made so far. When it is over every
      collection, however early it was made, still holds what it was made with. */
  method Run(source: Handle, script: seq<Step>) returns (made: seq<Collection>)
    requires Runnable(script)
    ensures |made| == |script| + 1
    ensures forall k :: 0 <= k < |made| ==> made[k].Valid() && made[k].value == History(source, script)[k]
  {
    var first := new Collection(source);
    made := [first];
    for i := 0 to |script|
      invariant |made| == i + 1
      invariant forall k :: 0 <= k <= i ==> made[k].Valid() && made[k].value == History(source, script[..i])[k]
    {
      HistorySnoc(source, script, i);
      var out := made[script[i].parent].Call(script[i].op);
      made := made + [out];
    }
    assert script[..|script|] == script;
  }

  /** The same run, and then every collection read: the heap of shared slices computes the
      persistent history. */
  method Replay(source: Handle, script: seq<Step>) returns (held: seq<Options>)
    requires Runnable(script)
    ensures held == History(source, script)
  {
    var made := Run(source, script);
    held := [];
    for k := 0 to |made|
      invariant forall j :: 0 <= j < |made| ==> made[j].Valid() && made[j].value == History(source, script)[j]
      invariant |held| == k && forall j :: 0 <= j < k ==> held[j] == History(source, script)[j]
    {
      var o := made[k].Read();
      held := held + [o];
    }
  }
}
