/** daggerverse/bruno: where a run stages the environment and the data file, by their extensions. */
module BruStaging {
  import opened Text
  import opened BruOptions

  const ENV_PREFIX := "/tmp/bruno-env-file"
  const DATA_PREFIX := "/tmp/bruno-data-file"

  /** The paths of the two files, and the flag of the second; empty when there is none. */
  datatype Staged = Staged(envFile: string, dataFlag: string, dataFile: string)

  /** `filepath.Ext`: from the last dot of the last path element. */
  function Ext(name: string): string {
    if name == "" || name[|name| - 1] == '/' then ""
    else if name[|name| - 1] == '.' then "."
    else
      var before := Ext(name[..|name| - 1]);
      if before == "" then "" else before + [name[|name| - 1]]
  }

  /** `strings.ToLower`, for telling ASCII extensions apart. */
  function Lower(s: string): string {
    if s == "" then ""
    else [if 'A' <= s[0] <= 'Z' then (s[0] as int + 32) as char else s[0]] + Lower(s[1..])
  }

  /** `stage`: an extension `bru` has no parser for is refused. */
  function Stage(o: Options, envName: string, dataName: string): Option<Staged> {
    var envExt, dataExt := Lower(Ext(envName)), Lower(Ext(dataName));
    var hasEnv, hasData := o.scalars.envFile != NIL, o.scalars.dataFile != NIL;
    if hasEnv && envExt != ".bru" && envExt != ".json" then None
    else if hasData && dataExt != ".csv" && dataExt != ".json" then None
    else
      Some(Staged(if hasEnv then ENV_PREFIX + envExt else "",
                  if !hasData then "" else if dataExt == ".csv" then "--csv-file-path" else "--json-file-path",
                  if hasData then DATA_PREFIX + dataExt else ""))
  }

  /** A name ends in a dot and an extension, the extension in letters of any case. */
  ghost predicate NamedWith(name: string, ext: string) {
    exists stem, tail :: name == stem + ("." + tail) && AnyCase(tail, ext)
  }

  predicate AnyCase(s: string, lower: string) {
    |s| == |lower| && forall k :: 0 <= k < |s| ==>
      s[k] == lower[k] || ('A' <= s[k] <= 'Z' && s[k] as int - 'A' as int == lower[k] as int - 'a' as int)
  }

  /** What the extensions of the two files make of their paths. */
  ghost predicate StagedAs(o: Options, envName: string, dataName: string, paths: Staged) {
    && (if o.scalars.envFile == NIL then paths.envFile == ""
        else || (NamedWith(envName, "bru") && paths.envFile == "/tmp/bruno-env-file.bru")
             || (NamedWith(envName, "json") && paths.envFile == "/tmp/bruno-env-file.json"))
    && (if o.scalars.dataFile == NIL then paths.dataFile == "" && paths.dataFlag == ""
        else || (NamedWith(dataName, "csv")
                 && paths.dataFlag == "--csv-file-path" && paths.dataFile == "/tmp/bruno-data-file.csv")
             || (NamedWith(dataName, "json")
                 && paths.dataFlag == "--json-file-path" && paths.dataFile == "/tmp/bruno-data-file.json"))
  }

  lemma {:induction false} LowerExactly(s: string, lower: string)
    requires forall k :: 0 <= k < |lower| ==> 'a' <= lower[k] <= 'z'
    ensures Lower(s) == lower <==> AnyCase(s, lower)
  {
    if s != "" && lower != "" {
      LowerExactly(s[1..], lower[1..]);
      assert lower == [lower[0]] + lower[1..];
      assert AnyCase(s, lower) ==> AnyCase(s[1..], lower[1..]);
      assert s == [s[0]] + s[1..];
    }
  }

  lemma {:induction false} ExtIs(stem: string, tail: string)
    requires '.' !in tail && '/' !in tail
    ensures Ext(stem + ("." + tail)) == "." + tail
  {
    var name := stem + ("." + tail);
    if tail != "" {
      var n := |tail| - 1;
      ExtIs(stem, tail[..n]);
      assert name[..|name| - 1] == stem + ("." + tail[..n]);
      assert name[|name| - 1] == tail[n] && tail == tail[..n] + [tail[n]];
    }
  }

  lemma {:induction false} ExtEnds(name: string) returns (stem: string)
    ensures name == stem + Ext(name)
    ensures Ext(name) != "" ==> Ext(name)[0] == '.'
  {
    if name == "" || name[|name| - 1] == '/' {
      stem := name;
    } else if name[|name| - 1] == '.' {
      stem := name[..|name| - 1];
    } else {
      var before := ExtEnds(name[..|name| - 1]);
      stem := if Ext(name) == "" then name else before;
      assert name == name[..|name| - 1] + [name[|name| - 1]];
      Assoc(before, Ext(name[..|name| - 1]), [name[|name| - 1]]);
    }
  }

  /** The lowered extension of a name is what the name ends in. */
  lemma {:induction false} ExtensionExactly(name: string, ext: string)
    requires forall k :: 0 <= k < |ext| ==> 'a' <= ext[k] <= 'z'
    ensures Lower(Ext(name)) == "." + ext <==> NamedWith(name, ext)
  {
    if stem, tail :| name == stem + ("." + tail) && AnyCase(tail, ext) {
      assert forall c :: c in tail ==> c != '.' && c != '/';
      ExtIs(stem, tail);
      LowerExactly(tail, ext);
      LowerDotted(tail);
    }
    if Lower(Ext(name)) == "." + ext {
      var stem := ExtEnds(name);
      var e := Ext(name);
      assert e == "." + e[1..];
      LowerDotted(e[1..]);
      assert ("." + Lower(e[1..]))[1..] == Lower(e[1..]) && ("." + ext)[1..] == ext;
      LowerExactly(e[1..], ext);
    }
  }

  lemma {:induction false} LowerDotted(s: string)
    ensures Lower("." + s) == "." + Lower(s)
  {
    assert ("." + s)[1..] == s;
  }

  /** Staging succeeds with these paths, and fails when an extension is none of the known. */
  lemma {:induction false} StageExactly(o: Options, envName: string, dataName: string, paths: Staged)
    ensures Stage(o, envName, dataName) == Some(paths) <==> StagedAs(o, envName, dataName, paths)
    ensures Stage(o, envName, dataName).None? <==>
      || (o.scalars.envFile != NIL && !NamedWith(envName, "bru") && !NamedWith(envName, "json"))
      || (o.scalars.dataFile != NIL && !NamedWith(dataName, "csv") && !NamedWith(dataName, "json"))
  {
    hide NamedWith, Lower, Ext;
    assert "." + "bru" == ".bru" && "." + "csv" == ".csv" && "." + "json" == ".json";
    forall name
      ensures Lower(Ext(name)) == ".bru" <==> NamedWith(name, "bru")
      ensures Lower(Ext(name)) == ".csv" <==> NamedWith(name, "csv")
      ensures Lower(Ext(name)) == ".json" <==> NamedWith(name, "json")
    {
      ExtensionExactly(name, "bru");
      ExtensionExactly(name, "csv");
      ExtensionExactly(name, "json");
    }
    assert ENV_PREFIX + ".bru" == "/tmp/bruno-env-file.bru" && ENV_PREFIX + ".json" == "/tmp/bruno-env-file.json";
    assert DATA_PREFIX + ".csv" == "/tmp/bruno-data-file.csv" && DATA_PREFIX + ".json" == "/tmp/bruno-data-file.json";
    assert ".bru"[1] != ".json"[1] && ".csv"[1] != ".json"[1];
  }

  /** Paths that staging can give. */
  predicate StagedFor(o: Options, paths: Staged) {
    && (o.scalars.envFile != NIL ==> paths.envFile == ENV_PREFIX + ".bru" || paths.envFile == ENV_PREFIX + ".json")
    && (o.scalars.dataFile != NIL ==> paths.dataFile == DATA_PREFIX + ".csv" || paths.dataFile == DATA_PREFIX + ".json")
  }
}
