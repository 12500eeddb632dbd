/** daggerverse/bruno: the linter rule that every `{{name}}` reference of a collection resolves. */
module BruLint {
  import opened Text
  import opened BruParse
  import opened BruReferences

  /** One .bru file. `setVars` are the names its scripts hand to `bru.setVar`. */
  datatype File = File(path: string, setVars: seq<string>, blocks: seq<Block>)

  datatype Collection = Collection(
    environments: seq<File>, settings: Option<File>, folders: seq<File>, requests: seq<File>, supplied: seq<string>)

  // ------------------------------------------------------------ reading blocks

  function FirstBlock(blocks: seq<Block>, name: string): Option<Block> {
    if blocks == [] then None
    else if blocks[0].name == name then Some(blocks[0])
    else FirstBlock(blocks[1..], name)
  }

  function ValueOf(body: seq<Entry>, key: string): Option<string> {
    if body == [] then None
    else if body[0].key == key then Some(body[0].value)
    else ValueOf(body[1..], key)
  }

  /** What the first entry under a key holds. */
  ghost predicate ValueIs(body: seq<Entry>, key: string, value: string) {
    exists k :: 0 <= k < |body| && body[k].key == key && body[k].value == value
                && forall j :: 0 <= j < k ==> body[j].key != key
  }

  lemma {:induction false} ValueOfExactly(body: seq<Entry>, key: string, value: string)
    ensures ValueOf(body, key) == Some(value) <==> ValueIs(body, key, value)
  {
    if body != [] {
      ValueOfExactly(body[1..], key, value);
      if k :| 0 <= k < |body| - 1 && body[1..][k].key == key && body[1..][k].value == value
              && forall j :: 0 <= j < k ==> body[1..][j].key != key {
        assert body[k + 1] == body[1..][k];
        assert body[0].key != key ==> forall j :: 0 <= j < k + 1 ==> body[j].key != key by {
          forall j | 0 < j < k + 1 ensures body[j].key != key {
            assert body[1..][j - 1] == body[j];
          }
        }
      }
      if k :| 0 <= k < |body| && body[k].key == key && body[k].value == value
              && forall j :: 0 <= j < k ==> body[j].key != key {
        if k > 0 {
          assert body[1..][k - 1] == body[k];
          assert forall j :: 0 <= j < k - 1 ==> body[1..][j] == body[j + 1];
        }
      }
    }
  }

  lemma {:induction false} ValueOfNone(body: seq<Entry>, key: string)
    ensures ValueOf(body, key).None? <==> forall e :: e in body ==> e.key != key
  {
    if body != [] {
      ValueOfNone(body[1..], key);
      assert forall e :: e in body <==> e == body[0] || e in body[1..];
    }
  }

  predicate VarsBlock(name: string) {
    name == "vars" || HasPrefix(name, "vars:")
  }

  function Keys(body: seq<Entry>): seq<string> {
    if body == [] then []
    else (if body[0].key != "" then [body[0].key] else []) + Keys(body[1..])
  }

  /** `varNames`. */
  function VarNames(blocks: seq<Block>): seq<string> {
    if blocks == [] then []
    else (if VarsBlock(blocks[0].name) then Keys(blocks[0].body) else []) + VarNames(blocks[1..])
  }

  /** A file declares a name in any entry of any of its vars blocks, disabled or not. */
  ghost predicate Declares(blocks: seq<Block>, name: string) {
    exists b, e :: b in blocks && VarsNamed(b) && e in b.body && e.key != "" && e.key == name
  }

  /** `vars`, or `vars:` and what it is for. */
  predicate VarsNamed(b: Block) {
    b.name == "vars" || (|b.name| >= 5 && b.name[..5] == "vars:")
  }

  lemma {:induction false} KeysExactly(body: seq<Entry>, name: string)
    ensures name in Keys(body) <==> exists e :: e in body && e.key != "" && e.key == name
  {
    if body != [] {
      KeysExactly(body[1..], name);
      assert forall e :: e in body <==> e == body[0] || e in body[1..];
    }
  }

  lemma {:induction false} VarNamesExactly(blocks: seq<Block>, name: string)
    ensures name in VarNames(blocks) <==> Declares(blocks, name)
  {
    if blocks != [] {
      VarNamesExactly(blocks[1..], name);
      KeysExactly(blocks[0].body, name);
      assert forall b :: b in blocks <==> b == blocks[0] || b in blocks[1..];
    }
  }

  // ------------------------------------------------------------ paths

  /** The last position of a character, or -1. */
  function LastIndex(s: string, c: char): (n: int)
    ensures -1 <= n < |s|
    ensures n >= 0 ==> s[n] == c
    ensures forall k :: n < k < |s| ==> s[k] != c
  {
    if s == "" then -1
    else if s[|s| - 1] == c then |s| - 1
    else LastIndex(s[..|s| - 1], c)
  }

  const ROOT_FOLDER := "."

  /** `path.Dir` of a clean relative path. */
  function Dir(p: string): string {
    if LastIndex(p, '/') < 0 then ROOT_FOLDER else p[..LastIndex(p, '/')]
  }

  /** `path.Base` of such a path. */
  function Base(p: string): string {
    p[LastIndex(p, '/') + 1..]
  }

  /** The file's name without its folder and its extension. */
  function Stem(p: string): string {
    Bare(Base(p))
  }

  function Bare(base: string): string {
    if LastIndex(base, '.') < 0 then base else base[..LastIndex(base, '.')]
  }

  /** The last of a character is the one with none behind it. */
  lemma {:induction false} LastIndexIs(a: string, c: char, b: string)
    requires c !in b
    ensures LastIndex(a + [c] + b, c) == |a|
    ensures (a + [c] + b)[..|a|] == a && (a + [c] + b)[|a| + 1..] == b
  {
    var s := a + [c] + b;
    assert s[|a|] == c;
    forall k | |a| < k < |s| ensures s[k] != c {
      assert s[k] == b[k - |a| - 1];
    }
  }

  lemma {:induction false} AroundLast(s: string, c: char)
    requires LastIndex(s, c) >= 0
    ensures var n := LastIndex(s, c); s == s[..n] + [c] + s[n + 1..] && c !in s[n + 1..]
  {
    hide LastIndex;
    var n := LastIndex(s, c);
    var tail := s[n + 1..];
    forall k | 0 <= k < |tail| ensures tail[k] != c {
      assert tail[k] == s[n + 1 + k];
    }
  }

  /** A file lies directly in a folder; the collection's own folder is `.`. */
  ghost predicate LiesIn(p: string, folder: string) {
    || ('/' !in p && folder == ".")
    || exists base :: '/' !in base && p == folder + "/" + base
  }

  lemma {:induction false} DirExactly(p: string, folder: string)
    ensures LiesIn(p, folder) <==> folder == Dir(p)
  {
    hide LastIndex;
    if LastIndex(p, '/') >= 0 {
      AroundLast(p, '/');
      assert p == Dir(p) + "/" + Base(p);
    }
    if base :| '/' !in base && p == folder + "/" + base {
      LastIndexIs(folder, '/', base);
    }
  }

  /** The parts of a path around its stem. */
  predicate StemParts(p: string, folder: string, stem: string, ext: string) {
    && p == folder + (stem + ext) && '/' !in stem + ext
    && (folder == "" || folder[|folder| - 1] == '/')
    && (if ext == "" then '.' !in stem else ext[0] == '.' && '.' !in ext[1..])
  }

  /** A file whose name, without its folder and its extension, is `stem`. */
  ghost predicate NamedFor(p: string, stem: string) {
    exists folder, ext :: StemParts(p, folder, stem, ext)
  }

  lemma {:induction false} BaseIs(folder: string, base: string)
    requires '/' !in base && (folder == "" || folder[|folder| - 1] == '/')
    ensures Base(folder + base) == base
  {
    hide LastIndex;
    if folder == "" {
      assert folder + base == base;
      assert LastIndex(base, '/') == -1;
    } else {
      var outer := folder[..|folder| - 1];
      assert folder == outer + ['/'];
      LastIndexIs(outer, '/', base);
    }
  }

  lemma {:induction false} BareIs(stem: string, ext: string)
    requires if ext == "" then '.' !in stem else ext[0] == '.' && '.' !in ext[1..]
    ensures Bare(stem + ext) == stem
  {
    hide LastIndex;
    if ext == "" {
      assert stem + ext == stem;
    } else {
      assert ext == ['.'] + ext[1..];
      assert stem + ext == stem + ['.'] + ext[1..];
      LastIndexIs(stem, '.', ext[1..]);
    }
  }

  lemma {:induction false} FolderOf(p: string) returns (folder: string)
    ensures p == folder + Base(p) && '/' !in Base(p)
    ensures folder == "" || folder[|folder| - 1] == '/'
  {
    hide LastIndex;
    var n := LastIndex(p, '/');
    if n >= 0 {
      AroundLast(p, '/');
      folder := p[..n] + ['/'];
    } else {
      folder := "";
      assert Base(p) == p && folder + p == p;
    }
  }

  lemma {:induction false} ExtensionOf(base: string) returns (ext: string)
    ensures base == Bare(base) + ext
    ensures if ext == "" then '.' !in Bare(base) else ext[0] == '.' && '.' !in ext[1..]
  {
    hide LastIndex;
    var m := LastIndex(base, '.');
    if m >= 0 {
      AroundLast(base, '.');
      ext := ['.'] + base[m + 1..];
      assert ext[1..] == base[m + 1..];
      Assoc(base[..m], ['.'], base[m + 1..]);
    } else {
      ext := "";
      assert base + ext == base;
    }
  }

  lemma {:induction false} PartsOf(p: string) returns (folder: string, ext: string)
    ensures StemParts(p, folder, Stem(p), ext)
  {
    hide Base, Bare;
    folder := FolderOf(p);
    ext := ExtensionOf(Base(p));
  }

  lemma {:induction false} StemExactly(p: string, stem: string)
    ensures NamedFor(p, stem) <==> stem == Stem(p)
  {
    hide LastIndex, StemParts;
    var folder, ext := PartsOf(p);
    if folder', ext' :| StemParts(p, folder', stem, ext') {
      StemFrom(p, folder', stem, ext');
    }
  }

  lemma {:induction false} StemFrom(p: string, folder: string, stem: string, ext: string)
    requires StemParts(p, folder, stem, ext)
    ensures stem == Stem(p)
  {
    hide LastIndex;
    BaseIs(folder, stem + ext);
    BareIs(stem, ext);
  }

  // ------------------------------------------------------------ scope

  /** The names `addAll` adds. */
  function Clean(names: seq<string>): set<string> {
    set n | n in names && TrimSpace(n) != "" :: TrimSpace(n)
  }

  predicate Selected(environment: string, f: File) {
    environment == "" || Stem(f.path) == environment
  }

  function EnvironmentVars(envs: seq<File>, environment: string): set<string> {
    if envs == [] then {}
    else
      var f := envs[|envs| - 1];
      EnvironmentVars(envs[..|envs| - 1], environment)
      + if Selected(environment, f) then Clean(VarNames(f.blocks)) else {}
  }

  function EveryFile(c: Collection): seq<File> {
    c.environments + c.folders + c.requests + if c.settings.Some? then [c.settings.value] else []
  }

  function ToSet(names: seq<string>): set<string> {
    set n | n in names
  }

  function ScriptVars(files: seq<File>): set<string> {
    if files == [] then {}
    else ScriptVars(files[..|files| - 1]) + ToSet(files[|files| - 1].setVars)
  }

  function GlobalScope(c: Collection, environment: string, overrides: seq<string>): set<string> {
    Clean(overrides) + Clean(c.supplied)
    + (if c.settings.Some? then Clean(VarNames(c.settings.value.blocks)) else {})
    + EnvironmentVars(c.environments, environment) + ScriptVars(EveryFile(c))
  }

  function AddFolder(m: map<string, set<string>>, f: File): map<string, set<string>> {
    var scope := Dir(f.path);
    m[scope := (if scope in m then m[scope] else {}) + Clean(VarNames(f.blocks))]
  }

  function FolderVars(folders: seq<File>): map<string, set<string>> {
    if folders == [] then map[]
    else AddFolder(FolderVars(folders[..|folders| - 1]), folders[|folders| - 1])
  }

  predicate Reaches(scope: string, p: string) {
    scope == ROOT_FOLDER || HasPrefix(p, scope + "/")
  }

  function Gather(m: map<string, set<string>>, scopes: set<string>, p: string): set<string> {
    set s, n | s in scopes && s in m && Reaches(s, p) && n in m[s] :: n
  }

  function Scope(c: Collection, environment: string, overrides: seq<string>, request: File): set<string> {
    var folders := FolderVars(c.folders);
    GlobalScope(c, environment, overrides) + Gather(folders, folders.Keys, request.path)
    + Clean(VarNames(request.blocks))
  }

  datatype RefFinding = RefFinding(file: string, line: nat, name: string)

  function Unresolved(refs: seq<Reference>, file: string, scope: set<string>): seq<RefFinding> {
    if refs == [] then []
    else
      var last := refs[|refs| - 1];
      Unresolved(refs[..|refs| - 1], file, scope)
      + if last.name in scope then [] else [RefFinding(file, last.line, last.name)]
  }

  function RequestFindings(c: Collection, environment: string, overrides: seq<string>, request: File): seq<RefFinding> {
    Unresolved(FirstRefs(RefsOfBlocks(request.blocks)), request.path, Scope(c, environment, overrides, request))
  }

  function Report(c: Collection, environment: string, overrides: seq<string>, requests: seq<File>): seq<RefFinding> {
    if requests == [] then []
    else
      Report(c, environment, overrides, requests[..|requests| - 1])
      + RequestFindings(c, environment, overrides, requests[|requests| - 1])
  }

  /** The environments that count: the selected one, or all of them. */
  method CollectEnvironments(envs: seq<File>, environment: string) returns (names: set<string>)
    ensures names == EnvironmentVars(envs, environment)
  {
    hide Selected, Clean, VarNames;
    names := {};
    for i := 0 to |envs|
      invariant names == EnvironmentVars(envs[..i], environment)
    {
      assert envs[..i + 1][..i] == envs[..i];
      if Selected(environment, envs[i]) {
        names := names + Clean(VarNames(envs[i].blocks));
      }
    }
    assert envs[..|envs|] == envs;
  }

  method CollectScripts(files: seq<File>) returns (names: set<string>)
    ensures names == ScriptVars(files)
  {
    names := {};
    for i := 0 to |files|
      invariant names == ScriptVars(files[..i])
    {
      assert files[..i + 1][..i] == files[..i];
      names := names + ToSet(files[i].setVars);
    }
    assert files[..|files|] == files;
  }

  method CollectFolders(folders: seq<File>) returns (folderVars: map<string, set<string>>)
    ensures folderVars == FolderVars(folders)
  {
    folderVars := map[];
    for i := 0 to |folders|
      invariant folderVars == FolderVars(folders[..i])
    {
      assert folders[..i + 1][..i] == folders[..i];
      folderVars := AddFolder(folderVars, folders[i]);
    }
    assert folders[..|folders|] == folders;
  }

  /** The folders above a request, visited in any order the map gives. */
  method CollectAbove(folderVars: map<string, set<string>>, p: string) returns (names: set<string>)
    ensures names == Gather(folderVars, folderVars.Keys, p)
  {
    names := {};
    var todo := folderVars.Keys;
    while todo != {}
      invariant todo <= folderVars.Keys
      invariant names == Gather(folderVars, folderVars.Keys - todo, p)
      decreases |todo|
    {
      var scope :| scope in todo;
      if Reaches(scope, p) {
        names := names + folderVars[scope];
      }
      todo := todo - {scope};
    }
    assert folderVars.Keys - {} == folderVars.Keys;
  }

  /** The names every request can resolve. */
  method CollectGlobal(c: Collection, environment: string, overrides: seq<string>) returns (global: set<string>)
    ensures global == GlobalScope(c, environment, overrides)
  {
    global := Clean(overrides) + Clean(c.supplied);
    if c.settings.Some? {
      global := global + Clean(VarNames(c.settings.value.blocks));
    }
    var fromEnvironments := CollectEnvironments(c.environments, environment);
    var fromScripts := CollectScripts(EveryFile(c));
    global := global + fromEnvironments + fromScripts;
  }

  /** The body of the loop over the requests. */
  method LintRequest(request: File, global: set<string>, folderVars: map<string, set<string>>)
      returns (findings: seq<RefFinding>)
    ensures findings == Unresolved(FirstRefs(RefsOfBlocks(request.blocks)), request.path,
                                   global + Gather(folderVars, folderVars.Keys, request.path)
                                       + Clean(VarNames(request.blocks)))
  {
    var above := CollectAbove(folderVars, request.path);
    var refs := References(request.blocks);
    findings := LintOne(refs, request.path, global + above + Clean(VarNames(request.blocks)));
  }

  lemma {:induction false} ReportOneMore(c: Collection, environment: string, overrides: seq<string>,
        requests: seq<File>, i: nat)
    requires i < |requests|
    ensures Report(c, environment, overrides, requests[..i + 1])
         == Report(c, environment, overrides, requests[..i]) + RequestFindings(c, environment, overrides, requests[i])
  {
    assert requests[..i + 1][..i] == requests[..i];
  }

  method LintOne(refs: seq<Reference>, file: string, defined: set<string>) returns (findings: seq<RefFinding>)
    ensures findings == Unresolved(refs, file, defined)
  {
    findings := [];
    for k := 0 to |refs|
      invariant findings == Unresolved(refs[..k], file, defined)
    {
      assert refs[..k + 1][..k] == refs[..k];
      if refs[k].name in defined {
        continue;
      }
      findings := findings + [RefFinding(file, refs[k].line, refs[k].name)];
    }
    assert refs[..|refs|] == refs;
  }

  // ------------------------------------------------------------ what is reported

  ghost predicate NamedBy(names: seq<string>, x: string) {
    x != "" && exists n :: n in names && TrimSpace(n) == x
  }

  ghost predicate DeclaredIn(f: File, x: string) {
    x != "" && exists k :: Declares(f.blocks, k) && TrimSpace(k) == x
  }

  /** The environment asked for, or any when none is. */
  ghost predicate Chosen(environment: string, f: File) {
    environment == "" || NamedFor(f.path, environment)
  }

  /** A folder's file speaks for the requests below that folder; the one at the top for all. */
  ghost predicate Above(f: File, request: File) {
    exists folder :: LiesIn(f.path, folder) &&
      (folder == "." || (|request.path| > |folder| && request.path[..|folder| + 1] == folder + "/"))
  }

  ghost predicate SetByScript(c: Collection, x: string) {
    || (exists f :: f in c.environments && x in f.setVars)
    || (exists f :: f in c.folders && x in f.setVars)
    || (exists f :: f in c.requests && x in f.setVars)
    || (c.settings.Some? && x in c.settings.value.setVars)
  }

  /** Everything a reference may resolve to, said without the tables the code builds. */
  ghost predicate InScope(c: Collection, environment: string, overrides: seq<string>, request: File, x: string) {
    || NamedBy(overrides, x) || NamedBy(c.supplied, x)
    || (c.settings.Some? && DeclaredIn(c.settings.value, x))
    || (exists f :: f in c.environments && Chosen(environment, f) && DeclaredIn(f, x))
    || SetByScript(c, x)
    || (exists f :: f in c.folders && Above(f, request) && DeclaredIn(f, x))
    || DeclaredIn(request, x)
  }

  lemma {:induction false} ChosenExactly(environment: string, f: File)
    ensures Chosen(environment, f) <==> Selected(environment, f)
  {
    StemExactly(f.path, environment);
  }

  lemma {:induction false} AboveExactly(f: File, request: File)
    ensures Above(f, request) <==> Reaches(Dir(f.path), request.path)
  {
    DirExactly(f.path, Dir(f.path));
    forall folder | LiesIn(f.path, folder) ensures folder == Dir(f.path) {
      DirExactly(f.path, folder);
    }
  }

  lemma {:induction false} CleanExactly(f: File, x: string)
    ensures x in Clean(VarNames(f.blocks)) <==> DeclaredIn(f, x)
  {
    forall k ensures k in VarNames(f.blocks) <==> Declares(f.blocks, k) {
      VarNamesExactly(f.blocks, k);
    }
  }

  lemma {:induction false} EnvironmentVarsFrom(envs: seq<File>, environment: string, f: File, x: string)
    requires f in envs && Selected(environment, f) && x in Clean(VarNames(f.blocks))
    ensures x in EnvironmentVars(envs, environment)
  {
    if f != envs[|envs| - 1] {
      EnvironmentVarsFrom(envs[..|envs| - 1], environment, f, x);
    }
  }

  lemma {:induction false} EnvironmentVarsOrigin(envs: seq<File>, environment: string, x: string) returns (f: File)
    requires x in EnvironmentVars(envs, environment)
    ensures f in envs && Selected(environment, f) && x in Clean(VarNames(f.blocks))
  {
    f := envs[|envs| - 1];
    if !Selected(environment, f) || x !in Clean(VarNames(f.blocks)) {
      f := EnvironmentVarsOrigin(envs[..|envs| - 1], environment, x);
    }
  }

  lemma {:induction false} EnvironmentVarsExactly(envs: seq<File>, environment: string, x: string)
    ensures x in EnvironmentVars(envs, environment)
       <==> exists f :: f in envs && Selected(environment, f) && DeclaredIn(f, x)
  {
    if x in EnvironmentVars(envs, environment) {
      var f := EnvironmentVarsOrigin(envs, environment, x);
      CleanExactly(f, x);
    }
    if f :| f in envs && Selected(environment, f) && DeclaredIn(f, x) {
      CleanExactly(f, x);
      EnvironmentVarsFrom(envs, environment, f, x);
    }
  }

  lemma {:induction false} ScriptVarsExactly(files: seq<File>, x: string)
    ensures x in ScriptVars(files) <==> exists f :: f in files && x in f.setVars
  {
    if files != [] {
      var n := |files| - 1;
      ScriptVarsExactly(files[..n], x);
      assert forall f :: f in files <==> f in files[..n] || f == files[n];
    }
  }

  lemma {:induction false} FolderVarsFrom(folders: seq<File>, f: File, x: string)
    requires f in folders && x in Clean(VarNames(f.blocks))
    ensures Dir(f.path) in FolderVars(folders) && x in FolderVars(folders)[Dir(f.path)]
  {
    if f != folders[|folders| - 1] {
      FolderVarsFrom(folders[..|folders| - 1], f, x);
    }
  }

  lemma {:induction false} FolderVarsOrigin(folders: seq<File>, scope: string, x: string) returns (f: File)
    requires scope in FolderVars(folders) && x in FolderVars(folders)[scope]
    ensures f in folders && Dir(f.path) == scope && x in Clean(VarNames(f.blocks))
  {
    f := folders[|folders| - 1];
    if Dir(f.path) != scope || x !in Clean(VarNames(f.blocks)) {
      f := FolderVarsOrigin(folders[..|folders| - 1], scope, x);
    }
  }

  lemma {:induction false} SetByScriptExactly(c: Collection, x: string)
    ensures x in ScriptVars(EveryFile(c)) <==> SetByScript(c, x)
  {
    ScriptVarsExactly(EveryFile(c), x);
  }

  lemma {:induction false} ChosenVarsExactly(c: Collection, environment: string, x: string)
    ensures x in EnvironmentVars(c.environments, environment)
       <==> exists f :: f in c.environments && Chosen(environment, f) && DeclaredIn(f, x)
  {
    EnvironmentVarsExactly(c.environments, environment, x);
    forall f ensures Chosen(environment, f) <==> Selected(environment, f) {
      ChosenExactly(environment, f);
    }
  }

  lemma {:induction false} ScopeExactly(c: Collection, environment: string, overrides: seq<string>, request: File,
        x: string)
    ensures x in Scope(c, environment, overrides, request) <==> InScope(c, environment, overrides, request, x)
  {
    hide EnvironmentVars, ScriptVars, SetByScript, Chosen, Above, FolderVars, Gather, VarNames, DeclaredIn, EveryFile;
    ChosenVarsExactly(c, environment, x);
    SetByScriptExactly(c, x);
    CleanExactly(request, x);
    if c.settings.Some? {
      CleanExactly(c.settings.value, x);
    }
    GatherExactly(c.folders, request, x);
  }

  lemma {:induction false} GatherExactly(folders: seq<File>, request: File, x: string)
    ensures x in Gather(FolderVars(folders), FolderVars(folders).Keys, request.path)
       <==> exists f :: f in folders && Above(f, request) && DeclaredIn(f, x)
  {
    hide FolderVars, Dir, Reaches, Above, VarNames, DeclaredIn;
    var m, p := FolderVars(folders), request.path;
    if x in Gather(m, m.Keys, p) {
      var scope :| scope in m && Reaches(scope, p) && x in m[scope];
      var f := FolderVarsOrigin(folders, scope, x);
      CleanExactly(f, x);
      AboveExactly(f, request);
    }
    if f :| f in folders && Above(f, request) && DeclaredIn(f, x) {
      CleanExactly(f, x);
      AboveExactly(f, request);
      FolderVarsFrom(folders, f, x);
    }
  }

  lemma {:induction false} UnresolvedExactly(refs: seq<Reference>, file: string, scope: set<string>)
    ensures forall f ::
      (f in Unresolved(refs, file, scope) <==> f.file == file && f.name !in scope && Reference(f.name, f.line) in refs)
  {
    if refs != [] {
      var n := |refs| - 1;
      UnresolvedExactly(refs[..n], file, scope);
      assert refs == refs[..n] + [refs[n]];
    }
  }

  /** No variable is reported twice. */
  predicate EachOnce(found: seq<RefFinding>) {
    forall i, j :: 0 <= i < j < |found| ==> found[i].name != found[j].name
  }

  lemma {:induction false} UnresolvedOnce(refs: seq<Reference>, file: string, scope: set<string>)
    requires forall i, j :: 0 <= i < j < |refs| ==> refs[i].name != refs[j].name
    ensures EachOnce(Unresolved(refs, file, scope))
  {
    if refs != [] {
      var n := |refs| - 1;
      var before, found := Unresolved(refs[..n], file, scope), Unresolved(refs, file, scope);
      UnresolvedOnce(refs[..n], file, scope);
      UnresolvedExactly(refs[..n], file, scope);
      forall f | f in before ensures f.name != refs[n].name {
        var k :| 0 <= k < n && refs[..n][k] == Reference(f.name, f.line);
        assert refs[k] == refs[..n][k];
      }
      assert found == before || found == before + [RefFinding(file, refs[n].line, refs[n].name)];
    }
  }

  /** A request is reported for a variable, at the line that refers to it first, exactly when
      nothing in scope defines it; and then once. */
  lemma {:induction false} RequestFindingsExactly(c: Collection, environment: string, overrides: seq<string>,
        request: File, f: RefFinding)
    ensures var found := RequestFindings(c, environment, overrides, request);
      && (f in found <==>
            && f.file == request.path && FirstLine(request.blocks, f.name, f.line)
            && !InScope(c, environment, overrides, request, f.name))
      && EachOnce(found)
  {
    hide Scope, RefsOfBlocks, InScope, Unresolved, FirstRefs, FirstLine;
    var refs := FirstRefs(RefsOfBlocks(request.blocks));
    var scope := Scope(c, environment, overrides, request);
    FirstRefsExactly(RefsOfBlocks(request.blocks));
    RefsExactly(request.blocks, Reference(f.name, f.line));
    UnresolvedExactly(refs, request.path, scope);
    UnresolvedOnce(refs, request.path, scope);
    ScopeExactly(c, environment, overrides, request, f.name);
  }

  lemma {:induction false} ReportFrom(c: Collection, environment: string, overrides: seq<string>, requests: seq<File>,
        r: File, f: RefFinding)
    requires r in requests && f in RequestFindings(c, environment, overrides, r)
    ensures f in Report(c, environment, overrides, requests)
  {
    if r != requests[|requests| - 1] {
      ReportFrom(c, environment, overrides, requests[..|requests| - 1], r, f);
    }
  }

  lemma {:induction false} ReportOrigin(c: Collection, environment: string, overrides: seq<string>, requests: seq<File>,
        f: RefFinding)
      returns (r: File)
    requires f in Report(c, environment, overrides, requests)
    ensures r in requests && f in RequestFindings(c, environment, overrides, r)
  {
    r := requests[|requests| - 1];
    if f !in RequestFindings(c, environment, overrides, r) {
      r := ReportOrigin(c, environment, overrides, requests[..|requests| - 1], f);
    }
  }

  /** What one finding says, by reference and scope alone. */
  ghost predicate Unmet(c: Collection, environment: string, overrides: seq<string>, f: RefFinding) {
    exists r :: r in c.requests && r.path == f.file && FirstLine(r.blocks, f.name, f.line)
                && !InScope(c, environment, overrides, r, f.name)
  }

  /** The whole report. */
  lemma {:induction false} ReportExactly(c: Collection, environment: string, overrides: seq<string>, f: RefFinding)
    ensures f in Report(c, environment, overrides, c.requests) <==> Unmet(c, environment, overrides, f)
  {
    hide Report, RequestFindings, FirstLine, InScope;
    if f in Report(c, environment, overrides, c.requests) {
      var r := ReportOrigin(c, environment, overrides, c.requests, f);
      RequestFindingsExactly(c, environment, overrides, r, f);
    }
    if r :|
        r in c.requests && r.path == f.file && FirstLine(r.blocks, f.name, f.line)
        && !InScope(c, environment, overrides, r, f.name) {
      RequestFindingsExactly(c, environment, overrides, r, f);
      ReportFrom(c, environment, overrides, c.requests, r, f);
    }
  }

  /** What is unresolved with no environment selected stays unresolved under any. */
  lemma {:induction false} UnresolvedUnderEveryEnvironment(c: Collection, environment: string, overrides: seq<string>,
        f: RefFinding)
    requires f in Report(c, "", overrides, c.requests)
    ensures f in Report(c, environment, overrides, c.requests)
  {
    var r := ReportOrigin(c, "", overrides, c.requests, f);
    var refs := FirstRefs(RefsOfBlocks(r.blocks));
    UnresolvedExactly(refs, r.path, Scope(c, "", overrides, r));
    UnresolvedExactly(refs, r.path, Scope(c, environment, overrides, r));
    ScopeExactly(c, "", overrides, r, f.name);
    ScopeExactly(c, environment, overrides, r, f.name);
    ReportFrom(c, environment, overrides, c.requests, r, f);
  }

  /** `lintReferences`: the findings do not depend on the order the folder map gives. */
  method LintReferences(c: Collection, environment: string, overrides: seq<string>) returns (findings: seq<RefFinding>)
    ensures findings == Report(c, environment, overrides, c.requests)
    ensures forall f :: f in findings <==> Unmet(c, environment, overrides, f)
  {
    var global := CollectGlobal(c, environment, overrides);
    var folderVars := CollectFolders(c.folders);
    findings := [];
    for i := 0 to |c.requests|
      invariant findings == Report(c, environment, overrides, c.requests[..i])
    {
      var own := LintRequest(c.requests[i], global, folderVars);
      ReportOneMore(c, environment, overrides, c.requests, i);
      findings := findings + own;
    }
    assert c.requests[..|c.requests|] == c.requests;
    forall f ensures f in findings <==> Unmet(c, environment, overrides, f) {
      ReportExactly(c, environment, overrides, f);
    }
  }
}
