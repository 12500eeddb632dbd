/** daggerverse/bruno: the drift verdict. Two collections are compared through the text of
    their sorted, deduplicated request listings. */
module BruDrift {
  import opened Text
  import opened BruParse
  import opened BruRoute
  import BruRouteReads
  import BruLint

  datatype Route = Route(verb: string, path: string)

  const METHODS: map<string, string> :=
    map["get" := "GET", "post" := "POST", "put" := "PUT", "patch" := "PATCH",
        "delete" := "DELETE", "head" := "HEAD", "options" := "OPTIONS", "trace" := "TRACE"]

  predicate Verb(m: string) {
    m in {"GET", "POST", "PUT", "PATCH", "DELETE", "HEAD", "OPTIONS", "TRACE"}
  }

  /** `requestRoute`: the first verb block decides. */
  function RequestRoute(blocks: seq<Block>): Option<Route> {
    if blocks == [] then None
    else if blocks[0].name in METHODS then
      var url := BruLint.ValueOf(blocks[0].body, "url");
      Some(Route(METHODS[blocks[0].name], RoutePathOf(if url.Some? then url.value else "")))
    else RequestRoute(blocks[1..])
  }

  /** `route.String`. */
  function Line(r: Route): string {
    r.verb + " " + r.path
  }

  /** A block of a request method, and the method it stands for. */
  predicate Sends(name: string, verb: string) {
    (name, verb) in {("get", "GET"), ("post", "POST"), ("put", "PUT"), ("patch", "PATCH"), ("delete", "DELETE"),
                     ("head", "HEAD"), ("options", "OPTIONS"), ("trace", "TRACE")}
  }

  /** What stands first under `url`, or nothing. */
  ghost predicate UrlIs(body: seq<Entry>, url: string) {
    BruLint.ValueIs(body, "url", url) || (url == "" && forall e :: e in body ==> e.key != "url")
  }

  ghost predicate FirstSends(blocks: seq<Block>, k: nat, verb: string) {
    && k < |blocks| && Sends(blocks[k].name, verb)
    && forall j, other :: 0 <= j < k ==> !Sends(blocks[j].name, other)
  }

  /** A file asks for a route: its first method block names the method, and the url of that block
      is reduced to the path. */
  ghost predicate Asks(blocks: seq<Block>, r: Route) {
    exists k: nat, url ::
      FirstSends(blocks, k, r.verb) && UrlIs(blocks[k].body, url) && BruRouteReads.Reduces(url, r.path)
  }

  lemma {:induction false} UrlExactly(body: seq<Entry>, url: string)
    ensures UrlIs(body, url)
       <==> var v := BruLint.ValueOf(body, "url"); url == if v.Some? then v.value else ""
  {
    var v := BruLint.ValueOf(body, "url");
    BruLint.ValueOfExactly(body, "url", url);
    BruLint.ValueOfNone(body, "url");
    if v.Some? {
      BruLint.ValueOfExactly(body, "url", v.value);
    }
  }

  lemma {:induction false} MethodSent(name: string, verb: string)
    ensures Sends(name, verb) <==> name in METHODS && METHODS[name] == verb
  {
  }

  lemma {:induction false} FirstSendsTail(blocks: seq<Block>, k: nat, verb: string)
    requires blocks != [] && forall other :: !Sends(blocks[0].name, other)
    ensures FirstSends(blocks[1..], k, verb) <==> FirstSends(blocks, k + 1, verb)
  {
    hide Sends;
    assert forall j :: 0 <= j < |blocks| - 1 ==> blocks[1..][j] == blocks[j + 1];
    if FirstSends(blocks, k + 1, verb) {
      forall j, other | 0 <= j < k ensures !Sends(blocks[1..][j].name, other) {
        assert blocks[1..][j] == blocks[j + 1];
      }
    }
    if FirstSends(blocks[1..], k, verb) {
      forall j, other | 0 < j < k + 1 ensures !Sends(blocks[j].name, other) {
        assert blocks[1..][j - 1] == blocks[j];
      }
    }
  }

  /** The route of a file is the one it asks for. */
  lemma {:induction false} RequestRouteExactly(blocks: seq<Block>, r: Route)
    ensures RequestRoute(blocks) == Some(r) <==> Asks(blocks, r)
  {
    hide Sends, METHODS, RoutePathOf, UrlIs;
    if blocks != [] {
      forall other ensures Sends(blocks[0].name, other) <==>
          blocks[0].name in METHODS && METHODS[blocks[0].name] == other {
        MethodSent(blocks[0].name, other);
      }
      if blocks[0].name in METHODS {
        FirstBlockAsks(blocks, r);
      } else {
        RequestRouteExactly(blocks[1..], r);
        forall k: nat ensures FirstSends(blocks[1..], k, r.verb) <==> FirstSends(blocks, k + 1, r.verb) {
          FirstSendsTail(blocks, k, r.verb);
        }
        if k: nat, url :| FirstSends(blocks[1..], k, r.verb) && UrlIs(blocks[1..][k].body, url)
                          && BruRouteReads.Reduces(url, r.path) {
          assert FirstSends(blocks, k + 1, r.verb) && blocks[k + 1] == blocks[1..][k];
        }
        if k: nat, url :| FirstSends(blocks, k, r.verb) && UrlIs(blocks[k].body, url)
                          && BruRouteReads.Reduces(url, r.path) {
          assert k > 0;
          assert FirstSends(blocks[1..], k - 1, r.verb) && blocks[k] == blocks[1..][k - 1];
        }
      }
    }
  }

  lemma {:induction false} FirstBlockAsks(blocks: seq<Block>, r: Route)
    requires blocks != [] && blocks[0].name in METHODS
    requires forall other :: Sends(blocks[0].name, other) <==> METHODS[blocks[0].name] == other
    ensures RequestRoute(blocks) == Some(r) <==> Asks(blocks, r)
  {
    hide Sends, METHODS, RoutePathOf, UrlIs;
    var v := BruLint.ValueOf(blocks[0].body, "url");
    var url := if v.Some? then v.value else "";
    forall other ensures UrlIs(blocks[0].body, other) <==> other == url {
      UrlExactly(blocks[0].body, other);
    }
    BruRouteReads.RoutePathExactly(url, r.path);
    var verb := METHODS[blocks[0].name];
    assert FirstSends(blocks, 0, verb) && Sends(blocks[0].name, verb);
    forall k: nat, other | FirstSends(blocks, k, other) ensures k == 0 && other == verb {
    }
  }

  // ------------------------------------------------------------ order

  /** Go's `<` on strings. */
  predicate Before(a: string, b: string) {
    if b == "" then false
    else if a == "" then true
    else if a[0] != b[0] then a[0] < b[0]
    else Before(a[1..], b[1..])
  }

  /** By path, then by method. */
  predicate Less(a: Route, b: Route) {
    if a.path != b.path then Before(a.path, b.path) else Before(a.verb, b.verb)
  }

  lemma {:induction false} BeforeOrder(a: string, b: string)
    ensures a == b ==> !Before(a, b)
    ensures a != b ==> Before(a, b) != Before(b, a)
  {
    if a != "" && b != "" && a[0] == b[0] {
      BeforeOrder(a[1..], b[1..]);
      assert a == [a[0]] + a[1..] && b == [b[0]] + b[1..];
    }
  }

  lemma {:induction false} BeforeTransitive(a: string, b: string, c: string)
    requires Before(a, b) && Before(b, c)
    ensures Before(a, c)
  {
    if a != "" && a[0] == b[0] && b[0] == c[0] {
      BeforeTransitive(a[1..], b[1..], c[1..]);
    }
  }

  lemma {:induction false} LessOrder(a: Route, b: Route)
    ensures a == b ==> !Less(a, b)
    ensures a != b ==> Less(a, b) != Less(b, a)
  {
    BeforeOrder(a.path, b.path);
    BeforeOrder(a.verb, b.verb);
  }

  lemma {:induction false} LessTransitive(a: Route, b: Route, c: Route)
    requires Less(a, b) && Less(b, c)
    ensures Less(a, c)
  {
    BeforeOrder(a.path, b.path);
    BeforeOrder(a.path, c.path);
    if a.path != b.path && b.path != c.path {
      BeforeTransitive(a.path, b.path, c.path);
    } else if a.path == b.path && b.path == c.path {
      BeforeTransitive(a.verb, b.verb, c.verb);
    }
  }

  /** Two strings part at a character, or one goes on where the other ends. */
  ghost predicate Precedes(a: string, b: string) {
    exists k: nat :: k <= |a| && k < |b| && a[..k] == b[..k] && (k == |a| || a[k] < b[k])
  }

  lemma {:induction false} BeforeExactly(a: string, b: string)
    ensures Before(a, b) <==> Precedes(a, b)
  {
    if a == "" {
      assert b != "" ==> a[..0] == b[..0];
    } else if b != "" {
      BeforeExactly(a[1..], b[1..]);
      assert a[0] < b[0] ==> a[..0] == b[..0];
      if k: nat :| k <= |a| && k < |b| && a[..k] == b[..k] && (k == |a| || a[k] < b[k]) {
        if k > 0 {
          assert a[..k][0] == a[0] && b[..k][0] == b[0];
          assert a[1..][..k - 1] == a[..k][1..] && b[1..][..k - 1] == b[..k][1..];
        }
      }
      if k: nat :| k < |a| && k < |b| - 1 && a[1..][..k] == b[1..][..k] && (k == |a| - 1 || a[1..][k] < b[1..][k]) {
        if a[0] == b[0] {
          assert a[..k + 1] == [a[0]] + a[1..][..k] && b[..k + 1] == [b[0]] + b[1..][..k];
        }
      }
    }
  }

  /** The paths are in order, and the methods of one path. */
  ghost predicate Ordered(rs: seq<Route>) {
    forall i, j :: 0 <= i < j < |rs| ==>
      Precedes(rs[i].path, rs[j].path) || (rs[i].path == rs[j].path && Precedes(rs[i].verb, rs[j].verb))
  }

  lemma {:induction false} SortedExactly(rs: seq<Route>)
    ensures Sorted(rs) <==> Ordered(rs)
  {
    hide Before, Precedes;
    forall a, b ensures Before(a, b) <==> Precedes(a, b) {
      BeforeExactly(a, b);
    }
    forall i, j | 0 <= i < j < |rs| && rs[i].path == rs[j].path
      ensures !Precedes(rs[i].path, rs[j].path)
    {
      BeforeOrder(rs[i].path, rs[j].path);
    }
  }

  predicate Sorted(rs: seq<Route>) {
    forall i, j :: 0 <= i < j < |rs| ==> Less(rs[i], rs[j])
  }

  ghost function Members(rs: seq<Route>): set<Route> {
    set r | r in rs
  }

  /** The listing of a set of routes is unique. */
  lemma {:induction false} SortedUnique(a: seq<Route>, b: seq<Route>)
    requires Sorted(a) && Sorted(b) && Members(a) == Members(b)
    ensures a == b
  {
    if a == [] {
      SortedCount(b);
    } else {
      assert a[0] in Members(b) && b != [];
      assert b[0] in Members(a);
      SameHead(a, b);
      SameHead(b, a);
      LessOrder(a[0], b[0]);
      TailMembers(a);
      TailMembers(b);
      SortedUnique(a[1..], b[1..]);
      assert a == [a[0]] + a[1..] && b == [b[0]] + b[1..];
    }
  }

  /** Nothing in a sorted list with the same members comes before the other's head. */
  lemma {:induction false} SameHead(a: seq<Route>, b: seq<Route>)
    requires Sorted(a) && a != [] && b != [] && b[0] in Members(a)
    ensures !Less(b[0], a[0])
  {
    var i :| 0 <= i < |a| && a[i] == b[0];
    LessOrder(a[0], b[0]);
  }

  lemma {:induction false} TailMembers(a: seq<Route>)
    requires Sorted(a) && a != []
    ensures Members(a[1..]) == Members(a) - {a[0]}
  {
    LessOrder(a[0], a[0]);
    forall r | r in Members(a) && r != a[0] ensures r in a[1..] {
      var i :| 0 <= i < |a| && a[i] == r;
      assert a[1..][i - 1] == r;
    }
    forall r | r in a[1..] ensures r != a[0] && r in a {
      var i :| 0 <= i < |a[1..]| && a[1..][i] == r;
      assert a[i + 1] == r;
      LessOrder(a[0], a[i + 1]);
    }
  }

  // ------------------------------------------------------------ requestSet

  predicate NoRepeats(rs: seq<Route>) {
    forall i, j :: 0 <= i < j < |rs| ==> rs[i] != rs[j]
  }

  /** The position a route belongs at in a sorted list. */
  function Slot(rs: seq<Route>, r: Route): (n: nat)
    ensures n <= |rs|
    ensures forall k :: 0 <= k < n ==> Less(rs[k], r)
    ensures n < |rs| ==> !Less(rs[n], r)
  {
    if rs == [] || !Less(rs[0], r) then 0 else 1 + Slot(rs[1..], r)
  }

  /** `sort.Slice` by `Less`: any list without repeats becomes the one sorted list of its
      members, whatever the algorithm. */
  method Sort(rs: seq<Route>) returns (sorted: seq<Route>)
    requires NoRepeats(rs)
    ensures Sorted(sorted) && Members(sorted) == Members(rs)
  {
    sorted := [];
    for i := 0 to |rs|
      invariant Sorted(sorted) && Members(sorted) == Members(rs[..i])
    {
      var r := rs[i];
      assert r !in rs[..i];
      assert r !in sorted by {
        assert r !in Members(rs[..i]);
      }
      var n := Slot(sorted, r);
      InsertKeeps(sorted, r, n);
      sorted := sorted[..n] + [r] + sorted[n..];
      assert rs[..i + 1] == rs[..i] + [r];
    }
    assert rs[..|rs|] == rs;
  }

  lemma {:induction false} InsertKeeps(rs: seq<Route>, r: Route, n: nat)
    requires Sorted(rs) && r !in rs && n == Slot(rs, r)
    ensures Sorted(rs[..n] + [r] + rs[n..])
    ensures Members(rs[..n] + [r] + rs[n..]) == Members(rs) + {r}
  {
    forall k | n <= k < |rs| ensures Less(r, rs[k]) {
      LessOrder(rs[n], r);
      if n < k {
        LessTransitive(r, rs[n], rs[k]);
      }
    }
    InsertSorted(rs, r, n);
    InsertMembers(rs, r, n);
  }

  lemma {:induction false} InsertSorted(rs: seq<Route>, r: Route, n: nat)
    requires Sorted(rs) && n <= |rs|
    requires forall k :: 0 <= k < n ==> Less(rs[k], r)
    requires forall k :: n <= k < |rs| ==> Less(r, rs[k])
    ensures Sorted(rs[..n] + [r] + rs[n..])
  {
    var out := rs[..n] + [r] + rs[n..];
    forall i, j | 0 <= i < j < |out| ensures Less(out[i], out[j]) {
      assert out[i] == if i < n then rs[i] else if i == n then r else rs[i - 1];
      assert out[j] == if j < n then rs[j] else if j == n then r else rs[j - 1];
    }
  }

  lemma {:induction false} InsertMembers(rs: seq<Route>, r: Route, n: nat)
    requires n <= |rs|
    ensures Members(rs[..n] + [r] + rs[n..]) == Members(rs) + {r}
  {
    assert rs == rs[..n] + rs[n..];
  }

  /** The routes of a collection, as a set. */
  ghost function RouteSet(requests: seq<seq<Block>>): set<Route> {
    set f | f in requests && RequestRoute(f).Some? :: RequestRoute(f).value
  }

  /** A route some file asks for. */
  ghost predicate Asked(requests: seq<seq<Block>>, r: Route) {
    exists f :: f in requests && Asks(f, r)
  }

  lemma {:induction false} RouteSetExactly(requests: seq<seq<Block>>, r: Route)
    ensures r in RouteSet(requests) <==> Asked(requests, r)
  {
    hide RequestRoute, Asks;
    forall f ensures RequestRoute(f) == Some(r) <==> Asks(f, r) {
      RequestRouteExactly(f, r);
    }
  }

  lemma {:induction false} RouteSetSnoc(requests: seq<seq<Block>>, i: nat)
    requires i < |requests|
    ensures RouteSet(requests[..i + 1])
         == RouteSet(requests[..i]) + if RequestRoute(requests[i]).Some? then {RequestRoute(requests[i]).value} else {}
  {
    assert requests[..i + 1] == requests[..i] + [requests[i]];
  }

  /** `requestSet`: a table of the lines seen, a list without repeats, a sort. */
  method RequestSet(requests: seq<seq<Block>>) returns (routes: seq<Route>)
    ensures Sorted(routes) && Members(routes) == RouteSet(requests)
    ensures Ordered(routes) && forall r :: r in routes <==> Asked(requests, r)
    ensures forall r :: r in routes ==> Verb(r.verb)
  {
    var seen: set<string> := {};
    var found: seq<Route> := [];
    for i := 0 to |requests|
      invariant NoRepeats(found) && Members(found) == RouteSet(requests[..i])
      invariant forall r :: r in found ==> Verb(r.verb)
      invariant forall r: Route :: Verb(r.verb) ==> (r in found <==> Line(r) in seen)
    {
      RouteSetSnoc(requests, i);
      var route := RequestRoute(requests[i]);
      if route.None? {
        continue;
      }
      RouteVerb(requests[i]);
      if Line(route.value) in seen {
        assert route.value in Members(found);
        continue;
      }
      forall r: Route | Verb(r.verb) ensures Line(r) == Line(route.value) ==> r == route.value {
        LineInjective(r, route.value);
      }
      seen := seen + {Line(route.value)};
      found := found + [route.value];
    }
    assert requests[..|requests|] == requests;
    routes := Sort(found);
    SortedExactly(routes);
    forall r ensures r in routes <==> Asked(requests, r) {
      RouteSetExactly(requests, r);
      assert r in routes <==> r in Members(routes);
    }
    forall r | r in routes ensures Verb(r.verb) {
      assert r in Members(routes);
    }
  }

  lemma {:induction false} RouteVerb(blocks: seq<Block>)
    ensures RequestRoute(blocks).Some? ==> Verb(RequestRoute(blocks).value.verb)
  {
    if blocks != [] && blocks[0].name !in METHODS {
      RouteVerb(blocks[1..]);
    }
  }

  /** `String` loses nothing: no method holds a space. */
  lemma {:induction false} LineInjective(a: Route, b: Route)
    requires Verb(a.verb) && Verb(b.verb)
    ensures Line(a) == Line(b) ==> a == b
  {
    VerbHasNoSpace(a.verb);
    VerbHasNoSpace(b.verb);
    FirstWord(a.verb, a.path);
    FirstWord(b.verb, b.path);
    if Line(a) == Line(b) {
      assert a.path == Line(a)[|a.verb| + 1..] && b.path == Line(b)[|b.verb| + 1..];
    }
  }

  lemma {:induction false} FirstWord(word: string, rest: string)
    requires ' ' !in word
    ensures Split(word + " " + rest, ' ')[0] == word
  {
    SplitWithout(word, ' ');
    SplitConcat(word, rest, ' ');
  }

  lemma {:induction false} VerbHasNoSpace(m: string)
    requires Verb(m)
    ensures forall k :: 0 <= k < |m| ==> m[k] != ' ' && m[k] != '\n'
  {
  }

  // ------------------------------------------------------------ the listing

  /** `listingDirectory`: every route on a line of its own. */
  function Listing(rs: seq<Route>): string {
    if rs == [] then "" else Line(rs[0]) + "\n" + Listing(rs[1..])
  }

  /** The loop that writes it. */
  method WriteListing(rs: seq<Route>) returns (text: string)
    ensures text == Listing(rs)
  {
    text := "";
    for i := 0 to |rs|
      invariant text + Listing(rs[i..]) == Listing(rs)
    {
      text := text + Line(rs[i]) + "\n";
    }
    assert text + "" == text;
  }

  predicate OneLine(r: Route) {
    Verb(r.verb) && '\n' !in r.path
  }

  function Lines(rs: seq<Route>): (lines: seq<string>)
    ensures |lines| == |rs|
  {
    seq(|rs|, i requires 0 <= i < |rs| => rs[i].verb + " " + rs[i].path)
  }

  /** The listing's text gives its lines back. */
  lemma {:induction false} SplitListing(rs: seq<Route>)
    requires forall r :: r in rs ==> OneLine(r)
    ensures Split(Listing(rs), '\n') == Lines(rs) + [""]
  {
    if rs != [] {
      var line := Line(rs[0]);
      assert OneLine(rs[0]);
      VerbHasNoSpace(rs[0].verb);
      assert '\n' !in line;
      SplitWithout(line, '\n');
      SplitConcat(line, Listing(rs[1..]), '\n');
      SplitListing(rs[1..]);
      assert Lines(rs) == [line] + Lines(rs[1..]);
    }
  }

  lemma {:induction false} ListingInjective(a: seq<Route>, b: seq<Route>)
    requires forall r :: r in a ==> OneLine(r)
    requires forall r :: r in b ==> OneLine(r)
    ensures Listing(a) == Listing(b) ==> a == b
  {
    SplitListing(a);
    SplitListing(b);
    if Listing(a) == Listing(b) {
      assert Lines(a) == (Lines(a) + [""])[..|a|] && Lines(b) == (Lines(b) + [""])[..|b|];
      forall i | 0 <= i < |a| ensures a[i] == b[i] {
        assert Lines(a)[i] == Lines(b)[i];
        assert OneLine(a[i]) && OneLine(b[i]);
        LineInjective(a[i], b[i]);
      }
    }
  }

  // ------------------------------------------------------------ files and lines

  lemma {:induction false} TrimmedWithout(s: string, c: char)
    requires c !in s
    ensures c !in TrimSpace(s)
  {
    TrimWithin(s);
  }

  lemma {:induction false} EntryOneLine(line: string, number: nat, brackets: bool)
    requires '\n' !in line
    ensures '\n' !in ParseEntry(line, number, brackets).value
  {
    var text0 := TrimSpace(line);
    TrimmedWithout(line, '\n');
    if text0 != "" {
      assert '\n' !in text0[1..];
      TrimmedWithout(text0[1..], '\n');
      var text := if text0[0] == '~' then TrimSpace(text0[1..]) else text0;
      var cut := IndexOf(text, ':');
      if cut < |text| {
        assert '\n' !in text[cut + 1..];
        TrimmedWithout(text[cut + 1..], '\n');
      }
    }
  }

  predicate ValuesOneLine(blocks: seq<Block>) {
    forall b, e :: b in blocks && e in b.body ==> '\n' !in e.value
  }

  /** What the scanner reads from a file stays within its lines. */
  lemma {:induction false} ScannedOneLine(src: string, blocks: seq<Block>)
    requires Segmentation(Split(src, '\n'), blocks)
    ensures ValuesOneLine(blocks)
  {
    hide ParseEntry, Header, Closer, Split;
    var lines := Split(src, '\n');
    SplitPieces(src, '\n');
    forall b, e | b in blocks && e in b.body ensures '\n' !in e.value {
      var k :| 0 <= k < |blocks| && blocks[k] == b;
      assert BlockAt(lines, blocks[k]);
      var j :| 0 <= j < |b.body| && b.body[j] == e;
      EntryOneLine(lines[b.line + j], b.line + 1 + j, b.brackets);
    }
  }

  lemma {:induction false} ValueOneLine(body: seq<Entry>, key: string)
    requires forall e :: e in body ==> '\n' !in e.value
    ensures var v := BruLint.ValueOf(body, key); v.Some? ==> '\n' !in v.value
  {
    if body != [] && body[0].key != key {
      ValueOneLine(body[1..], key);
    }
  }

  lemma {:induction false} RouteOneLine(blocks: seq<Block>)
    requires ValuesOneLine(blocks)
    ensures RequestRoute(blocks).Some? ==> OneLine(RequestRoute(blocks).value)
  {
    RouteVerb(blocks);
    if blocks != [] {
      var b := blocks[0];
      if b.name in METHODS {
        ValueOneLine(b.body, "url");
        var v := BruLint.ValueOf(b.body, "url");
        PathWithin(if v.Some? then v.value else "");
      } else {
        RouteOneLine(blocks[1..]);
      }
    }
  }

  lemma {:induction false} RouteSetOneLine(requests: seq<seq<Block>>, routes: seq<Route>)
    requires forall f :: f in requests ==> ValuesOneLine(f)
    requires Members(routes) == RouteSet(requests)
    ensures forall r :: r in routes ==> OneLine(r)
  {
    forall r | r in routes ensures OneLine(r) {
      assert r in RouteSet(requests);
      var f :| f in requests && RequestRoute(f) == Some(r);
      RouteOneLine(f);
    }
  }

  // ------------------------------------------------------------ the verdict

  ghost predicate Scanned(sources: seq<string>, files: seq<seq<Block>>) {
    |files| == |sources| && forall i :: 0 <= i < |files| ==> Segmentation(Split(sources[i], '\n'), files[i])
  }

  method Scan(sources: seq<string>) returns (files: seq<seq<Block>>)
    ensures Scanned(sources, files)
  {
    files := [];
    for i := 0 to |sources|
      invariant Scanned(sources[..i], files)
    {
      var blocks := ParseBru(sources[i]);
      files := files + [blocks];
    }
    assert sources[..|sources|] == sources;
  }

  /** There is only one way to scan files. */
  lemma {:induction false} ScannedUnique(sources: seq<string>, a: seq<seq<Block>>, b: seq<seq<Block>>)
    requires Scanned(sources, a) && Scanned(sources, b)
    ensures a == b
  {
    forall i | 0 <= i < |a| ensures a[i] == b[i] {
      SegmentationUnique(Split(sources[i], '\n'), a[i], b[i]);
    }
  }

  /** `drift` over the request files of the two trees: drifted exactly when some route is asked
      for in one and not in the other, whatever the order and the repetitions of the requests. */
  method Drift(declared: seq<string>, committed: seq<string>) returns (drifted: bool, count: nat)
    ensures forall ds, cs :: Scanned(declared, ds) && Scanned(committed, cs) ==>
      (drifted <==> exists r :: Asked(ds, r) != Asked(cs, r)) && count == |RouteSet(ds)|
  {
    var d := Scan(declared);
    var c := Scan(committed);
    drifted, count := Compare(declared, d, committed, c);
    forall ds, cs | Scanned(declared, ds) && Scanned(committed, cs) ensures ds == d && cs == c {
      ScannedUnique(declared, ds, d);
      ScannedUnique(committed, cs, c);
    }
    SetsDiffer(d, c);
  }

  lemma {:induction false} SetsDiffer(d: seq<seq<Block>>, c: seq<seq<Block>>)
    ensures RouteSet(d) != RouteSet(c) <==> exists r :: Asked(d, r) != Asked(c, r)
  {
    hide RouteSet, Asked;
    forall r
      ensures r in RouteSet(d) <==> Asked(d, r)
      ensures r in RouteSet(c) <==> Asked(c, r)
    {
      RouteSetExactly(d, r);
      RouteSetExactly(c, r);
    }
  }

  /** The comparison of the two scanned trees. */
  method Compare(ghost declared: seq<string>, d: seq<seq<Block>>, ghost committed: seq<string>, c: seq<seq<Block>>)
      returns (drifted: bool, count: nat)
    requires Scanned(declared, d) && Scanned(committed, c)
    ensures drifted <==> RouteSet(d) != RouteSet(c)
    ensures count == |RouteSet(d)|
  {
    forall i | 0 <= i < |d| ensures ValuesOneLine(d[i]) {
      ScannedOneLine(declared[i], d[i]);
    }
    forall i | 0 <= i < |c| ensures ValuesOneLine(c[i]) {
      ScannedOneLine(committed[i], c[i]);
    }
    var expected := RequestSet(d);
    var actual := RequestSet(c);
    RouteSetOneLine(d, expected);
    RouteSetOneLine(c, actual);
    ListingInjective(expected, actual);
    count := |expected|;
    SortedCount(expected);
    var before := WriteListing(expected);
    var after := WriteListing(actual);
    drifted := before != after;
    if Members(expected) == Members(actual) {
      SortedUnique(expected, actual);
    }
  }

  lemma {:induction false} SortedCount(rs: seq<Route>)
    requires Sorted(rs)
    ensures |Members(rs)| == |rs|
  {
    if rs != [] {
      SortedCount(rs[1..]);
      TailMembers(rs);
      assert rs[0] in Members(rs);
    }
  }
}
