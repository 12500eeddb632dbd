/** daggerverse/bruno: reducing a request's url to the path an OpenAPI document describes. */
module BruRoute {
  import opened Text
  import opened BruParse

  // ------------------------------------------------------------ the parts of a url

  predicate Stops(c: char) {
    c == '?' || c == '#'
  }

  predicate Unstopped(s: string) {
    forall k :: 0 <= k < |s| ==> !Stops(s[k])
  }

  /** `text[:strings.IndexAny(text, "?#")]`, or all of it. */
  function Cut(s: string): string {
    if s == "" || Stops(s[0]) then "" else [s[0]] + Cut(s[1..])
  }

  /** `^\{\{[^{}]*\}\}`: the length of the interpolation a url opens with. */
  function VariableLength(s: string): (r: Option<nat>)
    ensures r.Some? ==> r.value <= |s|
  {
    if !HasPrefix(s, "{{") then None
    else
      var n := 2 + BracelessRun(s[2..]);
      if n + 2 <= |s| && s[n] == '}' && s[n + 1] == '}' then Some(n + 2) else None
  }

  predicate SchemeChar(c: char) {
    Letter(c) || '0' <= c <= '9' || c in {'+', '.', '-'}
  }

  function SchemeRun(s: string): (n: nat)
    ensures n <= |s|
    ensures forall k :: 0 <= k < n ==> SchemeChar(s[k])
    ensures n < |s| ==> !SchemeChar(s[n])
  {
    if s == "" || !SchemeChar(s[0]) then 0 else 1 + SchemeRun(s[1..])
  }

  /** `^[A-Za-z][A-Za-z0-9+.\-]*://[^/]*`: the length of the origin a url opens with. */
  function OriginLength(s: string): (r: Option<nat>)
    ensures r.Some? ==> r.value <= |s|
  {
    if s == "" || !Letter(s[0]) then None
    else
      var n := SchemeRun(s);
      if n + 3 <= |s| && s[n] == ':' && s[n + 1] == '/' && s[n + 2] == '/'
      then Some(n + 3 + IndexOf(s[n + 3..], '/'))
      else None
  }

  function StripBase(s: string): string {
    if VariableLength(s).Some? then s[VariableLength(s).value..]
    else if OriginLength(s).Some? then s[OriginLength(s).value..]
    else s
  }

  /** `^\{([^{}]+)\}$` */
  predicate Braced(segment: string) {
    |segment| >= 3 && segment[0] == '{' && segment[|segment| - 1] == '}' && Braceless(segment[1..|segment| - 1])
  }

  function Spell(segment: string): string {
    if Braced(segment) then ":" + segment[1..|segment| - 1] else segment
  }

  function Kept(segments: seq<string>): seq<string> {
    if segments == [] then []
    else (if segments[0] == "" then [] else [Spell(segments[0])]) + Kept(segments[1..])
  }

  function Segments(url: string): seq<string> {
    Kept(Split(StripBase(Cut(TrimSpace(url))), '/'))
  }

  function RoutePathOf(url: string): string {
    "/" + Join(Segments(url), "/")
  }

  /** `routePath`, with its loop over the segments. */
  method RoutePath(url: string) returns (path: string)
    ensures path == RoutePathOf(url)
  {
    var text := StripBase(Cut(TrimSpace(url)));
    var segments := Split(text, '/');
    var kept: seq<string> := [];
    for i := 0 to |segments|
      invariant kept + Kept(segments[i..]) == Kept(segments)
    {
      if segments[i] != "" {
        kept := kept + [Spell(segments[i])];
      }
    }
    assert kept + [] == kept;
    path := "/" + Join(kept, "/");
  }

  // ------------------------------------------------------------ lists of segments

  lemma {:induction false} KeptConcat(a: seq<string>, b: seq<string>)
    ensures Kept(a + b) == Kept(a) + Kept(b)
  {
    if a == [] {
      assert a + b == b;
    } else {
      assert (a + b)[1..] == a[1..] + b;
      KeptConcat(a[1..], b);
    }
  }

  /** A segment as it comes out: not empty, and not in braces. */
  predicate Normal(segment: string) {
    segment != "" && !Braced(segment) && '/' !in segment
  }

  predicate AllNormal(segments: seq<string>) {
    forall k :: 0 <= k < |segments| ==> Normal(segments[k])
  }

  lemma {:induction false} SpellNormal(segment: string)
    requires segment != "" && '/' !in segment
    ensures Normal(Spell(segment)) && Spell(Spell(segment)) == Spell(segment)
  {
    if Braced(segment) {
      assert Spell(segment)[0] == ':';
    }
  }

  lemma {:induction false} KeptNormal(segments: seq<string>)
    requires forall k :: 0 <= k < |segments| ==> '/' !in segments[k]
    ensures AllNormal(Kept(segments))
  {
    if segments != [] {
      KeptNormal(segments[1..]);
      if segments[0] != "" {
        SpellNormal(segments[0]);
      }
    }
  }

  lemma {:induction false} KeptOfNormal(segments: seq<string>)
    requires AllNormal(segments)
    ensures Kept(segments) == segments
  {
    if segments != [] {
      KeptOfNormal(segments[1..]);
      assert segments == [segments[0]] + segments[1..];
    }
  }

  /** Splitting a path gives its segments back. */
  lemma {:induction false} SplitPath(segments: seq<string>)
    requires AllNormal(segments)
    ensures Kept(Split("/" + Join(segments, "/"), '/')) == segments
  {
    var joined := Join(segments, "/");
    assert "/" + joined == "" + ['/'] + joined;
    SplitConcat("", joined, '/');
    KeptConcat([""], Split(joined, '/'));
    if segments == [] {
      assert Split(joined, '/') == [""];
    } else {
      SplitJoin(segments, '/');
      KeptOfNormal(segments);
    }
  }

  lemma {:induction false} SegmentsNormal(url: string)
    ensures AllNormal(Segments(url))
  {
    var text := StripBase(Cut(TrimSpace(url)));
    SplitPieces(text, '/');
    KeptNormal(Split(text, '/'));
  }

  // ------------------------------------------------------------ characters

  predicate Within(s: string, t: string) {
    forall k :: 0 <= k < |s| ==> s[k] in t || s[k] == '/' || s[k] == ':'
  }

  lemma {:induction false} TrimLeftWithin(s: string)
    ensures exists i: nat :: i <= |s| && TrimLeft(s) == s[i..]
  {
    if s != "" && IsSpace(s[0]) {
      TrimLeftWithin(s[1..]);
      var i: nat :| i <= |s| - 1 && TrimLeft(s[1..]) == s[1..][i..];
      assert s[1..][i..] == s[i + 1..];
    } else {
      assert s[0..] == s;
    }
  }

  lemma {:induction false} TrimRightPrefix(s: string)
    ensures |TrimRight(s)| <= |s| && TrimRight(s) == s[..|TrimRight(s)|]
  {
    if s != "" && IsSpace(s[|s| - 1]) {
      TrimRightPrefix(s[..|s| - 1]);
    }
  }

  lemma {:induction false} TrimWithin(s: string)
    ensures forall k :: 0 <= k < |TrimSpace(s)| ==> TrimSpace(s)[k] in s
  {
    TrimLeftWithin(s);
    TrimRightPrefix(TrimLeft(s));
  }

  lemma {:induction false} CutPrefix(s: string)
    ensures |Cut(s)| <= |s| && Cut(s) == s[..|Cut(s)|]
    ensures Unstopped(Cut(s))
  {
    if s != "" && !Stops(s[0]) {
      CutPrefix(s[1..]);
    }
  }

  lemma {:induction false} JoinKeptWithin(segments: seq<string>, t: string)
    requires forall i, k :: 0 <= i < |segments| && 0 <= k < |segments[i]| ==> segments[i][k] in t
    ensures Within(Join(Kept(segments), "/"), t)
  {
    if segments != [] {
      JoinKeptWithin(segments[1..], t);
      var rest := Kept(segments[1..]);
      if segments[0] == "" {
        assert Kept(segments) == rest;
      } else {
        var first := Spell(segments[0]);
        assert Within(first, t);
        assert Kept(segments) == [first] + rest && ([first] + rest)[1..] == rest;
        if rest != [] {
          assert Join(Kept(segments), "/") == first + "/" + Join(rest, "/");
        }
      }
    }
  }

  lemma {:induction false} SplitWithin(s: string, sep: char)
    ensures forall i, k :: 0 <= i < |Split(s, sep)| && 0 <= k < |Split(s, sep)[i]| ==> Split(s, sep)[i][k] in s
  {
    if s != "" {
      SplitWithin(s[1..], sep);
      var tail := Split(s[1..], sep);
      forall i, k | 0 <= i < |Split(s, sep)| && 0 <= k < |Split(s, sep)[i]| ensures Split(s, sep)[i][k] in s {
        if s[0] == sep {
          if i > 0 {
            assert Split(s, sep)[i] == tail[i - 1];
          }
        } else if i == 0 {
          if k > 0 {
            assert Split(s, sep)[0][k] == tail[0][k - 1];
          }
        } else {
          assert Split(s, sep)[i] == tail[i];
        }
      }
    }
  }

  /** A path holds only characters of its url, slashes and colons. */
  lemma {:induction false} PathWithin(url: string)
    ensures Within(RoutePathOf(url), url)
    ensures Unstopped(RoutePathOf(url))
  {
    var text := TrimSpace(url);
    var cut := Cut(text);
    TrimWithin(url);
    CutPrefix(text);
    var rest := StripBase(cut);
    SplitWithin(rest, '/');
    assert forall k :: 0 <= k < |cut| ==> cut[k] in url by {
      assert forall k :: 0 <= k < |cut| ==> cut[k] == text[k];
    }
    assert forall k :: 0 <= k < |rest| ==> rest[k] in cut;
    var parts := Split(rest, '/');
    forall i, k | 0 <= i < |parts| && 0 <= k < |parts[i]| ensures parts[i][k] in url && parts[i][k] in cut {
      assert parts[i][k] in rest;
    }
    JoinKeptWithin(parts, url);
    JoinKeptWithin(parts, cut);
  }

  // ------------------------------------------------------------ idempotence

  predicate EndsInSpace(s: string) {
    s != "" && IsSpace(s[|s| - 1])
  }

  lemma {:induction false} TrimNoop(s: string)
    requires s != "" && !IsSpace(s[0]) && !EndsInSpace(s)
    ensures TrimSpace(s) == s
  {
  }

  lemma {:induction false} CutNoop(s: string)
    requires Unstopped(s)
    ensures Cut(s) == s
  {
    if s != "" {
      CutNoop(s[1..]);
      assert [s[0]] + s[1..] == s;
    }
  }

  /** Reading the text of a path that has a slash in front and nothing to cut. */
  lemma {:induction false} SlashLed(s: string)
    requires s != "" && s[0] == '/'
    ensures StripBase(s) == s
  {
  }

  lemma {:induction false} JoinKeptShrinks(segments: seq<string>)
    ensures |Join(Kept(segments), "/")| <= |Join(segments, "/")|
    ensures segments != [] && segments[0] == "" ==>
        |Join(Kept(segments), "/")| + 1 <= |Join(segments, "/")| + if |segments| == 1 then 1 else 0
  {
    if segments != [] {
      JoinKeptShrinks(segments[1..]);
      var rest := Kept(segments[1..]);
      if segments[0] != "" {
        assert Kept(segments)[1..] == rest;
        assert Join(Kept(segments), "/") == if rest == [] then Spell(segments[0])
            else Spell(segments[0]) + "/" + Join(rest, "/");
        if |segments| == 1 {
          assert segments[1..] == [];
        } else {
          assert Join(segments, "/") == segments[0] + "/" + Join(segments[1..], "/");
        }
      } else {
        assert Kept(segments) == rest;
      }
    }
  }

  lemma {:induction false} IdempotentByPath(url: string)
    ensures RoutePathOf(RoutePathOf(url)) == RoutePathOf(url) <==> !EndsInSpace(RoutePathOf(url))
  {
    var path := RoutePathOf(url);
    SegmentsNormal(url);
    PathWithin(url);
    if EndsInSpace(path) {
      var text := TrimSpace(path);
      TrimRightPrefix(path);
      TrimRightKeeps(path);
      assert |text| < |path| by {
        TrimRightPrefix(path[..|path| - 1]);
      }
      CutNoop(text);
      SlashLed(text);
      var parts := Split(text, '/');
      SplitPieces(text, '/');
      assert text == [text[0]] + text[1..];
      JoinKeptShrinks(parts);
      assert Join([""], "/") == "";
      assert |parts| > 1;
      assert |RoutePathOf(path)| <= |text|;
    } else {
      TrimNoop(path);
      CutNoop(path);
      SlashLed(path);
      SplitPath(Segments(url));
    }
  }

  /** The last piece that is not empty, if there is one. */
  function LastPiece(pieces: seq<string>): string {
    if pieces == [] then ""
    else if pieces[|pieces| - 1] != "" then pieces[|pieces| - 1]
    else LastPiece(pieces[..|pieces| - 1])
  }

  /** The last segment of the url ends in a space character, inside its braces if it is `{p}`. */
  predicate SpacedSegment(url: string) {
    var q := LastPiece(Split(StripBase(Cut(TrimSpace(url))), '/'));
    q != "" && IsSpace(q[if Braced(q) then |q| - 2 else |q| - 1])
  }

  lemma {:induction false} KeptLast(pieces: seq<string>)
    ensures LastPiece(pieces) == "" ==> Kept(pieces) == []
    ensures LastPiece(pieces) != "" ==>
      Kept(pieces) != [] && Kept(pieces)[|Kept(pieces)| - 1] == Spell(LastPiece(pieces))
  {
    if pieces != [] {
      var n := |pieces| - 1;
      KeptLast(pieces[..n]);
      KeptConcat(pieces[..n], [pieces[n]]);
      assert pieces == pieces[..n] + [pieces[n]];
      KeptSingle(pieces[n]);
    }
  }

  lemma {:induction false} JoinLast(segments: seq<string>)
    requires segments != [] && segments[|segments| - 1] != ""
    ensures var joined, last := Join(segments, "/"), segments[|segments| - 1];
      joined != "" && joined[|joined| - 1] == last[|last| - 1]
  {
    if |segments| > 1 {
      JoinLast(segments[1..]);
    }
  }

  lemma {:induction false} SpellLast(q: string)
    requires q != ""
    ensures Spell(q) != "" && Spell(q)[|Spell(q)| - 1] == q[if Braced(q) then |q| - 2 else |q| - 1]
  {
  }

  lemma {:induction false} SlashThen(joined: string)
    ensures EndsInSpace("/" + joined) <==> EndsInSpace(joined)
  {
    assert joined != "" ==> ("/" + joined)[|joined|] == joined[|joined| - 1];
  }

  /** Where the path ends in a space character, told from the url. */
  lemma {:induction false} PathEndsInSpace(url: string)
    ensures EndsInSpace(RoutePathOf(url)) <==> SpacedSegment(url)
  {
    hide Split, StripBase, Cut, TrimSpace, Kept, Spell, Braced, LastPiece;
    var pieces := Split(StripBase(Cut(TrimSpace(url))), '/');
    var q := LastPiece(pieces);
    KeptLast(pieces);
    SlashThen(Join(Kept(pieces), "/"));
    if q != "" {
      SpellLast(q);
      JoinLast(Kept(pieces));
    }
  }

  /** Reducing a path again changes nothing, exactly when the last segment of the url does not
      end in a space character. */
  lemma {:induction false} RoutePathIdempotent(url: string)
    ensures RoutePathOf(RoutePathOf(url)) == RoutePathOf(url) <==> !SpacedSegment(url)
  {
    PathEndsInSpace(url);
    IdempotentByPath(url);
  }

  lemma {:induction false} SpacedSegments()
    ensures Split("/a /", '/') == ["", "a ", ""] && Kept(["", "a ", ""]) == ["a "]
  {
    assert "/a /" == "" + "/" + "a " + "/" + "";
    SplitConcat("" + "/" + "a ", "", '/');
    SplitConcat("", "a ", '/');
    SplitWithout("a ", '/');
    SplitWithout("", '/');
    assert ["", "a ", ""][1..] == ["a ", ""] && ["a ", ""][1..] == [""] && [""][1..] == [];
  }

  /** Where it does: a space inside the url that ends up at the end of the path. */
  lemma {:induction false} SpaceAtTheEnd()
    ensures RoutePathOf("/a /") == "/a "
    ensures RoutePathOf(RoutePathOf("/a /")) != RoutePathOf("/a /")
  {
    var url := "/a /";
    TrimNoop(url);
    CutNoop(url);
    SlashLed(url);
    SpacedSegments();
    assert "/" + "a " == "/a ";
    IdempotentByPath(url);
  }

  /** The first character survives when it is no space. */
  lemma {:induction false} TrimRightKeeps(s: string)
    requires s != "" && !IsSpace(s[0])
    ensures TrimRight(s) != "" && TrimRight(s)[0] == s[0]
  {
    if IsSpace(s[|s| - 1]) {
      TrimRightKeeps(s[..|s| - 1]);
    }
  }

  /** In particular for every url without whitespace. */
  lemma {:induction false} RoutePathIdempotentOnPlainUrls(url: string)
    requires forall k :: 0 <= k < |url| ==> !IsSpace(url[k])
    ensures RoutePathOf(RoutePathOf(url)) == RoutePathOf(url)
  {
    PathWithin(url);
    IdempotentByPath(url);
  }

  // ------------------------------------------------------------ what comes before and after

  lemma {:induction false} TrimRightConcat(a: string, b: string)
    requires b != "" && !IsSpace(b[0])
    ensures TrimRight(a + b) == a + TrimRight(b)
    ensures TrimRight(b) != "" && TrimRight(b)[0] == b[0]
  {
    if IsSpace(b[|b| - 1]) {
      assert (a + b)[..|a + b| - 1] == a + b[..|b| - 1];
      TrimRightConcat(a, b[..|b| - 1]);
    }
  }

  lemma {:induction false} CutCons(c: char, s: string)
    ensures Cut([c] + s) == if Stops(c) then "" else [c] + Cut(s)
  {
    assert ([c] + s)[1..] == s;
  }

  lemma {:induction false} CutConcat(a: string, b: string)
    ensures Cut(a + b) == if Unstopped(a) then a + Cut(b) else Cut(a)
  {
    if a == "" {
      assert a + b == b;
    } else {
      var first, rest := [a[0]], a[1..];
      assert a == first + rest && a + b == first + (rest + b);
      CutCons(a[0], rest + b);
      CutCons(a[0], rest);
      CutConcat(rest, b);
      UnstoppedTail(a);
      Assoc(first, rest, Cut(b));
    }
  }

  lemma {:induction false} UnstoppedTail(a: string)
    requires a != ""
    ensures Unstopped(a) <==> !Stops(a[0]) && Unstopped(a[1..])
  {
    assert a == [a[0]] + a[1..];
  }

  /** The text of a slash-led path behind a server that is not blank and has nothing to cut. */
  lemma {:induction false} BehindServer(server: string, path: string)
    requires server != "" && !IsSpace(server[0]) && Unstopped(server)
    requires path != "" && path[0] == '/'
    ensures Cut(TrimSpace(path)) != "" && Cut(TrimSpace(path))[0] == '/'
    ensures Cut(TrimSpace(server + path)) == server + Cut(TrimSpace(path))
  {
    assert TrimLeft(server + path) == server + path && TrimLeft(path) == path;
    TrimRightConcat(server, path);
    TrimRightConcat("", path);
    CutConcat(server, TrimRight(path));
  }

  /** `{{v}}/path` is the same route as `/path`. */
  lemma {:induction false} RouteIgnoresVariable(v: string, path: string)
    requires Braceless(v) && Unstopped(v)
    requires path != "" && path[0] == '/'
    ensures RoutePathOf("{{" + v + "}}" + path) == RoutePathOf(path)
  {
    var server := "{{" + v + "}}";
    BehindServer(server, path);
    var rest := Cut(TrimSpace(path));
    var s := server + rest;
    assert s[..2] == "{{" && s[2..] == v + ("}}" + rest);
    BracelessRunIs(v, "}}" + rest);
    assert VariableLength(s) == Some(|server|);
    assert s[|server|..] == rest;
    SlashLed(rest);
  }

  lemma {:induction false} SchemeRunIs(s: string, rest: string)
    requires forall k :: 0 <= k < |s| ==> SchemeChar(s[k])
    requires rest == "" || !SchemeChar(rest[0])
    ensures SchemeRun(s + rest) == |s|
  {
    if s == "" {
      assert s + rest == rest;
    } else {
      assert (s + rest)[1..] == s[1..] + rest;
      SchemeRunIs(s[1..], rest);
    }
  }

  predicate Scheme(s: string) {
    s != "" && Letter(s[0]) && forall k :: 0 <= k < |s| ==> SchemeChar(s[k])
  }

  lemma {:induction false} OriginIs(s: string, n: nat, m: nat)
    requires s != "" && Letter(s[0]) && SchemeRun(s) == n
    requires n + 3 <= |s| && s[n] == ':' && s[n + 1] == '/' && s[n + 2] == '/'
    requires IndexOf(s[n + 3..], '/') == m
    ensures StripBase(s) == s[n + 3 + m..]
  {
    hide IndexOf, SchemeRun, BracelessRun;
    assert VariableLength(s).None?;
  }

  lemma {:induction false} AfterScheme(scheme: string, after: string)
    ensures var s, n := scheme + ("://" + after), |scheme|;
      s[n] == ':' && s[n + 1] == '/' && s[n + 2] == '/' && s[n + 3..] == after
  {
    var s, n := scheme + ("://" + after), |scheme|;
    assert s[n..] == "://" + after;
    assert s[n] == s[n..][0] && s[n + 1] == s[n..][1] && s[n + 2] == s[n..][2];
  }

  lemma {:induction false} StripOrigin(scheme: string, host: string, rest: string)
    requires Scheme(scheme) && '/' !in host && rest != "" && rest[0] == '/'
    ensures StripBase(scheme + "://" + host + rest) == rest
  {
    var n, after := |scheme|, host + rest;
    var s := scheme + ("://" + after);
    assert scheme + "://" + host + rest == s;
    AfterScheme(scheme, after);
    SchemeRunIs(scheme, "://" + after);
    IndexOfIs(host, rest, '/');
    OriginIs(s, n, |host|);
    DropPast(host, rest, 0);
    assert s[n + 3 + |host|..] == s[n + 3..][|host|..];
  }

  /** `scheme://host/path` is the same route as `/path`. */
  lemma {:induction false} RouteIgnoresOrigin(scheme: string, host: string, path: string)
    requires Scheme(scheme) && '/' !in host && Unstopped(host)
    requires path != "" && path[0] == '/'
    ensures RoutePathOf(scheme + "://" + host + path) == RoutePathOf(path)
  {
    var server := scheme + "://" + host;
    forall k | 0 <= k < |server| ensures !Stops(server[k]) {
      assert server[k] ==
        if k < |scheme| then scheme[k]
        else if k < |scheme| + 3 then "://"[k - |scheme|] else host[k - |scheme| - 3];
    }
    BehindServer(server, path);
    StripOrigin(scheme, host, Cut(TrimSpace(path)));
    SlashLed(Cut(TrimSpace(path)));
  }

  lemma {:induction false} TrimLeftConcat(a: string, b: string)
    requires b == "" || !IsSpace(b[0])
    ensures TrimLeft(a + b) == TrimLeft(a) + b
  {
    if a == "" {
      assert a + b == b;
    } else if IsSpace(a[0]) {
      assert (a + b)[1..] == a[1..] + b;
      TrimLeftConcat(a[1..], b);
    }
  }

  // ------------------------------------------------------------ a query or a fragment behind

  /** Whitespace that a query is behind is not trimmed. */
  lemma {:induction false} QueryCut(url: string, query: string)
    requires Unstopped(url) && query != "" && Stops(query[0])
    ensures Cut(TrimSpace(url + query)) == TrimLeft(url)
    ensures Cut(TrimSpace(url)) == TrimRight(TrimLeft(url))
  {
    TrimLeftConcat(url, query);
    var lead := TrimLeft(url);
    TrimRightConcat(lead, query);
    CutConcat(lead, TrimRight(query));
    TrimLeftWithin(url);
    assert forall k :: 0 <= k < |lead| ==> lead[k] in url;
    TrimRightPrefix(lead);
    CutNoop(lead);
    CutNoop(TrimRight(lead));
    assert lead + "" == lead;
  }

  lemma {:induction false} TrimLeftStarts(s: string)
    ensures TrimLeft(s) != "" ==> !IsSpace(TrimLeft(s)[0]) && (EndsInSpace(TrimLeft(s)) <==> EndsInSpace(s))
  {
    if s != "" && IsSpace(s[0]) {
      TrimLeftStarts(s[1..]);
    }
  }

  lemma {:induction false} TrimRightRest(s: string) returns (space: string)
    requires EndsInSpace(s) && !IsSpace(s[0])
    ensures s == TrimRight(s) + space && space != "" && AllSpace(space)
    ensures TrimRight(s) != "" && !EndsInSpace(TrimRight(s))
  {
    var n := |s| - 1;
    if EndsInSpace(s[..n]) {
      var more := TrimRightRest(s[..n]);
      space := more + [s[n]];
      assert s == s[..n] + [s[n]];
    } else {
      space := [s[n]];
      assert s == s[..n] + space;
    }
  }

  // ------------------------------------------------------------ the base in front of whitespace

  lemma {:induction false} BracelessRunBeforeSpace(v: string, space: string)
    requires AllSpace(space)
    ensures BracelessRun(v + space) == if Braceless(v) then |v + space| else BracelessRun(v)
  {
    if v == "" {
      assert v + space == space;
      assert forall k :: 0 <= k < |space| ==> !Brace(space[k]);
      BracelessRunIs(space, "");
      assert space + "" == space;
    } else {
      assert (v + space)[1..] == v[1..] + space;
      assert Braceless(v) <==> !Brace(v[0]) && Braceless(v[1..]) by {
        assert v == [v[0]] + v[1..];
      }
      BracelessRunBeforeSpace(v[1..], space);
    }
  }

  lemma {:induction false} BracelessRunAll(v: string)
    requires Braceless(v)
    ensures BracelessRun(v) == |v|
  {
    BracelessRunIs(v, "");
    assert v + "" == v;
  }

  lemma {:induction false} VariableBeforeSpace(v: string, space: string)
    requires AllSpace(space)
    ensures VariableLength(v + space) == VariableLength(v)
  {
    var s := v + space;
    assert forall k :: |v| <= k < |s| ==> s[k] == space[k - |v|] && IsSpace(s[k]);
    if HasPrefix(s, "{{") {
      assert s[..2][0] == '{' && s[..2][1] == '{';
      assert |v| >= 2 && v[..2] == s[..2];
      assert s[2..] == v[2..] + space;
      BracelessRunBeforeSpace(v[2..], space);
      if Braceless(v[2..]) {
        BracelessRunAll(v[2..]);
      }
    }
  }

  lemma {:induction false} SchemeRunBeforeSpace(v: string, space: string)
    requires AllSpace(space)
    ensures SchemeRun(v + space) == SchemeRun(v)
  {
    if v == "" {
      assert v + space == space;
    } else {
      assert (v + space)[1..] == v[1..] + space;
      SchemeRunBeforeSpace(v[1..], space);
    }
  }

  lemma {:induction false} IndexBeforeSpace(v: string, space: string)
    requires AllSpace(space)
    ensures IndexOf(v + space, '/') == if '/' in v then IndexOf(v, '/') else |v + space|
    ensures '/' !in v ==> IndexOf(v, '/') == |v|
  {
    if v == "" {
      assert v + space == space && space + "" == space;
      IndexOfIs(space, "", '/');
    } else {
      assert (v + space)[1..] == v[1..] + space;
      IndexBeforeSpace(v[1..], space);
      assert v == [v[0]] + v[1..];
    }
  }

  lemma {:induction false} OriginBeforeSpace(v: string, space: string)
    requires v != "" && AllSpace(space)
    ensures OriginLength(v).None? <==> OriginLength(v + space).None?
    ensures OriginLength(v).Some? ==>
      || OriginLength(v + space) == OriginLength(v)
      || (OriginLength(v).value == |v| && OriginLength(v + space).value == |v + space|)
  {
    hide SchemeRun, IndexOf;
    var s, n := v + space, SchemeRun(v);
    SchemeRunBeforeSpace(v, space);
    assert forall k :: |v| <= k < |s| ==> s[k] == space[k - |v|] && IsSpace(s[k]);
    if n + 3 <= |v| {
      assert s[n] == v[n] && s[n + 1] == v[n + 1] && s[n + 2] == v[n + 2];
      DropWithin(v, space, n + 3);
      IndexBeforeSpace(v[n + 3..], space);
    } else if n + 3 <= |s| {
      assert IsSpace(s[n + 2]);
    }
  }

  /** The base in front stays what it is, unless it is an origin that goes to the very end. */
  lemma {:induction false} BaseBeforeSpace(v: string, space: string)
    requires v != "" && space != "" && AllSpace(space)
    ensures StripBase(v + space) == StripBase(v) + space || (StripBase(v + space) == "" && StripBase(v) == "")
  {
    VariableBeforeSpace(v, space);
    OriginBeforeSpace(v, space);
    if VariableLength(v).Some? {
      DropWithin(v, space, VariableLength(v).value);
    } else if OriginLength(v).Some? {
      DropWithin(v, space, OriginLength(v).value);
    }
  }

  lemma {:induction false} StripBaseTail(v: string)
    requires !EndsInSpace(v)
    ensures !EndsInSpace(StripBase(v))
  {
  }

  // ------------------------------------------------------------ whitespace behind the last segment

  lemma {:induction false} FirstPieces(c: char, rest: seq<string>, tail: string)
    requires rest != []
    ensures var m := |rest| - 1;
      var longer, pieces := rest[m := rest[m] + tail], [[c] + rest[0]] + rest[1..];
      [[c] + longer[0]] + longer[1..] == pieces[m := pieces[m] + tail]
  {
    if |rest| == 1 {
      assert [c] + (rest[0] + tail) == ([c] + rest[0]) + tail;
    }
  }

  lemma {:induction false} SplitLast(x: string)
    ensures var last := Split(x, '/')[|Split(x, '/')| - 1];
      last != "" ==> x != "" && last[|last| - 1] == x[|x| - 1]
  {
    if x != "" {
      SplitLast(x[1..]);
    }
  }

  lemma {:induction false} SplitTail(x: string, tail: string)
    requires '/' !in tail
    ensures var pieces, n := Split(x, '/'), |Split(x, '/')| - 1;
      Split(x + tail, '/') == pieces[n := pieces[n] + tail]
  {
    if x == "" {
      assert x + tail == tail && "" + tail == tail;
      SplitWithout(tail, '/');
    } else {
      SplitTail(x[1..], tail);
      SplitTailCons(x[0], x[1..], tail);
      assert x == [x[0]] + x[1..];
      assert x + tail == [x[0]] + (x[1..] + tail);
    }
  }

  lemma {:induction false} SplitTailCons(c: char, x: string, tail: string)
    requires var pieces, n := Split(x, '/'), |Split(x, '/')| - 1; Split(x + tail, '/') == pieces[n := pieces[n] + tail]
    ensures var pieces, n := Split([c] + x, '/'), |Split([c] + x, '/')| - 1;
      Split([c] + (x + tail), '/') == pieces[n := pieces[n] + tail]
  {
    hide Split;
    var rest := Split(x, '/');
    var m := |rest| - 1;
    SplitCons(c, x, '/');
    SplitCons(c, x + tail, '/');
    if c == '/' {
      assert [""] + rest[m := rest[m] + tail] == ([""] + rest)[m + 1 := rest[m] + tail];
    } else {
      FirstPieces(c, rest, tail);
    }
  }

  lemma {:induction false} KeptSingle(piece: string)
    ensures Kept([piece]) == if piece == "" then [] else [Spell(piece)]
  {
    var none: seq<string> := [];
    assert [piece][1..] == none && Kept(none) == none;
  }

  /** Whitespace behind the last piece is kept, in a segment of its own or at the end of one. */
  lemma {:induction false} LastSpaced(piece: string, space: string)
    requires space != "" && AllSpace(space) && !EndsInSpace(piece)
    ensures Kept([piece + space]) != Kept([piece])
  {
    var longer := piece + space;
    assert longer[|longer| - 1] == space[|space| - 1];
    KeptSingle(longer);
    KeptSingle(piece);
    assert !Braced(longer) && Kept([longer]) == [longer];
    if piece != "" {
      assert longer[0] == piece[0] && |longer| > |piece|;
      assert Braced(piece) ==> Spell(piece)[0] == ':';
    }
  }

  lemma {:induction false} KeptSpaced(x: string, space: string)
    requires space != "" && AllSpace(space) && !EndsInSpace(x)
    ensures Kept(Split(x + space, '/')) != Kept(Split(x, '/'))
  {
    hide Split, Kept, Spell;
    var pieces := Split(x, '/');
    var n := |pieces| - 1;
    SplitLast(x);
    SplitTail(x, space);
    LastSpaced(pieces[n], space);
    KeptConcat(pieces[..n], [pieces[n]]);
    KeptConcat(pieces[..n], [pieces[n] + space]);
    assert pieces == pieces[..n] + [pieces[n]];
    assert pieces[n := pieces[n] + space] == pieces[..n] + [pieces[n] + space];
    var before, one, two := Kept(pieces[..n]), Kept([pieces[n]]), Kept([pieces[n] + space]);
    assert (before + one)[|before|..] == one && (before + two)[|before|..] == two;
  }

  /** Two lists of segments with one path are the same list. */
  lemma {:induction false} PathInjective(a: seq<string>, b: seq<string>)
    requires AllNormal(a) && AllNormal(b) && "/" + Join(a, "/") == "/" + Join(b, "/")
    ensures a == b
  {
    SplitPath(a);
    SplitPath(b);
  }

  /** Appending a query or a fragment does not change the route, exactly when the url does not
      end in whitespace, or ends with the host of its origin, or is blank: what stands between
      the path and the query is not trimmed. */
  lemma {:induction false} RouteIgnoresQuery(url: string, query: string)
    requires Unstopped(url)
    requires query != "" && Stops(query[0])
    ensures RoutePathOf(url + query) == RoutePathOf(url) <==> !EndsInSpace(url) || StripBase(TrimLeft(url)) == ""
  {
    var lead := TrimLeft(url);
    QueryCut(url, query);
    TrimLeftStarts(url);
    if EndsInSpace(url) && lead != "" {
      var space := TrimRightRest(lead);
      BaseBeforeSpace(TrimRight(lead), space);
      StripBaseTail(TrimRight(lead));
      if StripBase(lead) != "" {
        KeptSpaced(StripBase(TrimRight(lead)), space);
        SegmentsNormal(url + query);
        SegmentsNormal(url);
        if RoutePathOf(url + query) == RoutePathOf(url) {
          PathInjective(Segments(url + query), Segments(url));
        }
      }
    }
  }

  /** Where it does change: whitespace in front of the query. */
  lemma {:induction false} SpaceBeforeQuery()
    ensures RoutePathOf("/a " + "?b") != RoutePathOf("/a ")
  {
    assert "/a "[2] == ' ' && TrimLeft("/a ") == "/a ";
    SlashLed("/a ");
    RouteIgnoresQuery("/a ", "?b");
  }
}
