/** daggerverse/bruno: what a url is reduced to, in terms of the text around its parts. */
module BruRouteReads {
  import opened Text
  import opened BruParse
  import opened BruRoute

  // ------------------------------------------------------------ the parts

  /** `s` up to its query or its fragment. */
  ghost predicate BeforeQuery(s: string, t: string) {
    '?' !in t && '#' !in t && exists tail :: s == t + tail && (tail == "" || tail[0] == '?' || tail[0] == '#')
  }

  predicate NoBraces(v: string) {
    '{' !in v && '}' !in v
  }

  /** `s` opens with an interpolation, and `rest` is behind it. */
  ghost predicate BehindVariable(s: string, rest: string) {
    exists v :: InBraces(s, v, rest)
  }

  predicate InBraces(s: string, v: string, rest: string) {
    NoBraces(v) && s == "{{" + (v + ("}}" + rest))
  }

  predicate SchemeSpelled(scheme: string) {
    && scheme != "" && ('a' <= scheme[0] <= 'z' || 'A' <= scheme[0] <= 'Z')
    && forall k :: 0 <= k < |scheme| ==>
         'a' <= scheme[k] <= 'z' || 'A' <= scheme[k] <= 'Z' || '0' <= scheme[k] <= '9'
         || scheme[k] == '+' || scheme[k] == '.' || scheme[k] == '-'
  }

  /** `s` opens with a scheme and a host, and `rest` is behind them. */
  ghost predicate BehindOrigin(s: string, rest: string) {
    exists scheme, host :: FromOrigin(s, scheme, host, rest)
  }

  predicate FromOrigin(s: string, scheme: string, host: string, rest: string) {
    && SchemeSpelled(scheme) && '/' !in host && (rest == "" || rest[0] == '/')
    && s == scheme + ("://" + (host + rest))
  }

  /** What is left of a url without its server: the interpolation in front, or else the origin. */
  ghost predicate Based(s: string, rest: string) {
    || BehindVariable(s, rest)
    || (BehindOrigin(s, rest) && forall other :: !BehindVariable(s, other))
    || (s == rest && forall other :: !BehindVariable(s, other) && !BehindOrigin(s, other))
  }

  /** A parameter in braces is spelled with a colon, every other segment as it is. */
  ghost predicate Spelled(piece: string, segment: string) {
    || (exists p :: Parameter(piece, p) && segment == ":" + p)
    || (segment == piece && forall p :: !Parameter(piece, p))
  }

  predicate Parameter(piece: string, p: string) {
    p != "" && NoBraces(p) && piece == "{" + p + "}"
  }

  /** The pieces that are not empty, spelled, in their order. */
  ghost predicate Respelled(pieces: seq<string>, segments: seq<string>) {
    if pieces == [] then segments == []
    else if pieces[0] == "" then Respelled(pieces[1..], segments)
    else segments != [] && Spelled(pieces[0], segments[0]) && Respelled(pieces[1..], segments[1..])
  }

  /** The path of a url: trimmed, without query, without server, a slash before each segment. */
  ghost predicate Reduces(url: string, path: string) {
    exists text, kept, rest, pieces, segments ::
      Stages(url, text, kept, rest, pieces, segments) && path == "/" + Join(segments, "/")
  }

  ghost predicate Stages(
      url: string, text: string, kept: string, rest: string, pieces: seq<string>, segments: seq<string>) {
    && Inside(url, text) && BeforeQuery(text, kept) && Based(kept, rest)
    && Parted(rest, pieces) && Respelled(pieces, segments)
  }

  /** A text between its slashes. */
  predicate Parted(rest: string, pieces: seq<string>) {
    pieces != [] && Join(pieces, "/") == rest && forall k :: 0 <= k < |pieces| ==> '/' !in pieces[k]
  }

  // ------------------------------------------------------------ each part is read

  lemma {:induction false} CutExactly(s: string, t: string)
    ensures BeforeQuery(s, t) <==> t == Cut(s)
  {
    CutPrefix(s);
    CutRest(s);
    assert s == Cut(s) + s[|Cut(s)|..];
    if BeforeQuery(s, t) {
      var tail :| s == t + tail && (tail == "" || tail[0] == '?' || tail[0] == '#');
      CutConcat(t, tail);
      assert t + "" == t;
    }
  }

  lemma {:induction false} CutRest(s: string)
    ensures |Cut(s)| <= |s| && (|Cut(s)| < |s| ==> Stops(s[|Cut(s)|]))
  {
    if s != "" && !Stops(s[0]) {
      CutRest(s[1..]);
    }
  }

  lemma {:induction false} VariableParts(s: string, v: string, rest: string)
    requires InBraces(s, v, rest)
    ensures VariableLength(s) == Some(|v| + 4) && s[|v| + 4..] == rest
  {
    var inner := v + ("}}" + rest);
    BracelessRunIs(v, "}}" + rest);
    assert s[..2] == "{{" && s[2..] == inner;
    assert inner[|v|..] == "}}" + rest;
    assert s[|v| + 2] == inner[|v|] && s[|v| + 3] == inner[|v| + 1];
    assert inner[|v|] == ("}}" + rest)[0] && inner[|v| + 1] == ("}}" + rest)[1];
    assert s[|v| + 4..] == inner[|v| + 2..];
    DropPast(v, "}}" + rest, 2);
  }

  lemma {:induction false} VariableExactly(s: string, rest: string)
    ensures BehindVariable(s, rest) <==> VariableLength(s).Some? && rest == s[VariableLength(s).value..]
  {
    hide VariableLength;
    if v :| InBraces(s, v, rest) {
      VariableParts(s, v, rest);
    }
    if VariableLength(s).Some? && rest == s[VariableLength(s).value..] {
      VariableFound(s);
    }
  }

  lemma {:induction false} VariableFound(s: string)
    requires VariableLength(s).Some?
    ensures BehindVariable(s, s[VariableLength(s).value..])
  {
    var n := BracelessRun(s[2..]);
    var v, close, rest := s[2..n + 2], s[n + 2..n + 4], s[n + 4..];
    assert v == s[2..][..n] && NoBraces(v);
    assert close == "}}";
    assert s[n + 2..] == close + rest;
    assert s[2..] == v + s[n + 2..];
    assert s == s[..2] + s[2..];
    assert InBraces(s, v, rest);
  }

  lemma {:induction false} OriginParts(s: string, scheme: string, host: string, rest: string)
    requires FromOrigin(s, scheme, host, rest)
    ensures OriginLength(s) == Some(|scheme| + 3 + |host|) && s[|scheme| + 3 + |host|..] == rest
  {
    hide SchemeRun, IndexOf;
    var n, after := |scheme|, host + rest;
    AfterScheme(scheme, after);
    SchemeRunIs(scheme, "://" + after);
    IndexOfIs(host, rest, '/');
    DropPast(host, rest, 0);
    assert s[n + 3 + |host|..] == s[n + 3..][|host|..];
  }

  lemma {:induction false} OriginExactly(s: string, rest: string)
    ensures BehindOrigin(s, rest) <==> OriginLength(s).Some? && rest == s[OriginLength(s).value..]
  {
    hide SchemeRun, IndexOf;
    if scheme, host :| FromOrigin(s, scheme, host, rest) {
      OriginParts(s, scheme, host, rest);
    }
    if OriginLength(s).Some? && rest == s[OriginLength(s).value..] {
      var n := SchemeRun(s);
      var m := IndexOf(s[n + 3..], '/');
      SchemeStarts(s);
      OriginSpelled(s, n, m, rest);
    }
  }

  lemma {:induction false} SchemeStarts(s: string)
    requires s != "" && Letter(s[0])
    ensures SchemeRun(s) > 0
  {
  }

  lemma {:induction false} OriginSpelled(s: string, n: nat, m: nat, rest: string)
    requires 0 < n && n + 3 + m <= |s| && Letter(s[0]) && forall k :: 0 <= k < n ==> SchemeChar(s[k])
    requires s[n] == ':' && s[n + 1] == '/' && s[n + 2] == '/'
    requires '/' !in s[n + 3..][..m] && (n + 3 + m < |s| ==> s[n + 3..][m] == '/')
    requires rest == s[n + 3 + m..]
    ensures BehindOrigin(s, rest)
  {
    var scheme, host := s[..n], s[n + 3..][..m];
    assert s[n + 3..] == host + rest;
    assert s[n..] == "://" + s[n + 3..];
    assert s == scheme + s[n..];
    assert rest != "" ==> rest[0] == s[n + 3..][m];
    assert FromOrigin(s, scheme, host, rest);
  }

  /** The server comes off a url. */
  lemma {:induction false} StripBaseExactly(s: string, rest: string)
    ensures Based(s, rest) <==> rest == StripBase(s)
  {
    hide VariableLength, OriginLength;
    forall other
      ensures BehindVariable(s, other) <==> VariableLength(s).Some? && other == s[VariableLength(s).value..]
      ensures BehindOrigin(s, other) <==> OriginLength(s).Some? && other == s[OriginLength(s).value..]
    {
      VariableExactly(s, other);
      OriginExactly(s, other);
    }
    assert BehindVariable(s, StripBase(s)) || VariableLength(s).None?;
    assert BehindOrigin(s, StripBase(s)) || OriginLength(s).None? || VariableLength(s).Some?;
  }

  lemma {:induction false} SpellExactly(piece: string, segment: string)
    ensures Spelled(piece, segment) <==> segment == Spell(piece)
  {
    forall p | Parameter(piece, p) ensures Braced(piece) && p == piece[1..|piece| - 1] {
      assert piece[1..|piece| - 1] == p;
    }
    if Braced(piece) {
      var p := piece[1..|piece| - 1];
      assert piece == [piece[0]] + p + [piece[|piece| - 1]];
      assert Parameter(piece, p);
    }
  }

  lemma {:induction false} KeptExactly(pieces: seq<string>, segments: seq<string>)
    ensures Respelled(pieces, segments) <==> segments == Kept(pieces)
  {
    hide Spelled, Spell;
    if pieces != [] {
      var rest := Kept(pieces[1..]);
      if pieces[0] == "" {
        KeptExactly(pieces[1..], segments);
        assert [] + rest == rest;
      } else if segments != [] {
        KeptExactly(pieces[1..], segments[1..]);
        SpellExactly(pieces[0], segments[0]);
        assert segments == [segments[0]] + segments[1..];
      }
    }
  }

  lemma {:induction false} PartsExactly(rest: string, pieces: seq<string>)
    ensures Parted(rest, pieces) <==> pieces == Split(rest, '/')
  {
    SplitPieces(rest, '/');
    if Parted(rest, pieces) {
      SplitJoin(pieces, '/');
    }
  }

  /** The path a url is reduced to. */
  lemma {:induction false} RoutePathExactly(url: string, path: string)
    ensures path == RoutePathOf(url) <==> Reduces(url, path)
  {
    hide Inside, TrimSpace, BeforeQuery, Cut, Based, StripBase, Parted, Split, Respelled, Kept, Join;
    forall s, t
      ensures Inside(s, t) <==> t == TrimSpace(s)
      ensures BeforeQuery(s, t) <==> t == Cut(s)
      ensures Based(s, t) <==> t == StripBase(s)
    {
      TrimSpaceExactly(s, t);
      CutExactly(s, t);
      StripBaseExactly(s, t);
    }
    forall s, pieces ensures Parted(s, pieces) <==> pieces == Split(s, '/') {
      PartsExactly(s, pieces);
    }
    forall pieces, segments ensures Respelled(pieces, segments) <==> segments == Kept(pieces) {
      KeptExactly(pieces, segments);
    }
    var text := TrimSpace(url);
    var rest := StripBase(Cut(text));
    assert Stages(url, text, Cut(text), rest, Split(rest, '/'), Segments(url));
  }
}
