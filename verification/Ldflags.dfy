/** daggerverse/go: rendering the `-ldflags` argument, against the splitter of cmd/go that
    reads it back. */
module Ldflags {
  import opened Text

  // ------------------------------------------------------------ the splitter

  /** The whitespace of the splitter. The rendering code knows three characters; a splitter
      may break fields on others too (cmd/go's own also breaks on carriage return), so the
      set is a parameter. */
  predicate Whitespace(w: set<char>) {
    {' ', '\t', '\n'} <= w <= {' ', '\t', '\n', '\r', '\U{b}', '\U{c}'}
  }

  predicate Quote(c: char) {
    c == '\'' || c == '"'
  }

  /** The longest prefix with no character of `stops`. */
  function Run(s: string, stops: set<char>): (n: nat)
    ensures n <= |s|
    ensures forall k :: 0 <= k < n ==> s[k] !in stops
    ensures n < |s| ==> s[n] in stops
  {
    if s == "" || s[0] in stops then 0 else 1 + Run(s[1..], stops)
  }

  /** Fields are runs free of whitespace, or quoted strings with nothing escaped inside. A
      quote only opens a quoted string at the start of a field. */
  function SplitFields(s: string, w: set<char>): Option<seq<string>>
    decreases |s|
  {
    if s == "" then Some([])
    else if s[0] in w then SplitFields(s[1..], w)
    else
      var quoted := Quote(s[0]);
      var body := if quoted then s[1..] else s;
      var n := Run(body, if quoted then {s[0]} else w);
      if quoted && n == |body| then None
      else
        var tail := SplitFields(body[if quoted then n + 1 else n..], w);
        if tail.None? then None else Some([body[..n]] + tail.value)
  }

  // ------------------------------------------------------------ the renderer

  const SPECIAL: set<char> := {' ', '\t', '\n', '\'', '"'}

  datatype LdError = NoEquals | EmptyName | BothQuotes

  function QuoteLdflag(tok: string): Result<string, LdError> {
    if !Contains(tok, SPECIAL) then Ok(tok)
    else if '\'' !in tok then Ok("'" + tok + "'")
    else if '"' !in tok then Ok("\"" + tok + "\"")
    else Err(BothQuotes)
  }

  /** A token is quoted only where the splitter would part it or read a quote in it, with single
      quotes unless it holds one. */
  lemma {:induction false} QuoteChosen(tok: string)
    ensures var plain := ' ' !in tok && '\t' !in tok && '\n' !in tok && '\'' !in tok && '"' !in tok;
      QuoteLdflag(tok)
        == if plain then Ok(tok)
           else if '\'' !in tok then Ok("'" + tok + "'")
           else if '"' !in tok then Ok("\"" + tok + "\"")
           else Err(BothQuotes)
  {
    forall c | c in tok ensures c in SPECIAL ==> Contains(tok, SPECIAL) {
      var k :| 0 <= k < |tok| && tok[k] == c;
    }
  }

  /** The error a stamp meets first, if any. */
  function StampError(stamp: string): Option<LdError> {
    if '=' !in stamp then Some(NoEquals)
    else if stamp[0] == '=' then Some(EmptyName)
    else if QuoteLdflag(stamp).Err? then Some(BothQuotes)
    else None
  }

  predicate Accepted(stamps: seq<string>) {
    forall i :: 0 <= i < |stamps| ==> StampError(stamps[i]).None?
  }

  function StampParts(stamps: seq<string>): seq<string>
    requires Accepted(stamps)
  {
    if stamps == [] then []
    else StampParts(stamps[..|stamps| - 1]) + ["-X", QuoteLdflag(stamps[|stamps| - 1]).value]
  }

  /** `strings.IndexByte(s, '=')`, or -1. */
  method IndexEquals(s: string) returns (i: int)
    ensures -1 <= i < |s|
    ensures i == -1 <==> '=' !in s
    ensures i >= 0 ==> s[i] == '=' && '=' !in s[..i]
  {
    for j := 0 to |s|
      invariant '=' !in s[..j]
    {
      if s[j] == '=' {
        return j;
      }
    }
    return -1;
  }

  function StripParts(strip: bool): seq<string> {
    if strip then ["-s", "-w"] else []
  }

  /** A stamp with a name before its first equals sign, and quotes of one kind at most. */
  predicate Renderable(stamp: string) {
    '=' in stamp && stamp[0] != '=' && !('\'' in stamp && '"' in stamp)
  }

  /** What is wrong with a stamp, the missing name before the quotes. */
  predicate Wrong(stamp: string, error: LdError) {
    match error
    case NoEquals => '=' !in stamp
    case EmptyName => stamp != "" && stamp[0] == '='
    case BothQuotes => '=' in stamp && stamp[0] != '=' && '\'' in stamp && '"' in stamp
  }

  lemma {:induction false} StampErrorSpelled(stamp: string)
    ensures StampError(stamp).None? <==> Renderable(stamp)
    ensures StampError(stamp).Some? ==> Wrong(stamp, StampError(stamp).value)
  {
    if '\'' in stamp {
      var k :| 0 <= k < |stamp| && stamp[k] == '\'';
      assert Contains(stamp, SPECIAL);
    }
  }

  lemma {:induction false} AcceptedSpelled(stamps: seq<string>)
    ensures Accepted(stamps) <==> forall i :: 0 <= i < |stamps| ==> Renderable(stamps[i])
  {
    forall i | 0 <= i < |stamps| ensures StampError(stamps[i]).None? <==> Renderable(stamps[i]) {
      StampErrorSpelled(stamps[i]);
    }
  }

  lemma {:induction false} NoPartsNoText(strip: bool, stamps: seq<string>)
    requires Accepted(stamps)
    ensures Join(StripParts(strip) + StampParts(stamps), " ") == "" <==> !strip && stamps == []
  {
    var parts := StripParts(strip) + StampParts(stamps);
    if stamps != [] {
      StampPartsStart(stamps);
    }
    if strip || stamps != [] {
      assert parts[0] != "" && parts != [];
    }
  }

  lemma {:induction false} StampPartsStart(stamps: seq<string>)
    requires Accepted(stamps) && stamps != []
    ensures StampParts(stamps) != [] && StampParts(stamps)[0] == "-X"
  {
    if |stamps| > 1 {
      StampPartsStart(stamps[..|stamps| - 1]);
    }
  }

  /** `renderLdflags`: the first bad stamp decides the error; otherwise the parts are joined. */
  method RenderLdflags(strip: bool, stamps: seq<string>) returns (r: Result<string, LdError>)
    ensures r.Ok? <==> Accepted(stamps)
    ensures r.Ok? <==> forall i :: 0 <= i < |stamps| ==> Renderable(stamps[i])
    ensures r.Ok? ==> r.value == Join(StripParts(strip) + StampParts(stamps), " ")
    ensures r.Ok? ==> (r.value == "" <==> !strip && stamps == [])
    ensures r.Err? ==> exists i ::
      0 <= i < |stamps| && Accepted(stamps[..i]) && StampError(stamps[i]) == Some(r.error) && Wrong(stamps[i], r.error)
  {
    AcceptedSpelled(stamps);
    var parts: seq<string> := [];
    if strip {
      parts := parts + ["-s", "-w"];
    }
    for k := 0 to |stamps|
      invariant Accepted(stamps[..k])
      invariant parts == StripParts(strip) + StampParts(stamps[..k])
    {
      var stamp := stamps[k];
      StampErrorSpelled(stamp);
      var i := IndexEquals(stamp);
      if i < 0 {
        return Err(NoEquals);
      }
      if i == 0 {
        return Err(EmptyName);
      }
      var quoted := QuoteLdflag(stamp);
      if quoted.Err? {
        return Err(quoted.error);
      }
      assert stamps[..k + 1][..k] == stamps[..k];
      parts := parts + ["-X", quoted.value];
    }
    assert stamps[..|stamps|] == stamps;
    NoPartsNoText(strip, stamps);
    return Ok(Join(parts, " "));
  }

  // ------------------------------------------------------------ round trip

  /** What the linker should be handed. */
  function Expected(strip: bool, stamps: seq<string>): seq<string> {
    StripParts(strip) + StampFields(stamps)
  }

  function StampFields(stamps: seq<string>): seq<string> {
    if stamps == [] then [] else StampFields(stamps[..|stamps| - 1]) + ["-X", stamps[|stamps| - 1]]
  }

  /** What the linker should be handed, field by field. */
  predicate Fields(fields: seq<string>, strip: bool, stamps: seq<string>) {
    var first := if strip then 2 else 0;
    && |fields| == first + 2 * |stamps|
    && (strip ==> fields[0] == "-s" && fields[1] == "-w")
    && forall i :: 0 <= i < |stamps| ==> fields[first + 2 * i] == "-X" && fields[first + 2 * i + 1] == stamps[i]
  }

  lemma {:induction false} ExpectedFields(strip: bool, stamps: seq<string>)
    ensures Fields(Expected(strip, stamps), strip, stamps)
  {
    if stamps != [] {
      ExpectedFields(strip, stamps[..|stamps| - 1]);
    }
  }

  lemma {:induction false} FieldsUnique(a: seq<string>, b: seq<string>, strip: bool, stamps: seq<string>)
    requires Fields(a, strip, stamps) && Fields(b, strip, stamps)
    ensures a == b
  {
    var first := if strip then 2 else 0;
    forall k | 0 <= k < |a| ensures a[k] == b[k] {
      if k >= first {
        var i := (k - first) / 2;
        assert k == first + 2 * i || k == first + 2 * i + 1;
      }
    }
  }

  /** A stamp left bare is cut by whitespace the renderer does not look for. */
  predicate Cut(stamp: string, w: set<char>) {
    !Contains(stamp, {' ', '\t', '\n', '\'', '"'}) && Contains(stamp, w)
  }

  predicate Blank(s: string, w: set<char>) {
    forall k :: 0 <= k < |s| ==> s[k] in w
  }

  lemma {:induction false} RunSplit(s: string, rest: string, stops: set<char>)
    requires !Contains(s, stops)
    requires rest == "" || rest[0] in stops
    ensures Run(s + rest, stops) == |s|
    ensures (s + rest)[..|s|] == s && (s + rest)[|s|..] == rest
  {
    if s == "" {
      assert s + rest == rest;
    } else {
      assert (s + rest)[1..] == s[1..] + rest;
      assert !Contains(s[1..], stops) by {
        assert forall k :: 0 <= k < |s[1..]| ==> s[1..][k] == s[k + 1];
      }
      RunSplit(s[1..], rest, stops);
    }
  }

  function Cons(head: string, tail: Option<seq<string>>): Option<seq<string>> {
    if tail.None? then None else Some([head] + tail.value)
  }

  lemma {:induction false} ReadBare(tok: string, rest: string, w: set<char>)
    requires tok != "" && !Quote(tok[0]) && !Contains(tok, w)
    requires rest == "" || rest[0] in w
    ensures SplitFields(tok + rest, w) == Cons(tok, SplitFields(rest, w))
  {
    assert tok[0] !in w;
    RunSplit(tok, rest, w);
  }

  lemma {:induction false} ReadQuoted(q: char, tok: string, rest: string, w: set<char>)
    requires Quote(q) && q !in w && q !in tok
    ensures SplitFields([q] + tok + [q] + rest, w) == Cons(tok, SplitFields(rest, w))
  {
    var s := [q] + tok + [q] + rest;
    assert s[1..] == tok + ([q] + rest);
    RunSplit(tok, [q] + rest, {q});
    assert s[1..][|tok| + 1..] == rest;
  }

  /** One rendered token, at the end or followed by whitespace, reads back as the token. */
  lemma {:induction false} ReadToken(tok: string, rest: string, w: set<char>)
    requires Whitespace(w)
    requires tok != "" && QuoteLdflag(tok).Ok? && !Cut(tok, w)
    requires rest == "" || rest[0] in w
    ensures SplitFields(QuoteLdflag(tok).value + rest, w) == Cons(tok, SplitFields(rest, w))
  {
    if !Contains(tok, SPECIAL) {
      assert tok[0] !in SPECIAL;
      ReadBare(tok, rest, w);
    } else if '\'' !in tok {
      ReadQuoted('\'', tok, rest, w);
    } else {
      ReadQuoted('"', tok, rest, w);
    }
  }

  lemma {:induction false} BareToken(tok: string)
    requires tok in {"-s", "-w", "-X"}
    ensures QuoteLdflag(tok) == Ok(tok)
    ensures forall w :: Whitespace(w) ==> !Cut(tok, w)
  {
    assert |tok| == 2 && tok[0] == '-' && tok[1] in {'s', 'w', 'X'};
  }

  /** The rendered parts and the tokens they stand for, side by side. */
  predicate Renders(parts: seq<string>, tokens: seq<string>) {
    && |parts| == |tokens|
    && forall i :: 0 <= i < |parts| ==> tokens[i] != "" && QuoteLdflag(tokens[i]) == Ok(parts[i])
  }

  lemma {:induction false} StampsRender(strip: bool, stamps: seq<string>)
    requires Accepted(stamps)
    ensures Renders(StripParts(strip) + StampParts(stamps), Expected(strip, stamps))
  {
    BareToken("-s");
    BareToken("-w");
    BareToken("-X");
    if stamps != [] {
      var n := |stamps| - 1;
      StampsRender(strip, stamps[..n]);
      assert StampError(stamps[n]).None?;
      var parts, tokens := StripParts(strip) + StampParts(stamps[..n]), Expected(strip, stamps[..n]);
      assert StripParts(strip) + StampParts(stamps) == parts + ["-X", QuoteLdflag(stamps[n]).value];
      assert Expected(strip, stamps) == tokens + ["-X", stamps[n]];
    }
  }

  lemma {:induction false} SkipBlank(tail: string, w: set<char>)
    requires Whitespace(w)
    ensures SplitFields(" " + tail, w) == SplitFields(tail, w)
  {
    assert (" " + tail)[1..] == tail;
  }

  /** As long as no token is cut, the splitter gives the tokens back. */
  lemma {:induction false} ReadAll(parts: seq<string>, tokens: seq<string>, w: set<char>)
    requires Whitespace(w) && Renders(parts, tokens)
    requires forall i :: 0 <= i < |tokens| ==> !Cut(tokens[i], w)
    ensures SplitFields(Join(parts, " "), w) == Some(tokens)
  {
    if parts != [] {
      assert [tokens[0]] + tokens[1..] == tokens;
      if |parts| == 1 {
        assert parts[0] + "" == parts[0];
        ReadToken(tokens[0], "", w);
      } else {
        var tail := Join(parts[1..], " ");
        ReadToken(tokens[0], " " + tail, w);
        SkipBlank(tail, w);
        assert parts[0] + " " + tail == parts[0] + (" " + tail);
        ReadAll(parts[1..], tokens[1..], w);
      }
    }
  }

  lemma {:induction false} CutHead(tokens: seq<string>, rest: string, w: set<char>)
    requires Whitespace(w) && tokens != [] && Cut(tokens[0], w) && !Blank(tokens[0], w)
    ensures SplitFields(tokens[0] + rest, w) != Some(tokens)
  {
    FirstFieldShort(tokens[0], rest, w);
  }

  lemma {:induction false} CutLater(tokens: seq<string>, tail: string, w: set<char>)
    requires Whitespace(w) && tokens != [] && tokens[0] != "" && QuoteLdflag(tokens[0]).Ok? && !Cut(tokens[0], w)
    requires SplitFields(tail, w) != Some(tokens[1..])
    ensures SplitFields(QuoteLdflag(tokens[0]).value + (" " + tail), w) != Some(tokens)
  {
    ReadToken(tokens[0], " " + tail, w);
    SkipBlank(tail, w);
    ConsInjective(tokens, SplitFields(tail, w));
  }

  /** A cut token breaks the reading. */
  lemma {:induction false} ReadCut(parts: seq<string>, tokens: seq<string>, w: set<char>, bad: nat)
    requires Whitespace(w) && Renders(parts, tokens)
    requires bad < |tokens| && Cut(tokens[bad], w)
    requires forall i :: 0 <= i < |tokens| ==> !Blank(tokens[i], w)
    ensures SplitFields(Join(parts, " "), w) != Some(tokens)
  {
    var rest := if |parts| == 1 then "" else " " + Join(parts[1..], " ");
    assert Join(parts, " ") == parts[0] + rest;
    if Cut(tokens[0], w) {
      CutHead(tokens, rest, w);
    } else {
      ReadCut(parts[1..], tokens[1..], w, bad - 1);
      CutLater(tokens, Join(parts[1..], " "), w);
    }
  }

  lemma {:induction false} ConsInjective(tokens: seq<string>, tail: Option<seq<string>>)
    requires tokens != [] && tail != Some(tokens[1..])
    ensures Cons(tokens[0], tail) != Some(tokens)
  {
    if tail.Some? {
      assert ([tokens[0]] + tail.value)[1..] == tail.value;
    }
  }

  /** A token that is cut can never be the first field read. */
  lemma {:induction false} FirstFieldShort(tok: string, rest: string, w: set<char>)
    requires Whitespace(w)
    requires tok != "" && !Contains(tok, SPECIAL)
    requires !Blank(tok, w)
    ensures var fields := SplitFields(tok + rest, w);
      fields.Some? ==> |fields.value| > 0 && !Contains(fields.value[0], w)
  {
    var s := tok + rest;
    if tok[0] in w {
      assert s[1..] == tok[1..] + rest;
      var k :| 0 <= k < |tok| && tok[k] !in w;
      assert tok[1..][k - 1] !in w;
      assert !Contains(tok[1..], SPECIAL) by {
        assert forall k :: 0 <= k < |tok[1..]| ==> tok[1..][k] == tok[k + 1];
      }
      FirstFieldShort(tok[1..], rest, w);
    } else {
      assert s[0] == tok[0] && tok[0] !in SPECIAL;
      var n := Run(s, w);
      assert forall k :: 0 <= k < n ==> s[..n][k] == s[k];
    }
  }

  /** Splitting the rendered flags gives exactly the strip flags and the stamps, in order, if
      and only if no stamp that the renderer leaves bare holds splitter whitespace. */
  lemma {:induction false} LdflagsRoundTrip(strip: bool, stamps: seq<string>, w: set<char>)
    requires Whitespace(w) && Accepted(stamps)
    ensures var split := SplitFields(Join(StripParts(strip) + StampParts(stamps), " "), w);
      split.Some? && Fields(split.value, strip, stamps) <==> forall i :: 0 <= i < |stamps| ==> !Cut(stamps[i], w)
  {
    var split := SplitFields(Join(StripParts(strip) + StampParts(stamps), " "), w);
    ExpectedFields(strip, stamps);
    if split.Some? && Fields(split.value, strip, stamps) {
      FieldsUnique(split.value, Expected(strip, stamps), strip, stamps);
    }
    var parts, tokens := StripParts(strip) + StampParts(stamps), Expected(strip, stamps);
    StampsRender(strip, stamps);
    StampsAmongTokens(strip, stamps);
    TokensNotBlank(strip, stamps, w);
    if i :| 0 <= i < |stamps| && Cut(stamps[i], w) {
      var j :| 0 <= j < |tokens| && tokens[j] == stamps[i];
      ReadCut(parts, tokens, w, j);
    } else {
      ReadAll(parts, tokens, w);
    }
  }

  /** A stamp with a carriage return is accepted and left bare; a splitter that breaks fields
      there does not give it back. */
  lemma {:induction false} CarriageReturnCut(strip: bool)
    ensures Accepted(["a=b\rc"])
    ensures var split := SplitFields(Join(StripParts(strip) + StampParts(["a=b\rc"]), " "), {' ', '\t', '\n', '\r'});
      !(split.Some? && Fields(split.value, strip, ["a=b\rc"]))
  {
    var stamp, w := "a=b\rc", {' ', '\t', '\n', '\r'};
    assert stamp[1] == '=' && stamp[3] == '\r';
    assert !Contains(stamp, SPECIAL);
    assert Cut([stamp][0], w);
    LdflagsRoundTrip(strip, [stamp], w);
  }

  /** With the whitespace the renderer knows, every accepted list comes through. */
  lemma {:induction false} OwnWhitespaceRoundTrip(strip: bool, stamps: seq<string>)
    requires Accepted(stamps)
    ensures var split := SplitFields(Join(StripParts(strip) + StampParts(stamps), " "), {' ', '\t', '\n'});
      split.Some? && Fields(split.value, strip, stamps)
  {
    var w := {' ', '\t', '\n'};
    forall i | 0 <= i < |stamps| ensures !Cut(stamps[i], w) {
      if Contains(stamps[i], w) {
        var k :| 0 <= k < |stamps[i]| && stamps[i][k] in w;
        assert stamps[i][k] in SPECIAL;
      }
    }
    LdflagsRoundTrip(strip, stamps, w);
  }

  lemma {:induction false} TokensNotBlank(strip: bool, stamps: seq<string>, w: set<char>)
    requires Whitespace(w) && Accepted(stamps)
    ensures forall j :: 0 <= j < |Expected(strip, stamps)| ==> !Blank(Expected(strip, stamps)[j], w)
    ensures (forall i :: 0 <= i < |stamps| ==> !Cut(stamps[i], w)) ==>
      forall j :: 0 <= j < |Expected(strip, stamps)| ==> !Cut(Expected(strip, stamps)[j], w)
  {
    StampsAmongTokens(strip, stamps);
    BareToken("-s");
    BareToken("-w");
    BareToken("-X");
    forall t | t in Expected(strip, stamps) ensures !Blank(t, w) {
      if t in {"-s", "-w", "-X"} {
        assert t[0] == '-';
      } else {
        var m :| 0 <= m < |stamps| && stamps[m] == t;
        assert StampError(t).None?;
        var k :| 0 <= k < |t| && t[k] == '=';
      }
    }
    if forall i :: 0 <= i < |stamps| ==> !Cut(stamps[i], w) {
      forall t | t in Expected(strip, stamps) ensures !Cut(t, w) {
        if t !in {"-s", "-w", "-X"} {
          var m :| 0 <= m < |stamps| && stamps[m] == t;
        }
      }
    }
  }

  lemma {:induction false} StampsAmongTokens(strip: bool, stamps: seq<string>)
    ensures forall i :: 0 <= i < |stamps| ==> stamps[i] in Expected(strip, stamps)
    ensures forall t :: t in Expected(strip, stamps) ==> t in {"-s", "-w", "-X"} || t in stamps
  {
    if stamps != [] {
      var n := |stamps| - 1;
      StampsAmongTokens(strip, stamps[..n]);
      assert Expected(strip, stamps) == Expected(strip, stamps[..n]) + ["-X", stamps[n]];
      forall i | 0 <= i < |stamps| ensures stamps[i] in Expected(strip, stamps) {
        if i < n {
          assert stamps[..n][i] == stamps[i];
        }
      }
    }
  }

  // ------------------------------------------------------------ what cannot be expressed

  predicate BothQuoteKinds(tok: string) {
    '\'' in tok && '"' in tok
  }

  /** Some string reads as exactly this one field. */
  ghost predicate Representable(tok: string, w: set<char>) {
    exists s :: SplitFields(s, w) == Some([tok])
  }

  /** Every field of every string: one that holds both quote characters was read bare. */
  lemma {:induction false} FieldShape(s: string, w: set<char>, i: nat)
    requires SplitFields(s, w).Some? && i < |SplitFields(s, w).value|
    ensures var field := SplitFields(s, w).value[i];
      BothQuoteKinds(field) ==> !Quote(field[0]) && !Contains(field, w)
    decreases |s|
  {
    if s[0] in w {
      FieldShape(s[1..], w, i);
    } else {
      var quoted := Quote(s[0]);
      var body := if quoted then s[1..] else s;
      var n := Run(body, if quoted then {s[0]} else w);
      if i > 0 {
        FieldShape(body[if quoted then n + 1 else n..], w, i - 1);
      } else {
        assert forall k :: 0 <= k < n ==> body[..n][k] == body[k];
      }
    }
  }

  /** Exactly the tokens the splitter can produce as a single field. */
  lemma {:induction false} RepresentableTokens(tok: string, w: set<char>)
    requires Whitespace(w)
    ensures Representable(tok, w) <==> (BothQuoteKinds(tok) ==> !Quote(tok[0]) && !Contains(tok, w))
  {
    if s :| SplitFields(s, w) == Some([tok]) {
      FieldShape(s, w, 0);
    }
    assert [tok] + [] == [tok];
    assert forall q {:trigger [q] + tok} :: [q] + tok + [q] + "" == [q] + tok + [q];
    if '\'' !in tok {
      ReadQuoted('\'', tok, "", w);
    } else if '"' !in tok {
      ReadQuoted('"', tok, "", w);
    } else if !Quote(tok[0]) && !Contains(tok, w) {
      ReadBare(tok, "", w);
    }
  }

  /** When the renderer rejects a token, it had to, unless the token has no whitespace and
      opens with no quote: that one the splitter would have read bare. */
  lemma {:induction false} RejectionNecessary(tok: string, w: set<char>)
    requires Whitespace(w)
    ensures QuoteLdflag(tok).Ok? ==> Representable(tok, w)
    ensures QuoteLdflag(tok).Err? ==> (Representable(tok, w) <==> !Contains(tok, w) && !Quote(tok[0]))
  {
    RepresentableTokens(tok, w);
    if !Contains(tok, SPECIAL) {
      forall k | 0 <= k < |tok| ensures !Quote(tok[k]) {
        assert tok[k] !in SPECIAL;
      }
    }
  }

  /** The rejection is wider than it has to be: this stamp is refused, and the splitter
      would have read it unharmed. */
  lemma {:induction false} RejectedYetRepresentable()
    ensures StampError("a='\"") == Some(BothQuotes)
    ensures SplitFields("a='\"", {' ', '\t', '\n', '\r'}) == Some(["a='\""])
  {
    var stamp := "a='\"";
    assert stamp[1] == '=' && stamp[2] == '\'' && stamp[3] == '"';
    var w := {' ', '\t', '\n', '\r'};
    assert forall k :: 0 <= k < 4 ==> stamp[k] !in w;
    ReadBare(stamp, "", w);
    assert stamp + "" == stamp;
    assert [stamp] + [] == [stamp];
  }
}
