/** daggerverse/bruno: the `{{name}}` references of a file. */
module BruReferences {
  import opened Text
  import opened BruParse

  /** The bodies of all matches of `\{\{([^{}]*)\}\}`, leftmost first, without overlap. */
  function Interpolations(s: string): seq<string>
    decreases |s|
  {
    if s == "" then []
    else if !HasPrefix(s, "{{") then Interpolations(s[1..])
    else
      var n := 2 + BracelessRun(s[2..]);
      if HasPrefix(s[n..], "}}") then [s[2..n]] + Interpolations(s[n + 2..]) else Interpolations(s[1..])
  }

  /** `^[A-Za-z_][A-Za-z0-9_-]*$` */
  predicate Identifier(s: string) {
    && s != "" && (Letter(s[0]) || s[0] == '_')
    && forall k :: 0 <= k < |s| ==> Letter(s[k]) || '0' <= s[k] <= '9' || s[k] in {'_', '-'}
  }

  /** The variable an interpolation names, when this linter has an opinion about it. */
  function RefName(raw: string): Option<string> {
    var name := TrimSpace(raw);
    if HasPrefix(name, "$") || HasPrefix(name, "process.env.") || !Identifier(name) then None else Some(name)
  }

  predicate Prose(b: Block) {
    b.name == "docs" || b.name == "tests" || HasPrefix(b.name, "script")
  }

  datatype Reference = Reference(name: string, line: nat)

  function RefsOf(raws: seq<string>, line: nat): seq<Reference> {
    if raws == [] then []
    else
      var last := RefName(raws[|raws| - 1]);
      RefsOf(raws[..|raws| - 1], line) + if last.Some? then [Reference(last.value, line)] else []
  }

  function RefsOfBody(body: seq<Entry>): seq<Reference> {
    if body == [] then []
    else
      var e := body[|body| - 1];
      RefsOfBody(body[..|body| - 1]) + RefsOf(Interpolations(e.value), e.line)
  }

  /** Every reference of a file, in order, repetitions included. */
  function RefsOfBlocks(blocks: seq<Block>): seq<Reference> {
    if blocks == [] then []
    else
      var b := blocks[|blocks| - 1];
      RefsOfBlocks(blocks[..|blocks| - 1]) + if Prose(b) then [] else RefsOfBody(b.body)
  }

  function Names(refs: seq<Reference>): set<string> {
    set r | r in refs :: r.name
  }

  /** The first reference to each name. */
  function FirstRefs(refs: seq<Reference>): seq<Reference> {
    if refs == [] then []
    else
      var before, last := FirstRefs(refs[..|refs| - 1]), refs[|refs| - 1];
      if last.name in Names(before) then before else before + [last]
  }

  lemma {:induction false} RefsSnoc(raws: seq<string>, k: nat, line: nat)
    requires k < |raws|
    ensures var name := RefName(raws[k]);
      RefsOf(raws[..k + 1], line)
      == RefsOf(raws[..k], line) + if name.Some? then [Reference(name.value, line)] else []
  {
    assert raws[..k + 1][..k] == raws[..k];
  }

  lemma {:induction false} BodySnoc(before: seq<Reference>, body: seq<Entry>, j: nat)
    requires j < |body|
    ensures before + RefsOfBody(body[..j + 1])
         == (before + RefsOfBody(body[..j])) + RefsOf(Interpolations(body[j].value), body[j].line)
  {
    assert body[..j + 1][..j] == body[..j];
  }

  lemma {:induction false} BlocksSnoc(blocks: seq<Block>, i: nat)
    requires i < |blocks|
    ensures RefsOfBlocks(blocks[..i + 1])
         == if Prose(blocks[i]) then RefsOfBlocks(blocks[..i])
            else RefsOfBlocks(blocks[..i]) + RefsOfBody(blocks[i].body)
  {
    assert blocks[..i + 1][..i] == blocks[..i];
    assert RefsOfBlocks(blocks[..i]) + [] == RefsOfBlocks(blocks[..i]);
  }

  lemma {:induction false} FirstRefsSnoc(done: seq<Reference>, ref: Reference)
    ensures FirstRefs(done + [ref])
         == if ref.name in Names(FirstRefs(done)) then FirstRefs(done) else FirstRefs(done) + [ref]
    ensures Names(FirstRefs(done) + [ref]) == Names(FirstRefs(done)) + {ref.name}
  {
    assert (done + [ref])[..|done|] == done;
  }

  /** The loop over the lines of one block. */
  method ReferencesInBody(body: seq<Entry>, out0: seq<Reference>, seen0: set<string>, ghost before: seq<Reference>)
      returns (out: seq<Reference>, seen: set<string>)
    requires out0 == FirstRefs(before) && seen0 == Names(out0)
    ensures out == FirstRefs(before + RefsOfBody(body)) && seen == Names(out)
  {
    out, seen := out0, seen0;
    ghost var all := before;
    for j := 0 to |body|
      invariant all == before + RefsOfBody(body[..j])
      invariant out == FirstRefs(all) && seen == Names(out)
    {
      BodySnoc(before, body, j);
      var raws := Interpolations(body[j].value);
      out, seen := ReferencesIn(raws, body[j].line, out, seen, all);
      all := all + RefsOf(raws, body[j].line);
    }
    assert body[..|body|] == body;
  }

  /** The innermost loop, over the interpolations of one value. */
  method ReferencesIn(raws: seq<string>, line: nat, out0: seq<Reference>, seen0: set<string>,
        ghost sofar: seq<Reference>)
      returns (out: seq<Reference>, seen: set<string>)
    requires out0 == FirstRefs(sofar) && seen0 == Names(out0)
    ensures out == FirstRefs(sofar + RefsOf(raws, line)) && seen == Names(out)
  {
    out, seen := out0, seen0;
    assert sofar + RefsOf(raws[..0], line) == sofar;
    for k := 0 to |raws|
      invariant out == FirstRefs(sofar + RefsOf(raws[..k], line)) && seen == Names(out)
    {
      RefsSnoc(raws, k, line);
      var name := RefName(raws[k]);
      ghost var done := sofar + RefsOf(raws[..k], line);
      if name.None? {
        assert sofar + RefsOf(raws[..k + 1], line) == done;
        continue;
      }
      var ref := Reference(name.value, line);
      assert sofar + RefsOf(raws[..k + 1], line) == done + [ref];
      FirstRefsSnoc(done, ref);
      if name.value in seen {
        continue;
      }
      seen := seen + {name.value};
      out := out + [ref];
    }
    assert raws[..|raws|] == raws;
  }

  lemma {:induction false} FirstRefsDistinct(refs: seq<Reference>)
    ensures Names(FirstRefs(refs)) == Names(refs)
    ensures forall i, j :: 0 <= i < j < |FirstRefs(refs)| ==> FirstRefs(refs)[i].name != FirstRefs(refs)[j].name
  {
    if refs != [] {
      var n := |refs| - 1;
      FirstRefsDistinct(refs[..n]);
      var before, last := FirstRefs(refs[..n]), refs[n];
      assert refs == refs[..n] + [last];
      assert Names(refs) == Names(refs[..n]) + {last.name};
      assert Names(before + [last]) == Names(before) + {last.name};
    }
  }

  lemma {:induction false} FirstRefsOrigin(refs: seq<Reference>, r: Reference) returns (k: nat)
    requires r in FirstRefs(refs)
    ensures k < |refs| && refs[k] == r && forall m :: 0 <= m < k ==> refs[m].name != r.name
  {
    var n := |refs| - 1;
    if r in FirstRefs(refs[..n]) {
      k := FirstRefsOrigin(refs[..n], r);
      assert forall m :: 0 <= m <= k ==> refs[m] == refs[..n][m];
    } else {
      k := n;
      FirstRefsDistinct(refs[..n]);
      forall m | 0 <= m < n ensures refs[m].name != r.name {
        assert refs[..n][m] in refs[..n];
      }
    }
  }

  /** What is kept: every name once, with the line of its first reference. */
  lemma {:induction false} FirstRefsExactly(refs: seq<Reference>)
    ensures Names(FirstRefs(refs)) == Names(refs)
    ensures forall i, j :: 0 <= i < j < |FirstRefs(refs)| ==> FirstRefs(refs)[i].name != FirstRefs(refs)[j].name
    ensures forall r :: r in FirstRefs(refs) ==>
      exists k :: 0 <= k < |refs| && refs[k] == r && forall m :: 0 <= m < k ==> refs[m].name != r.name
  {
    FirstRefsDistinct(refs);
    forall r | r in FirstRefs(refs)
      ensures exists k :: 0 <= k < |refs| && refs[k] == r && forall m :: 0 <= m < k ==> refs[m].name != r.name
    {
      var k := FirstRefsOrigin(refs, r);
    }
  }

  // ------------------------------------------------------------ every match, in order

  /** `{{raw}}` stands at position `i`, with no brace in between. */
  predicate MatchAt(s: string, i: nat, raw: string) {
    && i + |raw| + 4 <= |s| && '{' !in raw && '}' !in raw
    && s[i] == '{' && s[i + 1] == '{' && s[i + 2..i + 2 + |raw|] == raw
    && s[i + 2 + |raw|] == '}' && s[i + 3 + |raw|] == '}'
  }

  /** Matches from left to right. */
  predicate InOrder(s: string, at: seq<nat>, raws: seq<string>) {
    && |at| == |raws|
    && (forall j, k :: 0 <= j < k < |at| ==> at[j] < at[k])
    && (forall k :: 0 <= k < |at| ==> MatchAt(s, at[k], raws[k]))
  }

  /** The positions and bodies of all matches, as many as there are, from left to right. */
  ghost predicate AllMatches(s: string, at: seq<nat>, raws: seq<string>) {
    InOrder(s, at, raws) && forall i: nat, raw :: MatchAt(s, i, raw) ==> i in at
  }

  function Shift(at: seq<nat>, n: nat): (out: seq<nat>)
    ensures |out| == |at| && forall k :: 0 <= k < |at| ==> out[k] == at[k] + n
  {
    seq(|at|, k requires 0 <= k < |at| => at[k] + n)
  }

  lemma {:induction false} MatchTail(s: string, n: nat, i: nat, raw: string)
    requires n <= |s|
    ensures MatchAt(s[n..], i, raw) <==> MatchAt(s, n + i, raw)
  {
    if n + i + |raw| + 4 <= |s| {
      assert s[n..][i + 2..i + 2 + |raw|] == s[n + i + 2..n + i + 2 + |raw|];
    }
  }

  lemma {:induction false} InOrderBehind(s: string, n: nat, at: seq<nat>, raws: seq<string>)
    requires n <= |s| && InOrder(s[n..], at, raws)
    ensures InOrder(s, Shift(at, n), raws)
  {
    forall k | 0 <= k < |at| ensures MatchAt(s, Shift(at, n)[k], raws[k]) {
      MatchTail(s, n, at[k], raws[k]);
    }
  }

  lemma {:induction false} FoundBehind(s: string, n: nat, at: seq<nat>, raws: seq<string>, i: nat, raw: string)
    requires n <= |s| && AllMatches(s[n..], at, raws) && MatchAt(s, i, raw) && n <= i
    ensures i in Shift(at, n)
  {
    MatchTail(s, n, i - n, raw);
    var k :| 0 <= k < |at| && at[k] == i - n;
    assert Shift(at, n)[k] == i;
  }

  /** Matches behind the first `n` characters are all there are, when none begins in them. */
  lemma {:induction false} MatchesBehind(s: string, n: nat, at: seq<nat>, raws: seq<string>)
    requires n <= |s| && AllMatches(s[n..], at, raws)
    requires forall i: nat, raw :: i < n ==> !MatchAt(s, i, raw)
    ensures AllMatches(s, Shift(at, n), raws)
  {
    InOrderBehind(s, n, at, raws);
    forall i: nat, raw | MatchAt(s, i, raw) ensures i in Shift(at, n) {
      FoundBehind(s, n, at, raws, i, raw);
    }
  }

  lemma {:induction false} InOrderInFront(s: string, first: string, at: seq<nat>, raws: seq<string>)
    requires MatchAt(s, 0, first) && InOrder(s, at, raws) && forall k :: 0 <= k < |at| ==> at[k] > 0
    ensures InOrder(s, [0] + at, [first] + raws)
  {
    hide MatchAt;
    forall k | 0 <= k < |at| + 1 ensures MatchAt(s, ([0] + at)[k], ([first] + raws)[k]) {
      assert k > 0 ==> ([first] + raws)[k] == raws[k - 1] && ([0] + at)[k] == at[k - 1];
    }
  }

  /** The same with a match at the very start, over which the others do not reach. */
  lemma {:induction false} MatchInFront(s: string, first: string, at: seq<nat>, raws: seq<string>)
    requires |first| + 4 <= |s| && MatchAt(s, 0, first) && AllMatches(s[|first| + 4..], at, raws)
    ensures AllMatches(s, [0] + Shift(at, |first| + 4), [first] + raws)
  {
    hide MatchAt, InOrder;
    var n := |first| + 4;
    InOrderBehind(s, n, at, raws);
    InOrderInFront(s, first, Shift(at, n), raws);
    forall i: nat, raw | MatchAt(s, i, raw) ensures i in [0] + Shift(at, n) {
      if i > 0 {
        NoneInside(s, first, i, raw);
        FoundBehind(s, n, at, raws, i, raw);
      }
    }
  }

  lemma {:induction false} NoneInside(s: string, first: string, i: nat, raw: string)
    requires MatchAt(s, 0, first) && MatchAt(s, i, raw) && i > 0
    ensures i >= |first| + 4
  {
    assert forall k :: 0 <= k < |first| ==> s[2 + k] == first[k];
  }

  lemma {:induction false} RunIsMatch(s: string)
    requires HasPrefix(s, "{{")
    ensures var n := 2 + BracelessRun(s[2..]);
      && (HasPrefix(s[n..], "}}") ==> MatchAt(s, 0, s[2..n]))
      && (!HasPrefix(s[n..], "}}") ==> forall raw :: !MatchAt(s, 0, raw))
  {
    var n := 2 + BracelessRun(s[2..]);
    assert s[..2][0] == '{' && s[..2][1] == '{';
    RunBraceless(s[2..]);
    assert s[2..][..n - 2] == s[2..n];
    if HasPrefix(s[n..], "}}") {
      assert s[n..][..2][0] == '}' && s[n..][..2][1] == '}';
    }
    forall raw | MatchAt(s, 0, raw) ensures HasPrefix(s[n..], "}}") {
      MatchIsRun(s, raw);
    }
  }

  lemma {:induction false} MatchIsRun(s: string, raw: string)
    requires MatchAt(s, 0, raw)
    ensures HasPrefix(s, "{{") && BracelessRun(s[2..]) == |raw| && HasPrefix(s[2 + |raw|..], "}}")
  {
    var m := 2 + |raw|;
    assert s[..2] == "{{" && s[m..][..2] == "}}";
    assert s[2..] == raw + s[m..];
    BracelessRunIs(raw, s[m..]);
  }

  lemma {:induction false} RunBraceless(s: string)
    ensures '{' !in s[..BracelessRun(s)] && '}' !in s[..BracelessRun(s)]
  {
    if s != "" && !Brace(s[0]) {
      RunBraceless(s[1..]);
      assert s[..BracelessRun(s)] == [s[0]] + s[1..][..BracelessRun(s[1..])];
    }
  }

  lemma {:induction false} NoMatchInNothing()
    ensures AllMatches("", [], [])
  {
  }

  /** The body of the match at the start of a text, if there is one. */
  function Front(s: string): (r: Option<string>)
    ensures r.Some? ==> |r.value| + 4 <= |s|
  {
    if !HasPrefix(s, "{{") then None
    else
      var n := 2 + BracelessRun(s[2..]);
      if HasPrefix(s[n..], "}}") then Some(s[2..n]) else None
  }

  lemma {:induction false} FrontIsMatch(s: string)
    ensures Front(s).Some? ==>
      MatchAt(s, 0, Front(s).value) && Interpolations(s) == [Front(s).value] + Interpolations(s[|Front(s).value| + 4..])
    ensures Front(s).None? ==> forall raw :: !MatchAt(s, 0, raw)
    ensures Front(s).None? && s != "" ==> Interpolations(s) == Interpolations(s[1..])
  {
    if HasPrefix(s, "{{") {
      RunIsMatch(s);
    } else {
      assert |s| >= 2 ==> s[..2] == [s[0], s[1]];
    }
  }

  /** Nothing is left out, nothing is made up, and the order is that of the text. */
  lemma {:induction false} InterpolationsExactly(s: string) returns (at: seq<nat>)
    ensures AllMatches(s, at, Interpolations(s))
    decreases |s|
  {
    hide MatchAt, AllMatches, Front;
    FrontIsMatch(s);
    if s == "" {
      NoMatchInNothing();
      at := [];
    } else if Front(s).None? {
      var tail := InterpolationsExactly(s[1..]);
      MatchesBehind(s, 1, tail, Interpolations(s[1..]));
      at := Shift(tail, 1);
    } else {
      var n := |Front(s).value| + 4;
      var tail := InterpolationsExactly(s[n..]);
      MatchInFront(s, Front(s).value, tail, Interpolations(s[n..]));
      at := [0] + Shift(tail, n);
    }
  }

  // ------------------------------------------------------------ what refers to a variable

  /** A plain variable name: letters, digits, `_` and `-`, with no digit or `-` in front. */
  predicate PlainName(x: string) {
    && x != "" && ('a' <= x[0] <= 'z' || 'A' <= x[0] <= 'Z' || x[0] == '_')
    && forall k :: 0 <= k < |x| ==>
         'a' <= x[k] <= 'z' || 'A' <= x[k] <= 'Z' || '0' <= x[k] <= '9' || x[k] == '_' || x[k] == '-'
  }

  /** A line refers to a variable where `{{x}}` stands in its value, blanks around it or not. */
  ghost predicate EntryRefers(e: Entry, x: string) {
    PlainName(x) && exists i: nat, raw :: MatchAt(e.value, i, raw) && TrimSpace(raw) == x
  }

  /** Documentation, tests and scripts are not read. */
  predicate Skipped(b: Block) {
    b.name == "docs" || b.name == "tests" || (|b.name| >= 6 && b.name[..6] == "script")
  }

  ghost predicate BodyRefers(body: seq<Entry>, x: string) {
    exists e :: e in body && EntryRefers(e, x)
  }

  ghost predicate Refers(blocks: seq<Block>, x: string) {
    exists b :: b in blocks && !Skipped(b) && BodyRefers(b.body, x)
  }

  /** The line of the first entry of a body that refers to a variable. */
  ghost predicate FirstInBody(body: seq<Entry>, x: string, line: nat) {
    exists j :: 0 <= j < |body| && EntryRefers(body[j], x) && body[j].line == line && !BodyRefers(body[..j], x)
  }

  /** The line of the first entry of a file that does. */
  ghost predicate FirstLine(blocks: seq<Block>, x: string, line: nat) {
    exists i ::
      && 0 <= i < |blocks| && !Skipped(blocks[i]) && FirstInBody(blocks[i].body, x, line)
      && !Refers(blocks[..i], x)
  }

  lemma {:induction false} RefNameSpelled(raw: string, x: string)
    ensures RefName(raw) == Some(x) <==> PlainName(x) && TrimSpace(raw) == x
  {
    if HasPrefix(x, "process.env.") {
      assert x[..12][7] == '.';
    }
    if HasPrefix(x, "$") {
      assert x[..1][0] == '$';
    }
  }

  lemma {:induction false} RefsOfExactly(raws: seq<string>, line: nat, r: Reference)
    ensures r in RefsOf(raws, line)
       <==> r.line == line && exists k :: 0 <= k < |raws| && RefName(raws[k]) == Some(r.name)
  {
    if raws != [] {
      var n := |raws| - 1;
      RefsOfExactly(raws[..n], line, r);
      assert forall k :: 0 <= k < n ==> raws[..n][k] == raws[k];
    }
  }

  lemma {:induction false} EntryRefersExactly(e: Entry, line: nat, r: Reference)
    ensures r in RefsOf(Interpolations(e.value), line) <==> r.line == line && EntryRefers(e, r.name)
  {
    var raws := Interpolations(e.value);
    var at := InterpolationsExactly(e.value);
    RefsOfExactly(raws, line, r);
    if k :| 0 <= k < |raws| && RefName(raws[k]) == Some(r.name) {
      RefNameSpelled(raws[k], r.name);
      assert MatchAt(e.value, at[k], raws[k]);
    }
    if EntryRefers(e, r.name) {
      var i: nat, raw :| MatchAt(e.value, i, raw) && TrimSpace(raw) == r.name;
      var k :| 0 <= k < |at| && at[k] == i;
      assert MatchAt(e.value, at[k], raws[k]);
      SameMatch(e.value, i, raw, raws[k]);
      RefNameSpelled(raw, r.name);
    }
  }

  lemma {:induction false} SameMatch(s: string, i: nat, a: string, b: string)
    requires MatchAt(s, i, a) && MatchAt(s, i, b)
    ensures a == b
  {
    assert forall k :: 0 <= k < |a| ==> s[i + 2 + k] == a[k];
    assert forall k :: 0 <= k < |b| ==> s[i + 2 + k] == b[k];
  }

  lemma {:induction false} NamesConcat(a: seq<Reference>, b: seq<Reference>)
    ensures Names(a + b) == Names(a) + Names(b)
  {
  }

  /** One more reference behind both lists. */
  lemma {:induction false} FirstRefsStep(a: seq<Reference>, b: seq<Reference>, q: Reference, r: Reference)
    requires r in FirstRefs(a + b) <==> r in FirstRefs(a) || (r.name !in Names(a) && r in FirstRefs(b))
    ensures r in FirstRefs(a + (b + [q])) <==> r in FirstRefs(a) || (r.name !in Names(a) && r in FirstRefs(b + [q]))
  {
    hide FirstRefs, Names;
    FirstRefsDistinct(a + b);
    FirstRefsDistinct(b);
    NamesConcat(a, b);
    assert a + (b + [q]) == (a + b) + [q];
    FirstRefsSnoc(a + b, q);
    FirstRefsSnoc(b, q);
  }

  lemma {:induction false} FirstRefsConcat(a: seq<Reference>, b: seq<Reference>, r: Reference)
    ensures r in FirstRefs(a + b) <==> r in FirstRefs(a) || (r.name !in Names(a) && r in FirstRefs(b))
  {
    if b == [] {
      assert a + b == a;
    } else {
      var n := |b| - 1;
      FirstRefsConcat(a, b[..n], r);
      FirstRefsStep(a, b[..n], b[n], r);
      assert b == b[..n] + [b[n]];
    }
  }

  lemma {:induction false} OneEntry(e: Entry, r: Reference)
    ensures r in FirstRefs(RefsOf(Interpolations(e.value), e.line)) <==> r.line == e.line && EntryRefers(e, r.name)
    ensures r.name in Names(RefsOf(Interpolations(e.value), e.line)) <==> EntryRefers(e, r.name)
  {
    var refs := RefsOf(Interpolations(e.value), e.line);
    EntryRefersExactly(e, e.line, r);
    EntryRefersExactly(e, e.line, Reference(r.name, e.line));
    FirstRefsDistinct(refs);
    if r.name in Names(refs) {
      var q :| q in refs && q.name == r.name;
      EntryRefersExactly(e, e.line, q);
      var f :| f in FirstRefs(refs) && f.name == r.name;
      var k := FirstRefsOrigin(refs, f);
      EntryRefersExactly(e, e.line, f);
    }
    if r in FirstRefs(refs) {
      var k := FirstRefsOrigin(refs, r);
    }
  }

  lemma {:induction false} BodyRefsExactly(body: seq<Entry>, r: Reference)
    ensures r.name in Names(RefsOfBody(body)) <==> BodyRefers(body, r.name)
    ensures r in FirstRefs(RefsOfBody(body)) <==> FirstInBody(body, r.name, r.line)
  {
    if body != [] {
      var n := |body| - 1;
      var before, own := RefsOfBody(body[..n]), RefsOf(Interpolations(body[n].value), body[n].line);
      BodyRefsExactly(body[..n], r);
      OneEntry(body[n], r);
      FirstRefsConcat(before, own, r);
      NamesConcat(before, own);
      BodyRefersSnoc(body, r.name, r.line);
    }
  }

  lemma {:induction false} BodyRefersSnoc(body: seq<Entry>, x: string, line: nat)
    requires body != []
    ensures var n := |body| - 1;
      && (BodyRefers(body, x) <==> BodyRefers(body[..n], x) || EntryRefers(body[n], x))
      && (FirstInBody(body, x, line) <==>
            || FirstInBody(body[..n], x, line)
            || (!BodyRefers(body[..n], x) && EntryRefers(body[n], x) && body[n].line == line))
  {
    var n := |body| - 1;
    assert body == body[..n] + [body[n]];
    if j :| 0 <= j < n && EntryRefers(body[j], x) && body[j].line == line && !BodyRefers(body[..j], x) {
      assert body[..n][..j] == body[..j] && body[..n][j] == body[j];
    }
    if j :|
        && 0 <= j < n && EntryRefers(body[..n][j], x) && body[..n][j].line == line
        && !BodyRefers(body[..n][..j], x) {
      assert body[..n][..j] == body[..j] && body[..n][j] == body[j];
    }
  }

  lemma {:induction false} RefersSnoc(blocks: seq<Block>, x: string, line: nat)
    requires blocks != []
    ensures var n := |blocks| - 1;
      && (Refers(blocks, x) <==> Refers(blocks[..n], x) || (!Skipped(blocks[n]) && BodyRefers(blocks[n].body, x)))
      && (FirstLine(blocks, x, line) <==>
            || FirstLine(blocks[..n], x, line)
            || (!Refers(blocks[..n], x) && !Skipped(blocks[n]) && FirstInBody(blocks[n].body, x, line)))
  {
    var n := |blocks| - 1;
    assert blocks == blocks[..n] + [blocks[n]];
    if i :|
        0 <= i < n && !Skipped(blocks[i]) && FirstInBody(blocks[i].body, x, line) && !Refers(blocks[..i], x) {
      assert blocks[..n][..i] == blocks[..i] && blocks[..n][i] == blocks[i];
    }
    if i :|
        && 0 <= i < n && !Skipped(blocks[..n][i]) && FirstInBody(blocks[..n][i].body, x, line)
        && !Refers(blocks[..n][..i], x) {
      assert blocks[..n][..i] == blocks[..i] && blocks[..n][i] == blocks[i];
    }
  }

  /** What a file refers to, and where first, said of its text alone. */
  lemma {:induction false} RefsExactly(blocks: seq<Block>, r: Reference)
    ensures r.name in Names(RefsOfBlocks(blocks)) <==> Refers(blocks, r.name)
    ensures r in FirstRefs(RefsOfBlocks(blocks)) <==> FirstLine(blocks, r.name, r.line)
  {
    if blocks != [] {
      var n := |blocks| - 1;
      var before := RefsOfBlocks(blocks[..n]);
      RefsExactly(blocks[..n], r);
      RefersSnoc(blocks, r.name, r.line);
      if Prose(blocks[n]) {
        assert before + [] == before;
      } else {
        var own := RefsOfBody(blocks[n].body);
        BodyRefsExactly(blocks[n].body, r);
        FirstRefsConcat(before, own, r);
        NamesConcat(before, own);
      }
    }
  }

  /** `references`: three nested loops and a set of the names seen. */
  method References(blocks: seq<Block>) returns (out: seq<Reference>)
    ensures out == FirstRefs(RefsOfBlocks(blocks))
    ensures forall r :: r in out <==> FirstLine(blocks, r.name, r.line)
    ensures forall i, j :: 0 <= i < j < |out| ==> out[i].name != out[j].name
  {
    out := [];
    var seen: set<string> := {};
    ghost var all := [];
    for i := 0 to |blocks|
      invariant all == RefsOfBlocks(blocks[..i])
      invariant out == FirstRefs(all) && seen == Names(out)
    {
      BlocksSnoc(blocks, i);
      if !Prose(blocks[i]) {
        out, seen := ReferencesInBody(blocks[i].body, out, seen, all);
        all := all + RefsOfBody(blocks[i].body);
      }
    }
    assert blocks[..|blocks|] == blocks;
    FirstRefsDistinct(RefsOfBlocks(blocks));
    forall r ensures r in out <==> FirstLine(blocks, r.name, r.line) {
      RefsExactly(blocks, r);
    }
  }
}
