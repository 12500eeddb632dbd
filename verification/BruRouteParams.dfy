/** daggerverse/bruno: when `{p}` and `:p` spell one path segment. */
module BruRouteParams {
  import opened Text
  import opened BruParse
  import opened BruRoute

  /** A parameter name that stands alone in its segment. */
  predicate Param(p: string) {
    p != "" && Braceless(p) && '/' !in p && Unstopped(p)
  }

  /** What may follow a whole segment. */
  predicate After(b: string) {
    b == "" || b[0] == '/' || Stops(b[0])
  }

  /** A stretch of text that neither trimming nor cutting touches, with what follows it. */
  predicate Solid(seg: string, b: string) {
    seg != "" && !IsSpace(seg[0]) && Unstopped(seg) && After(b) && (b == "" ==> !EndsInSpace(seg))
  }

  function Curly(p: string): string {
    "/{" + p + "}"
  }

  function Colon(p: string): string {
    "/:" + p
  }

  // ------------------------------------------------------------ trimming and cutting

  lemma {:induction false} TrimRightTail(x: string, b: string)
    requires x != "" && !EndsInSpace(x)
    ensures TrimRight(x + b) == x + TrimRight(b)
  {
    if EndsInSpace(b) {
      assert (x + b)[..|x + b| - 1] == x + b[..|b| - 1];
      TrimRightTail(x, b[..|b| - 1]);
    } else if b == "" {
      assert x + b == x;
    }
  }

  lemma {:induction false} TrimAround(a: string, seg: string, b: string)
    requires Solid(seg, b)
    ensures TrimSpace(a + seg + b) == TrimLeft(a) + seg + TrimRight(b)
  {
    var lead := TrimLeft(a);
    Assoc(a, seg, b);
    Assoc(lead, seg, b);
    TrimLeftConcat(a, seg + b);
    if b == "" {
      TrimRightTail(lead + seg, b);
    } else {
      TrimRightConcat(lead + seg, b);
    }
  }

  lemma {:induction false} CutAround(lead: string, seg: string, rest: string)
    requires Unstopped(seg)
    ensures Cut(lead + seg + rest) == if Unstopped(lead) then lead + seg + Cut(rest) else Cut(lead)
  {
    Assoc(lead, seg, rest);
    Assoc(lead, seg, Cut(rest));
    CutConcat(seg, rest);
    CutConcat(lead, seg + rest);
  }

  /** The text that is left to read around a segment. */
  lemma {:induction false} Around(a: string, seg: string, b: string)
    requires Solid(seg, b)
    ensures var lead, tail := TrimLeft(a), Cut(TrimRight(b));
      Cut(TrimSpace(a + seg + b)) == if Unstopped(lead) then lead + seg + tail else Cut(lead)
  {
    TrimAround(a, seg, b);
    CutAround(TrimLeft(a), seg, TrimRight(b));
  }

  // ------------------------------------------------------------ the base

  /** Two closing braces at `n`, as the end of an interpolation. */
  function CloseAt(s: string, n: nat): Option<nat> {
    if n + 2 <= |s| && s[n] == '}' && s[n + 1] == '}' then Some(n + 2) else None
  }

  lemma {:induction false} CloseShift(x: string, tail: string, m: nat)
    ensures CloseAt(x + tail, |x| + m)
         == match CloseAt(tail, m) case None => None case Some(n) => Some(|x| + n)
  {
  }

  /** A text that opens an interpolation and does not close it. */
  predicate LeavesOpen(lead: string) {
    HasPrefix(lead, "{{") && Braceless(lead[2..])
  }

  /** An interpolation opened in front of the segment is closed behind it. */
  predicate Straddles(lead: string, tail: string) {
    LeavesOpen(lead) && CloseAt(tail, BracelessRun(tail)).Some?
  }

  lemma {:induction false} RunExtends(s: string, rest: string)
    requires BracelessRun(s) < |s|
    ensures BracelessRun(s + rest) == BracelessRun(s)
  {
    assert (s + rest)[0] == s[0];
    if !Brace(s[0]) {
      assert (s + rest)[1..] == s[1..] + rest;
      RunExtends(s[1..], rest);
    }
  }

  lemma {:induction false} RunThrough(s: string, rest: string)
    requires Braceless(s)
    ensures BracelessRun(s + rest) == |s| + BracelessRun(rest)
  {
    if s == "" {
      assert s + rest == rest;
    } else {
      assert (s + rest)[1..] == s[1..] + rest;
      RunThrough(s[1..], rest);
    }
  }

  lemma {:induction false} RunFull(s: string)
    ensures BracelessRun(s) == |s| <==> Braceless(s)
  {
    assert BracelessRun(s) == |s| ==> s[..|s|] == s;
  }

  /** An interpolation that ends in front of the segment is found whatever follows. */
  lemma {:induction false} VariableInFront(lead: string, rest: string)
    requires VariableLength(lead).Some?
    ensures VariableLength(lead + rest) == VariableLength(lead)
  {
    assert (lead + rest)[..2] == lead[..2] && (lead + rest)[2..] == lead[2..] + rest;
    RunExtends(lead[2..], rest);
  }

  lemma {:induction false} OpensTogether(lead: string, rest: string)
    requires rest != "" && rest[0] == '/'
    ensures HasPrefix(lead + rest, "{{") <==> HasPrefix(lead, "{{")
  {
    var s := lead + rest;
    assert |lead| >= 2 ==> s[..2] == lead[..2];
    assert |lead| < 2 ==> s[|lead|] == '/';
    assert HasPrefix(s, "{{") ==> s[..2][0] == '{' && s[..2][1] == '{';
  }

  /** How far an interpolation that a text opens runs without a brace. */
  lemma {:induction false} RunBeyond(inner: string, rest: string)
    ensures BracelessRun(inner + rest) == if Braceless(inner) then |inner| + BracelessRun(rest) else BracelessRun(inner)
  {
    RunFull(inner);
    if Braceless(inner) {
      RunThrough(inner, rest);
    } else {
      RunExtends(inner, rest);
    }
  }

  /** One that does not end there ends behind the segment, or nowhere. */
  lemma {:induction false} VariableBeyond(lead: string, rest: string)
    requires VariableLength(lead).None? && rest != "" && rest[0] == '/'
    ensures VariableLength(lead + rest)
         == if LeavesOpen(lead) then CloseAt(lead + rest, |lead| + BracelessRun(rest)) else None
  {
    OpensTogether(lead, rest);
    if HasPrefix(lead, "{{") {
      DropWithin(lead, rest, 2);
      RunBeyond(lead[2..], rest);
    }
  }

  lemma {:induction false} VariableAtCurly(lead: string, p: string, tail: string)
    requires VariableLength(lead).None? && Param(p)
    ensures VariableLength(lead + Curly(p) + tail).None?
  {
    var rest := Curly(p) + tail;
    assert lead + Curly(p) + tail == lead + rest;
    VariableBeyond(lead, rest);
    assert rest == "/" + ("{" + p + "}" + tail);
    BracelessRunIs("/", "{" + p + "}" + tail);
    assert (lead + rest)[|lead| + 1] == '{';
  }

  lemma {:induction false} ColonBraceless(p: string)
    requires Param(p)
    ensures Braceless(Colon(p))
  {
  }

  lemma {:induction false} VariableBehind(lead: string, seg: string, tail: string)
    requires VariableLength(lead).None? && seg != "" && seg[0] == '/' && Braceless(seg)
    ensures VariableLength(lead + seg + tail)
         == if LeavesOpen(lead) then CloseAt(lead + seg + tail, |lead + seg| + BracelessRun(tail)) else None
  {
    Assoc(lead, seg, tail);
    RunThrough(seg, tail);
    VariableBeyond(lead, seg + tail);
  }

  lemma {:induction false} VariableStraddles(lead: string, seg: string, tail: string)
    requires VariableLength(lead).None? && seg != "" && seg[0] == '/' && Braceless(seg)
    ensures VariableLength(lead + seg + tail)
         == if Straddles(lead, tail) then Some(|lead + seg| + CloseAt(tail, BracelessRun(tail)).value) else None
  {
    VariableBehind(lead, seg, tail);
    CloseShift(lead + seg, tail, BracelessRun(tail));
  }

  lemma {:induction false} VariableAtColon(lead: string, p: string, tail: string)
    requires VariableLength(lead).None? && Param(p)
    ensures VariableLength(lead + Colon(p) + tail)
         == if Straddles(lead, tail) then Some(|lead + Colon(p)| + CloseAt(tail, BracelessRun(tail)).value) else None
  {
    ColonBraceless(p);
    VariableStraddles(lead, Colon(p), tail);
  }

  lemma {:induction false} SchemeRunStops(s: string, rest: string)
    requires rest != "" && !SchemeChar(rest[0])
    ensures SchemeRun(s + rest) == SchemeRun(s)
  {
    if s == "" {
      assert s + rest == rest;
    } else if SchemeChar(s[0]) {
      assert (s + rest)[1..] == s[1..] + rest;
      SchemeRunStops(s[1..], rest);
    }
  }

  lemma {:induction false} IndexOfConcat(s: string, rest: string, c: char)
    requires rest != "" && rest[0] == c
    ensures IndexOf(s + rest, c) == IndexOf(s, c)
  {
    if s == "" {
      assert s + rest == rest;
    } else if s[0] != c {
      assert (s + rest)[1..] == s[1..] + rest;
      IndexOfConcat(s[1..], rest, c);
    }
  }

  /** How an origin in front of a segment is read: not at all, up to a place in front of the
      segment, or with the segment as its host. */
  datatype Base = NoOrigin | UpTo(n: nat) | HostIsSegment

  function BaseOf(lead: string): Base {
    var n := SchemeRun(lead);
    if lead == "" || !Letter(lead[0]) || n + 2 > |lead| || lead[n] != ':' || lead[n + 1] != '/' then NoOrigin
    else if n + 2 == |lead| then HostIsSegment
    else if lead[n + 2] != '/' then NoOrigin
    else UpTo(n + 3 + IndexOf(lead[n + 3..], '/'))
  }

  predicate OneSegment(seg: string) {
    |seg| >= 2 && seg[0] == '/' && '/' !in seg[1..]
  }

  lemma {:induction false} NoOriginAround(lead: string, rest: string)
    requires BaseOf(lead).NoOrigin? && |rest| >= 2 && rest[0] == '/' && rest[1] != '/'
    ensures OriginLength(lead + rest).None?
  {
    SchemeRunStops(lead, rest);
    var s, n := lead + rest, SchemeRun(lead);
    assert s[|lead|] == '/' && s[|lead| + 1] == rest[1];
    assert forall k :: 0 <= k < |lead| ==> s[k] == lead[k];
  }

  lemma {:induction false} UpToIs(lead: string) returns (n: nat, m: nat)
    requires BaseOf(lead).UpTo?
    ensures lead != "" && Letter(lead[0]) && SchemeRun(lead) == n
    ensures n + 3 <= |lead| && lead[n] == ':' && lead[n + 1] == '/' && lead[n + 2] == '/'
    ensures IndexOf(lead[n + 3..], '/') == m && m <= |lead| - n - 3
    ensures BaseOf(lead) == UpTo(n + 3 + m)
  {
    n := SchemeRun(lead);
    m := IndexOf(lead[n + 3..], '/');
  }

  lemma {:induction false} OriginInFront(lead: string, rest: string)
    requires BaseOf(lead).UpTo? && rest != "" && rest[0] == '/' && VariableLength(lead + rest).None?
    ensures BaseOf(lead).n <= |lead| && StripBase(lead + rest) == lead[BaseOf(lead).n..] + rest
  {
    hide StripBase, SchemeRun, IndexOf, VariableLength;
    var n, m := UpToIs(lead);
    SchemeRunStops(lead, rest);
    IndexOfConcat(lead[n + 3..], rest, '/');
    OriginOf(lead, rest, n, m);
  }

  lemma {:induction false} OriginOf(lead: string, rest: string, n: nat, m: nat)
    requires lead != "" && Letter(lead[0]) && SchemeRun(lead + rest) == n
    requires n + 3 <= |lead| && lead[n] == ':' && lead[n + 1] == '/' && lead[n + 2] == '/'
    requires IndexOf(lead[n + 3..] + rest, '/') == m && m <= |lead| - n - 3
    ensures StripBase(lead + rest) == lead[n + 3 + m..] + rest
  {
    var s := lead + rest;
    DropWithin(lead, rest, n + 3);
    assert s[0] == lead[0] && s[n] == lead[n] && s[n + 1] == lead[n + 1] && s[n + 2] == lead[n + 2];
    OriginIs(s, n, m);
    DropWithin(lead, rest, n + 3 + m);
  }

  lemma {:induction false} OriginAtSegment(lead: string, seg: string, tail: string)
    requires BaseOf(lead).HostIsSegment? && OneSegment(seg) && (tail == "" || tail[0] == '/')
    requires VariableLength(lead + (seg + tail)).None?
    ensures StripBase(lead + (seg + tail)) == tail
  {
    var rest := seg + tail;
    SchemeRunStops(lead, rest);
    SegmentAsHost(lead, seg, tail, SchemeRun(lead));
  }

  lemma {:induction false} SegmentAsHost(lead: string, seg: string, tail: string, n: nat)
    requires OneSegment(seg) && (tail == "" || tail[0] == '/')
    requires lead != "" && Letter(lead[0]) && n + 2 == |lead| && lead[n] == ':' && lead[n + 1] == '/'
    requires SchemeRun(lead + (seg + tail)) == n
    ensures StripBase(lead + (seg + tail)) == tail
  {
    var rest := seg + tail;
    var s := lead + rest;
    assert rest[1..] == seg[1..] + tail;
    assert s[n + 3..] == rest[1..];
    IndexOfIs(seg[1..], tail, '/');
    assert s[0] == lead[0] && s[n] == lead[n] && s[n + 1] == lead[n + 1] && s[n + 2] == rest[0];
    OriginIs(s, n, |seg| - 1);
    assert s[n + 2 + |seg|..] == tail;
  }

  /** `seg` is one slash-led segment, `tail` the rest. */
  lemma {:induction false} OriginAround(lead: string, seg: string, tail: string)
    requires OneSegment(seg) && (tail == "" || tail[0] == '/')
    requires VariableLength(lead + seg + tail).None?
    ensures BaseOf(lead).UpTo? ==> BaseOf(lead).n <= |lead|
    ensures StripBase(lead + seg + tail)
         == match BaseOf(lead)
            case NoOrigin => lead + seg + tail
            case UpTo(n) => lead[n..] + seg + tail
            case HostIsSegment => tail
  {
    var rest := seg + tail;
    assert lead + seg + tail == lead + rest;
    assert rest[1] == seg[1..][0];
    match BaseOf(lead) {
      case NoOrigin => NoOriginAround(lead, rest);
      case UpTo(n) =>
        OriginInFront(lead, rest);
        assert lead[n..] + rest == lead[n..] + seg + tail;
      case HostIsSegment => OriginAtSegment(lead, seg, tail);
    }
  }

  // ------------------------------------------------------------ the segments

  lemma {:induction false} KeptSplit(x: string, rest: string)
    ensures Kept(Split(x + "/" + rest, '/')) == Kept(Split(x, '/')) + Kept(Split(rest, '/'))
  {
    assert x + "/" + rest == x + ['/'] + rest;
    SplitConcat(x, rest, '/');
    KeptConcat(Split(x, '/'), Split(rest, '/'));
  }

  lemma {:induction false} KeptOne(name: string)
    requires '/' !in name
    ensures Kept(Split(name, '/')) == if name == "" then [] else [Spell(name)]
  {
    SplitWithout(name, '/');
    KeptSingle(name);
  }

  lemma {:induction false} KeptLed(tail: string)
    requires tail != "" && tail[0] == '/'
    ensures Kept(Split(tail, '/')) == Kept(Split(tail[1..], '/'))
  {
    var after := Split(tail[1..], '/');
    assert Split(tail, '/') == [""] + after;
    assert ([""] + after)[1..] == after;
    assert Kept(after) == [] + Kept(after);
  }

  lemma {:induction false} KeptTail(name: string, tail: string)
    requires name != "" && '/' !in name && (tail == "" || tail[0] == '/')
    ensures Kept(Split(name + tail, '/')) == [Spell(name)] + Kept(Split(tail, '/'))
  {
    KeptOne(name);
    if tail == "" {
      KeptOne(tail);
      assert name + tail == name;
    } else {
      assert name + tail == name + "/" + tail[1..];
      KeptSplit(name, tail[1..]);
      KeptLed(tail);
    }
  }

  lemma {:induction false} KeptAround(x: string, seg: string, tail: string)
    requires OneSegment(seg) && (tail == "" || tail[0] == '/')
    ensures Kept(Split(x + seg + tail, '/')) == Kept(Split(x, '/')) + [Spell(seg[1..])] + Kept(Split(tail, '/'))
  {
    var rest := seg[1..] + tail;
    assert x + seg + tail == x + "/" + rest;
    KeptSplit(x, rest);
    KeptTail(seg[1..], tail);
  }

  /** The segments read from a text around one segment. */
  function Read(lead: string, seg: string, tail: string): seq<string> {
    Kept(Split(StripBase(lead + seg + tail), '/'))
  }

  lemma {:induction false} SpellParam(p: string)
    requires Param(p)
    ensures Spell(Curly(p)[1..]) == Spell(Colon(p)[1..]) == ":" + p
    ensures OneSegment(Curly(p)) && OneSegment(Colon(p))
  {
    var curly := Curly(p)[1..];
    assert curly == "{" + p + "}" && curly[1..|curly| - 1] == p;
    assert Colon(p)[1..] == ":" + p;
  }

  // ------------------------------------------------------------ the result

  /** The text `:p` lets run together: an interpolation opens in front of the segment, and the
      braces that close it stand behind. */
  ghost predicate Captured(a: string, b: string) {
    Unstopped(TrimLeft(a)) && Straddles(TrimLeft(a), Cut(TrimRight(b)))
  }

  lemma {:induction false} SameSegments(lead: string, p: string, tail: string)
    requires Param(p) && (tail == "" || tail[0] == '/') && !Straddles(lead, tail)
    ensures Read(lead, Curly(p), tail) == Read(lead, Colon(p), tail)
  {
    SpellParam(p);
    if VariableLength(lead).Some? {
      ReadBehindVariable(lead, Curly(p), tail);
      ReadBehindVariable(lead, Colon(p), tail);
    } else {
      VariableAtCurly(lead, p, tail);
      VariableAtColon(lead, p, tail);
      ReadWithoutVariable(lead, Curly(p), tail);
      ReadWithoutVariable(lead, Colon(p), tail);
    }
  }

  lemma {:induction false} ReadBehindVariable(lead: string, seg: string, tail: string)
    requires VariableLength(lead).Some? && OneSegment(seg) && (tail == "" || tail[0] == '/')
    ensures Read(lead, seg, tail)
         == Kept(Split(lead[VariableLength(lead).value..], '/')) + [Spell(seg[1..])] + Kept(Split(tail, '/'))
  {
    var n := VariableLength(lead).value;
    Assoc(lead, seg, tail);
    VariableInFront(lead, seg + tail);
    assert (lead + (seg + tail))[n..] == lead[n..] + seg + tail;
    KeptAround(lead[n..], seg, tail);
  }

  /** What stands in front of the segment once an origin is gone; none when it was the host. */
  function InFront(lead: string): Option<string> {
    match BaseOf(lead)
    case NoOrigin => Some(lead)
    case UpTo(n) => if n <= |lead| then Some(lead[n..]) else None
    case HostIsSegment => None
  }

  lemma {:induction false} ReadWithoutVariable(lead: string, seg: string, tail: string)
    requires OneSegment(seg) && (tail == "" || tail[0] == '/') && VariableLength(lead + seg + tail).None?
    ensures Read(lead, seg, tail)
         == if InFront(lead).None? then Kept(Split(tail, '/'))
            else Kept(Split(InFront(lead).value, '/')) + [Spell(seg[1..])] + Kept(Split(tail, '/'))
  {
    OriginAround(lead, seg, tail);
    if InFront(lead).Some? {
      KeptAround(InFront(lead).value, seg, tail);
    }
  }

  lemma {:induction false} FewerPieces(s: string, k: nat)
    requires k <= |s|
    ensures |Kept(Split(s[k..], '/'))| <= |Kept(Split(s, '/'))|
  {
    if k == 0 {
      assert s[0..] == s;
    } else {
      FewerPieces(s[1..], k - 1);
      assert s[1..][k - 1..] == s[k..];
    }
  }

  /** When the braces capture the segment, the colon spelling loses it. */
  lemma {:induction false} CapturedDiffers(lead: string, p: string, tail: string)
    requires Param(p) && (tail == "" || tail[0] == '/') && Straddles(lead, tail)
    ensures |Read(lead, Curly(p), tail)| > |Read(lead, Colon(p), tail)|
  {
    var all := ReadUncaptured(lead, p, tail);
    var rest := ReadCaptured(lead, p, tail);
  }

  lemma {:induction false} ReadUncaptured(lead: string, p: string, tail: string) returns (all: seq<string>)
    requires Param(p) && (tail == "" || tail[0] == '/') && Straddles(lead, tail)
    ensures all == Read(lead, Curly(p), tail) && |all| > |Kept(Split(tail, '/'))|
  {
    SpellParam(p);
    OpenStart(lead);
    VariableAtCurly(lead, p, tail);
    ReadWithoutVariable(lead, Curly(p), tail);
    all := Kept(Split(lead, '/')) + [Spell(Curly(p)[1..])] + Kept(Split(tail, '/'));
  }

  lemma {:induction false} ReadCaptured(lead: string, p: string, tail: string) returns (rest: seq<string>)
    requires Param(p) && Straddles(lead, tail)
    ensures rest == Read(lead, Colon(p), tail) && |rest| <= |Kept(Split(tail, '/'))|
  {
    OpenStart(lead);
    VariableAtColon(lead, p, tail);
    var front, m := lead + Colon(p), BracelessRun(tail);
    DropPast(front, tail, m + 2);
    rest := Kept(Split(tail[m + 2..], '/'));
    FewerPieces(tail, m + 2);
  }

  lemma {:induction false} OpenStart(lead: string)
    requires LeavesOpen(lead)
    ensures VariableLength(lead).None? && InFront(lead) == Some(lead)
  {
    RunFull(lead[2..]);
    assert lead[0] == "{{"[0];
  }

  lemma {:induction false} PathsDiffer(u: string, v: string)
    ensures RoutePathOf(u) == RoutePathOf(v) <==> Segments(u) == Segments(v)
  {
    SegmentsNormal(u);
    SegmentsNormal(v);
    SplitPath(Segments(u));
    SplitPath(Segments(v));
  }

  /** The segments of a url around such a stretch. */
  lemma {:induction false} SegmentsAround(a: string, seg: string, b: string)
    requires Solid(seg, b)
    ensures Segments(a + seg + b)
         == if Unstopped(TrimLeft(a)) then Read(TrimLeft(a), seg, Cut(TrimRight(b)))
            else Kept(Split(StripBase(Cut(TrimLeft(a))), '/'))
  {
    Around(a, seg, b);
  }

  lemma {:induction false} AlikeAround(a: string, c: string, d: string, b: string, lead: string, tail: string)
    requires Solid(c, b) && Solid(d, b) && lead == TrimLeft(a) && tail == Cut(TrimRight(b))
    ensures RoutePathOf(a + c + b) == RoutePathOf(a + d + b)
       <==> (Unstopped(lead) ==> Read(lead, c, tail) == Read(lead, d, tail))
  {
    SegmentsAround(a, c, b);
    SegmentsAround(a, d, b);
    PathsDiffer(a + c + b, a + d + b);
  }

  lemma {:induction false} TailStarts(b: string)
    requires After(b)
    ensures Cut(TrimRight(b)) == "" || Cut(TrimRight(b))[0] == '/'
  {
    TrimRightPrefix(b);
    CutPrefix(TrimRight(b));
  }

  lemma {:induction false} ReadsAlike(lead: string, p: string, tail: string)
    requires Param(p) && (tail == "" || tail[0] == '/')
    ensures Read(lead, Curly(p), tail) == Read(lead, Colon(p), tail) <==> !Straddles(lead, tail)
  {
    if Straddles(lead, tail) {
      CapturedDiffers(lead, p, tail);
    } else {
      SameSegments(lead, p, tail);
    }
  }

  lemma {:induction false} SolidSpellings(p: string, b: string)
    requires Param(p) && After(b)
    ensures Solid(Curly(p), b)
    ensures b != "" || !EndsInSpace(p) ==> Solid(Colon(p), b)
    ensures Solid(Colon(TrimRight(p)), "")
  {
    TrimRightPrefix(p);
    TrimmedEnd(p);
  }

  lemma {:induction false} TrimmedEnd(s: string)
    ensures !EndsInSpace(TrimRight(s))
  {
    if EndsInSpace(s) {
      TrimmedEnd(s[..|s| - 1]);
    }
  }

  // ------------------------------------------------------------ names that end in space

  /** With an origin in front that has no host yet, the segment is read as the host. */
  predicate ReadAsHost(lead: string) {
    VariableLength(lead).None? && InFront(lead).None?
  }

  /** The text `:p` loses: behind a colon at the very end of the url, trimming takes it. */
  ghost predicate Trimmed(a: string, p: string, b: string) {
    b == "" && EndsInSpace(p) && Unstopped(TrimLeft(a)) && !ReadAsHost(TrimLeft(a))
  }

  /** What is read of a last segment without braces. */
  lemma {:induction false} LastSegment(lead: string, seg: string)
    requires OneSegment(seg) && (VariableLength(lead).None? ==> VariableLength(lead + seg + "").None?)
    ensures ReadAsHost(lead) ==> Read(lead, seg, "") == []
    ensures !ReadAsHost(lead) ==>
        Read(lead, seg, "") != [] && Read(lead, seg, "")[|Read(lead, seg, "")| - 1] == Spell(seg[1..])
  {
    KeptOne("");
    if VariableLength(lead).Some? {
      ReadBehindVariable(lead, seg, "");
    } else {
      ReadWithoutVariable(lead, seg, "");
    }
  }

  lemma {:induction false} LastCurly(lead: string, p: string)
    requires Param(p)
    ensures ReadAsHost(lead) ==> Read(lead, Curly(p), "") == []
    ensures !ReadAsHost(lead) ==>
      Read(lead, Curly(p), "") != [] && Read(lead, Curly(p), "")[|Read(lead, Curly(p), "")| - 1] == ":" + p
  {
    SpellParam(p);
    if VariableLength(lead).None? {
      VariableAtCurly(lead, p, "");
    }
    LastSegment(lead, Curly(p));
  }

  lemma {:induction false} LastColon(lead: string, name: string)
    requires Braceless(name) && '/' !in name
    ensures ReadAsHost(lead) ==> Read(lead, Colon(name), "") == []
    ensures !ReadAsHost(lead) ==>
      Read(lead, Colon(name), "") != [] && Read(lead, Colon(name), "")[|Read(lead, Colon(name), "")| - 1] == ":" + name
  {
    assert Colon(name)[1..] == ":" + name;
    if VariableLength(lead).None? {
      VariableStraddles(lead, Colon(name), "");
    }
    LastSegment(lead, Colon(name));
  }

  lemma {:induction false} LastSegments(lead: string, p: string)
    requires Param(p) && EndsInSpace(p)
    ensures Read(lead, Curly(p), "") == Read(lead, Colon(TrimRight(p)), "") <==> ReadAsHost(lead)
  {
    TrimRightPrefix(p);
    TrimRightPrefix(p[..|p| - 1]);
    LastCurly(lead, p);
    LastColon(lead, TrimRight(p));
    assert |":" + TrimRight(p)| < |":" + p|;
  }

  lemma {:induction false} TrimmedUrl(a: string, p: string)
    requires Param(p) && EndsInSpace(p)
    ensures RoutePathOf(a + Colon(p) + "") == RoutePathOf(a + Colon(TrimRight(p)) + "")
  {
    var lead := TrimLeft(a);
    TrimRightPrefix(p);
    SolidSpellings(p, "");
    TrimAround(a, Colon(TrimRight(p)), "");
    assert a + Colon(p) + "" == a + Colon(p);
    TrimLeftConcat(a, Colon(p));
    assert lead + Colon(p) == (lead + "/:") + p;
    TrimRightTail(lead + "/:", p);
    assert (lead + "/:") + TrimRight(p) == lead + Colon(TrimRight(p)) + TrimRight("");
    assert TrimSpace(a + Colon(p)) == TrimSpace(a + Colon(TrimRight(p)) + "");
  }

  lemma {:induction false} EndSpelling(a: string, p: string)
    requires Param(p) && EndsInSpace(p)
    ensures RoutePathOf(a + Curly(p) + "") == RoutePathOf(a + Colon(p) + "") <==> !Trimmed(a, p, "")
  {
    var short := TrimRight(p);
    TrimmedUrl(a, p);
    SolidSpellings(p, "");
    LastSegments(TrimLeft(a), p);
    AlikeAround(a, Curly(p), Colon(short), "", TrimLeft(a), "");
  }

  /** A whole segment may be spelled `{p}` or `:p`, except when braces around it capture it,
      or when whitespace at the end of the name ends the url. */
  lemma {:induction false} ParamSpelling(a: string, p: string, b: string)
    requires Param(p) && After(b)
    ensures RoutePathOf(a + Curly(p) + b) == RoutePathOf(a + Colon(p) + b) <==> !Captured(a, b) && !Trimmed(a, p, b)
  {
    if b == "" && EndsInSpace(p) {
      EndSpelling(a, p);
    } else {
      TailStarts(b);
      SolidSpellings(p, b);
      ReadsAlike(TrimLeft(a), p, Cut(TrimRight(b)));
      AlikeAround(a, Curly(p), Colon(p), b, TrimLeft(a), Cut(TrimRight(b)));
    }
  }

  // ------------------------------------------------------------ where the spellings part

  /** Braces opened in front of the segment and closed behind it. */
  lemma {:induction false} CapturedSegment()
    ensures RoutePathOf("{{x" + Curly("id") + "/y}}") != RoutePathOf("{{x" + Colon("id") + "/y}}")
  {
    var a, b := "{{x", "/y}}";
    assert a[2..] == "x" && b[2..] == "}}" && b == "/y" + "}}";
    BracelessRunIs("/y", "}}");
    assert TrimLeft(a) == a && TrimRight(b) == b;
    CutNoop(b);
    assert Captured(a, b);
    ParamSpelling(a, "id", b);
  }

  /** A name that ends in a blank, at the end of the url. */
  lemma {:induction false} TrimmedSegment()
    ensures RoutePathOf("/pets" + Curly("id ") + "") != RoutePathOf("/pets" + Colon("id ") + "")
  {
    var a, p := "/pets", "id ";
    assert TrimLeft(a) == a && EndsInSpace(p);
    assert BaseOf(a).NoOrigin?;
    assert Trimmed(a, p, "");
    ParamSpelling(a, p, "");
  }
}
