/** daggerverse/bruno: the structural scan that splits a .bru file into top-level blocks. */
module BruParse {
  import opened Text

  datatype Entry = Entry(line: nat, key: string, value: string, disabled: bool)

  datatype Block = Block(name: string, line: nat, brackets: bool, body: seq<Entry>)

  // ------------------------------------------------------------ one line

  predicate Letter(c: char) {
    'A' <= c <= 'Z' || 'a' <= c <= 'z'
  }

  predicate NameChar(c: char) {
    Letter(c) || '0' <= c <= '9' || c in {'_', ':', '.', '-'}
  }

  // Braces, for the two patterns that look for interpolations.

  predicate Brace(c: char) {
    c == '{' || c == '}'
  }

  predicate Braceless(s: string) {
    forall k :: 0 <= k < |s| ==> !Brace(s[k])
  }

  function BracelessRun(s: string): (n: nat)
    ensures n <= |s| && Braceless(s[..n])
    ensures n < |s| ==> Brace(s[n])
  {
    if s == "" || Brace(s[0]) then 0 else 1 + BracelessRun(s[1..])
  }

  lemma {:induction false} BracelessRunIs(s: string, rest: string)
    requires Braceless(s) && (rest == "" || Brace(rest[0]))
    ensures BracelessRun(s + rest) == |s|
  {
    if s == "" {
      assert s + rest == rest;
    } else {
      assert (s + rest)[1..] == s[1..] + rest;
      BracelessRunIs(s[1..], rest);
    }
  }

  /** `\s` of the header pattern. */
  predicate PatternSpace(c: char) {
    c in {' ', '\t', '\n', '\U{c}', '\r'}
  }

  function NameRun(s: string): (n: nat)
    ensures n <= |s|
    ensures forall k :: 0 <= k < n ==> NameChar(s[k])
    ensures n < |s| ==> !NameChar(s[n])
  {
    if s == "" || !NameChar(s[0]) then 0 else 1 + NameRun(s[1..])
  }

  function SpaceRun(s: string): (n: nat)
    ensures n <= |s|
    ensures forall k :: 0 <= k < n ==> PatternSpace(s[k])
    ensures n < |s| ==> !PatternSpace(s[n])
  {
    if s == "" || !PatternSpace(s[0]) then 0 else 1 + SpaceRun(s[1..])
  }

  /** `^([A-Za-z][A-Za-z0-9_:.-]*)\s*([{\[])\s*$`: the block's name, and whether it is an
      array. */
  function Header(line: string): Option<(string, bool)> {
    if line == "" || !Letter(line[0]) then None
    else
      var n := NameRun(line);
      var at := n + SpaceRun(line[n..]);
      if at == |line| || line[at] !in {'{', '['} then None
      else if at + 1 + SpaceRun(line[at + 1..]) != |line| then None
      else Some((line[..n], line[at] == '['))
  }

  predicate AllPatternSpace(s: string) {
    forall k :: 0 <= k < |s| ==> PatternSpace(s[k])
  }

  predicate BlockName(name: string) {
    && name != "" && ('A' <= name[0] <= 'Z' || 'a' <= name[0] <= 'z')
    && forall k :: 0 <= k < |name| ==>
         'A' <= name[k] <= 'Z' || 'a' <= name[k] <= 'z' || '0' <= name[k] <= '9'
         || name[k] == '_' || name[k] == ':' || name[k] == '.' || name[k] == '-'
  }

  ghost predicate HeaderParts(line: string, name: string, brackets: bool, a: string, b: string) {
    && BlockName(name) && line == name + a + (if brackets then "[" else "{") + b
    && (forall k :: 0 <= k < |a| ==> a[k] in {' ', '\t', '\n', '\U{c}', '\r'})
    && (forall k :: 0 <= k < |b| ==> b[k] in {' ', '\t', '\n', '\U{c}', '\r'})
  }

  ghost predicate Opens(line: string, name: string, brackets: bool) {
    exists a, b :: HeaderParts(line, name, brackets, a, b)
  }

  /** The scan finds the one way a line can match the pattern. */
  lemma {:induction false} HeaderMatches(line: string, name: string, brackets: bool)
    ensures Header(line) == Some((name, brackets)) <==> Opens(line, name, brackets)
  {
    hide Header, HeaderParts;
    if Header(line) == Some((name, brackets)) {
      HeaderOpens(line, name, brackets);
    }
    if a, b :| HeaderParts(line, name, brackets, a, b) {
      PartsMatch(line, name, brackets, a, b);
    }
  }

  lemma {:induction false} HeaderOpens(line: string, name: string, brackets: bool)
    requires Header(line) == Some((name, brackets))
    ensures Opens(line, name, brackets)
  {
    hide NameRun, SpaceRun;
    var n := NameRun(line);
    var m := SpaceRun(line[n..]);
    var at := n + m;
    var a, b := line[n..][..m], line[at + 1..];
    assert line == line[..n] + a + [line[at]] + b;
    assert AllPatternSpace(a) && AllPatternSpace(b);
    assert HeaderParts(line, name, brackets, a, b);
  }

  lemma {:induction false} PartsMatch(line: string, name: string, brackets: bool, a: string, b: string)
    requires HeaderParts(line, name, brackets, a, b)
    ensures Header(line) == Some((name, brackets))
  {
    hide NameRun, SpaceRun;
    var brace := if brackets then "[" else "{";
    var tail := a + brace + b;
    assert line == name + tail;
    assert !NameChar(tail[0]);
    NameRunIs(name, tail);
    assert line[|name|..] == tail && line[..|name|] == name;
    assert tail == a + (brace + b) && !PatternSpace((brace + b)[0]);
    SpaceRunIs(a, brace + b);
    SpaceRunIs(b, "");
    assert b + "" == b;
    assert line[|name| + |a|] == brace[0];
    assert line[|name| + |a| + 1..] == b;
  }

  lemma {:induction false} NameRunIs(s: string, rest: string)
    requires forall k :: 0 <= k < |s| ==> NameChar(s[k])
    requires rest == "" || !NameChar(rest[0])
    ensures NameRun(s + rest) == |s|
  {
    if s == "" {
      assert s + rest == rest;
    } else {
      assert (s + rest)[1..] == s[1..] + rest;
      NameRunIs(s[1..], rest);
    }
  }

  lemma {:induction false} SpaceRunIs(s: string, rest: string)
    requires AllPatternSpace(s)
    requires rest == "" || !PatternSpace(rest[0])
    ensures SpaceRun(s + rest) == |s|
  {
    if s == "" {
      assert s + rest == rest;
    } else {
      assert (s + rest)[1..] == s[1..] + rest;
      SpaceRunIs(s[1..], rest);
    }
  }

  /** `strings.TrimRight(line, " \t\r")`. */
  function TrimEnd(s: string): string {
    if s != "" && s[|s| - 1] in {' ', '\t', '\r'} then TrimEnd(s[..|s| - 1]) else s
  }

  predicate Closer(line: string, brackets: bool) {
    TrimEnd(line) == if brackets then "]" else "}"
  }

  /** The first position of a character, or the length. */
  function IndexOf(s: string, c: char): (n: nat)
    ensures n <= |s|
    ensures c !in s[..n]
    ensures n < |s| ==> s[n] == c
  {
    if s == "" || s[0] == c then 0 else
      var n := 1 + IndexOf(s[1..], c);
      assert s[..n] == [s[0]] + s[1..][..n - 1];
      n
  }

  function ParseEntry(line: string, number: nat, brackets: bool): Entry {
    var text0 := TrimSpace(line);
    if text0 == "" then Entry(number, "", "", false)
    else
      var disabled := text0[0] == '~';
      var text := if disabled then TrimSpace(text0[1..]) else text0;
      if brackets then Entry(number, text, "", disabled)
      else
        var cut := IndexOf(text, ':');
        if cut == |text| then Entry(number, "", "", disabled)
        else Entry(number, TrimSpace(text[..cut]), TrimSpace(text[cut + 1..]), disabled)
  }

  /** What one line of a body declares: `~` in front turns it off; in an array it is a name and
      nothing else; in a dictionary the first colon parts a key from its value, and a line
      without one has neither. */
  ghost predicate Declared(line: string, brackets: bool, key: string, value: string, disabled: bool) {
    exists text, inner, rest ::
      && Inside(line, text) && disabled == (text != "" && text[0] == '~')
      && inner == (if disabled then text[1..] else text) && Inside(inner, rest)
      && Says(rest, brackets, key, value)
  }

  ghost predicate Says(rest: string, brackets: bool, key: string, value: string) {
    if brackets then key == rest && value == ""
    else if ':' in rest then exists k, v :: Pair(rest, k, v, key, value)
    else key == "" && value == ""
  }

  ghost predicate Pair(rest: string, k: string, v: string, key: string, value: string) {
    rest == k + (":" + v) && ':' !in k && Inside(k, key) && Inside(v, value)
  }

  lemma {:induction false} IndexOfIs(s: string, rest: string, c: char)
    requires c !in s && (rest == "" || rest[0] == c)
    ensures IndexOf(s + rest, c) == |s|
  {
    if s == "" {
      assert s + rest == rest;
    } else {
      assert (s + rest)[1..] == s[1..] + rest;
      IndexOfIs(s[1..], rest, c);
    }
  }

  lemma {:induction false} ColonCut(rest: string)
    ensures var n := IndexOf(rest, ':');
      if n < |rest| then rest == rest[..n] + (":" + rest[n + 1..]) else ':' !in rest
  {
    hide IndexOf;
    assert rest[..|rest|] == rest;
  }

  /** The key and the value of a line whose blanks and mark are off. */
  function Parts(rest: string, brackets: bool): (string, string) {
    var n := IndexOf(rest, ':');
    if brackets then (rest, "")
    else if n == |rest| then ("", "")
    else (TrimSpace(rest[..n]), TrimSpace(rest[n + 1..]))
  }

  lemma {:induction false} PartsExactly(rest: string, brackets: bool, key: string, value: string)
    ensures Says(rest, brackets, key, value) <==> (key, value) == Parts(rest, brackets)
  {
    hide IndexOf, Inside, TrimSpace;
    var n := IndexOf(rest, ':');
    ColonCut(rest);
    if n < |rest| && !brackets {
      assert rest[n] in rest;
      var k, v := rest[..n], rest[n + 1..];
      TrimSpaceExactly(k, key);
      TrimSpaceExactly(v, value);
      assert Pair(rest, k, v, key, value) <==> (key, value) == Parts(rest, brackets);
      forall k1, v1 | Pair(rest, k1, v1, key, value) ensures k1 == k && v1 == v {
        IndexOfIs(k1, ":" + v1, ':');
        assert rest[..|k1|] == k1 && rest[|k1| + 1..] == v1;
      }
    }
  }

  lemma {:induction false} TrimmedTwice(line: string)
    ensures TrimSpace(TrimSpace(line)) == TrimSpace(line)
  {
    var t := TrimSpace(line);
    TrimSpaceExactly(line, t);
    assert t == "" + (t + "");
    TrimSpaceExactly(t, t);
  }

  lemma {:induction false} EntryParts(line: string, number: nat, brackets: bool)
    ensures var text := TrimSpace(line);
      var disabled := text != "" && text[0] == '~';
      var rest := TrimSpace(if disabled then text[1..] else text);
      var parts := Parts(rest, brackets);
      ParseEntry(line, number, brackets) == Entry(number, parts.0, parts.1, disabled)
  {
    hide TrimSpace, IndexOf;
    TrimmedTwice(line);
    assert IndexOf("", ':') == 0;
  }

  /** The entry of a line is what the line declares. */
  lemma {:induction false} EntryExactly(line: string, number: nat, brackets: bool, e: Entry)
    ensures e == ParseEntry(line, number, brackets)
       <==> e.line == number && Declared(line, brackets, e.key, e.value, e.disabled)
  {
    hide Inside, TrimSpace, ParseEntry, Parts, Says;
    var text := TrimSpace(line);
    var disabled := text != "" && text[0] == '~';
    var inner := if disabled then text[1..] else text;
    EntryParts(line, number, brackets);
    PartsExactly(TrimSpace(inner), brackets, e.key, e.value);
    TrimSpaceExactly(inner, TrimSpace(inner));
    TrimSpaceExactly(line, text);
    forall t | Inside(line, t) ensures t == text {
      TrimSpaceExactly(line, t);
    }
    forall t | Inside(inner, t) ensures t == TrimSpace(inner) {
      TrimSpaceExactly(inner, t);
    }
  }

  /** A line closes a block when it is the bracket of its kind, with blanks behind at most. */
  lemma {:induction false} CloserExactly(line: string, brackets: bool)
    ensures Closer(line, brackets) <==>
      && line != "" && line[0] == (if brackets then ']' else '}')
      && forall k :: 1 <= k < |line| ==> line[k] in {' ', '\t', '\r'}
  {
    if line != "" && line[|line| - 1] in {' ', '\t', '\r'} {
      CloserExactly(line[..|line| - 1], brackets);
    }
  }

  // ------------------------------------------------------------ segmentation

  /** The position of the block's header, and the one right after its body. */
  function Start(b: Block): int {
    b.line - 1
  }

  function Stop(b: Block): nat {
    b.line + |b.body|
  }

  /** A block as far as its body goes: a header, then the entries of lines that do not close. */
  predicate Begun(lines: seq<string>, b: Block) {
    && 1 <= b.line && Stop(b) <= |lines|
    && Header(lines[Start(b)]) == Some((b.name, b.brackets))
    && (forall j :: 0 <= j < |b.body| ==> InBody(lines, b.line + j, b.brackets, b.body[j]))
  }

  /** Line i lies in a body as this entry: it does not close the block. */
  predicate InBody(lines: seq<string>, i: nat, brackets: bool, e: Entry) {
    i < |lines| && e == ParseEntry(lines[i], i + 1, brackets) && !Closer(lines[i], brackets)
  }

  /** A whole block: it runs to a closer of its own kind, or to the end of the file. */
  predicate BlockAt(lines: seq<string>, b: Block) {
    Begun(lines, b) && (Stop(b) < |lines| ==> Closer(lines[Stop(b)], b.brackets))
  }

  ghost predicate Covered(blocks: seq<Block>, i: int) {
    exists k :: 0 <= k < |blocks| && Start(blocks[k]) <= i <= Stop(blocks[k])
  }

  /** The first `upto` lines, cut into blocks: each from a header to the first closer of its
      own kind, in order, without overlap, and no header left outside. */
  ghost predicate Segmented(lines: seq<string>, blocks: seq<Block>, upto: int) {
    && (forall k :: 0 <= k < |blocks| ==> BlockAt(lines, blocks[k]) && Stop(blocks[k]) < upto)
    && (forall j, k :: 0 <= j < k < |blocks| ==> Stop(blocks[j]) < Start(blocks[k]))
    && (forall i {:trigger Covered(blocks, i)} :: 0 <= i < |lines| && i < upto && Header(lines[i]).Some? ==>
        Covered(blocks, i))
  }

  ghost predicate Segmentation(lines: seq<string>, blocks: seq<Block>) {
    Segmented(lines, blocks, |lines| + 1)
  }

  lemma {:induction false} BegunSnoc(lines: seq<string>, b: Block, entry: Entry)
    requires Begun(lines, b) && Stop(b) < |lines| && !Closer(lines[Stop(b)], b.brackets)
    requires entry == ParseEntry(lines[Stop(b)], Stop(b) + 1, b.brackets)
    ensures Begun(lines, b.(body := b.body + [entry]))
  {
    hide ParseEntry, Closer, Header;
    var longer := b.(body := b.body + [entry]);
    forall j | 0 <= j < |longer.body| ensures InBody(lines, longer.line + j, longer.brackets, longer.body[j]) {
      assert longer.body[j] == if j < |b.body| then b.body[j] else entry;
    }
  }

  lemma {:induction false} SegmentedSkip(lines: seq<string>, blocks: seq<Block>, i: nat)
    requires i < |lines| && Segmented(lines, blocks, i) && Header(lines[i]).None?
    ensures Segmented(lines, blocks, i + 1)
  {
  }

  lemma {:induction false} SegmentedSnoc(lines: seq<string>, blocks: seq<Block>, b: Block)
    requires 1 <= b.line && Segmented(lines, blocks, Start(b)) && BlockAt(lines, b)
    requires forall i :: Start(b) < i < |lines| && i == Stop(b) ==> Header(lines[i]).None?
    ensures Segmented(lines, blocks + [b], Stop(b) + 1)
  {
    hide BlockAt, Header;
    var all := blocks + [b];
    forall i | 0 <= i < |lines| && i < Stop(b) + 1 && Header(lines[i]).Some?
      ensures Covered(all, i)
    {
      if i < Start(b) {
        assert Covered(blocks, i);
        var k :| 0 <= k < |blocks| && Start(blocks[k]) <= i <= Stop(blocks[k]);
        assert all[k] == blocks[k];
      } else {
        assert all[|blocks|] == b;
      }
    }
  }

  /** A line that closes a block opens none. */
  lemma {:induction false} CloserIsNoHeader(line: string, brackets: bool)
    requires Closer(line, brackets)
    ensures Header(line).None?
  {
    TrimEndPrefix(line);
  }

  lemma {:induction false} TrimEndPrefix(s: string)
    ensures |TrimEnd(s)| <= |s| && TrimEnd(s) == s[..|TrimEnd(s)|]
  {
    if s != "" && s[|s| - 1] in {' ', '\t', '\r'} {
      TrimEndPrefix(s[..|s| - 1]);
    }
  }

  /** `parseBru`: two loops over one index. */
  method ParseBru(src: string) returns (blocks: seq<Block>)
    ensures Segmentation(Split(src, '\n'), blocks)
    ensures forall k :: 0 <= k < |blocks| ==> BlockReads(Split(src, '\n'), blocks[k])
  {
    blocks := [];
    var lines := Split(src, '\n');
    var i := 0;
    while i < |lines|
      invariant 0 <= i <= |lines| + 1
      invariant Segmented(lines, blocks, i)
    {
      var header := Header(lines[i]);
      if header.None? {
        SegmentedSkip(lines, blocks, i);
        i := i + 1;
        continue;
      }
      ghost var start := i;
      var block := Block(header.value.0, i + 1, header.value.1, []);
      i := i + 1;
      while i < |lines|
        invariant i <= |lines| && Stop(block) == i && Start(block) == start
        invariant Begun(lines, block)
      {
        if Closer(lines[i], block.brackets) {
          break;
        }
        var entry := ParseEntry(lines[i], i + 1, block.brackets);
        BegunSnoc(lines, block, entry);
        block := block.(body := block.body + [entry]);
        i := i + 1;
      }
      if i < |lines| {
        CloserIsNoHeader(lines[i], block.brackets);
      }
      SegmentedSnoc(lines, blocks, block);
      blocks := blocks + [block];
      i := i + 1;
    }
    forall k | 0 <= k < |blocks| ensures BlockReads(lines, blocks[k]) {
      BlocksRead(lines, blocks, k);
    }
  }

  /** A block of a file, line by line: its header, and an entry with its number for each line of
      its body. */
  ghost predicate BlockReads(lines: seq<string>, b: Block) {
    && 1 <= b.line && b.line + |b.body| <= |lines|
    && Opens(lines[b.line - 1], b.name, b.brackets)
    && forall j :: 0 <= j < |b.body| ==>
         var e := b.body[j];
         && e.line == b.line + j + 1
         && Declared(lines[b.line + j], b.brackets, e.key, e.value, e.disabled)
  }

  lemma {:induction false} BlocksRead(lines: seq<string>, blocks: seq<Block>, k: nat)
    requires Segmentation(lines, blocks) && k < |blocks|
    ensures BlockReads(lines, blocks[k])
  {
    hide Header, ParseEntry, Closer, Declared, Opens;
    var b := blocks[k];
    assert BlockAt(lines, b);
    HeaderMatches(lines[b.line - 1], b.name, b.brackets);
    forall j | 0 <= j < |b.body|
      ensures b.body[j].line == b.line + j + 1
      ensures Declared(lines[b.line + j], b.brackets, b.body[j].key, b.body[j].value, b.body[j].disabled)
    {
      EntryExactly(lines[b.line + j], b.line + 1 + j, b.brackets, b.body[j]);
    }
  }

  // ------------------------------------------------------------ uniqueness

  /** The header of a block of one segmentation lies in a block of any other. */
  lemma {:induction false} Cover(lines: seq<string>, a: seq<Block>, b: seq<Block>, k: nat) returns (m: nat)
    requires Segmentation(lines, a) && Segmentation(lines, b) && k < |a|
    ensures m < |b| && Start(b[m]) <= Start(a[k]) <= Stop(b[m])
  {
    assert BlockAt(lines, a[k]);
    assert Covered(b, Start(a[k]));
    m :| 0 <= m < |b| && Start(b[m]) <= Start(a[k]) <= Stop(b[m]);
  }

  /** Two segmentations that agree so far agree on where the next block starts. */
  lemma {:induction false} NextStart(lines: seq<string>, a: seq<Block>, b: seq<Block>, k: nat)
    requires Segmentation(lines, a) && Segmentation(lines, b)
    requires k < |a| && k <= |b| && forall j :: 0 <= j < k ==> a[j] == b[j]
    ensures k < |b| && Start(b[k]) <= Start(a[k])
  {
    var m := Cover(lines, a, b, k);
  }

  lemma {:induction false} BodyHasNoCloser(lines: seq<string>, b: Block, j: nat)
    requires BlockAt(lines, b) && j < |b.body|
    ensures !Closer(lines[b.line + j], b.brackets)
  {
    var entry := b.body[j];
  }

  /** A block is determined by where it starts. */
  lemma {:induction false} BlockDetermined(lines: seq<string>, a: Block, b: Block)
    requires BlockAt(lines, a) && BlockAt(lines, b) && a.line == b.line
    ensures a == b
  {
    hide ParseEntry, Closer, Header;
    if |a.body| < |b.body| {
      BodyHasNoCloser(lines, b, |a.body|);
    } else if |b.body| < |a.body| {
      BodyHasNoCloser(lines, a, |b.body|);
    } else {
      assert a.body == b.body;
    }
  }

  lemma {:induction false} SamePrefix(lines: seq<string>, a: seq<Block>, b: seq<Block>, k: nat)
    requires Segmentation(lines, a) && Segmentation(lines, b)
    requires k <= |a|
    ensures k <= |b| && forall j :: 0 <= j < k ==> a[j] == b[j]
  {
    hide BlockAt, Covered;
    if k > 0 {
      SamePrefix(lines, a, b, k - 1);
      NextStart(lines, a, b, k - 1);
      NextStart(lines, b, a, k - 1);
      assert BlockAt(lines, a[k - 1]) && BlockAt(lines, b[k - 1]);
      BlockDetermined(lines, a[k - 1], b[k - 1]);
    }
  }

  /** A file has one segmentation. */
  lemma {:induction false} SegmentationUnique(lines: seq<string>, a: seq<Block>, b: seq<Block>)
    requires Segmentation(lines, a) && Segmentation(lines, b)
    ensures a == b
  {
    SamePrefix(lines, a, b, |a|);
    SamePrefix(lines, b, a, |b|);
  }
}
