/** daggerverse/bruno: the linter rule that every request has a name and a `seq` of its own in its
    folder. */
module BruMeta {
  import opened Text
  import opened BruParse
  import opened BruLint

  datatype MetaFinding =
    | NoMeta(file: string)
    | NoName(file: string, line: nat)
    | NoSeq(file: string, line: nat)
    | Clash(file: string, line: nat, order: string, first: string)

  predicate Blank(value: Option<string>) {
    value.None? || TrimSpace(value.value) == ""
  }

  /** The (folder, seq) pair a request takes, if it carries one. */
  function Place(r: File): Option<(string, string)> {
    var meta := FirstBlock(r.blocks, "meta");
    if meta.None? then None
    else
      var order := ValueOf(meta.value.body, "seq");
      if Blank(order) then None else Some((Dir(r.path), order.value))
  }

  type Slot = Option<(string, string)>

  function Slots(requests: seq<File>): (slots: seq<Slot>)
    ensures |slots| == |requests|
  {
    seq(|requests|, i requires 0 <= i < |requests| => Place(requests[i]))
  }

  /** The first position from `i` on that holds a place, or the length. */
  function FirstAt(slots: seq<Slot>, place: (string, string), i: nat := 0): (n: nat)
    requires i <= |slots|
    ensures i <= n <= |slots|
    ensures n < |slots| ==> slots[n] == Some(place)
    ensures forall k :: i <= k < n ==> slots[k] != Some(place)
    decreases |slots| - i
  {
    if i == |slots| || slots[i] == Some(place) then i else FirstAt(slots, place, i + 1)
  }

  /** A place that is taken already. */
  predicate Taken(slots: seq<Slot>, i: nat)
    requires i < |slots|
  {
    slots[i].Some? && FirstAt(slots, slots[i].value) < i
  }

  function NameFinding(r: File, meta: Block): seq<MetaFinding> {
    if Blank(ValueOf(meta.body, "name")) then [NoName(r.path, meta.line)] else []
  }

  function OrderFinding(requests: seq<File>, i: nat, meta: Block): seq<MetaFinding>
    requires i < |requests|
  {
    var r := requests[i];
    if Place(r).None? then [NoSeq(r.path, meta.line)]
    else if Taken(Slots(requests), i) then
      [Clash(r.path, meta.line, Place(r).value.1, requests[FirstAt(Slots(requests), Place(r).value)].path)]
    else []
  }

  /** What is said of request `i`, given all that come before it. */
  function MetaOf(requests: seq<File>, i: nat): seq<MetaFinding>
    requires i < |requests|
  {
    var r := requests[i];
    var meta := FirstBlock(r.blocks, "meta");
    if meta.None? then [NoMeta(r.path)]
    else NameFinding(r, meta.value) + OrderFinding(requests, i, meta.value)
  }

  function Parts(requests: seq<File>): (parts: seq<seq<MetaFinding>>)
    ensures |parts| == |requests|
  {
    seq(|requests|, i requires 0 <= i < |requests| => MetaOf(requests, i))
  }

  function Concat(parts: seq<seq<MetaFinding>>): seq<MetaFinding> {
    if parts == [] then [] else Concat(parts[..|parts| - 1]) + parts[|parts| - 1]
  }

  lemma {:induction false} ConcatSnoc(parts: seq<seq<MetaFinding>>, k: nat)
    requires k < |parts|
    ensures Concat(parts[..k + 1]) == Concat(parts[..k]) + parts[k]
  {
    assert parts[..k + 1][..k] == parts[..k];
  }

  function MetaReport(requests: seq<File>): seq<MetaFinding> {
    Concat(Parts(requests))
  }

  /** The nested table: every place taken so far, and who took it first. */
  ghost predicate Seen(seen: map<string, map<string, string>>, requests: seq<File>, upto: nat)
    requires upto <= |requests|
  {
    forall folder, order ::
      (folder in seen && order in seen[folder] <==> FirstAt(Slots(requests), (folder, order)) < upto)
      && (folder in seen && order in seen[folder] ==>
            seen[folder][order] == requests[FirstAt(Slots(requests), (folder, order))].path)
  }

  /** A request that takes no new place leaves the table as it is. */
  lemma {:induction false} SeenSkip(seen: map<string, map<string, string>>, requests: seq<File>, i: nat)
    requires i < |requests| && Seen(seen, requests, i)
    requires Place(requests[i]).None? || Taken(Slots(requests), i)
    ensures Seen(seen, requests, i + 1)
  {
    var slots := Slots(requests);
    assert slots[i] == Place(requests[i]);
    forall folder, order ensures FirstAt(slots, (folder, order)) != i {
      var first := FirstAt(slots, (folder, order));
    }
  }

  /** The table update: make the folder's row when it is missing, then fill it in. */
  lemma {:induction false} SeenTake(seen: map<string, map<string, string>>, requests: seq<File>, i: nat, folder: string,
        order: string)
    requires i < |requests| && Seen(seen, requests, i)
    requires Place(requests[i]) == Some((folder, order)) && !Taken(Slots(requests), i)
    ensures var row := if folder in seen then seen[folder] else map[];
      Seen(seen[folder := row[order := requests[i].path]], requests, i + 1)
  {
    var slots := Slots(requests);
    assert slots[i] == Place(requests[i]);
    forall f, o ensures FirstAt(slots, (f, o)) == i <==> (f, o) == (folder, order) {
      assert FirstAt(slots, (f, o)) == i ==> slots[i] == Some((f, o));
    }
  }

  /** The loop's body. */
  method LintMetaOf(requests: seq<File>, i: nat, seen: map<string, map<string, string>>)
      returns (findings: seq<MetaFinding>, seen': map<string, map<string, string>>)
    requires i < |requests| && Seen(seen, requests, i)
    ensures findings == MetaOf(requests, i) && Seen(seen', requests, i + 1)
  {
    var request := requests[i];
    seen' := seen;
    var meta := FirstBlock(request.blocks, "meta");
    if meta.None? {
      SeenSkip(seen, requests, i);
      return [NoMeta(request.path)], seen;
    }
    findings := NameFinding(request, meta.value);
    var order := ValueOf(meta.value.body, "seq");
    if Blank(order) {
      SeenSkip(seen, requests, i);
      findings := findings + [NoSeq(request.path, meta.value.line)];
      return;
    }
    var folder := Dir(request.path);
    assert Place(request) == Some((folder, order.value));
    if folder !in seen' {
      seen' := seen'[folder := map[]];
    }
    if order.value in seen'[folder] {
      SeenSkip(seen, requests, i);
      findings := findings + [Clash(request.path, meta.value.line, order.value, seen'[folder][order.value])];
      return;
    }
    SeenTake(seen, requests, i, folder, order.value);
    seen' := seen'[folder := seen'[folder][order.value := request.path]];
  }

  function Clashes(findings: seq<MetaFinding>): nat {
    if findings == [] then 0
    else Clashes(findings[..|findings| - 1]) + if findings[|findings| - 1].Clash? then 1 else 0
  }

  function Placed(slots: seq<Slot>, upto: nat): nat
    requires upto <= |slots|
  {
    if upto == 0 then 0 else Placed(slots, upto - 1) + if slots[upto - 1].Some? then 1 else 0
  }

  function Places(slots: seq<Slot>, upto: nat): set<(string, string)>
    requires upto <= |slots|
  {
    set k | 0 <= k < upto && slots[k].Some? :: slots[k].value
  }

  function TakenFlags(slots: seq<Slot>): (flags: seq<bool>)
    ensures |flags| == |slots|
  {
    seq(|slots|, i requires 0 <= i < |slots| => Taken(slots, i))
  }

  function Count(flags: seq<bool>): nat {
    if flags == [] then 0 else Count(flags[..|flags| - 1]) + if flags[|flags| - 1] then 1 else 0
  }

  /** Conservation: each taken slot either is a new place or repeats one. */
  lemma {:induction false} RepeatCount(slots: seq<Slot>, upto: nat)
    requires upto <= |slots|
    ensures Count(TakenFlags(slots)[..upto]) + |Places(slots, upto)| == Placed(slots, upto)
  {
    if upto > 0 {
      var n, flags := upto - 1, TakenFlags(slots);
      RepeatCount(slots, n);
      assert flags[..upto][..n] == flags[..n];
      if slots[n].Some? {
        assert Places(slots, upto) == Places(slots, n) + {slots[n].value};
        TakenBefore(slots, n);
      } else {
        assert Places(slots, upto) == Places(slots, n);
      }
    }
  }

  lemma {:induction false} EachPlaceOnce(slots: seq<Slot>)
    ensures Count(TakenFlags(slots)) + |Places(slots, |slots|)| == Placed(slots, |slots|)
  {
    RepeatCount(slots, |slots|);
    assert TakenFlags(slots)[..|slots|] == TakenFlags(slots);
  }

  lemma {:induction false} TakenBefore(slots: seq<Slot>, n: nat)
    requires n < |slots| && slots[n].Some?
    ensures slots[n].value in Places(slots, n) <==> Taken(slots, n)
  {
    var first := FirstAt(slots, slots[n].value);
    assert first < n ==> slots[first].value in Places(slots, n);
  }

  lemma {:induction false} NoneCounted(flags: seq<bool>)
    ensures Count(flags) == 0 <==> forall j :: 0 <= j < |flags| ==> !flags[j]
  {
    if flags != [] {
      NoneCounted(flags[..|flags| - 1]);
    }
  }

  lemma {:induction false} ClashesConcat(a: seq<MetaFinding>, b: seq<MetaFinding>)
    ensures Clashes(a + b) == Clashes(a) + Clashes(b)
  {
    if b == [] {
      assert a + b == a;
    } else {
      assert (a + b)[..|a + b| - 1] == a + b[..|b| - 1];
      ClashesConcat(a, b[..|b| - 1]);
    }
  }

  /** One request adds a clash exactly when its place was taken before it. */
  lemma {:induction false} ClashesOf(requests: seq<File>, i: nat)
    requires i < |requests|
    ensures Clashes(MetaOf(requests, i)) == if Taken(Slots(requests), i) then 1 else 0
  {
    var r := requests[i];
    var meta := FirstBlock(r.blocks, "meta");
    if meta.Some? {
      ClashesConcat(NameFinding(r, meta.value), OrderFinding(requests, i, meta.value));
    }
  }

  lemma {:induction false} ClashesCounted(parts: seq<seq<MetaFinding>>, flags: seq<bool>)
    requires |parts| == |flags| && forall i :: 0 <= i < |parts| ==> Clashes(parts[i]) == if flags[i] then 1 else 0
    ensures Clashes(Concat(parts)) == Count(flags)
  {
    if parts != [] {
      var n := |parts| - 1;
      ClashesCounted(parts[..n], flags[..n]);
      ClashesConcat(Concat(parts[..n]), parts[n]);
    }
  }

  lemma {:induction false} ReportCounts(requests: seq<File>)
    ensures Clashes(MetaReport(requests)) == Count(TakenFlags(Slots(requests)))
  {
    forall i | 0 <= i < |requests|
      ensures Clashes(Parts(requests)[i]) == if TakenFlags(Slots(requests))[i] then 1 else 0
    {
      ClashesOf(requests, i);
    }
    ClashesCounted(Parts(requests), TakenFlags(Slots(requests)));
  }

  lemma {:induction false} TakenIff(slots: seq<Slot>, j: nat)
    requires j < |slots|
    ensures TakenFlags(slots)[j] <==> slots[j].Some? && exists i :: 0 <= i < j && slots[i] == slots[j]
  {
    if slots[j].Some? {
      var first := FirstAt(slots, slots[j].value);
      assert first < j ==> slots[first] == slots[j];
    }
  }

  ghost predicate PlacesDistinct(slots: seq<Slot>) {
    forall i, j :: 0 <= i < j < |slots| && slots[i].Some? ==> slots[i] != slots[j]
  }

  lemma {:induction false} NoneTaken(slots: seq<Slot>)
    ensures Count(TakenFlags(slots)) == 0 <==> PlacesDistinct(slots)
  {
    var flags := TakenFlags(slots);
    NoneCounted(flags);
    forall j | 0 <= j < |slots|
      ensures flags[j] <==> slots[j].Some? && exists i :: 0 <= i < j && slots[i] == slots[j]
    {
      TakenIff(slots, j);
    }
  }

  /** Every request with a seq either takes a new (folder, seq) place or is reported as a
      clash; so there is no such finding exactly when no two requests share a place. */
  lemma {:induction false} ClashCount(requests: seq<File>)
    ensures var slots, report := Slots(requests), MetaReport(requests);
      && Clashes(report) + |Places(slots, |requests|)| == Placed(slots, |requests|)
      && (Clashes(report) == 0 <==> PlacesDistinct(slots))
  {
    var slots := Slots(requests);
    ReportCounts(requests);
    EachPlaceOnce(slots);
    NoneTaken(slots);
  }

  // ------------------------------------------------------------ what is said

  /** The first block of a name. */
  ghost predicate FirstBlockIs(blocks: seq<Block>, name: string, b: Block) {
    exists k :: 0 <= k < |blocks| && blocks[k] == b && b.name == name
                && forall j :: 0 <= j < k ==> blocks[j].name != name
  }

  ghost predicate Filled(body: seq<Entry>, key: string) {
    exists value :: ValueIs(body, key, value) && TrimSpace(value) != ""
  }

  /** A request lies in a folder and has a `seq` in its meta block. */
  ghost predicate Takes(r: File, folder: string, order: string) {
    LiesIn(r.path, folder) && TrimSpace(order) != ""
    && exists b :: FirstBlockIs(r.blocks, "meta", b) && ValueIs(b.body, "seq", order)
  }

  /** A finding is said of a request: it has no meta block, or the block no name, or no seq, or
      its seq was taken in its folder, first by the request that is named. */
  ghost predicate MetaSaid(requests: seq<File>, i: nat, f: MetaFinding)
    requires i < |requests|
  {
    var r := requests[i];
    && f.file == r.path
    && match f
       case NoMeta(_) => forall b :: b in r.blocks ==> b.name != "meta"
       case NoName(_, line) =>
         exists b :: FirstBlockIs(r.blocks, "meta", b) && b.line == line && !Filled(b.body, "name")
       case NoSeq(_, line) =>
         exists b :: FirstBlockIs(r.blocks, "meta", b) && b.line == line && !Filled(b.body, "seq")
       case Clash(_, line, order, first) =>
         && (exists b :: FirstBlockIs(r.blocks, "meta", b) && b.line == line)
         && exists folder, j: nat :: Takes(r, folder, order) && j < i && FirstToTake(requests, folder, order, j)
                                     && requests[j].path == first
  }

  ghost predicate FirstToTake(requests: seq<File>, folder: string, order: string, j: nat)
    requires j < |requests|
  {
    Takes(requests[j], folder, order) && forall k :: 0 <= k < j ==> !Takes(requests[k], folder, order)
  }

  lemma {:induction false} FirstBlockExactly(blocks: seq<Block>, name: string, b: Block)
    ensures FirstBlock(blocks, name) == Some(b) <==> FirstBlockIs(blocks, name, b)
    ensures FirstBlock(blocks, name).None? <==> forall c :: c in blocks ==> c.name != name
  {
    if blocks != [] {
      FirstBlockExactly(blocks[1..], name, b);
      assert forall c :: c in blocks <==> c == blocks[0] || c in blocks[1..];
      if blocks[0].name != name {
        FirstBlockTail(blocks, name, b);
      }
    }
  }

  lemma {:induction false} FirstBlockTail(blocks: seq<Block>, name: string, b: Block)
    requires blocks != [] && blocks[0].name != name
    ensures FirstBlockIs(blocks, name, b) <==> FirstBlockIs(blocks[1..], name, b)
  {
    var rest := blocks[1..];
    assert forall k :: 0 <= k < |rest| ==> rest[k] == blocks[k + 1];
    if k :| 0 <= k < |rest| && rest[k] == b && b.name == name && forall j :: 0 <= j < k ==> rest[j].name != name {
      forall j | 0 < j < k + 1 ensures blocks[j].name != name {
        assert rest[j - 1] == blocks[j];
      }
      assert blocks[k + 1] == b;
    }
    if k :| 0 <= k < |blocks| && blocks[k] == b && b.name == name && forall j :: 0 <= j < k ==> blocks[j].name != name {
      assert rest[k - 1] == b;
    }
  }

  lemma {:induction false} FilledExactly(body: seq<Entry>, key: string)
    ensures Filled(body, key) <==> !Blank(ValueOf(body, key))
  {
    forall value ensures ValueOf(body, key) == Some(value) <==> ValueIs(body, key, value) {
      ValueOfExactly(body, key, value);
    }
  }

  lemma {:induction false} PlaceExactly(r: File, folder: string, order: string)
    ensures Place(r) == Some((folder, order)) <==> Takes(r, folder, order)
  {
    hide Dir, LiesIn, FirstBlock, FirstBlockIs, ValueOf, ValueIs;
    DirExactly(r.path, folder);
    forall b ensures FirstBlock(r.blocks, "meta") == Some(b) <==> FirstBlockIs(r.blocks, "meta", b) {
      FirstBlockExactly(r.blocks, "meta", b);
    }
    forall b: Block ensures ValueOf(b.body, "seq") == Some(order) <==> ValueIs(b.body, "seq", order) {
      ValueOfExactly(b.body, "seq", order);
    }
  }

  lemma {:induction false} InConcat(parts: seq<seq<MetaFinding>>, f: MetaFinding)
    ensures f in Concat(parts) <==> exists i :: 0 <= i < |parts| && f in parts[i]
  {
    if parts != [] {
      var n := |parts| - 1;
      InConcat(parts[..n], f);
      assert forall i :: 0 <= i < n ==> parts[..n][i] == parts[i];
    }
  }

  lemma {:induction false} FirstToTakeExactly(requests: seq<File>, folder: string, order: string, j: nat)
    requires j < |requests|
    ensures FirstToTake(requests, folder, order, j) <==> FirstAt(Slots(requests), (folder, order)) == j
  {
    forall k | 0 <= k < |requests|
      ensures Slots(requests)[k] == Some((folder, order)) <==> Takes(requests[k], folder, order)
    {
      PlaceExactly(requests[k], folder, order);
    }
  }

  lemma {:induction false} ClashExactly(requests: seq<File>, i: nat, order: string, first: string)
    requires i < |requests|
    ensures (exists folder, j: nat ::
               Takes(requests[i], folder, order) && j < i && FirstToTake(requests, folder, order, j)
               && requests[j].path == first)
       <==> && Place(requests[i]).Some? && Place(requests[i]).value.1 == order && Taken(Slots(requests), i)
            && requests[FirstAt(Slots(requests), Place(requests[i]).value)].path == first
  {
    hide Takes, FirstToTake, Place;
    var slots := Slots(requests);
    assert slots[i] == Place(requests[i]);
    if folder, j: nat :|
        Takes(requests[i], folder, order) && j < i && FirstToTake(requests, folder, order, j)
        && requests[j].path == first
    {
      PlaceExactly(requests[i], folder, order);
      FirstToTakeExactly(requests, folder, order, j);
    }
    if Place(requests[i]).Some? && Place(requests[i]).value.1 == order && Taken(slots, i) {
      var folder, j := Place(requests[i]).value.0, FirstAt(slots, Place(requests[i]).value);
      PlaceExactly(requests[i], folder, order);
      FirstToTakeExactly(requests, folder, order, j);
    }
  }

  lemma {:induction false} MetaOfExactly(requests: seq<File>, i: nat, f: MetaFinding)
    requires i < |requests|
    ensures f in MetaOf(requests, i) <==> MetaSaid(requests, i, f)
  {
    hide FirstBlock, FirstBlockIs, Filled, Takes, FirstToTake, ValueOf, Taken;
    var r := requests[i];
    var meta := FirstBlock(r.blocks, "meta");
    forall b ensures meta == Some(b) <==> FirstBlockIs(r.blocks, "meta", b) {
      FirstBlockExactly(r.blocks, "meta", b);
    }
    if meta.None? {
      assert forall c :: c in r.blocks ==> c.name != "meta" by {
        FirstBlockExactly(r.blocks, "meta", Block("", 0, false, []));
      }
    } else {
      FirstBlockExactly(r.blocks, "meta", meta.value);
      FilledExactly(meta.value.body, "name");
      FilledExactly(meta.value.body, "seq");
      if f.Clash? {
        ClashExactly(requests, i, f.order, f.first);
      }
    }
  }

  /** The whole report. */
  lemma {:induction false} MetaExactly(requests: seq<File>, f: MetaFinding)
    ensures f in MetaReport(requests) <==> exists i :: 0 <= i < |requests| && MetaSaid(requests, i, f)
  {
    InConcat(Parts(requests), f);
    forall i | 0 <= i < |requests| ensures f in Parts(requests)[i] <==> MetaSaid(requests, i, f) {
      MetaOfExactly(requests, i, f);
    }
  }

  /** `lintMeta`. */
  method LintMeta(requests: seq<File>) returns (findings: seq<MetaFinding>)
    ensures findings == MetaReport(requests)
    ensures forall f :: f in findings <==> exists i :: 0 <= i < |requests| && MetaSaid(requests, i, f)
  {
    ghost var parts := Parts(requests);
    findings := [];
    var seen: map<string, map<string, string>> := map[];
    for i := 0 to |requests|
      invariant findings == Concat(parts[..i])
      invariant Seen(seen, requests, i)
    {
      var own;
      own, seen := LintMetaOf(requests, i, seen);
      ConcatSnoc(parts, i);
      findings := findings + own;
    }
    assert parts[..|parts|] == parts;
    forall f ensures f in findings <==> exists i :: 0 <= i < |requests| && MetaSaid(requests, i, f) {
      MetaExactly(requests, f);
    }
  }
}
