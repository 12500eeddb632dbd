/** `writeWorkdirFile`, the publish protocol several modules carry a copy of (daggerverse/crypto,
    daggerverse/go, daggerverse/envoy and daggerverse/grafana-stack among them): make the directory
    named by the digest, create a temporary file in it, write, chmod, close, rename. Any number of
    callers run at once over one file system, and each system call is one step. */
module Publish {
  import opened Text

  // ------------------------------------------------------------ the file system

  datatype Path = Path(dir: string, name: string)

  /** Directory entries point at inodes: a rename moves an entry, while a file descriptor
      keeps writing to its inode wherever the entry went. */
  datatype Fs = Fs(dirs: set<string>, entries: map<Path, nat>, inodes: seq<string>)

  datatype Writer = Writer(name: string, content: string)

  datatype Stage = Writing | Chmodding | Closing | Renaming | Removing

  /** Where one caller is: before the directory, before the temporary file, holding the
      temporary file numbered `tmp` with `written` characters in it, or done. */
  datatype Pc = Start | Ready | Open(stage: Stage, tmp: nat, ino: nat, written: nat) | Failed | Published

  datatype World = World(fs: Fs, pcs: seq<Pc>)

  /** All callers and the digest that names their directories. */
  datatype System = System(writers: seq<Writer>, digest: string -> string) {
    function Dir(i: nat): string
      requires i < |writers|
    {
      "out-" + digest(writers[i].content)
    }

    function Final(i: nat): Path
      requires i < |writers|
    {
      Path(Dir(i), writers[i].name)
    }

    function Temp(i: nat, n: nat): Path
      requires i < |writers|
    {
      Path(Dir(i), TempName(writers[i].name, n))
    }
  }

  const RANDOM_LIMIT := 0x1_0000_0000

  /** `os.CreateTemp(dir, "."+name+"-*")`: the star becomes a random 32-bit number. */
  function TempName(name: string, n: nat): string {
    "." + name + "-" + Decimal(n)
  }

  /** A pattern with a path separator is refused by `os.CreateTemp`. */
  predicate Creatable(name: string) {
    '/' !in name
  }

  /** Renaming onto the directory itself, or its parent, fails. */
  predicate Renamable(name: string) {
    name !in {"", ".", ".."}
  }

  // ------------------------------------------------------------ steps

  function Overwrite(file: string, offset: nat, chunk: string): string
    requires offset <= |file|
  {
    file[..offset] + chunk + if offset + |chunk| <= |file| then file[offset + |chunk|..] else ""
  }

  ghost predicate Create(s: System, i: nat, w: World, w': World, n: nat)
    requires i < |s.writers| && i < |w.pcs|
  {
    && w.pcs[i].Ready? && Creatable(s.writers[i].name) && n < RANDOM_LIMIT
    && s.Dir(i) in w.fs.dirs
    && s.Temp(i, n) !in w.fs.entries
    && w' == World(w.fs.(entries := w.fs.entries[s.Temp(i, n) := |w.fs.inodes|], inodes := w.fs.inodes + [""]),
                   w.pcs[i := Open(Writing, n, |w.fs.inodes|, 0)])
  }

  /** A write system call may take only part of the data. */
  ghost predicate Write(s: System, i: nat, w: World, w': World, upto: nat)
    requires i < |s.writers| && i < |w.pcs|
  {
    var pc, content := w.pcs[i], s.writers[i].content;
    && pc.Open? && pc.stage.Writing? && pc.written <= upto <= |content| && pc.ino < |w.fs.inodes|
    && pc.written <= |w.fs.inodes[pc.ino]|
    && w' == World(
         w.fs.(inodes := w.fs.inodes[pc.ino :=
           Overwrite(w.fs.inodes[pc.ino], pc.written, content[pc.written..upto])]),
         w.pcs[i := pc.(written := upto)])
  }

  /** Write finished, chmod, close: the bytes stay as they are. */
  ghost predicate Advance(s: System, i: nat, w: World, w': World)
    requires i < |s.writers| && i < |w.pcs|
  {
    var pc := w.pcs[i];
    && pc.Open?
    && match pc.stage {
         case Writing => pc.written == |s.writers[i].content| && w' == w.(pcs := w.pcs[i := pc.(stage := Chmodding)])
         case Chmodding => w' == w.(pcs := w.pcs[i := pc.(stage := Closing)])
         case Closing => w' == w.(pcs := w.pcs[i := pc.(stage := Renaming)])
         case Renaming => false
         case Removing => false
       }
  }

  ghost predicate Rename(s: System, i: nat, w: World, w': World)
    requires i < |s.writers| && i < |w.pcs|
  {
    var pc := w.pcs[i];
    && pc.Open? && pc.stage.Renaming? && Renamable(s.writers[i].name)
    && s.Temp(i, pc.tmp) in w.fs.entries
    && w' == World(
         w.fs.(entries := (w.fs.entries - {s.Temp(i, pc.tmp)})[s.Final(i) := w.fs.entries[s.Temp(i, pc.tmp)]]),
         w.pcs[i := Published])
  }

  /** Any call can fail; once there is a temporary file, failing means removing it. */
  ghost predicate Fail(s: System, i: nat, w: World, w': World)
    requires i < |s.writers| && i < |w.pcs|
  {
    var pc := w.pcs[i];
    || ((pc.Start? || pc.Ready?) && w' == w.(pcs := w.pcs[i := Failed]))
    || (pc.Open? && !pc.stage.Removing? && w' == w.(pcs := w.pcs[i := pc.(stage := Removing)]))
  }

  ghost predicate Remove(s: System, i: nat, w: World, w': World)
    requires i < |s.writers| && i < |w.pcs|
  {
    var pc := w.pcs[i];
    && pc.Open? && pc.stage.Removing?
    && w' == World(w.fs.(entries := w.fs.entries - {s.Temp(i, pc.tmp)}), w.pcs[i := Failed])
  }

  ghost predicate MakeDir(s: System, i: nat, w: World, w': World)
    requires i < |s.writers| && i < |w.pcs|
  {
    && w.pcs[i].Start?
    && w' == World(w.fs.(dirs := w.fs.dirs + {s.Dir(i)}), w.pcs[i := Ready])
  }

  /** One step of caller `i`; a call that does nothing (a caller that is done, or has died)
      needs no step of its own. */
  ghost predicate StepOf(s: System, i: nat, w: World, w': World)
    requires i < |s.writers| && i < |w.pcs|
  {
    || MakeDir(s, i, w, w')
    || (exists n: nat :: Create(s, i, w, w', n))
    || (exists upto: nat :: Write(s, i, w, w', upto))
    || Advance(s, i, w, w')
    || Rename(s, i, w, w')
    || Fail(s, i, w, w')
    || Remove(s, i, w, w')
  }

  ghost predicate Next(s: System, w: World, w': World) {
    |w.pcs| == |s.writers| && exists i: nat :: i < |s.writers| && StepOf(s, i, w, w')
  }

  function Initial(s: System): World {
    World(Fs({}, map[], []), seq(|s.writers|, _ => Start))
  }

  ghost predicate IsRun(s: System, run: seq<World>) {
    && run != [] && run[0] == Initial(s)
    && forall j, k :: 0 <= j < k < |run| && k == j + 1 ==> Next(s, run[j], run[k])
  }

  // ------------------------------------------------------------ what the code claims

  ghost predicate Complete(s: System, w: World, i: nat)
    requires i < |s.writers|
  {
    && s.Final(i) in w.fs.entries
    && w.fs.entries[s.Final(i)] < |w.fs.inodes|
    && w.fs.inodes[w.fs.entries[s.Final(i)]] == s.writers[i].content
  }

  /** Every final path is absent or holds the full content. */
  ghost predicate Safe(s: System, w: World) {
    forall i: nat :: i < |s.writers| && s.Final(i) in w.fs.entries ==> Complete(s, w, i)
  }

  /** A final path that is there stays there, and a reader who opened it before the step
      still reads the full content from the inode it holds. */
  ghost predicate Steady(s: System, w: World, w': World) {
    forall i: nat :: i < |s.writers| && s.Final(i) in w.fs.entries ==>
      && s.Final(i) in w'.fs.entries
      && w.fs.entries[s.Final(i)] < |w'.fs.inodes|
      && w'.fs.inodes[w.fs.entries[s.Final(i)]] == s.writers[i].content
  }

  ghost predicate RunSafe(s: System, run: seq<World>) {
    && (forall k :: 0 <= k < |run| ==> Safe(s, run[k]))
    && (forall k :: 0 <= k < |run| - 1 ==> Steady(s, run[k], run[k + 1]))
  }

  /** Distinct contents have distinct digests. */
  ghost predicate CollisionFree(s: System) {
    forall v, w :: v in s.writers && w in s.writers && s.digest(v.content) == s.digest(w.content) ==>
      v.content == w.content
  }

  /** Two callers publish different contents at one path: a digest collision, and one name. */
  ghost predicate Conflict(s: System, i: nat, j: nat)
    requires i < |s.writers| && j < |s.writers|
  {
    var v, w := s.writers[i], s.writers[j];
    && s.digest(v.content) == s.digest(w.content) && v.content != w.content
    && v.name == w.name && '/' !in v.name && v.name !in {"", ".", ".."}
  }

  ghost predicate NoConflict(s: System) {
    forall i: nat, j: nat :: i < |s.writers| && j < |s.writers| ==> !Conflict(s, i, j)
  }

  /** Caller `i` publishes under a name that caller `j` may draw for its temporary file. */
  ghost predicate Clash(s: System, i: nat, j: nat)
    requires i < |s.writers| && j < |s.writers|
  {
    var v, w := s.writers[i], s.writers[j];
    && s.digest(v.content) == s.digest(w.content) && '/' !in w.name
    && exists n: nat :: n < 4294967296 && v.name == "." + w.name + "-" + Decimal(n)
  }

  ghost predicate NoClash(s: System) {
    forall i: nat, j: nat :: i < |s.writers| && j < |s.writers| ==> !Clash(s, i, j)
  }

  // ------------------------------------------------------------ names

  /** Two callers share a directory exactly when their contents share a digest. */
  lemma {:induction false} DirsByDigest(s: System, i: nat, j: nat)
    requires i < |s.writers| && j < |s.writers|
    ensures s.Dir(i) == s.Dir(j) <==> s.digest(s.writers[i].content) == s.digest(s.writers[j].content)
  {
    assert s.Dir(i)[4..] == s.digest(s.writers[i].content);
    assert s.Dir(j)[4..] == s.digest(s.writers[j].content);
  }

  // ------------------------------------------------------------ the invariant

  /** A caller with a temporary file: the entry and the inode are its own. */
  ghost predicate Holds(s: System, w: World, i: nat)
    requires i < |s.writers| && i < |w.pcs| && w.pcs[i].Open?
  {
    var pc, content := w.pcs[i], s.writers[i].content;
    && Creatable(s.writers[i].name) && pc.tmp < RANDOM_LIMIT
    && s.Temp(i, pc.tmp) in w.fs.entries && w.fs.entries[s.Temp(i, pc.tmp)] == pc.ino
    && pc.ino < |w.fs.inodes|
    && pc.written <= |content| && w.fs.inodes[pc.ino] == content[..pc.written]
    && (pc.stage in {Chmodding, Closing, Renaming} ==> pc.written == |content|)
  }

  ghost predicate Owned(w: World, ino: nat, i: nat) {
    i < |w.pcs| && w.pcs[i].Open? && w.pcs[i].ino == ino
  }

  ghost predicate Inv(s: System, w: World) {
    && |w.pcs| == |s.writers|
    && (forall p :: p in w.fs.entries ==> w.fs.entries[p] < |w.fs.inodes|)
    && (forall i: nat :: i < |w.pcs| && w.pcs[i].Open? ==> Holds(s, w, i))
    && (forall i: nat, j: nat :: i < j < |w.pcs| && w.pcs[i].Open? && w.pcs[j].Open? ==> w.pcs[i].ino != w.pcs[j].ino)
    && (forall i: nat :: i < |s.writers| && s.Final(i) in w.fs.entries ==>
          Complete(s, w, i) && forall j: nat :: !Owned(w, w.fs.entries[s.Final(i)], j))
    && (forall i: nat :: i < |w.pcs| && w.pcs[i].Published? ==> s.Final(i) in w.fs.entries)
  }

  lemma {:induction false} ClashAt(s: System, i: nat, j: nat, n: nat)
    requires i < |s.writers| && j < |s.writers| && s.Final(i) == s.Temp(j, n)
    requires Creatable(s.writers[j].name) && n < RANDOM_LIMIT
    ensures Clash(s, i, j)
  {
    DirsByDigest(s, i, j);
  }

  lemma {:induction false} FinalIsNotTemp(s: System, i: nat, j: nat, n: nat)
    requires NoClash(s) && i < |s.writers| && j < |s.writers|
    requires Creatable(s.writers[j].name) && n < RANDOM_LIMIT
    ensures s.Final(i) != s.Temp(j, n)
  {
    if s.Final(i) == s.Temp(j, n) {
      ClashAt(s, i, j, n);
    }
  }

  lemma {:induction false} CreateKeeps(s: System, i: nat, w: World, w': World, n: nat)
    requires Inv(s, w) && NoClash(s) && i < |s.writers| && Create(s, i, w, w', n)
    ensures Inv(s, w') && Steady(s, w, w')
  {
    forall k: nat | k < |s.writers| ensures s.Final(k) != s.Temp(i, n) {
      FinalIsNotTemp(s, k, i, n);
    }
    forall k: nat | k < |s.writers| && s.Final(k) in w'.fs.entries
      ensures Complete(s, w', k) && forall j: nat :: !Owned(w', w'.fs.entries[s.Final(k)], j)
    {
      assert Complete(s, w, k);
      forall j: nat ensures !Owned(w', w'.fs.entries[s.Final(k)], j) {
        assert !Owned(w, w.fs.entries[s.Final(k)], j);
      }
    }
    forall j: nat | j < |w'.pcs| && w'.pcs[j].Open? ensures Holds(s, w', j) {
      if j != i {
        assert Holds(s, w, j);
      }
    }
  }

  lemma {:induction false} WriteKeeps(s: System, i: nat, w: World, w': World, upto: nat)
    requires Inv(s, w) && i < |s.writers| && Write(s, i, w, w', upto)
    ensures Inv(s, w') && Steady(s, w, w')
  {
    var pc, content := w.pcs[i], s.writers[i].content;
    assert Holds(s, w, i);
    assert content[..upto] == content[..pc.written] + content[pc.written..upto];
    assert Overwrite(w.fs.inodes[pc.ino], pc.written, content[pc.written..upto]) == content[..upto];
    forall j: nat | j < |w'.pcs| && w'.pcs[j].Open? ensures Holds(s, w', j) {
      assert Holds(s, w, j);
    }
    forall k: nat | k < |s.writers| && s.Final(k) in w.fs.entries
      ensures Complete(s, w', k)
    {
      assert Complete(s, w, k) && !Owned(w, w.fs.entries[s.Final(k)], i);
    }
    OwnedSame(w, w');
  }

  /** Steps that only move a caller's own stage leave ownership of inodes as it was. */
  lemma {:induction false} OwnedSame(w: World, w': World)
    requires |w.pcs| == |w'.pcs|
    requires forall j: nat :: j < |w.pcs| ==>
      w'.pcs[j].Open? == w.pcs[j].Open? && (w.pcs[j].Open? ==> w'.pcs[j].ino == w.pcs[j].ino)
    ensures forall ino: nat, j: nat :: Owned(w', ino, j) == Owned(w, ino, j)
  {
  }

  /** A step that leaves the entries, the inodes and every temporary file alone. */
  lemma {:induction false} QuietKeeps(s: System, w: World, w': World)
    requires Inv(s, w)
    requires w'.fs.entries == w.fs.entries && w'.fs.inodes == w.fs.inodes && |w'.pcs| == |w.pcs|
    requires forall j: nat :: j < |w.pcs| ==>
      w'.pcs[j].Open? == w.pcs[j].Open? && (w.pcs[j].Open? ==> w'.pcs[j].ino == w.pcs[j].ino)
    requires forall j: nat :: j < |w'.pcs| && w'.pcs[j].Open? ==> Holds(s, w', j)
    requires forall j: nat :: j < |w.pcs| && w'.pcs[j].Published? ==> w.pcs[j].Published?
    ensures Inv(s, w') && Steady(s, w, w')
  {
    OwnedSame(w, w');
    forall k: nat | k < |s.writers| && s.Final(k) in w.fs.entries ensures Complete(s, w', k) {
      assert Complete(s, w, k);
    }
  }

  lemma {:induction false} MoveKeeps(s: System, i: nat, w: World, w': World)
    requires Inv(s, w) && i < |s.writers|
    requires Advance(s, i, w, w') || Fail(s, i, w, w') || MakeDir(s, i, w, w')
    ensures Inv(s, w') && Steady(s, w, w')
  {
    forall j: nat | j < |w'.pcs| && w'.pcs[j].Open? ensures Holds(s, w', j) {
      assert Holds(s, w, j);
    }
    QuietKeeps(s, w, w');
  }

  lemma {:induction false} RenameKeeps(s: System, i: nat, w: World, w': World)
    requires Inv(s, w) && NoClash(s) && NoConflict(s) && i < |s.writers| && Rename(s, i, w, w')
    ensures Inv(s, w') && Steady(s, w, w')
  {
    var pc := w.pcs[i];
    var temp, content := s.Temp(i, pc.tmp), s.writers[i].content;
    assert Holds(s, w, i);
    assert content[..pc.written] == content;
    forall k: nat | k < |s.writers| ensures s.Final(k) != temp {
      FinalIsNotTemp(s, k, i, pc.tmp);
    }
    forall j: nat | j < |w'.pcs| && w'.pcs[j].Open? ensures Holds(s, w', j) {
      assert Holds(s, w, j);
      FinalIsNotTemp(s, i, j, w.pcs[j].tmp);
    }
    forall k: nat | k < |s.writers| && s.Final(k) in w'.fs.entries
      ensures Complete(s, w', k) && forall j: nat :: !Owned(w', w'.fs.entries[s.Final(k)], j)
    {
      if s.Final(k) == s.Final(i) {
        DirsByDigest(s, i, k);
        assert !Conflict(s, i, k);
      } else {
        assert Complete(s, w, k);
        forall j: nat ensures !Owned(w', w'.fs.entries[s.Final(k)], j) {
          assert !Owned(w, w.fs.entries[s.Final(k)], j);
        }
      }
    }
  }

  lemma {:induction false} RemoveKeeps(s: System, i: nat, w: World, w': World)
    requires Inv(s, w) && NoClash(s) && i < |s.writers| && Remove(s, i, w, w')
    ensures Inv(s, w') && Steady(s, w, w')
  {
    assert Holds(s, w, i);
    forall k: nat | k < |s.writers| ensures s.Final(k) != s.Temp(i, w.pcs[i].tmp) {
      FinalIsNotTemp(s, k, i, w.pcs[i].tmp);
    }
    forall j: nat | j < |w'.pcs| && w'.pcs[j].Open? ensures Holds(s, w', j) {
      assert Holds(s, w, j);
    }
    forall k: nat | k < |s.writers| && s.Final(k) in w'.fs.entries
      ensures forall j: nat :: !Owned(w', w'.fs.entries[s.Final(k)], j)
    {
      assert Complete(s, w, k);
      forall j: nat ensures !Owned(w', w'.fs.entries[s.Final(k)], j) {
        assert !Owned(w, w.fs.entries[s.Final(k)], j);
      }
    }
  }

  lemma {:induction false} NextKeeps(s: System, w: World, w': World)
    requires Inv(s, w) && NoClash(s) && NoConflict(s) && Next(s, w, w')
    ensures Inv(s, w') && Steady(s, w, w')
  {
    var i: nat :| i < |s.writers| && StepOf(s, i, w, w');
    if Advance(s, i, w, w') || Fail(s, i, w, w') || MakeDir(s, i, w, w') {
      MoveKeeps(s, i, w, w');
    } else if n: nat :| Create(s, i, w, w', n) {
      CreateKeeps(s, i, w, w', n);
    } else if upto: nat :| Write(s, i, w, w', upto) {
      WriteKeeps(s, i, w, w', upto);
    } else if Rename(s, i, w, w') {
      RenameKeeps(s, i, w, w');
    } else {
      RemoveKeeps(s, i, w, w');
    }
  }

  lemma {:induction false} RunInv(s: System, run: seq<World>, k: nat)
    requires NoClash(s) && NoConflict(s) && IsRun(s, run) && k < |run|
    ensures Inv(s, run[k])
  {
    if k > 0 {
      RunInv(s, run, k - 1);
      NextKeeps(s, run[k - 1], run[k]);
    }
  }

  // ------------------------------------------------------------ main results

  /** No interleaving of any number of callers ever shows a partial file, and what is
      published stays published. */
  lemma {:induction false} PublishSafe(s: System, run: seq<World>)
    requires NoClash(s) && NoConflict(s) && IsRun(s, run)
    ensures RunSafe(s, run)
    ensures forall k, i: nat :: 0 <= k < |run| && i < |s.writers| && i < |run[k].pcs| && run[k].pcs[i].Published? ==>
      Complete(s, run[k], i)
  {
    forall k | 0 <= k < |run| ensures Inv(s, run[k]) && Safe(s, run[k]) {
      RunInv(s, run, k);
    }
    forall k | 0 <= k < |run| - 1 ensures Steady(s, run[k], run[k + 1]) {
      NextKeeps(s, run[k], run[k + 1]);
    }
  }

  ghost predicate Unowned(w: World, ino: nat) {
    ino < |w.fs.inodes| && forall j: nat :: !Owned(w, ino, j)
  }

  /** An inode no caller holds is never written again, nor handed out again. */
  lemma {:induction false} UnownedStays(s: System, i: nat, w: World, w': World, ino: nat)
    requires Inv(s, w) && i < |s.writers| && StepOf(s, i, w, w')
    requires Unowned(w, ino)
    ensures Unowned(w', ino) && w'.fs.inodes[ino] == w.fs.inodes[ino]
  {
    assert !Owned(w, ino, i);
    UnownedByOthers(s, i, w, w', ino);
  }

  lemma {:induction false} UnownedByOthers(s: System, i: nat, w: World, w': World, ino: nat)
    requires |w.pcs| == |s.writers| && i < |s.writers| && StepOf(s, i, w, w')
    requires ino < |w.fs.inodes| && forall j: nat :: !Owned(w, ino, j)
    ensures forall j: nat :: !Owned(w', ino, j)
  {
    forall j: nat ensures !Owned(w', ino, j) {
      assert !Owned(w, ino, j) && !Owned(w, ino, i);
    }
  }

  lemma {:induction false} UnownedThroughout(s: System, run: seq<World>, start: nat, read: nat, ino: nat)
    requires NoClash(s) && NoConflict(s) && IsRun(s, run)
    requires start <= read < |run|
    requires Unowned(run[start], ino)
    ensures Unowned(run[read], ino) && run[read].fs.inodes[ino] == run[start].fs.inodes[ino]
  {
    hide NoClash, NoConflict, IsRun;
    if start < read {
      UnownedThroughout(s, run, start, read - 1, ino);
      UnownedStep(s, run, read - 1, ino);
    }
  }

  lemma {:induction false} UnownedStep(s: System, run: seq<World>, k: nat, ino: nat)
    requires NoClash(s) && NoConflict(s) && IsRun(s, run) && k < |run| - 1
    requires Unowned(run[k], ino)
    ensures Unowned(run[k + 1], ino) && run[k + 1].fs.inodes[ino] == run[k].fs.inodes[ino]
  {
    RunInv(s, run, k);
    var i: nat :| i < |s.writers| && StepOf(s, i, run[k], run[k + 1]);
    UnownedStays(s, i, run[k], run[k + 1], ino);
  }

  /** A reader who opens a final path at one moment reads the full content from it at every
      later one, whatever was renamed over the path in between. */
  lemma {:induction false} ReaderSeesFullContent(s: System, run: seq<World>, start: nat, read: nat, i: nat)
    requires NoClash(s) && NoConflict(s) && IsRun(s, run)
    requires start <= read < |run| && i < |s.writers|
    requires s.Final(i) in run[start].fs.entries
    ensures run[start].fs.entries[s.Final(i)] < |run[read].fs.inodes|
    ensures run[read].fs.inodes[run[start].fs.entries[s.Final(i)]] == s.writers[i].content
  {
    RunInv(s, run, start);
    assert Complete(s, run[start], i);
    UnownedThroughout(s, run, start, read, run[start].fs.entries[s.Final(i)]);
  }

  // ------------------------------------------------------------ exactly when

  /** The world of a run in which only caller `j` has moved. */
  function Solo(s: System, fs: Fs, j: nat, pc: Pc): World
    requires j < |s.writers|
  {
    World(fs, Initial(s).pcs[j := pc])
  }

  /** A temporary file drawn at another caller's final path is an empty file there, and
      goes away again when its owner gives up. */
  lemma {:induction false} ClashBreaks(s: System, i: nat, j: nat) returns (run: seq<World>)
    requires i < |s.writers| && j < |s.writers| && Clash(s, i, j)
    ensures IsRun(s, run) && !RunSafe(s, run)
  {
    var n: nat :| n < 4294967296 && s.writers[i].name == "." + s.writers[j].name + "-" + Decimal(n);
    DirsByDigest(s, i, j);
    assert s.Temp(j, n) == s.Final(i);
    var bare := Fs({} + {s.Dir(j)}, map[], []);
    var drawn := Fs({} + {s.Dir(j)}, map[][s.Temp(j, n) := 0], [] + [""]);
    var w1 := Solo(s, bare, j, Ready);
    var w2 := Solo(s, drawn, j, Open(Writing, n, 0, 0));
    var w3 := Solo(s, drawn, j, Open(Removing, n, 0, 0));
    var w4 := Solo(s, drawn.(entries := drawn.entries - {s.Temp(j, n)}), j, Failed);
    run := [Initial(s), w1, w2, w3, w4];
    assert MakeDir(s, j, run[0], w1);
    assert Create(s, j, w1, w2, n);
    assert Fail(s, j, w2, w3);
    assert Remove(s, j, w3, w4);
    assert StepOf(s, j, run[0], w1) && StepOf(s, j, w1, w2) && StepOf(s, j, w2, w3) && StepOf(s, j, w3, w4);
    assert Next(s, run[0], run[1]) && Next(s, run[1], run[2]) && Next(s, run[2], run[3]) && Next(s, run[3], run[4]);
    assert !Steady(s, run[3], run[4]) by {
      assert s.Final(i) in run[3].fs.entries && s.Final(i) !in run[4].fs.entries;
    }
  }

  /** Two contents at one path: publishing either one shows the wrong file for the other. */
  lemma {:induction false} ConflictBreaks(s: System, i: nat, j: nat) returns (run: seq<World>)
    requires i < |s.writers| && j < |s.writers| && Conflict(s, i, j)
    ensures IsRun(s, run) && !RunSafe(s, run)
  {
    DirsByDigest(s, i, j);
    var content := s.writers[i].content;
    var n := |content|;
    var dirs, temp := {} + {s.Dir(i)}, s.Temp(i, 0);
    var drawn := Fs(dirs, map[][temp := 0], [""]);
    var full := drawn.(inodes := [content]);
    var w1 := Solo(s, Fs(dirs, map[], []), i, Ready);
    var w2 := Solo(s, drawn, i, Open(Writing, 0, 0, 0));
    var w3 := Solo(s, full, i, Open(Writing, 0, 0, n));
    var w4 := Solo(s, full, i, Open(Chmodding, 0, 0, n));
    var w5 := Solo(s, full, i, Open(Closing, 0, 0, n));
    var w6 := Solo(s, full, i, Open(Renaming, 0, 0, n));
    var w7 := Solo(s, full.(entries := (full.entries - {temp})[s.Final(i) := 0]), i, Published);
    run := [Initial(s), w1, w2, w3, w4, w5, w6, w7];
    assert MakeDir(s, i, run[0], w1);
    assert [] + [""] == [""];
    assert Create(s, i, w1, w2, 0);
    assert Overwrite("", 0, content[0..n]) == content;
    assert Write(s, i, w2, w3, n);
    assert Advance(s, i, w3, w4) && Advance(s, i, w4, w5) && Advance(s, i, w5, w6);
    assert Rename(s, i, w6, w7);
    forall k | 0 <= k < |run| - 1 ensures Next(s, run[k], run[k + 1]) {
      assert StepOf(s, i, run[k], run[k + 1]);
    }
    assert !Complete(s, w7, j);
    assert !Safe(s, run[7]);
  }

  /** The claim holds of every run exactly when no final name can be drawn as a temporary one
      in its own directory and no two contents collide at one path. */
  lemma {:induction false} PublishExactly(s: System)
    ensures (forall run :: IsRun(s, run) ==> RunSafe(s, run)) <==> NoClash(s) && NoConflict(s)
  {
    if NoClash(s) && NoConflict(s) {
      forall run | IsRun(s, run) ensures RunSafe(s, run) {
        PublishSafe(s, run);
      }
    } else if i: nat, j: nat :| i < |s.writers| && j < |s.writers| && Clash(s, i, j) {
      var run := ClashBreaks(s, i, j);
    } else {
      var i: nat, j: nat :| i < |s.writers| && j < |s.writers| && Conflict(s, i, j);
      var run := ConflictBreaks(s, i, j);
    }
  }

  /** For a collision-free digest and names that open with no dot, as every caller's do. */
  lemma {:induction false} PlainNamesAreSafe(s: System)
    requires CollisionFree(s)
    requires forall i :: 0 <= i < |s.writers| ==> !HasPrefix(s.writers[i].name, ".")
    ensures NoClash(s) && NoConflict(s)
  {
    forall i: nat, j: nat | i < |s.writers| && j < |s.writers| ensures !Clash(s, i, j) {
      forall n: nat ensures s.writers[i].name != "." + s.writers[j].name + "-" + Decimal(n) {
        assert HasPrefix("." + s.writers[j].name + "-" + Decimal(n), ".");
      }
    }
  }

  /** Whatever the digest, the names `x` and `.x-0` over one content break the claim: one is a
      temporary name of the other. */
  lemma {:induction false} DottedNameBreaks(digest: string -> string, content: string)
    ensures var s := System([Writer("x", content), Writer(".x-0", content)], digest);
      Clash(s, 1, 0) && exists run :: IsRun(s, run) && !RunSafe(s, run)
  {
    var s := System([Writer("x", content), Writer(".x-0", content)], digest);
    assert Decimal(0) == "0";
    assert ".x-0" == "." + "x" + "-" + Decimal(0);
    var run := ClashBreaks(s, 1, 0);
  }

  /** And with a digest that tells no contents apart, one name over two contents breaks it. */
  lemma {:induction false} CollisionBreaks(digest: string -> string)
    requires digest("a") == digest("b")
    ensures var s := System([Writer("x", "a"), Writer("x", "b")], digest);
      Conflict(s, 0, 1) && exists run :: IsRun(s, run) && !RunSafe(s, run)
  {
    var s := System([Writer("x", "a"), Writer("x", "b")], digest);
    assert "a"[0] != "b"[0];
    var run := ConflictBreaks(s, 0, 1);
  }

  // ------------------------------------------------------------ the function itself

  /** The system call at which one execution fails, if any. */
  datatype Fault = NoFault | AtMkdir | AtCreate | AtWrite(written: nat) | AtChmod | AtClose | AtRename

  /** Some temporary name is still free. */
  ghost predicate TempAvailable(dir: string, name: string, entries: map<Path, nat>) {
    exists n: nat :: n < 4294967296 && Path(dir, "." + name + "-" + Decimal(n)) !in entries
  }

  class Disk {
    var fs: Fs

    method MkdirAll(dir: string, fails: bool) returns (ok: bool)
      modifies this
      ensures ok == !fails
      ensures fs == if ok then old(fs).(dirs := old(fs).dirs + {dir}) else old(fs)
    {
      if !fails {
        fs := fs.(dirs := fs.dirs + {dir});
      }
      ok := !fails;
    }

    /** Draws numbers until a name is free; answers the number and the new inode. */
    method CreateTemp(dir: string, name: string, fails: bool) returns (r: Option<(nat, nat)>)
      modifies this
      ensures r.Some? <==> !fails && Creatable(name) && TempAvailable(dir, name, old(fs).entries)
      ensures r.None? ==> fs == old(fs)
      ensures r.Some? ==>
        var (n, ino) := r.value;
        var temp := Path(dir, TempName(name, n));
        && n < RANDOM_LIMIT && ino == |old(fs).inodes| && temp !in old(fs).entries
        && fs == old(fs).(entries := old(fs).entries[temp := ino], inodes := old(fs).inodes + [""])
    {
      if fails || !Creatable(name) {
        return None;
      }
      var n := 0;
      while n < RANDOM_LIMIT && Path(dir, TempName(name, n)) in fs.entries
        invariant n <= RANDOM_LIMIT
        invariant forall m: nat :: m < n ==> Path(dir, TempName(name, m)) in fs.entries
      {
        n := n + 1;
      }
      if n == RANDOM_LIMIT {
        forall m: nat | m < 4294967296 ensures Path(dir, "." + name + "-" + Decimal(m)) in fs.entries {
          assert TempName(name, m) == "." + name + "-" + Decimal(m);
        }
        return None;
      }
      r := Some((n, |fs.inodes|));
      fs := fs.(entries := fs.entries[Path(dir, TempName(name, n)) := |fs.inodes|], inodes := fs.inodes + [""]);
    }

    /** Writes all of `content`, or only its beginning before failing. */
    method WriteAll(ino: nat, content: string, fault: Fault) returns (written: nat, ok: bool)
      requires ino < |fs.inodes|
      modifies this
      ensures written <= |content|
      ensures ok <==> !fault.AtWrite?
      ensures ok ==> written == |content|
      ensures fs == old(fs).(inodes := old(fs).inodes[ino := Overwrite(old(fs).inodes[ino], 0, content[0..written])])
    {
      ok := !fault.AtWrite?;
      written := if fault.AtWrite? && fault.written < |content| then fault.written else |content|;
      fs := fs.(inodes := fs.inodes[ino := Overwrite(fs.inodes[ino], 0, content[0..written])]);
    }

    method RenameTo(temp: Path, final: Path, fails: bool) returns (ok: bool)
      requires temp in fs.entries
      modifies this
      ensures ok == (!fails && Renamable(final.name))
      ensures fs == if ok then old(fs).(entries := (old(fs).entries - {temp})[final := old(fs).entries[temp]])
          else old(fs)
    {
      ok := !fails && Renamable(final.name);
      if ok {
        fs := fs.(entries := (fs.entries - {temp})[final := fs.entries[temp]]);
      }
    }

    method RemoveEntry(temp: Path)
      modifies this
      ensures fs == old(fs).(entries := old(fs).entries - {temp})
    {
      fs := fs.(entries := fs.entries - {temp});
    }
  }

  /** A stretch of a run in which only caller `i` moves. */
  ghost predicate SoloPath(s: System, i: nat, path: seq<World>) {
    && i < |s.writers| && path != []
    && (forall k :: 0 <= k < |path| ==> |path[k].pcs| == |s.writers|)
    && forall k :: 0 <= k < |path| - 1 ==> StepOf(s, i, path[k], path[k + 1])
  }

  ghost function Extend(s: System, i: nat, path: seq<World>, fs: Fs, pc: Pc): (longer: seq<World>)
    requires SoloPath(s, i, path)
    requires StepOf(s, i, path[|path| - 1], World(fs, path[|path| - 1].pcs[i := pc]))
    ensures SoloPath(s, i, longer) && path <= longer
    ensures longer[|longer| - 1] == World(fs, path[|path| - 1].pcs[i := pc])
  {
    path + [World(fs, path[|path| - 1].pcs[i := pc])]
  }

  /** `writeWorkdirFile`, for any failure: it walks the steps above and nothing else. On
      success exactly one entry is new or replaced, pointing at the full content; on failure
      the entries are what they were. */
  method WriteWorkdirFile(disk: Disk, s: System, i: nat, fault: Fault, ghost before: World)
      returns (published: bool, ghost path: seq<World>)
    requires i < |s.writers| && |before.pcs| == |s.writers|
    requires before.fs == disk.fs && before.pcs[i] == Start
    modifies disk
    ensures SoloPath(s, i, path) && path[0] == before
    ensures path[|path| - 1].fs == disk.fs
    ensures path[|path| - 1].pcs == before.pcs[i := if published then Published else Failed]
    ensures published ==>
      var ino := |old(disk.fs).inodes|;
      var final := Path("out-" + s.digest(s.writers[i].content), s.writers[i].name);
      && disk.fs.entries == old(disk.fs).entries[final := ino]
      && disk.fs.inodes == old(disk.fs).inodes + [s.writers[i].content]
    ensures !published ==> disk.fs.entries == old(disk.fs).entries
    ensures published <==>
      && fault.NoFault? && '/' !in s.writers[i].name && s.writers[i].name !in {"", ".", ".."}
      && TempAvailable("out-" + s.digest(s.writers[i].content), s.writers[i].name, old(disk.fs).entries)
  {
    var name, content := s.writers[i].name, s.writers[i].content;
    var dir := s.Dir(i);
    path := [before];
    published := false;

    var made := disk.MkdirAll(dir, fault.AtMkdir?);
    if !made {
      assert Fail(s, i, before, World(disk.fs, before.pcs[i := Failed]));
      path := Extend(s, i, path, disk.fs, Failed);
      return;
    }
    assert MakeDir(s, i, before, World(disk.fs, before.pcs[i := Ready]));
    path := Extend(s, i, path, disk.fs, Ready);

    var created := disk.CreateTemp(dir, name, fault.AtCreate?);
    if created.None? {
      assert Fail(s, i, path[1], World(disk.fs, path[1].pcs[i := Failed]));
      path := Extend(s, i, path, disk.fs, Failed);
      return;
    }
    var (n, ino) := created.value;
    assert Create(s, i, path[1], World(disk.fs, path[1].pcs[i := Open(Writing, n, ino, 0)]), n);
    path := Extend(s, i, path, disk.fs, Open(Writing, n, ino, 0));
    assert s.Final(i) == Path("out-" + s.digest(content), name);
    published, path := FillAndRename(disk, s, i, fault, path, n, ino);
  }

  /** The rest of the function, once the temporary file is there. */
  method FillAndRename(disk: Disk, s: System, i: nat, fault: Fault, ghost path: seq<World>, n: nat, ino: nat)
      returns (published: bool, ghost longer: seq<World>)
    requires SoloPath(s, i, path) && path[|path| - 1].fs == disk.fs
    requires path[|path| - 1].pcs[i] == Open(Writing, n, ino, 0)
    requires ino < |disk.fs.inodes| && disk.fs.inodes[ino] == ""
    requires s.Temp(i, n) in disk.fs.entries && disk.fs.entries[s.Temp(i, n)] == ino
    requires Creatable(s.writers[i].name) && !fault.AtMkdir? && !fault.AtCreate?
    modifies disk
    ensures SoloPath(s, i, longer) && path <= longer
    ensures longer[|longer| - 1]
         == World(disk.fs, path[|path| - 1].pcs[i := if published then Published else Failed])
    ensures published <==> fault.NoFault? && Renamable(s.writers[i].name)
    ensures published ==>
      && disk.fs.entries == (old(disk.fs).entries - {s.Temp(i, n)})[s.Final(i) := ino]
      && disk.fs.inodes == old(disk.fs).inodes[ino := s.writers[i].content]
    ensures !published ==> disk.fs.entries == old(disk.fs).entries - {s.Temp(i, n)}
  {
    var content := s.writers[i].content;
    published := false;
    longer := path;
    ghost var last := path[|path| - 1];

    var written, wrote := disk.WriteAll(ino, content, fault);
    assert Write(s, i, last, World(disk.fs, last.pcs[i := Open(Writing, n, ino, written)]), written);
    longer := Extend(s, i, longer, disk.fs, Open(Writing, n, ino, written));
    if !wrote {
      longer := GiveUp(disk, s, i, longer, n);
      return;
    }
    assert Overwrite("", 0, content[0..written]) == content;
    longer := Extend(s, i, longer, disk.fs, Open(Chmodding, n, ino, written));
    published, longer := CloseAndRename(disk, s, i, fault, longer, n, ino, written);
  }

  /** Mode, close and rename. */
  method CloseAndRename(disk: Disk, s: System, i: nat, fault: Fault, ghost path: seq<World>, n: nat, ino: nat,
        written: nat)
      returns (published: bool, ghost longer: seq<World>)
    requires SoloPath(s, i, path) && path[|path| - 1].fs == disk.fs
    requires path[|path| - 1].pcs[i] == Open(Chmodding, n, ino, written)
    requires s.Temp(i, n) in disk.fs.entries && disk.fs.entries[s.Temp(i, n)] == ino
    requires !fault.AtMkdir? && !fault.AtCreate? && !fault.AtWrite?
    modifies disk
    ensures SoloPath(s, i, longer) && path <= longer
    ensures longer[|longer| - 1]
         == World(disk.fs, path[|path| - 1].pcs[i := if published then Published else Failed])
    ensures published <==> fault.NoFault? && Renamable(s.writers[i].name)
    ensures disk.fs == old(disk.fs).(entries :=
              if published then (old(disk.fs).entries - {s.Temp(i, n)})[s.Final(i) := ino]
              else old(disk.fs).entries - {s.Temp(i, n)})
  {
    published := false;
    longer := path;
    if fault.AtChmod? {
      longer := GiveUp(disk, s, i, longer, n);
      return;
    }
    longer := Extend(s, i, longer, disk.fs, Open(Closing, n, ino, written));
    if fault.AtClose? {
      longer := GiveUp(disk, s, i, longer, n);
      return;
    }
    longer := Extend(s, i, longer, disk.fs, Open(Renaming, n, ino, written));
    ghost var last := longer[|longer| - 1];
    var renamed := disk.RenameTo(s.Temp(i, n), s.Final(i), fault.AtRename?);
    if !renamed {
      longer := GiveUp(disk, s, i, longer, n);
      return;
    }
    assert Rename(s, i, last, World(disk.fs, last.pcs[i := Published]));
    longer := Extend(s, i, longer, disk.fs, Published);
    published := true;
  }

  /** The cleanup on every failure exit past the temporary file. */
  method GiveUp(disk: Disk, s: System, i: nat, ghost path: seq<World>, n: nat) returns (ghost longer: seq<World>)
    requires SoloPath(s, i, path)
    requires var last := path[|path| - 1];
      && last.fs == disk.fs && last.pcs[i].Open? && !last.pcs[i].stage.Removing? && last.pcs[i].tmp == n
    modifies disk
    ensures SoloPath(s, i, longer) && path <= longer && |longer| == |path| + 2
    ensures longer[|longer| - 1] == World(disk.fs, path[|path| - 1].pcs[i := Failed])
    ensures disk.fs == old(disk.fs).(entries := old(disk.fs).entries - {s.Temp(i, n)})
  {
    ghost var last := path[|path| - 1];
    ghost var pc := last.pcs[i].(stage := Removing);
    longer := Extend(s, i, path, disk.fs, pc);
    disk.RemoveEntry(s.Temp(i, n));
    assert Remove(s, i, World(last.fs, last.pcs[i := pc]), World(disk.fs, last.pcs[i := pc][i := Failed]));
    longer := Extend(s, i, longer, disk.fs, Failed);
  }
}
