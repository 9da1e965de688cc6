/**
  What an image reads: each cluster from the nearest file of its chain that holds it. Calls about
  other images do not change it, and a new layer starts out reading what lies below it.
 */
module Views {
  import opened Options
  import opened Names
  import opened Forest
  import opened BlockGraph
  import opened Store
  import opened Consistency
  import opened Preservation
  import opened Books
  import opened Leftovers

  ghost function Read(files: map<string, Data>, fs: seq<string>, o: nat): nat
    decreases |fs|
  {
    if fs == [] then 0
    else if fs[0] in files && o in files[fs[0]] then files[fs[0]][o]
    else Read(files, fs[1..], o)
  }

  /** The files of an image and of everything below it. */
  ghost function ChainFiles(m: Images, x: string): seq<string>
    requires IsForest(m)
    decreases if x in m then m[x].depth + 1 else 0
  {
    if x !in m then [] else assert Placed(m, x); [m[x].file] + ChainFiles(m, m[x].backing)
  }

  ghost function View(s: State, x: string, o: nat): nat
    requires IsForest(s.images)
  {
    Read(s.daemon.files, ChainFiles(s.images, x), o)
  }

  /** Following backing edges from a node, the daemon reads through exactly these files. */
  ghost predicate ReadsThrough(nodes: map<string, Node>, q: string, fs: seq<string>)
    decreases |fs|
  {
    && fs != [] && q in nodes && nodes[q].file == fs[0]
    && match nodes[q].backing
       case None => fs[1..] == []
       case Some(b) => ReadsThrough(nodes, b, fs[1..])
  }

  lemma {:induction false} ReadsOneWay(nodes: map<string, Node>, q: string, fs: seq<string>, fs': seq<string>)
    requires ReadsThrough(nodes, q, fs) && ReadsThrough(nodes, q, fs')
    ensures fs == fs'
    decreases |fs|
  {
    if nodes[q].backing.Some? {
      ReadsOneWay(nodes, nodes[q].backing.value, fs[1..], fs'[1..]);
    }
    assert fs == [fs[0]] + fs[1..] && fs' == [fs'[0]] + fs'[1..];
  }

  lemma {:induction false} ReadsChain(s: State, x: string)
    requires Consistent(s) && x in s.images
    ensures ReadsThrough(s.daemon.nodes, s.images[x].qsdId, ChainFiles(s.images, x))
    decreases s.images[x].depth
  {
    assert Placed(s.images, x) && Backed(s.images, s.daemon, x);
    var rest := ChainFiles(s.images, s.images[x].backing);
    assert ChainFiles(s.images, x)[1..] == rest;
    if s.images[x].backing != "" {
      ReadsChain(s, s.images[x].backing);
    }
  }

  /** The daemon reads an image through the recorded chain, and no other way. */
  lemma DaemonReadsChain(s: State, x: string, fs: seq<string>)
    requires Consistent(s) && x in s.images
    ensures ReadsThrough(s.daemon.nodes, s.images[x].qsdId, fs) <==> fs == ChainFiles(s.images, x)
  {
    ReadsChain(s, x);
    if ReadsThrough(s.daemon.nodes, s.images[x].qsdId, fs) {
      ReadsOneWay(s.daemon.nodes, s.images[x].qsdId, fs, ChainFiles(s.images, x));
    }
  }

  // ----- files that stay

  /** Images recorded before and after have the same contents in their files. */
  ghost predicate KeepsFiles(s: State, s': State) {
    forall y | y in s.images && y in s'.images && s.images[y].file in s.daemon.files ::
      && s.images[y].file in s'.daemon.files
      && s'.daemon.files[s.images[y].file] == s.daemon.files[s.images[y].file]
  }

  lemma {:induction false} ViewKept(s: State, s': State, x: string, o: nat)
    requires Consistent(s) && IsForest(s'.images) && KeepsRecords(s.images, s'.images) && KeepsFiles(s, s')
    requires x in s.images && x in s'.images
    ensures View(s', x, o) == View(s, x, o)
    decreases s.images[x].depth
  {
    assert Placed(s.images, x) && Placed(s'.images, x) && Backed(s.images, s.daemon, x);
    var b := s.images[x].backing;
    assert ChainFiles(s.images, x)[1..] == ChainFiles(s.images, b);
    assert ChainFiles(s'.images, x)[1..] == ChainFiles(s'.images, b);
    if b != "" {
      ViewKept(s, s', b, o);
    } else {
      assert ChainFiles(s.images, b) == [] && ChainFiles(s'.images, b) == [];
    }
    assert View(s', b, o) == View(s, b, o);
    assert ChainFiles(s.images, x)[0] == s.images[x].file == ChainFiles(s'.images, x)[0];
  }

  lemma DeletedKeepsFiles(s: State, id: string)
    requires Consistent(s) && id in s.images
    ensures KeepsFiles(s, Deleted(s, id))
  {
    forall y | y in s.images && y != id
      ensures s.images[y].file != s.images[id].file
    {
      FilesDistinct(s, y, id);
    }
  }

  lemma DeleteImageKeepsFiles(s: State, id: string, f: Faults)
    requires Consistent(s)
    ensures KeepsFiles(s, DeleteImage(s, id, f).state)
  {
    DeleteImageOutcome(s, id, f);
    if id in s.images {
      DeletedKeepsFiles(s, id);
    }
  }

  lemma {:induction false} CleanUpKeepsFiles(s: State, x: string, f: Faults)
    requires Consistent(s)
    ensures KeepsFiles(s, CleanUp(s, x, f).state)
    decreases |s.images.Keys|
  {
    if x in s.images && s.images[x].refCount <= 0 && s.images[x].volumeRef == "" {
      DeleteImageOutcome(s, x, f);
      DeleteImageKeepsFiles(s, x, f);
      var r := DeleteImage(s, x, f);
      if r.reply == Ok && s.images[x].backing != "" {
        DeletedKeepsConsistent(s, x);
        CleanUpKeepsFiles(r.state, s.images[x].backing, f);
        var s2 := CleanUp(r.state, s.images[x].backing, f).state;
        CleanUpBooks(r.state, s.images[x].backing, f);
        DeleteImageBooks(s, x, f);
        KeepsFilesTransitive(s, r.state, s2);
      }
    }
  }

  lemma KeepsFilesTransitive(s: State, s1: State, s2: State)
    requires KeepsFiles(s, s1) && KeepsFiles(s1, s2) && KeepsRecords(s.images, s1.images)
    requires s2.images.Keys <= s1.images.Keys
    ensures KeepsFiles(s, s2)
  {
  }

  /** Deleting an image and cleaning up on the way to its root touches no file that stays recorded. */
  lemma DeleteAndCleanKeepsFiles(s: State, id: string, active: map<string, string>, f: Faults)
    requires Consistent(s) && id in s.images && DeleteImage(s, id, f).reply == Ok
    ensures KeepsFiles(s, CleanUp(DeleteImage(s, id, f).state.(active := active), s.images[id].backing, f).state)
  {
    DeleteImageOutcome(s, id, f);
    DeleteImageKeepsFiles(s, id, f);
    DeleteImageBooks(s, id, f);
    var s1 := Deleted(s, id).(active := active);
    CleanUpBooks(s1, s.images[id].backing, f);
    CleanUpKeepsFiles(s1, s.images[id].backing, f);
    KeepsFilesTransitive(s, s1, CleanUp(s1, s.images[id].backing, f).state);
  }

  lemma UnnameAndCleanKeepsFiles(s: State, id: string, active: map<string, string>, f: Faults)
    requires Consistent(s) && id in s.images
    ensures KeepsFiles(s, CleanUp(State(Unname(s.images, id), active, s.daemon), s.images[id].backing, f).state)
  {
    UnnameKeeps(s, id);
    var s1 := State(Unname(s.images, id), active, s.daemon);
    CleanUpKeepsFiles(s1, s.images[id].backing, f);
    CleanUpBooks(s1, s.images[id].backing, f);
    KeepsFilesTransitive(s, s1, CleanUp(s1, s.images[id].backing, f).state);
  }

  lemma DropVolumeKeepsFiles(s: State, id: string, f: Faults)
    requires Consistent(s)
    ensures KeepsFiles(s, DeleteVolume(s, id, f).state)
  {
    if id in s.images {
      if id in s.active && s.active[id] == id && s.images[id].refCount < 1 {
        DeleteImageKeepsFiles(s, id, f);
        if DeleteImage(s, id, f).reply == Ok {
          DeleteAndCleanKeepsFiles(s, id, s.active - {id}, f);
        }
      } else {
        UnnameAndCleanKeepsFiles(s, id, s.active - {id}, f);
      }
    }
  }

  lemma DropSnapshotKeepsFiles(s: State, id: string, source: string, f: Faults)
    requires Consistent(s)
    ensures KeepsFiles(s, DeleteSnapshot(s, id, source, f).state)
  {
    if id in s.images {
      DeleteImageKeepsFiles(s, id, f);
      if DeleteImage(s, id, f).reply == Ok {
        DeleteAndCleanKeepsFiles(s, id, s.active, f);
      }
      UnnameAndCleanKeepsFiles(s, id, s.active, f);
    }
  }

  // ----- files that are written over

  /** The file qemu-img is told to create, if the call gets that far. */
  ghost function Target(s: State, c: Call, f: Faults): Option<string> {
    match c
    case NewVolume(id, source) =>
      if !f.mkdir && QsdIdDefined(id) && source != "" && source in s.images && !f.qemuImg
      then Some(VolumePath(id)) else None
    case NewSnapshot(id, source) =>
      if source in s.active && s.active[source] in s.images && !f.stat && QsdIdDefined(id) && !f.qemuImg
      then Some(SnapshotPath(source, GenerateQsdId(id))) else None
    case _ => None
  }

  /** A creation writes a fresh overlay over the file of a recorded image. */
  ghost predicate Overwrites(s: State, c: Call, f: Faults) {
    Target(s, c, f).Some? && Target(s, c, f).value in FileNames(s.images)
  }

  /** Only a creation whose eight-character name is taken can do that, and it is refused afterwards. */
  lemma OverwritingIsANameClash(s: State, c: Call, f: Faults)
    requires Consistent(s) && Admissible(s, c) && Overwrites(s, c, f)
    ensures GenerateQsdId(c.id) in QsdIds(s.images)
    ensures Step(s, c, f).reply != Ok
  {
    var z :| z in s.images && s.images[z].file == Target(s, c, f).value;
    assert Identified(s.images, z) && Backed(s.images, s.daemon, z);
    QsdIdShape(z);
    QsdIdShape(c.id);
    var q := s.images[z].qsdId;
    if s.images[z].file == VolumePath(z) {
      if c.NewVolume? {
        VolumePathInjective(c.id, z);
      } else {
        VolumeIsNoSnapshotPath(z, c.source, GenerateQsdId(c.id));
      }
    } else {
      var source :| s.images[z].file == SnapshotPath(source, q);
      if c.NewVolume? {
        VolumeIsNoSnapshotPath(c.id, source, q);
      } else {
        SnapshotPathInjective(c.source, GenerateQsdId(c.id), source, q);
      }
    }
    assert GenerateQsdId(c.id) == q;
    match c
    case NewVolume(id, source) => CreateVolumeKeeps(s, id, source, f); assert q in s.daemon.nodes;
    case NewSnapshot(id, source) => SnapshotAnswerShape(s, id, source, f);
  }

  /** A second snapshot of a volume whose ID is cut to the same name overwrites the first one's file. */
  lemma ClashingSnapshotOverwrites(s: State, x: string, id: string, source: string, f: Faults)
    requires Consistent(s) && x in s.images && IsSnapshotOf(s.images[x], source)
    requires source in s.active && s.active[source] in s.images
    requires QsdIdDefined(id) && GenerateQsdId(id) == s.images[x].qsdId
    requires !f.stat && !f.qemuImg
    ensures Overwrites(s, NewSnapshot(id, source), f) && s.images[x].file == Target(s, NewSnapshot(id, source), f).value
  {
    assert s.images[x].file in FileNames(s.images);
  }

  /** A disk file is made for an empty volume, whether or not its node can be added afterwards. */
  ghost predicate MakesDisk(s: State, c: Call, f: Faults) {
    && c.NewVolume? && c.source == "" && QsdIdDefined(c.id) && VolumePath(c.id) !in s.daemon.files
    && !f.mkdir && !f.qemuImg
  }

  /** The files after a creation, successful or not: its target is fresh, or a missing disk was made. */
  lemma CreationFiles(s: State, c: Call, f: Faults)
    requires Consistent(s) && (c.NewVolume? || c.NewSnapshot?)
    ensures Step(s, c, f).state.daemon.files ==
            if Target(s, c, f).Some? then s.daemon.files[Target(s, c, f).value := map[]]
            else if MakesDisk(s, c, f) then s.daemon.files[VolumePath(c.id) := map[]]
            else s.daemon.files
  {
    match c
    case NewVolume(id, source) =>
      if source in s.images {
        assert Backed(s.images, s.daemon, source);
      }
    case NewSnapshot(id, source) =>
      if source in s.active && s.active[source] in s.images {
        assert Backed(s.images, s.daemon, s.active[source]);
        if QsdIdDefined(id) {
          SnapshotAnswerFiles(s, id, source, f);
        }
      }
  }

  lemma SnapshotAnswerFiles(s: State, id: string, source: string, f: Faults)
    requires source in s.active && s.active[source] in s.images && QsdIdDefined(id)
    ensures var file := SnapshotPath(source, GenerateQsdId(id));
            var o := CreateOverlayFile(s.daemon, s.images[s.active[source]].file, file, f);
            SnapshotAnswer(s, id, source, f).daemon.files == o.daemon.files
  {
    var i, q := s.images[s.active[source]], GenerateQsdId(id);
    var o := CreateOverlayFile(s.daemon, i.file, SnapshotPath(source, q), f);
    InstallSteps(o.daemon, i.qsdId, q, SnapshotPath(source, q), f);
  }

  lemma {:induction false} StepKeepsFiles(s: State, c: Call, f: Faults)
    requires Consistent(s) && Admissible(s, c) && !Overwrites(s, c, f)
    ensures KeepsFiles(s, Step(s, c, f).state)
  {
    match c
    case NewVolume(_, _) => CreationFiles(s, c, f); StepKeepsBooks(s, c, f);
    case NewSnapshot(_, _) => CreationFiles(s, c, f); StepKeepsBooks(s, c, f);
    case DropVolume(id) => DropVolumeKeepsFiles(s, id, f);
    case DropSnapshot(id, source) => DropSnapshotKeepsFiles(s, id, source, f);
  }

  /** Every call leaves unchanged what every surviving image reads, unless it writes over a recorded file. */
  lemma StepKeepsViews(s: State, c: Call, f: Faults)
    requires Consistent(s) && Admissible(s, c) && !Overwrites(s, c, f)
    ensures var s' := Step(s, c, f).state;
            && IsForest(s'.images)
            && forall x, o: nat | x in s.images && x in s'.images :: View(s', x, o) == View(s, x, o)
  {
    StepKeepsBooks(s, c, f);
    StepKeepsFiles(s, c, f);
    var s' := Step(s, c, f).state;
    forall x, o: nat | x in s.images && x in s'.images
      ensures View(s', x, o) == View(s, x, o)
    {
      ViewKept(s, s', x, o);
    }
  }

  /** A new clone or snapshot reads exactly what the image below it reads. */
  lemma NewLayerReadsBacking(s: State, c: Call, f: Faults, o: nat)
    requires Consistent(s) && Admissible(s, c) && Step(s, c, f).reply == Ok
    requires c.NewSnapshot? || (c.NewVolume? && c.source != "")
    ensures var s' := Step(s, c, f).state;
            && IsForest(s'.images) && c.id in s'.images && s'.images[c.id].backing in s.images
            && View(s', c.id, o) == View(s, s'.images[c.id].backing, o)
  {
    if Overwrites(s, c, f) {
      OverwritingIsANameClash(s, c, f);
    }
    StepKeepsBooks(s, c, f);
    StepKeepsViews(s, c, f);
    CreationFiles(s, c, f);
    var s' := Step(s, c, f).state;
    var b := s'.images[c.id].backing;
    assert Placed(s'.images, c.id);
    assert ChainFiles(s'.images, c.id)[1..] == ChainFiles(s'.images, b);
    assert View(s', b, o) == View(s, b, o);
  }

  // ----- what an overwriting creation does

  /** What an image would read if its own file held nothing. */
  ghost function ViewBelow(s: State, x: string, o: nat): nat
    requires IsForest(s.images) && x in s.images
  {
    View(s, s.images[x].backing, o)
  }

  lemma {:induction false} ReadWithoutFile(files: map<string, Data>, fs: seq<string>, file: string, o: nat)
    requires file !in fs
    ensures Read(files[file := map[]], fs, o) == Read(files, fs, o)
    decreases |fs|
  {
    if fs != [] {
      ReadWithoutFile(files, fs[1..], file, o);
    }
  }

  lemma {:induction false} FilesBelowDiffer(s: State, z: string, x: string)
    requires Consistent(s) && z in s.images && x in s.images && s.images[x].depth < s.images[z].depth
    ensures s.images[z].file !in ChainFiles(s.images, x)
    decreases s.images[x].depth
  {
    assert Placed(s.images, x);
    FilesDistinct(s, x, z);
    if s.images[x].backing != "" {
      FilesBelowDiffer(s, z, s.images[x].backing);
    }
  }

  /** The overwritten image loses its own contents and reads through to its backing image. */
  lemma OverwrittenReadsBelow(s: State, c: Call, f: Faults, z: string, o: nat)
    requires Consistent(s) && Admissible(s, c) && Overwrites(s, c, f)
    requires z in s.images && s.images[z].file == Target(s, c, f).value
    ensures Step(s, c, f).state.images == s.images
    ensures View(Step(s, c, f).state, z, o) == ViewBelow(s, z, o)
  {
    OverwritingIsANameClash(s, c, f);
    CreationFiles(s, c, f);
    var b, file := s.images[z].backing, s.images[z].file;
    assert Placed(s.images, z);
    assert ChainFiles(s.images, z)[1..] == ChainFiles(s.images, b);
    if b != "" {
      FilesBelowDiffer(s, z, b);
    }
    ReadWithoutFile(s.daemon.files, ChainFiles(s.images, b), file, o);
  }

  /** An image above the overwritten one is unaffected where the overwritten one is. */
  lemma {:induction false} HarmlessAbove(s: State, s': State, z: string, x: string, o: nat)
    requires Consistent(s) && s'.images == s.images
    requires z in s.images && x in s.images
    requires s'.daemon.files == s.daemon.files[s.images[z].file := map[]]
    requires View(s', z, o) == View(s, z, o)
    ensures View(s', x, o) == View(s, x, o)
    decreases s.images[x].depth
  {
    if x != z {
      assert Placed(s.images, x);
      FilesDistinct(s, x, z);
      var b := s.images[x].backing;
      assert ChainFiles(s.images, x)[1..] == ChainFiles(s.images, b);
      if b != "" {
        HarmlessAbove(s, s', z, b, o);
      } else {
        assert ChainFiles(s.images, b) == [];
      }
      assert View(s', b, o) == View(s, b, o);
      assert ChainFiles(s.images, x)[0] == s.images[x].file;
    }
  }

  /**
    Exactly when views are kept: a call changes what some survivor reads if and only if it writes
    over the file of an image that held contents of its own, differing from what lies below.
   */
  lemma ViewsKeptExactly(s: State, c: Call, f: Faults)
    requires Consistent(s) && Admissible(s, c)
    ensures IsForest(Step(s, c, f).state.images)
    ensures var s' := Step(s, c, f).state;
            (forall x, o: nat | x in s.images && x in s'.images :: View(s', x, o) == View(s, x, o)) <==>
            (Overwrites(s, c, f) ==>
               forall z, o: nat | z in s.images && s.images[z].file == Target(s, c, f).value ::
                 View(s, z, o) == ViewBelow(s, z, o))
  {
    StepKeepsBooks(s, c, f);
    var s' := Step(s, c, f).state;
    if !Overwrites(s, c, f) {
      StepKeepsViews(s, c, f);
    } else {
      var z :| z in s.images && s.images[z].file == Target(s, c, f).value;
      forall y | y in s.images && s.images[y].file == Target(s, c, f).value
        ensures y == z
      {
        if y != z {
          FilesDistinct(s, y, z);
        }
      }
      CreationFiles(s, c, f);
      forall o: nat
        ensures s'.images == s.images && View(s', z, o) == ViewBelow(s, z, o)
      {
        OverwrittenReadsBelow(s, c, f, z, o);
      }
      if forall o: nat :: View(s, z, o) == ViewBelow(s, z, o) {
        forall x, o: nat | x in s.images
          ensures View(s', x, o) == View(s, x, o)
        {
          assert View(s', z, o) == View(s, z, o);
          HarmlessAbove(s, s', z, x, o);
        }
      } else {
        var o: nat :| View(s, z, o) != ViewBelow(s, z, o);
        assert View(s', z, o) != View(s, z, o);
      }
    }
  }
}
