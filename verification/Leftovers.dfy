/** Nodes and files of the daemon that belong to no record, and when there are none. */
module Leftovers {
  import opened Names
  import opened Forest
  import opened BlockGraph
  import opened Store
  import opened Consistency
  import opened Preservation
  import opened Reclamation
  import opened Layers
  import opened Runs
  import opened Leaks

  ghost function FileNames(m: Images): set<string> {
    set x | x in m :: m[x].file
  }

  /** The daemon has exactly the nodes and files the records speak of. */
  ghost predicate Tight(s: State) {
    s.daemon.nodes.Keys == QsdIds(s.images) && s.daemon.files.Keys == FileNames(s.images)
  }

  /** A creation succeeds, or fails before it has touched the daemon. */
  ghost predicate LeavesNothing(s: State, e: Event) {
    var r := Step(s, e.call, e.faults);
    e.call.NewVolume? || e.call.NewSnapshot? ==> r.reply == Ok || r.state.daemon == s.daemon
  }

  ghost predicate LeavesNothingBehind(s: State, es: seq<Event>)
    decreases |es|
  {
    es == [] || (LeavesNothing(s, es[0]) && LeavesNothingBehind(After(s, es[0]), es[1..]))
  }

  lemma NamesAfterInsert(m: Images, id: string, img: Image)
    requires id !in m
    ensures QsdIds(Insert(m, id, img)) == QsdIds(m) + {img.qsdId}
    ensures FileNames(Insert(m, id, img)) == FileNames(m) + {img.file}
  {
    var m' := Insert(m, id, img);
    assert m'[id] == img;
    forall x | x in m
      ensures x in m' && m'[x].qsdId == m[x].qsdId && m'[x].file == m[x].file
    {
    }
  }

  lemma TightAfterRecord(s: State, id: string, img: Image, v: string, d: Daemon)
    requires Tight(s) && id !in s.images
    requires d.nodes.Keys == s.daemon.nodes.Keys + {img.qsdId}
    requires d.files.Keys == s.daemon.files.Keys + {img.file}
    ensures Tight(Record(s, id, img, v, d))
  {
    NamesAfterInsert(s.images, id, img);
  }

  lemma CreateVolumeTight(s: State, id: string, source: string, f: Faults)
    requires Consistent(s) && Tight(s) && Admissible(s, NewVolume(id, source))
    requires CreateVolume(s, id, source, f).reply == Ok
    ensures Tight(CreateVolume(s, id, source, f).state)
  {
    CreateVolumeKeeps(s, id, source, f);
    var r := CreateVolume(s, id, source, f);
    var q, file := GenerateQsdId(id), VolumePath(id);
    if source == "" {
      DiskAnswer(s.daemon, file, q, f);
      TightAfterRecord(s, id, Image(q, "", file, 0, id, 0), id, r.state.daemon);
    } else {
      var b := s.images[source];
      assert Backed(s.images, s.daemon, source);
      OverlayAnswer(s.daemon, b.qsdId, q, b.file, file, f);
      TightAfterRecord(s, id, NewLayer(s.images, id, source, file), id, r.state.daemon);
    }
  }

  lemma CreateSnapshotTight(s: State, id: string, source: string, f: Faults)
    requires Consistent(s) && Tight(s) && Admissible(s, NewSnapshot(id, source))
    requires CreateSnapshot(s, id, source, f).reply == Ok
    ensures Tight(CreateSnapshot(s, id, source, f).state)
  {
    CreateSnapshotKeeps(s, id, source, f);
    SnapshotAnswerShape(s, id, source, f);
    var r := CreateSnapshot(s, id, source, f);
    var file := SnapshotPath(source, GenerateQsdId(id));
    TightAfterRecord(s, id, NewLayer(s.images, id, s.active[source], file), source, r.state.daemon);
  }

  lemma DeletedTight(s: State, id: string)
    requires Consistent(s) && Tight(s) && id in s.images
    ensures Tight(Deleted(s, id))
  {
    var m, m' := s.images, Remove(s.images, id);
    forall x | x in m'
      ensures m'[x].qsdId == m[x].qsdId && m'[x].file == m[x].file && m[x].file != m[id].file
    {
      FilesDistinct(s, x, id);
    }
    assert QsdIds(m') == QsdIds(m) - {m[id].qsdId} by {
      assert forall x | x in m :: x == id || x in m';
    }
    assert FileNames(m') == FileNames(m) - {m[id].file} by {
      assert forall x | x in m :: x == id || x in m';
    }
  }

  lemma {:induction false} CleanUpTight(s: State, x: string, f: Faults)
    requires Consistent(s) && Tight(s) && CleanUp(s, x, f).reply != Failed(FileNotRemoved)
    ensures Tight(CleanUp(s, x, f).state)
    decreases |s.images.Keys|
  {
    if x in s.images && s.images[x].refCount <= 0 && s.images[x].volumeRef == "" {
      if DeletionRefused(s.images, x, f) {
        RefusedCleanUp(s, x, f);
      } else {
        CleanUpGoesOn(s, x, f);
        DeletedTight(s, x);
        if s.images[x].backing != "" {
          CleanUpTight(Deleted(s, x), s.images[x].backing, f);
        }
      }
    }
  }

  lemma UnnameTight(s: State, id: string)
    requires Tight(s) && id in s.images
    ensures Tight(s.(images := Unname(s.images, id)))
  {
    var m, m' := s.images, Unname(s.images, id);
    assert m'.Keys == m.Keys;
    assert forall x | x in m :: m'[x].qsdId == m[x].qsdId && m'[x].file == m[x].file;
  }

  lemma BeforeCleanUpTight(s: State, c: Call)
    requires Consistent(s) && Tight(s) && c.id in s.images
    ensures Tight(BeforeCleanUp(s, c))
  {
    UnnameTight(s, c.id);
    DeletedTight(s, c.id);
  }

  lemma DropTight(s: State, c: Call, f: Faults)
    requires SoundLayers(s) && Tight(s) && (c.DropVolume? || c.DropSnapshot?)
    requires Step(s, c, f).reply != Failed(FileNotRemoved)
    ensures Tight(Step(s, c, f).state)
  {
    DeletionThenCleanUp(s, c, f);
    if TakesEffect(s, c, f) {
      BeforeCleanUpTight(s, c);
      BeforeCleanUpConsistent(s, c);
      if ReachesCleanUp(c, f) {
        CleanUpTight(BeforeCleanUp(s, c), s.images[c.id].backing, f);
      }
    }
  }

  lemma StepKeepsTight(s: State, e: Event)
    requires SoundLayers(s) && Tight(s) && Admissible(s, e.call)
    requires Step(s, e.call, e.faults).reply != Failed(FileNotRemoved) && LeavesNothing(s, e)
    ensures Tight(After(s, e))
  {
    match e.call
    case NewVolume(id, source) =>
      if Step(s, e.call, e.faults).reply == Ok {
        CreateVolumeTight(s, id, source, e.faults);
      }
    case NewSnapshot(id, source) =>
      if Step(s, e.call, e.faults).reply == Ok {
        CreateSnapshotTight(s, id, source, e.faults);
      }
    case DropVolume(_) => DropTight(s, e.call, e.faults);
    case DropSnapshot(_, _) => DropTight(s, e.call, e.faults);
  }

  lemma {:induction false} RunKeepsTight(s: State, es: seq<Event>)
    requires SoundLayers(s) && Tight(s) && StaysSmall(s, es)
    requires ProperCalls(s, es) && FilesRemoved(s, es) && LeavesNothingBehind(s, es)
    ensures Tight(Run(s, es))
    decreases |es|
  {
    if es != [] {
      var c, f := es[0].call, es[0].faults;
      WellFormedIsAdmissible(s, c);
      StepKeepsLayers(s, c, f);
      StepKeepsTight(s, es[0]);
      RunKeepsTight(After(s, es[0]), es[1..]);
    }
  }

  /** When a reclaimed run left nothing behind on the way, the daemon is empty again too. */
  lemma {:induction false} FullReclamationOfDaemon(s: State, es: seq<Event>)
    requires LeaksAtMost(s, {}) && Tight(s) && OrphansNothing(s, es) && LeavesNothingBehind(s, es)
    requires Released(Run(s, es))
    ensures Run(s, es) == EMPTY
  {
    FullReclamation(s, es);
    RunKeepsTight(s, es);
    var s' := Run(s, es);
    assert s'.daemon.nodes.Keys == {} && s'.daemon.files.Keys == {};
  }
}
