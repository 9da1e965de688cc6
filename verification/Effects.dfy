/** What a successful call does to volumes, snapshots and chains, in the terms of its caller. */
module Effects {
  import opened Options
  import opened Names
  import opened Forest
  import opened BlockGraph
  import opened Store
  import opened Consistency
  import opened Preservation
  import opened Books
  import opened Reclamation
  import opened Layers
  import opened Leaks
  import opened Views

  // ----- creations

  lemma NewChain(s: State, id: string, img: Image, v: string, d: Daemon)
    requires Consistent(s) && id !in s.images && IsForest(Record(s, id, img, v, d).images)
    ensures Chain(Record(s, id, img, v, d).images, id) == [id] + Chain(s.images, img.backing)
  {
    RecordedChain(s, id, img, id);
  }

  /**
    A snapshot puts a new, named layer on top of the volume's active layer and makes it the active
    one; the volume reads what it read before, and no other volume changes layers.
   */
  lemma SnapshotEffect(s: State, id: string, source: string, f: Faults)
    requires Consistent(s) && Admissible(s, NewSnapshot(id, source))
    requires CreateSnapshot(s, id, source, f).reply == Ok
    ensures var s' := CreateSnapshot(s, id, source, f).state;
            && source in s.active && IsForest(s'.images)
            && s'.active == s.active[source := id]
            && s'.images.Keys == s.images.Keys + {id} && id !in s.images && s'.images[id].volumeRef == id
            && Chain(s'.images, id) == [id] + Chain(s.images, s.active[source])
            && forall o: nat :: View(s', id, o) == View(s, s.active[source], o)
  {
    var c := NewSnapshot(id, source);
    CreateSnapshotKeeps(s, id, source, f);
    var s' := CreateSnapshot(s, id, source, f).state;
    var file := SnapshotPath(source, GenerateQsdId(id));
    NewChain(s, id, NewLayer(s.images, id, s.active[source], file), source, s'.daemon);
    forall o: nat
      ensures View(s', id, o) == View(s, s.active[source], o)
    {
      NewLayerReadsBacking(s, c, f, o);
    }
  }

  /** A clone is a new volume with its own image as active layer, on top of its source and reading the same. */
  lemma CloneEffect(s: State, id: string, source: string, f: Faults)
    requires Consistent(s) && Admissible(s, NewVolume(id, source)) && source != ""
    requires CreateVolume(s, id, source, f).reply == Ok
    ensures var s' := CreateVolume(s, id, source, f).state;
            && IsForest(s'.images)
            && s'.active == s.active[id := id]
            && s'.images.Keys == s.images.Keys + {id} && id !in s.images && s'.images[id].volumeRef == id
            && Chain(s'.images, id) == [id] + Chain(s.images, source)
            && forall o: nat :: View(s', id, o) == View(s, source, o)
  {
    var c := NewVolume(id, source);
    CreateVolumeKeeps(s, id, source, f);
    var s' := CreateVolume(s, id, source, f).state;
    NewChain(s, id, NewLayer(s.images, id, source, VolumePath(id)), id, s'.daemon);
    forall o: nat
      ensures View(s', id, o) == View(s, source, o)
    {
      NewLayerReadsBacking(s, c, f, o);
    }
  }

  /** An empty volume is a root that reads what a file left at its path holds; a fresh file counts as empty. */
  lemma {:induction false} EmptyVolumeEffect(s: State, id: string, f: Faults)
    requires Consistent(s) && WellFormedId(id) && CreateVolume(s, id, "", f).reply == Ok
    ensures var s' := CreateVolume(s, id, "", f).state;
            && IsForest(s'.images)
            && s'.active == s.active[id := id]
            && s'.images.Keys == s.images.Keys + {id} && id !in s.images && s'.images[id].volumeRef == id
            && Chain(s'.images, id) == [id]
            && forall o: nat :: View(s', id, o) == Read(s.daemon.files, [VolumePath(id)], o)
  {
    CreateRootKeeps(s, id, f);
    var s' := CreateVolume(s, id, "", f).state;
    NewChain(s, id, Image(GenerateQsdId(id), "", VolumePath(id), 0, id, 0), id, s'.daemon);
    assert Chain(s.images, "") == [];
    CreationFiles(s, NewVolume(id, ""), f);
    forall o: nat
      ensures View(s', id, o) == Read(s.daemon.files, [VolumePath(id)], o)
    {
      RootReadsOneFile(s', id, o);
      ReadOneFile(s.daemon.files, s'.daemon.files, VolumePath(id), o);
    }
  }

  lemma RootReadsOneFile(s: State, id: string, o: nat)
    requires IsForest(s.images) && id in s.images && s.images[id].backing == ""
    ensures View(s, id, o) == Read(s.daemon.files, [s.images[id].file], o)
  {
    assert ChainFiles(s.images, "") == [];
  }

  lemma ReadOneFile(files: map<string, Data>, files': map<string, Data>, file: string, o: nat)
    requires files' == files || (file !in files && files' == files[file := map[]])
    ensures Read(files', [file], o) == Read(files, [file], o)
  {
    assert [file][1..] == [];
  }

  // ----- deletions

  /** A deletion takes names only from the image it names. */
  ghost predicate TakesOneName(m: Images, m': Images, id: string) {
    && KeepsNamed(m, m', id)
    && KeepsRecords(m, m')
    && (forall y | y in m' :: m'[y].volumeRef == m[y].volumeRef || (y == id && m'[y].volumeRef == ""))
  }

  lemma DropVolumeNames(s: State, id: string, f: Faults)
    requires ExactBooks(s)
    ensures TakesOneName(s.images, DeleteVolume(s, id, f).state.images, id)
  {
    DeleteVolumeKeepsNamed(s, id, f);
    DeleteVolumeBooks(s, id, f);
    if id in s.active && s.active[id] in s.images {
      var rest := s.active - {id};
      if s.images[s.active[id]].refCount < 1 && s.active[id] == id {
        DeleteImageBooks(s, id, f);
        var s1 := DeleteImage(s, id, f).state;
        CleanUpBooks(s1.(active := rest), s.images[id].backing, f);
      } else if id in s.images {
        UnnameBooks(s, id);
        CleanUpBooks(State(Unname(s.images, id), rest, s.daemon), s.images[id].backing, f);
      }
    }
  }

  lemma DropSnapshotNames(s: State, id: string, source: string, f: Faults)
    requires ExactBooks(s)
    ensures var r := DeleteSnapshot(s, id, source, f);
            && TakesOneName(s.images, r.state.images, id)
            && (r.reply == Ok ==> id in r.state.images ==> r.state.images[id].volumeRef == "")
  {
    DeleteSnapshotKeepsNamed(s, id, source, f);
    DeleteSnapshotBooks(s, id, source, f);
    if id in s.images {
      if s.images[id].refCount < 1 && !IsActiveLayer(s, id, source) {
        DeleteImageBooks(s, id, f);
        CleanUpBooks(DeleteImage(s, id, f).state, s.images[id].backing, f);
      } else {
        UnnameBooks(s, id);
        CleanUpBooks(s.(images := Unname(s.images, id)), s.images[id].backing, f);
      }
    }
  }

  /** The image named in a deletion that is not removed at once stays: the clean-up starts below it. */
  lemma UnnamedStays(s: State, id: string, active: map<string, string>, f: Faults)
    requires Consistent(s) && id in s.images
    ensures var s1 := State(Unname(s.images, id), active, s.daemon);
            CleanUp(s1, s.images[id].backing, f) == Result(s1, Ok)
  {
    UnnameKeeps(s, id);
    var m := Unname(s.images, id);
    var b := s.images[id].backing;
    assert Placed(s.images, id);
    if b in m {
      assert id in Children(m, b);
      assert m[b].refCount == |Children(m, b)|;
    }
  }

  /**
    Deleting a volume ends it: it has no active layer any more, and its image is gone, or stays
    without its name exactly when other images build on it.
   */
  lemma DeleteVolumeEffect(s: State, id: string, f: Faults)
    requires SoundLayers(s) && DeleteVolume(s, id, f).reply == Ok
    ensures var s' := DeleteVolume(s, id, f).state;
            && id in s.active && id in s.images
            && s'.active == s.active - {id}
            && TakesOneName(s.images, s'.images, id)
            && (id in s'.images <==> s.images[id].refCount > 0)
            && (id in s'.images ==> s'.images == Unname(s.images, id))
  {
    LiveBasesNamed(s);
    DropVolumeNames(s, id, f);
    assert s.images[id].refCount == |Children(s.images, id)|;
    if s.images[s.active[id]].refCount < 1 && s.active[id] == id {
      DeleteImageBooks(s, id, f);
      var s1 := DeleteImage(s, id, f).state;
      CleanUpBooks(s1.(active := s1.active - {id}), s.images[id].backing, f);
    } else {
      if s.active[id] != id {
        BaseHasChild(s, id);
      }
      UnnamedStays(s, id, s.active - {id}, f);
    }
  }

  /**
    Deleting a snapshot gives up its name: its image is gone, or stays exactly when other images
    build on it or its source still writes to it. No volume changes layers.
   */
  lemma DeleteSnapshotEffect(s: State, id: string, source: string, f: Faults)
    requires Consistent(s) && DeleteSnapshot(s, id, source, f).reply == Ok
    ensures var s' := DeleteSnapshot(s, id, source, f).state;
            && id in s.images
            && s'.active == s.active
            && TakesOneName(s.images, s'.images, id)
            && (id in s'.images <==> s.images[id].refCount > 0 || IsActiveLayer(s, id, source))
            && (id in s'.images ==> s'.images == Unname(s.images, id))
  {
    DropSnapshotNames(s, id, source, f);
    assert s.images[id].refCount == |Children(s.images, id)|;
    if s.images[id].refCount < 1 && !IsActiveLayer(s, id, source) {
      DeleteImageBooks(s, id, f);
      CleanUpBooks(DeleteImage(s, id, f).state, s.images[id].backing, f);
    } else {
      UnnamedStays(s, id, s.active, f);
    }
  }

  // ----- deletions that fail half-way

  /** DeleteSnapshot removes the image itself: nothing needs it, and nothing refuses its node or file. */
  ghost predicate RemovesSnapshot(s: State, id: string, source: string, f: Faults)
    requires id in s.images
  {
    s.images[id].refCount == 0 && !IsActiveLayer(s, id, source) && !DeletionRefused(s.images, id, f)
  }

  /** Whatever fails, the image of a snapshot is gone after its deletion exactly when it was removed at once. */
  lemma SnapshotRemovedExactly(s: State, id: string, source: string, f: Faults)
    requires Consistent(s) && id in s.images
    ensures id !in DeleteSnapshot(s, id, source, f).state.images <==> RemovesSnapshot(s, id, source, f)
  {
    assert s.images[id].refCount == |Children(s.images, id)|;
    if s.images[id].refCount == 0 && !IsActiveLayer(s, id, source) {
      RefusedDeletion(s, id, f);
      if !DeletionRefused(s.images, id, f) {
        DeletedKeepsConsistent(s, id);
        CleanUpBooks(Deleted(s, id), s.images[id].backing, f);
      }
    } else {
      UnnamedStays(s, id, s.active, f);
    }
  }

  lemma RemovalFailsExactly(s: State, id: string, source: string, f: Faults)
    requires Consistent(s) && id in s.images && RemovesSnapshot(s, id, source, f)
    ensures Consistent(Deleted(s, id))
    ensures DeleteSnapshot(s, id, source, f).reply != Ok <==>
            CleanUpBlocked(Deleted(s, id).images, s.images[id].backing, f)
  {
    RefusedDeletion(s, id, f);
    DeletedKeepsConsistent(s, id);
    CleanUpFailsExactly(Deleted(s, id), s.images[id].backing, f);
  }

  /**
    A deletion that fails has happened all the same, and the snapshot is gone, exactly when its image
    is removed at once and an image of the run its clean-up takes is refused.
   */
  lemma FailedDeletionLosesSnapshot(s: State, id: string, source: string, f: Faults)
    requires Consistent(s) && id in s.images
    ensures RemovesSnapshot(s, id, source, f) ==> Consistent(Deleted(s, id))
    ensures var r := DeleteSnapshot(s, id, source, f);
            (r.reply != Ok && id !in r.state.images) <==>
            RemovesSnapshot(s, id, source, f) && CleanUpBlocked(Deleted(s, id).images, s.images[id].backing, f)
  {
    SnapshotRemovedExactly(s, id, source, f);
    if RemovesSnapshot(s, id, source, f) {
      RemovalFailsExactly(s, id, source, f);
    }
  }

  /** The simplest case: the backing image is released with the snapshot, and the daemon keeps its node. */
  lemma RefusedCleanUpLosesSnapshot(s: State, id: string, source: string, f: Faults)
    requires Consistent(s) && id in s.images && s.images[id].refCount == 0 && !IsActiveLayer(s, id, source)
    requires s.images[id].qsdId !in f.del && s.images[id].file !in f.unlink
    requires var b := s.images[id].backing;
             && b in s.images && s.images[b].volumeRef == "" && s.images[b].refCount == 1
             && s.images[b].qsdId in f.del
    ensures DeleteSnapshot(s, id, source, f) == Result(Deleted(s, id), Failed(BackendRefused))
    ensures id !in DeleteSnapshot(s, id, source, f).state.images
  {
    var b := s.images[id].backing;
    DeleteImageOutcome(s, id, f);
    DeletedKeepsConsistent(s, id);
    assert Placed(s.images, id);
    RefusedCleanUp(Deleted(s, id), b, f);
  }

  /** Whatever fails, a volume is not live after its deletion exactly when the deletion got past its image. */
  lemma VolumeEndedExactly(s: State, id: string, f: Faults)
    requires SoundLayers(s) && id in s.active
    ensures id !in DeleteVolume(s, id, f).state.active <==> TakesEffect(s, DropVolume(id), f)
  {
    DeletionThenCleanUp(s, DropVolume(id), f);
    if TakesEffect(s, DropVolume(id), f) {
      DroppedVolumeLoose(s, id, f);
    }
  }

  lemma EndingFailsExactly(s: State, id: string, f: Faults)
    requires SoundLayers(s) && TakesEffect(s, DropVolume(id), f)
    ensures Consistent(BeforeCleanUp(s, DropVolume(id)))
    ensures DeleteVolume(s, id, f).reply != Ok <==>
            f.rmdir || CleanUpBlocked(BeforeCleanUp(s, DropVolume(id)).images, s.images[id].backing, f)
  {
    DeletionThenCleanUp(s, DropVolume(id), f);
    BeforeCleanUpConsistent(s, DropVolume(id));
    CleanUpFailsExactly(BeforeCleanUp(s, DropVolume(id)), s.images[id].backing, f);
  }

  /**
    The same for a volume: a deletion that fails has ended the volume exactly when only the removal
    of its directory or the clean-up failed.
   */
  lemma FailedDeletionEndsVolume(s: State, id: string, f: Faults)
    requires SoundLayers(s) && id in s.active
    ensures id in s.images && Consistent(BeforeCleanUp(s, DropVolume(id)))
    ensures var r := DeleteVolume(s, id, f);
            (r.reply != Ok && id !in r.state.active) <==>
            && TakesEffect(s, DropVolume(id), f)
            && (f.rmdir || CleanUpBlocked(BeforeCleanUp(s, DropVolume(id)).images, s.images[id].backing, f))
  {
    LiveBasesNamed(s);
    BeforeCleanUpConsistent(s, DropVolume(id));
    VolumeEndedExactly(s, id, f);
    if TakesEffect(s, DropVolume(id), f) {
      EndingFailsExactly(s, id, f);
    }
  }

  // ----- when creations succeed

  /** A volume is created exactly when nothing refuses, its source is recorded and its cut name is free. */
  lemma CreateVolumeSucceeds(s: State, id: string, source: string, f: Faults)
    requires Consistent(s)
    ensures CreateVolume(s, id, source, f).reply == Ok <==>
            && QsdIdDefined(id) && GenerateQsdId(id) !in s.daemon.nodes && !f.mkdir && !f.add
            && (if source == "" then VolumePath(id) in s.daemon.files || !f.qemuImg
                else source in s.images && !f.qemuImg)
  {
    if source in s.images {
      assert Backed(s.images, s.daemon, source);
    }
  }

  /** A snapshot is created exactly when nothing refuses, the active layer is recorded and the cut name is free. */
  lemma CreateSnapshotSucceeds(s: State, id: string, source: string, f: Faults)
    requires Consistent(s)
    ensures CreateSnapshot(s, id, source, f).reply == Ok <==>
            && QsdIdDefined(id) && GenerateQsdId(id) !in s.daemon.nodes && !f.stat && !f.add && !f.qemuImg
            && source in s.active && s.active[source] in s.images
            && (s.images[s.active[source]].refCount == 0 ==> !f.snapshot)
  {
    if source in s.active && s.active[source] in s.images && QsdIdDefined(id) {
      var i, q := s.images[s.active[source]], GenerateQsdId(id);
      assert Backed(s.images, s.daemon, s.active[source]);
      assert i.refCount == |Children(s.images, s.active[source])|;
      var file := SnapshotPath(source, q);
      var o := CreateOverlayFile(s.daemon, i.file, file, f);
      InstallSteps(o.daemon, i.qsdId, q, file, f);
    }
  }

  // ----- what failed creations leave

  /** blockdev-add took effect for a snapshot, and blockdev-snapshot did not. */
  ghost predicate BareNodeStays(s: State, c: Call, f: Faults) {
    && c.NewSnapshot? && Target(s, c, f).Some? && s.images[s.active[c.source]].refCount == 0
    && GenerateQsdId(c.id) !in s.daemon.nodes && !f.add
  }

  /** A failed creation leaves the files it made and, of a snapshot that was not installed, a bare node. */
  lemma FailedCreationLeavesExactly(s: State, c: Call, f: Faults)
    requires Consistent(s) && (c.NewVolume? || c.NewSnapshot?) && Step(s, c, f).reply != Ok
    ensures var s' := Step(s, c, f).state;
            && s'.images == s.images && s'.active == s.active
            && s'.daemon.nodes == (if BareNodeStays(s, c, f)
                                   then s.daemon.nodes[GenerateQsdId(c.id) := Node(Target(s, c, f).value, None)]
                                   else s.daemon.nodes)
            && s'.daemon.files == (if Target(s, c, f).Some? then s.daemon.files[Target(s, c, f).value := map[]]
                                   else if MakesDisk(s, c, f) then s.daemon.files[VolumePath(c.id) := map[]]
                                   else s.daemon.files)
  {
    CreationFiles(s, c, f);
    match c
    case NewVolume(_, _) =>
    case NewSnapshot(id, source) =>
      if Target(s, c, f).Some? {
        FailedSnapshotNodes(s, id, source, f);
      }
  }

  lemma FailedSnapshotNodes(s: State, id: string, source: string, f: Faults)
    requires Consistent(s) && Target(s, NewSnapshot(id, source), f).Some?
    requires CreateSnapshot(s, id, source, f).reply != Ok
    ensures CreateSnapshot(s, id, source, f).state.daemon.nodes ==
            if BareNodeStays(s, NewSnapshot(id, source), f)
            then s.daemon.nodes[GenerateQsdId(id) := Node(SnapshotPath(source, GenerateQsdId(id)), None)]
            else s.daemon.nodes
  {
    var i, q := s.images[s.active[source]], GenerateQsdId(id);
    assert Backed(s.images, s.daemon, s.active[source]);
    assert i.refCount == |Children(s.images, s.active[source])|;
    var o := CreateOverlayFile(s.daemon, i.file, SnapshotPath(source, q), f);
    InstallSteps(o.daemon, i.qsdId, q, SnapshotPath(source, q), f);
  }

  // ----- named volumes are live

  /** An image that is asked for by name as a volume is a live volume. */
  ghost predicate NamedVolumesLive(s: State) {
    forall x | x in s.images && s.images[x].volumeRef != "" && s.images[x].file == VolumePath(x) :: x in s.active
  }

  lemma DroppedVolumeUnnamed(s: State, id: string, f: Faults)
    requires ExactBooks(s)
    ensures var s' := DeleteVolume(s, id, f).state;
            s'.active == s.active || (id in s'.images ==> s'.images[id].volumeRef == "")
  {
    if id in s.active && s.active[id] in s.images {
      var rest := s.active - {id};
      if s.images[s.active[id]].refCount < 1 && s.active[id] == id {
        DeleteImageBooks(s, id, f);
        var s1 := DeleteImage(s, id, f).state;
        CleanUpBooks(s1.(active := rest), s.images[id].backing, f);
      } else if id in s.images {
        UnnameBooks(s, id);
        CleanUpBooks(State(Unname(s.images, id), rest, s.daemon), s.images[id].backing, f);
      }
    }
  }

  lemma RecordKeepsNamedLive(s: State, id: string, img: Image, v: string, d: Daemon)
    requires NamedVolumesLive(s) && id !in s.images
    requires img.file == VolumePath(id) ==> v == id
    ensures NamedVolumesLive(Record(s, id, img, v, d))
  {
  }

  lemma CreationKeepsNamedLive(s: State, c: Call, f: Faults)
    requires Consistent(s) && Admissible(s, c) && (c.NewVolume? || c.NewSnapshot?) && NamedVolumesLive(s)
    ensures NamedVolumesLive(Step(s, c, f).state)
  {
    var r := Step(s, c, f);
    match c
    case NewVolume(id, source) =>
      CreateVolumeKeeps(s, id, source, f);
      if r.reply == Ok {
        if source == "" {
          RecordKeepsNamedLive(s, id, Image(GenerateQsdId(id), "", VolumePath(id), 0, id, 0), id, r.state.daemon);
        } else {
          RecordKeepsNamedLive(s, id, NewLayer(s.images, id, source, VolumePath(id)), id, r.state.daemon);
        }
      }
    case NewSnapshot(id, source) =>
      CreateSnapshotKeeps(s, id, source, f);
      if r.reply == Ok {
        var file := SnapshotPath(source, GenerateQsdId(id));
        QsdIdShape(id);
        VolumeIsNoSnapshotPath(id, source, GenerateQsdId(id));
        RecordKeepsNamedLive(s, id, NewLayer(s.images, id, s.active[source], file), source, r.state.daemon);
      }
  }

  /** Every call keeps named volumes live, whatever fails: a volume loses its name before it stops being live. */
  lemma StepKeepsNamedVolumesLive(s: State, c: Call, f: Faults)
    requires Consistent(s) && Admissible(s, c) && NamedVolumesLive(s)
    ensures NamedVolumesLive(Step(s, c, f).state)
  {
    match c
    case NewVolume(_, _) => CreationKeepsNamedLive(s, c, f);
    case NewSnapshot(_, _) => CreationKeepsNamedLive(s, c, f);
    case DropVolume(id) =>
      DropVolumeNames(s, id, f);
      DeleteVolumeKeepsNamed(s, id, f);
      DroppedVolumeUnnamed(s, id, f);
    case DropSnapshot(id, source) =>
      DropSnapshotNames(s, id, source, f);
      DeleteSnapshotKeepsNamed(s, id, source, f);
  }
}
