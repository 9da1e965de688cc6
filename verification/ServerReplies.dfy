/** What the server answers to each call, exactly when, whatever is refused. */
module ServerReplies {
  import opened Names
  import opened Forest
  import opened BlockGraph
  import opened Store
  import opened Consistency
  import opened Reclamation
  import opened Layers
  import opened Leaks

  /** Every way a creation of a volume can end, told apart by what stands against it. */
  lemma CreateVolumeReply(s: State, id: string, source: string, f: Faults)
    requires Consistent(s)
    ensures var reply := CreateVolume(s, id, source, f).reply;
            && (reply == Failed(NoDirectory) <==> f.mkdir)
            && (reply == Panicked <==> !f.mkdir && !QsdIdDefined(id))
            && (reply == Failed(ImageNotFound) <==>
                !f.mkdir && QsdIdDefined(id) && source != "" && source !in s.images)
            && reply in {Ok, Panicked, Failed(NoDirectory), Failed(ImageNotFound), Failed(BackendRefused)}
  {
    if source in s.images {
      assert Backed(s.images, s.daemon, source);
    }
  }

  /** The same for a snapshot; the layer is looked up before anything else. */
  lemma CreateSnapshotReply(s: State, id: string, source: string, f: Faults)
    requires Consistent(s)
    ensures var reply := CreateSnapshot(s, id, source, f).reply;
            && (reply == Failed(ActiveLayerNotFound) <==> source !in s.active)
            && (reply == Failed(ImageNotFound) <==> source in s.active && s.active[source] !in s.images)
            && (reply == Failed(NoDirectory) <==> source in s.active && s.active[source] in s.images && f.stat)
            && (reply == Panicked <==>
                source in s.active && s.active[source] in s.images && !f.stat && !QsdIdDefined(id))
            && reply in {Ok, Panicked, Failed(ActiveLayerNotFound), Failed(ImageNotFound), Failed(NoDirectory),
                         Failed(BackendRefused)}
  {
  }

  /** The image's node can be deleted, and its file cannot be removed. */
  ghost predicate FileSticks(m: Images, x: string, f: Faults)
    requires x in m
  {
    m[x].qsdId !in f.del && m[x].file in f.unlink
  }

  /** The clean-up is cut short at an image whose file cannot be removed. */
  ghost predicate CutShortByFile(m: Images, x: string, f: Faults)
    requires IsForest(m)
  {
    exists y :: y in LeftBehind(m, x, f) && y in m && FileSticks(m, y, f)
  }

  /** A clean-up fails exactly at the first refused image, and says which of its deletions was refused. */
  lemma CleanUpReply(s: State, x: string, f: Faults)
    requires Consistent(s)
    ensures var reply := CleanUp(s, x, f).reply;
            && (reply == Ok <==> !CleanUpBlocked(s.images, x, f))
            && (reply == Failed(FileNotRemoved) <==> CutShortByFile(s.images, x, f))
            && reply in {Ok, Failed(BackendRefused), Failed(FileNotRemoved)}
  {
    CleanUpFailsExactly(s, x, f);
    CleanUpStops(s, x, f);
    ChainInStore(s.images, x);
    var c := Chain(s.images, x);
    var k := RunFrom(s.images, c, 0);
    var j := FirstRefused(s.images, c, 0, k, f);
    if j < k {
      assert c[j] in LeftBehind(s.images, x, f);
    }
  }

  lemma RefusedDeletionReply(s: State, id: string, f: Faults)
    requires Consistent(s) && id in s.images && s.images[id].refCount == 0
    ensures DeleteImage(s, id, f).reply ==
            if s.images[id].qsdId in f.del then Failed(BackendRefused)
            else if s.images[id].file in f.unlink then Failed(FileNotRemoved)
            else Ok
  {
    assert s.images[id].refCount == |Children(s.images, id)|;
    assert Backed(s.images, s.daemon, id) && Placed(s.images, id);
    UsersAreChildren(s, id);
  }

  /** The deletion stops at its own image, because its file cannot be removed. */
  ghost predicate StopsAtFile(s: State, c: Call, f: Faults) {
    Applies(s, c) && c.id in s.images && GoesAtOnce(s, c) && FileSticks(s.images, c.id, f)
  }

  lemma UntakenDropReply(s: State, c: Call, f: Faults)
    requires SoundLayers(s) && (c.DropVolume? || c.DropSnapshot?) && !TakesEffect(s, c, f)
    ensures Step(s, c, f).reply ==
            if c.DropVolume? && c.id !in s.active then Failed(ActiveLayerNotFound)
            else if !Applies(s, c) then Failed(ImageNotFound)
            else if StopsAtFile(s, c, f) then Failed(FileNotRemoved)
            else Failed(BackendRefused)
  {
    if Applies(s, c) {
      AppliesToRecorded(s, c);
      RefusedDeletionReply(s, c.id, f);
    }
  }

  /**
    Every way a deletion can end. In particular a file is reported as not removed exactly when the
    first image on the way that is refused anything has a node that can be deleted and a file that
    cannot be removed.
   */
  lemma DropReply(s: State, c: Call, f: Faults)
    requires SoundLayers(s) && (c.DropVolume? || c.DropSnapshot?)
    ensures c.id in s.images ==> Consistent(BeforeCleanUp(s, c))
    ensures var reply := Step(s, c, f).reply;
            && (reply == Failed(ActiveLayerNotFound) <==> c.DropVolume? && c.id !in s.active)
            && (reply == Failed(ImageNotFound) <==> !Applies(s, c) && (c.DropVolume? ==> c.id in s.active))
            && (reply == Failed(DirectoryNotCleaned) <==> TakesEffect(s, c, f) && !ReachesCleanUp(c, f))
            && (reply == Failed(FileNotRemoved) <==>
                || StopsAtFile(s, c, f)
                || (TakesEffect(s, c, f) && ReachesCleanUp(c, f) &&
                    CutShortByFile(BeforeCleanUp(s, c).images, s.images[c.id].backing, f)))
            && (reply == Ok <==>
                && TakesEffect(s, c, f) && ReachesCleanUp(c, f)
                && !CleanUpBlocked(BeforeCleanUp(s, c).images, s.images[c.id].backing, f))
            && reply in {Ok, Failed(ActiveLayerNotFound), Failed(ImageNotFound), Failed(DirectoryNotCleaned),
                         Failed(FileNotRemoved), Failed(BackendRefused)}
  {
    CleanUpDefined(s, c);
    if TakesEffect(s, c, f) {
      DeletionThenCleanUp(s, c, f);
      CleanUpReply(BeforeCleanUp(s, c), s.images[c.id].backing, f);
    } else {
      UntakenDropReply(s, c, f);
    }
  }
}
