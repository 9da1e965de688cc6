/** What the controller answers, exactly when, and which sizes it tells and remembers. */
module Replies {
  import opened Options
  import opened Names
  import opened BlockGraph
  import opened Store
  import opened Consistency
  import opened Reclamation
  import opened Leaks
  import opened Effects
  import opened ServerReplies
  import opened Controller
  import opened ControllerRuns

  // ----- when a request succeeds

  /** Nothing stands against a new volume at the host, qemu-img, the daemon or its exporter. */
  ghost predicate VolumeCanBeMade(y: System, name: string, source: string, f: Faults) {
    var s := y.server;
    && QsdIdDefined(name) && GenerateQsdId(name) !in s.daemon.nodes && GenerateQsdId(name) !in y.exports
    && !f.mkdir && !f.add && !f.socket && !f.vhost
    && if source == "" then VolumePath(name) in s.daemon.files || !f.qemuImg
       else source in s.images && !f.qemuImg
  }

  lemma NewVolumeCanBeExposed(s: State, name: string, source: string, f: Faults)
    requires Consistent(s) && Step(s, NewVolume(name, source), f).reply == Ok
    ensures var s' := Step(s, NewVolume(name, source), f).state;
            && QsdIdDefined(name) && name in s'.images && s'.images[name].qsdId == GenerateQsdId(name)
            && GenerateQsdId(name) in s'.daemon.nodes
  {
    CreateVolumeSucceeds(s, name, source, f);
    if source in s.images {
      assert Backed(s.images, s.daemon, source);
    }
  }

  /** A volume is created, the answer being the requested size, exactly when both calls get through unrefused. */
  lemma CreateVolumeAnswer(y: System, name: string, capacity: Option<int>, content: ContentSource, w: Conditions)
    requires Consistent(y.server)
    ensures var answer := Serve(y, CreateVolumeRequest(name, capacity, content), w).response;
            && (answer == InvalidArgument <==> name == "" || (capacity.Some? && EmptyContent(content)))
            && (answer.Success? <==>
                && name != "" && capacity.Some? && !EmptyContent(content)
                && !w.dial && w.call == Delivered && w.exporter == Delivered
                && VolumeCanBeMade(y, name, ContentId(content), w.world))
            && (answer.Success? ==> answer == Success(capacity.value))
  {
    var c := NewVolume(name, ContentId(content));
    CreateVolumeSucceeds(y.server, name, ContentId(content), w.world);
    if Step(y.server, c, w.world).reply == Ok {
      NewVolumeCanBeExposed(y.server, name, ContentId(content), w.world);
    }
  }

  /** The deletion of a volume is carried out to its end. */
  ghost predicate VolumeCanBeDeleted(y: System, id: string, f: Faults)
    requires Agree(y)
  {
    var s, c := y.server, DropVolume(id);
    CleanUpDefined(s, c);
    && id in s.images && s.images[id].qsdId in y.exports && !f.vhost && !f.socket
    && TakesEffect(s, c, f) && !f.rmdir
    && !CleanUpBlocked(BeforeCleanUp(s, c).images, s.images[id].backing, f)
  }

  /**
    The deletion of a volume succeeds exactly when the volume is not known, or both calls get
    through, its export is there, and nothing on the way to the end of the clean-up is refused.
   */
  lemma DeleteVolumeAnswer(y: System, id: string, w: Conditions)
    requires Agree(y)
    ensures var answer := Serve(y, DeleteVolumeRequest(id), w).response;
            && (answer == InvalidArgument <==> id == "")
            && (answer.Success? <==>
                && id != ""
                && (id in y.storage ==>
                      && !w.dial && w.exporter == Delivered && w.call == Delivered
                      && VolumeCanBeDeleted(y, id, w.world)))
            && (answer.Success? ==> answer == Success(0))
            && answer != Crashed
  {
    DropReply(y.server, DropVolume(id), w.world);
  }

  /** A snapshot can be taken of the volume under this name. */
  ghost predicate SnapshotCanBeMade(s: State, name: string, source: string, f: Faults) {
    && QsdIdDefined(name) && GenerateQsdId(name) !in s.daemon.nodes && !f.stat && !f.add && !f.qemuImg
    && source in s.active && s.active[source] in s.images
    && (s.images[s.active[source]].refCount == 0 ==> !f.snapshot)
  }

  /** A snapshot request succeeds exactly when the snapshot is known, or can be made; the answer is its size. */
  lemma CreateSnapshotAnswer(y: System, name: string, source: string, w: Conditions)
    requires Consistent(y.server)
    ensures var answer := Serve(y, CreateSnapshotRequest(name, source), w).response;
            && (answer == InvalidArgument <==> name == "" || source == "")
            && (answer.Success? <==>
                && name != "" && source != ""
                && (name !in y.snapshots ==>
                      && source in y.storage && !w.dial && w.call == Delivered
                      && SnapshotCanBeMade(y.server, name, source, w.world)))
            && (answer.Success? ==>
                  answer == Success(if name in y.snapshots then y.snapshots[name].size else y.storage[source].size))
            && answer != Crashed
  {
    CreateSnapshotSucceeds(y.server, name, source, w.world);
  }

  /** The deletion of a snapshot is carried out to its end. */
  ghost predicate SnapshotCanBeDeleted(y: System, id: string, f: Faults)
    requires Agree(y) && id in y.snapshots
  {
    var s, c := y.server, DropSnapshot(id, y.snapshots[id].source);
    CleanUpDefined(s, c);
    && id in s.images && TakesEffect(s, c, f)
    && !CleanUpBlocked(BeforeCleanUp(s, c).images, s.images[id].backing, f)
  }

  /**
    The deletion of a snapshot succeeds exactly when the snapshot is not known, or the call gets
    through and nothing on the way to the end of the clean-up is refused.
   */
  lemma DeleteSnapshotAnswer(y: System, id: string, w: Conditions)
    requires Agree(y)
    ensures var answer := Serve(y, DeleteSnapshotRequest(id), w).response;
            && (answer.Success? <==>
                (id in y.snapshots ==> !w.dial && w.call == Delivered && SnapshotCanBeDeleted(y, id, w.world)))
            && (if answer.Success? then answer == Success(0) else answer == Internal)
  {
    if id in y.snapshots {
      DropReply(y.server, DropSnapshot(id, y.snapshots[id].source), w.world);
    }
  }

  // ----- sizes

  /** The request is one for a volume of this size that passes the controller's own checks. */
  predicate AsksForSize(q: Request, name: string, size: int) {
    q.CreateVolumeRequest? && q.name == name && name != "" && q.capacity == Some(size) && !EmptyContent(q.content)
  }

  ghost predicate VolumeHasSize(y: System, name: string, size: int) {
    name in y.storage && y.storage[name].size == size
  }

  ghost predicate NeverDeleted(xs: seq<Exchange>, name: string) {
    forall x | x in xs :: x.request != DeleteVolumeRequest(name)
  }

  lemma {:induction false} VolumeKeepsSize(y: System, xs: seq<Exchange>, name: string, size: int)
    requires VolumeHasSize(y, name, size) && NeverDeleted(xs, name)
    ensures VolumeHasSize(RunAll(y, xs), name, size)
    decreases |xs|
  {
    if xs != [] {
      assert xs[0].request != DeleteVolumeRequest(name);
      VolumeKeepsSize(AfterExchange(y, xs[0]), xs[1..], name, size);
    }
  }

  lemma {:induction false} SnapshotKeepsEntry(y: System, xs: seq<Exchange>, name: string, entry: StoredSnapshot)
    requires name in y.snapshots && y.snapshots[name] == entry
    requires forall x | x in xs :: x.request != DeleteSnapshotRequest(name)
    ensures name in RunAll(y, xs).snapshots && RunAll(y, xs).snapshots[name] == entry
    decreases |xs|
  {
    if xs != [] {
      assert xs[0].request != DeleteSnapshotRequest(name);
      SnapshotKeepsEntry(AfterExchange(y, xs[0]), xs[1..], name, entry);
    }
  }

  lemma SnapshotTakesSize(y: System, id: string, name: string, size: int, w: Conditions)
    requires VolumeHasSize(y, name, size) && id !in y.snapshots
    requires Serve(y, CreateSnapshotRequest(id, name), w).response.Success?
    ensures var z := Serve(y, CreateSnapshotRequest(id, name), w);
            && z.response == Success(size)
            && id in z.system.snapshots && z.system.snapshots[id] == StoredSnapshot(id, name, size)
  {
  }

  /**
    The size of a volume is the one it was first asked for, even if that request failed: after any
    run that does not delete the volume, every snapshot taken of it is answered with that size, and
    after any further run that does not delete the snapshot, so is every repetition.
   */
  lemma SnapshotHasFirstSize(
    y: System, q: Request, w: Conditions, name: string, size: int, xs: seq<Exchange>,
    id: string, w': Conditions, ys: seq<Exchange>, w'': Conditions)
    requires AsksForSize(q, name, size) && name !in y.storage && NeverDeleted(xs, name)
    requires var z := RunAll(Serve(y, q, w).system, xs);
             id !in z.snapshots && Serve(z, CreateSnapshotRequest(id, name), w').response.Success?
    requires forall x | x in ys :: x.request != DeleteSnapshotRequest(id)
    ensures var z := RunAll(Serve(y, q, w).system, xs);
            var taken := Serve(z, CreateSnapshotRequest(id, name), w');
            var later := RunAll(taken.system, ys);
            && taken.response == Success(size)
            && Serve(later, CreateSnapshotRequest(id, name), w'') == Outcome(later, Success(size))
  {
    assert VolumeHasSize(Serve(y, q, w).system, name, size);
    VolumeKeepsSize(Serve(y, q, w).system, xs, name, size);
    var z := RunAll(Serve(y, q, w).system, xs);
    SnapshotTakesSize(z, id, name, size, w');
    SnapshotKeepsEntry(Serve(z, CreateSnapshotRequest(id, name), w').system, ys, id, StoredSnapshot(id, name, size));
  }
}
