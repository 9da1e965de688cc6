/**
  Whole runs of the controller and its server: what both layers agree on for good, what repeated
  requests do, what a failed deletion loses for good, and when everything comes back.
 */
module ControllerRuns {
  import opened Options
  import opened Names
  import opened Forest
  import opened BlockGraph
  import opened Store
  import opened Consistency
  import opened Preservation
  import opened Books
  import opened Reclamation
  import opened Layers
  import opened Runs
  import opened Leaks
  import opened Leftovers
  import opened Views
  import opened Effects
  import opened Controller

  datatype Exchange = Exchange(request: Request, conditions: Conditions)

  ghost function AfterExchange(y: System, x: Exchange): System {
    Serve(y, x.request, x.conditions).system
  }

  ghost function RunAll(y: System, xs: seq<Exchange>): System
    decreases |xs|
  {
    if xs == [] then y else RunAll(AfterExchange(y, xs[0]), xs[1..])
  }

  /** The request is proper where it is made, and its call, if it is made, leaves no record without a node. */
  ghost predicate ProperExchange(y: System, x: Exchange) {
    ProperRequest(y, x.request) && RemovesFiles(y, x.request, x.conditions)
  }

  ghost predicate ProperRequests(y: System, xs: seq<Exchange>)
    decreases |xs|
  {
    xs == [] || (ProperExchange(y, xs[0]) && ProperRequests(AfterExchange(y, xs[0]), xs[1..]))
  }

  /** At no request of the run does the server have more than 2^31-1 images. */
  ghost predicate ServerStaysSmall(y: System, xs: seq<Exchange>)
    decreases |xs|
  {
    xs == [] || (|y.server.images| <= MAX_INT32 && ServerStaysSmall(AfterExchange(y, xs[0]), xs[1..]))
  }

  lemma StartAgrees()
    ensures Agree(START) && ExactSnapshots(START)
  {
    EmptyStoreIsSound();
  }

  /** Controller and server agree at the end of every run, with calls and answers lost anywhere on the way. */
  lemma {:induction false} RunKeepsAgreement(y: System, xs: seq<Exchange>)
    requires Agree(y) && ServerStaysSmall(y, xs) && ProperRequests(y, xs)
    ensures Agree(RunAll(y, xs))
    decreases |xs|
  {
    if xs != [] {
      ServeKeepsAgreement(y, xs[0].request, xs[0].conditions);
      RunKeepsAgreement(AfterExchange(y, xs[0]), xs[1..]);
    }
  }

  ghost predicate NeverDiverges(y: System, xs: seq<Exchange>)
    decreases |xs|
  {
    xs == [] ||
    (!Diverges(y, xs[0].request, xs[0].conditions) && NeverDiverges(AfterExchange(y, xs[0]), xs[1..]))
  }

  /** Over runs in which no snapshot is made or dropped behind the controller's back, it knows the named ones. */
  lemma {:induction false} RunKeepsSnapshotsExact(y: System, xs: seq<Exchange>)
    requires Agree(y) && ExactSnapshots(y) && ServerStaysSmall(y, xs) && ProperRequests(y, xs) && NeverDiverges(y, xs)
    ensures Agree(RunAll(y, xs)) && ExactSnapshots(RunAll(y, xs))
    decreases |xs|
  {
    if xs != [] {
      ServeKeepsAgreement(y, xs[0].request, xs[0].conditions);
      ServeKeepsSnapshotsExact(y, xs[0].request, xs[0].conditions);
      RunKeepsSnapshotsExact(AfterExchange(y, xs[0]), xs[1..]);
    }
  }

  // ----- repeated requests

  /** The request asks for the opposite of another one, about the same name. */
  predicate Undoes(r: Request, q: Request) {
    match q
    case CreateVolumeRequest(name, _, _) => r == DeleteVolumeRequest(name)
    case DeleteVolumeRequest(id) => r.CreateVolumeRequest? && r.name == id
    case CreateSnapshotRequest(name, _) => r == DeleteSnapshotRequest(name)
    case DeleteSnapshotRequest(id) => r.CreateSnapshotRequest? && r.name == id
  }

  predicate NothingUndoes(xs: seq<Exchange>, q: Request) {
    forall x | x in xs :: !Undoes(x.request, q)
  }

  /** What the controller remembers of a successful request other than CreateVolume. */
  ghost predicate Remembers(y: System, q: Request, answer: Response) {
    match q
    case CreateVolumeRequest(_, _, _) => false
    case DeleteVolumeRequest(id) => id != "" && id !in y.storage && answer == Success(0)
    case CreateSnapshotRequest(name, source) =>
      name != "" && source != "" && name in y.snapshots && answer == Success(y.snapshots[name].size)
    case DeleteSnapshotRequest(id) => id !in y.snapshots && answer == Success(0)
  }

  lemma {:induction false} RunKeepsMemory(y: System, q: Request, answer: Response, xs: seq<Exchange>)
    requires Remembers(y, q, answer) && NothingUndoes(xs, q)
    ensures Remembers(RunAll(y, xs), q, answer)
    decreases |xs|
  {
    if xs != [] {
      assert !Undoes(xs[0].request, q);
      RunKeepsMemory(AfterExchange(y, xs[0]), q, answer, xs[1..]);
    }
  }

  /**
    Repeating a successful request other than CreateVolume gives the same answer and changes
    nothing, at once or after any other requests that do not undo it, whatever fails or gets lost.
   */
  lemma {:induction false} RepeatedRequestsAreNoOps(
    y: System, q: Request, w: Conditions, xs: seq<Exchange>, w': Conditions)
    requires !q.CreateVolumeRequest? && Serve(y, q, w).response.Success? && NothingUndoes(xs, q)
    ensures var later := RunAll(Serve(y, q, w).system, xs);
            Serve(later, q, w') == Outcome(later, Serve(y, q, w).response)
  {
    RunKeepsMemory(Serve(y, q, w).system, q, Serve(y, q, w).response, xs);
  }

  lemma DropsOnlyItsVolume(s: State, c: Call, f: Faults, v: string)
    requires ExactBooks(s) && v in s.active && c != DropVolume(v)
    ensures v in Step(s, c, f).state.active
  {
    match c
    case NewVolume(_, _) =>
    case NewSnapshot(_, _) =>
    case DropVolume(id) => DeleteVolumeKeepsNamed(s, id, f);
    case DropSnapshot(id, source) => DeleteSnapshotKeepsNamed(s, id, source, f);
  }

  /** A volume lives until a request deletes it. */
  lemma {:induction false} VolumeLivesOn(y: System, v: string, xs: seq<Exchange>)
    requires Agree(y) && ServerStaysSmall(y, xs) && ProperRequests(y, xs) && v in y.server.active
    requires forall x | x in xs :: x.request != DeleteVolumeRequest(v)
    ensures Agree(RunAll(y, xs)) && v in RunAll(y, xs).server.active
    decreases |xs|
  {
    if xs != [] {
      var q, w := xs[0].request, xs[0].conditions;
      assert q != DeleteVolumeRequest(v);
      ServeKeepsAgreement(y, q, w);
      ServerMakesStep(y, q, w, ServerResult(y, q, w));
      if Reaches(y, q, w) {
        DropsOnlyItsVolume(y.server, CallOf(y, q), w.world, v);
      }
      VolumeLivesOn(AfterExchange(y, xs[0]), v, xs[1..]);
    }
  }

  /**
    CreateVolume is not idempotent: after it has succeeded, every repetition fails and records
    nothing, at once or later, until the volume is deleted.
   */
  lemma {:induction false} RepeatedCreateVolumeFails(
    y: System, q: Request, w: Conditions, xs: seq<Exchange>, w': Conditions)
    requires Agree(y) && ProperExchange(y, Exchange(q, w)) && |y.server.images| <= MAX_INT32
    requires q.CreateVolumeRequest? && Serve(y, q, w).response.Success? && NothingUndoes(xs, q)
    requires ServerStaysSmall(Serve(y, q, w).system, xs) && ProperRequests(Serve(y, q, w).system, xs)
    ensures var later := RunAll(Serve(y, q, w).system, xs);
            var again := Serve(later, q, w');
            && again.response == Internal
            && again.system.server.images == later.server.images
            && again.system.server.active == later.server.active
            && again.system.storage == later.storage && again.system.snapshots == later.snapshots
            && again.system.exports == later.exports
  {
    var first := Serve(y, q, w).system;
    ServeKeepsAgreement(y, q, w);
    assert q.capacity.Some? && q.name in first.server.active;
    forall x | x in xs
      ensures x.request != DeleteVolumeRequest(q.name)
    {
      assert !Undoes(x.request, q);
    }
    VolumeLivesOn(first, q.name, xs);
    var later := RunAll(first, xs);
    LiveBasesNamed(later.server);
    RecordedIdRejected(later, q.name, q.capacity.value, q.content, w');
  }

  // ----- what a retry writes over

  /** The request reaches the server and writes a fresh overlay over the file of a recorded image. */
  ghost predicate Wipes(y: System, q: Request, w: Conditions, z: string) {
    && Reaches(y, q, w) && z in y.server.images
    && Target(y.server, CallOf(y, q), w.world) == Some(y.server.images[z].file)
  }

  /** What the wiped image held of its own is gone, while no record changes and the request fails. */
  lemma WipedReadsBelow(y: System, q: Request, w: Conditions, z: string)
    requires Agree(y) && ProperRequest(y, q) && |y.server.images| <= MAX_INT32 && Wipes(y, q, w, z)
    ensures var after := Serve(y, q, w);
            && after.response == Internal && after.system.server.images == y.server.images
            && forall o: nat :: View(after.system.server, z, o) == ViewBelow(y.server, z, o)
  {
    var s, c, f := y.server, CallOf(y, q), w.world;
    RequestsAreProperCalls(y, q);
    assert s.images[z].file in FileNames(s.images);
    OverwritingIsANameClash(s, c, f);
    ServerMakesStep(y, q, w, ServerResult(y, q, w));
    forall o: nat
      ensures Step(s, c, f).state.images == s.images && View(Step(s, c, f).state, z, o) == ViewBelow(s, z, o)
    {
      OverwrittenReadsBelow(s, c, f, z, o);
    }
  }

  /** Asking again for a live volume as a clone wipes the volume's own image unless something refuses before. */
  lemma RepeatedCloneWipes(y: System, v: string, capacity: Option<int>, content: ContentSource, w: Conditions)
    requires Agree(y) && v in y.server.active
    ensures var q := CreateVolumeRequest(v, capacity, content);
            Wipes(y, q, w, v) <==>
            && Reaches(y, q, w) && ContentId(content) in y.server.images
            && !w.world.mkdir && !w.world.qemuImg
  {
    assert LiveVolume(y.server, v) && Identified(y.server.images, v);
  }

  /**
    Asking again for a snapshot whose answer was lost wipes its image, which its volume writes to by
    then, unless something refuses before.
   */
  lemma RetriedSnapshotWipes(y: System, id: string, v: string, w: Conditions)
    requires Agree(y) && id in y.server.images && IsSnapshotOf(y.server.images[id], v)
    requires v in y.server.active && y.server.active[v] in y.server.images
    ensures var q := CreateSnapshotRequest(id, v);
            Wipes(y, q, w, id) <==> Reaches(y, q, w) && !w.world.stat && !w.world.qemuImg
  {
    assert Identified(y.server.images, id);
  }

  // ----- what a failed deletion loses

  /** The controller knows a snapshot the server has no image of any more. */
  ghost predicate LostSnapshot(y: System, id: string) {
    id in y.snapshots && id !in y.server.images
  }

  lemma LostSnapshotWith(y: System, id: string, w: Conditions, r: Result)
    requires id in y.snapshots && id in y.server.images
    ensures LostSnapshot(ServeWith(y, DeleteSnapshotRequest(id), w, r).system, id) <==>
            Reaches(y, DeleteSnapshotRequest(id), w) && id !in r.state.images && !Answered(w.call, r.reply)
  {
  }

  /**
    The deletion of a recorded snapshot loses it exactly when the server removes its image at once
    and the answer is lost, or is an error because an image of the clean-up's run is refused.
   */
  lemma DeletionLosesSnapshot(y: System, id: string, w: Conditions)
    requires Agree(y) && id in y.snapshots && id in y.server.images
    ensures var s, source := y.server, y.snapshots[id].source;
            && (RemovesSnapshot(s, id, source, w.world) ==> Consistent(Deleted(s, id)))
            && (LostSnapshot(Serve(y, DeleteSnapshotRequest(id), w).system, id) <==>
                && Reaches(y, DeleteSnapshotRequest(id), w) && RemovesSnapshot(s, id, source, w.world)
                && (w.call == ReplyLost ||
                    CleanUpBlocked(Deleted(s, id).images, s.images[id].backing, w.world)))
  {
    LostSnapshotWith(y, id, w, ServerResult(y, DeleteSnapshotRequest(id), w));
    SnapshotRemovedExactly(y.server, id, y.snapshots[id].source, w.world);
    if RemovesSnapshot(y.server, id, y.snapshots[id].source, w.world) {
      RemovalFailsExactly(y.server, id, y.snapshots[id].source, w.world);
    }
  }

  lemma NamedSnapshotStays(s: State, c: Call, f: Faults, id: string)
    requires SoundLayers(s) && Admissible(s, c) && Proper(s, c)
    requires id in NamedSnapshots(s.images) && (c.DropSnapshot? ==> c.id != id)
    ensures id in NamedSnapshots(Step(s, c, f).state.images)
  {
    SnapshotsAfterStep(s, c, f);
    if c.DropSnapshot? {
      assert id in NamedSnapshots(s.images) - {c.id};
    }
  }

  lemma KnownStaysNamed(y: System, q: Request, w: Conditions, r: Result, id: string)
    requires id in y.snapshots && q != DeleteSnapshotRequest(id)
    requires id in NamedSnapshots(y.server.images) && id in NamedSnapshots(r.state.images)
    ensures var z := ServeWith(y, q, w, r).system;
            id in z.snapshots && id in NamedSnapshots(z.server.images)
  {
    ServerMakesStep(y, q, w, r);
  }

  /** A named snapshot the controller knows is lost by no other request. */
  lemma OnlyItsDeletionLosesSnapshot(y: System, x: Exchange, id: string)
    requires Agree(y) && ProperRequest(y, x.request) && |y.server.images| <= MAX_INT32
    requires id in y.snapshots && id in NamedSnapshots(y.server.images)
    requires x.request != DeleteSnapshotRequest(id)
    ensures id in AfterExchange(y, x).snapshots && id in NamedSnapshots(AfterExchange(y, x).server.images)
  {
    var q, w := x.request, x.conditions;
    if Reaches(y, q, w) {
      RequestsAreProperCalls(y, q);
      NamedSnapshotStays(y.server, CallOf(y, q), w.world, id);
      KnownStaysNamed(y, q, w, ServerResult(y, q, w), id);
    } else {
      UnreachedChangesLittle(y, q, w, ServerResult(y, q, w));
    }
  }

  lemma {:induction false} CleanUpAddsNothing(s: State, x: string, f: Faults)
    ensures CleanUp(s, x, f).state.images.Keys <= s.images.Keys
    ensures CleanUp(s, x, f).state.active == s.active
    decreases |s.images|
  {
    if x in s.images && s.images[x].refCount <= 0 && s.images[x].volumeRef == "" {
      var r := DeleteImage(s, x, f);
      if r.reply == Ok && s.images[x].backing != "" {
        assert r.state.images.Keys == s.images.Keys - {x};
        CleanUpAddsNothing(r.state, s.images[x].backing, f);
      }
    }
  }

  lemma DropVolumeAddsNothing(s: State, id: string, f: Faults)
    ensures Step(s, DropVolume(id), f).state.images.Keys <= s.images.Keys
    ensures Step(s, DropVolume(id), f).state.active.Keys <= s.active.Keys
  {
    if id in s.images {
      var r, rest := DeleteImage(s, id, f), s.active - {id};
      CleanUpAddsNothing(r.state.(active := r.state.active - {id}), s.images[id].backing, f);
      CleanUpAddsNothing(State(Unname(s.images, id), rest, s.daemon), s.images[id].backing, f);
    }
  }

  lemma DropSnapshotAddsNothing(s: State, id: string, source: string, f: Faults)
    ensures Step(s, DropSnapshot(id, source), f).state.images.Keys <= s.images.Keys
    ensures Step(s, DropSnapshot(id, source), f).state.active == s.active
  {
    if id in s.images {
      CleanUpAddsNothing(DeleteImage(s, id, f).state, s.images[id].backing, f);
      CleanUpAddsNothing(s.(images := Unname(s.images, id)), s.images[id].backing, f);
    }
  }

  /** In any state at all, a call records no image but the one it creates, and starts no volume but that. */
  lemma StepAddsOnlyItsName(s: State, c: Call, f: Faults)
    ensures Step(s, c, f).state.images.Keys <= s.images.Keys + (if c.NewVolume? || c.NewSnapshot? then {c.id} else {})
    ensures Step(s, c, f).state.active.Keys <= s.active.Keys + (if c.NewVolume? then {c.id} else {})
  {
    match c
    case NewVolume(_, _) =>
    case NewSnapshot(_, _) =>
    case DropVolume(id) => DropVolumeAddsNothing(s, id, f);
    case DropSnapshot(id, source) => DropSnapshotAddsNothing(s, id, source, f);
  }

  predicate CreatesVolume(q: Request, id: string) {
    q.CreateVolumeRequest? && q.name == id
  }

  lemma LostStaysLost(y: System, q: Request, w: Conditions, r: Result, id: string)
    requires LostSnapshot(y, id) && !CreatesVolume(q, id)
    requires var c := CallOf(y, q);
             r.state.images.Keys <= y.server.images.Keys + (if c.NewVolume? || c.NewSnapshot? then {c.id} else {})
    requires q == DeleteSnapshotRequest(id) ==> r.reply != Ok
    ensures LostSnapshot(ServeWith(y, q, w, r).system, id)
  {
    if Reaches(y, q, w) {
      ServerMakesStep(y, q, w, r);
    } else {
      UnreachedChangesLittle(y, q, w, r);
    }
  }

  /**
    A lost snapshot is lost for good: whatever fails and whatever is requested, short of a volume of
    the same name, the controller keeps it and fails to delete it.
   */
  lemma {:induction false} LostSnapshotStaysKnown(y: System, xs: seq<Exchange>, id: string)
    requires LostSnapshot(y, id) && forall x | x in xs :: !CreatesVolume(x.request, id)
    ensures LostSnapshot(RunAll(y, xs), id)
    ensures forall w :: Serve(RunAll(y, xs), DeleteSnapshotRequest(id), w) == Outcome(RunAll(y, xs), Internal)
    decreases |xs|
  {
    if xs != [] {
      var q, w := xs[0].request, xs[0].conditions;
      assert !CreatesVolume(q, id);
      StepAddsOnlyItsName(y.server, CallOf(y, q), w.world);
      LostStaysLost(y, q, w, ServerResult(y, q, w), id);
      LostSnapshotStaysKnown(AfterExchange(y, xs[0]), xs[1..], id);
    }
  }

  /** The controller knows a volume that is not live on the server any more. */
  ghost predicate LostVolume(y: System, id: string) {
    id in y.storage && y.storage[id].id == id && id !in y.server.active
  }

  lemma LostWith(y: System, id: string, w: Conditions, r: Result)
    requires id in y.storage && y.storage[id].id == id && id in y.server.active && id != ""
    ensures LostVolume(ServeWith(y, DeleteVolumeRequest(id), w, r).system, id) <==>
            Reaches(y, DeleteVolumeRequest(id), w) && id !in r.state.active && !Answered(w.call, r.reply)
  {
  }

  /**
    The deletion of a live volume loses it exactly when it ends the volume and the answer is lost, or
    is an error because the directory or an image of the clean-up's run cannot be removed.
   */
  lemma DeletionLosesVolume(y: System, id: string, w: Conditions)
    requires Agree(y) && id in y.server.active
    ensures id in y.server.images && Consistent(BeforeCleanUp(y.server, DropVolume(id)))
    ensures var s, c := y.server, DropVolume(id);
            LostVolume(Serve(y, DeleteVolumeRequest(id), w).system, id) <==>
            && Reaches(y, DeleteVolumeRequest(id), w) && TakesEffect(s, c, w.world)
            && (w.call == ReplyLost || w.world.rmdir ||
                CleanUpBlocked(BeforeCleanUp(s, c).images, s.images[id].backing, w.world))
  {
    LiveBasesNamed(y.server);
    LostWith(y, id, w, ServerResult(y, DeleteVolumeRequest(id), w));
    VolumeEndedExactly(y.server, id, w.world);
    BeforeCleanUpConsistent(y.server, DropVolume(id));
    if TakesEffect(y.server, DropVolume(id), w.world) {
      EndingFailsExactly(y.server, id, w.world);
    }
  }

  /** The request fails, and changes at most the exports. */
  ghost predicate FailsIdly(y: System, q: Request, w: Conditions) {
    var z := Serve(y, q, w);
    && z.response == Internal
    && z.system.storage == y.storage && z.system.snapshots == y.snapshots && z.system.server == y.server
  }

  lemma LostVolumeNotDeleted(y: System, id: string, w: Conditions)
    requires LostVolume(y, id) && id != ""
    ensures FailsIdly(y, DeleteVolumeRequest(id), w)
  {
  }

  lemma EndedStaysEnded(y: System, q: Request, w: Conditions, r: Result, id: string)
    requires LostVolume(y, id) && id !in r.state.active && q != DeleteVolumeRequest(id)
    ensures LostVolume(ServeWith(y, q, w, r).system, id)
  {
    ServerMakesStep(y, q, w, r);
  }

  lemma VolumeStaysLost(y: System, x: Exchange, id: string)
    requires LostVolume(y, id) && id != "" && !CreatesVolume(x.request, id)
    ensures LostVolume(AfterExchange(y, x), id)
  {
    var q, w := x.request, x.conditions;
    if q == DeleteVolumeRequest(id) {
      LostVolumeNotDeleted(y, id, w);
    } else {
      StepAddsOnlyItsName(y.server, CallOf(y, q), w.world);
      EndedStaysEnded(y, q, w, ServerResult(y, q, w), id);
    }
  }

  /** A lost volume stays lost, and no deletion of it succeeds, until it is created again, whatever fails. */
  lemma {:induction false} LostVolumeStaysKnown(y: System, xs: seq<Exchange>, id: string)
    requires LostVolume(y, id) && id != "" && forall x | x in xs :: !CreatesVolume(x.request, id)
    ensures LostVolume(RunAll(y, xs), id)
    ensures forall w :: FailsIdly(RunAll(y, xs), DeleteVolumeRequest(id), w)
    decreases |xs|
  {
    if xs == [] {
      forall w
        ensures FailsIdly(y, DeleteVolumeRequest(id), w)
      {
        LostVolumeNotDeleted(y, id, w);
      }
    } else {
      assert !CreatesVolume(xs[0].request, id);
      VolumeStaysLost(y, xs[0], id);
      LostVolumeStaysKnown(AfterExchange(y, xs[0]), xs[1..], id);
    }
  }

  // ----- volumes without their active layer

  /** The volume is live, and the layer it writes to is gone. */
  ghost predicate StrandedVolume(y: System, v: string) {
    v in y.storage && v in y.server.active && y.server.active[v] !in y.server.images
  }

  lemma NewVolumeMovesNoStranded(s: State, id: string, source: string, f: Faults, v: string)
    requires SoundLayers(s) && Admissible(s, NewVolume(id, source)) && v in s.active
    ensures var s' := Step(s, NewVolume(id, source), f).state;
            v in s'.active && s'.active[v] == s.active[v]
  {
    LiveBasesNamed(s);
    CreateVolumeKeeps(s, id, source, f);
  }

  lemma NewSnapshotMovesNoStranded(s: State, id: string, source: string, f: Faults, v: string)
    requires v in s.active && s.active[v] !in s.images
    ensures var s' := Step(s, NewSnapshot(id, source), f).state;
            v in s'.active && s'.active[v] == s.active[v]
  {
  }

  lemma DeletionMovesNoStranded(s: State, c: Call, f: Faults, v: string)
    requires SoundLayers(s) && (c.DropVolume? || c.DropSnapshot?)
    requires v in s.active && s.active[v] !in s.images
    ensures v in Step(s, c, f).state.active && Step(s, c, f).state.active[v] == s.active[v]
    ensures c == DropVolume(v) ==> Step(s, c, f).reply != Ok
  {
    match c
    case DropVolume(id) => DeleteVolumeKeepsNamed(s, id, f);
    case DropSnapshot(id, source) => DeleteSnapshotKeepsNamed(s, id, source, f);
  }

  lemma NothingMovesStranded(s: State, c: Call, f: Faults, v: string)
    requires SoundLayers(s) && Admissible(s, c) && Proper(s, c)
    requires v in s.active && s.active[v] !in s.images
    ensures v in Step(s, c, f).state.active && Step(s, c, f).state.active[v] == s.active[v]
    ensures s.active[v] !in Step(s, c, f).state.images
    ensures c == DropVolume(v) ==> Step(s, c, f).reply != Ok
  {
    StepAddsOnlyItsName(s, c, f);
    match c
    case NewVolume(id, source) => NewVolumeMovesNoStranded(s, id, source, f, v);
    case NewSnapshot(id, source) => NewSnapshotMovesNoStranded(s, id, source, f, v);
    case DropVolume(_) => DeletionMovesNoStranded(s, c, f, v);
    case DropSnapshot(_, _) => DeletionMovesNoStranded(s, c, f, v);
  }

  lemma StrandedWith(y: System, q: Request, w: Conditions, r: Result, v: string)
    requires StrandedVolume(y, v) && y.storage[v].id == v
    requires v in r.state.active && r.state.active[v] !in r.state.images
    requires q == DeleteVolumeRequest(v) ==> r.reply != Ok
    ensures StrandedVolume(ServeWith(y, q, w, r).system, v)
  {
    ServerMakesStep(y, q, w, r);
  }

  lemma StaysStranded(y: System, x: Exchange, v: string)
    requires Agree(y) && ProperRequest(y, x.request) && |y.server.images| <= MAX_INT32 && StrandedVolume(y, v)
    ensures StrandedVolume(AfterExchange(y, x), v)
  {
    var q, w := x.request, x.conditions;
    if Reaches(y, q, w) {
      RequestsAreProperCalls(y, q);
      NothingMovesStranded(y.server, CallOf(y, q), w.world, v);
      StrandedWith(y, q, w, ServerResult(y, q, w), v);
    } else {
      UnreachedChangesLittle(y, q, w, ServerResult(y, q, w));
    }
  }

  /** The volume can neither be deleted nor have a snapshot taken. */
  ghost predicate Stuck(y: System, v: string, w: Conditions) {
    && FailsIdly(y, DeleteVolumeRequest(v), w)
    && forall name | name != "" && name !in y.snapshots :: FailsIdly(y, CreateSnapshotRequest(name, v), w)
  }

  lemma StrandedIsStuck(y: System, v: string, w: Conditions)
    requires Agree(y) && StrandedVolume(y, v)
    ensures Stuck(y, v, w)
  {
    LiveBasesNamed(y.server);
  }

  /**
    A volume whose active layer is gone stays so for good: whatever proper requests follow, it
    is live, and can neither be deleted nor have a snapshot taken.
   */
  lemma {:induction false} StrandedForGood(y: System, xs: seq<Exchange>, v: string)
    requires Agree(y) && ServerStaysSmall(y, xs) && ProperRequests(y, xs) && StrandedVolume(y, v)
    ensures StrandedVolume(RunAll(y, xs), v)
    ensures forall w :: Stuck(RunAll(y, xs), v, w)
    decreases |xs|
  {
    if xs == [] {
      forall w
        ensures Stuck(y, v, w)
      {
        StrandedIsStuck(y, v, w);
      }
    } else {
      StaysStranded(y, xs[0], v);
      ServeKeepsAgreement(y, xs[0].request, xs[0].conditions);
      StrandedForGood(AfterExchange(y, xs[0]), xs[1..], v);
    }
  }

  // ----- volumes without their exporter

  /** The volume is live, and the daemon has no export for it. */
  ghost predicate Unexported(y: System, v: string) {
    && v in y.server.active && v in y.server.images
    && y.server.images[v].qsdId !in y.exports
  }

  /**
    A deletion that gets past the exporter and not past the image strands a volume without its
    exporter; and so does one whose answer about the exporter is lost or an error.
   */
  lemma DeletionUnexports(y: System, v: string, w: Conditions)
    requires Agree(y) && v in y.server.active && !Unexported(y, v)
    ensures var q := DeleteVolumeRequest(v);
            Unexported(Serve(y, q, w).system, v) <==>
            && !w.dial && w.exporter != RequestLost && !w.world.vhost
            && !(Reaches(y, q, w) && TakesEffect(y.server, DropVolume(v), w.world))
  {
    LiveBasesNamed(y.server);
    VolumeEndedExactly(y.server, v, w.world);
    DeletionThenCleanUp(y.server, DropVolume(v), w.world);
  }

  /** The node names of the live volumes. */
  ghost function LiveNodes(active: map<string, string>): set<string> {
    set v | v in active && QsdIdDefined(v) :: GenerateQsdId(v)
  }

  /** A new volume's node name is not exported yet. */
  lemma NewNodeUnexported(y: System, name: string, source: string, f: Faults)
    requires Agree(y) && y.exports <= LiveNodes(y.server.active) && Admissible(y.server, NewVolume(name, source))
    requires Step(y.server, NewVolume(name, source), f).reply == Ok
    ensures var s' := Step(y.server, NewVolume(name, source), f).state;
            && name in s'.active && name in s'.images
            && s'.images[name].qsdId !in y.exports && s'.images[name].qsdId in s'.daemon.nodes
  {
    var s := y.server;
    CreateVolumeKeeps(s, name, source, f);
    CreateVolumeSucceeds(s, name, source, f);
    LiveBasesNamed(s);
    forall v | v in s.active && QsdIdDefined(v)
      ensures GenerateQsdId(v) != GenerateQsdId(name)
    {
      assert Identified(s.images, v) && Backed(s.images, s.daemon, v);
    }
    var s' := Step(s, NewVolume(name, source), f).state;
    assert Identified(s'.images, name) && Backed(s'.images, s'.daemon, name);
  }

  lemma CreatedWith(y: System, q: Request, w: Conditions, r: Result)
    requires q.CreateVolumeRequest? && q.name !in y.server.active
    requires r.reply != Ok ==> r.state.active == y.server.active
    requires r.reply == Ok ==> q.name in r.state.active && q.name in r.state.images
                               && r.state.images[q.name].qsdId !in y.exports
                               && r.state.images[q.name].qsdId in r.state.daemon.nodes
    ensures Unexported(ServeWith(y, q, w, r).system, q.name) <==>
            && Reaches(y, q, w) && r.reply == Ok
            && (w.call == ReplyLost || w.exporter == RequestLost || w.world.socket || w.world.vhost)
  {
  }

  /**
    A creation leaves a volume without an exporter exactly when the volume is made and the call about
    the exporter is not made, does not arrive, or is refused.
   */
  lemma CreationUnexports(y: System, q: Request, w: Conditions)
    requires Agree(y) && ProperRequest(y, q) && |y.server.images| <= MAX_INT32
    requires y.exports <= LiveNodes(y.server.active)
    requires q.CreateVolumeRequest? && q.name !in y.server.active
    ensures Unexported(Serve(y, q, w).system, q.name) <==>
            && Reaches(y, q, w) && ServerResult(y, q, w).reply == Ok
            && (w.call == ReplyLost || w.exporter == RequestLost || w.world.socket || w.world.vhost)
  {
    var r := ServerResult(y, q, w);
    ServerMakesStep(y, q, w, r);
    if Reaches(y, q, w) {
      RequestsAreProperCalls(y, q);
      if r.reply == Ok {
        NewNodeUnexported(y, q.name, ContentId(q.content), w.world);
      }
      CreatedWith(y, q, w, r);
    }
  }

  lemma DropKeepsNodeName(s: State, c: Call, f: Faults, v: string)
    requires SoundLayers(s) && Admissible(s, c) && Proper(s, c) && v in s.active
    requires Step(s, c, f).reply != Failed(FileNotRemoved) && v in Step(s, c, f).state.active
    ensures v in s.images && v in Step(s, c, f).state.images
    ensures Step(s, c, f).state.images[v].qsdId == s.images[v].qsdId
  {
    LiveBasesNamed(s);
    StepKeepsLayers(s, c, f);
    LiveBasesNamed(Step(s, c, f).state);
    StepKeepsBooks(s, c, f);
  }

  /** A creation that succeeds has a node name no live volume has. */
  lemma CreatedNodeIsNew(s: State, c: Call, f: Faults, v: string)
    requires SoundLayers(s) && Admissible(s, c) && c.NewVolume? && Step(s, c, f).reply == Ok && v in s.images
    ensures c.id != v && c.id in Step(s, c, f).state.images
    ensures Step(s, c, f).state.images[c.id].qsdId != s.images[v].qsdId
  {
    CreateVolumeKeeps(s, c.id, c.source, f);
    CreateVolumeSucceeds(s, c.id, c.source, f);
    assert Backed(s.images, s.daemon, v);
  }

  lemma ExportsAfter(y: System, q: Request, w: Conditions, r: Result)
    ensures var z := ServeWith(y, q, w, r).system;
            z.exports <= y.exports +
            (if q.CreateVolumeRequest? && Reaches(y, q, w) && r.reply == Ok && q.name in r.state.images
             then {r.state.images[q.name].qsdId} else {})
  {
  }

  lemma StaysUnexported(y: System, x: Exchange, v: string)
    requires Agree(y) && ProperExchange(y, x) && |y.server.images| <= MAX_INT32 && Unexported(y, v)
    ensures Unexported(AfterExchange(y, x), v)
  {
    var q, w := x.request, x.conditions;
    var r := ServerResult(y, q, w);
    ExportsAfter(y, q, w, r);
    ServerMakesStep(y, q, w, r);
    if Reaches(y, q, w) {
      RequestsAreProperCalls(y, q);
      DropsOnlyItsVolume(y.server, CallOf(y, q), w.world, v);
      DropKeepsNodeName(y.server, CallOf(y, q), w.world, v);
      if q.CreateVolumeRequest? && r.reply == Ok {
        CreatedNodeIsNew(y.server, CallOf(y, q), w.world, v);
      }
    }
  }

  lemma UnexportedFails(y: System, v: string, w: Conditions)
    requires Agree(y) && Unexported(y, v)
    ensures Serve(y, DeleteVolumeRequest(v), w) == Outcome(y, Internal)
  {
    LiveBasesNamed(y.server);
  }

  /** A live volume without its exporter can never be deleted, whatever proper requests follow. */
  lemma {:induction false} UnexportedForGood(y: System, xs: seq<Exchange>, v: string)
    requires Agree(y) && ServerStaysSmall(y, xs) && ProperRequests(y, xs) && Unexported(y, v)
    ensures Unexported(RunAll(y, xs), v)
    ensures forall w :: Serve(RunAll(y, xs), DeleteVolumeRequest(v), w) == Outcome(RunAll(y, xs), Internal)
    decreases |xs|
  {
    if xs == [] {
      forall w
        ensures Serve(y, DeleteVolumeRequest(v), w) == Outcome(y, Internal)
      {
        UnexportedFails(y, v, w);
      }
    } else {
      StaysUnexported(y, xs[0], v);
      ServeKeepsAgreement(y, xs[0].request, xs[0].conditions);
      UnexportedForGood(AfterExchange(y, xs[0]), xs[1..], v);
    }
  }

  // ----- everything comes back

  /** Both layers agree exactly, nothing is leaked, and the daemon has what the records and volumes speak of. */
  ghost predicate Reclaimable(y: System) {
    && Agree(y) && ExactSnapshots(y)
    && NamedVolumesLive(y.server)
    && LeaksAtMost(y.server, {}) && Tight(y.server)
    && y.exports <= LiveNodes(y.server.active)
  }

  /**
    If the request reaches the server, nothing is leaked and a creation that fails leaves nothing at
    the daemon; and no snapshot is made or dropped behind the controller's back.
   */
  ghost predicate Tidy(y: System, x: Exchange)
    requires Consistent(y.server)
  {
    var e := Event(CallOf(y, x.request), x.conditions.world);
    CleanUpDefined(y.server, e.call);
    && (Reaches(y, x.request, x.conditions) ==>
          LeavesNothing(y.server, e) && NewLeaks(y.server, e.call, e.faults) == {})
    && !Diverges(y, x.request, x.conditions)
  }

  ghost predicate TidyRun(y: System, xs: seq<Exchange>)
    decreases |xs|
  {
    xs == [] || (Consistent(y.server) && Tidy(y, xs[0]) && TidyRun(AfterExchange(y, xs[0]), xs[1..]))
  }

  lemma StartReclaimable()
    ensures Reclaimable(START)
  {
    StartAgrees();
  }

  lemma TidyStep(s: State, e: Event)
    requires SoundLayers(s) && NamedVolumesLive(s) && LeaksAtMost(s, {}) && Tight(s)
    requires Admissible(s, e.call) && Proper(s, e.call)
    requires Step(s, e.call, e.faults).reply != Failed(FileNotRemoved) && LeavesNothing(s, e)
    requires e.call.id in s.images ==> Consistent(BeforeCleanUp(s, e.call))
    requires NewLeaks(s, e.call, e.faults) == {}
    ensures NamedVolumesLive(After(s, e)) && LeaksAtMost(After(s, e), {}) && Tight(After(s, e))
  {
    StepKeepsLayers(s, e.call, e.faults);
    StepKeepsNamedVolumesLive(s, e.call, e.faults);
    StepLeaks(s, e.call, e.faults);
    StepKeepsTight(s, e);
  }

  lemma LiveNodesGrow(s: State, c: Call, f: Faults)
    requires ExactBooks(s) && !c.DropVolume?
    ensures LiveNodes(s.active) <= LiveNodes(Step(s, c, f).state.active)
  {
    forall v | v in s.active
      ensures v in Step(s, c, f).state.active
    {
      DropsOnlyItsVolume(s, c, f, v);
    }
  }

  lemma LiveNodesWithout(active: map<string, string>, v: string, q: string)
    requires QsdIdDefined(v) && GenerateQsdId(v) == q
    ensures LiveNodes(active) - {q} <= LiveNodes(active - {v})
  {
    forall e | e in LiveNodes(active) - {q}
      ensures e in LiveNodes(active - {v})
    {
      var u :| u in active && QsdIdDefined(u) && GenerateQsdId(u) == e;
      assert u in active - {v};
    }
  }

  lemma CreatedIsLive(s: State, c: Call, f: Faults)
    requires SoundLayers(s) && Admissible(s, c) && c.NewVolume? && Step(s, c, f).reply == Ok
    ensures c.id in Step(s, c, f).state.images
    ensures Step(s, c, f).state.images[c.id].qsdId in LiveNodes(Step(s, c, f).state.active)
  {
    CreateVolumeKeeps(s, c.id, c.source, f);
    assert Identified(Step(s, c, f).state.images, c.id);
  }

  lemma DeletedVolumeUnexported(y: System, id: string, w: Conditions)
    requires Agree(y) && y.exports <= LiveNodes(y.server.active)
    ensures var z := Serve(y, DeleteVolumeRequest(id), w).system;
            z.exports <= LiveNodes(z.server.active)
  {
    var q := DeleteVolumeRequest(id);
    var r := ServerResult(y, q, w);
    ServerMakesStep(y, q, w, r);
    if Reaches(y, q, w) {
      var s := y.server;
      assert Identified(s.images, id);
      DeleteVolumeKeepsNamed(s, id, w.world);
      LiveNodesWithout(s.active, id, s.images[id].qsdId);
    } else {
      UnreachedChangesLittle(y, q, w, r);
    }
  }

  /** Every export is one of a live volume, whatever fails or gets lost. */
  lemma ServeKeepsExportsLive(y: System, q: Request, w: Conditions)
    requires Agree(y) && ProperRequest(y, q) && |y.server.images| <= MAX_INT32
    requires y.exports <= LiveNodes(y.server.active)
    ensures var z := Serve(y, q, w).system;
            z.exports <= LiveNodes(z.server.active)
  {
    var r := ServerResult(y, q, w);
    if q.DeleteVolumeRequest? {
      DeletedVolumeUnexported(y, q.volumeId, w);
    } else if Reaches(y, q, w) {
      RequestsAreProperCalls(y, q);
      ExportsAfter(y, q, w, r);
      ServerMakesStep(y, q, w, r);
      LiveNodesGrow(y.server, CallOf(y, q), w.world);
      if q.CreateVolumeRequest? && r.reply == Ok {
        CreatedIsLive(y.server, CallOf(y, q), w.world);
      }
    } else {
      UnreachedChangesLittle(y, q, w, r);
    }
  }

  lemma TidyExchange(y: System, x: Exchange)
    requires Reclaimable(y) && ProperExchange(y, x) && |y.server.images| <= MAX_INT32 && Tidy(y, x)
    ensures Reclaimable(AfterExchange(y, x))
  {
    var q, w := x.request, x.conditions;
    ServeKeepsAgreement(y, q, w);
    ServeKeepsSnapshotsExact(y, q, w);
    ServeKeepsExportsLive(y, q, w);
    ServerMakesStep(y, q, w, ServerResult(y, q, w));
    if Reaches(y, q, w) {
      RequestsAreProperCalls(y, q);
      CleanUpDefined(y.server, CallOf(y, q));
      TidyStep(y.server, Event(CallOf(y, q), w.world));
    }
  }

  /** When the controller knows no volume and no snapshot, nothing is left anywhere. */
  lemma ForgottenIsEmpty(y: System)
    requires Reclaimable(y) && y.storage == map[] && y.snapshots == map[]
    ensures y == START
  {
    var s := y.server;
    assert s.active == map[] by {
      assert s.active.Keys == {};
    }
    forall x | x in s.images
      ensures s.images[x].volumeRef == ""
    {
      assert x !in NamedSnapshots(s.images);
    }
    ReleasedStoreEmpty(s);
    assert s.daemon.nodes.Keys == {} && s.daemon.files.Keys == {};
    assert LiveNodes(s.active) == {};
  }

  lemma {:induction false} TidyRunKeepsReclaimable(y: System, xs: seq<Exchange>)
    requires Reclaimable(y) && ServerStaysSmall(y, xs) && ProperRequests(y, xs) && TidyRun(y, xs)
    ensures Reclaimable(RunAll(y, xs))
    decreases |xs|
  {
    if xs != [] {
      TidyExchange(y, xs[0]);
      TidyRunKeepsReclaimable(AfterExchange(y, xs[0]), xs[1..]);
    }
  }

  /**
    Everything comes back: after every tidy run from the start, if the controller knows no volume
    and no snapshot at its end, both layers, and the daemon's nodes, files and exports, are as they
    were at the start.
   */
  lemma EverythingComesBack(xs: seq<Exchange>)
    requires ServerStaysSmall(START, xs) && ProperRequests(START, xs) && TidyRun(START, xs)
    ensures RunAll(START, xs).storage == map[] && RunAll(START, xs).snapshots == map[] <==> RunAll(START, xs) == START
  {
    StartReclaimable();
    TidyRunKeepsReclaimable(START, xs);
    if RunAll(START, xs).storage == map[] && RunAll(START, xs).snapshots == map[] {
      ForgottenIsEmpty(RunAll(START, xs));
    }
  }
}
