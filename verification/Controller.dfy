/**
  The CSI controller over the server: its own maps of volumes and snapshots, the calls it makes,
  and what both layers agree on after one request, when calls fail or get lost.
 */
module Controller {
  import opened Options
  import opened Names
  import opened Forest
  import opened BlockGraph
  import opened Store
  import opened Consistency
  import opened Preservation
  import opened Books
  import opened Layers
  import opened Runs
  import opened Leaks
  import opened Effects

  datatype StoredVolume = StoredVolume(id: string, size: int)
  datatype StoredSnapshot = StoredSnapshot(baseId: string, source: string, size: int)

  /** The controller's maps, the server, and the node names that the daemon has exports for. */
  datatype System = System(
    storage: map<string, StoredVolume>,
    snapshots: map<string, StoredSnapshot>,
    server: State,
    exports: set<string>)

  const START := System(map[], map[], EMPTY, {})

  datatype ContentSource = NoContent | FromSnapshot(id: string) | FromVolume(id: string)

  datatype Request =
    | CreateVolumeRequest(name: string, capacity: Option<int>, content: ContentSource)
    | DeleteVolumeRequest(volumeId: string)
    | CreateSnapshotRequest(name: string, source: string)
    | DeleteSnapshotRequest(snapshotId: string)

  /** `Crashed` is a run-time panic of the controller. */
  datatype Response = Success(size: int) | InvalidArgument | Internal | Crashed

  /** A call to the server may arrive and be answered, not arrive, or arrive without its answer coming back. */
  datatype Delivery = Delivered | RequestLost | ReplyLost

  /** What happens outside the controller during one request; `exporter` is the call about the exporter. */
  datatype Conditions = Conditions(dial: bool, exporter: Delivery, call: Delivery, world: Faults)

  datatype Outcome = Outcome(system: System, response: Response)

  datatype ExportAnswer = ExportAnswer(exports: set<string>, reply: Reply)

  /** ExposeVhostUser: a new export of the node of the volume's own image. */
  function Expose(exports: set<string>, s: State, id: string, f: Faults): ExportAnswer {
    if id !in s.images then ExportAnswer(exports, Failed(ImageNotFound))
    else
      var q := s.images[id].qsdId;
      if f.socket || f.vhost || q in exports || q !in s.daemon.nodes then ExportAnswer(exports, Failed(BackendRefused))
      else ExportAnswer(exports + {q}, Ok)
  }

  /** DeleteExporter: the export goes first, then the directory of its socket. */
  function Unexpose(exports: set<string>, s: State, id: string, f: Faults): ExportAnswer {
    if id !in s.images then ExportAnswer(exports, Failed(ImageNotFound))
    else
      var q := s.images[id].qsdId;
      if f.vhost || q !in exports then ExportAnswer(exports, Failed(BackendRefused))
      else ExportAnswer(exports - {q}, if f.socket then Failed(DirectoryNotCleaned) else Ok)
  }

  function Exported(d: Delivery, exports: set<string>, a: ExportAnswer): set<string> {
    if d == RequestLost then exports else a.exports
  }

  ghost function Arrived(d: Delivery, s: State, r: Result): State {
    if d == RequestLost then s else r.state
  }

  predicate Answered(d: Delivery, r: Reply) {
    d == Delivered && r == Ok
  }

  predicate EmptyContent(c: ContentSource) {
    c != NoContent && c.id == ""
  }

  function ContentId(c: ContentSource): string {
    if c == NoContent then "" else c.id
  }

  // The handlers take the result the server call of the request would have; see Serve.

  ghost function CreateVolume(
    y: System, name: string, capacity: Option<int>, content: ContentSource, w: Conditions, r: Result): Outcome
  {
    if name == "" then Outcome(y, InvalidArgument)
    else if capacity == None then Outcome(y, Crashed)
    else if EmptyContent(content) then Outcome(y, InvalidArgument)
    else
      var size := capacity.value;
      var y1 := if name in y.storage then y else y.(storage := y.storage[name := StoredVolume(name, size)]);
      if w.dial then Outcome(y1, Internal)
      else
        var y2 := y1.(server := Arrived(w.call, y.server, r));
        if !Answered(w.call, r.reply) then Outcome(y2, Internal)
        else
          var e := Expose(y.exports, y2.server, name, w.world);
          var y3 := y2.(exports := Exported(w.exporter, y.exports, e));
          Outcome(y3, if Answered(w.exporter, e.reply) then Success(size) else Internal)
  }

  ghost function DeleteVolume(y: System, id: string, w: Conditions, r: Result): Outcome {
    if id == "" then Outcome(y, InvalidArgument)
    else if id !in y.storage then Outcome(y, Success(0))
    else if w.dial then Outcome(y, Internal)
    else
      var e := Unexpose(y.exports, y.server, y.storage[id].id, w.world);
      var y0 := y.(exports := Exported(w.exporter, y.exports, e));
      if !Answered(w.exporter, e.reply) then Outcome(y0, Internal)
      else
        var y1 := y0.(server := Arrived(w.call, y.server, r));
        if !Answered(w.call, r.reply) then Outcome(y1, Internal)
        else Outcome(y1.(storage := y.storage - {id}), Success(0))
  }

  ghost function CreateSnapshot(y: System, name: string, source: string, w: Conditions, r: Result): Outcome {
    if name == "" || source == "" then Outcome(y, InvalidArgument)
    else if name in y.snapshots then Outcome(y, Success(y.snapshots[name].size))
    else if source !in y.storage || w.dial then Outcome(y, Internal)
    else
      var size := y.storage[source].size;
      var y1 := y.(server := Arrived(w.call, y.server, r));
      if !Answered(w.call, r.reply) then Outcome(y1, Internal)
      else Outcome(y1.(snapshots := y.snapshots[name := StoredSnapshot(name, source, size)]), Success(size))
  }

  ghost function DeleteSnapshot(y: System, id: string, w: Conditions, r: Result): Outcome {
    if id !in y.snapshots then Outcome(y, Success(0))
    else if w.dial then Outcome(y, Internal)
    else
      var y1 := y.(server := Arrived(w.call, y.server, r));
      if !Answered(w.call, r.reply) then Outcome(y1, Internal)
      else Outcome(y1.(snapshots := y.snapshots - {id}), Success(0))
  }

  /** The server call a request leads to, if it leads to one. */
  ghost function CallOf(y: System, q: Request): Call {
    match q
    case CreateVolumeRequest(name, _, content) => NewVolume(name, ContentId(content))
    case DeleteVolumeRequest(id) => DropVolume(if id in y.storage then y.storage[id].id else id)
    case CreateSnapshotRequest(name, source) => NewSnapshot(name, source)
    case DeleteSnapshotRequest(id) => DropSnapshot(id, if id in y.snapshots then y.snapshots[id].source else "")
  }

  ghost function ServeWith(y: System, q: Request, w: Conditions, r: Result): Outcome {
    match q
    case CreateVolumeRequest(name, capacity, content) => CreateVolume(y, name, capacity, content, w, r)
    case DeleteVolumeRequest(id) => DeleteVolume(y, id, w, r)
    case CreateSnapshotRequest(name, source) => CreateSnapshot(y, name, source, w, r)
    case DeleteSnapshotRequest(id) => DeleteSnapshot(y, id, w, r)
  }

  /** What the server makes of the call of a request. */
  ghost function ServerResult(y: System, q: Request, w: Conditions): Result {
    Step(y.server, CallOf(y, q), w.world)
  }

  ghost function Serve(y: System, q: Request, w: Conditions): Outcome {
    ServeWith(y, q, w, ServerResult(y, q, w))
  }

  // ----- agreement of the two layers

  /**
    Every live server volume is known to the controller, and a snapshot the controller knows is,
    if the server still records its ID, a snapshot of the source the controller remembers.
   */
  ghost predicate Agree(y: System) {
    && SoundLayers(y.server)
    && (forall v | v in y.server.active :: v in y.storage)
    && (forall v | v in y.storage :: y.storage[v].id == v)
    && (forall x | x in y.snapshots && x in y.server.images ::
          IsSnapshotOf(y.server.images[x], y.snapshots[x].source))
  }

  /** New names are well-formed and not the remains of something else. */
  ghost predicate ProperRequest(y: System, q: Request) {
    match q
    case CreateVolumeRequest(name, _, _) =>
      name != "" ==> WellFormedId(name) && NotDangling(y.server, name) && name !in y.snapshots
    case CreateSnapshotRequest(name, _) =>
      name != "" ==> WellFormedId(name) && NotDangling(y.server, name)
    case _ => true
  }

  /** The request gets past the controller's own checks. */
  ghost predicate Asks(y: System, q: Request) {
    match q
    case CreateVolumeRequest(name, capacity, content) => name != "" && capacity.Some? && !EmptyContent(content)
    case DeleteVolumeRequest(id) => id != "" && id in y.storage
    case CreateSnapshotRequest(name, source) =>
      name != "" && source != "" && name !in y.snapshots && source in y.storage
    case DeleteSnapshotRequest(id) => id in y.snapshots
  }

  /** The request leads to a call that arrives at the server. */
  ghost predicate Reaches(y: System, q: Request, w: Conditions) {
    && Asks(y, q) && !w.dial && w.call != RequestLost
    && (q.DeleteVolumeRequest? ==>
          Answered(w.exporter, Unexpose(y.exports, y.server, y.storage[q.volumeId].id, w.world).reply))
  }

  /** No call that is really made leaves a record without its node. */
  ghost predicate RemovesFiles(y: System, q: Request, w: Conditions) {
    Reaches(y, q, w) ==> ServerResult(y, q, w).reply != Failed(FileNotRemoved)
  }

  /** The server is as its call leaves it if the call arrives, and as it was otherwise. */
  lemma ServerMakesStep(y: System, q: Request, w: Conditions, r: Result)
    ensures ServeWith(y, q, w, r).system.server == if Reaches(y, q, w) then r.state else y.server
  {
  }

  /** A request that does not reach the server changes nothing but the storage, and that only by its own name. */
  lemma UnreachedChangesLittle(y: System, q: Request, w: Conditions, r: Result)
    requires !Reaches(y, q, w)
    ensures var z := ServeWith(y, q, w, r).system;
            && z.server == y.server && z.snapshots == y.snapshots && z.exports <= y.exports
            && (forall v | v in y.storage :: v in z.storage)
            && (forall v | v in z.storage :: z.storage[v].id == if v in y.storage then y.storage[v].id else v)
  {
  }

  /** What reaches the server is proper use: IDs are present, and snapshots come with their true source. */
  lemma RequestsAreProperCalls(y: System, q: Request)
    requires Agree(y) && ProperRequest(y, q) && |y.server.images| <= MAX_INT32 && Asks(y, q)
    ensures Admissible(y.server, CallOf(y, q)) && Proper(y.server, CallOf(y, q))
  {
    WellFormedIsAdmissible(y.server, CallOf(y, q));
  }

  /** Volumes stay live only if they are not deleted, and become live only by being created. */
  lemma ActiveAfterStep(s: State, c: Call, f: Faults)
    requires SoundLayers(s)
    ensures forall v | v in Step(s, c, f).state.active ::
              v in s.active || (c.NewVolume? && v == c.id)
    ensures c.DropVolume? && Step(s, c, f).reply == Ok ==> c.id !in Step(s, c, f).state.active
  {
    match c
    case NewVolume(_, _) =>
    case NewSnapshot(_, _) =>
    case DropVolume(id) => DeleteVolumeKeepsNamed(s, id, f); DropVolumeInactive(s, id, f);
    case DropSnapshot(id, source) => DeleteSnapshotKeepsNamed(s, id, source, f);
  }

  lemma DropVolumeInactive(s: State, id: string, f: Faults)
    requires SoundLayers(s)
    ensures Store.DeleteVolume(s, id, f).reply == Ok ==> id !in Store.DeleteVolume(s, id, f).state.active
  {
    if id in s.active && s.active[id] in s.images {
      var rest := s.active - {id};
      LiveBasesNamed(s);
      if s.images[s.active[id]].refCount < 1 && s.active[id] == id {
        DeleteImageBooks(s, id, f);
        var s1 := DeleteImage(s, id, f).state;
        CleanUpBooks(s1.(active := rest), s.images[id].backing, f);
      } else {
        UnnameBooks(s, id);
        CleanUpBooks(State(Unname(s.images, id), rest, s.daemon), s.images[id].backing, f);
      }
    }
  }

  /** A recorded image is an old one in its old place, or the one the call created. */
  lemma {:induction false} ImagesAfterStep(s: State, c: Call, f: Faults)
    requires SoundLayers(s) && Admissible(s, c) && Proper(s, c)
    ensures forall x | x in Step(s, c, f).state.images ::
              if x in s.images then Step(s, c, f).state.images[x].file == s.images[x].file &&
                                    Step(s, c, f).state.images[x].qsdId == s.images[x].qsdId
              else (c.NewVolume? || c.NewSnapshot?) && x == c.id && Step(s, c, f).reply == Ok
    ensures c.NewSnapshot? && Step(s, c, f).reply == Ok ==>
              c.id in Step(s, c, f).state.images && IsSnapshotOf(Step(s, c, f).state.images[c.id], c.source)
  {
    StepKeepsBooks(s, c, f);
    match c
    case NewVolume(_, _) =>
    case NewSnapshot(_, _) =>
    case DropVolume(id) => DeleteVolumeKeepsNamed(s, id, f);
    case DropSnapshot(id, source) => DeleteSnapshotKeepsNamed(s, id, source, f);
  }

  /** What a server call has to leave behind for the controller's maps to stay right. */
  ghost predicate FitsMaps(y: System, c: Call, r: Result) {
    && SoundLayers(r.state)
    && (forall v | v in r.state.active :: v in y.storage || (c.NewVolume? && v == c.id))
    && (forall x | x in y.snapshots && x in r.state.images :: IsSnapshotOf(r.state.images[x], y.snapshots[x].source))
    && (r.reply == Ok && c.NewSnapshot? ==> c.id in r.state.images && IsSnapshotOf(r.state.images[c.id], c.source))
    && (r.reply == Ok && c.DropVolume? ==> c.id !in r.state.active)
  }

  lemma ProperCallFits(y: System, q: Request, w: Conditions)
    requires Agree(y) && Admissible(y.server, CallOf(y, q)) && Proper(y.server, CallOf(y, q))
    requires ServerResult(y, q, w).reply != Failed(FileNotRemoved)
    requires q.CreateVolumeRequest? || q.CreateSnapshotRequest? ==> q.name !in y.snapshots
    ensures FitsMaps(y, CallOf(y, q), ServerResult(y, q, w))
  {
    StepKeepsLayers(y.server, CallOf(y, q), w.world);
    ActiveAfterStep(y.server, CallOf(y, q), w.world);
    ImagesAfterStep(y.server, CallOf(y, q), w.world);
  }

  lemma FittingCreation(y: System, q: Request, w: Conditions, r: Result)
    requires q.CreateVolumeRequest? && Agree(y) && FitsMaps(y, CallOf(y, q), r)
    ensures Agree(ServeWith(y, q, w, r).system)
  {
  }

  lemma FittingDeletion(y: System, q: Request, w: Conditions, r: Result)
    requires q.DeleteVolumeRequest? && Agree(y) && FitsMaps(y, CallOf(y, q), r)
    ensures Agree(ServeWith(y, q, w, r).system)
  {
  }

  lemma FittingSnapshotCall(y: System, q: Request, w: Conditions, r: Result)
    requires q.CreateSnapshotRequest? || q.DeleteSnapshotRequest?
    requires Agree(y) && FitsMaps(y, CallOf(y, q), r)
    ensures Agree(ServeWith(y, q, w, r).system)
  {
  }

  lemma FittingCallKeepsAgreement(y: System, q: Request, w: Conditions, r: Result)
    requires Agree(y) && FitsMaps(y, CallOf(y, q), r)
    ensures Agree(ServeWith(y, q, w, r).system)
  {
    match q
    case CreateVolumeRequest(_, _, _) => FittingCreation(y, q, w, r);
    case DeleteVolumeRequest(_) => FittingDeletion(y, q, w, r);
    case CreateSnapshotRequest(_, _) => FittingSnapshotCall(y, q, w, r);
    case DeleteSnapshotRequest(_) => FittingSnapshotCall(y, q, w, r);
  }

  /** Both layers keep agreeing whatever fails or gets lost, as long as deleted nodes' files can be removed. */
  lemma {:induction false} ServeKeepsAgreement(y: System, q: Request, w: Conditions)
    requires Agree(y) && ProperRequest(y, q) && |y.server.images| <= MAX_INT32 && RemovesFiles(y, q, w)
    ensures Agree(Serve(y, q, w).system)
  {
    if Reaches(y, q, w) {
      RequestsAreProperCalls(y, q);
      ProperCallFits(y, q, w);
      FittingCallKeepsAgreement(y, q, w, ServerResult(y, q, w));
    } else {
      UnreachedChangesLittle(y, q, w, ServerResult(y, q, w));
    }
  }

  // ----- exact agreement on snapshots

  /** The snapshots of the server that still have their name. */
  ghost function NamedSnapshots(m: Images): set<string> {
    set x | x in m && m[x].volumeRef != "" && m[x].file != VolumePath(x)
  }

  /** The controller knows exactly the named snapshots of the server. */
  ghost predicate ExactSnapshots(y: System) {
    y.snapshots.Keys == NamedSnapshots(y.server.images)
  }

  lemma NamesWithoutOne(m: Images, m': Images, id: string)
    requires TakesOneName(m, m', id)
    ensures NamedSnapshots(m') - {id} == NamedSnapshots(m) - {id}
  {
  }

  lemma NamedAfterInsert(m: Images, id: string, img: Image)
    requires id !in m && id != "" && img.volumeRef == id
    ensures NamedSnapshots(Insert(m, id, img)) ==
            NamedSnapshots(m) + (if img.file != VolumePath(id) then {id} else {})
  {
  }

  lemma NewVolumeNames(s: State, id: string, source: string, f: Faults)
    requires SoundLayers(s) && Admissible(s, NewVolume(id, source))
    ensures NamedSnapshots(Store.CreateVolume(s, id, source, f).state.images) == NamedSnapshots(s.images)
  {
    CreateVolumeKeeps(s, id, source, f);
    if Store.CreateVolume(s, id, source, f).reply == Ok {
      if source == "" {
        NamedAfterInsert(s.images, id, Image(GenerateQsdId(id), "", VolumePath(id), 0, id, 0));
      } else {
        NamedAfterInsert(s.images, id, NewLayer(s.images, id, source, VolumePath(id)));
      }
    }
  }

  lemma NewSnapshotNames(s: State, id: string, source: string, f: Faults)
    requires SoundLayers(s) && Admissible(s, NewSnapshot(id, source))
    ensures var r := Store.CreateSnapshot(s, id, source, f);
            NamedSnapshots(r.state.images) == NamedSnapshots(s.images) + (if r.reply == Ok then {id} else {})
  {
    CreateSnapshotKeeps(s, id, source, f);
    if Store.CreateSnapshot(s, id, source, f).reply == Ok {
      var file := SnapshotPath(source, GenerateQsdId(id));
      QsdIdShape(id);
      VolumeIsNoSnapshotPath(id, source, GenerateQsdId(id));
      NamedAfterInsert(s.images, id, NewLayer(s.images, id, s.active[source], file));
    }
  }

  /** How one server call changes the set of named snapshots. */
  lemma SnapshotsAfterStep(s: State, c: Call, f: Faults)
    requires SoundLayers(s) && Admissible(s, c) && Proper(s, c)
    ensures var r := Step(s, c, f);
            var before, after := NamedSnapshots(s.images), NamedSnapshots(r.state.images);
            match c
            case NewVolume(_, _) => after == before
            case NewSnapshot(id, _) => after == before + (if r.reply == Ok then {id} else {})
            case DropVolume(_) => after == before
            case DropSnapshot(id, _) => after == before - (if TakesEffect(s, c, f) then {id} else {})
  {
    match c
    case NewVolume(id, source) =>
      NewVolumeNames(s, id, source, f);
    case NewSnapshot(id, source) =>
      NewSnapshotNames(s, id, source, f);
    case DropVolume(id) =>
      DropVolumeNames(s, id, f);
      NamesWithoutOne(s.images, Step(s, c, f).state.images, id);
      DropVolumeTakesNoSnapshot(s, id, f);
    case DropSnapshot(id, source) =>
      DropSnapshotNames(s, id, source, f);
      NamesWithoutOne(s.images, Step(s, c, f).state.images, id);
      DroppedNameExactly(s, id, source, f);
  }

  /** A snapshot's name is given up exactly when its deletion takes effect, whatever the reply. */
  lemma DroppedNameExactly(s: State, id: string, source: string, f: Faults)
    requires SoundLayers(s)
    ensures var c := DropSnapshot(id, source);
            id in NamedSnapshots(Step(s, c, f).state.images) <==>
            id in NamedSnapshots(s.images) && !TakesEffect(s, c, f)
  {
    var c := DropSnapshot(id, source);
    DeletionThenCleanUp(s, c, f);
    if TakesEffect(s, c, f) {
      BeforeCleanUpConsistent(s, c);
      CleanUpBooks(BeforeCleanUp(s, c), s.images[id].backing, f);
    }
  }

  lemma DropVolumeTakesNoSnapshot(s: State, id: string, f: Faults)
    requires SoundLayers(s)
    ensures id in NamedSnapshots(Store.DeleteVolume(s, id, f).state.images) <==> id in NamedSnapshots(s.images)
  {
    DropVolumeNames(s, id, f);
    if id in s.active {
      assert LiveVolume(s, id);
    }
  }

  /** The server makes or drops a named snapshot, and the controller does not learn of it. */
  ghost predicate Diverges(y: System, q: Request, w: Conditions) {
    && Reaches(y, q, w) && !Answered(w.call, ServerResult(y, q, w).reply)
    && match q
       case CreateSnapshotRequest(_, _) => ServerResult(y, q, w).reply == Ok
       case DeleteSnapshotRequest(_) => TakesEffect(y.server, CallOf(y, q), w.world)
       case _ => false
  }

  /**
    The controller goes on knowing exactly the named snapshots of the server if and only if no
    snapshot is made, or dropped, behind an answer that is lost or an error.
   */
  lemma {:induction false} ServeKeepsSnapshotsExact(y: System, q: Request, w: Conditions)
    requires Agree(y) && ExactSnapshots(y) && ProperRequest(y, q) && |y.server.images| <= MAX_INT32
    ensures ExactSnapshots(Serve(y, q, w).system) <==> !Diverges(y, q, w)
  {
    var r := ServerResult(y, q, w);
    if !Reaches(y, q, w) {
      UnreachedChangesLittle(y, q, w, r);
    } else {
      RequestsAreProperCalls(y, q);
      SnapshotsAfterStep(y.server, CallOf(y, q), w.world);
      if q.DeleteSnapshotRequest? {
        OkTakesEffect(y.server, CallOf(y, q), w.world);
      }
      NamesStayExact(y, q, w, r);
    }
  }

  lemma OkTakesEffect(s: State, c: Call, f: Faults)
    requires SoundLayers(s) && (c.DropVolume? || c.DropSnapshot?)
    ensures Step(s, c, f).reply == Ok ==> TakesEffect(s, c, f)
  {
    DeletionThenCleanUp(s, c, f);
  }

  /** The named snapshots a server call leaves are those the controller will remember. */
  lemma NamesStayExact(y: System, q: Request, w: Conditions, r: Result)
    requires ExactSnapshots(y) && Reaches(y, q, w) && r == ServerResult(y, q, w)
    requires var before, after := NamedSnapshots(y.server.images), NamedSnapshots(r.state.images);
             match q
             case CreateVolumeRequest(_, _, _) => after == before
             case CreateSnapshotRequest(name, _) => after == before + (if r.reply == Ok then {name} else {})
             case DeleteVolumeRequest(_) => after == before
             case DeleteSnapshotRequest(id) =>
               && after == before - (if TakesEffect(y.server, CallOf(y, q), w.world) then {id} else {})
               && (r.reply == Ok ==> TakesEffect(y.server, CallOf(y, q), w.world))
    ensures ExactSnapshots(ServeWith(y, q, w, r).system) <==> !Diverges(y, q, w)
  {
  }

  // ----- recorded names

  /** A recorded ID cannot be created again, whatever it is created from and whatever happens outside. */
  lemma RecordedIdRejected(y: System, name: string, size: int, content: ContentSource, w: Conditions)
    requires Consistent(y.server)
    requires name in y.server.images && name in y.storage && !EmptyContent(content)
    ensures var z := Serve(y, CreateVolumeRequest(name, Some(size), content), w);
            && z.response == Internal
            && z.system.server.images == y.server.images && z.system.server.active == y.server.active
            && z.system.storage == y.storage && z.system.snapshots == y.snapshots && z.system.exports == y.exports
  {
    assert Identified(y.server.images, name) && Backed(y.server.images, y.server.daemon, name);
    CreateVolumeSucceeds(y.server, name, ContentId(content), w.world);
  }

  /** The controller crashes on exactly the requests for a named volume that do not say a capacity. */
  lemma CrashesExactly(y: System, q: Request, w: Conditions)
    ensures Serve(y, q, w).response == Crashed <==> q.CreateVolumeRequest? && q.name != "" && q.capacity == None
  {
  }

  /**
    A volume gets the size it was first asked for: the reply repeats the size of the request, and
    differs from what is stored exactly when an earlier request for the name had another size.
   */
  lemma ReplySizeExactly(y: System, name: string, size: int, content: ContentSource, w: Conditions)
    requires Serve(y, CreateVolumeRequest(name, Some(size), content), w).response.Success?
    ensures var z := Serve(y, CreateVolumeRequest(name, Some(size), content), w);
            && name in z.system.storage
            && (z.response != Success(z.system.storage[name].size) <==>
                name in y.storage && y.storage[name].size != size)
  {
  }
}
