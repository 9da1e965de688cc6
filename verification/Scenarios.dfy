/** Short runs from the empty system in which code and comments disagree. */
module Scenarios {
  import opened Options
  import opened Names
  import opened Forest
  import opened BlockGraph
  import opened Store
  import opened Consistency
  import opened Preservation
  import opened Runs
  import opened Views
  import opened GuestWrites
  import opened Controller
  import opened ControllerRuns

  /** Every call arrives and is answered, and nothing is refused. */
  const FINE := Conditions(false, Delivered, Delivered, NO_FAULTS)

  /** The daemon does not delete the node of one image. */
  function KeepsNode(q: string): Conditions {
    FINE.(world := NO_FAULTS.(del := {q}))
  }

  const VOLUME := CreateVolumeRequest("v", Some(1), NoContent)
  const SNAPSHOT_OF_V := CreateSnapshotRequest("s", "v")

  /** The records, active layers and nodes while the volume "v" has the snapshot "s" as its active layer. */
  const BASE := Image("v", "", VolumePath("v"), 0, "v", 0)
  const LAYER := Image("s", "v", SnapshotPath("v", "s"), 0, "s", 1)
  const BASE_NODE := Node(VolumePath("v"), None)
  const LAYER_NODE := Node(SnapshotPath("v", "s"), Some("v"))

  const FILE_OF_BASE: map<string, Data> := map[VolumePath("v") := map[]]
  const ONLY_BASE := Daemon(map["v" := BASE_NODE], FILE_OF_BASE)
  const BOTH := Daemon(map["v" := BASE_NODE, "s" := LAYER_NODE], FILE_OF_BASE[SnapshotPath("v", "s") := map[]])

  const WITH_VOLUME := State(map["v" := BASE], map["v" := "v"], ONLY_BASE)
  const WITH_SNAPSHOT := State(map["v" := BASE.(refCount := 1), "s" := LAYER], map["v" := "s"], BOTH)

  lemma ShortNames()
    ensures QsdIdDefined("v") && GenerateQsdId("v") == "v" && WellFormedId("v")
    ensures QsdIdDefined("s") && GenerateQsdId("s") == "s" && WellFormedId("s")
    ensures QsdIdDefined("c") && GenerateQsdId("c") == "c" && WellFormedId("c")
    ensures VolumePath("v") != SnapshotPath("v", "s") && VolumePath("c") != SnapshotPath("v", "s")
    ensures VolumePath("v") != VolumePath("c")
  {
    VolumeIsNoSnapshotPath("v", "v", "s");
    VolumeIsNoSnapshotPath("c", "v", "s");
    if VolumePath("v") == VolumePath("c") {
      VolumePathInjective("v", "c");
    }
    assert Trimmed("v") == "v" && "v"[..1] == "v";
    assert Trimmed("s") == "s" && "s"[..1] == "s";
    assert Trimmed("c") == "c" && "c"[..1] == "c";
  }

  lemma VolumeMade()
    ensures Step(EMPTY, NewVolume("v", ""), NO_FAULTS) == Result(WITH_VOLUME, Ok)
  {
    ShortNames();
  }

  lemma LayerInstalled()
    ensures CreateAndInstall(ONLY_BASE, "v", "s", VolumePath("v"), SnapshotPath("v", "s"), NO_FAULTS) ==
            Answer(BOTH, true)
  {
    ShortNames();
    var file := SnapshotPath("v", "s");
    var o := CreateOverlayFile(ONLY_BASE, VolumePath("v"), file, NO_FAULTS);
    InstallSteps(o.daemon, "v", "s", file, NO_FAULTS);
    InstallIsOverlay(ONLY_BASE.nodes, "v", "s", file);
    assert ONLY_BASE.nodes["s" := LAYER_NODE] == BOTH.nodes;
  }

  lemma SnapshotMade()
    ensures Step(WITH_VOLUME, NewSnapshot("s", "v"), NO_FAULTS) == Result(WITH_SNAPSHOT, Ok)
  {
    ShortNames();
    LayerInstalled();
    assert Insert(WITH_VOLUME.images, "s", LAYER) == WITH_SNAPSHOT.images;
  }

  // ----- deletions

  /** The volume is deleted first: its image stays for the snapshot. */
  const VOLUME_GONE :=
    State(map["v" := BASE.(refCount := 1, volumeRef := ""), "s" := LAYER], map[], BOTH)

  lemma VolumeDroppedFirst()
    ensures Step(WITH_SNAPSHOT, DropVolume("v"), NO_FAULTS) == Result(VOLUME_GONE, Ok)
  {
  }

  /** The snapshot is deleted first: its image stays as the active layer. */
  const SNAPSHOT_RELEASED :=
    State(map["v" := BASE.(refCount := 1), "s" := LAYER.(volumeRef := "")], map["v" := "s"], BOTH)

  const LEAKED :=
    State(map["v" := BASE.(refCount := 1, volumeRef := ""), "s" := LAYER.(volumeRef := "")], map[], BOTH)

  lemma SnapshotDroppedFirst()
    ensures Step(WITH_SNAPSHOT, DropSnapshot("s", "v"), NO_FAULTS) == Result(SNAPSHOT_RELEASED, Ok)
    ensures Step(SNAPSHOT_RELEASED, DropVolume("v"), NO_FAULTS) == Result(LEAKED, Ok)
  {
  }

  /** Deleting the snapshot last takes both images; if the base's node is kept, its record is all that stays. */
  lemma SnapshotDroppedLast(f: Faults)
    requires f == NO_FAULTS.(del := {"v"})
    ensures var r := Step(VOLUME_GONE, DropSnapshot("s", "v"), f);
            r.reply == Failed(BackendRefused) && r.state.images == map["v" := BASE.(volumeRef := "")]
  {
  }

  // ----- the disagreements, as the controller sees them

  /** The system while it has the volume alone, and with its snapshot. */
  const ONE := System(map["v" := StoredVolume("v", 1)], map[], WITH_VOLUME, {"v"})
  const TWO :=
    System(map["v" := StoredVolume("v", 1)], map["s" := StoredSnapshot("s", "v", 1)], WITH_SNAPSHOT, {"v"})

  lemma AfterVolume()
    ensures Serve(START, VOLUME, FINE) == Outcome(ONE, Success(1))
  {
    VolumeMade();
  }

  lemma AfterSnapshot()
    ensures Serve(ONE, SNAPSHOT_OF_V, FINE) == Outcome(TWO, Success(1))
  {
    SnapshotMade();
  }

  lemma OneAgrees()
    ensures Agree(ONE)
  {
    AfterVolume();
    StartAgrees();
    ShortNames();
    VolumeMade();
    ServeKeepsAgreement(START, VOLUME, FINE);
  }

  /** A repeated CreateVolume fails. */
  lemma CreateVolumeTwice()
    ensures Serve(START, VOLUME, FINE) == Outcome(ONE, Success(1))
    ensures Serve(ONE, VOLUME, FINE).response == Internal
  {
    AfterVolume();
    OneAgrees();
    RecordedIdRejected(ONE, "v", 1, NoContent, FINE);
  }

  /** A volume, its snapshot, the end of the volume, and a deletion of the snapshot whose clean-up is refused. */
  const LOSING := [
    Exchange(VOLUME, FINE), Exchange(SNAPSHOT_OF_V, FINE),
    Exchange(DeleteVolumeRequest("v"), FINE), Exchange(DeleteSnapshotRequest("s"), KeepsNode("v"))]

  lemma RunOfTwo(y: System, a: Exchange, b: Exchange)
    ensures RunAll(y, [a, b]) == AfterExchange(AfterExchange(y, a), b)
  {
    var z := AfterExchange(y, a);
    assert [a, b][1..] == [b] && [b][1..] == [];
    assert RunAll(z, [b]) == RunAll(AfterExchange(z, b), []);
  }

  lemma RunOfFour(a: Exchange, b: Exchange, c: Exchange, d: Exchange)
    ensures RunAll(START, [a, b, c, d]) ==
            AfterExchange(AfterExchange(AfterExchange(AfterExchange(START, a), b), c), d)
  {
    assert [a, b, c, d][1..] == [b, c, d] && [b, c, d][1..] == [c, d];
    var y := AfterExchange(START, a);
    assert RunAll(y, [b, c, d]) == RunAll(AfterExchange(y, b), [c, d]);
    RunOfTwo(AfterExchange(y, b), c, d);
  }

  lemma AfterVolumeGone()
    ensures Serve(TWO, DeleteVolumeRequest("v"), FINE).system ==
            System(map[], map["s" := StoredSnapshot("s", "v", 1)], VOLUME_GONE, {})
  {
    VolumeDroppedFirst();
  }

  lemma LosingTheSnapshot()
    ensures var y := System(map[], map["s" := StoredSnapshot("s", "v", 1)], VOLUME_GONE, {});
            LostSnapshot(Serve(y, DeleteSnapshotRequest("s"), KeepsNode("v")).system, "s")
  {
    SnapshotDroppedLast(NO_FAULTS.(del := {"v"}));
  }

  /** The deletion of a snapshot can fail and lose it for good, whatever happens afterwards. */
  lemma LosingRun(xs: seq<Exchange>)
    requires forall x | x in xs :: !CreatesVolume(x.request, "s")
    ensures LostSnapshot(RunAll(RunAll(START, LOSING), xs), "s")
  {
    AfterVolume();
    AfterSnapshot();
    AfterVolumeGone();
    LosingTheSnapshot();
    RunOfFour(LOSING[0], LOSING[1], LOSING[2], LOSING[3]);
    LostSnapshotStaysKnown(RunAll(START, LOSING), xs, "s");
  }

  /** A volume, its snapshot, and both deleted in the wrong order. */
  const LEAKING := [
    Exchange(VOLUME, FINE), Exchange(SNAPSHOT_OF_V, FINE),
    Exchange(DeleteSnapshotRequest("s"), FINE), Exchange(DeleteVolumeRequest("v"), FINE)]

  lemma AfterRelease()
    ensures Serve(TWO, DeleteSnapshotRequest("s"), FINE).system ==
            System(map["v" := StoredVolume("v", 1)], map[], SNAPSHOT_RELEASED, {"v"})
  {
    SnapshotDroppedFirst();
  }

  lemma AfterWrongOrder()
    ensures var y := System(map["v" := StoredVolume("v", 1)], map[], SNAPSHOT_RELEASED, {"v"});
            Serve(y, DeleteVolumeRequest("v"), FINE).system == System(map[], map[], LEAKED, {})
  {
    SnapshotDroppedFirst();
  }

  /** Everything succeeds, the controller has forgotten both, and both images are still there. */
  lemma LeakingRun()
    ensures RunAll(START, LEAKING) == System(map[], map[], LEAKED, {})
  {
    AfterVolume();
    AfterSnapshot();
    AfterRelease();
    AfterWrongOrder();
    RunOfFour(LEAKING[0], LEAKING[1], LEAKING[2], LEAKING[3]);
  }

  // ----- a failed deletion ends a volume

  /** The volume's directory cannot be removed. */
  const DIRECTORY_STAYS := FINE.(world := NO_FAULTS.(rmdir := true))

  lemma VolumeEnds()
    ensures var two := Serve(ONE, DeleteVolumeRequest("v"), DIRECTORY_STAYS);
            two.response == Internal && LostVolume(two.system, "v")
  {
  }

  /** The deletion of a volume can fail and lose it, until it is created again. */
  lemma LosingVolume(xs: seq<Exchange>)
    requires forall x | x in xs :: !CreatesVolume(x.request, "v")
    ensures Serve(START, VOLUME, FINE) == Outcome(ONE, Success(1))
    ensures var two := Serve(ONE, DeleteVolumeRequest("v"), DIRECTORY_STAYS);
            two.response == Internal && LostVolume(RunAll(two.system, xs), "v")
  {
    AfterVolume();
    VolumeEnds();
    LostVolumeStaysKnown(Serve(ONE, DeleteVolumeRequest("v"), DIRECTORY_STAYS).system, xs, "v");
  }

  // ----- a failed deletion takes the exporter

  /** The call about the volume does not arrive, after the one about its exporter has. */
  const SECOND_CALL_LOST := FINE.(call := RequestLost)

  lemma ExporterGone()
    ensures Serve(ONE, DeleteVolumeRequest("v"), SECOND_CALL_LOST) == Outcome(ONE.(exports := {}), Internal)
  {
  }

  lemma UnexportedAgrees()
    ensures Agree(ONE.(exports := {})) && Unexported(ONE.(exports := {}), "v")
  {
    OneAgrees();
  }

  /** The deletion of a volume can fail once, and then for good, although the volume is whole. */
  lemma UnexportingRun(xs: seq<Exchange>)
    requires ServerStaysSmall(ONE.(exports := {}), xs) && ProperRequests(ONE.(exports := {}), xs)
    ensures Serve(START, VOLUME, FINE) == Outcome(ONE, Success(1))
    ensures Serve(ONE, DeleteVolumeRequest("v"), SECOND_CALL_LOST) == Outcome(ONE.(exports := {}), Internal)
    ensures forall w :: var y := RunAll(ONE.(exports := {}), xs);
                        Serve(y, DeleteVolumeRequest("v"), w) == Outcome(y, Internal)
  {
    AfterVolume();
    ExporterGone();
    UnexportedAgrees();
    UnexportedForGood(ONE.(exports := {}), xs, "v");
  }

  // ----- a live volume loses its active layer

  const CLONE := Image("c", "s", VolumePath("c"), 0, "c", 2)
  const CLONE_NODE := Node(VolumePath("c"), Some("s"))
  const ALL_THREE :=
    Daemon(BOTH.nodes["c" := CLONE_NODE], BOTH.files[VolumePath("c") := map[]])

  const WITH_CLONE :=
    State(
      map["v" := BASE.(refCount := 1), "s" := LAYER.(refCount := 1), "c" := CLONE],
      map["v" := "s", "c" := "c"], ALL_THREE)

  const CLONE_OF_RELEASED :=
    State(
      map["v" := BASE.(refCount := 1), "s" := LAYER.(refCount := 1, volumeRef := ""), "c" := CLONE],
      map["v" := "s", "c" := "c"], ALL_THREE)

  const STRANDED := State(map["v" := BASE], map["v" := "s"], ONLY_BASE)

  lemma CloneInstalled()
    ensures CreateWithBackingNode(BOTH, "s", "c", SnapshotPath("v", "s"), VolumePath("c"), NO_FAULTS) ==
            Answer(ALL_THREE, true)
  {
    ShortNames();
  }

  lemma CloneMade()
    ensures Step(WITH_SNAPSHOT, NewVolume("c", "s"), NO_FAULTS) == Result(WITH_CLONE, Ok)
  {
    ShortNames();
    CloneInstalled();
    assert Insert(WITH_SNAPSHOT.images, "c", CLONE) == WITH_CLONE.images;
  }

  lemma ClonedSnapshotDropped()
    ensures Step(WITH_CLONE, DropSnapshot("s", "v"), NO_FAULTS) == Result(CLONE_OF_RELEASED, Ok)
  {
  }

  const CLONE_GONE :=
    State(
      map["v" := BASE.(refCount := 1), "s" := LAYER.(volumeRef := "")],
      map["v" := "s", "c" := "c"], BOTH)

  lemma FilesLess()
    ensures ALL_THREE.files - {VolumePath("c")} == BOTH.files
    ensures BOTH.files - {SnapshotPath("v", "s")} == ONLY_BASE.files
  {
    ShortNames();
  }

  lemma NodesLess()
    ensures ALL_THREE.nodes - {"c"} == BOTH.nodes && BOTH.nodes - {"s"} == ONLY_BASE.nodes
  {
  }

  lemma RecordsLess()
    ensures Remove(CLONE_OF_RELEASED.images, "c") == CLONE_GONE.images
    ensures Remove(CLONE_GONE.images, "s") == STRANDED.images
  {
  }

  lemma OneLayerLess()
    ensures ALL_THREE.nodes - {"c"} == BOTH.nodes && BOTH.nodes - {"s"} == ONLY_BASE.nodes
    ensures ALL_THREE.files - {VolumePath("c")} == BOTH.files
    ensures BOTH.files - {SnapshotPath("v", "s")} == ONLY_BASE.files
    ensures Remove(CLONE_OF_RELEASED.images, "c") == CLONE_GONE.images
    ensures Remove(CLONE_GONE.images, "s") == STRANDED.images
  {
    FilesLess();
    NodesLess();
    RecordsLess();
  }

  lemma CloneRemoved()
    ensures DeleteImage(CLONE_OF_RELEASED, "c", NO_FAULTS) == Result(CLONE_GONE, Ok)
  {
    OneLayerLess();
    assert !InUse(ALL_THREE.nodes, "c");
  }

  lemma LayerRemoved()
    ensures var s := CLONE_GONE.(active := map["v" := "s"]);
            DeleteImage(s, "s", NO_FAULTS) == Result(STRANDED, Ok)
  {
    OneLayerLess();
    assert !InUse(BOTH.nodes, "s");
  }

  lemma LayerCleanedUp()
    ensures CleanUp(CLONE_GONE.(active := map["v" := "s"]), "s", NO_FAULTS) == Result(STRANDED, Ok)
  {
    LayerRemoved();
    assert CleanUp(STRANDED, "v", NO_FAULTS) == Result(STRANDED, Ok);
  }

  lemma CloneDropped()
    ensures Step(CLONE_OF_RELEASED, DropVolume("c"), NO_FAULTS) == Result(STRANDED, Ok)
  {
    CloneRemoved();
    LayerCleanedUp();
    assert map["v" := "s", "c" := "c"] - {"c"} == map["v" := "s"];
  }

  /**
    Every call succeeds, and a volume that nobody deletes loses the layer it writes to: it has a
    snapshot, the snapshot has a clone, and first the snapshot, then the clone is deleted.
   */
  lemma StrandingCalls()
    ensures var s1 := Step(WITH_SNAPSHOT, NewVolume("c", "s"), NO_FAULTS);
            var s2 := Step(s1.state, DropSnapshot("s", "v"), NO_FAULTS);
            var s3 := Step(s2.state, DropVolume("c"), NO_FAULTS);
            && s1.reply == s2.reply == s3.reply == Ok
            && "v" in s3.state.active && s3.state.active["v"] !in s3.state.images
  {
    CloneMade();
    ClonedSnapshotDropped();
    CloneDropped();
  }

  const STORED_V := map["v" := StoredVolume("v", 1)]
  const STORED_BOTH := STORED_V["c" := StoredVolume("c", 1)]
  const STORED_S := map["s" := StoredSnapshot("s", "v", 1)]

  /** The call about the volume's exporter does not arrive, so that nothing holds its nodes. */
  const NO_EXPORTER := FINE.(exporter := RequestLost)

  const CLONE_OF_S := CreateVolumeRequest("c", Some(1), FromSnapshot("s"))

  lemma UnexportedMade()
    ensures Serve(START, VOLUME, NO_EXPORTER).system == System(STORED_V, map[], WITH_VOLUME, {})
  {
    VolumeMade();
  }

  lemma UnexportedSnapshotMade()
    ensures Serve(System(STORED_V, map[], WITH_VOLUME, {}), SNAPSHOT_OF_V, FINE).system ==
            System(STORED_V, STORED_S, WITH_SNAPSHOT, {})
  {
    SnapshotMade();
  }

  lemma ClonedBySystem()
    ensures Serve(System(STORED_V, STORED_S, WITH_SNAPSHOT, {}), CLONE_OF_S, FINE).system ==
            System(STORED_BOTH, STORED_S, WITH_CLONE, {"c"})
  {
    CloneMade();
  }

  lemma ReleasedBySystem()
    ensures Serve(System(STORED_BOTH, STORED_S, WITH_CLONE, {"c"}), DeleteSnapshotRequest("s"), FINE).system ==
            System(STORED_BOTH, map[], CLONE_OF_RELEASED, {"c"})
  {
    ClonedSnapshotDropped();
  }

  lemma StrandedBySystem()
    ensures Serve(System(STORED_BOTH, map[], CLONE_OF_RELEASED, {"c"}), DeleteVolumeRequest("c"), FINE).system ==
            System(STORED_V, map[], STRANDED, {})
  {
    CloneDropped();
    assert STORED_BOTH - {"c"} == STORED_V;
  }

  lemma StrandedAgrees()
    ensures Agree(System(STORED_V, map[], STRANDED, {}))
  {
    ShortNames();
    assert Children(STRANDED.images, "v") == {};
    assert QsdIds(STRANDED.images) == {"v"} by {
      assert STRANDED.images["v"].qsdId == "v";
    }
    QsdIdShape("v");
    forall source
      ensures !IsSnapshotOf(BASE, source)
    {
      VolumeIsNoSnapshotPath("v", source, "v");
    }
  }

  /** The same through the controller: from then on the volume can never be deleted, nor have a snapshot taken. */
  lemma StrandingRun(xs: seq<Exchange>)
    requires var y := System(STORED_V, map[], STRANDED, {});
             ServerStaysSmall(y, xs) && ProperRequests(y, xs)
    ensures var y := System(STORED_V, map[], STRANDED, {});
            && RunAll(START, [Exchange(VOLUME, NO_EXPORTER), Exchange(SNAPSHOT_OF_V, FINE), Exchange(CLONE_OF_S, FINE),
                              Exchange(DeleteSnapshotRequest("s"), FINE)]
                             + [Exchange(DeleteVolumeRequest("c"), FINE)]) == y
            && forall w :: Stuck(RunAll(y, xs), "v", w)
  {
    UnexportedMade();
    UnexportedSnapshotMade();
    ClonedBySystem();
    ReleasedBySystem();
    StrandedBySystem();
    var four := [Exchange(VOLUME, NO_EXPORTER), Exchange(SNAPSHOT_OF_V, FINE), Exchange(CLONE_OF_S, FINE),
                 Exchange(DeleteSnapshotRequest("s"), FINE)];
    RunOfFour(four[0], four[1], four[2], four[3]);
    RunThenOne(START, four, Exchange(DeleteVolumeRequest("c"), FINE));
    StrandedAgrees();
    StrandedForGood(System(STORED_V, map[], STRANDED, {}), xs, "v");
  }

  lemma {:induction false} RunThenOne(y: System, xs: seq<Exchange>, x: Exchange)
    ensures RunAll(y, xs + [x]) == AfterExchange(RunAll(y, xs), x)
    decreases |xs|
  {
    if xs == [] {
      assert xs + [x] == [x] && [x][1..] == [];
      assert RunAll(AfterExchange(y, x), []) == AfterExchange(y, x);
    } else {
      assert (xs + [x])[0] == xs[0] && (xs + [x])[1..] == xs[1..] + [x];
      RunThenOne(AfterExchange(y, xs[0]), xs[1..], x);
    }
  }

  // ----- what guests write, and what a retry destroys

  const CLONE_OF_V := CreateVolumeRequest("c", Some(1), FromVolume("v"))
  const UPPER := Image("c", "v", VolumePath("c"), 0, "c", 1)

  /** "c" is a clone of the live volume "v". */
  const CLONED :=
    State(
      map["v" := BASE.(refCount := 1), "c" := UPPER], map["v" := "v", "c" := "c"],
      Daemon(
        map["v" := BASE_NODE, "c" := Node(VolumePath("c"), Some("v"))],
        FILE_OF_BASE[VolumePath("c") := map[]]))

  const WITH_BOTH := System(STORED_BOTH, map[], CLONED, {"v", "c"})

  lemma UpperInstalled()
    ensures CreateWithBackingNode(ONLY_BASE, "v", "c", VolumePath("v"), VolumePath("c"), NO_FAULTS) ==
            Answer(CLONED.daemon, true)
  {
    ShortNames();
  }

  lemma AfterClone()
    ensures Serve(ONE, CLONE_OF_V, FINE) == Outcome(WITH_BOTH, Success(1))
  {
    ShortNames();
    UpperInstalled();
    assert Insert(WITH_VOLUME.images, "c", UPPER) == CLONED.images;
  }

  lemma ChainOfClone(s: State)
    requires s.images == CLONED.images
    ensures IsForest(s.images) && ChainFiles(s.images, "c") == [VolumePath("c"), VolumePath("v")]
  {
    assert ChainFiles(s.images, "") == [];
    assert ChainFiles(s.images, "v") == [VolumePath("v")];
  }

  lemma ReadOfTwo(files: map<string, Data>, a: string, b: string, o: nat)
    requires a in files && b in files
    ensures Read(files, [a, b], o) ==
            if o in files[a] then files[a][o] else if o in files[b] then files[b][o] else 0
  {
    assert [a, b][1..] == [b] && [b][1..] == [];
    assert Read(files, [b], o) == if o in files[b] then files[b][o] else Read(files, [], o);
  }

  /** A clone of a live volume changes when the guest of that volume writes. */
  lemma CloneSeesWrites()
    ensures Serve(START, VOLUME, FINE).system == ONE && Serve(ONE, CLONE_OF_V, FINE).system == WITH_BOTH
    ensures IsForest(CLONED.images) && View(CLONED, "c", 0) == 0
    ensures View(WriteTo(CLONED, "v", 0, 7), "c", 0) == 7
  {
    AfterVolume();
    AfterClone();
    ShortNames();
    ChainOfClone(CLONED);
    ChainOfClone(WriteTo(CLONED, "v", 0, 7));
    ReadOfTwo(CLONED.daemon.files, VolumePath("c"), VolumePath("v"), 0);
    ReadOfTwo(WriteTo(CLONED, "v", 0, 7).daemon.files, VolumePath("c"), VolumePath("v"), 0);
  }

  lemma WrittenView(s: State)
    requires s == WriteTo(CLONED, "c", 0, 7)
    ensures IsForest(s.images) && View(s, "c", 0) == 7
  {
    ShortNames();
    ChainOfClone(s);
    ReadOfTwo(s.daemon.files, VolumePath("c"), VolumePath("v"), 0);
  }

  lemma EmptiedView(s: State)
    requires s.images == CLONED.images && s.daemon.files == CLONED.daemon.files
    ensures IsForest(s.images) && View(s, "c", 0) == 0
  {
    ShortNames();
    ChainOfClone(s);
    ReadOfTwo(s.daemon.files, VolumePath("c"), VolumePath("v"), 0);
  }

  lemma CloneRequestedAgain()
    ensures var s := WriteTo(CLONED, "c", 0, 7);
            var r := Step(s, NewVolume("c", "v"), NO_FAULTS);
            r.reply == Failed(BackendRefused) && r.state.images == CLONED.images
            && r.state.daemon.files == CLONED.daemon.files
  {
    ShortNames();
  }

  /** A clone request that is repeated fails, and has wiped what the clone's guest wrote. */
  lemma WipingRun()
    ensures var y := WITH_BOTH.(server := WriteTo(CLONED, "c", 0, 7));
            var again := Serve(y, CLONE_OF_V, FINE);
            && IsForest(y.server.images) && View(y.server, "c", 0) == 7
            && again.response == Internal
            && IsForest(again.system.server.images) && View(again.system.server, "c", 0) == 0
  {
    var y := WITH_BOTH.(server := WriteTo(CLONED, "c", 0, 7));
    WrittenView(y.server);
    CloneRequestedAgain();
    EmptiedView(Serve(y, CLONE_OF_V, FINE).system.server);
  }

  /** A snapshot of a cloned volume leaves the guest on the layer below it. */
  lemma GuestLeftBehind()
    ensures var y := Machine(CLONED, map["v" := "v"]);
            var y' := AfterAction(y, Serves(Event(NewSnapshot("s", "v"), NO_FAULTS)));
            && OnActiveLayer(y, "v") && !OnActiveLayer(y', "v")
            && y'.store.active["v"] == "s" && y'.guests["v"] == "v"
  {
    ShortNames();
  }
}
