/**
  Guests write to the active layers of their volumes. What that changes, what it cannot change, and
  why a snapshot goes on reading what was there when it was taken.
 */
module GuestWrites {
  import opened Names
  import opened Forest
  import opened BlockGraph
  import opened Store
  import opened Consistency
  import opened Preservation
  import opened Books
  import opened Reclamation
  import opened Layers
  import opened Runs
  import opened Leaks
  import opened Views

  /** The contents of a file after one cluster has been written. */
  function Written(d: Data, o: nat, val: nat): Data {
    map p | p in d.Keys + {o} :: if p == o then val else d[p]
  }

  /** A cluster is put into the file of a recorded image. */
  ghost function WriteTo(s: State, z: string, o: nat, val: nat): State {
    if z in s.images && s.images[z].file in s.daemon.files then
      var file := s.images[z].file;
      s.(daemon := s.daemon.(files := s.daemon.files[file := Written(s.daemon.files[file], o, val)]))
    else s
  }

  /** A write changes contents and nothing else. */
  lemma WriteKeepsSound(s: State, z: string, o: nat, val: nat)
    requires SoundLayers(s)
    ensures SoundLayers(WriteTo(s, z, o, val))
  {
    LeftoversKeepConsistent(s, WriteTo(s, z, o, val).daemon, "", "");
    ShrinkKeepsLayersOnly(s, WriteTo(s, z, o, val));
  }

  // ----- who sees a write

  lemma {:induction false} ChainFilesOfMembers(s: State, x: string, z: string)
    requires Consistent(s) && x in s.images && z in s.images
    ensures s.images[z].file in ChainFiles(s.images, x) <==> z in Chain(s.images, x)
    decreases s.images[x].depth
  {
    assert Placed(s.images, x);
    var b := s.images[x].backing;
    if x != z {
      FilesDistinct(s, x, z);
    }
    if b != "" {
      ChainFilesOfMembers(s, b, z);
    } else {
      assert ChainFiles(s.images, b) == [] && Chain(s.images, b) == [];
    }
  }

  lemma {:induction false} UnreadFile(files: map<string, Data>, fs: seq<string>, file: string, d: Data, o: nat)
    requires file !in fs
    ensures Read(files[file := d], fs, o) == Read(files, fs, o)
    decreases |fs|
  {
    if fs != [] {
      UnreadFile(files, fs[1..], file, d, o);
    }
  }

  /** An image whose chain does not hold the written one reads the same. */
  lemma WriteUnseen(s: State, z: string, o: nat, val: nat, x: string, o': nat)
    requires Consistent(s) && x in s.images && z !in Chain(s.images, x)
    ensures View(WriteTo(s, z, o, val), x, o') == View(s, x, o')
  {
    if z in s.images && s.images[z].file in s.daemon.files {
      var file := s.images[z].file;
      ChainFilesOfMembers(s, x, z);
      UnreadFile(s.daemon.files, ChainFiles(s.images, x), file, Written(s.daemon.files[file], o, val), o');
    }
  }

  /** An offset above all of these. */
  ghost function Above(d: set<nat>): (n: nat)
    ensures forall o | o in d :: o < n
  {
    if d == {} then 0
    else
      var o :| o in d;
      assert d == {o} + (d - {o});
      var n := Above(d - {o});
      if o < n then n else o + 1
  }

  /** From this offset on, none of the files holds anything. */
  ghost function FreeOffset(files: map<string, Data>, fs: seq<string>): nat
    decreases |fs|
  {
    if fs == [] then 0
    else
      var n := FreeOffset(files, fs[1..]);
      var m := if fs[0] in files then Above(files[fs[0]].Keys) else 0;
      if m < n then n else m
  }

  lemma {:induction false} FreeReadsZero(files: map<string, Data>, fs: seq<string>, o: nat)
    requires FreeOffset(files, fs) <= o
    ensures Read(files, fs, o) == 0
    decreases |fs|
  {
    if fs != [] {
      FreeReadsZero(files, fs[1..], o);
    }
  }

  lemma {:induction false} FreeReadsWritten(
    files: map<string, Data>, fs: seq<string>, file: string, o: nat, val: nat)
    requires FreeOffset(files, fs) <= o && file in fs && file in files
    ensures Read(files[file := Written(files[file], o, val)], fs, o) == val
    decreases |fs|
  {
    if fs[0] != file {
      FreeReadsWritten(files, fs[1..], file, o, val);
    }
  }

  /** What x reads does not depend on what is written to z. */
  ghost predicate Independent(s: State, z: string, x: string)
    requires Consistent(s)
  {
    forall o: nat, val: nat, o': nat :: View(WriteTo(s, z, o, val), x, o') == View(s, x, o')
  }

  /** The images that can see what is written to an image are those with it on their chain. */
  lemma WriteSeenExactly(s: State, z: string, x: string)
    requires Consistent(s) && x in s.images && z in s.images
    ensures Independent(s, z, x) <==> z !in Chain(s.images, x)
  {
    if z in Chain(s.images, x) {
      var files, fs := s.daemon.files, ChainFiles(s.images, x);
      var o := FreeOffset(files, fs);
      assert Backed(s.images, s.daemon, z);
      ChainFilesOfMembers(s, x, z);
      FreeReadsZero(files, fs, o);
      FreeReadsWritten(files, fs, s.images[z].file, o, 1);
      assert View(WriteTo(s, z, o, 1), x, o) != View(s, x, o);
    } else {
      forall o: nat, val: nat, o': nat
        ensures View(WriteTo(s, z, o, val), x, o') == View(s, x, o')
      {
        WriteUnseen(s, z, o, val, x, o');
      }
    }
  }

  /** No other image can see what is written to z. */
  ghost predicate Isolated(s: State, z: string)
    requires Consistent(s)
  {
    forall x | x in s.images && x != z :: Independent(s, z, x)
  }

  /** Writes stay inside an image if and only if nothing builds on it. */
  lemma IsolatedExactly(s: State, z: string)
    requires Consistent(s) && z in s.images
    ensures Isolated(s, z) <==> s.images[z].refCount == 0
  {
    var m := s.images;
    assert m[z].refCount == |Children(m, z)|;
    forall x | x in m
      ensures Independent(s, z, x) <==> z !in Chain(m, x)
    {
      WriteSeenExactly(s, z, x);
    }
    if Children(m, z) == {} {
      forall x | x in m && x != z
        ensures z !in Chain(m, x)
      {
        LeafOnNoOtherChain(m, z, x);
      }
    } else {
      var x :| x in Children(m, z);
      assert Placed(m, x);
      assert x != z && Chain(m, x)[1] == z;
      assert !Independent(s, z, x);
    }
  }

  lemma LeafOnNoOtherChain(m: Images, y: string, x: string)
    requires IsForest(m) && x in m && y != x && Children(m, y) == {}
    ensures y !in Chain(m, x)
  {
    var c := Chain(m, x);
    ChainShape(m, x);
    forall i | 0 < i < |c|
      ensures c[i] != y
    {
      assert c[i - 1] in Children(m, c[i]);
    }
  }

  // ----- guests

  /** The store, and for each exported volume the image whose node its guest is attached to. */
  datatype Machine = Machine(store: State, guests: map<string, string>)

  datatype Action =
    | Serves(event: Event)
    | Attaches(volume: string)
    | Detaches(volume: string)
    | Writes(volume: string, offset: nat, value: nat)

  /** A successful snapshot that was installed with blockdev-snapshot, which takes the node's users along. */
  ghost predicate Installs(s: State, e: Event) {
    && e.call.NewSnapshot? && Step(s, e.call, e.faults).reply == Ok
    && e.call.source in s.active && s.active[e.call.source] in s.images
    && s.images[s.active[e.call.source]].refCount < 1
  }

  /** Where the guests are after a call. */
  ghost function Moved(y: Machine, e: Event): map<string, string> {
    if Installs(y.store, e) then
      map v | v in y.guests ::
        if y.guests[v] == y.store.active[e.call.source] then e.call.id else y.guests[v]
    else y.guests
  }

  /** An export is added for the image of the volume's own ID, whatever its active layer is. */
  ghost function AfterAction(y: Machine, a: Action): Machine {
    match a
    case Serves(e) => Machine(After(y.store, e), Moved(y, e))
    case Attaches(v) => if v in y.store.images && v !in y.guests then y.(guests := y.guests[v := v]) else y
    case Detaches(v) => y.(guests := y.guests - {v})
    case Writes(v, o, val) => if v in y.guests then y.(store := WriteTo(y.store, y.guests[v], o, val)) else y
  }

  /** The daemon does not delete a node that a guest is attached to. */
  ghost predicate Holds(y: Machine, f: Faults) {
    forall v | v in y.guests && y.guests[v] in y.store.images :: y.store.images[y.guests[v]].qsdId in f.del
  }

  /** A proper call with a well-formed ID that loses no file removal and writes over no recorded file. */
  ghost predicate GoodAction(y: Machine, a: Action) {
    a.Serves? ==>
      var s, c, f := y.store, a.event.call, a.event.faults;
      && WellFormedCall(c) && Proper(s, c) && |s.images| <= MAX_INT32 && Holds(y, f)
      && Step(s, c, f).reply != Failed(FileNotRemoved) && !Overwrites(s, c, f)
  }

  /** Every guest is attached to a recorded image. */
  ghost predicate SoundMachine(y: Machine) {
    SoundLayers(y.store) && forall v | v in y.guests :: y.guests[v] in y.store.images
  }

  lemma HeldBeforeCleanUp(s: State, c: Call, f: Faults, z: string)
    requires z in s.images && s.images[z].qsdId in f.del && TakesEffect(s, c, f)
    ensures z in BeforeCleanUp(s, c).images && DeletionRefused(BeforeCleanUp(s, c).images, z, f)
  {
  }

  /** An image whose node the daemon does not delete stays recorded. */
  lemma HeldStays(s: State, c: Call, f: Faults, z: string)
    requires SoundLayers(s) && z in s.images && s.images[z].qsdId in f.del
    ensures z in Step(s, c, f).state.images
  {
    if TakesEffect(s, c, f) {
      BeforeCleanUpConsistent(s, c);
      HeldBeforeCleanUp(s, c, f, z);
      ReclaimedImagesGo(s, c, f, z);
      if ReachesCleanUp(c, f) {
        RefusedNotTaken(BeforeCleanUp(s, c).images, s.images[c.id].backing, f, z);
      }
    } else {
      UnappliedKeepsImages(s, c, f);
    }
  }

  lemma RefusedNotTaken(m: Images, x: string, f: Faults, z: string)
    requires IsForest(m) && z in m && DeletionRefused(m, z, f)
    ensures z !in RunTaken(m, x, f)
  {
    ChainInStore(m, x);
  }

  lemma GoodActionKeepsSound(y: Machine, a: Action)
    requires SoundMachine(y) && GoodAction(y, a)
    ensures SoundMachine(AfterAction(y, a))
  {
    match a
    case Serves(e) =>
      WellFormedIsAdmissible(y.store, e.call);
      StepKeepsLayers(y.store, e.call, e.faults);
      forall v | v in y.guests
        ensures y.guests[v] in After(y.store, e).images
      {
        HeldStays(y.store, e.call, e.faults, y.guests[v]);
      }
      SnapshotRecorded(y.store, e);
    case Attaches(_) =>
    case Detaches(_) =>
    case Writes(v, o, val) =>
      if v in y.guests {
        WriteKeepsSound(y.store, y.guests[v], o, val);
      }
  }

  lemma SnapshotRecorded(s: State, e: Event)
    ensures Installs(s, e) ==> e.call.id in After(s, e).images
  {
  }

  // ----- where a snapshot leaves its guest

  lemma NewIdIsNew(s: State, c: Call, f: Faults)
    requires Consistent(s) && Admissible(s, c) && (c.NewVolume? || c.NewSnapshot?) && Step(s, c, f).reply == Ok
    ensures c.id !in s.images
  {
    match c
    case NewVolume(id, source) => CreateVolumeKeeps(s, id, source, f);
    case NewSnapshot(id, source) => CreateSnapshotKeeps(s, id, source, f);
  }

  /** The guest writes to the layer the server takes for the active one. */
  ghost predicate OnActiveLayer(y: Machine, v: string) {
    v in y.guests && v in y.store.active && y.guests[v] == y.store.active[v]
  }

  /**
    A snapshot takes the guest of its volume along to the new active layer if and only if nothing
    was built on the old one; otherwise the guest goes on writing below the snapshot.
   */
  lemma SnapshotMovesGuestExactly(y: Machine, id: string, v: string, f: Faults)
    requires SoundMachine(y) && Admissible(y.store, NewSnapshot(id, v)) && OnActiveLayer(y, v)
    requires CreateSnapshot(y.store, id, v, f).reply == Ok
    ensures var y' := AfterAction(y, Serves(Event(NewSnapshot(id, v), f)));
            && y.store.active[v] in y.store.images && IsForest(y'.store.images) && y'.store.active[v] == id
            && (OnActiveLayer(y', v) <==> y.store.images[y.store.active[v]].refCount == 0)
            && (!OnActiveLayer(y', v) ==>
                  y'.guests[v] == y.store.active[v] && y'.guests[v] in Chain(y'.store.images, id))
  {
    var s, e := y.store, Event(NewSnapshot(id, v), f);
    assert s.images[s.active[v]].refCount == |Children(s.images, s.active[v])|;
    NewIdIsNew(s, e.call, f);
    CreateSnapshotKeeps(s, id, v, f);
    var file := SnapshotPath(v, GenerateQsdId(id));
    RecordedChain(s, id, NewLayer(s.images, id, s.active[v], file), id);
  }

  // ----- frozen images

  /** No guest writes to anything the image reads. */
  ghost predicate Frozen(y: Machine, x: string)
    requires IsForest(y.store.images)
  {
    forall v | v in y.guests :: y.guests[v] !in Chain(y.store.images, x)
  }

  /** The action writes to nothing the image reads, and attaches no guest to it. */
  ghost predicate Unseen(y: Machine, a: Action, x: string)
    requires IsForest(y.store.images)
  {
    match a
    case Serves(_) => true
    case Attaches(v) => v !in Chain(y.store.images, x)
    case Detaches(_) => true
    case Writes(v, _, _) => v in y.guests ==> y.guests[v] !in Chain(y.store.images, x)
  }

  lemma SnapshotAboveLayer(s: State, id: string, v: string, f: Faults)
    requires SoundLayers(s) && Admissible(s, NewSnapshot(id, v)) && CreateSnapshot(s, id, v, f).reply == Ok
    ensures var e := Event(NewSnapshot(id, v), f);
            && v in s.active && s.active[v] in s.images && IsForest(After(s, e).images)
            && s.active[v] in Chain(s.images, s.active[v]) && id !in Chain(s.images, s.active[v])
            && Chain(After(s, e).images, s.active[v]) == Chain(s.images, s.active[v])
            && (Installs(s, e) <==> s.images[s.active[v]].refCount == 0)
  {
    var c, layer := NewSnapshot(id, v), s.active[v];
    assert s.images[layer].refCount == |Children(s.images, layer)|;
    NewIdIsNew(s, c, f);
    StepKeepsBooks(s, c, f);
    ChainMembers(s.images, layer);
    ChainShape(s.images, layer);
  }

  /**
    A snapshot freezes the layer its volume wrote to, and all that layer reads, if and only if its
    guest is taken along and no other guest writes to any of that.
   */
  lemma SnapshotFreezesExactly(y: Machine, id: string, v: string, f: Faults)
    requires SoundMachine(y) && Admissible(y.store, NewSnapshot(id, v)) && OnActiveLayer(y, v)
    requires CreateSnapshot(y.store, id, v, f).reply == Ok
    ensures var y', layer := AfterAction(y, Serves(Event(NewSnapshot(id, v), f))), y.store.active[v];
            && layer in y.store.images && IsForest(y'.store.images)
            && (Frozen(y', layer) <==>
                && y.store.images[layer].refCount == 0
                && forall w | w in y.guests && y.guests[w] != layer :: y.guests[w] !in Chain(y.store.images, layer))
  {
    var s, e, layer := y.store, Event(NewSnapshot(id, v), f), y.store.active[v];
    SnapshotAboveLayer(s, id, v, f);
    MovedOffChain(y.guests, Moved(y, e), Chain(s.images, layer), layer, id, v, Installs(s, e));
  }

  lemma MovedOffChain(
    guests: map<string, string>, guests': map<string, string>, chain: seq<string>, layer: string, id: string,
    v: string, moved: bool)
    requires v in guests && guests[v] == layer && layer in chain && id !in chain
    requires guests'.Keys == guests.Keys
    requires forall w | w in guests :: guests'[w] == if moved && guests[w] == layer then id else guests[w]
    ensures (forall w | w in guests' :: guests'[w] !in chain) <==>
            moved && forall w | w in guests && guests[w] != layer :: guests[w] !in chain
  {
  }

  lemma FrozenAfterCall(y: Machine, e: Event, x: string)
    requires SoundMachine(y) && GoodAction(y, Serves(e)) && x in y.store.images && x in After(y.store, e).images
    requires Frozen(y, x) && IsForest(After(y.store, e).images)
    ensures Frozen(AfterAction(y, Serves(e)), x)
  {
    WellFormedIsAdmissible(y.store, e.call);
    StepKeepsBooks(y.store, e.call, e.faults);
    ChainMembers(y.store.images, x);
    if Installs(y.store, e) {
      NewIdIsNew(y.store, e.call, e.faults);
    }
  }

  lemma FrozenAfterOther(y: Machine, a: Action, x: string)
    requires IsForest(y.store.images) && Frozen(y, x) && !a.Serves?
    requires a.Attaches? ==> a.volume !in Chain(y.store.images, x)
    ensures AfterAction(y, a).store.images == y.store.images && Frozen(AfterAction(y, a), x)
  {
  }

  /** Nobody starts to write to a frozen image, or to anything below it, unless a guest is attached there. */
  lemma StaysFrozen(y: Machine, a: Action, x: string)
    requires SoundMachine(y) && GoodAction(y, a) && x in y.store.images && x in AfterAction(y, a).store.images
    requires Frozen(y, x) && (a.Attaches? ==> a.volume !in Chain(y.store.images, x))
    ensures IsForest(AfterAction(y, a).store.images)
    ensures Frozen(AfterAction(y, a), x) && Unseen(y, a, x)
  {
    GoodActionKeepsSound(y, a);
    if a.Serves? {
      FrozenAfterCall(y, a.event, x);
    } else {
      FrozenAfterOther(y, a, x);
    }
  }

  // ----- runs of calls and guest writes

  ghost function RunActions(y: Machine, xs: seq<Action>): Machine
    decreases |xs|
  {
    if xs == [] then y else RunActions(AfterAction(y, xs[0]), xs[1..])
  }

  ghost predicate GoodActions(y: Machine, xs: seq<Action>)
    decreases |xs|
  {
    xs == [] || (GoodAction(y, xs[0]) && GoodActions(AfterAction(y, xs[0]), xs[1..]))
  }

  /** x is recorded after every action of the run. */
  ghost predicate StaysThere(y: Machine, xs: seq<Action>, x: string)
    decreases |xs|
  {
    x in y.store.images && (xs == [] || StaysThere(AfterAction(y, xs[0]), xs[1..], x))
  }

  ghost predicate UnseenRun(y: Machine, xs: seq<Action>, x: string)
    requires SoundMachine(y) && GoodActions(y, xs)
    decreases |xs|
  {
    xs == [] ||
    (GoodActionKeepsSound(y, xs[0]);
     Unseen(y, xs[0], x) && UnseenRun(AfterAction(y, xs[0]), xs[1..], x))
  }

  lemma UnseenOneAction(y: Machine, a: Action, x: string, o: nat)
    requires SoundMachine(y) && GoodAction(y, a) && Unseen(y, a, x)
    requires x in y.store.images && x in AfterAction(y, a).store.images
    ensures SoundMachine(AfterAction(y, a))
    ensures View(AfterAction(y, a).store, x, o) == View(y.store, x, o)
  {
    GoodActionKeepsSound(y, a);
    match a
    case Serves(e) =>
      WellFormedIsAdmissible(y.store, e.call);
      StepKeepsViews(y.store, e.call, e.faults);
    case Attaches(_) =>
    case Detaches(_) =>
    case Writes(v, p, val) =>
      if v in y.guests {
        WriteUnseen(y.store, y.guests[v], p, val, x, o);
      }
  }

  /**
    Over every run of calls and guest writes, an image that stays recorded reads at the end what it
    read at the beginning, if nothing it reads was written to.
   */
  lemma {:induction false} RunKeepsViews(y: Machine, xs: seq<Action>, x: string, o: nat)
    requires SoundMachine(y) && GoodActions(y, xs) && StaysThere(y, xs, x) && UnseenRun(y, xs, x)
    ensures SoundMachine(RunActions(y, xs))
    ensures View(RunActions(y, xs).store, x, o) == View(y.store, x, o)
    decreases |xs|
  {
    if xs != [] {
      UnseenOneAction(y, xs[0], x, o);
      RunKeepsViews(AfterAction(y, xs[0]), xs[1..], x, o);
    }
  }

  /** No guest is newly attached to an image of this chain. */
  ghost predicate NoneAttached(xs: seq<Action>, chain: seq<string>) {
    forall a | a in xs && a.Attaches? :: a.volume !in chain
  }

  lemma {:induction false} FrozenIsUnseen(y: Machine, xs: seq<Action>, x: string)
    requires SoundMachine(y) && GoodActions(y, xs) && StaysThere(y, xs, x) && Frozen(y, x)
    requires NoneAttached(xs, Chain(y.store.images, x))
    ensures UnseenRun(y, xs, x)
    decreases |xs|
  {
    if xs != [] {
      assert xs[0].Attaches? ==> xs[0].volume !in Chain(y.store.images, x);
      GoodActionKeepsSound(y, xs[0]);
      StaysFrozen(y, xs[0], x);
      ChainStays(y, xs[0], x);
      FrozenIsUnseen(AfterAction(y, xs[0]), xs[1..], x);
    }
  }

  lemma ChainStays(y: Machine, a: Action, x: string)
    requires SoundMachine(y) && GoodAction(y, a) && x in y.store.images && x in AfterAction(y, a).store.images
    requires IsForest(AfterAction(y, a).store.images)
    ensures Chain(AfterAction(y, a).store.images, x) == Chain(y.store.images, x)
  {
    if a.Serves? {
      WellFormedIsAdmissible(y.store, a.event.call);
      StepKeepsBooks(y.store, a.event.call, a.event.faults);
    }
  }

  /**
    Point in time: over every run of calls and guest writes, as long as it is recorded, a frozen
    image reads what it read when it was frozen.
   */
  lemma FrozenReadsTheSame(y: Machine, xs: seq<Action>, x: string, o: nat)
    requires SoundMachine(y) && GoodActions(y, xs) && StaysThere(y, xs, x) && Frozen(y, x)
    requires NoneAttached(xs, Chain(y.store.images, x))
    ensures IsForest(RunActions(y, xs).store.images)
    ensures View(RunActions(y, xs).store, x, o) == View(y.store, x, o)
  {
    FrozenIsUnseen(y, xs, x);
    RunKeepsViews(y, xs, x, o);
  }

  /** A guest on its volume's active layer keeps that layer recorded, whatever is deleted. */
  lemma GuestHoldsActiveLayer(y: Machine, v: string, e: Event)
    requires SoundMachine(y) && GoodAction(y, Serves(e)) && OnActiveLayer(y, v)
    ensures y.store.active[v] in After(y.store, e).images
  {
    HeldStays(y.store, e.call, e.faults, y.store.active[v]);
  }
}
