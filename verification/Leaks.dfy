/**
  Which images are leaked, exactly when, and that a run without leaks gives everything back.
 */
module Leaks {
  import opened Names
  import opened Forest
  import opened BlockGraph
  import opened Store
  import opened Consistency
  import opened Preservation
  import opened Books
  import opened Reclamation
  import opened Layers
  import opened Runs

  /** Images that nothing builds on and nobody asks for by name. */
  ghost function Loose(m: Images): set<string> {
    set y | y in m && m[y].refCount == 0 && m[y].volumeRef == ""
  }

  /** Loose images that no volume writes to: no call but one that names them will remove them. */
  ghost function Leaked(s: State): set<string> {
    Loose(s.images) - s.active.Values
  }

  predicate DeletesComplete(f: Faults) {
    DeletesWork(f) && !f.rmdir
  }

  // ----- the clean-up

  lemma LooseAfterRemove(m: Images, x: string)
    requires IsForest(m) && Counts(m) && x in m && Children(m, x) == {}
    ensures Loose(Remove(m, x)) - {m[x].backing} == Loose(m) - {x}
    ensures m[x].backing !in Loose(m)
    ensures m[x].backing == "" ==> Loose(Remove(m, x)) == Loose(m) - {x}
  {
    var b := m[x].backing;
    assert Placed(m, x);
    if b in m {
      assert x in Children(m, b);
      assert m[b].refCount == |Children(m, b)|;
    }
    forall y | y in m && y != x && y != b
      ensures Remove(m, x)[y] == m[y]
    {
    }
  }

  /**
    The clean-up removes the loose image it starts at and stops at one that is not loose, unless a
    deletion is refused on the way: then the refused image is left behind, loose.
   */
  lemma {:induction false} CleanUpLoose(s: State, x: string, f: Faults)
    requires Consistent(s)
    ensures Loose(CleanUp(s, x, f).state.images) == Loose(s.images) - {x} + LeftBehind(s.images, x, f)
    decreases |s.images.Keys|
  {
    if x !in s.images || s.images[x].refCount > 0 || s.images[x].volumeRef != "" {
      NothingLeftBehind(s, x, f);
    } else if DeletionRefused(s.images, x, f) {
      RefusedLeftBehind(s, x, f);
      RefusedCleanUp(s, x, f);
      assert s.images[x].refCount == |Children(s.images, x)|;
    } else {
      CleanUpGoesOn(s, x, f);
      DeletedKeepsConsistent(s, x);
      LooseAfterRemove(s.images, x);
      if s.images[x].backing == "" {
        RootLeavesNothing(s, x, f);
      } else {
        CleanUpLoose(Deleted(s, x), s.images[x].backing, f);
        LeftBehindOnward(s, x, f);
      }
    }
  }

  lemma BackingNotLoose(s: State, x: string)
    requires Consistent(s) && x in s.images
    ensures s.images[x].backing !in Loose(s.images)
  {
    assert Placed(s.images, x);
    var b := s.images[x].backing;
    if b in s.images {
      assert x in Children(s.images, b);
      assert s.images[b].refCount == |Children(s.images, b)|;
    }
  }

  lemma LooseAfterUnname(m: Images, x: string)
    requires x in m
    ensures Loose(Unname(m, x)) == Loose(m) + (if m[x].refCount == 0 then {x} else {})
  {
  }

  lemma LooseAfterInsert(m: Images, id: string, img: Image)
    requires id !in m && img.volumeRef != ""
    requires img.backing in m ==> 0 <= m[img.backing].refCount < MAX_INT32
    ensures Loose(Insert(m, id, img)) == Loose(m) - {img.backing}
  {
    if img.backing in m {
      Int32InRange(m[img.backing].refCount + 1);
    }
  }

  lemma BaseHasChild(s: State, v: string)
    requires SoundLayers(s) && v in s.active && s.active[v] in s.images && s.active[v] != v
    ensures v in s.images && s.images[v].refCount > 0
  {
    BaseUnderActiveLayer(s, v);
    var m, c := s.images, Chain(s.images, s.active[v]);
    ChainShape(m, s.active[v]);
    var i :| 0 <= i < |c| && c[i] == v;
    assert m[c[i - 1]].backing == v;
    assert c[i - 1] in Children(m, v);
    assert m[v].refCount == |Children(m, v)|;
  }

  // ----- deletions up to their clean-up

  /** A deletion finds what it needs. */
  ghost predicate Applies(s: State, c: Call) {
    match c
    case DropVolume(id) => id in s.active && s.active[id] in s.images
    case DropSnapshot(id, _) => id in s.images
    case _ => false
  }

  /** The image named in a deletion goes at once: it has no child and is not needed as an active layer. */
  ghost predicate GoesAtOnce(s: State, c: Call)
    requires c.id in s.images
  {
    s.images[c.id].refCount == 0 && (c.DropSnapshot? ==> !IsActiveLayer(s, c.id, c.source))
  }

  /** The state in which the clean-up after a deletion starts. */
  ghost function BeforeCleanUp(s: State, c: Call): State
    requires c.id in s.images
  {
    var active := if c.DropVolume? then s.active - {c.id} else s.active;
    if GoesAtOnce(s, c) then Deleted(s, c.id).(active := active)
    else State(Unname(s.images, c.id), active, s.daemon)
  }

  lemma BeforeCleanUpConsistent(s: State, c: Call)
    requires Consistent(s) && c.id in s.images
    ensures Consistent(BeforeCleanUp(s, c))
  {
    UnnameKeeps(s, c.id);
    if GoesAtOnce(s, c) {
      DeletedKeepsConsistent(s, c.id);
    }
  }

  /** The image named in a deletion is removed or released: if it goes at once, nothing refuses that. */
  ghost predicate TakesEffect(s: State, c: Call, f: Faults) {
    Applies(s, c) && c.id in s.images && (GoesAtOnce(s, c) ==> !DeletionRefused(s.images, c.id, f))
  }

  /** The deletion reaches its clean-up: a volume's directory comes before it. */
  predicate ReachesCleanUp(c: Call, f: Faults) {
    c.DropVolume? ==> !f.rmdir
  }

  lemma RefusedDeletion(s: State, id: string, f: Faults)
    requires Consistent(s) && id in s.images && s.images[id].refCount == 0
    ensures var r := DeleteImage(s, id, f);
            if DeletionRefused(s.images, id, f) then
              && r.reply != Ok && r.state.images == s.images && r.state.active == s.active
              && (r.reply != Failed(FileNotRemoved) ==> r.state == s)
            else r == Result(Deleted(s, id), Ok)
  {
    DeleteImageOutcome(s, id, f);
    assert Backed(s.images, s.daemon, id);
  }

  lemma AppliesToRecorded(s: State, c: Call)
    requires SoundLayers(s) && Applies(s, c)
    ensures c.id in s.images
    ensures GoesAtOnce(s, c) && c.DropVolume? ==> s.active[c.id] == c.id
    ensures c.DropVolume? && s.active[c.id] == c.id && s.images[c.id].refCount <= 0 ==> GoesAtOnce(s, c)
  {
    LiveBasesNamed(s);
    assert s.images[c.id].refCount == |Children(s.images, c.id)|;
    if c.DropVolume? && s.active[c.id] != c.id {
      BaseHasChild(s, c.id);
    }
  }

  /**
    A deletion is the removal or release of one image, then the clean-up from its backing image; if
    the image cannot be removed, or is not found, nothing is deleted and no volume ends.
   */
  lemma DeletionThenCleanUp(s: State, c: Call, f: Faults)
    requires SoundLayers(s) && (c.DropVolume? || c.DropSnapshot?)
    ensures Applies(s, c) ==> c.id in s.images
    ensures var r := Step(s, c, f);
            if !TakesEffect(s, c, f) then
              && r.reply != Ok && r.state.images == s.images && r.state.active == s.active
              && (r.reply != Failed(FileNotRemoved) ==> r.state == s)
            else if !ReachesCleanUp(c, f) then r == Result(BeforeCleanUp(s, c), Failed(DirectoryNotCleaned))
            else r == CleanUp(BeforeCleanUp(s, c), s.images[c.id].backing, f)
  {
    if Applies(s, c) {
      AppliesToRecorded(s, c);
      assert s.images[c.id].refCount == |Children(s.images, c.id)|;
      if GoesAtOnce(s, c) {
        RefusedDeletion(s, c.id, f);
      }
    }
  }

  lemma LooseBeforeCleanUp(s: State, c: Call)
    requires Consistent(s) && c.id in s.images
    ensures var s1, x := BeforeCleanUp(s, c), c.id;
            Loose(s1.images) - {s.images[x].backing} ==
            if GoesAtOnce(s, c) then Loose(s.images) - {x}
            else Loose(s.images) + (if s.images[x].refCount == 0 then {x} else {})
  {
    BackingNotLoose(s, c.id);
    assert Placed(s.images, c.id);
    if GoesAtOnce(s, c) {
      DeletedKeepsConsistent(s, c.id);
      LooseAfterRemove(s.images, c.id);
    } else {
      LooseAfterUnname(s.images, c.id);
    }
  }

  /** What a deletion leaves behind, loose, because something after its own image fails. */
  ghost function LeftOver(s: State, c: Call, f: Faults): set<string>
    requires c.id in s.images ==> IsForest(BeforeCleanUp(s, c).images)
  {
    if !TakesEffect(s, c, f) then {}
    else if ReachesCleanUp(c, f) then LeftBehind(BeforeCleanUp(s, c).images, s.images[c.id].backing, f)
    else Loose(BeforeCleanUp(s, c).images) * {s.images[c.id].backing}
  }

  /** The loose images after a deletion that takes effect. */
  lemma DeletionLoose(s: State, c: Call, f: Faults)
    requires SoundLayers(s) && (c.DropVolume? || c.DropSnapshot?) && TakesEffect(s, c, f)
    ensures Consistent(BeforeCleanUp(s, c))
    ensures Loose(Step(s, c, f).state.images) ==
            (if GoesAtOnce(s, c) then Loose(s.images) - {c.id}
             else Loose(s.images) + (if s.images[c.id].refCount == 0 then {c.id} else {})) + LeftOver(s, c, f)
    ensures Step(s, c, f).state.active == if c.DropVolume? then s.active - {c.id} else s.active
  {
    DeletionThenCleanUp(s, c, f);
    BeforeCleanUpConsistent(s, c);
    LooseBeforeCleanUp(s, c);
    CleanUpLoose(BeforeCleanUp(s, c), s.images[c.id].backing, f);
    CleanUpBooks(BeforeCleanUp(s, c), s.images[c.id].backing, f);
  }

  // ----- one call

  /** A volume is deleted while its active layer is another image that was already released and has no child. */
  ghost function OrphanedLayer(s: State, c: Call): set<string> {
    if c.DropVolume? && c.id in s.active && s.active[c.id] in Loose(s.images) then {s.active[c.id]} else {}
  }

  /** What a call leaks: an orphaned layer, and what it leaves behind that no volume writes to. */
  ghost function NewLeaks(s: State, c: Call, f: Faults): set<string>
    requires c.id in s.images ==> IsForest(BeforeCleanUp(s, c).images)
  {
    OrphanedLayer(s, c) + (LeftOver(s, c, f) - Step(s, c, f).state.active.Values)
  }

  /** A leaked image leaves that state only when a call names it. */
  ghost function Taken(s: State, c: Call, f: Faults): set<string> {
    match c
    case NewVolume(_, source) => if Step(s, c, f).reply == Ok then {source} else {}
    case DropSnapshot(id, _) => if TakesEffect(s, c, f) then {id} else {}
    case _ => {}
  }

  lemma DroppedVolumeLoose(s: State, id: string, f: Faults)
    requires SoundLayers(s) && TakesEffect(s, DropVolume(id), f)
    ensures Consistent(BeforeCleanUp(s, DropVolume(id)))
    ensures var s' := Step(s, DropVolume(id), f).state;
            && s'.active == s.active - {id}
            && Loose(s'.images) == Loose(s.images) + LeftOver(s, DropVolume(id), f)
  {
    LiveBasesNamed(s);
    DeletionLoose(s, DropVolume(id), f);
  }

  lemma DropVolumeLeaks(s: State, id: string, f: Faults)
    requires SoundLayers(s) && (id in s.images ==> Consistent(BeforeCleanUp(s, DropVolume(id))))
    ensures Leaked(Step(s, DropVolume(id), f).state) == Leaked(s) + NewLeaks(s, DropVolume(id), f)
  {
    var c := DropVolume(id);
    if TakesEffect(s, c, f) {
      DroppedVolumeLoose(s, id, f);
      ValuesAfterDrop(s, id);
    } else {
      DeletionThenCleanUp(s, c, f);
      if OrphanedLayer(s, c) != {} {
        OrphaningTakesEffect(s, id, f);
      }
    }
  }

  /** Above its base, an active layer keeps the base from going at once, so that nothing can refuse its deletion. */
  lemma OrphaningTakesEffect(s: State, id: string, f: Faults)
    requires SoundLayers(s) && OrphanedLayer(s, DropVolume(id)) != {}
    ensures TakesEffect(s, DropVolume(id), f)
  {
    LiveBasesNamed(s);
    AppliesToRecorded(s, DropVolume(id));
  }

  lemma ValuesAfterDrop(s: State, id: string)
    requires SoundLayers(s) && id in s.active && s.active[id] in s.images
    ensures (s.active - {id}).Values == s.active.Values - {s.active[id]}
  {
    var rest := s.active - {id};
    forall v | v in rest
      ensures rest[v] != s.active[id]
    {
      if s.active[v] == s.active[id] {
        ActiveLayersDiffer(s, v, id);
      }
    }
    forall x | x in s.active.Values && x != s.active[id]
      ensures x in rest.Values
    {
      var v :| v in s.active && s.active[v] == x;
      assert v in rest && rest[v] == x;
    }
  }

  lemma DroppedSnapshotLoose(s: State, id: string, source: string, f: Faults)
    requires SoundLayers(s) && Proper(s, DropSnapshot(id, source)) && TakesEffect(s, DropSnapshot(id, source), f)
    ensures Consistent(BeforeCleanUp(s, DropSnapshot(id, source)))
    ensures var s' := Step(s, DropSnapshot(id, source), f).state;
            && s'.active == s.active
            && Loose(s'.images) - s.active.Values - {id} ==
               (Loose(s.images) + LeftOver(s, DropSnapshot(id, source), f)) - s.active.Values - {id}
            && (id in Loose(s'.images) ==> id in s.active.Values)
  {
    var c := DropSnapshot(id, source);
    DeletionLoose(s, c, f);
    if IsActiveLayer(s, id, source) {
      assert s.active[source] == id;
    } else {
      ReleasedNotLeftOver(s, c, f);
    }
  }

  /** The image a deletion names is not what its clean-up leaves behind. */
  lemma ReleasedNotLeftOver(s: State, c: Call, f: Faults)
    requires SoundLayers(s) && c.id in s.images && Consistent(BeforeCleanUp(s, c))
    ensures c.id !in LeftOver(s, c, f)
  {
    var m, x := BeforeCleanUp(s, c).images, c.id;
    var b := s.images[x].backing;
    assert Placed(s.images, x);
    if b in m {
      ChainMembers(m, b);
      assert m[b].depth == s.images[b].depth;
      assert x in m ==> m[x].depth == s.images[x].depth;
    }
    ChainInStore(m, b);
  }

  lemma LeavingOut(before: set<string>, after: set<string>, added: set<string>, out: set<string>, x: string)
    requires after - out - {x} == (before + added) - out - {x}
    requires x !in added && (x in after ==> x in out)
    ensures after - out == before - out - {x} + (added - out)
  {
    forall y
      ensures y in after - out <==> y in before - out - {x} + (added - out)
    {
      assert y in after - out - {x} <==> y in (before + added) - out - {x};
    }
  }

  lemma TakenSnapshotLeaks(s: State, id: string, source: string, f: Faults)
    requires SoundLayers(s) && Proper(s, DropSnapshot(id, source)) && TakesEffect(s, DropSnapshot(id, source), f)
    ensures Consistent(BeforeCleanUp(s, DropSnapshot(id, source)))
    ensures var s' := Step(s, DropSnapshot(id, source), f).state;
            && s'.active == s.active
            && Leaked(s') == Leaked(s) - {id} + (LeftOver(s, DropSnapshot(id, source), f) - s.active.Values)
  {
    var c := DropSnapshot(id, source);
    DroppedSnapshotLoose(s, id, source, f);
    ReleasedNotLeftOver(s, c, f);
    LeavingOut(Loose(s.images), Loose(Step(s, c, f).state.images), LeftOver(s, c, f), s.active.Values, id);
  }

  lemma DropSnapshotLeaks(s: State, id: string, source: string, f: Faults)
    requires SoundLayers(s) && Proper(s, DropSnapshot(id, source))
    requires id in s.images ==> Consistent(BeforeCleanUp(s, DropSnapshot(id, source)))
    ensures var c := DropSnapshot(id, source);
            Leaked(Step(s, c, f).state) == Leaked(s) - Taken(s, c, f) + NewLeaks(s, c, f)
  {
    var c := DropSnapshot(id, source);
    if TakesEffect(s, c, f) {
      TakenSnapshotLeaks(s, id, source, f);
    } else {
      DeletionThenCleanUp(s, c, f);
    }
  }

  lemma NewVolumeLeaks(s: State, id: string, source: string, f: Faults)
    requires SoundLayers(s) && Admissible(s, NewVolume(id, source))
    ensures Leaked(CreateVolume(s, id, source, f).state) == Leaked(s) - Taken(s, NewVolume(id, source), f)
  {
    CreateVolumeKeeps(s, id, source, f);
    var r := CreateVolume(s, id, source, f);
    if r.reply == Ok {
      LiveBasesNamed(s);
      assert id !in s.active;
      ValuesAfterAdd(s.active, id);
      if source == "" {
        LooseAfterInsert(s.images, id, Image(GenerateQsdId(id), "", VolumePath(id), 0, id, 0));
      } else {
        assert s.images[source].refCount == |Children(s.images, source)|;
        LooseAfterInsert(s.images, id, NewLayer(s.images, id, source, VolumePath(id)));
      }
    }
  }

  lemma NewSnapshotLeaks(s: State, id: string, source: string, f: Faults)
    requires SoundLayers(s) && Admissible(s, NewSnapshot(id, source))
    ensures Leaked(CreateSnapshot(s, id, source, f).state) == Leaked(s)
  {
    CreateSnapshotKeeps(s, id, source, f);
    var r := CreateSnapshot(s, id, source, f);
    if r.reply == Ok {
      var layer := s.active[source];
      assert s.images[layer].refCount == |Children(s.images, layer)|;
      LooseAfterInsert(s.images, id, NewLayer(s.images, id, layer, SnapshotPath(source, GenerateQsdId(id))));
      ValuesAfterMove(s.active, source, id);
    }
  }

  lemma ValuesAfterAdd(active: map<string, string>, id: string)
    requires id !in active
    ensures active[id := id].Values == active.Values + {id}
  {
    forall y | y in active.Values
      ensures y in active[id := id].Values
    {
      var w :| w in active && active[w] == y;
      assert active[id := id][w] == y;
    }
    assert active[id := id][id] == id;
  }

  lemma ValuesAfterMove(active: map<string, string>, v: string, x: string)
    requires v in active
    ensures active[v := x].Values + {active[v]} == active.Values + {x} + {active[v]}
  {
    forall y | y in active.Values && y != active[v]
      ensures y in active[v := x].Values
    {
      var w :| w in active && active[w] == y;
      assert active[v := x][w] == y;
    }
    assert active[v := x][v] == x;
  }

  /** The state before a clean-up is consistent, so that the run the clean-up takes is defined. */
  lemma CleanUpDefined(s: State, c: Call)
    requires Consistent(s)
    ensures c.id in s.images ==> Consistent(BeforeCleanUp(s, c))
  {
    if c.id in s.images {
      BeforeCleanUpConsistent(s, c);
    }
  }

  /**
    Exact leaks under every refusal: a call leaks the released active layer of the volume it
    deletes, and the image at which its clean-up is cut short, and nothing else; leaked images stay
    leaked until a call names them.
   */
  lemma StepLeaks(s: State, c: Call, f: Faults)
    requires SoundLayers(s) && Admissible(s, c) && Proper(s, c)
    ensures c.id in s.images ==> Consistent(BeforeCleanUp(s, c))
    ensures Leaked(Step(s, c, f).state) == Leaked(s) - Taken(s, c, f) + NewLeaks(s, c, f)
  {
    CleanUpDefined(s, c);
    match c
    case NewVolume(id, source) => NewVolumeLeaks(s, id, source, f);
    case NewSnapshot(id, source) => NewSnapshotLeaks(s, id, source, f);
    case DropVolume(id) => DropVolumeLeaks(s, id, f);
    case DropSnapshot(id, source) => DropSnapshotLeaks(s, id, source, f);
  }

  /** When deletions are carried out, only an orphaned layer is leaked, and no deletion that applies fails. */
  lemma CompleteDeletesLeaveNothing(s: State, c: Call, f: Faults)
    requires SoundLayers(s) && DeletesComplete(f)
    ensures c.id in s.images ==> Consistent(BeforeCleanUp(s, c))
    ensures NewLeaks(s, c, f) == OrphanedLayer(s, c)
    ensures Step(s, c, f).reply != Failed(FileNotRemoved)
    ensures (c.DropVolume? || c.DropSnapshot?) && Applies(s, c) ==> Step(s, c, f).reply == Ok
  {
    CleanUpDefined(s, c);
    if (c.DropVolume? || c.DropSnapshot?) && Applies(s, c) {
      DeletionThenCleanUp(s, c, f);
      var s1, b := BeforeCleanUp(s, c), s.images[c.id].backing;
      CleanUpFailsExactly(s1, b, f);
      NothingRefused(s1.images, b, f);
    }
  }

  lemma NothingRefused(m: Images, x: string, f: Faults)
    requires IsForest(m) && DeletesWork(f)
    ensures !CleanUpBlocked(m, x, f) && LeftBehind(m, x, f) == {}
  {
    ChainInStore(m, x);
    var c := Chain(m, x);
    forall i | 0 <= i < RunFrom(m, c, 0)
      ensures !DeletionRefused(m, c[i], f)
    {
    }
  }

  // ----- runs

  /** What the calls of a run leaked. */
  ghost function Orphans(s: State, es: seq<Event>): set<string>
    requires SoundRun(s, es)
    decreases |es|
  {
    if es == [] then {}
    else
      CleanUpDefined(s, es[0].call);
      NewLeaks(s, es[0].call, es[0].faults) + Orphans(After(s, es[0]), es[1..])
  }

  /** The layers are sound before every call of the run. */
  ghost predicate SoundRun(s: State, es: seq<Event>)
    decreases |es|
  {
    es == [] || (SoundLayers(s) && SoundRun(After(s, es[0]), es[1..]))
  }

  lemma {:induction false} ProperRunIsSound(s: State, es: seq<Event>)
    requires SoundLayers(s) && StaysSmall(s, es)
    requires ProperCalls(s, es) && FilesRemoved(s, es)
    ensures SoundRun(s, es)
    decreases |es|
  {
    if es != [] {
      WellFormedIsAdmissible(s, es[0].call);
      StepKeepsLayers(s, es[0].call, es[0].faults);
      ProperRunIsSound(After(s, es[0]), es[1..]);
    }
  }

  /** The layers are sound and nothing but these images is leaked. */
  ghost predicate LeaksAtMost(s: State, xs: set<string>) {
    SoundLayers(s) && Leaked(s) <= xs
  }

  /** Over a whole run, whatever is leaked was leaked by one of its calls. */
  lemma {:induction false} RunLeaksOnlyOrphans(s: State, es: seq<Event>)
    requires SoundLayers(s) && StaysSmall(s, es)
    requires ProperCalls(s, es) && FilesRemoved(s, es)
    ensures SoundRun(s, es)
    ensures LeaksAtMost(Run(s, es), Leaked(s) + Orphans(s, es))
    decreases |es|
  {
    ProperRunIsSound(s, es);
    if es != [] {
      var c, f := es[0].call, es[0].faults;
      WellFormedIsAdmissible(s, c);
      StepKeepsLayers(s, c, f);
      StepLeaks(s, c, f);
      RunLeaksOnlyOrphans(After(s, es[0]), es[1..]);
    }
  }

  /** Every name has been given up and no volume is left. */
  ghost predicate Released(s: State) {
    s.active == map[] && forall x | x in s.images :: s.images[x].volumeRef == ""
  }

  /** A store without names and volumes is empty exactly when nothing is leaked: a forest has leaves. */
  lemma ReleasedStoreEmpty(s: State)
    requires Consistent(s) && Released(s)
    ensures s.images == map[] <==> Leaked(s) == {}
  {
    if s.images != map[] {
      var x :| x in s.images;
      var leaf := LeafAbove(s.images, x);
      assert leaf in Leaked(s);
    }
  }

  /** A proper run whose calls leak nothing, whatever they are refused. */
  ghost predicate OrphansNothing(s: State, es: seq<Event>) {
    && StaysSmall(s, es) && ProperCalls(s, es) && FilesRemoved(s, es)
    && SoundRun(s, es) && Orphans(s, es) == {}
  }

  /**
    Full reclamation: after any proper run that leaks nothing on the way, once all names are
    released and no volume is left, no image is left.
   */
  lemma {:induction false} FullReclamation(s: State, es: seq<Event>)
    requires LeaksAtMost(s, {}) && OrphansNothing(s, es)
    requires Released(Run(s, es))
    ensures Run(s, es).images == map[]
  {
    RunLeaksOnlyOrphans(s, es);
    ReleasedStoreEmpty(Run(s, es));
  }

  /** Releasing the active snapshot and then its volume leaks the snapshot's layer unless something builds on it. */
  lemma ActiveSnapshotFirstLeaks(s: State, v: string, f: Faults, f': Faults)
    requires SoundLayers(s) && DeletesComplete(f) && DeletesComplete(f')
    requires v in s.active && s.active[v] != v && s.active[v] in s.images
    ensures var s1 := Step(s, DropSnapshot(s.active[v], v), f).state;
            s.active[v] in Leaked(Step(s1, DropVolume(v), f').state) <==> s.images[s.active[v]].refCount == 0
  {
    var x := s.active[v];
    assert LiveVolume(s, v);
    var c := DropSnapshot(x, v);
    CompleteDeletesLeaveNothing(s, c, f);
    StepKeepsLayers(s, c, f);
    DeletionLoose(s, c, f);
    var s1 := Step(s, c, f).state;
    CompleteDeletesLeaveNothing(s1, DropVolume(v), f');
    StepLeaks(s1, DropVolume(v), f');
  }

  // ----- lost active layers

  /** The images the clean-up of a call takes. */
  ghost function Reclaimed(s: State, c: Call, f: Faults): set<string>
    requires c.id in s.images ==> IsForest(BeforeCleanUp(s, c).images)
  {
    if TakesEffect(s, c, f) && ReachesCleanUp(c, f)
    then RunTaken(BeforeCleanUp(s, c).images, s.images[c.id].backing, f)
    else {}
  }

  lemma ReclaimedImagesGo(s: State, c: Call, f: Faults, y: string)
    requires SoundLayers(s) && TakesEffect(s, c, f) && y in s.images
    requires Consistent(BeforeCleanUp(s, c))
    ensures y in Step(s, c, f).state.images <==>
            y in BeforeCleanUp(s, c).images && y !in Reclaimed(s, c, f)
  {
    DeletionThenCleanUp(s, c, f);
    CleanUpKeys(BeforeCleanUp(s, c), s.images[c.id].backing, f);
  }

  /** No volume that remains writes to the image a deletion removes at once. */
  lemma RemovedAtOnceIsNoLayer(s: State, c: Call, v: string)
    requires SoundLayers(s) && Proper(s, c) && Applies(s, c) && c.id in s.images && GoesAtOnce(s, c)
    requires v in s.active && (c.DropVolume? ==> v != c.id)
    ensures s.active[v] != c.id
  {
    if s.active[v] == c.id {
      match c
      case DropVolume(id) =>
        if s.active[id] != id {
          BaseHasChild(s, id);
        } else {
          ActiveLayersDiffer(s, v, id);
        }
        assert false;
      case DropSnapshot(id, source) =>
        LocalCheckIsGlobal(s, id, source);
    }
  }

  lemma TakenLayerLost(s: State, c: Call, f: Faults, v: string)
    requires SoundLayers(s) && Proper(s, c) && TakesEffect(s, c, f) && Consistent(BeforeCleanUp(s, c))
    requires v in s.active && s.active[v] in s.images && (c.DropVolume? ==> v != c.id)
    ensures s.active[v] !in Step(s, c, f).state.images <==> s.active[v] in Reclaimed(s, c, f)
  {
    ReclaimedImagesGo(s, c, f, s.active[v]);
    if GoesAtOnce(s, c) {
      RemovedAtOnceIsNoLayer(s, c, v);
    }
  }

  /**
    Under every refusal, a volume that a call leaves live loses its recorded active layer exactly
    when the clean-up of the call takes that layer.
   */
  lemma ActiveLayerLostExactly(s: State, c: Call, f: Faults, v: string)
    requires SoundLayers(s) && Admissible(s, c) && Proper(s, c)
    requires v in s.active && v in Step(s, c, f).state.active && s.active[v] in s.images
    ensures c.id in s.images ==> Consistent(BeforeCleanUp(s, c))
    ensures s.active[v] !in Step(s, c, f).state.images <==> s.active[v] in Reclaimed(s, c, f)
  {
    CleanUpDefined(s, c);
    if TakesEffect(s, c, f) {
      DeletionLoose(s, c, f);
      TakenLayerLost(s, c, f, v);
    } else {
      UnappliedKeepsImages(s, c, f);
    }
  }

  lemma UnappliedKeepsImages(s: State, c: Call, f: Faults)
    requires SoundLayers(s) && !TakesEffect(s, c, f)
    ensures s.images.Keys <= Step(s, c, f).state.images.Keys
  {
    if c.DropVolume? || c.DropSnapshot? {
      DeletionThenCleanUp(s, c, f);
    }
  }
}
