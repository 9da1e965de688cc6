/** Every call of the server keeps the store consistent, whatever the outside world answers. */
module Preservation {
  import opened Options
  import opened Names
  import opened Forest
  import opened BlockGraph
  import opened Store
  import opened Consistency

  // ----- recording a new image

  /** A new image fits a state: its names follow from its ID, its node name is unknown to the daemon. */
  ghost predicate Recordable(s: State, id: string, img: Image) {
    && WellFormedId(id) && QsdIdDefined(id)
    && img.qsdId == GenerateQsdId(id)
    && img.volumeRef == id
    && Located(id, img)
    && img.qsdId !in s.daemon.nodes
    && FitsOn(s.images, img)
  }

  ghost function NodeBelow(m: Images, img: Image): Option<string> {
    if img.backing in m then Some(m[img.backing].qsdId) else None
  }

  lemma RecordKeepsIdentity(s: State, id: string, img: Image, x: string)
    requires Recordable(s, id, img) && id !in s.images
    requires x in s.images ==> Identified(s.images, x)
    requires x in s.images || x == id
    ensures Identified(Insert(s.images, id, img), x)
    ensures x in s.images ==> Insert(s.images, id, img)[x].qsdId == s.images[x].qsdId
  {
  }

  lemma RecordKeepsNames(s: State, id: string, img: Image)
    requires Consistent(s) && Recordable(s, id, img)
    ensures var m := Insert(s.images, id, img);
            && (forall x | x in m :: Identified(m, x))
            && DistinctNodes(m)
  {
    UnknownNodeIsFresh(s, id);
    var m := Insert(s.images, id, img);
    forall x | x in m
      ensures Identified(m, x)
      ensures x in s.images ==> m[x].qsdId == s.images[x].qsdId
    {
      assert x in s.images ==> Identified(s.images, x);
      RecordKeepsIdentity(s, id, img, x);
    }
  }

  lemma RecordKeepsBacked(m: Images, d: Daemon, id: string, img: Image, d': Daemon, x: string)
    requires id !in m && id != "" && x in m && x != id && Placed(m, x) && Backed(m, d, x)
    requires m[x].qsdId != img.qsdId && img.qsdId in d'.nodes
    requires d'.nodes == d.nodes[img.qsdId := d'.nodes[img.qsdId]]
    requires d.files.Keys <= d'.files.Keys
    ensures Backed(Insert(m, id, img), d', x)
  {
    assert BackingNode(Insert(m, id, img), x) == BackingNode(m, x);
  }

  lemma RecordKeepsAgreement(s: State, id: string, img: Image, d: Daemon)
    requires Consistent(s) && Recordable(s, id, img)
    requires d.nodes == s.daemon.nodes[img.qsdId := Node(img.file, NodeBelow(s.images, img))]
    requires d.files.Keys == s.daemon.files.Keys + {img.file}
    ensures Agrees(Insert(s.images, id, img), d)
  {
    UnknownNodeIsFresh(s, id);
    var m, m' := s.images, Insert(s.images, id, img);
    assert id !in m && id != "";
    forall x | x in m'
      ensures Backed(m', d, x)
    {
      if x != id {
        assert Backed(m, s.daemon, x) && Placed(m, x);
        RecordKeepsBacked(m, s.daemon, id, img, d, x);
      }
    }
    RecordKeepsStrays(s, id, img, d);
  }

  lemma RecordKeepsStrays(s: State, id: string, img: Image, d: Daemon)
    requires StraysAlone(s.images, s.daemon) && id !in s.images
    requires d.nodes == s.daemon.nodes[img.qsdId := Node(img.file, NodeBelow(s.images, img))]
    ensures StraysAlone(Insert(s.images, id, img), d)
  {
    var m, m' := s.images, Insert(s.images, id, img);
    forall n | n in d.nodes && d.nodes[n].backing.Some?
      ensures n in QsdIds(m')
    {
      if n == img.qsdId {
        assert m'[id].qsdId == n;
      } else {
        var x :| x in m && m[x].qsdId == n;
        assert x in m' && m'[x].qsdId == n;
      }
    }
  }

  lemma RecordKeepsConsistent(s: State, id: string, img: Image, volume: string, d: Daemon)
    requires Consistent(s) && Recordable(s, id, img)
    requires d.nodes == s.daemon.nodes[img.qsdId := Node(img.file, NodeBelow(s.images, img))]
    requires d.files.Keys == s.daemon.files.Keys + {img.file}
    ensures Consistent(Record(s, id, img, volume, d))
  {
    UnknownNodeIsFresh(s, id);
    InsertKeepsShape(s.images, id, img);
    InsertKeepsCounts(s.images, id, img);
    RecordKeepsNames(s, id, img);
    RecordKeepsAgreement(s, id, img, d);
  }

  /** A failed creation may leave files and one unbacked node behind, nothing else. */
  lemma LeftoversKeepConsistent(s: State, d: Daemon, q: string, file: string)
    requires Consistent(s)
    requires d.nodes == s.daemon.nodes ||
             (q !in s.daemon.nodes && d.nodes == s.daemon.nodes[q := Node(file, None)])
    requires s.daemon.files.Keys <= d.files.Keys
    ensures Consistent(s.(daemon := d))
  {
    forall x | x in s.images
      ensures Backed(s.images, d, x)
    {
      assert Backed(s.images, s.daemon, x);
    }
  }

  // ----- the daemon's part of a creation

  /** When nothing uses the node, adding a bare node and snapshotting onto it equals adding it with a backing node. */
  lemma InstallIsOverlay(nodes: map<string, Node>, node: string, name: string, file: string)
    requires node in nodes && name !in nodes && !InUse(nodes, node)
    ensures Redirected(nodes[name := Node(file, None)], node, name) == nodes[name := Node(file, Some(node))]
  {
  }

  /**
    The reference count decides the path of CreateSnapshot, and has to: installing an overlay with
    blockdev-snapshot keeps the recorded images on their recorded nodes exactly when none is on top.
   */
  lemma InstallGuardIsExact(s: State, x: string, name: string, file: string)
    requires Consistent(s) && x in s.images && name !in s.daemon.nodes
    ensures var nodes := Redirected(s.daemon.nodes[name := Node(file, None)], s.images[x].qsdId, name);
            (forall y | y in s.images :: Backed(s.images, s.daemon.(nodes := nodes), y)) <==> s.images[x].refCount < 1
  {
    var m, d, q := s.images, s.daemon, s.images[x].qsdId;
    var nodes := Redirected(d.nodes[name := Node(file, None)], q, name);
    assert m[x].refCount == |Children(m, x)|;
    UsersAreChildren(s, x);
    if m[x].refCount < 1 {
      assert Backed(m, d, x);
      InstallIsOverlay(d.nodes, q, name, file);
      forall y | y in m
        ensures Backed(m, d.(nodes := nodes), y)
      {
        assert Backed(m, d, y);
      }
    } else {
      var y :| y in Children(m, x);
      assert Backed(m, d, y) && Backed(m, d, x);
      assert nodes[m[y].qsdId].backing == Some(name);
      assert !Backed(m, d.(nodes := nodes), y);
    }
  }

  lemma DiskAnswer(d: Daemon, file: string, name: string, f: Faults)
    ensures var a := CreateDisk(d, file, name, f);
            && d.files.Keys <= a.daemon.files.Keys
            && (if a.ok
                then && name !in d.nodes
                     && a.daemon.nodes == d.nodes[name := Node(file, None)]
                     && a.daemon.files.Keys == d.files.Keys + {file}
                else a.daemon.nodes == d.nodes)
  {
  }

  lemma OverlayAnswer(d: Daemon, node: string, name: string, image: string, file: string, f: Faults)
    requires node in d.nodes
    ensures var a := CreateWithBackingNode(d, node, name, image, file, f);
            && d.files.Keys <= a.daemon.files.Keys
            && (a.ok ==> image in d.files && !f.qemuImg)
            && (if a.ok
                then && name !in d.nodes
                     && a.daemon.nodes == d.nodes[name := Node(file, Some(node))]
                     && a.daemon.files.Keys == d.files.Keys + {file}
                else a.daemon.nodes == d.nodes)
  {
  }

  lemma InstallSteps(d: Daemon, node: string, name: string, file: string, f: Faults)
    ensures var add, snap := BlockdevAdd(name, file, None), BlockdevSnapshot(node, name);
            ExecuteAll(d, [add, snap], f) ==
            var first := Execute(d, add, f);
            if first.ok then Execute(first.daemon, snap, f) else first
  {
    var cmds := [BlockdevAdd(name, file, None), BlockdevSnapshot(node, name)];
    var first := Execute(d, cmds[0], f);
    var rest := cmds[1..];
    assert rest == [cmds[1]] && rest[1..] == [];
    assert ExecuteAll(first.daemon, rest, f) == Execute(first.daemon, cmds[1], f);
  }

  lemma InstallAnswer(d: Daemon, node: string, name: string, image: string, file: string, f: Faults)
    requires node in d.nodes && !InUse(d.nodes, node)
    ensures var a := CreateAndInstall(d, node, name, image, file, f);
            && d.files.Keys <= a.daemon.files.Keys
            && (a.ok ==> image in d.files && !f.qemuImg)
            && (if a.ok
                then && name !in d.nodes
                     && a.daemon.nodes == d.nodes[name := Node(file, Some(node))]
                     && a.daemon.files.Keys == d.files.Keys + {file}
                else a.daemon.nodes == if name !in d.nodes && image in d.files && !f.qemuImg && !f.add
                                       then d.nodes[name := Node(file, None)] else d.nodes)
  {
    var o := CreateOverlayFile(d, image, file, f);
    if o.ok {
      InstallSteps(o.daemon, node, name, file, f);
      if name !in d.nodes {
        InstallIsOverlay(d.nodes, node, name, file);
      }
    }
  }

  // ----- the four calls

  /** The counters of an image have room for one more image on top. */
  ghost predicate HasRoom(m: Images, x: string) {
    x in m ==> m[x].refCount < MAX_INT32 && m[x].depth < MAX_UINT32
  }

  lemma CreateRootKeeps(s: State, id: string, f: Faults)
    requires Consistent(s) && WellFormedId(id)
    ensures Consistent(CreateVolume(s, id, "", f).state)
    ensures CreateVolume(s, id, "", f).reply == Ok ==>
              id !in s.images && CreateVolume(s, id, "", f).state ==
              Record(s, id, Image(GenerateQsdId(id), "", VolumePath(id), 0, id, 0), id,
                     CreateDisk(s.daemon, VolumePath(id), GenerateQsdId(id), f).daemon)
  {
    if !f.mkdir && QsdIdDefined(id) {
      var q, file := GenerateQsdId(id), VolumePath(id);
      var a := CreateDisk(s.daemon, file, q, f);
      DiskAnswer(s.daemon, file, q, f);
      if a.ok {
        UnknownNodeIsFresh(s, id);
        RecordKeepsConsistent(s, id, Image(q, "", file, 0, id, 0), id, a.daemon);
      } else {
        LeftoversKeepConsistent(s, a.daemon, q, file);
      }
    }
  }

  lemma NewLayerRecordable(s: State, id: string, backing: string, file: string)
    requires Consistent(s) && WellFormedId(id) && QsdIdDefined(id)
    requires GenerateQsdId(id) !in s.daemon.nodes
    requires file == VolumePath(id) || exists src :: file == SnapshotPath(src, GenerateQsdId(id))
    requires backing in s.images && HasRoom(s.images, backing)
    ensures Recordable(s, id, NewLayer(s.images, id, backing, file))
  {
    assert Placed(s.images, backing);
  }

  lemma CreateCloneKeeps(s: State, id: string, source: string, f: Faults)
    requires Consistent(s) && WellFormedId(id) && source in s.images && HasRoom(s.images, source)
    ensures Consistent(CreateVolume(s, id, source, f).state)
    ensures CreateVolume(s, id, source, f).reply == Ok ==> id !in s.images
  {
    assert source != "";
    if !f.mkdir && QsdIdDefined(id) {
      var b, q, file := s.images[source], GenerateQsdId(id), VolumePath(id);
      assert Backed(s.images, s.daemon, source);
      var a := CreateWithBackingNode(s.daemon, b.qsdId, q, b.file, file, f);
      OverlayAnswer(s.daemon, b.qsdId, q, b.file, file, f);
      if a.ok {
        UnknownNodeIsFresh(s, id);
        NewLayerRecordable(s, id, source, file);
        RecordKeepsConsistent(s, id, NewLayer(s.images, id, source, file), id, a.daemon);
      } else {
        LeftoversKeepConsistent(s, a.daemon, q, file);
      }
    }
  }

  lemma CreateVolumeKeeps(s: State, id: string, source: string, f: Faults)
    requires Consistent(s) && WellFormedId(id) && HasRoom(s.images, source)
    ensures Consistent(CreateVolume(s, id, source, f).state)
    ensures CreateVolume(s, id, source, f).reply == Ok ==> id !in s.images
  {
    if source == "" {
      CreateRootKeeps(s, id, f);
    } else if source in s.images {
      CreateCloneKeeps(s, id, source, f);
    }
  }

  /** What the daemon is left with after the command sequence of CreateSnapshot, on either path. */
  ghost function SnapshotAnswer(s: State, id: string, source: string, f: Faults): Answer
    requires source in s.active && s.active[source] in s.images && QsdIdDefined(id)
  {
    var i := s.images[s.active[source]];
    var q := GenerateQsdId(id);
    var file := SnapshotPath(source, q);
    if i.refCount < 1 then CreateAndInstall(s.daemon, i.qsdId, q, i.file, file, f)
    else CreateWithBackingNode(s.daemon, i.qsdId, q, i.file, file, f)
  }

  /** Both paths of CreateSnapshot have the same effect on the graph; the count picks the one that has. */
  lemma SnapshotAnswerShape(s: State, id: string, source: string, f: Faults)
    requires Consistent(s) && QsdIdDefined(id)
    requires source in s.active && s.active[source] in s.images
    ensures var d, a, q := s.daemon, SnapshotAnswer(s, id, source, f), GenerateQsdId(id);
            var file := SnapshotPath(source, q);
            && d.files.Keys <= a.daemon.files.Keys
            && (if a.ok
                then && q !in d.nodes
                     && a.daemon.nodes == d.nodes[q := Node(file, Some(s.images[s.active[source]].qsdId))]
                     && a.daemon.files.Keys == d.files.Keys + {file}
                else || a.daemon.nodes == d.nodes
                     || (q !in d.nodes && a.daemon.nodes == d.nodes[q := Node(file, None)]))
  {
    var i := s.images[s.active[source]];
    var q := GenerateQsdId(id);
    assert Backed(s.images, s.daemon, s.active[source]);
    UsersAreChildren(s, s.active[source]);
    if i.refCount < 1 {
      InstallAnswer(s.daemon, i.qsdId, q, i.file, SnapshotPath(source, q), f);
    } else {
      OverlayAnswer(s.daemon, i.qsdId, q, i.file, SnapshotPath(source, q), f);
    }
  }

  lemma CreateSnapshotKeeps(s: State, id: string, source: string, f: Faults)
    requires Consistent(s) && WellFormedId(id)
    requires source in s.active ==> HasRoom(s.images, s.active[source])
    ensures Consistent(CreateSnapshot(s, id, source, f).state)
    ensures CreateSnapshot(s, id, source, f).reply == Ok ==> id !in s.images
  {
    if source in s.active && s.active[source] in s.images && !f.stat && QsdIdDefined(id) {
      var layer := s.active[source];
      var q := GenerateQsdId(id);
      var file := SnapshotPath(source, q);
      SnapshotAnswerShape(s, id, source, f);
      var a := SnapshotAnswer(s, id, source, f);
      if a.ok {
        UnknownNodeIsFresh(s, id);
        NewLayerRecordable(s, id, layer, file);
        RecordKeepsConsistent(s, id, NewLayer(s.images, id, layer, file), source, a.daemon);
      } else {
        LeftoversKeepConsistent(s, a.daemon, q, file);
      }
    }
  }

  lemma UnnameKeepsImage(m: Images, d: Daemon, id: string, x: string)
    requires id in m && x in m && Placed(m, x) && Identified(m, x) && Backed(m, d, x)
    ensures Placed(Unname(m, id), x) && Identified(Unname(m, id), x) && Backed(Unname(m, id), d, x)
    ensures Unname(m, id)[x].qsdId == m[x].qsdId
  {
    assert BackingNode(Unname(m, id), x) == BackingNode(m, x);
  }

  lemma UnnameKeepsChildren(m: Images, id: string, x: string)
    requires id in m && x in m
    ensures Children(Unname(m, id), x) == Children(m, x)
    ensures Unname(m, id)[x].refCount == m[x].refCount
  {
  }

  lemma UnnameKeepsAgreement(s: State, id: string)
    requires Consistent(s) && id in s.images
    ensures Agrees(Unname(s.images, id), s.daemon)
  {
    var m, m' := s.images, Unname(s.images, id);
    forall x | x in m'
      ensures Backed(m', s.daemon, x)
    {
      assert Placed(m, x) && Identified(m, x) && Backed(m, s.daemon, x);
      UnnameKeepsImage(m, s.daemon, id, x);
    }
    forall n | n in s.daemon.nodes && s.daemon.nodes[n].backing.Some?
      ensures n in QsdIds(m')
    {
      var x :| x in m && m[x].qsdId == n;
      assert x in m' && m'[x].qsdId == n;
    }
  }

  lemma UnnameKeepsForest(s: State, id: string)
    requires Consistent(s) && id in s.images
    ensures IsForest(Unname(s.images, id)) && Counts(Unname(s.images, id))
    ensures forall x | x in s.images :: Children(Unname(s.images, id), x) == Children(s.images, x)
  {
    var m, m' := s.images, Unname(s.images, id);
    forall x | x in m
      ensures Placed(m', x)
      ensures Children(m', x) == Children(m, x) && m'[x].refCount == m[x].refCount
    {
      UnnameKeepsChildren(m, id, x);
      assert Placed(m, x) && Identified(m, x) && Backed(m, s.daemon, x);
      UnnameKeepsImage(m, s.daemon, id, x);
    }
  }

  lemma UnnameKeeps(s: State, id: string)
    requires Consistent(s) && id in s.images
    ensures Consistent(s.(images := Unname(s.images, id)))
    ensures forall x | x in s.images :: Children(Unname(s.images, id), x) == Children(s.images, x)
  {
    var m, m' := s.images, Unname(s.images, id);
    UnnameKeepsForest(s, id);
    UnnameKeepsAgreement(s, id);
    forall x | x in m'
      ensures Identified(m', x) && m'[x].qsdId == s.images[x].qsdId
    {
      assert Placed(m, x) && Identified(m, x) && Backed(m, s.daemon, x);
      UnnameKeepsImage(m, s.daemon, id, x);
    }
  }

  /** The state after an image has been deleted completely. */
  ghost function Deleted(s: State, id: string): State
    requires id in s.images
  {
    State(
      Remove(s.images, id),
      s.active,
      Daemon(s.daemon.nodes - {s.images[id].qsdId}, s.daemon.files - {s.images[id].file}))
  }

  lemma RemoveKeepsIdentity(m: Images, id: string, x: string)
    requires id in m && x in m && x != id && Identified(m, x)
    ensures Identified(Remove(m, id), x)
    ensures Remove(m, id)[x].qsdId == m[x].qsdId
  {
  }

  lemma RemoveKeepsBacked(m: Images, d: Daemon, id: string, x: string)
    requires id in m && x in m && x != id && Placed(m, x) && Backed(m, d, x)
    requires m[x].backing != id && m[x].qsdId != m[id].qsdId && m[x].file != m[id].file
    ensures Backed(Remove(m, id), Daemon(d.nodes - {m[id].qsdId}, d.files - {m[id].file}), x)
  {
    assert BackingNode(Remove(m, id), x) == BackingNode(m, x);
  }

  lemma DeletedKeepsConsistent(s: State, id: string)
    requires Consistent(s) && id in s.images && s.images[id].refCount == 0
    ensures Children(s.images, id) == {}
    ensures Consistent(Deleted(s, id))
  {
    var m, s' := s.images, Deleted(s, id);
    assert m[id].refCount == |Children(m, id)|;
    RemoveKeepsShape(m, id);
    RemoveKeepsCounts(m, id);
    forall x | x in s'.images
      ensures Identified(s'.images, x) && Backed(s'.images, s'.daemon, x)
      ensures s'.images[x].qsdId == m[x].qsdId
    {
      assert x in Children(m, id) <==> m[x].backing == id;
      assert Identified(m, x);
      RemoveKeepsIdentity(m, id, x);
      assert Placed(m, x) && Backed(m, s.daemon, x);
      FilesDistinct(s, x, id);
      RemoveKeepsBacked(m, s.daemon, id, x);
    }
    forall n | n in s'.daemon.nodes && s'.daemon.nodes[n].backing.Some?
      ensures n in QsdIds(s'.images)
    {
      var x :| x in m && m[x].qsdId == n;
      assert x in s'.images && s'.images[x].qsdId == n;
    }
  }

  /**
    deleteImage deletes an image completely, or changes nothing, or, when only the file could
    not be removed, leaves a record without a node. It never deletes an image that backs another
    one, and never misses a backing image.
   */
  lemma DeleteImageOutcome(s: State, id: string, f: Faults)
    requires Consistent(s)
    ensures var r := DeleteImage(s, id, f);
            match r.reply
            case Ok => id in s.images && s.images[id].refCount == 0 && r.state == Deleted(s, id) && Consistent(r.state)
            case Failed(FileNotRemoved) => !Consistent(r.state)
            case Failed(BackendRefused) => r.state == s
            case Failed(ImageNotFound) => r.state == s && id !in s.images
            case _ => false
    ensures id in s.images && s.images[id].refCount > 0 ==> DeleteImage(s, id, f) == Result(s, Failed(BackendRefused))
    ensures id in s.images && s.images[id].refCount == 0 &&
            s.images[id].qsdId !in f.del && s.images[id].file !in f.unlink ==>
              DeleteImage(s, id, f).reply == Ok
  {
    if id in s.images {
      var i := s.images[id];
      assert Backed(s.images, s.daemon, id) && Placed(s.images, id);
      assert i.refCount == |Children(s.images, id)|;
      UsersAreChildren(s, id);
      var r := DeleteImage(s, id, f);
      if r.reply == Ok {
        DeletedKeepsConsistent(s, id);
      } else if r.reply == Failed(FileNotRemoved) {
        assert !Backed(r.state.images, r.state.daemon, id);
      }
    }
  }

  lemma {:induction false} CleanUpKeeps(s: State, id: string, f: Faults)
    requires Consistent(s)
    ensures var r := CleanUp(s, id, f);
            && (Consistent(r.state) <==> r.reply != Failed(FileNotRemoved))
            && r.reply in {Ok, Failed(BackendRefused), Failed(FileNotRemoved)}
    decreases |s.images|
  {
    if id in s.images && s.images[id].refCount <= 0 && s.images[id].volumeRef == "" {
      DeleteImageOutcome(s, id, f);
      var r := DeleteImage(s, id, f);
      if r.reply == Ok && s.images[id].backing != "" {
        assert r.state.images.Keys == s.images.Keys - {id};
        CleanUpKeeps(r.state, s.images[id].backing, f);
      }
    }
  }

  lemma DeleteVolumeKeeps(s: State, id: string, f: Faults)
    requires Consistent(s)
    ensures var r := DeleteVolume(s, id, f);
            && (Consistent(r.state) <==> r.reply != Failed(FileNotRemoved))
            && r.reply != Failed(BackingImageNotFound)
  {
    if id in s.active && s.active[id] in s.images {
      var layer := s.active[id];
      if s.images[layer].refCount < 1 && layer == id {
        DeleteImageOutcome(s, id, f);
        var r := DeleteImage(s, id, f);
        if r.reply == Ok {
          CleanUpKeeps(r.state.(active := r.state.active - {id}), s.images[id].backing, f);
        }
      } else if id in s.images {
        UnnameKeeps(s, id);
        CleanUpKeeps(State(Unname(s.images, id), s.active - {id}, s.daemon), s.images[id].backing, f);
      }
    }
  }

  lemma DeleteSnapshotKeeps(s: State, id: string, source: string, f: Faults)
    requires Consistent(s)
    ensures var r := DeleteSnapshot(s, id, source, f);
            && (Consistent(r.state) <==> r.reply != Failed(FileNotRemoved))
            && r.reply != Failed(BackingImageNotFound) && r.reply != Panicked
  {
    if id in s.images {
      var i := s.images[id];
      if i.refCount < 1 && !IsActiveLayer(s, id, source) {
        DeleteImageOutcome(s, id, f);
        var r := DeleteImage(s, id, f);
        if r.reply == Ok {
          CleanUpKeeps(r.state, i.backing, f);
        }
      } else {
        UnnameKeeps(s, id);
        CleanUpKeeps(s.(images := Unname(s.images, id)), i.backing, f);
      }
    }
  }

  /** What a call must satisfy so that the store can record its result. */
  ghost predicate Admissible(s: State, c: Call) {
    match c
    case NewVolume(id, source) => WellFormedId(id) && HasRoom(s.images, source)
    case NewSnapshot(id, source) =>
      WellFormedId(id) && (source in s.active ==> HasRoom(s.images, s.active[source]))
    case DropVolume(_) => true
    case DropSnapshot(_, _) => true
  }

  /**
    Every call keeps the store consistent, whatever fails outside, except when a node was
    deleted and its file could not be removed; and then it does not.
   */
  lemma StepKeepsConsistent(s: State, c: Call, f: Faults)
    requires Consistent(s) && Admissible(s, c)
    ensures Consistent(Step(s, c, f).state) <==> Step(s, c, f).reply != Failed(FileNotRemoved)
    ensures Step(s, c, f).reply != Failed(BackingImageNotFound)
  {
    match c
    case NewVolume(id, source) => CreateVolumeKeeps(s, id, source, f);
    case NewSnapshot(id, source) => CreateSnapshotKeeps(s, id, source, f);
    case DropVolume(id) => DeleteVolumeKeeps(s, id, f);
    case DropSnapshot(id, source) => DeleteSnapshotKeeps(s, id, source, f);
  }

  /** The image a creation builds on. */
  ghost function BackingOf(s: State, c: Call): string {
    match c
    case NewVolume(_, source) => source
    case NewSnapshot(_, source) => if source in s.active then s.active[source] else ""
    case _ => ""
  }

  /** Every successful creation on top of an image records one new layer, before any question of room. */
  lemma CreationRecordsLayer(s: State, c: Call, f: Faults)
    requires Consistent(s) && (c.NewVolume? || c.NewSnapshot?) && WellFormedId(c.id)
    requires Step(s, c, f).reply == Ok && BackingOf(s, c) != ""
    ensures QsdIdDefined(c.id) && BackingOf(s, c) in s.images && c.id !in s.images
    ensures var file := if c.NewVolume? then VolumePath(c.id) else SnapshotPath(c.source, GenerateQsdId(c.id));
            Step(s, c, f).state.images == Insert(s.images, c.id, NewLayer(s.images, c.id, BackingOf(s, c), file))
  {
    var q, b := GenerateQsdId(c.id), BackingOf(s, c);
    assert Backed(s.images, s.daemon, b);
    if c.NewVolume? {
      OverlayAnswer(s.daemon, s.images[b].qsdId, q, s.images[b].file, VolumePath(c.id), f);
    } else {
      SnapshotAnswerShape(s, c.id, c.source, f);
    }
    UnknownNodeIsFresh(s, c.id);
  }

  lemma FullBackingBreaks(m: Images, id: string, b: string, file: string)
    requires IsForest(m) && Counts(m) && QsdIdDefined(id) && b in m && id !in m && !HasRoom(m, b)
    ensures !(IsForest(Insert(m, id, NewLayer(m, id, b, file))) && Counts(Insert(m, id, NewLayer(m, id, b, file))))
  {
    assert m[b].refCount == |Children(m, b)| <= MAX_INT32;
    if m[b].refCount == MAX_INT32 {
      CountOverflows(m, id, NewLayer(m, id, b, file));
    } else {
      DepthOverflows(m, id, NewLayer(m, id, b, file));
    }
  }

  /** The counters decide: a successful creation keeps the store consistent exactly when there was room for it. */
  lemma CreationNeedsRoom(s: State, c: Call, f: Faults)
    requires Consistent(s) && (c.NewVolume? || c.NewSnapshot?) && WellFormedId(c.id)
    requires Step(s, c, f).reply == Ok && BackingOf(s, c) != ""
    ensures Consistent(Step(s, c, f).state) <==> HasRoom(s.images, BackingOf(s, c))
  {
    if HasRoom(s.images, BackingOf(s, c)) {
      StepKeepsConsistent(s, c, f);
    } else {
      CreationRecordsLayer(s, c, f);
      var file := if c.NewVolume? then VolumePath(c.id) else SnapshotPath(c.source, GenerateQsdId(c.id));
      FullBackingBreaks(s.images, c.id, BackingOf(s, c), file);
    }
  }

  /** With fewer than 2^31 images no counter is at its limit. */
  lemma SmallStoreHasRoom(m: Images, x: string)
    requires IsForest(m) && Counts(m) && |m| <= MAX_INT32
    ensures HasRoom(m, x)
  {
    if x in m {
      CountersBelowSize(m, x);
    }
  }

  // ----- lost answers of the daemon

  /**
    A command that takes effect while its answer is lost counts as failed and changes no record.
    Consistency survives that for a bare new node and for the deletion of a node without record,
    and for nothing else.
   */
  lemma LostAnswer(s: State, c: Command)
    requires Consistent(s) && Accepts(s.daemon, c)
    ensures Consistent(s.(daemon := Apply(s.daemon, c))) <==>
            match c
            case BlockdevAdd(_, _, backing) => backing == None
            case BlockdevSnapshot(_, _) => false
            case BlockdevDel(name) => name !in QsdIds(s.images)
  {
    match c
    case BlockdevAdd(name, file, backing) =>
      RecordedNode(s, name);
      if backing == None {
        LeftoversKeepConsistent(s, Apply(s.daemon, c), name, file);
      }
    case BlockdevSnapshot(node, overlay) =>
      LostSnapshotBreaks(s, node, overlay);
    case BlockdevDel(name) =>
      if name !in QsdIds(s.images) {
        LostDeletionHarmless(s, name);
      } else {
        var x :| x in s.images && s.images[x].qsdId == name;
        assert !Backed(s.images, Apply(s.daemon, c), x);
      }
  }

  lemma RecordedNode(s: State, name: string)
    requires Consistent(s)
    ensures name in QsdIds(s.images) ==> name in s.daemon.nodes
  {
    if name in QsdIds(s.images) {
      var x :| x in s.images && s.images[x].qsdId == name;
      assert Backed(s.images, s.daemon, x);
    }
  }

  lemma LostSnapshotBreaks(s: State, node: string, overlay: string)
    requires Consistent(s) && Accepts(s.daemon, BlockdevSnapshot(node, overlay))
    ensures !Consistent(s.(daemon := Apply(s.daemon, BlockdevSnapshot(node, overlay))))
  {
    var d := Apply(s.daemon, BlockdevSnapshot(node, overlay));
    assert d.nodes[overlay].backing == Some(node);
    if overlay in QsdIds(s.images) {
      var x :| x in s.images && s.images[x].qsdId == overlay;
      assert Backed(s.images, s.daemon, x);
      assert !Backed(s.images, d, x);
    }
  }

  lemma LostDeletionHarmless(s: State, name: string)
    requires Consistent(s) && name !in QsdIds(s.images)
    ensures Consistent(s.(daemon := Apply(s.daemon, BlockdevDel(name))))
  {
    var d := Apply(s.daemon, BlockdevDel(name));
    forall x | x in s.images
      ensures Backed(s.images, d, x)
    {
      assert Backed(s.images, s.daemon, x);
      assert s.images[x].qsdId in QsdIds(s.images);
    }
  }
}
