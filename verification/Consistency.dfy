/**
  The invariant of the store, kept by every call whatever the outside world answers:
  the records form a counted forest, their names cannot clash, and the daemon's block graph
  is the graph the records describe.
 */
module Consistency {
  import opened Options
  import opened Names
  import opened Forest
  import opened BlockGraph
  import opened Store

  ghost predicate IsSnapshotOf(img: Image, source: string) {
    img.file == SnapshotPath(source, img.qsdId)
  }

  ghost predicate Located(x: string, img: Image) {
    img.file == VolumePath(x) || exists source :: img.file == SnapshotPath(source, img.qsdId)
  }

  ghost predicate Identified(m: Images, x: string)
    requires x in m
  {
    && WellFormedId(x) && QsdIdDefined(x)
    && m[x].qsdId == GenerateQsdId(x)
    && (m[x].volumeRef == "" || m[x].volumeRef == x)
    && Located(x, m[x])
  }

  /** The node an image's own node must be backed by, according to the records. */
  ghost function BackingNode(m: Images, x: string): Option<string>
    requires x in m
  {
    if m[x].backing in m then Some(m[m[x].backing].qsdId) else None
  }

  /** The image has a live node on its file, over the node of its recorded backing image. */
  ghost predicate Backed(m: Images, d: Daemon, x: string)
    requires x in m
  {
    && m[x].qsdId in d.nodes
    && d.nodes[m[x].qsdId] == Node(m[x].file, BackingNode(m, x))
    && m[x].file in d.files
  }

  ghost function QsdIds(m: Images): set<string> {
    set x | x in m :: m[x].qsdId
  }

  ghost predicate DistinctNodes(m: Images) {
    forall x, y | x in m && y in m && x != y :: m[x].qsdId != m[y].qsdId
  }

  /** Nodes left behind by a failed call are backed by nothing. */
  ghost predicate StraysAlone(m: Images, d: Daemon) {
    forall n | n in d.nodes && d.nodes[n].backing.Some? :: n in QsdIds(m)
  }

  ghost predicate Agrees(m: Images, d: Daemon) {
    && (forall x {:trigger Backed(m, d, x)} | x in m :: Backed(m, d, x))
    && StraysAlone(m, d)
  }

  ghost predicate Consistent(s: State) {
    && IsForest(s.images)
    && Counts(s.images)
    && (forall x {:trigger Identified(s.images, x)} | x in s.images :: Identified(s.images, x))
    && DistinctNodes(s.images)
    && Agrees(s.images, s.daemon)
  }

  // ----- names

  /** Distinct images live in distinct files, although node names are cut to eight characters. */
  lemma FilesDistinct(s: State, x: string, y: string)
    requires Consistent(s) && x in s.images && y in s.images && x != y
    ensures s.images[x].file != s.images[y].file
  {
    var m := s.images;
    assert Identified(m, x) && Identified(m, y);
    QsdIdShape(x);
    QsdIdShape(y);
    if m[x].file == m[y].file {
      if m[x].file == VolumePath(x) && m[y].file == VolumePath(y) {
        VolumePathInjective(x, y);
      } else if m[x].file == VolumePath(x) {
        var source :| m[y].file == SnapshotPath(source, m[y].qsdId);
        VolumeIsNoSnapshotPath(x, source, m[y].qsdId);
      } else if m[y].file == VolumePath(y) {
        var source :| m[x].file == SnapshotPath(source, m[x].qsdId);
        VolumeIsNoSnapshotPath(y, source, m[x].qsdId);
      } else {
        var source :| m[x].file == SnapshotPath(source, m[x].qsdId);
        var source' :| m[y].file == SnapshotPath(source', m[y].qsdId);
        SnapshotPathInjective(source, m[x].qsdId, source', m[y].qsdId);
      }
      assert false;
    }
  }

  /** A node name the daemon does not know belongs to no recorded image, nor does an ID cut to it. */
  lemma UnknownNodeIsFresh(s: State, id: string)
    requires Consistent(s) && WellFormedId(id) && QsdIdDefined(id)
    requires GenerateQsdId(id) !in s.daemon.nodes
    ensures id !in s.images
    ensures forall y | y in s.images :: s.images[y].qsdId != GenerateQsdId(id)
  {
    forall y | y in s.images
      ensures s.images[y].qsdId != GenerateQsdId(id) && y != id
    {
      assert Backed(s.images, s.daemon, y) && Identified(s.images, y);
    }
  }

  /** Only the node of a recorded image on top uses a node; a leaf's node is free. */
  lemma UsersAreChildren(s: State, x: string)
    requires Consistent(s) && x in s.images
    ensures InUse(s.daemon.nodes, s.images[x].qsdId) <==> s.images[x].refCount > 0
  {
    var m, d := s.images, s.daemon;
    var q := m[x].qsdId;
    if InUse(d.nodes, q) {
      var n :| n in d.nodes && d.nodes[n].backing == Some(q);
      var y :| y in m && m[y].qsdId == n;
      assert Backed(m, d, y);
      assert y in Children(m, x);
    }
    if m[x].refCount > 0 {
      var y :| y in Children(m, x);
      assert Backed(m, d, y);
      assert d.nodes[m[y].qsdId].backing == Some(q);
    }
  }
}
