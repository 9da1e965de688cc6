/** The option type used by the daemon's backing edges and by lookups that may find nothing. */
module Options {
  datatype Option<+T> = None | Some(value: T)
}

/**
  IDs, the node names cut out of them, and the paths of the image files.

  Strings stand for Go's byte strings, so a character here is one byte there.
 */
module Names {

  const IMAGES_DIR := "/var/run/qsd/images"
  const DISK_IMG := "disk.img"
  const SNAPSHOT_PREFIX := "snap"
  const PVC := "pvc-"
  const SNAPSHOT := "snapshot-"

  /** IDs a caller may use: the empty string means "none" in the store, and a slash would leave the directory. */
  predicate WellFormedId(id: string) {
    id != "" && '/' !in id
  }

  predicate Contains(s: string, p: string) {
    exists i | 0 <= i <= |s| :: p <= s[i..]
  }

  function TrimPrefix(s: string, p: string): string {
    if p <= s then s[|p|..] else s
  }

  function CutSize(id: string): nat {
    if |id| < 8 then |id| else 8
  }

  /** What is left of an ID before it is cut to its first characters. */
  function Trimmed(id: string): string {
    if Contains(id, PVC) then TrimPrefix(id, PVC)
    else if Contains(id, SNAPSHOT) then TrimPrefix(id, SNAPSHOT)
    else id
  }

  /** The slice in generateQSDID stays within the trimmed ID; otherwise Go panics. */
  predicate QsdIdDefined(id: string) {
    CutSize(id) <= |Trimmed(id)|
  }

  function GenerateQsdId(id: string): string
    requires QsdIdDefined(id)
  {
    Trimmed(id)[..CutSize(id)]
  }

  function VolumePath(id: string): string {
    IMAGES_DIR + "/" + id + "/" + DISK_IMG
  }

  function SnapshotPath(source: string, qsdId: string): string {
    IMAGES_DIR + "/" + source + "/" + (SNAPSHOT_PREFIX + "-" + qsdId)
  }

  /** generateQSDID panics on exactly the prefixed IDs that are too short to be cut. */
  lemma QsdIdDefinedExactly(id: string)
    ensures QsdIdDefined(id) <==>
            !(PVC <= id && |id| < 12) &&
            !(SNAPSHOT <= id && !Contains(id, PVC) && |id| < 17)
  {
    if PVC <= id {
      assert PVC <= id[0..];
    } else if SNAPSHOT <= id {
      assert SNAPSHOT <= id[0..];
    }
  }

  lemma ContainsExactly(s: string, p: string)
    ensures Contains(s, p) <==> exists a, b :: s == a + p + b
  {
    if Contains(s, p) {
      var i :| 0 <= i <= |s| && p <= s[i..];
      assert s == s[..i] + p + s[i + |p|..];
    }
    if exists a, b :: s == a + p + b {
      var a, b :| s == a + p + b;
      assert s[|a|..] == p + b;
    }
  }

  /** Both paths lie in the directory of a volume. */
  lemma PathsInVolumeDirectory(id: string, qsdId: string)
    ensures VolumePath(id) == "/var/run/qsd/images/" + id + "/disk.img"
    ensures SnapshotPath(id, qsdId) == "/var/run/qsd/images/" + id + "/snap-" + qsdId
  {
    assert IMAGES_DIR + "/" == "/var/run/qsd/images/";
    assert "/" + (SNAPSHOT_PREFIX + "-" + qsdId) == "/snap-" + qsdId;
    assert "/" + DISK_IMG == "/disk.img";
    assert IMAGES_DIR + "/" + id + "/" + DISK_IMG == "/var/run/qsd/images/" + id + ("/" + DISK_IMG);
  }

  /** A Kubernetes volume's node is named after the eight characters that follow the prefix. */
  lemma PvcNodeName(x: string)
    requires |x| >= 8
    ensures QsdIdDefined(PVC + x) && GenerateQsdId(PVC + x) == x[..8]
  {
    assert (PVC + x)[0..] == PVC + x;
    assert (PVC + x)[|PVC|..] == x;
  }

  /** So is a snapshot's, unless its ID also contains the prefix of volumes. */
  lemma SnapshotNodeName(x: string)
    requires |x| >= 8
    ensures QsdIdDefined(SNAPSHOT + x)
    ensures GenerateQsdId(SNAPSHOT + x) == if Contains(SNAPSHOT + x, PVC) then "snapshot" else x[..8]
  {
    var id := SNAPSHOT + x;
    assert id[0..] == id;
    assert id[|SNAPSHOT|..] == x;
    assert id[0] == 's' && PVC[0] == 'p';
    assert id[..8] == "snapshot";
  }

  /** Any other ID keeps its own first eight characters, wherever else a prefix occurs in it. */
  lemma OtherNodeName(id: string)
    requires !(PVC <= id) && !(SNAPSHOT <= id)
    ensures QsdIdDefined(id) && GenerateQsdId(id) == if |id| < 8 then id else id[..8]
  {
    assert id[..|id|] == id;
  }

  /** Two Kubernetes volumes share a node name exactly when the first eight characters after the prefix agree. */
  lemma PvcNodesClashExactly(x: string, y: string)
    requires |x| >= 8 && |y| >= 8
    ensures GenerateQsdId(PVC + x) == GenerateQsdId(PVC + y) <==> x[..8] == y[..8]
  {
    PvcNodeName(x);
    PvcNodeName(y);
  }

  /** A volume and a snapshot clash when what follows their prefixes starts alike. */
  lemma PvcAndSnapshotClashExactly(x: string, y: string)
    requires |x| >= 8 && |y| >= 8 && !Contains(SNAPSHOT + y, PVC)
    ensures GenerateQsdId(PVC + x) == GenerateQsdId(SNAPSHOT + y) <==> x[..8] == y[..8]
  {
    PvcNodeName(x);
    SnapshotNodeName(y);
  }

  lemma QsdIdShape(id: string)
    requires WellFormedId(id) && QsdIdDefined(id)
    ensures '/' !in GenerateQsdId(id) && 1 <= |GenerateQsdId(id)| <= 8
  {
  }

  /** The part after the last slash and the part before it are both determined by a path. */
  lemma SplitAtLastSlash(a: string, b: string, c: string, d: string)
    requires a + "/" + b == c + "/" + d
    requires '/' !in b && '/' !in d
    ensures a == c && b == d
  {
    var p := a + "/" + b;
    assert p[|a|] == '/' && p[|c|] == '/';
    assert forall k | |a| < k < |p| :: p[k] == b[k - |a| - 1] && p[k] != '/';
    assert forall k | |c| < k < |p| :: p[k] == d[k - |c| - 1] && p[k] != '/';
    assert |a| == |c|;
    assert a == p[..|a|] == c;
    assert b == p[|a| + 1..] == d;
  }

  lemma VolumePathInjective(x: string, y: string)
    requires VolumePath(x) == VolumePath(y)
    ensures x == y
  {
    SplitAtLastSlash(IMAGES_DIR + "/" + x, DISK_IMG, IMAGES_DIR + "/" + y, DISK_IMG);
    assert x == (IMAGES_DIR + "/" + x)[|IMAGES_DIR| + 1..];
    assert y == (IMAGES_DIR + "/" + y)[|IMAGES_DIR| + 1..];
  }

  /** A snapshot path gives back both the source volume and the node name. */
  lemma SnapshotPathInjective(src: string, q: string, src': string, q': string)
    requires SnapshotPath(src, q) == SnapshotPath(src', q')
    requires '/' !in q && '/' !in q'
    ensures src == src' && q == q'
  {
    var leaf, leaf' := SNAPSHOT_PREFIX + "-" + q, SNAPSHOT_PREFIX + "-" + q';
    SplitAtLastSlash(IMAGES_DIR + "/" + src, leaf, IMAGES_DIR + "/" + src', leaf');
    assert src == (IMAGES_DIR + "/" + src)[|IMAGES_DIR| + 1..];
    assert src' == (IMAGES_DIR + "/" + src')[|IMAGES_DIR| + 1..];
    assert q == leaf[5..] && q' == leaf'[5..];
  }

  lemma VolumeIsNoSnapshotPath(id: string, src: string, q: string)
    requires '/' !in q
    ensures VolumePath(id) != SnapshotPath(src, q)
  {
    var leaf := SNAPSHOT_PREFIX + "-" + q;
    assert leaf[0] == 's' && DISK_IMG[0] == 'd';
    if VolumePath(id) == SnapshotPath(src, q) {
      SplitAtLastSlash(IMAGES_DIR + "/" + id, DISK_IMG, IMAGES_DIR + "/" + src, leaf);
      assert false;
    }
  }

  /** Cutting IDs to eight characters makes different IDs share a name. */
  lemma CutIdsClash()
    ensures WellFormedId("abcdefgh-1") && WellFormedId("abcdefgh-2")
    ensures QsdIdDefined("abcdefgh-1") && QsdIdDefined("abcdefgh-2")
    ensures GenerateQsdId("abcdefgh-1") == GenerateQsdId("abcdefgh-2")
  {
    var a, b := "abcdefgh-1", "abcdefgh-2";
    assert a[0] == b[0] == 'a' && PVC[0] == 'p' && SNAPSHOT[0] == 's';
    assert Trimmed(a) == a && Trimmed(b) == b;
    assert a[..8] == "abcdefgh" == b[..8];
  }
}
