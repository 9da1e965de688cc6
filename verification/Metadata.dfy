/**
  Image metadata kept in labels and annotations of persistent volumes: written field by field as
  strings, read back per node.
 */
module Metadata {
  import opened Options

  const NODE_LABEL := "node"
  const ANN_ID := "csi-qsd/id"
  const ANN_QSD_ID := "csi-qsd/qsdID"
  const ANN_BACKING := "csi-qsd/backingImageID"
  const ANN_REF_COUNT := "csi-qsd/refCount"
  const OUR_ANNOTATIONS := {ANN_ID, ANN_QSD_ID, ANN_BACKING, ANN_REF_COUNT}

  /** A persistent volume; a nil map of labels or annotations reads as an empty one and is made when written. */
  datatype PersistentVolume = PersistentVolume(labels: map<string, string>, annotations: map<string, string>)

  type Cluster = map<string, PersistentVolume>

  datatype Metadata = Metadata(id: string, qsdId: string, refCount: int, backing: string, node: string)

  // ----- decimal numbers

  function Digit(d: nat): char
    requires d < 10
  {
    "0123456789"[d]
  }

  predicate IsDigit(c: char) {
    '0' <= c <= '9'
  }

  function DigitValue(c: char): nat
    requires IsDigit(c)
  {
    c as int - '0' as int
  }

  function FormatNat(n: nat): string {
    if n < 10 then [Digit(n)] else FormatNat(n / 10) + [Digit(n % 10)]
  }

  /** strconv.FormatInt in base 10 */
  function FormatInt(n: int): string {
    if n < 0 then "-" + FormatNat(-n) else FormatNat(n)
  }

  predicate AllDigits(s: string) {
    forall i | 0 <= i < |s| :: IsDigit(s[i])
  }

  function ValueOf(s: string): nat
    requires AllDigits(s)
  {
    if s == "" then 0 else 10 * ValueOf(s[..|s| - 1]) + DigitValue(s[|s| - 1])
  }

  function Unsigned(s: string): string {
    if s != "" && (s[0] == '-' || s[0] == '+') then s[1..] else s
  }

  predicate Fits32(n: int) {
    -0x8000_0000 <= n <= 0x7fff_ffff
  }

  /** strconv.ParseInt in base 10 for 32 bits: an optional sign, digits only, and nothing out of range. */
  function ParseInt32(s: string): Option<int> {
    var digits := Unsigned(s);
    if digits == "" || !AllDigits(digits) then None
    else
      var v: int := ValueOf(digits);
      var n := if s[0] == '-' then -v else v;
      if Fits32(n) then Some(n) else None
  }

  lemma {:induction false} FormatNatDigits(n: nat)
    ensures FormatNat(n) != "" && AllDigits(FormatNat(n)) && ValueOf(FormatNat(n)) == n
  {
    if n >= 10 {
      FormatNatDigits(n / 10);
      var s := FormatNat(n);
      assert s[..|s| - 1] == FormatNat(n / 10);
      assert DigitValue(s[|s| - 1]) == n % 10;
    } else {
      var s := FormatNat(n);
      assert s[..|s| - 1] == "";
      assert DigitValue(s[0]) == n;
    }
  }

  /** Printing and parsing are inverse exactly on the 32-bit range; any other number is refused when read. */
  lemma ParseFormat(n: int)
    ensures ParseInt32(FormatInt(n)) == if Fits32(n) then Some(n) else None
  {
    FormatNatDigits(if n < 0 then -n else n);
    var s := FormatInt(n);
    if n < 0 {
      assert s[1..] == FormatNat(-n);
    } else {
      assert IsDigit(s[0]);
    }
  }

  /** What the string says as a decimal number: digits, after at most one sign. */
  ghost predicate Denotes(s: string, n: int) {
    || (s != "" && AllDigits(s) && n == ValueOf(s))
    || (|s| > 1 && s[0] == '+' && AllDigits(s[1..]) && n == ValueOf(s[1..]))
    || (|s| > 1 && s[0] == '-' && AllDigits(s[1..]) && -n == ValueOf(s[1..]))
  }

  /** A string parses to a number exactly when it denotes it and the number fits 32 bits. */
  lemma ParsesExactly(s: string, n: int)
    ensures ParseInt32(s) == Some(n) <==> Denotes(s, n) && -2147483648 <= n <= 2147483647
  {
    if s != "" && AllDigits(s) {
      assert IsDigit(s[0]);
      assert s == Unsigned(s);
    }
  }

  // ----- writing and reading

  /** What the annotations of a volume say, without its node; None when they do not parse. */
  function ParseAnnotations(pv: PersistentVolume): Option<Metadata> {
    var a := pv.annotations;
    if ANN_ID !in a || ANN_QSD_ID !in a then None
    else
      var backing := if ANN_BACKING in a then a[ANN_BACKING] else "";
      var count := if ANN_REF_COUNT in a then ParseInt32(a[ANN_REF_COUNT]) else Some(0);
      if count == None then None
      else Some(Metadata(a[ANN_ID], a[ANN_QSD_ID], count.value, backing, ""))
  }

  function Annotated(pv: PersistentVolume, m: Metadata): PersistentVolume {
    PersistentVolume(
      if NODE_LABEL in pv.labels then pv.labels else pv.labels[NODE_LABEL := m.node],
      pv.annotations
        [ANN_ID := m.id][ANN_QSD_ID := m.qsdId][ANN_BACKING := m.backing][ANN_REF_COUNT := FormatInt(m.refCount)])
  }

  /** The metadata names a volume of the cluster that carries no other node's label. */
  predicate Acceptable(c: Cluster, m: Metadata) {
    m.id in c && (NODE_LABEL in c[m.id].labels ==> c[m.id].labels[NODE_LABEL] == m.node)
  }

  /** AddMetadata; `refused` is a failure of the cluster's own calls. */
  function Add(c: Cluster, m: Metadata, refused: bool): (Cluster, bool) {
    if refused || !Acceptable(c, m) then (c, false) else (c[m.id := Annotated(c[m.id], m)], true)
  }

  predicate OnNode(pv: PersistentVolume, node: string) {
    NODE_LABEL in pv.labels && pv.labels[NODE_LABEL] == node
  }

  /** What GetVolumes makes of the selected volumes, in the order the cluster lists them. */
  function Collect(items: seq<PersistentVolume>, node: string): seq<Metadata> {
    if items == [] then [] else Report(items[0], node) + Collect(items[1..], node)
  }

  /** One volume's contribution; a volume that does not parse is passed over. */
  function Report(pv: PersistentVolume, node: string): seq<Metadata> {
    var m := ParseAnnotations(pv);
    if m == None then [] else [m.value.(node := node)]
  }

  /** A list of volume names as the label selector of a node returns them, in any order. */
  ghost predicate Selects(c: Cluster, node: string, names: seq<string>) {
    && (forall i | 0 <= i < |names| :: names[i] in c && OnNode(c[names[i]], node))
    && (forall i, j | 0 <= i < j < |names| :: names[i] != names[j])
    && (forall x | x in c && OnNode(c[x], node) :: x in names)
  }

  class MetadataServer {
    var cluster: Cluster

    constructor (c: Cluster)
      ensures cluster == c
    {
      cluster := c;
    }

    method AddMetadata(m: Metadata, refused: bool) returns (ok: bool)
      modifies this
      ensures (cluster, ok) == Add(old(cluster), m, refused)
    {
      if refused || m.id !in cluster {
        return false;
      }
      var pv := cluster[m.id];
      if NODE_LABEL !in pv.labels {
        pv := pv.(labels := pv.labels[NODE_LABEL := m.node]);
      } else if pv.labels[NODE_LABEL] != m.node {
        return false;
      }
      var a := pv.annotations;
      a := a[ANN_ID := m.id];
      a := a[ANN_QSD_ID := m.qsdId];
      a := a[ANN_BACKING := m.backing];
      a := a[ANN_REF_COUNT := FormatInt(m.refCount)];
      cluster := cluster[m.id := pv.(annotations := a)];
      return true;
    }

    method GetVolumes(node: string, names: seq<string>) returns (metadata: seq<Metadata>)
      requires Selects(cluster, node, names)
      ensures metadata == Collect(Items(cluster, names), node)
    {
      metadata := [];
      var items := Items(cluster, names);
      var i := 0;
      while i < |items|
        invariant 0 <= i <= |items|
        invariant metadata == Collect(items[..i], node)
      {
        CollectOneMore(items, i, node);
        var m := ParseAnnotations(items[i]);
        if m.Some? {
          metadata := metadata + [m.value.(node := node)];
        }
        i := i + 1;
      }
      assert items[..i] == items;
    }
  }

  lemma {:induction false} CollectOneMore(items: seq<PersistentVolume>, i: nat, node: string)
    requires i < |items|
    ensures Collect(items[..i + 1], node) == Collect(items[..i], node) + Report(items[i], node)
    decreases i
  {
    if i == 0 {
      assert items[..1] == [items[0]];
      assert [items[0]][1..] == [];
    } else {
      assert items[..i + 1][1..] == items[1..][..i] && items[..i][1..] == items[1..][..i - 1];
      CollectOneMore(items[1..], i - 1, node);
    }
  }

  function Items(c: Cluster, names: seq<string>): seq<PersistentVolume>
    requires forall i | 0 <= i < |names| :: names[i] in c
  {
    seq(|names|, i requires 0 <= i < |names| => c[names[i]])
  }

  // ----- whole histories

  datatype Write = Write(metadata: Metadata, refused: bool)

  ghost function After(c: Cluster, ws: seq<Write>): Cluster
    decreases |ws|
  {
    if ws == [] then c else After(Add(c, ws[0].metadata, ws[0].refused).0, ws[1..])
  }

  /** The node a volume belongs to: the one last written for it, or the one of its first label. */
  ghost function NodeOf(c: Cluster, seen: map<string, Metadata>, x: string): Option<string> {
    if x in seen then Some(seen[x].node)
    else if x in c && NODE_LABEL in c[x].labels then Some(c[x].labels[NODE_LABEL])
    else None
  }

  /**
    Whether a write is due to be accepted, after others that were: the volume exists in the cluster
    as it was first, and belongs to no other node.
   */
  ghost predicate Due(c: Cluster, seen: map<string, Metadata>, w: Write) {
    !w.refused && w.metadata.id in c && NodeOf(c, seen, w.metadata.id) in {None, Some(w.metadata.node)}
  }

  /** The last metadata of each volume that was due to be accepted; c is the cluster before all writes. */
  ghost function LastAccepted(c: Cluster, ws: seq<Write>, seen: map<string, Metadata>): map<string, Metadata>
    decreases |ws|
  {
    if ws == [] then seen
    else
      LastAccepted(c, ws[1..], if Due(c, seen, ws[0]) then seen[ws[0].metadata.id := ws[0].metadata] else seen)
  }

  /** The volume carries exactly this metadata, written out. */
  ghost predicate Carries(pv: PersistentVolume, m: Metadata) {
    && OnNode(pv, m.node)
    && ANN_ID in pv.annotations && pv.annotations[ANN_ID] == m.id
    && ANN_QSD_ID in pv.annotations && pv.annotations[ANN_QSD_ID] == m.qsdId
    && ANN_BACKING in pv.annotations && pv.annotations[ANN_BACKING] == m.backing
    && ANN_REF_COUNT in pv.annotations && pv.annotations[ANN_REF_COUNT] == FormatInt(m.refCount)
  }

  ghost predicate Untouched(pv: PersistentVolume) {
    pv.annotations.Keys !! OUR_ANNOTATIONS
  }

  /**
    Volumes seen carry their metadata under their own name; the others are as they were, and carry
    none of ours.
   */
  ghost predicate Reflects(before: Cluster, c: Cluster, seen: map<string, Metadata>) {
    && c.Keys == before.Keys && seen.Keys <= c.Keys
    && (forall x | x in seen :: seen[x].id == x && Carries(c[x], seen[x]))
    && (forall x | x in c && x !in seen :: c[x] == before[x] && Untouched(c[x]))
  }

  /** AddMetadata accepts a write exactly when it is due. */
  lemma AcceptsExactlyDue(before: Cluster, c: Cluster, seen: map<string, Metadata>, w: Write)
    requires Reflects(before, c, seen)
    ensures Add(c, w.metadata, w.refused).1 <==> Due(before, seen, w)
  {
  }

  lemma AnnotatedCarries(pv: PersistentVolume, m: Metadata)
    requires NODE_LABEL in pv.labels ==> pv.labels[NODE_LABEL] == m.node
    ensures Carries(Annotated(pv, m), m)
  {
  }

  lemma WrittenReflects(before: Cluster, c: Cluster, seen: map<string, Metadata>, pv: PersistentVolume, m: Metadata)
    requires Reflects(before, c, seen) && m.id in c && Carries(pv, m)
    ensures Reflects(before, c[m.id := pv], seen[m.id := m])
  {
  }

  lemma AddReflects(before: Cluster, c: Cluster, seen: map<string, Metadata>, w: Write)
    requires Reflects(before, c, seen)
    ensures Reflects(
              before, Add(c, w.metadata, w.refused).0,
              if Due(before, seen, w) then seen[w.metadata.id := w.metadata] else seen)
  {
    AcceptsExactlyDue(before, c, seen, w);
    if Due(before, seen, w) {
      var m := w.metadata;
      AnnotatedCarries(c[m.id], m);
      WrittenReflects(before, c, seen, Annotated(c[m.id], m), m);
    }
  }

  lemma {:induction false} HistoryReflects(
    before: Cluster, c: Cluster, ws: seq<Write>, seen: map<string, Metadata>)
    requires Reflects(before, c, seen)
    ensures Reflects(before, After(c, ws), LastAccepted(before, ws, seen))
    decreases |ws|
  {
    if ws != [] {
      var w := ws[0];
      AddReflects(before, c, seen, w);
      var seen' := if Due(before, seen, w) then seen[w.metadata.id := w.metadata] else seen;
      HistoryReflects(before, Add(c, w.metadata, w.refused).0, ws[1..], seen');
    }
  }

  /**
    After any history, a write is accepted if and only if nothing refuses it, its volume exists, the
    first label of the volume, if it had one, is its node, and so is the node of the last write
    accepted for it, if there was one.
   */
  lemma AcceptedExactly(c: Cluster, ws: seq<Write>, m: Metadata, refused: bool)
    requires forall x | x in c :: Untouched(c[x])
    ensures var last := LastAccepted(c, ws, map[]);
            Add(After(c, ws), m, refused).1 <==>
            && !refused && m.id in c
            && (NODE_LABEL in c[m.id].labels ==> c[m.id].labels[NODE_LABEL] == m.node)
            && (m.id in last ==> last[m.id].node == m.node)
  {
    HistoryReflects(c, c, ws, map[]);
    FirstLabelKept(c, ws, map[], m.id);
    AcceptsExactlyDue(c, After(c, ws), LastAccepted(c, ws, map[]), Write(m, refused));
  }

  /** Nothing is ever accepted against the first label of a volume. */
  lemma {:induction false} FirstLabelKept(c: Cluster, ws: seq<Write>, seen: map<string, Metadata>, x: string)
    requires x in seen && x in c && NODE_LABEL in c[x].labels ==> seen[x].node == c[x].labels[NODE_LABEL]
    ensures var last := LastAccepted(c, ws, seen);
            x in last && x in c && NODE_LABEL in c[x].labels ==> last[x].node == c[x].labels[NODE_LABEL]
    decreases |ws|
  {
    if ws != [] {
      var w := ws[0];
      FirstLabelKept(c, ws[1..], if Due(c, seen, w) then seen[w.metadata.id := w.metadata] else seen, x);
    }
  }

  /** Annotations and labels that are not ours. */
  ghost predicate SameForeign(pv: PersistentVolume, pv': PersistentVolume) {
    && pv'.annotations - OUR_ANNOTATIONS == pv.annotations - OUR_ANNOTATIONS
    && pv'.labels - {NODE_LABEL} == pv.labels - {NODE_LABEL}
  }

  lemma AnnotatedKeepsForeign(pv: PersistentVolume, m: Metadata)
    ensures SameForeign(pv, Annotated(pv, m))
  {
    var a, a' := pv.annotations - OUR_ANNOTATIONS, Annotated(pv, m).annotations - OUR_ANNOTATIONS;
    assert a'.Keys == a.Keys;
    assert forall k | k in a :: a'[k] == a[k];
    var l, l' := pv.labels - {NODE_LABEL}, Annotated(pv, m).labels - {NODE_LABEL};
    assert l'.Keys == l.Keys;
  }

  /** No history makes, removes or relabels a volume, or touches what others wrote on it. */
  lemma {:induction false} HistoryKeepsForeign(c: Cluster, ws: seq<Write>)
    ensures After(c, ws).Keys == c.Keys
    ensures forall x | x in c :: SameForeign(c[x], After(c, ws)[x])
    decreases |ws|
  {
    if ws != [] {
      var w := ws[0];
      if w.metadata.id in c {
        AnnotatedKeepsForeign(c[w.metadata.id], w.metadata);
      }
      HistoryKeepsForeign(Add(c, w.metadata, w.refused).0, ws[1..]);
    }
  }

  /** A node label stays as it is once it is there. */
  lemma {:induction false} NodeLabelStays(c: Cluster, ws: seq<Write>, x: string)
    requires x in c && NODE_LABEL in c[x].labels
    ensures x in After(c, ws) && NODE_LABEL in After(c, ws)[x].labels
    ensures After(c, ws)[x].labels[NODE_LABEL] == c[x].labels[NODE_LABEL]
    decreases |ws|
  {
    if ws != [] {
      NodeLabelStays(Add(c, ws[0].metadata, ws[0].refused).0, ws[1..], x);
    }
  }

  /** Reading back what was written gives it again, except for counts beyond 32 bits, which hide the volume. */
  lemma ReadBack(pv: PersistentVolume, m: Metadata)
    requires Carries(pv, m)
    ensures ParseAnnotations(pv) == if Fits32(m.refCount) then Some(m.(node := "")) else None
  {
    ParseFormat(m.refCount);
  }

  /** The metadata a node is to be told: the last accepted of its volumes whose count can be read back. */
  ghost predicate Reported(seen: map<string, Metadata>, node: string, m: Metadata) {
    m.id in seen && seen[m.id] == m && m.node == node && Fits32(m.refCount)
  }

  /** A volume is reported at most once, under its own ID, if what was written to it can be read back. */
  lemma ReportShape(before: Cluster, c: Cluster, seen: map<string, Metadata>, node: string, x: string)
    requires Reflects(before, c, seen) && x in c && OnNode(c[x], node)
    ensures Report(c[x], node) == if x in seen && Fits32(seen[x].refCount) then [seen[x]] else []
    ensures x in seen ==> seen[x].id == x && seen[x].node == node
  {
    if x in seen {
      ReadBack(c[x], seen[x]);
    } else {
      assert ANN_ID in OUR_ANNOTATIONS;
    }
  }

  lemma {:induction false} CollectMembers(
    before: Cluster, c: Cluster, seen: map<string, Metadata>, node: string, names: seq<string>, m: Metadata)
    requires Reflects(before, c, seen)
    requires forall i | 0 <= i < |names| :: names[i] in c && OnNode(c[names[i]], node)
    ensures m in Collect(Items(c, names), node) <==> m.id in names && Reported(seen, node, m)
    decreases |names|
  {
    if names != [] {
      CollectMembers(before, c, seen, node, names[1..], m);
      assert Items(c, names)[1..] == Items(c, names[1..]);
      ReportShape(before, c, seen, node, names[0]);
      assert names == [names[0]] + names[1..];
    }
  }

  ghost predicate DistinctIds(ms: seq<Metadata>) {
    forall i, j | 0 <= i < j < |ms| :: ms[i].id != ms[j].id
  }

  lemma OneMoreDistinct(first: seq<Metadata>, rest: seq<Metadata>, x: string)
    requires |first| <= 1 && (forall m | m in first :: m.id == x)
    requires DistinctIds(rest) && forall m | m in rest :: m.id != x
    ensures DistinctIds(first + rest)
  {
    if first == [] {
      assert first + rest == rest;
    } else {
      assert first == [first[0]];
      forall i, j | 0 <= i < j < |first + rest|
        ensures (first + rest)[i].id != (first + rest)[j].id
      {
        assert (first + rest)[j] == rest[j - 1] && rest[j - 1] in rest;
        assert (first + rest)[i] == if i == 0 then first[0] else rest[i - 1];
      }
    }
  }

  /** No volume is listed twice. */
  lemma {:induction false} CollectDistinct(
    before: Cluster, c: Cluster, seen: map<string, Metadata>, node: string, names: seq<string>)
    requires Reflects(before, c, seen)
    requires forall i | 0 <= i < |names| :: names[i] in c && OnNode(c[names[i]], node)
    requires forall i, j | 0 <= i < j < |names| :: names[i] != names[j]
    ensures DistinctIds(Collect(Items(c, names), node))
    decreases |names|
  {
    if names != [] {
      var x, rest := names[0], Collect(Items(c, names[1..]), node);
      CollectDistinct(before, c, seen, node, names[1..]);
      assert Items(c, names)[1..] == Items(c, names[1..]);
      forall m | m in rest
        ensures m.id != x
      {
        CollectMembers(before, c, seen, node, names[1..], m);
      }
      ReportShape(before, c, seen, node, x);
      OneMoreDistinct(Report(c[x], node), rest, x);
    }
  }

  /** What the annotations of a volume tell its node, whoever wrote them. */
  ghost predicate Tells(pv: PersistentVolume, node: string, m: Metadata) {
    var a := pv.annotations;
    && m.node == node
    && ANN_ID in a && a[ANN_ID] == m.id
    && ANN_QSD_ID in a && a[ANN_QSD_ID] == m.qsdId
    && m.backing == (if ANN_BACKING in a then a[ANN_BACKING] else "")
    && if ANN_REF_COUNT in a then Denotes(a[ANN_REF_COUNT], m.refCount) && Fits32(m.refCount) else m.refCount == 0
  }

  lemma ReportTells(pv: PersistentVolume, node: string, m: Metadata)
    ensures Report(pv, node) == [m] <==> Tells(pv, node, m)
    ensures |Report(pv, node)| <= 1
  {
    if ANN_REF_COUNT in pv.annotations {
      ParsesExactly(pv.annotations[ANN_REF_COUNT], m.refCount);
    }
  }

  /** Whatever the annotations are, GetVolumes reports exactly what they tell. */
  lemma {:induction false} CollectTells(items: seq<PersistentVolume>, node: string, m: Metadata)
    ensures m in Collect(items, node) <==> exists i :: 0 <= i < |items| && Tells(items[i], node, m)
    decreases |items|
  {
    if items != [] {
      ReportTells(items[0], node, m);
      CollectTells(items[1..], node, m);
      if exists i :: 0 <= i < |items| && Tells(items[i], node, m) {
        var i :| 0 <= i < |items| && Tells(items[i], node, m);
        assert i > 0 ==> items[1..][i - 1] == items[i];
      }
      assert m in Report(items[0], node) <==> Report(items[0], node) == [m];
    }
  }

  /**
    After any sequence of AddMetadata calls on volumes that carried none of the annotations,
    GetVolumes of a node reports exactly the last accepted metadata of each of its volumes whose
    count fits 32 bits, each once.
   */
  lemma GetVolumesExact(c: Cluster, ws: seq<Write>, node: string, names: seq<string>)
    requires forall x | x in c :: Untouched(c[x])
    requires Selects(After(c, ws), node, names)
    ensures var ms, last := Collect(Items(After(c, ws), names), node), LastAccepted(c, ws, map[]);
            && (forall m :: m in ms <==> Reported(last, node, m))
            && DistinctIds(ms)
  {
    var c', last := After(c, ws), LastAccepted(c, ws, map[]);
    HistoryReflects(c, c, ws, map[]);
    CollectDistinct(c, c', last, node, names);
    forall m
      ensures m in Collect(Items(c', names), node) <==> Reported(last, node, m)
    {
      CollectMembers(c, c', last, node, names, m);
    }
  }

  /** No volume is reported for two nodes, at the same time or later in the history. */
  lemma OneNodeOnly(c: Cluster, ws: seq<Write>, more: seq<Write>, m: Metadata, m': Metadata)
    requires forall x | x in c :: Untouched(c[x])
    requires Reported(LastAccepted(c, ws, map[]), m.node, m)
    requires Reported(LastAccepted(c, ws + more, map[]), m'.node, m')
    requires m.id == m'.id
    ensures m.node == m'.node
  {
    HistoryReflects(c, c, ws, map[]);
    HistoryReflects(c, c, ws + more, map[]);
    AfterInTwo(c, ws, more);
    NodeLabelStays(After(c, ws), more, m.id);
  }

  lemma {:induction false} AfterInTwo(c: Cluster, ws: seq<Write>, more: seq<Write>)
    ensures After(c, ws + more) == After(After(c, ws), more)
    decreases |ws|
  {
    if ws == [] {
      assert ws + more == more;
    } else {
      assert (ws + more)[1..] == ws[1..] + more;
      AfterInTwo(Add(c, ws[0].metadata, ws[0].refused).0, ws[1..], more);
    }
  }
}
