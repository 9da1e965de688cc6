/** What the recursive clean-up of unnamed images reclaims, said without following its recursion. */
module Reclamation {
  import opened Forest
  import opened BlockGraph
  import opened Store
  import opened Consistency
  import opened Preservation

  /** The daemon deletes every node that is not in use, and every file can be removed. */
  predicate DeletesWork(f: Faults) {
    f.del == {} && f.unlink == {}
  }

  ghost function Members(c: seq<string>): set<string> {
    set y | y in c
  }

  /** A record that counts only the children that stay. */
  ghost function Kept(m: Images, gone: set<string>, y: string): Image
    requires y in m
  {
    m[y].(refCount := |Children(m, y) - gone|)
  }

  /** The records that remain when some images disappear. */
  ghost function Without(m: Images, gone: set<string>): Images {
    map y | y in m && y !in gone :: Kept(m, gone, y)
  }

  ghost function NodesOf(m: Images, xs: set<string>): set<string> {
    set y | y in xs && y in m :: m[y].qsdId
  }

  ghost function FilesOf(m: Images, xs: set<string>): set<string> {
    set y | y in xs && y in m :: m[y].file
  }

  /** The daemon after the nodes and files of some images have disappeared. */
  ghost function DaemonWithout(m: Images, d: Daemon, gone: set<string>): Daemon {
    Daemon(d.nodes - NodesOf(m, gone), d.files - FilesOf(m, gone))
  }

  /** The state after some images have disappeared with their nodes and files. */
  ghost function StateWithout(s: State, gone: set<string>): State {
    State(Without(s.images, gone), s.active, DaemonWithout(s.images, s.daemon, gone))
  }

  /** The image at position i of a chain is unnamed and supports nothing but its predecessor. */
  ghost predicate Releasable(m: Images, c: seq<string>, i: nat)
    requires i < |c| && c[i] in m
  {
    m[c[i]].volumeRef == "" && Children(m, c[i]) == if i == 0 then {} else {c[i - 1]}
  }

  ghost predicate InStore(m: Images, c: seq<string>) {
    forall i | 0 <= i < |c| :: c[i] in m
  }

  /** k is the length of the longest releasable run at the front of the chain. */
  ghost predicate LongestRun(m: Images, c: seq<string>, k: nat) {
    && InStore(m, c)
    && k <= |c|
    && (forall i | 0 <= i < k :: Releasable(m, c, i))
    && (k < |c| ==> !Releasable(m, c, k))
  }

  lemma KeptWhole(m: Images, y: string)
    requires Counts(m) && y in m
    ensures Kept(m, {}, y) == m[y]
  {
    assert Children(m, y) - {} == Children(m, y);
  }

  lemma NothingGone(m: Images)
    requires Counts(m)
    ensures Without(m, {}) == m
  {
    var m' := Without(m, {});
    assert m'.Keys == m.Keys;
    forall y | y in m'
      ensures m'[y] == m[y]
    {
      KeptWhole(m, y);
    }
    SameImages(m', m);
  }

  lemma KeptWithoutLeaf(m: Images, x: string, y: string)
    requires IsForest(m) && Counts(m) && x in m && Children(m, x) == {}
    requires y in m && y != x
    ensures Remove(m, x)[y] == Kept(m, {x}, y)
  {
    assert m[y].refCount == |Children(m, y)|;
    CountAfterRemove(m, x, y);
  }

  lemma RemoveIsWithout(m: Images, x: string)
    requires IsForest(m) && Counts(m) && x in m && Children(m, x) == {}
    ensures Remove(m, x) == Without(m, {x})
  {
    var m1, m2 := Remove(m, x), Without(m, {x});
    assert Placed(m, x);
    forall y | y in m1
      ensures m1[y] == m2[y]
    {
      KeptWithoutLeaf(m, x, y);
    }
    SameImages(m1, m2);
  }

  lemma ChildrenWithout(m: Images, gone: set<string>, y: string)
    requires y in m
    ensures Children(Without(m, gone), y) == Children(m, y) - gone
  {
  }

  lemma KeptTwice(m: Images, x: string, gone: set<string>, y: string)
    requires x in m && y in m && y != x
    ensures Kept(Without(m, {x}), gone, y) == Kept(m, gone + {x}, y)
  {
    ChildrenWithout(m, {x}, y);
    assert Children(m, y) - {x} - gone == Children(m, y) - (gone + {x});
  }

  lemma WithoutTwice(m: Images, x: string, gone: set<string>)
    requires x in m
    ensures Without(Without(m, {x}), gone) == Without(m, gone + {x})
  {
    var m1, m2 := Without(Without(m, {x}), gone), Without(m, gone + {x});
    forall y | y in m1
      ensures m1[y] == m2[y]
    {
      KeptTwice(m, x, gone, y);
    }
    SameImages(m1, m2);
  }

  /** Deleting the front of a chain shifts the releasable run by one. */
  lemma {:induction false} ReleasableShifts(m: Images, x: string, i: nat)
    requires IsForest(m) && x in m && m[x].backing != "" && i + 1 < |Chain(m, x)|
    requires InStore(m, Chain(m, x)) && Chain(m, x)[i + 1] in Without(m, {x})
    ensures Chain(m, m[x].backing) == Chain(m, x)[1..]
    ensures Releasable(Without(m, {x}), Chain(m, x)[1..], i) <==> Releasable(m, Chain(m, x), i + 1)
  {
    var c := Chain(m, x);
    ChainShape(m, x);
    var y := c[i + 1];
    assert c[1..][i] == y;
    ChildrenWithout(m, {x}, y);
    if i == 0 {
      assert m[x].backing == y;
      assert x in Children(m, y);
    } else {
      assert m[y].depth < m[c[1]].depth;
      assert x !in Children(m, y);
      assert Children(m, y) - {x} == Children(m, y);
      assert c[1..][i - 1] == c[i];
    }
  }

  lemma DeletedIsWithout(s: State, x: string)
    requires Consistent(s) && x in s.images && s.images[x].refCount == 0
    ensures Deleted(s, x) == StateWithout(s, {x})
  {
    DeletedKeepsConsistent(s, x);
    RemoveIsWithout(s.images, x);
    assert NodesOf(s.images, {x}) == {s.images[x].qsdId};
    assert FilesOf(s.images, {x}) == {s.images[x].file};
  }

  lemma NodesOfTwice(m: Images, x: string, gone: set<string>)
    requires x in m && x !in gone
    ensures NodesOf(m, {x}) + NodesOf(Without(m, {x}), gone) == NodesOf(m, gone + {x})
  {
    var m1 := Without(m, {x});
    forall q | q in NodesOf(m, gone + {x})
      ensures q in NodesOf(m, {x}) + NodesOf(m1, gone)
    {
      var y :| y in gone + {x} && y in m && m[y].qsdId == q;
      assert y != x ==> y in m1 && m1[y].qsdId == q;
    }
    forall q | q in NodesOf(m1, gone)
      ensures q in NodesOf(m, gone + {x})
    {
      var y :| y in gone && y in m1 && m1[y].qsdId == q;
      assert y in gone + {x} && m[y].qsdId == q;
    }
  }

  lemma FilesOfTwice(m: Images, x: string, gone: set<string>)
    requires x in m && x !in gone
    ensures FilesOf(m, {x}) + FilesOf(Without(m, {x}), gone) == FilesOf(m, gone + {x})
  {
    var m1 := Without(m, {x});
    forall q | q in FilesOf(m, gone + {x})
      ensures q in FilesOf(m, {x}) + FilesOf(m1, gone)
    {
      var y :| y in gone + {x} && y in m && m[y].file == q;
      assert y != x ==> y in m1 && m1[y].file == q;
    }
    forall q | q in FilesOf(m1, gone)
      ensures q in FilesOf(m, gone + {x})
    {
      var y :| y in gone && y in m1 && m1[y].file == q;
      assert y in gone + {x} && m[y].file == q;
    }
  }

  lemma StateWithoutTwice(s: State, x: string, gone: set<string>)
    requires x in s.images && x !in gone
    ensures StateWithout(StateWithout(s, {x}), gone) == StateWithout(s, gone + {x})
  {
    WithoutTwice(s.images, x, gone);
    NodesOfTwice(s.images, x, gone);
    FilesOfTwice(s.images, x, gone);
    var m, d := s.images, s.daemon;
    MinusTwice(d.nodes, NodesOf(m, {x}), NodesOf(Without(m, {x}), gone));
    MinusTwice(d.files, FilesOf(m, {x}), FilesOf(Without(m, {x}), gone));
  }

  lemma MinusTwice<T>(m: map<string, T>, a: set<string>, b: set<string>)
    ensures m - a - b == m - (a + b)
  {
  }

  lemma NothingRun(s: State, x: string)
    requires Consistent(s)
    requires x !in s.images || s.images[x].refCount > 0 || s.images[x].volumeRef != ""
    ensures LongestRun(s.images, Chain(s.images, x), 0)
    ensures StateWithout(s, Members(Chain(s.images, x)[..0])) == s
  {
    NothingGoneAtAll(s, x);
    if x in s.images {
      ChainShape(s.images, x);
      assert s.images[x].refCount == |Children(s.images, x)|;
    }
  }

  /** A deleted image and the front of its backing chain disappear as one. */
  lemma GoneThroughDeleted(s: State, x: string, j: nat)
    requires Consistent(s) && x in s.images && s.images[x].refCount == 0 && s.images[x].backing != ""
    requires Consistent(Deleted(s, x))
    requires j <= |Chain(Deleted(s, x).images, s.images[x].backing)|
    ensures Chain(s.images, x) == [x] + Chain(Deleted(s, x).images, s.images[x].backing)
    ensures StateWithout(Deleted(s, x), Members(Chain(Deleted(s, x).images, s.images[x].backing)[..j])) ==
            StateWithout(s, Members(Chain(s.images, x)[..j + 1]))
  {
    var m, b := s.images, s.images[x].backing;
    assert Placed(m, x);
    DeletedKeepsConsistent(s, x);
    DeletedIsWithout(s, x);
    ChainKept(m, Deleted(s, x).images, b);
    FrontMembers(m, x, j);
    StateWithoutTwice(s, x, Members(Chain(m, b)[..j]));
  }

  lemma FrontMembers(m: Images, x: string, k: nat)
    requires IsForest(m) && x in m && m[x].backing != "" && k <= |Chain(m, m[x].backing)|
    ensures x !in Members(Chain(m, m[x].backing)[..k])
    ensures |Chain(m, x)| == |Chain(m, m[x].backing)| + 1
    ensures Members(Chain(m, x)[..k + 1]) == Members(Chain(m, m[x].backing)[..k]) + {x}
  {
    assert Placed(m, x);
    ChainMembers(m, m[x].backing);
    assert Chain(m, x)[..k + 1] == [x] + Chain(m, m[x].backing)[..k];
  }

  /** How far a releasable run that has reached position i goes. */
  ghost function RunFrom(m: Images, c: seq<string>, i: nat): (k: nat)
    requires i <= |c|
    ensures i <= k <= |c|
    decreases |c| - i
  {
    if i < |c| && c[i] in m && Releasable(m, c, i) then RunFrom(m, c, i + 1) else i
  }

  lemma {:induction false} RunFromExtends(m: Images, c: seq<string>, i: nat)
    requires InStore(m, c) && i <= |c| && forall j | 0 <= j < i :: Releasable(m, c, j)
    ensures LongestRun(m, c, RunFrom(m, c, i))
    decreases |c| - i
  {
    if i < |c| && Releasable(m, c, i) {
      RunFromExtends(m, c, i + 1);
    }
  }

  /** There is exactly one longest run. */
  lemma RunIsLongest(m: Images, c: seq<string>, k: nat)
    requires InStore(m, c)
    ensures LongestRun(m, c, k) <==> k == RunFrom(m, c, 0)
  {
    RunFromExtends(m, c, 0);
  }

  /** The daemon refuses to delete the image's node, or the host to remove its file. */
  ghost predicate DeletionRefused(m: Images, x: string, f: Faults)
    requires x in m
  {
    m[x].qsdId in f.del || m[x].file in f.unlink
  }

  /** Some image of the first k is refused. */
  ghost predicate RunRefused(m: Images, c: seq<string>, k: nat, f: Faults)
    requires InStore(m, c) && k <= |c|
  {
    exists i :: 0 <= i < k && DeletionRefused(m, c[i], f)
  }

  /** The position of the first refused image from position i on, or k if there is none before k. */
  ghost function FirstRefused(m: Images, c: seq<string>, i: nat, k: nat, f: Faults): (j: nat)
    requires InStore(m, c) && i <= k <= |c|
    ensures i <= j <= k
    ensures forall n | i <= n < j :: !DeletionRefused(m, c[n], f)
    ensures j < k ==> DeletionRefused(m, c[j], f)
    decreases k - i
  {
    if i == k || DeletionRefused(m, c[i], f) then i else FirstRefused(m, c, i + 1, k, f)
  }

  /** What is left when deletions stop at an image: all of it, or its record without its node. */
  ghost function StoppedAt(s: State, q: string, f: Faults): Result {
    if q in f.del then Result(s, Failed(BackendRefused))
    else Result(s.(daemon := s.daemon.(nodes := s.daemon.nodes - {q})), Failed(FileNotRemoved))
  }

  /** The front of the chain up to its first refused image is gone; k is the length of the run. */
  ghost function Stopped(s: State, c: seq<string>, k: nat, f: Faults): Result
    requires InStore(s.images, c) && k <= |c|
  {
    var j := FirstRefused(s.images, c, 0, k, f);
    var s' := StateWithout(s, Members(c[..j]));
    if j == k then Result(s', Ok) else StoppedAt(s', s.images[c[j]].qsdId, f)
  }

  lemma ChainInStore(m: Images, x: string)
    requires IsForest(m)
    ensures InStore(m, Chain(m, x))
  {
    if x in m {
      ChainShape(m, x);
    }
  }

  /** The outcome of a clean-up at x, read off the chain of x. */
  ghost function CleanedUp(s: State, x: string, f: Faults): Result
    requires IsForest(s.images)
  {
    var c := Chain(s.images, x);
    ChainInStore(s.images, x);
    Stopped(s, c, RunFrom(s.images, c, 0), f)
  }

  lemma NothingCleanedUp(s: State, x: string, f: Faults)
    requires Consistent(s)
    requires x !in s.images || s.images[x].refCount > 0 || s.images[x].volumeRef != ""
    ensures CleanedUp(s, x, f) == Result(s, Ok)
  {
    NothingRun(s, x);
    ChainInStore(s.images, x);
    RunIsLongest(s.images, Chain(s.images, x), 0);
  }

  lemma NothingGoneAtAll(s: State, x: string)
    requires Consistent(s)
    ensures StateWithout(s, Members(Chain(s.images, x)[..0])) == s
  {
    NothingGone(s.images);
    assert Members(Chain(s.images, x)[..0]) == {};
    assert NodesOf(s.images, {}) == {} && FilesOf(s.images, {}) == {};
  }

  lemma RefusedCleanedUp(s: State, x: string, f: Faults)
    requires Consistent(s) && x in s.images && s.images[x].refCount <= 0 && s.images[x].volumeRef == ""
    requires DeletionRefused(s.images, x, f)
    ensures CleanedUp(s, x, f) == StoppedAt(s, s.images[x].qsdId, f)
  {
    var c := Chain(s.images, x);
    ChainShape(s.images, x);
    assert s.images[x].refCount == |Children(s.images, x)|;
    assert Releasable(s.images, c, 0);
    NothingGoneAtAll(s, x);
  }

  lemma RefusedCleanUp(s: State, x: string, f: Faults)
    requires Consistent(s) && x in s.images && s.images[x].refCount <= 0 && s.images[x].volumeRef == ""
    requires DeletionRefused(s.images, x, f)
    ensures CleanUp(s, x, f) == StoppedAt(s, s.images[x].qsdId, f)
  {
    assert s.images[x].refCount == |Children(s.images, x)|;
    assert Backed(s.images, s.daemon, x);
    UsersAreChildren(s, x);
  }

  lemma RootCleanedUp(s: State, x: string, f: Faults)
    requires Consistent(s) && x in s.images && !DeletionRefused(s.images, x, f)
    requires s.images[x].refCount == 0 && s.images[x].volumeRef == "" && s.images[x].backing == ""
    ensures CleanedUp(s, x, f) == Result(Deleted(s, x), Ok)
  {
    RunAtRoot(s, x);
    ChainInStore(s.images, x);
    RunIsLongest(s.images, Chain(s.images, x), 1);
  }

  /** The clean-up deletes x and has a backing image to go on with. */
  ghost predicate GoesOn(s: State, x: string, f: Faults) {
    && x in s.images && s.images[x].refCount <= 0 && s.images[x].volumeRef == ""
    && !DeletionRefused(s.images, x, f) && s.images[x].backing != ""
  }

  /** The rest of a sequence after its first element. */
  ghost predicate IsRest(rest: seq<string>, c: seq<string>) {
    |c| == |rest| + 1 && forall i | 0 <= i < |rest| :: rest[i] == c[i + 1]
  }

  /** One place of a chain is as releasable after the image at its front has disappeared as before. */
  ghost predicate ShiftsAt(m: Images, m': Images, c: seq<string>, rest: seq<string>, i: nat) {
    && i < |rest| && i + 1 < |c|
    && rest[i] in m' && c[i + 1] in m
    && (Releasable(m', rest, i) <==> Releasable(m, c, i + 1))
  }

  lemma {:induction false} RunFromShifts(m: Images, m': Images, c: seq<string>, rest: seq<string>, i: nat)
    requires |c| == |rest| + 1 && i <= |rest|
    requires forall j: nat | j < |rest| :: ShiftsAt(m, m', c, rest, j)
    ensures RunFrom(m, c, i + 1) == RunFrom(m', rest, i) + 1
    decreases |rest| - i
  {
    if i < |rest| {
      assert ShiftsAt(m, m', c, rest, i);
      RunFromShifts(m, m', c, rest, i + 1);
    }
  }

  lemma RunShifts(m: Images, x: string)
    requires IsForest(m) && x in m && m[x].backing != "" && m[x].volumeRef == "" && Children(m, x) == {}
    requires InStore(Without(m, {x}), Chain(m, m[x].backing))
    ensures RunFrom(m, Chain(m, x), 0) == RunFrom(Without(m, {x}), Chain(m, m[x].backing), 0) + 1
  {
    var c, rest := Chain(m, x), Chain(m, m[x].backing);
    ChainInStore(m, x);
    forall i: nat | i < |rest|
      ensures ShiftsAt(m, Without(m, {x}), c, rest, i)
    {
      ShiftsAlongChain(m, x, i);
    }
    assert Releasable(m, c, 0);
    RunFromShifts(m, Without(m, {x}), c, rest, 0);
  }

  lemma ShiftsAlongChain(m: Images, x: string, i: nat)
    requires IsForest(m) && x in m && m[x].backing != ""
    requires InStore(m, Chain(m, x)) && InStore(Without(m, {x}), Chain(m, m[x].backing))
    requires i < |Chain(m, m[x].backing)|
    ensures ShiftsAt(m, Without(m, {x}), Chain(m, x), Chain(m, m[x].backing), i)
  {
    var c, rest := Chain(m, x), Chain(m, m[x].backing);
    assert c == [x] + rest;
    assert c[i + 1] == rest[i];
    ReleasableShifts(m, x, i);
  }

  lemma RefusedAlike(s: State, x: string, f: Faults, y: string)
    requires x in s.images && y in Deleted(s, x).images
    ensures y in s.images && Deleted(s, x).images[y].qsdId == s.images[y].qsdId
    ensures DeletionRefused(Deleted(s, x).images, y, f) == DeletionRefused(s.images, y, f)
  {
  }

  lemma {:induction false} RefusalsShift(
    s: State, x: string, c: seq<string>, rest: seq<string>, i: nat, k: nat, f: Faults)
    requires x in s.images && InStore(s.images, c) && InStore(Deleted(s, x).images, rest)
    requires IsRest(rest, c) && i <= k <= |rest|
    ensures FirstRefused(s.images, c, i + 1, k + 1, f) == FirstRefused(Deleted(s, x).images, rest, i, k, f) + 1
    decreases k - i
  {
    if i < k {
      assert rest[i] == c[i + 1];
      RefusedAlike(s, x, f, rest[i]);
      if !DeletionRefused(s.images, rest[i], f) {
        RefusalsShift(s, x, c, rest, i + 1, k, f);
      }
    }
  }

  lemma StoppedOnward(s: State, x: string, c: seq<string>, rest: seq<string>, k: nat, f: Faults)
    requires x in s.images && !DeletionRefused(s.images, x, f)
    requires InStore(s.images, c) && InStore(Deleted(s, x).images, rest)
    requires IsRest(rest, c) && c[0] == x && k <= |rest|
    requires forall j | 0 <= j <= |rest| ::
               StateWithout(Deleted(s, x), Members(rest[..j])) == StateWithout(s, Members(c[..j + 1]))
    ensures Stopped(s, c, k + 1, f) == Stopped(Deleted(s, x), rest, k, f)
  {
    RefusalsShift(s, x, c, rest, 0, k, f);
    var j := FirstRefused(Deleted(s, x).images, rest, 0, k, f);
    assert FirstRefused(s.images, c, 0, k + 1, f) == j + 1;
    if j < k {
      RefusedAlike(s, x, f, rest[j]);
    }
  }

  /** The chain below a deleted image is the rest of its chain, and so is the run there. */
  lemma RestOfChain(s: State, x: string, f: Faults)
    requires Consistent(s) && GoesOn(s, x, f) && Consistent(Deleted(s, x))
    ensures var c, rest := Chain(s.images, x), Chain(Deleted(s, x).images, s.images[x].backing);
            && InStore(s.images, c) && InStore(Deleted(s, x).images, rest)
            && IsRest(rest, c) && c[0] == x
            && RunFrom(s.images, c, 0) == RunFrom(Deleted(s, x).images, rest, 0) + 1
  {
    assert s.images[x].refCount == |Children(s.images, x)|;
    ChainInStore(s.images, x);
    ChainInStore(Deleted(s, x).images, s.images[x].backing);
    GoneThroughDeleted(s, x, 0);
    RunThroughDeleted(s, x);
  }

  lemma FrontsGoAlike(s: State, x: string, f: Faults)
    requires Consistent(s) && GoesOn(s, x, f) && Consistent(Deleted(s, x))
    ensures var c, rest := Chain(s.images, x), Chain(Deleted(s, x).images, s.images[x].backing);
            forall j | 0 <= j <= |rest| && j + 1 <= |c| ::
              StateWithout(Deleted(s, x), Members(rest[..j])) == StateWithout(s, Members(c[..j + 1]))
  {
    var c, rest := Chain(s.images, x), Chain(Deleted(s, x).images, s.images[x].backing);
    assert s.images[x].refCount == |Children(s.images, x)|;
    forall j | 0 <= j <= |rest| && j + 1 <= |c|
      ensures StateWithout(Deleted(s, x), Members(rest[..j])) == StateWithout(s, Members(c[..j + 1]))
    {
      GoneThroughDeleted(s, x, j);
    }
  }

  lemma CleanedUpOnward(s: State, x: string, f: Faults)
    requires Consistent(s) && GoesOn(s, x, f) && Consistent(Deleted(s, x))
    ensures CleanedUp(s, x, f) == CleanedUp(Deleted(s, x), s.images[x].backing, f)
  {
    var m', rest := Deleted(s, x).images, Chain(Deleted(s, x).images, s.images[x].backing);
    RestOfChain(s, x, f);
    FrontsGoAlike(s, x, f);
    StoppedOnward(s, x, Chain(s.images, x), rest, RunFrom(m', rest, 0), f);
  }

  lemma RunThroughDeleted(s: State, x: string)
    requires Consistent(s) && x in s.images && s.images[x].refCount == 0 && s.images[x].volumeRef == ""
    requires s.images[x].backing != "" && IsForest(Deleted(s, x).images)
    ensures RunFrom(s.images, Chain(s.images, x), 0) ==
            RunFrom(Deleted(s, x).images, Chain(Deleted(s, x).images, s.images[x].backing), 0) + 1
  {
    assert Placed(s.images, x);
    ChainKept(s.images, Deleted(s, x).images, s.images[x].backing);
    DeletedIsWithout(s, x);
    ChainInStore(Deleted(s, x).images, s.images[x].backing);
    assert s.images[x].refCount == |Children(s.images, x)|;
    RunShifts(s.images, x);
  }

  /**
    Exact reclamation under every refusal: of the longest run at the front of the chain whose
    members are unnamed and support only each other, the clean-up removes those before the first
    that is refused, with their nodes and files, and stops there; the counts of the others are the
    children they have left.
   */
  lemma {:induction false} CleanUpStops(s: State, x: string, f: Faults)
    requires Consistent(s)
    ensures CleanUp(s, x, f) == CleanedUp(s, x, f)
    decreases |s.images.Keys|
  {
    if x !in s.images || s.images[x].refCount > 0 || s.images[x].volumeRef != "" {
      NothingCleanedUp(s, x, f);
    } else if DeletionRefused(s.images, x, f) {
      RefusedCleanedUp(s, x, f);
      RefusedCleanUp(s, x, f);
    } else {
      CleanUpGoesOn(s, x, f);
      if s.images[x].backing == "" {
        RootCleanedUp(s, x, f);
      } else {
        CleanUpStops(Deleted(s, x), s.images[x].backing, f);
        CleanedUpOnward(s, x, f);
      }
    }
  }

  /** Some image of the longest releasable run on the chain of x is refused. */
  ghost predicate CleanUpBlocked(m: Images, x: string, f: Faults)
    requires IsForest(m)
  {
    var c := Chain(m, x);
    ChainInStore(m, x);
    RunRefused(m, c, RunFrom(m, c, 0), f)
  }

  /** The clean-up reports a failure exactly when an image of the longest run is refused. */
  lemma CleanUpFailsExactly(s: State, x: string, f: Faults)
    requires Consistent(s)
    ensures CleanUp(s, x, f).reply != Ok <==> CleanUpBlocked(s.images, x, f)
  {
    CleanUpStops(s, x, f);
    ChainInStore(s.images, x);
    var c := Chain(s.images, x);
    var k := RunFrom(s.images, c, 0);
    if FirstRefused(s.images, c, 0, k, f) < k {
      assert DeletionRefused(s.images, c[FirstRefused(s.images, c, 0, k, f)], f);
    }
  }

  /** The images a clean-up at x takes: the longest run, up to the first image that is refused. */
  ghost function RunTaken(m: Images, x: string, f: Faults): set<string>
    requires IsForest(m)
  {
    var c := Chain(m, x);
    ChainInStore(m, x);
    Members(c[..FirstRefused(m, c, 0, RunFrom(m, c, 0), f)])
  }

  /** The first refused image of a run of k. */
  ghost function LeftAt(m: Images, c: seq<string>, k: nat, f: Faults): set<string>
    requires InStore(m, c) && k <= |c|
  {
    var j := FirstRefused(m, c, 0, k, f);
    if j < k then {c[j]} else {}
  }

  /** The image a clean-up at x would have taken next, had it not been refused. */
  ghost function LeftBehind(m: Images, x: string, f: Faults): set<string>
    requires IsForest(m)
  {
    var c := Chain(m, x);
    ChainInStore(m, x);
    LeftAt(m, c, RunFrom(m, c, 0), f)
  }

  lemma CleanUpKeys(s: State, x: string, f: Faults)
    requires Consistent(s)
    ensures CleanUp(s, x, f).state.images.Keys == s.images.Keys - RunTaken(s.images, x, f)
  {
    CleanUpStops(s, x, f);
  }

  lemma LeftOnward(s: State, x: string, c: seq<string>, rest: seq<string>, k: nat, f: Faults)
    requires x in s.images && !DeletionRefused(s.images, x, f)
    requires InStore(s.images, c) && InStore(Deleted(s, x).images, rest)
    requires IsRest(rest, c) && c[0] == x && k <= |rest|
    ensures LeftAt(s.images, c, k + 1, f) == LeftAt(Deleted(s, x).images, rest, k, f)
  {
    RefusalsShift(s, x, c, rest, 0, k, f);
    var j := FirstRefused(Deleted(s, x).images, rest, 0, k, f);
    assert FirstRefused(s.images, c, 0, k + 1, f) == j + 1;
  }

  lemma LeftBehindOnward(s: State, x: string, f: Faults)
    requires Consistent(s) && GoesOn(s, x, f) && Consistent(Deleted(s, x))
    ensures LeftBehind(s.images, x, f) == LeftBehind(Deleted(s, x).images, s.images[x].backing, f)
  {
    var m', rest := Deleted(s, x).images, Chain(Deleted(s, x).images, s.images[x].backing);
    RestOfChain(s, x, f);
    LeftOnward(s, x, Chain(s.images, x), rest, RunFrom(m', rest, 0), f);
  }

  lemma NothingLeftBehind(s: State, x: string, f: Faults)
    requires Consistent(s)
    requires x !in s.images || s.images[x].refCount > 0 || s.images[x].volumeRef != ""
    ensures LeftBehind(s.images, x, f) == {}
  {
    NothingRun(s, x);
    ChainInStore(s.images, x);
    RunIsLongest(s.images, Chain(s.images, x), 0);
  }

  lemma RefusedLeftBehind(s: State, x: string, f: Faults)
    requires Consistent(s) && x in s.images && s.images[x].refCount <= 0 && s.images[x].volumeRef == ""
    requires DeletionRefused(s.images, x, f)
    ensures LeftBehind(s.images, x, f) == {x}
  {
    ChainShape(s.images, x);
    assert s.images[x].refCount == |Children(s.images, x)|;
    assert Releasable(s.images, Chain(s.images, x), 0);
  }

  lemma RootLeavesNothing(s: State, x: string, f: Faults)
    requires Consistent(s) && x in s.images && !DeletionRefused(s.images, x, f)
    requires s.images[x].refCount == 0 && s.images[x].volumeRef == "" && s.images[x].backing == ""
    ensures LeftBehind(s.images, x, f) == {}
  {
    RunAtRoot(s, x);
    ChainInStore(s.images, x);
    RunIsLongest(s.images, Chain(s.images, x), 1);
  }

  /** The clean-up at x removed exactly the longest releasable run, of length k. */
  ghost predicate Reclaims(s: State, x: string, f: Faults, k: nat)
    requires IsForest(s.images)
  {
    && LongestRun(s.images, Chain(s.images, x), k)
    && CleanUp(s, x, f) == Result(StateWithout(s, Members(Chain(s.images, x)[..k])), Ok)
  }

  /** When deletions work, the whole run goes. */
  lemma CleanUpExact(s: State, x: string, f: Faults) returns (k: nat)
    requires Consistent(s) && DeletesWork(f)
    ensures Reclaims(s, x, f, k)
  {
    CleanUpStops(s, x, f);
    ChainInStore(s.images, x);
    k := RunFrom(s.images, Chain(s.images, x), 0);
    RunIsLongest(s.images, Chain(s.images, x), k);
  }

  lemma CleanUpGoesOn(s: State, x: string, f: Faults)
    requires Consistent(s) && x in s.images && !DeletionRefused(s.images, x, f)
    requires s.images[x].refCount <= 0 && s.images[x].volumeRef == ""
    ensures s.images[x].refCount == 0
    ensures Consistent(Deleted(s, x)) && Deleted(s, x).images.Keys == s.images.Keys - {x}
    ensures CleanUp(s, x, f) ==
            if s.images[x].backing == "" then Result(Deleted(s, x), Ok)
            else CleanUp(Deleted(s, x), s.images[x].backing, f)
  {
    assert s.images[x].refCount == |Children(s.images, x)|;
    DeleteImageOutcome(s, x, f);
  }

  lemma RunAtRoot(s: State, x: string)
    requires Consistent(s) && x in s.images && s.images[x].refCount == 0 && s.images[x].volumeRef == ""
    requires s.images[x].backing == ""
    ensures LongestRun(s.images, Chain(s.images, x), 1)
    ensures StateWithout(s, Members(Chain(s.images, x)[..1])) == Deleted(s, x)
  {
    DeletedKeepsConsistent(s, x);
    DeletedIsWithout(s, x);
    assert Chain(s.images, x) == [x];
    assert Members([x]) == {x};
  }

  lemma {:induction false} LostChildIsPredecessor(m: Images, x: string, k: nat, y: string, z: string)
    requires IsForest(m) && x in m && k <= |Chain(m, x)|
    requires y in m && y !in Chain(m, x)[..k]
    requires z in Chain(m, x)[..k] && z in m && m[z].backing == y
    ensures 0 < k < |Chain(m, x)| && y == Chain(m, x)[k] && z == Chain(m, x)[k - 1]
  {
    var c := Chain(m, x);
    ChainShape(m, x);
    assert m[c[|c| - 1]].backing == "" && y != "";
    var i :| 0 <= i < k && c[..k][i] == z;
    assert c[i] == z;
    assert i < |c| - 1 && c[i + 1] == y;
    LastInside(c, k, i);
  }

  lemma LastInside(c: seq<string>, k: nat, i: nat)
    requires i < k <= |c| && i + 1 < |c|
    requires c[i + 1] !in c[..k]
    ensures i + 1 == k
  {
    forall j | 0 <= j < k
      ensures c[j] in c[..k]
    {
      assert c[..k][j] == c[j];
    }
  }

  lemma {:induction false} LostChildren(m: Images, x: string, k: nat, y: string)
    requires IsForest(m) && x in m && k <= |Chain(m, x)|
    requires y in m && y !in Chain(m, x)[..k]
    ensures Children(m, y) * Members(Chain(m, x)[..k]) ==
            if 0 < k < |Chain(m, x)| && y == Chain(m, x)[k] then {Chain(m, x)[k - 1]} else {}
  {
    var c := Chain(m, x);
    ChainShape(m, x);
    forall z | z in Children(m, y) && z in c[..k]
      ensures 0 < k < |c| && y == c[k] && z == c[k - 1]
    {
      LostChildIsPredecessor(m, x, k, y, z);
    }
    if 0 < k < |c| {
      assert c[k - 1] == c[..k][k - 1];
    }
  }

  lemma LeftAfterLoss(a: set<string>, gone: set<string>)
    ensures |a - gone| == |a| - |a * gone|
  {
    assert a - gone == a - a * gone;
  }

  /** Only the first survivor on the chain loses a child, one; every other one keeps its count. */
  lemma {:induction false} OnlyFirstSurvivorChanges(m: Images, x: string, k: nat, y: string)
    requires IsForest(m) && Counts(m) && x in m && k <= |Chain(m, x)|
    requires y in m && y !in Chain(m, x)[..k]
    ensures |Children(m, y) - Members(Chain(m, x)[..k])| ==
            if 0 < k < |Chain(m, x)| && y == Chain(m, x)[k] then m[y].refCount - 1 else m[y].refCount
  {
    LostChildren(m, x, k, y);
    LeftAfterLoss(Children(m, y), Members(Chain(m, x)[..k]));
  }
}
