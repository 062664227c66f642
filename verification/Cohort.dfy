/** Cohort assignment (crates/shit-planner/src/cohort.rs): greedy first-fit over
    the touch sets of a plan's operations. */
module Cohort {
  import opened Plan

  datatype TouchKey = PathKey(path: Path) | InodeKey(inode: InodeRef)

  /** Every path and inode an operation touches, in the order they are pushed. */
  function Touches(op: InverseOp): seq<TouchKey> {
    match op
    case Rename(from, to) => [PathKey(from), PathKey(to)]
    case RestoreContent(inode, path, _) => [PathKey(path), InodeKey(inode)]
    case RestoreMetadata(inode, path, _) => [PathKey(path), InodeKey(inode)]
    case RestoreFlags(inode, path, _) => [PathKey(path), InodeKey(inode)]
    case Unlink(path) => [PathKey(path)]
    case RecreatePath(path, _, _) => [PathKey(path)]
    case CreateSymlink(_, path) => [PathKey(path)]
    case FileExtend(path, _) => [PathKey(path)]
    case CreateHardlink(source, linkPath) => [PathKey(source), PathKey(linkPath)]
    case SetEnv(_, _) => []
    case UnsetEnv(_) => []
    case Refuse(_, _, _) => []
    case OtherTier(_, _) => []
  }

  type Keys = set<TouchKey>

  function TouchSet(op: InverseOp): (keys: Keys)
    ensures PrimaryPath(op).Some? ==> PathKey(PrimaryPath(op).value) in keys
    ensures PrimaryInode(op).Some? ==> InodeKey(PrimaryInode(op).value) in keys
    ensures op.Rename? ==> PathKey(op.from) in keys
    ensures op.CreateHardlink? ==> PathKey(op.source) in keys
    ensures keys != {} <==> PrimaryPath(op).Some?
  {
    assert PrimaryPath(op).Some? ==> PathKey(PrimaryPath(op).value) in Touches(op);
    set k | k in Touches(op)
  }

  /** Exactly what an operation names is touched: both ends of a rename and of a hard link, else the path it
      has, and the inode where it has one. */
  lemma TouchesWhatItNames(op: InverseOp)
    ensures forall p :: PathKey(p) in TouchSet(op) <==>
      || (op.Rename? && (p == op.from || p == op.to))
      || (op.CreateHardlink? && (p == op.source || p == op.linkPath))
      || ((|| op.RestoreContent? || op.RestoreMetadata? || op.RestoreFlags? || op.Unlink? || op.RecreatePath?
           || op.CreateSymlink? || op.FileExtend?) && p == op.path)
    ensures forall n :: InodeKey(n) in TouchSet(op) <==>
      (op.RestoreContent? || op.RestoreMetadata? || op.RestoreFlags?) && n == op.inode
    ensures PrimaryInode(op).Some? <==> exists n :: InodeKey(n) in TouchSet(op)
  {
    assert PrimaryInode(op).Some? ==> InodeKey(PrimaryInode(op).value) in TouchSet(op);
  }

  /** The touch set of every node of a plan. */
  function TouchSets(nodes: seq<PlanNode>): seq<Keys> {
    seq(|nodes|, i requires 0 <= i < |nodes| => TouchSet(nodes[i].op))
  }

  function Labels(nodes: seq<PlanNode>): seq<nat> {
    seq(|nodes|, i requires 0 <= i < |nodes| => nodes[i].cohort)
  }

  // ------------------------------------------------------------------
  // What a first-fit colouring is, said without the per-cohort key sets.
  // `ts` gives each node's touch set, `lab` each node's cohort.
  // ------------------------------------------------------------------

  predicate Clash(ts: seq<Keys>, i: nat, j: nat)
    requires i < |ts| && j < |ts|
  {
    !(ts[i] !! ts[j])
  }

  /** Cohort `c` holds no clash with node `j` among the nodes before it. */
  ghost predicate Free(ts: seq<Keys>, lab: seq<nat>, j: nat, c: nat)
    requires j < |ts| && j <= |lab|
  {
    forall i :: 0 <= i < j && lab[i] == c ==> !Clash(ts, i, j)
  }

  /** `lab[j]` is the least cohort free for node `j`. */
  ghost predicate FirstFitAt(ts: seq<Keys>, lab: seq<nat>, j: nat)
    requires j < |ts| && j < |lab|
  {
    && Free(ts, lab, j, lab[j])
    && forall c: nat :: c < lab[j] ==> !Free(ts, lab, j, c)
  }

  ghost predicate FirstFit(ts: seq<Keys>, lab: seq<nat>) {
    && |lab| == |ts|
    && forall j :: 0 <= j < |ts| ==> FirstFitAt(ts, lab, j)
  }

  // ------------------------------------------------------------------
  // The loop
  // ------------------------------------------------------------------

  /** `keys` is the union of the touch sets of the labelled nodes in cohort `c`. */
  ghost predicate Holds(ts: seq<Keys>, lab: seq<nat>, c: nat, keys: Keys)
    requires |lab| <= |ts|
  {
    && (forall i :: 0 <= i < |lab| && lab[i] == c ==> ts[i] <= keys)
    && (forall k :: k in keys ==> exists i :: 0 <= i < |lab| && lab[i] == c && k in ts[i])
  }

  /** What the loop knows once the nodes `0..|lab|` have their cohorts. */
  ghost predicate Assigned(ts: seq<Keys>, lab: seq<nat>, held: seq<Keys>) {
    && |lab| <= |ts|
    && (forall j :: 0 <= j < |lab| ==> lab[j] < |held|)
    && (forall j :: 0 <= j < |lab| ==> FirstFitAt(ts, lab, j))
    && (forall c :: 0 <= c < |held| ==> Holds(ts, lab, c, held[c]))
    && (forall c :: 0 <= c < |held| ==> c in lab)
  }

  /** Putting the next node into cohort `c` of `held` (a new one when `c == |held|`). */
  function Insert(held: seq<Keys>, c: nat, keys: Keys): seq<Keys>
    requires c <= |held|
  {
    if c < |held| then held[c := held[c] + keys] else held + [keys]
  }

  lemma FreeMeansFits(ts: seq<Keys>, lab: seq<nat>, held: seq<Keys>, c: nat)
    requires Assigned(ts, lab, held) && |lab| < |ts| && c <= |held|
    ensures Free(ts, lab, |lab|, c) <==> c == |held| || ts[|lab|] !! held[c]
  {
    var j := |lab|;
    if c < |held| {
      assert Holds(ts, lab, c, held[c]);
      if k :| k in ts[j] && k in held[c] {
        var i :| 0 <= i < |lab| && lab[i] == c && k in ts[i];
        assert Clash(ts, i, j);
      }
    }
  }

  lemma FreeIgnoresLater(ts: seq<Keys>, lab: seq<nat>, x: nat, j: nat, c: nat)
    requires j < |ts| && j <= |lab|
    ensures Free(ts, lab + [x], j, c) == Free(ts, lab, j, c)
  {
    assert forall i :: 0 <= i < j ==> (lab + [x])[i] == lab[i];
  }

  lemma FirstFitStep(ts: seq<Keys>, lab: seq<nat>, held: seq<Keys>, c: nat, j: nat)
    requires Assigned(ts, lab, held) && |lab| < |ts| && c <= |held|
    requires c == |held| || ts[|lab|] !! held[c]
    requires forall c' :: 0 <= c' < c ==> !(ts[|lab|] !! held[c'])
    requires j <= |lab|
    ensures FirstFitAt(ts, lab + [c], j)
  {
    var lab' := lab + [c];
    assert j < |lab| ==> FirstFitAt(ts, lab, j) && lab'[j] == lab[j];
    FreeIgnoresLater(ts, lab, c, j, lab'[j]);
    if j == |lab| {
      FreeMeansFits(ts, lab, held, c);
    }
    forall c': nat | c' < lab'[j] ensures !Free(ts, lab', j, c') {
      FreeIgnoresLater(ts, lab, c, j, c');
      if j == |lab| {
        FreeMeansFits(ts, lab, held, c');
      }
    }
  }

  lemma HoldsStep(ts: seq<Keys>, lab: seq<nat>, held: seq<Keys>, c: nat, d: nat)
    requires Assigned(ts, lab, held) && |lab| < |ts| && c <= |held|
    requires d < |Insert(held, c, ts[|lab|])|
    ensures Holds(ts, lab + [c], d, Insert(held, c, ts[|lab|])[d])
    ensures d in lab + [c]
  {
    var n := |lab|;
    var lab', keys := lab + [c], Insert(held, c, ts[n])[d];
    var before := if d < |held| then held[d] else {};
    assert Holds(ts, lab, d, before);
    forall k | k in keys ensures exists i :: 0 <= i < n + 1 && lab'[i] == d && k in ts[i] {
      if k in before {
        var i :| 0 <= i < n && lab[i] == d && k in ts[i];
        assert lab'[i] == d;
      } else {
        assert lab'[n] == d && k in ts[n];
      }
    }
    assert d < |held| ==> d in lab;
    assert d == |held| ==> lab'[n] == d;
  }

  lemma AssignedStep(ts: seq<Keys>, lab: seq<nat>, held: seq<Keys>, c: nat)
    requires Assigned(ts, lab, held) && |lab| < |ts| && c <= |held|
    requires c == |held| || ts[|lab|] !! held[c]
    requires forall c' :: 0 <= c' < c ==> !(ts[|lab|] !! held[c'])
    ensures Assigned(ts, lab + [c], Insert(held, c, ts[|lab|]))
  {
    var lab', held' := lab + [c], Insert(held, c, ts[|lab|]);
    forall j | 0 <= j < |lab'| ensures FirstFitAt(ts, lab', j) {
      FirstFitStep(ts, lab, held, c, j);
    }
    forall d | 0 <= d < |held'| ensures Holds(ts, lab', d, held'[d]) && d in lab' {
      HoldsStep(ts, lab, held, c, d);
    }
  }

  /** Finds the lowest cohort whose keys overlap none of `keys`, opening a new one if
      every cohort overlaps, and adds the keys to it. */
  method Place(keys: Keys, held: seq<Keys>) returns (c: nat, held': seq<Keys>)
    ensures c <= |held| && held' == Insert(held, c, keys)
    ensures c == |held| || keys !! held[c]
    ensures forall c' :: 0 <= c' < c ==> !(keys !! held[c'])
  {
    c := 0;
    if keys == {} {
      held' := if held == [] then [{}] else held;
      assert held != [] ==> held[0] + keys == held[0];
      return;
    }
    while c < |held| && !(keys !! held[c])
      invariant 0 <= c <= |held|
      invariant forall c' :: 0 <= c' < c ==> !(keys !! held[c'])
    {
      c := c + 1;
    }
    held' := if c == |held| then held + [{}] else held;
    assert {} + keys == keys;
    held' := held'[c := held'[c] + keys];
  }

  lemma SameTouchSets(a: seq<PlanNode>, b: seq<PlanNode>)
    requires |a| == |b| && forall i :: 0 <= i < |a| ==> a[i].op == b[i].op
    ensures TouchSets(a) == TouchSets(b)
  {
  }

  /** Assigns every node its cohort in place and returns the number of cohorts. */
  method AssignCohorts(nodes: array<PlanNode>) returns (count: nat)
    modifies nodes
    ensures forall i :: 0 <= i < nodes.Length ==>
      nodes[i] == old(nodes[i]).(cohort := nodes[i].cohort)
    ensures FirstFit(TouchSets(nodes[..]), Labels(nodes[..]))
    ensures forall c: nat :: c < count <==> c in Labels(nodes[..])
  {
    ghost var was := nodes[..];
    ghost var ts := TouchSets(was);
    ghost var lab: seq<nat> := [];
    var held: seq<Keys> := [];
    var n := 0;
    while n < nodes.Length
      invariant 0 <= n <= nodes.Length == |ts|
      invariant |lab| == n
      invariant Assigned(ts, lab, held)
      invariant forall i :: 0 <= i < nodes.Length ==>
        nodes[i] == old(nodes[i]).(cohort := nodes[i].cohort)
      invariant forall i :: 0 <= i < n ==> nodes[i].cohort == lab[i]
    {
      assert nodes[n].op == was[n].op;
      var c, held' := Place(TouchSet(nodes[n].op), held);
      AssignedStep(ts, lab, held, c);
      held := held';
      nodes[n] := nodes[n].(cohort := c);
      lab := lab + [c];
      n := n + 1;
    }
    count := |held|;
    SameTouchSets(was, nodes[..]);
    AllAssigned(ts, lab, held);
    assert Labels(nodes[..]) == lab;
  }

  /** Once every node has its cohort, the labelling is first fit and uses the cohorts in turn. */
  lemma AllAssigned(ts: seq<Keys>, lab: seq<nat>, held: seq<Keys>)
    requires Assigned(ts, lab, held) && |lab| == |ts|
    ensures FirstFit(ts, lab)
    ensures forall c: nat :: c < |held| <==> c in lab
  {
  }

  // ------------------------------------------------------------------
  // Laws of first fit
  // ------------------------------------------------------------------

  /** Nodes that share a cohort share no path and no inode. */
  lemma SameCohortDisjoint(ts: seq<Keys>, lab: seq<nat>, i: nat, j: nat)
    requires FirstFit(ts, lab) && i < |ts| && j < |ts| && i != j && lab[i] == lab[j]
    ensures ts[i] !! ts[j]
  {
    var lo, hi := if i < j then i else j, if i < j then j else i;
    assert FirstFitAt(ts, lab, hi);
    assert !Clash(ts, lo, hi);
  }

  /** There is one first-fit labelling, so `AssignCohorts` computes a function of the
      touch sets. */
  lemma FirstFitUnique(ts: seq<Keys>, a: seq<nat>, b: seq<nat>)
    requires FirstFit(ts, a) && FirstFit(ts, b)
    ensures a == b
  {
    FirstFitUniqueUpTo(ts, a, b, |ts|);
  }

  lemma {:induction false} FirstFitUniqueUpTo(ts: seq<Keys>, a: seq<nat>, b: seq<nat>, m: nat)
    requires FirstFit(ts, a) && FirstFit(ts, b) && m <= |ts|
    ensures a[..m] == b[..m]
  {
    if m > 0 {
      var j := m - 1;
      FirstFitUniqueUpTo(ts, a, b, j);
      assert forall i :: 0 <= i < j ==> a[i] == a[..j][i] == b[..j][i] == b[i];
      assert FirstFitAt(ts, a, j) && FirstFitAt(ts, b, j);
      assert Free(ts, a, j, b[j]) && Free(ts, b, j, a[j]);
      assert a[j] == b[j];
    }
  }

  /** The nodes before `j` that clash with it. */
  ghost function EarlierClashes(ts: seq<Keys>, j: nat): set<int>
    requires j < |ts|
  {
    set i | 0 <= i < j && Clash(ts, i, j)
  }

  /** A node's cohort number is at most the number of earlier nodes it clashes with. */
  lemma CohortAtMostDegree(ts: seq<Keys>, lab: seq<nat>, j: nat)
    requires FirstFit(ts, lab) && j < |ts|
    ensures lab[j] <= |EarlierClashes(ts, j)|
  {
    var w := OneClashPerCohort(ts, lab, j, lab[j]);
    SubsetSize(w, EarlierClashes(ts, j));
  }

  lemma {:induction false} OneClashPerCohort(ts: seq<Keys>, lab: seq<nat>, j: nat, c: nat)
    returns (w: set<int>)
    requires FirstFit(ts, lab) && j < |ts| && c <= lab[j]
    ensures w <= EarlierClashes(ts, j) && |w| == c
    ensures forall i :: i in w ==> lab[i] < c
  {
    if c == 0 {
      w := {};
    } else {
      w := OneClashPerCohort(ts, lab, j, c - 1);
      assert FirstFitAt(ts, lab, j);
      assert !Free(ts, lab, j, c - 1);
      var i :| 0 <= i < j && lab[i] == c - 1 && Clash(ts, i, j);
      w := w + {i};
    }
  }

  lemma {:induction false} SubsetSize<T>(a: set<T>, b: set<T>)
    requires a <= b
    ensures |a| <= |b|
  {
    if a != {} {
      var x :| x in a;
      SubsetSize(a - {x}, b - {x});
    }
  }

  /** There is a cohort 0, and at most (largest clash degree + 1) cohorts. */
  lemma CohortCount(ts: seq<Keys>, lab: seq<nat>, count: nat, degree: nat)
    requires FirstFit(ts, lab) && ts != []
    requires forall c: nat :: c < count <==> c in lab
    requires forall j :: 0 <= j < |ts| ==> |EarlierClashes(ts, j)| <= degree
    ensures 1 <= count <= degree + 1
  {
    assert lab[0] in lab;
    if count > degree + 1 {
      assert degree + 1 in lab;
      var j :| 0 <= j < |lab| && lab[j] == degree + 1;
      CohortAtMostDegree(ts, lab, j);
    }
  }

  // ------------------------------------------------------------------
  // When cohort numbers respect the plan order of clashing nodes
  // ------------------------------------------------------------------

  /** The promise at crates/shit-planner/src/cohort.rs:24-26: a node never lands in a
      cohort earlier than an earlier node it clashes with. */
  ghost predicate OrderKept(ts: seq<Keys>, lab: seq<nat>)
    requires |lab| == |ts|
  {
    forall i, j :: 0 <= i < j < |ts| && Clash(ts, i, j) ==> lab[i] <= lab[j]
  }

  /** Some earlier node that clashes with node `j` has depth `d`. */
  ghost predicate Below(ts: seq<Keys>, depth: seq<nat>, j: nat, d: nat)
    requires j < |ts| && j <= |depth|
  {
    exists i :: 0 <= i < j && Clash(ts, i, j) && depth[i] == d
  }

  /** `depth[j]` is the length of the longest chain of clashes that ends at node `j`. */
  ghost predicate IsDepth(ts: seq<Keys>, depth: seq<nat>) {
    && |depth| == |ts|
    && (forall i, j :: 0 <= i < j < |ts| && Clash(ts, i, j) ==> depth[i] < depth[j])
    && (forall j :: 0 <= j < |ts| && depth[j] > 0 ==> Below(ts, depth, j, depth[j] - 1))
  }

  /** The chains that end at a node have every length below the longest. */
  ghost predicate GapFree(ts: seq<Keys>, depth: seq<nat>)
    requires |depth| == |ts|
  {
    forall j, d :: 0 <= j < |ts| && 0 <= d < depth[j] ==> Below(ts, depth, j, d)
  }

  /** The chain depths of a plan, computed from its touch sets alone. */
  ghost function Depths(ts: seq<Keys>): (depth: seq<nat>)
    ensures |depth| == |ts|
  {
    if ts == [] then []
    else
      var before := Depths(ts[..|ts| - 1]);
      before + [DepthOver(ts, before, |ts| - 1)]
  }

  ghost function DepthOver(ts: seq<Keys>, depth: seq<nat>, m: nat): (d: nat)
    requires ts != [] && |depth| == |ts| - 1 && m <= |depth|
    ensures forall i :: 0 <= i < m && Clash(ts, i, |ts| - 1) ==> depth[i] < d
    ensures d == 0 || exists i :: 0 <= i < m && Clash(ts, i, |ts| - 1) && depth[i] == d - 1
  {
    if m == 0 then 0
    else
      var d := DepthOver(ts, depth, m - 1);
      if Clash(ts, m - 1, |ts| - 1) && depth[m - 1] >= d then depth[m - 1] + 1 else d
  }

  lemma {:induction false} DepthsAreDepths(ts: seq<Keys>)
    ensures IsDepth(ts, Depths(ts))
  {
    if ts != [] {
      var front := ts[..|ts| - 1];
      DepthsAreDepths(front);
      DepthExtends(ts, front, Depths(front), DepthOver(ts, Depths(front), |front|));
    }
  }

  lemma DepthExtends(ts: seq<Keys>, front: seq<Keys>, before: seq<nat>, d: nat)
    requires ts != [] && front == ts[..|ts| - 1] && IsDepth(front, before)
    requires forall i :: 0 <= i < |front| && Clash(ts, i, |front|) ==> before[i] < d
    requires d > 0 ==> Below(ts, before, |front|, d - 1)
    ensures IsDepth(ts, before + [d])
  {
    var n, depth := |front|, before + [d];
    forall i, j | 0 <= i < j <= n && Clash(ts, i, j) ensures depth[i] < depth[j] {
      if j < n {
        assert ts[i] == front[i] && ts[j] == front[j];
        assert Clash(front, i, j);
      } else {
        assert Clash(ts, i, |front|);
      }
    }
    forall j | 0 <= j <= n && depth[j] > 0 ensures Below(ts, depth, j, depth[j] - 1) {
      if j < n {
        assert before[j] == depth[j];
        assert Below(front, before, j, before[j] - 1);
      }
      BelowExtends(ts, front, before, d, j);
    }
  }

  lemma BelowExtends(ts: seq<Keys>, front: seq<Keys>, before: seq<nat>, d: nat, j: nat)
    requires ts != [] && front == ts[..|ts| - 1] && |before| == |front| && j <= |front|
    requires j < |front| ==> before[j] > 0 && Below(front, before, j, before[j] - 1)
    requires j == |front| ==> d > 0 && Below(ts, before, j, d - 1)
    ensures Below(ts, before + [d], j, (before + [d])[j] - 1)
  {
    var depth := before + [d];
    if j < |front| {
      var i :| 0 <= i < j && Clash(front, i, j) && before[i] == before[j] - 1;
      assert ts[i] == front[i] && ts[j] == front[j];
      assert Clash(ts, i, j) && depth[i] == depth[j] - 1;
    } else {
      var i :| 0 <= i < j && Clash(ts, i, j) && before[i] == d - 1;
      assert depth[i] == depth[j] - 1;
    }
  }

  /** The promise holds of exactly the plans whose clash chains have no gap. */
  lemma OrderKeptIffGapFree(ts: seq<Keys>, lab: seq<nat>)
    requires FirstFit(ts, lab)
    ensures OrderKept(ts, lab) <==> GapFree(ts, Depths(ts))
  {
    var depth := Depths(ts);
    DepthsAreDepths(ts);
    if GapFree(ts, depth) {
      GapFreeLabelsAreDepths(ts, lab, depth, |ts|);
    }
    if OrderKept(ts, lab) {
      OrderKeptLabelsAreDepths(ts, lab, depth, |ts|);
      forall j, d | 0 <= j < |ts| && 0 <= d < depth[j] ensures Below(ts, depth, j, d) {
        assert FirstFitAt(ts, lab, j);
        assert !Free(ts, lab, j, d);
      }
    }
  }

  lemma {:induction false} GapFreeLabelsAreDepths(ts: seq<Keys>, lab: seq<nat>, depth: seq<nat>, m: nat)
    requires FirstFit(ts, lab) && IsDepth(ts, depth) && GapFree(ts, depth) && m <= |ts|
    ensures forall j :: 0 <= j < m ==> lab[j] == depth[j]
  {
    if m > 0 {
      var j := m - 1;
      GapFreeLabelsAreDepths(ts, lab, depth, j);
      assert FirstFitAt(ts, lab, j);
      assert Free(ts, lab, j, depth[j]);
      assert lab[j] < depth[j] ==> Below(ts, depth, j, lab[j]);
    }
  }

  lemma {:induction false} OrderKeptLabelsAreDepths(ts: seq<Keys>, lab: seq<nat>, depth: seq<nat>, m: nat)
    requires FirstFit(ts, lab) && IsDepth(ts, depth) && OrderKept(ts, lab) && m <= |ts|
    ensures forall j :: 0 <= j < m ==> lab[j] == depth[j]
  {
    if m > 0 {
      OrderKeptLabelsAreDepths(ts, lab, depth, m - 1);
      LabelAtMostDepth(ts, lab, depth, m - 1);
      LabelAtLeastDepth(ts, lab, depth, m - 1);
    }
  }

  lemma LabelAtMostDepth(ts: seq<Keys>, lab: seq<nat>, depth: seq<nat>, j: nat)
    requires FirstFit(ts, lab) && IsDepth(ts, depth) && j < |ts| && forall i :: 0 <= i < j ==> lab[i] == depth[i]
    ensures lab[j] <= depth[j]
  {
    assert FirstFitAt(ts, lab, j);
    assert Free(ts, lab, j, depth[j]);
  }

  lemma LabelAtLeastDepth(ts: seq<Keys>, lab: seq<nat>, depth: seq<nat>, j: nat)
    requires FirstFit(ts, lab) && IsDepth(ts, depth) && OrderKept(ts, lab) && j < |ts|
    requires forall i :: 0 <= i < j ==> lab[i] == depth[i]
    ensures lab[j] >= depth[j]
  {
    if depth[j] > 0 {
      assert Below(ts, depth, j, depth[j] - 1);
      var i :| 0 <= i < j && Clash(ts, i, j) && depth[i] == depth[j] - 1;
      assert lab[i] <= lab[j] && FirstFitAt(ts, lab, j);
      assert lab[i] != lab[j];
    }
  }

  /** A plan on which the promise fails: the last node clashes with the second, which
      sits in cohort 1, and lands in cohort 0. */
  lemma OrderNotKept(lab: seq<nat>)
    requires FirstFit(TouchSets(Interleaved()), lab)
    ensures lab == [0, 1, 0]
    ensures !OrderKept(TouchSets(Interleaved()), lab)
  {
    var nodes := Interleaved();
    var ts := TouchSets(nodes);
    var a, b := PathKey("/a"), PathKey("/b");
    assert "/a"[1] != "/b"[1];
    assert Touches(nodes[0].op) == [a] && Touches(nodes[1].op) == [a, b] && Touches(nodes[2].op) == [b];
    assert ts[0] == {a} && ts[1] == {a, b} && ts[2] == {b};
    assert Clash(ts, 0, 1) by { assert a in ts[0] && a in ts[1]; }
    assert Clash(ts, 1, 2) by { assert b in ts[1] && b in ts[2]; }
    assert FirstFitAt(ts, lab, 0) && FirstFitAt(ts, lab, 1) && FirstFitAt(ts, lab, 2);
    assert Free(ts, lab, 0, 0);
    assert Free(ts, lab, 1, 1);
    assert Free(ts, lab, 2, 0);
  }

  function Interleaved(): seq<PlanNode> {
    [PlanNode(Unlink("/a"), 0, None), PlanNode(Rename("/a", "/b"), 0, None), PlanNode(Unlink("/b"), 0, None)]
  }
}
