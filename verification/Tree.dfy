/** The directory tree: what a captured change did to it (crates/shit-planner/src/events.rs:437-479), what the
    file executor's tree operations do (crates/shit-planner/src/executors/file.rs:235-330, 588-672), and where a
    redo (crates/shit-planner/src/plan_forward.rs:509-575) leads. */
module Tree {
  import opened Plan
  import opened Execute
  import opened Forward

  /** What stands at a path. The body is a link's target or a file's content. */
  datatype Entry = Entry(kind: FileKind, permissions: nat, body: string)

  /** Absolute paths; the root is written as the empty path, so every other path is below it. */
  type Tree = map<Path, Entry>

  const PERMISSIONS := 0x1000
  const LINK_PERMISSIONS := 0x1FF
  const NEW_DIRECTORY := 0x1ED

  predicate Below(p: Path, root: Path) {
    |root| < |p| && p[..|root|] == root && p[|root|] == '/'
  }

  predicate Within(p: Path, root: Path) {
    p == root || Below(p, root)
  }

  /** Every directory on the way to `path` is there. */
  ghost predicate Standing(t: Tree, path: Path) {
    forall root :: Below(path, root) ==> root in t && t[root].kind == Directory
  }

  /** The way to every entry is there. */
  ghost predicate Rooted(t: Tree) {
    forall p :: p in t ==> Standing(t, p)
  }

  // ------------------------------------------------------------------
  // What a captured change did
  // ------------------------------------------------------------------

  ghost predicate Free(t: Tree, path: Path) {
    path !in t && Standing(t, path)
  }

  /** `t'` is `t` with what was at `from` and below it at `to` instead. */
  ghost predicate Carried(t: Tree, t': Tree, from: Path, to: Path) {
    forall p :: CarriedAt(t, t', from, to, p)
  }

  ghost predicate CarriedAt(t: Tree, t': Tree, from: Path, to: Path, p: Path) {
    if Within(p, to) then Same(t', p, t, from + p[|to|..])
    else if Within(p, from) then p !in t'
    else Same(t', p, t, p)
  }

  /** `a` has at `p` what `b` has at `q`. */
  ghost predicate Same(a: Tree, p: Path, b: Tree, q: Path) {
    (p in a <==> q in b) && (p in a ==> a[p] == b[q])
  }

  /** What the system allows a rename to do: nothing moves into itself, and only an empty directory or a file
      is replaced, by its like. */
  ghost predicate Movable(t: Tree, from: Path, to: Path) {
    && from in t && Standing(t, from) && Standing(t, to) && !Below(to, from)
    && (to in t && from != to ==>
          && (t[to].kind == Directory <==> t[from].kind == Directory)
          && forall p :: p in t ==> !Below(p, to))
  }

  /** The captured change leads from `t` to `t'`. */
  ghost predicate Did(op: TreeOp, t: Tree, t': Tree) {
    match op
    case Created(path, kind, mode) => Free(t, path) && t' == t[path := Entry(kind, mode % PERMISSIONS, "")]
    case Unlinked(path) => path in t && (forall p :: p in t ==> !Below(p, path)) && t' == t - {path}
    case Renamed(from, to) => Movable(t, from, to) && (if from == to then t' == t else Carried(t, t', from, to))
    case Linked(_, target) =>
      Free(t, target) && exists p :: p in t && t[p].kind != Directory && t' == t[target := t[p]]
    case Symlinked(target, path) => Free(t, path) && t' == t[path := Entry(Symlink, LINK_PERMISSIONS, target)]
    case SymlinkRemoved(target, path) =>
      && path in t && t[path].kind == Symlink && t[path].body == target
      && (forall p :: p in t ==> !Below(p, path)) && t' == t - {path}
  }

  // ------------------------------------------------------------------
  // What the executor does
  // ------------------------------------------------------------------

  /** Directories are made where they are missing on the way. */
  ghost function WithParents(t: Tree, path: Path): Tree {
    t + map i | 0 <= i < |path| && path[i] == '/' && path[..i] !in t ::
          path[..i] := Entry(Directory, NEW_DIRECTORY, "")
  }

  /** Whether the executor can make an entry of this kind; the helper makes the special ones, if it is there. */
  predicate Makes(kind: FileKind, helper: bool) {
    match kind
    case Regular => true
    case Directory => true
    case Fifo => helper
    case Socket => helper
    case Symlink => false
    case BlockDevice => false
    case CharDevice => false
  }

  ghost function Recreate(t: Tree, path: Path, kind: FileKind, mode: nat, helper: bool): Option<Tree> {
    var made := WithParents(t, path);
    if !Makes(kind, helper) || !Standing(made, path) then None
    else if path in t && !(t[path].kind == kind && (kind == Regular || kind == Directory)) then None
    else
      var body := if path in t && kind == Directory then t[path].body else "";
      Some(made[path := Entry(kind, mode % PERMISSIONS, body)])
  }

  /** A directory goes with all that is below it. */
  ghost function Remove(t: Tree, path: Path): Option<Tree> {
    if path !in t then None
    else if t[path].kind == Directory then Some(map p | p in t && !Within(p, path) :: t[p])
    else Some(t - {path})
  }

  ghost function Move(t: Tree, from: Path, to: Path): Option<Tree> {
    if !Movable(t, from, to) then None
    else if from == to then Some(t)
    else Some((map p | p in t && !Within(p, from) && !Within(p, to) :: t[p]) + Arrivals(t, from, to))
  }

  /** What was at `from` and below it, by its new paths. */
  ghost function Arrivals(t: Tree, from: Path, to: Path): Tree {
    var paths := set q | q in t && Within(q, from) :: to + q[|from|..];
    map p | p in paths && from + p[|to|..] in t :: t[from + p[|to|..]]
  }

  /** One of the operations on the tree; `None` when it fails. Any other operation leaves the tree. */
  ghost function Perform(op: InverseOp, helper: bool, t: Tree): Option<Tree> {
    match op
    case Unlink(path) => Remove(t, path)
    case RecreatePath(path, kind, mode) => Recreate(t, path, kind, mode, helper)
    case Rename(from, to) => Move(t, from, to)
    case CreateSymlink(target, path) =>
      if Free(t, path) then Some(t[path := Entry(Symlink, LINK_PERMISSIONS, target)]) else None
    case CreateHardlink(source, linkPath) =>
      if source in t && t[source].kind != Directory && Free(t, linkPath) then Some(t[linkPath := t[source]]) else None
    case _ => Some(t)
  }

  // ------------------------------------------------------------------
  // What the probe sees
  // ------------------------------------------------------------------

  /** The file type in a mode, as `stat` reports it. */
  function KindBits(kind: FileKind): nat {
    match kind
    case Fifo => 1
    case CharDevice => 2
    case Directory => 4
    case BlockDevice => 6
    case Regular => 8
    case Symlink => 10
    case Socket => 12
  }

  function ModeOf(e: Entry): nat {
    KindBits(e.kind) * PERMISSIONS + e.permissions % PERMISSIONS
  }

  /** The kind is read back from the mode. */
  lemma KindReadsBack(e: Entry)
    ensures KindFromMode(ModeOf(e)) == Some(e.kind)
  {
    var bits, low := KindBits(e.kind), e.permissions % PERMISSIONS;
    assert (bits * PERMISSIONS + low) / PERMISSIONS == bits;
  }

  /** `stat` answers for the tree. */
  ghost predicate Sees(stat: Probe, t: Tree) {
    forall p :: SeesAt(stat, t, p)
  }

  ghost predicate SeesAt(stat: Probe, t: Tree, p: Path) {
    (stat(p).Some? <==> p in t) && (p in t ==> stat(p).value.meta.mode == ModeOf(t[p]))
  }

  // ------------------------------------------------------------------
  // What the preconditions are for
  // ------------------------------------------------------------------

  predicate OnTree(op: InverseOp) {
    op.Unlink? || op.RecreatePath? || op.Rename? || op.CreateSymlink? || op.CreateHardlink?
  }

  /** What the operation takes away from where it was. */
  predicate Takes(op: InverseOp, p: Path) {
    (op.Unlink? && Within(p, op.path)) || (op.Rename? && Within(p, op.from))
  }

  ghost predicate Keeps(op: InverseOp, t: Tree, t': Tree) {
    forall p :: p in t && !Takes(op, p) ==> KeptAt(t, t', p)
  }

  ghost predicate KeptAt(t: Tree, t': Tree, p: Path)
    requires p in t
  {
    p in t' && t'[p].kind == t[p].kind && t'[p].body == t[p].body
  }

  /** What an operation may fail for that the preconditions do not look at: the way to its result, a kind the
      executor does not make, a move into itself, and a directory to be linked. */
  ghost predicate Unchecked(op: InverseOp, helper: bool, t: Tree) {
    match op
    case RecreatePath(path, kind, _) => !Makes(kind, helper) || !Standing(WithParents(t, path), path)
    case Rename(from, to) => !Standing(t, to) || Below(to, from)
    case CreateSymlink(_, path) => !Standing(t, path)
    case CreateHardlink(source, linkPath) => !Standing(t, linkPath) || (source in t && t[source].kind == Directory)
    case _ => false
  }

  /** Where no conflict is found, the operation takes away and overwrites nothing but what it is meant to, and
      fails only for what is not looked at. A missing path is one the operation cannot do without; a phantom
      stands where it would put its result. */
  lemma ConflictMeans(op: InverseOp, stat: Probe, t: Tree, helper: bool)
    requires OnTree(op) && Sees(stat, t) && Rooted(t)
    ensures var c := PreconditionConflict(stat, op);
      && (c.Some? ==> c.value.Missing? || c.value.Phantom?)
      && (c.None? && Perform(op, helper, t).Some? ==> Keeps(op, t, Perform(op, helper, t).value))
      && (c.None? ==> (Perform(op, helper, t).None? <==> Unchecked(op, helper, t)))
      && (c.Some? && c.value.Missing? ==> Perform(op, helper, t).None?)
      && (c.Some? && c.value.Phantom? ==> !op.Unlink? && PrimaryPath(op).Some? && PrimaryPath(op).value in t)
      && (c.Some? && c.value.Phantom? ==>
            (op.Rename? ==> op.from in t) && (op.CreateHardlink? ==> op.source in t))
  {
    match op
    case Rename(from, to) =>
      assert SeesAt(stat, t, from) && SeesAt(stat, t, to);
      if Movable(t, from, to) && to !in t {
        MoveKeeps(t, from, to);
      }
    case CreateHardlink(source, linkPath) => assert SeesAt(stat, t, source) && SeesAt(stat, t, linkPath);
    case Unlink(path) => assert SeesAt(stat, t, path);
    case CreateSymlink(_, path) => assert SeesAt(stat, t, path);
    case RecreatePath(path, kind, mode) =>
      assert SeesAt(stat, t, path);
      if path in t {
        KindReadsBack(t[path]);
      }
      if Perform(op, helper, t).Some? && (path in t ==> kind == Directory) {
        RecreateKeeps(t, path, kind, mode, helper);
      }
  }

  lemma MoveKeeps(t: Tree, from: Path, to: Path)
    requires Rooted(t) && to !in t && Movable(t, from, to)
    ensures Keeps(Rename(from, to), t, Move(t, from, to).value)
  {
    forall p | p in t && !Within(p, from) ensures KeptAt(t, Move(t, from, to).value, p) {
      assert Standing(t, p);
      assert !Within(p, to);
      MovedAt(t, from, to, p);
    }
  }

  lemma RecreateKeeps(t: Tree, path: Path, kind: FileKind, mode: nat, helper: bool)
    requires Recreate(t, path, kind, mode, helper).Some? && (path in t ==> kind == Directory)
    ensures Keeps(RecreatePath(path, kind, mode), t, Recreate(t, path, kind, mode, helper).value)
  {
  }

  // ------------------------------------------------------------------
  // Moving
  // ------------------------------------------------------------------

  lemma Rebased(q: Path, from: Path, to: Path)
    requires Within(q, from)
    ensures Within(to + q[|from|..], to) && from + (to + q[|from|..])[|to|..] == q
  {
    var p := to + q[|from|..];
    assert p[|to|..] == q[|from|..];
    assert q == q[..|from|] + q[|from|..];
    assert q == from ==> p == to;
    assert p[..|to|] == to;
  }

  lemma RebasedBack(p: Path, from: Path, to: Path)
    requires Within(p, to)
    ensures Within(from + p[|to|..], from) && to + (from + p[|to|..])[|from|..] == p
  {
    Rebased(p, to, from);
  }

  /** What arrives is what left. */
  lemma ArrivalAt(t: Tree, from: Path, to: Path, p: Path)
    ensures p in Arrivals(t, from, to) <==> Within(p, to) && from + p[|to|..] in t
    ensures p in Arrivals(t, from, to) ==> Arrivals(t, from, to)[p] == t[from + p[|to|..]]
  {
    if q :| q in t && Within(q, from) && to + q[|from|..] == p {
      Rebased(q, from, to);
    }
    if Within(p, to) && from + p[|to|..] in t {
      RebasedBack(p, from, to);
      var q := from + p[|to|..];
      assert q in t && Within(q, from) && to + q[|from|..] == p;
    }
  }

  lemma MovedAt(t: Tree, from: Path, to: Path, p: Path)
    requires Movable(t, from, to)
    ensures if from == to then Move(t, from, to) == Some(t) else CarriedAt(t, Move(t, from, to).value, from, to, p)
  {
    ArrivalAt(t, from, to, p);
  }

  /** A rename by the executor carries what the captured rename carried. */
  lemma MoveCarries(t: Tree, t': Tree, from: Path, to: Path)
    requires Movable(t, from, to) && from != to && Carried(t, t', from, to)
    ensures Move(t, from, to) == Some(t')
  {
    var moved := Move(t, from, to).value;
    forall p ensures Same(moved, p, t', p) {
      MovedAt(t, from, to, p);
      assert CarriedAt(t, t', from, to, p);
    }
    SameTrees(moved, t');
  }

  lemma SameTrees(a: Tree, b: Tree)
    requires forall p :: Same(a, p, b, p)
    ensures a == b
  {
    forall p | p in a.Keys + b.Keys ensures p in a && p in b && a[p] == b[p] {
      assert Same(a, p, b, p);
    }
  }

  /** The path the filter looks at is the one the operation leaves something at, or clears. */
  lemma ResultStands(op: InverseOp, helper: bool, t: Tree)
    requires OnTree(op) && Perform(op, helper, t).Some?
    ensures PrimaryPath(op).Some?
    ensures PrimaryPath(op).value in Perform(op, helper, t).value <==> !op.Unlink?
    ensures op.CreateSymlink? || op.CreateHardlink? ==> PrimaryPath(op).value !in t
  {
    if op.Rename? {
      MovedAt(t, op.from, op.to, op.to);
      assert op.from + op.to[|op.to|..] == op.from;
    }
  }

  /** Making a path again makes the directories missing on the way to it, unless something else is there. */
  lemma MakesTheWay(t: Tree, path: Path, kind: FileKind, mode: nat, helper: bool)
    requires Makes(kind, helper) && path !in t
    requires forall root :: Below(path, root) && root in t ==> t[root].kind == Directory
    ensures var made := Perform(RecreatePath(path, kind, mode), helper, t);
      && made.Some? && Standing(made.value, path) && path in made.value
      && (forall p :: p in t ==> p in made.value && made.value[p] == t[p])
      && (forall p :: p in made.value ==> p in t || Within(path, p))
  {
    var made := WithParents(t, path);
    forall root | Below(path, root) ensures root in made && made[root].kind == Directory {
      assert path[..|root|] == root;
    }
  }

  // ------------------------------------------------------------------
  // No operation leaves an entry without the way to it
  // ------------------------------------------------------------------

  lemma BelowTransitive(a: Path, b: Path, c: Path)
    requires Below(a, b) && Below(b, c)
    ensures Below(a, c)
  {
    assert a[..|c|] == a[..|b|][..|c|];
    assert a[|c|] == a[..|b|][|c|];
  }

  /** Of two directories on the way to a path one is on the way to the other. */
  lemma BelowBoth(p: Path, a: Path, b: Path)
    requires Below(p, a) && Below(p, b)
    ensures a == b || Below(a, b) || Below(b, a)
  {
    if |a| < |b| {
      assert b[..|a|] == p[..|b|][..|a|] == p[..|a|];
      assert b[|a|] == p[..|b|][|a|];
    } else if |b| < |a| {
      assert a[..|b|] == p[..|a|][..|b|] == p[..|b|];
      assert a[|b|] == p[..|a|][|b|];
    }
  }

  /** What lies outside `root` has its way outside it too. */
  lemma OutsideStays(p: Path, above: Path, root: Path)
    requires Below(p, above) && !Within(p, root)
    ensures !Within(above, root)
  {
    if Below(above, root) {
      BelowTransitive(p, above, root);
    }
  }

  lemma RemoveKeepsRooted(t: Tree, path: Path)
    requires Rooted(t) && path in t
    ensures Rooted(Remove(t, path).value)
  {
    var t' := Remove(t, path).value;
    forall p, above | p in t' && Below(p, above) ensures above in t' && t'[above].kind == Directory {
      assert Standing(t, p);
      if t[path].kind == Directory {
        OutsideStays(p, above, path);
      }
    }
  }

  /** A leaf put where nothing stood, or in place of its like. */
  lemma LeafKeepsRooted(t: Tree, path: Path, e: Entry)
    requires Rooted(t) && Standing(t, path) && (path in t && t[path].kind == Directory ==> e.kind == Directory)
    ensures Rooted(t[path := e])
  {
    var t' := t[path := e];
    forall p, above | p in t' && Below(p, above) ensures above in t' && t'[above].kind == Directory {
      assert p in t ==> Standing(t, p);
    }
  }

  lemma ParentsKeepRooted(t: Tree, path: Path)
    requires Rooted(t) && Standing(WithParents(t, path), path)
    ensures Rooted(WithParents(t, path))
  {
    var made := WithParents(t, path);
    forall p, above | p in made && Below(p, above) ensures above in made && made[above].kind == Directory {
      if p in t {
        assert Standing(t, p);
      } else {
        assert Below(path, p);
        BelowTransitive(path, p, above);
      }
    }
  }

  lemma MoveKeepsRooted(t: Tree, from: Path, to: Path)
    requires Rooted(t) && Movable(t, from, to) && from != to
    ensures Rooted(Move(t, from, to).value)
  {
    var t' := Move(t, from, to).value;
    forall p, above | p in t' && Below(p, above) ensures above in t' && t'[above].kind == Directory {
      MovedAt(t, from, to, p);
      MovedAt(t, from, to, above);
      if Within(p, to) {
        WayOfArrival(t, from, to, p, above);
      } else {
        assert Standing(t, p);
        OutsideStays(p, above, from);
        OutsideStays(p, above, to);
      }
    }
  }

  lemma WayOfArrival(t: Tree, from: Path, to: Path, p: Path, above: Path)
    requires Rooted(t) && Movable(t, from, to) && Within(p, to) && from + p[|to|..] in t && Below(p, above)
    ensures if Within(above, to) then from + above[|to|..] in t && t[from + above[|to|..]].kind == Directory
            else !Within(above, from) && above in t && t[above].kind == Directory
  {
    var q := from + p[|to|..];
    assert Standing(t, q);
    if Within(above, to) {
      var above' := from + above[|to|..];
      assert q[..|above'|] == above' by {
        assert p[..|above|] == above;
        assert p[|to|..][..|above| - |to|] == above[|to|..];
      }
      assert q[|above'|] == p[|above|];
      assert Below(q, above');
    } else {
      if p != to {
        BelowBoth(p, above, to);
      }
      assert Below(to, above);
      if Below(above, from) { BelowTransitive(to, above, from); }
    }
  }

  /** A tree in which the way to every entry is there stays one, whatever is performed. */
  lemma PerformKeepsRooted(op: InverseOp, helper: bool, t: Tree)
    requires Rooted(t) && Perform(op, helper, t).Some?
    ensures Rooted(Perform(op, helper, t).value)
  {
    match op
    case Unlink(path) => RemoveKeepsRooted(t, path);
    case RecreatePath(path, kind, mode) =>
      ParentsKeepRooted(t, path);
      var t' := Perform(op, helper, t).value;
      assert t' == WithParents(t, path)[path := t'[path]];
      assert path in WithParents(t, path) ==> path in t by {
        assert forall i :: 0 <= i < |path| ==> path[..i] != path;
      }
      LeafKeepsRooted(WithParents(t, path), path, t'[path]);
    case Rename(from, to) =>
      if from != to {
        MoveKeepsRooted(t, from, to);
      }
    case CreateSymlink(_, path) => LeafKeepsRooted(t, path, Perform(op, helper, t).value[path]);
    case CreateHardlink(_, linkPath) => LeafKeepsRooted(t, linkPath, Perform(op, helper, t).value[linkPath]);
    case _ =>
  }

  // ------------------------------------------------------------------
  // Redo
  // ------------------------------------------------------------------

  function StatIn(t: Tree): Probe {
    p => if p in t then
           Some(ProbeStat(InodeRef(0, 0), FileMetadata(ModeOf(t[p]), 0, 0, |t[p].body|, 0, map[], None, 0)))
         else None
  }

  lemma StatSees(t: Tree)
    ensures Sees(StatIn(t), t)
  {
  }

  /** The tree so far, and whether the policy has halted the plan. */
  datatype Progress = Progress(tree: Tree, halted: bool)

  /** One node of a serial run. */
  ghost function Advance(orc: Orchestrator, helper: bool, node: PlanNode, at: Progress): Progress {
    if at.halted then at
    else match Settled(orc, node, PreconditionConflict(StatIn(at.tree), node.op))
      case Some(o) => Progress(at.tree, Trips(orc.policy, RecordOf(0, node.op, o)))
      case None =>
        if orc.dryRun then at
        else match Perform(node.op, helper, at.tree)
          case Some(t) => Progress(t, false)
          case None => Progress(at.tree, Trips(orc.policy, RecordOf(0, node.op, Failed("failed"))))
  }

  /** Unless forced, no operation of a run overwrites or takes away what it is not meant to, and the tree
      stays rooted. */
  lemma UnforcedDestroysNothing(orc: Orchestrator, helper: bool, node: PlanNode, t: Tree)
    requires !orc.policy.Force? && OnTree(node.op) && Rooted(t)
    ensures var t' := Advance(orc, helper, node, Progress(t, false)).tree; Rooted(t') && Keeps(node.op, t, t')
  {
    StatSees(t);
    ConflictMeans(node.op, StatIn(t), t, helper);
    if Perform(node.op, helper, t).Some? {
      PerformKeepsRooted(node.op, helper, t);
    }
    DecidedBy(orc, node, PreconditionConflict(StatIn(t), node.op));
  }

  type Stepper = (PlanNode, Progress) -> Progress

  ghost function StepperOf(orc: Orchestrator, helper: bool): Stepper {
    (node, at) => Advance(orc, helper, node, at)
  }

  ghost function RunOn(step: Stepper, nodes: seq<PlanNode>, at: Progress): Progress {
    if nodes == [] then at else step(nodes[|nodes| - 1], RunOn(step, nodes[..|nodes| - 1], at))
  }

  lemma RunOnOne(step: Stepper, node: PlanNode, at: Progress)
    ensures RunOn(step, [node], at) == step(node, at)
  {
    assert [node][..0] == [];
    assert RunOn(step, [], at) == at;
  }

  lemma {:induction false} RunOnInTurn(step: Stepper, a: seq<PlanNode>, b: seq<PlanNode>, at: Progress)
    ensures RunOn(step, a + b, at) == RunOn(step, b, RunOn(step, a, at))
  {
    if b == [] {
      assert a + b == a;
    } else {
      var m := |b| - 1;
      assert (a + b)[..|a| + m] == a + b[..m];
      RunOnInTurn(step, a, b[..m], at);
    }
  }

  /** The `--paths` filter lets a path through. */
  predicate Lets(orc: Orchestrator, path: Path) {
    orc.pathsFilter.None? || orc.pathsFilter.value(path)
  }

  /** Whether a redo repeats the change on a tree that allows it: it runs for real on a path the filter lets
      through, and a rename that replaced something has to be forced. The executor makes neither links nor
      devices where a path was created, and a hard link is never redone. */
  ghost predicate Redoable(orc: Orchestrator, helper: bool, op: TreeOp, t: Tree) {
    && !orc.dryRun
    && match op
       case Created(path, kind, _) =>
         Lets(orc, path) && (kind == Regular || kind == Directory || (helper && (kind == Fifo || kind == Socket)))
       case Unlinked(path) => Lets(orc, path)
       case Renamed(from, to) => Lets(orc, to) && (orc.policy.Force? || to !in t)
       case Linked(_, _) => false
       case Symlinked(_, path) => Lets(orc, path)
       case SymlinkRemoved(_, path) => Lets(orc, path)
  }

  /** A tree change is redone by one node, or by none if it made a hard link. */
  lemma LinkIsNotRedone(op: TreeOp, probe: Probe)
    ensures |RedoTree(op, probe)| == if op.Linked? then 0 else 1
  {
  }

  lemma ParentsStand(t: Tree, path: Path)
    requires Standing(t, path)
    ensures WithParents(t, path) == t
  {
    forall i | 0 <= i < |path| && path[i] == '/' ensures path[..i] in t {
      assert Below(path, path[..i]);
    }
  }

  lemma RemovesOne(t: Tree, path: Path)
    requires path in t && forall p :: p in t ==> !Below(p, path)
    ensures Remove(t, path) == Some(t - {path})
  {
    assert (map p | p in t && !Within(p, path) :: t[p]) == t - {path};
  }

  /** Run where the change was possible, the operation that redoes it does what the change did, if it can. */
  lemma RepeatsChange(op: TreeOp, probe: Probe, t: Tree, t': Tree, helper: bool)
    requires Did(op, t, t') && !op.Linked?
    ensures Perform(RedoTree(op, probe)[0].op, helper, t) ==
      if op.Created? && !Makes(op.kind, helper) then None else Some(t')
  {
    match op
    case Created(path, _, _) => ParentsStand(t, path);
    case Unlinked(path) => RemovesOne(t, path);
    case Renamed(from, to) =>
      if from != to {
        MoveCarries(t, t', from, to);
      }
    case Symlinked(_, _) =>
    case SymlinkRemoved(_, path) => RemovesOne(t, path);
  }

  /** There is a conflict exactly if the change was a rename that replaced something or led nowhere. */
  lemma ConflictOnRedo(op: TreeOp, probe: Probe, t: Tree, t': Tree)
    requires Did(op, t, t') && !op.Linked?
    ensures PreconditionConflict(StatIn(t), RedoTree(op, probe)[0].op).Some? <==> op.Renamed? && op.to in t
  {
  }

  lemma AdvanceIs(orc: Orchestrator, helper: bool, node: PlanNode, t: Tree)
    requires !node.op.Refuse? && !(node.conflict.Some? && node.conflict.value.Hard?) && PrimaryPath(node.op).Some?
    ensures var done := Perform(node.op, helper, t);
      var runs := Lets(orc, PrimaryPath(node.op).value) && !orc.dryRun &&
        (orc.policy.Force? || PreconditionConflict(StatIn(t), node.op).None?);
      Advance(orc, helper, node, Progress(t, false)).tree == if runs && done.Some? then done.value else t
  {
  }

  /** A change changed something, unless it renamed a path to itself. */
  lemma ChangeShows(op: TreeOp, t: Tree, t': Tree)
    requires Did(op, t, t')
    ensures t' == t <==> op.Renamed? && op.from == op.to
  {
    if op.Renamed? && op.from != op.to {
      assert !Within(op.from, op.to);
      assert CarriedAt(t, t', op.from, op.to, op.from);
    }
  }

  /** On a tree that allowed the captured change, its redo leaves the tree the change left if and only if it
      is redoable there (or there is nothing to redo). */
  lemma RedoneIff(orc: Orchestrator, helper: bool, op: TreeOp, probe: Probe, t: Tree, t': Tree)
    requires Did(op, t, t')
    ensures RunOn(StepperOf(orc, helper), RedoTree(op, probe), Progress(t, false)).tree == t' <==>
      Redoable(orc, helper, op, t) || (op.Renamed? && op.from == op.to)
  {
    ChangeShows(op, t, t');
    if !op.Linked? {
      var node := OnlyNode(op, probe);
      RunOnOne(StepperOf(orc, helper), node, Progress(t, false));
      AdvanceIs(orc, helper, node, t);
      RepeatsChange(op, probe, t, t', helper);
      ConflictOnRedo(op, probe, t, t');
    }
  }

  lemma OnlyNode(op: TreeOp, probe: Probe) returns (node: PlanNode)
    requires !op.Linked?
    ensures RedoTree(op, probe) == [node] && !node.op.Refuse? && PrimaryPath(node.op).Some?
    ensures !(node.conflict.Some? && node.conflict.value.Hard?)
    ensures PrimaryPath(node.op).value == if op.Renamed? then op.to else op.path
  {
    node := RedoTree(op, probe)[0];
  }

  lemma AdvanceGoesOn(orc: Orchestrator, helper: bool, node: PlanNode, t: Tree, t': Tree)
    requires !node.op.Refuse? && !(node.conflict.Some? && node.conflict.value.Hard?) && PrimaryPath(node.op).Some?
    requires Lets(orc, PrimaryPath(node.op).value) && !orc.dryRun && Perform(node.op, helper, t) == Some(t')
    requires orc.policy.Force? || PreconditionConflict(StatIn(t), node.op).None?
    ensures Advance(orc, helper, node, Progress(t, false)) == Progress(t', false)
  {
  }

  lemma OneRedone(orc: Orchestrator, helper: bool, op: TreeOp, probe: Probe, t: Tree, t': Tree)
    requires Did(op, t, t') && Redoable(orc, helper, op, t)
    ensures RunOn(StepperOf(orc, helper), RedoTree(op, probe), Progress(t, false)) == Progress(t', false)
  {
    var node := OnlyNode(op, probe);
    RunOnOne(StepperOf(orc, helper), node, Progress(t, false));
    RepeatsChange(op, probe, t, t', helper);
    ConflictOnRedo(op, probe, t, t');
    AdvanceGoesOn(orc, helper, node, t, t');
  }

  /** Event `i` changed the tree and can be redone where it did. */
  ghost predicate RedoneAt(orc: Orchestrator, helper: bool, live: seq<CaptureEvent>, ts: seq<Tree>, i: nat)
    requires i < |live| < |ts|
  {
    && live[i].kind.TreeChange? && Did(live[i].kind.op, ts[i], ts[i + 1])
    && Redoable(orc, helper, live[i].kind.op, ts[i])
  }

  /** Event `i`'s nodes lead from the tree before it to the tree after it. */
  ghost predicate LeadsOn(step: Stepper, nodes: seq<PlanNode>, ts: seq<Tree>, i: nat)
    requires i + 1 < |ts|
  {
    RunOn(step, nodes, Progress(ts[i], false)) == Progress(ts[i + 1], false)
  }

  lemma {:induction false} LeadsThrough(step: Stepper, live: seq<CaptureEvent>, ts: seq<Tree>, n: nat, probe: Probe,
                                        paired: set<nat>)
    requires n <= |live| < |ts|
    requires forall i :: 0 <= i < |live| ==> LeadsOn(step, Emit(live[i], probe, paired).nodes, ts, i)
    ensures RunOn(step, EmitUpTo(live, n, probe, paired).nodes, Progress(ts[0], false)) == Progress(ts[n], false)
  {
    if n > 0 {
      LeadsThrough(step, live, ts, n - 1, probe, paired);
      assert LeadsOn(step, Emit(live[n - 1], probe, paired).nodes, ts, n - 1);
      RunOnInTurn(step, EmitUpTo(live, n - 1, probe, paired).nodes, Emit(live[n - 1], probe, paired).nodes,
                  Progress(ts[0], false));
    }
  }

  /** Redoing the changes of a whole command in time order, each where it is redoable, takes the tree from
      where the command found it to where the command left it, and nothing halts. */
  lemma RedoReachesTree(orc: Orchestrator, helper: bool, live: seq<CaptureEvent>, ts: seq<Tree>, probe: Probe,
                        paired: set<nat>)
    requires |live| < |ts| && forall i :: 0 <= i < |live| ==> RedoneAt(orc, helper, live, ts, i)
    ensures RunOn(StepperOf(orc, helper), EmitUpTo(live, |live|, probe, paired).nodes, Progress(ts[0], false))
         == Progress(ts[|live|], false)
  {
    var step := StepperOf(orc, helper);
    forall i | 0 <= i < |live| ensures LeadsOn(step, Emit(live[i], probe, paired).nodes, ts, i) {
      assert RedoneAt(orc, helper, live, ts, i);
      OneRedone(orc, helper, live[i].kind.op, probe, ts[i], ts[i + 1]);
    }
    LeadsThrough(step, live, ts, |live|, probe, paired);
  }

  /** The labels of a plan do not matter to a serial run. */
  lemma {:induction false} LabelsDoNotMatter(step: Stepper, a: seq<PlanNode>, b: seq<PlanNode>, at: Progress)
    requires forall x, y, at :: LabelIgnored(step, x, y, at)
    requires |a| == |b| && forall i :: 0 <= i < |a| ==> a[i] == b[i].(cohort := a[i].cohort)
    ensures RunOn(step, a, at) == RunOn(step, b, at)
  {
    if a != [] {
      var m := |a| - 1;
      LabelsDoNotMatter(step, a[..m], b[..m], at);
      assert LabelIgnored(step, a[m], b[m], RunOn(step, b[..m], at));
    }
  }

  ghost predicate LabelIgnored(step: Stepper, x: PlanNode, y: PlanNode, at: Progress) {
    x.op == y.op && x.conflict == y.conflict ==> step(x, at) == step(y, at)
  }

  lemma StepperIgnoresLabels(orc: Orchestrator, helper: bool)
    ensures forall x, y, at :: LabelIgnored(StepperOf(orc, helper), x, y, at)
  {
  }

  /** The same for the plan that `PlanForward` makes of the command's events. */
  method RedoCommand(orc: Orchestrator, events: seq<CaptureEvent>, closed: bool, probe: Probe, ghost helper: bool,
                     ghost ts: seq<Tree>)
    returns (nodes: seq<PlanNode>)
    requires |Timeline(events)| < |ts|
    requires forall i :: 0 <= i < |Timeline(events)| ==> RedoneAt(orc, helper, Timeline(events), ts, i)
    ensures RunOn(StepperOf(orc, helper), nodes, Progress(ts[0], false)) == Progress(ts[|Timeline(events)|], false)
  {
    var planned, _ := PlanForward(events, closed, probe);
    nodes := planned[..];
    ghost var live := Timeline(events);
    RedoReachesTree(orc, helper, live, ts, probe, PairedOf(live));
    StepperIgnoresLabels(orc, helper);
    LabelsDoNotMatter(StepperOf(orc, helper), nodes, EmitUpTo(live, |live|, probe, PairedOf(live)).nodes,
                      Progress(ts[0], false));
  }
}
