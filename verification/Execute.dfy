/** One operation at a time: the live state, the probe, the executor, `execute_one` and
    the serial `run` (crates/shit-planner/src/orchestrator.rs). */
module Execute {
  import opened Plan
  import opened Cohort

  datatype ProbeStat = ProbeStat(inode: InodeRef, meta: FileMetadata)

  /** What the machine holds at one touch key. A path cell carries what `stat` reports;
      everything else about the cell is in `data`. */
  datatype Cell = Cell(stat: Option<ProbeStat>, data: seq<int>)

  type Cells = map<TouchKey, Cell>

  /** Whatever an executor keeps between two of its steps. */
  type Scratch = seq<int>

  /** An arbitrary executor, as the steps it takes on the cells its operation touches.
      Nothing else is assumed of it: an operation may take any number of steps, each step
      may read and rewrite every touched cell, and the outcome is any function of the scratch. */
  datatype Executor = Executor(
    steps: InverseOp -> nat,
    begin: (InverseOp, bool, ConflictPolicy) -> Scratch,
    step: (InverseOp, nat, Scratch, Cells) -> (Scratch, Cells),
    outcome: (InverseOp, Scratch) -> ExecutionOutcome)

  datatype Orchestrator = Orchestrator(
    executor: Executor,
    pathsFilter: Option<Path -> bool>,
    dryRun: bool,
    policy: ConflictPolicy)

  // ------------------------------------------------------------------
  // Cells
  // ------------------------------------------------------------------

  function View(cells: Cells, keys: Keys): Cells {
    map k | k in keys && k in cells :: cells[k]
  }

  /** The cells after a step that may rewrite `keys` only; a key the step drops is gone. */
  function Commit(cells: Cells, keys: Keys, out: Cells): Cells {
    map k | k in cells.Keys + (out.Keys * keys) && (k in keys ==> k in out) ::
      if k in keys then out[k] else cells[k]
  }

  ghost predicate SameAt(a: Cells, b: Cells, k: TouchKey) {
    (k in a <==> k in b) && (k in a ==> a[k] == b[k])
  }

  ghost predicate Agree(a: Cells, b: Cells, keys: Keys) {
    forall k :: k in keys ==> SameAt(a, b, k)
  }

  /** `b` differs from `a` on `keys` at most. */
  ghost predicate Frame(a: Cells, b: Cells, keys: Keys) {
    forall k :: k !in keys ==> SameAt(a, b, k)
  }

  function StatAt(cells: Cells, path: Path): Option<ProbeStat> {
    if PathKey(path) in cells then cells[PathKey(path)].stat else None
  }

  // ------------------------------------------------------------------
  // Preconditions
  // ------------------------------------------------------------------

  function NoLongerExists(path: Path): Conflict {
    Missing("\"" + path + "\" no longer exists")
  }

  function AlreadyExists(path: Path, doing: string): Conflict {
    Phantom("\"" + path + "\" already exists; cannot " + doing)
  }

  /** The existence checks made before an operation runs, against any probe. */
  function PreconditionConflict(stat: Path -> Option<ProbeStat>, op: InverseOp): Option<Conflict> {
    match op
    case RestoreMetadata(_, path, _) => if stat(path).Some? then None else Some(NoLongerExists(path))
    case Unlink(path) => if stat(path).Some? then None else Some(NoLongerExists(path))
    case FileExtend(path, _) => if stat(path).Some? then None else Some(NoLongerExists(path))
    case RestoreFlags(inode, path, _) =>
      (match stat(path)
       case None => Some(NoLongerExists(path))
       case Some(st) =>
         if st.inode != inode then Some(Phantom("\"" + path + "\" now refers to another inode"))
         else None)
    case RecreatePath(path, kind, _) =>
      (match stat(path)
       case None => None
       case Some(st) =>
         if kind == Directory && KindFromMode(st.meta.mode) == Some(Directory) then None
         else Some(AlreadyExists(path, "recreate")))
    case CreateSymlink(_, path) => if stat(path).Some? then Some(AlreadyExists(path, "recreate")) else None
    case CreateHardlink(source, linkPath) =>
      if stat(source).None? then Some(Missing("hardlink source \"" + source + "\" no longer exists"))
      else if stat(linkPath).Some? then Some(AlreadyExists(linkPath, "link"))
      else None
    case Rename(from, to) =>
      if stat(from).None? then Some(Missing("rename source \"" + from + "\" does not exist"))
      else if stat(to).Some? then Some(Phantom("rename target \"" + to + "\" already exists"))
      else None
    case _ => None
  }

  /** An operation on a file as it stands: it is missing exactly if nothing is at its path, and a phantom
      exactly if its flags are meant for another inode. Content is restored wherever it is, and operations
      without a path have no preconditions. */
  lemma ConflictOnFile(stat: Path -> Option<ProbeStat>, op: InverseOp)
    ensures var c := PreconditionConflict(stat, op);
      && (op.RestoreMetadata? || op.RestoreFlags? || op.FileExtend? ==>
            && (c.Some? && c.value.Missing? <==> stat(op.path).None?)
            && (c.Some? && c.value.Phantom? <==>
                  op.RestoreFlags? && stat(op.path).Some? && stat(op.path).value.inode != op.inode)
            && (c.Some? ==> c.value.Missing? || c.value.Phantom?))
      && (op.RestoreContent? || PrimaryPath(op).None? ==> c.None?)
  {
  }

  /** The same checks one probe call at a time: which path is asked about next, given the
      answers so far. The second endpoint is asked about only if the first one exists. */
  function NextProbe(op: InverseOp, seen: seq<Option<ProbeStat>>): Option<Path> {
    match op
    case RestoreMetadata(_, path, _) => if seen == [] then Some(path) else None
    case Unlink(path) => if seen == [] then Some(path) else None
    case FileExtend(path, _) => if seen == [] then Some(path) else None
    case RestoreFlags(_, path, _) => if seen == [] then Some(path) else None
    case RecreatePath(path, _, _) => if seen == [] then Some(path) else None
    case CreateSymlink(_, path) => if seen == [] then Some(path) else None
    case CreateHardlink(source, linkPath) =>
      if seen == [] then Some(source) else if |seen| == 1 && seen[0].Some? then Some(linkPath) else None
    case Rename(from, to) =>
      if seen == [] then Some(from) else if |seen| == 1 && seen[0].Some? then Some(to) else None
    case _ => None
  }

  /** The verdict once the answers are in. */
  function Verdict(op: InverseOp, seen: seq<Option<ProbeStat>>): Option<Conflict> {
    var first := if |seen| > 0 then seen[0] else None;
    var second := if |seen| > 1 then seen[1] else None;
    PreconditionConflict(
      path => match op
              case CreateHardlink(source, _) => if path == source then first else second
              case Rename(from, _) => if path == from then first else second
              case _ => first,
      op)
  }

  /** The answers the probe gives on `cells`, from `seen` on. */
  function Probe(op: InverseOp, seen: seq<Option<ProbeStat>>, cells: Cells): (r: seq<Option<ProbeStat>>)
    decreases 2 - |seen|
  {
    match NextProbe(op, seen)
    case None => seen
    case Some(path) => Probe(op, seen + [StatAt(cells, path)], cells)
  }

  lemma ProbesTouchedPaths(op: InverseOp, seen: seq<Option<ProbeStat>>)
    ensures NextProbe(op, seen).Some? ==> PathKey(NextProbe(op, seen).value) in TouchSet(op) && |seen| < 2
  {
    assert PrimaryPath(op).Some? ==> PathKey(PrimaryPath(op).value) in TouchSet(op);
  }

  /** Asking one path at a time reaches the verdict of `PreconditionConflict`. */
  lemma ProbingDecidesPreconditions(op: InverseOp, cells: Cells)
    ensures Verdict(op, Probe(op, [], cells)) == PreconditionConflict(p => StatAt(cells, p), op)
  {
    if op.Rename? {
      var first := [StatAt(cells, op.from)];
      assert [] + first == first;
      assert Probe(op, [], cells) == Probe(op, first, cells);
      if first[0].Some? {
        assert Probe(op, first, cells) == first + [StatAt(cells, op.to)];
      }
    } else if op.CreateHardlink? {
      var first := [StatAt(cells, op.source)];
      assert [] + first == first;
      assert Probe(op, [], cells) == Probe(op, first, cells);
      if first[0].Some? {
        assert Probe(op, first, cells) == first + [StatAt(cells, op.linkPath)];
      }
    }
  }

  /** Probing sees nothing but the touched cells. */
  lemma {:induction false} ProbeLocal(op: InverseOp, seen: seq<Option<ProbeStat>>, a: Cells, b: Cells)
    requires Agree(a, b, TouchSet(op))
    ensures Probe(op, seen, a) == Probe(op, seen, b)
    decreases 2 - |seen|
  {
    ProbesTouchedPaths(op, seen);
    if NextProbe(op, seen).Some? {
      var path := NextProbe(op, seen).value;
      assert SameAt(a, b, PathKey(path));
      ProbeLocal(op, seen + [StatAt(a, path)], a, b);
    }
  }

  // ------------------------------------------------------------------
  // execute_one
  // ------------------------------------------------------------------

  predicate FilteredOut(orc: Orchestrator, op: InverseOp) {
    orc.pathsFilter.Some? && PrimaryPath(op).Some? && !orc.pathsFilter.value(PrimaryPath(op).value)
  }

  function RecordOf(i: nat, op: InverseOp, outcome: ExecutionOutcome): ExecutionRecord {
    ExecutionRecord(i, op, TierOf(op), KindOf(outcome),
      match outcome
      case Skipped(reason) => Some(reason)
      case Conflicted(kind) => Some(Show(kind))
      case Failed(err) => Some(err)
      case _ => None)
  }

  function Show(c: Conflict): string {
    match c
    case Soft(d) => "Soft: " + d
    case Hard(d) => "Hard: " + d
    case Missing(d) => "Missing: " + d
    case Phantom(d) => "Phantom: " + d
  }

  /** Filtered-out and refused operations are recorded as skipped before anything is probed. */
  function EarlyExit(orc: Orchestrator, op: InverseOp): Option<ExecutionOutcome> {
    if FilteredOut(orc, op) then
      Some(Skipped("filtered out: " + PrimaryPath(op).value + " not matched by --paths"))
    else match op
      case Refuse(class_, reason, Some(rem)) =>
        Some(Skipped("refused (" + class_ + "): " + reason + ". Remediation: " + rem))
      case Refuse(class_, reason, None) => Some(Skipped("refused (" + class_ + "): " + reason))
      case _ => None
  }

  /** What the policy makes of a conflict; `None` means the executor runs. */
  function Resolve(orc: Orchestrator, conflict: Option<Conflict>): Option<ExecutionOutcome> {
    match conflict
    case None => None
    case Some(c) =>
      match orc.policy
      case Force => None
      case Skip => Some(Skipped("conflict: " + Show(c)))
      case Abort => Some(Conflicted(c))
  }

  /** The outcome fixed before the executor is called, if there is one. A plan-time `Hard`
      conflict stands; any other plan-time conflict is replaced by the live checks. */
  function Settled(orc: Orchestrator, node: PlanNode, live: Option<Conflict>): Option<ExecutionOutcome> {
    match EarlyExit(orc, node.op)
    case Some(o) => Some(o)
    case None =>
      Resolve(orc, match node.conflict case Some(Hard(d)) => Some(Hard(d)) case _ => live)
  }

  /** The executor's first `k` steps. */
  function RunSteps(orc: Orchestrator, op: InverseOp, k: nat, cells: Cells): (Scratch, Cells) {
    if k == 0 then (orc.executor.begin(op, orc.dryRun, orc.policy), cells)
    else
      var (s, c) := RunSteps(orc, op, k - 1, cells);
      var (s', out) := orc.executor.step(op, k - 1, s, View(c, TouchSet(op)));
      (s', Commit(c, TouchSet(op), out))
  }

  function ExecuteOne(orc: Orchestrator, i: nat, node: PlanNode, cells: Cells): (ExecutionRecord, Cells) {
    match Settled(orc, node, PreconditionConflict(p => StatAt(cells, p), node.op))
    case Some(o) => (RecordOf(i, node.op, o), cells)
    case None =>
      var (s, c) := RunSteps(orc, node.op, orc.executor.steps(node.op), cells);
      (RecordOf(i, node.op, orc.executor.outcome(node.op, s)), c)
  }

  lemma AgreeingViews(a: Cells, b: Cells, keys: Keys)
    requires Agree(a, b, keys)
    ensures View(a, keys) == View(b, keys)
    ensures Agree(View(a, keys), a, keys) && View(a, keys).Keys <= keys
  {
    forall k | k in keys ensures SameAt(a, b, k) {
    }
  }

  lemma CommitAgrees(a: Cells, b: Cells, keys: Keys, out: Cells)
    ensures Agree(Commit(a, keys, out), Commit(b, keys, out), keys)
    ensures Agree(Commit(a, keys, out), out, keys)
    ensures Frame(a, Commit(a, keys, out), keys)
  {
  }

  lemma {:induction false} RunStepsLocal(orc: Orchestrator, op: InverseOp, k: nat, a: Cells, b: Cells)
    requires Agree(a, b, TouchSet(op))
    ensures RunSteps(orc, op, k, a).0 == RunSteps(orc, op, k, b).0
    ensures Agree(RunSteps(orc, op, k, a).1, RunSteps(orc, op, k, b).1, TouchSet(op))
    ensures Frame(a, RunSteps(orc, op, k, a).1, TouchSet(op))
  {
    if k > 0 {
      RunStepsLocal(orc, op, k - 1, a, b);
      var (s, c) := RunSteps(orc, op, k - 1, a);
      var (t, d) := RunSteps(orc, op, k - 1, b);
      AgreeingViews(c, d, TouchSet(op));
      var out := orc.executor.step(op, k - 1, s, View(c, TouchSet(op))).1;
      CommitAgrees(c, d, TouchSet(op), out);
    }
  }

  /** An operation's record and the cells it leaves depend on the cells it touches only,
      and it changes no other cell. */
  lemma ExecuteOneLocal(orc: Orchestrator, i: nat, node: PlanNode, a: Cells, b: Cells)
    requires Agree(a, b, TouchSet(node.op))
    ensures ExecuteOne(orc, i, node, a).0 == ExecuteOne(orc, i, node, b).0
    ensures Agree(ExecuteOne(orc, i, node, a).1, ExecuteOne(orc, i, node, b).1, TouchSet(node.op))
    ensures Frame(a, ExecuteOne(orc, i, node, a).1, TouchSet(node.op))
  {
    ProbingDecidesPreconditions(node.op, a);
    ProbingDecidesPreconditions(node.op, b);
    ProbeLocal(node.op, [], a, b);
    RunStepsLocal(orc, node.op, orc.executor.steps(node.op), a, b);
  }

  /** What a record tells of the outcome it was made from. */
  lemma RecordTells(i: nat, op: InverseOp, o: ExecutionOutcome)
    ensures var r := RecordOf(i, op, o);
      && r.opIndex == i && r.op == op
      && (PrimaryPath(op).Some? ==> r.tier == Files) && (op.Refuse? ==> r.tier == RefuseTier)
      && (op.SetEnv? || op.UnsetEnv? ==> r.tier == Env) && (op.OtherTier? ==> r.tier == op.tier)
      && (r.outcomeKind == KindApplied <==> o.Applied?)
      && (r.outcomeKind == KindWouldApply <==> o.WouldApply?)
      && (r.outcomeKind == KindSkipped <==> o.Skipped?)
      && (r.outcomeKind == KindFailed <==> o.Failed?)
      && (r.outcomeKind in {KindSoft, KindHard, KindMissing, KindPhantom} <==> o.Conflicted?)
      && (o.Conflicted? ==>
            && (r.outcomeKind == KindHard <==> o.kind.Hard?)
            && (r.outcomeKind == KindPhantom <==> o.kind.Phantom?)
            && (r.outcomeKind == KindMissing <==> o.kind.Missing?))
      && (r.detail.None? <==> o.Applied? || o.WouldApply?)
      && (o.Skipped? ==> r.detail == Some(o.reason))
      && (o.Failed? ==> r.detail == Some(o.err))
  {
  }

  /** What stands in the way of an operation on `cells`: a conflict foreseen as `Hard`, or else what the
      probe finds now. */
  ghost function Obstacle(node: PlanNode, cells: Cells): Option<Conflict> {
    if node.conflict.Some? && node.conflict.value.Hard? then node.conflict
    else PreconditionConflict(p => if PathKey(p) in cells then cells[PathKey(p)].stat else None, node.op)
  }

  /** Neither filtered out nor refused. */
  ghost predicate Admitted(orc: Orchestrator, op: InverseOp) {
    && !op.Refuse?
    && (orc.pathsFilter.None? || PrimaryPath(op).None? || orc.pathsFilter.value(PrimaryPath(op).value))
  }

  lemma ObstacleIs(node: PlanNode, cells: Cells, live: Option<Conflict>)
    requires live == PreconditionConflict(p => StatAt(cells, p), node.op)
    ensures Obstacle(node, cells) ==
      if node.conflict.Some? && node.conflict.value.Hard? then node.conflict else live
  {
  }

  lemma DecidedBy(orc: Orchestrator, node: PlanNode, live: Option<Conflict>)
    ensures var obstacle := if node.conflict.Some? && node.conflict.value.Hard? then node.conflict else live;
      var settled := Settled(orc, node, live);
      if !Admitted(orc, node.op) then settled.Some? && settled.value.Skipped?
      else if obstacle.None? || orc.policy.Force? then settled.None?
      else if orc.policy.Skip? then settled.Some? && settled.value.Skipped?
      else settled == Some(Conflicted(obstacle.value))
  {
    assert FilteredOut(orc, node.op) || node.op.Refuse? <==> !Admitted(orc, node.op);
  }

  /** The policy's decision. Nothing runs that is filtered out, refused, or in conflict under Skip or Abort;
      everything else is the executor's doing, and its outcome is what is recorded. */
  lemma PolicyDecides(orc: Orchestrator, i: nat, node: PlanNode, cells: Cells)
    ensures var (r, after) := ExecuteOne(orc, i, node, cells);
      var obstacle := Obstacle(node, cells);
      && (!Admitted(orc, node.op) ==> after == cells && r.outcomeKind == KindSkipped)
      && (Admitted(orc, node.op) && obstacle.Some? && orc.policy.Skip? ==>
            after == cells && r.outcomeKind == KindSkipped)
      && (Admitted(orc, node.op) && obstacle.Some? && orc.policy.Abort? ==>
            after == cells && r == RecordOf(i, node.op, Conflicted(obstacle.value)))
      && (Admitted(orc, node.op) && (obstacle.None? || orc.policy.Force?) ==>
            var (scratch, left) := RunSteps(orc, node.op, orc.executor.steps(node.op), cells);
            after == left && r == RecordOf(i, node.op, orc.executor.outcome(node.op, scratch)))
  {
    var live := PreconditionConflict(p => StatAt(cells, p), node.op);
    ObstacleIs(node, cells, live);
    DecidedBy(orc, node, live);
  }

  /** A conflict foreseen at planning time that is not `Hard` decides nothing. */
  lemma AdvisoryConflict(orc: Orchestrator, i: nat, node: PlanNode, cells: Cells)
    requires node.conflict.Some? && !node.conflict.value.Hard?
    ensures ExecuteOne(orc, i, node, cells) == ExecuteOne(orc, i, node.(conflict := None), cells)
  {
    PolicyDecides(orc, i, node, cells);
    PolicyDecides(orc, i, node.(conflict := None), cells);
  }

  // ------------------------------------------------------------------
  // run
  // ------------------------------------------------------------------

  /** What evaluating node `i` on some cells gives: its record and the cells it leaves. */
  type Evaluator = (nat, Cells) -> (ExecutionRecord, Cells)

  /** The orchestrator's evaluator for a plan. Past the plan's end stands a refused node. */
  function EvaluatorOf(orc: Orchestrator, nodes: seq<PlanNode>): Evaluator {
    (i: nat, cells: Cells) =>
      ExecuteOne(orc, i, if i < |nodes| then nodes[i] else PlanNode(Refuse("", "", None), 0, None), cells)
  }

  /** The first `m` nodes evaluated one after another, stopping for nothing. */
  function Walk(eval: Evaluator, m: nat, cells: Cells): (r: (seq<ExecutionRecord>, Cells))
    ensures |r.0| == m
  {
    if m == 0 then ([], cells)
    else
      var (records, c) := Walk(eval, m - 1, cells);
      var (record, c') := eval(m - 1, c);
      (records + [record], c')
  }

  /** A record that halts the plan. */
  predicate Trips(policy: ConflictPolicy, record: ExecutionRecord) {
    policy == Abort && record.outcomeKind in {KindFailed, KindHard, KindPhantom}
  }

  /** The report of a serial run over `n` nodes: the walk, cut right after the first
      tripping record. */
  ghost predicate SerialReport(eval: Evaluator, policy: ConflictPolicy, n: nat, cells: Cells,
                               records: seq<ExecutionRecord>, final: Cells) {
    && |records| <= n
    && (records, final) == Walk(eval, |records|, cells)
    && (forall k :: 0 <= k < |records| - 1 ==> !Trips(policy, records[k]))
    && (|records| < n ==> records != [] && Trips(policy, records[|records| - 1]))
  }

  method Run(orc: Orchestrator, nodes: seq<PlanNode>, cells: Cells)
    returns (records: seq<ExecutionRecord>, final: Cells)
    ensures SerialReport(EvaluatorOf(orc, nodes), orc.policy, |nodes|, cells, records, final)
    ensures orc.policy == Abort ==>
      forall k :: 0 <= k < |records| - 1 ==> records[k].outcomeKind !in {KindFailed, KindHard, KindPhantom}
    ensures |records| < |nodes| ==>
      && orc.policy == Abort && records != []
      && records[|records| - 1].outcomeKind in {KindFailed, KindHard, KindPhantom}
  {
    records, final := RunWith(EvaluatorOf(orc, nodes), orc.policy, |nodes|, cells);
  }

  /** The loop of `run`, for any evaluator. */
  method RunWith(eval: Evaluator, policy: ConflictPolicy, n: nat, cells: Cells)
    returns (records: seq<ExecutionRecord>, final: Cells)
    ensures SerialReport(eval, policy, n, cells, records, final)
  {
    records, final := [], cells;
    var i := 0;
    while i < n
      invariant i <= n
      invariant (records, final) == Walk(eval, i, cells)
      invariant forall k :: 0 <= k < i ==> !Trips(policy, records[k])
    {
      var (record, c) := eval(i, final);
      records, final := records + [record], c;
      i := i + 1;
      if Trips(policy, record) {
        return;
      }
    }
  }

  /** The walk only grows: its first `k` records are the walk of the first `k` nodes. */
  lemma {:induction false} WalkPrefix(eval: Evaluator, k: nat, m: nat, cells: Cells)
    requires k <= m
    ensures Walk(eval, m, cells).0[..k] == Walk(eval, k, cells).0
  {
    if k < m {
      WalkPrefix(eval, k, m - 1, cells);
      assert Walk(eval, m, cells).0[..m - 1] == Walk(eval, m - 1, cells).0;
      assert Walk(eval, m, cells).0[..k] == Walk(eval, m - 1, cells).0[..k];
    }
  }

  /** Record `k` of a walk is node `k`'s on the cells the nodes before it left. */
  lemma {:induction false} WalkAt(eval: Evaluator, k: nat, m: nat, cells: Cells)
    requires k < m
    ensures Walk(eval, m, cells).0[k] == eval(k, Walk(eval, k, cells).1).0
    ensures Walk(eval, k + 1, cells).1 == eval(k, Walk(eval, k, cells).1).1
  {
    if k + 1 < m {
      WalkAt(eval, k, m - 1, cells);
    }
  }

  /** Record `k` of a walk is numbered `k` and carries node `k`'s operation. */
  lemma WalkNumbers(orc: Orchestrator, nodes: seq<PlanNode>, m: nat, cells: Cells)
    requires m <= |nodes|
    ensures forall k :: 0 <= k < m ==>
      var record := Walk(EvaluatorOf(orc, nodes), m, cells).0[k];
      record.opIndex == k && record.op == nodes[k].op
  {
    forall k | 0 <= k < m
      ensures var record := Walk(EvaluatorOf(orc, nodes), m, cells).0[k];
        record.opIndex == k && record.op == nodes[k].op
    {
      WalkAt(EvaluatorOf(orc, nodes), k, m, cells);
    }
  }

  lemma BlockedOrClear(orc: Orchestrator, i: nat, node: PlanNode, cells: Cells)
    requires !orc.policy.Force?
    ensures var (r, after) := ExecuteOne(orc, i, node, cells);
      Clear(orc, node, cells) || (after == cells && r.outcomeKind != KindApplied)
  {
    PolicyDecides(orc, i, node, cells);
  }

  ghost predicate Clear(orc: Orchestrator, node: PlanNode, cells: Cells) {
    Admitted(orc, node.op) && Obstacle(node, cells).None?
  }

  /** Unless forced, an operation is applied only where it is admitted and nothing stands in its way in the
      cells the operations before it left; any other operation leaves those cells as they are. */
  lemma AppliedOnlyWhenClear(orc: Orchestrator, nodes: seq<PlanNode>, k: nat, m: nat, cells: Cells)
    requires k < m <= |nodes| && !orc.policy.Force?
    ensures var eval := EvaluatorOf(orc, nodes);
      var before := Walk(eval, k, cells).1;
      && (Walk(eval, m, cells).0[k].outcomeKind == KindApplied ==> Clear(orc, nodes[k], before))
      && (!Clear(orc, nodes[k], before) ==> Walk(eval, k + 1, cells).1 == before)
  {
    var eval := EvaluatorOf(orc, nodes);
    var before := Walk(eval, k, cells).1;
    WalkAt(eval, k, m, cells);
    BlockedOrClear(orc, k, nodes[k], before);
    assert eval(k, before) == ExecuteOne(orc, k, nodes[k], before);
  }
}
