/** One batch of `run_parallel` as a machine of interleaved workers
    (crates/shit-planner/src/orchestrator.rs:171-225). Every worker spins on a counting
    semaphore, evaluates its node, reports, and releases; a scheduler picks who moves. */
module Batch {
  import opened Plan
  import opened Cohort
  import opened Execute
  import Commute

  /** Where a worker is. `Probing` and `Executing` are inside `execute_one`; `Returned` is
      about to look at the abort policy, `Checked` about to write its record slot, and
      `Stored` about to release the semaphore. */
  datatype Phase =
    | Spinning
    | Probing(seen: seq<Option<ProbeStat>>)
    | Executing(k: nat, scratch: Scratch)
    | Returned(record: ExecutionRecord)
    | Checked(record: ExecutionRecord)
    | Stored
    | Finished

  type Slots = seq<Option<ExecutionRecord>>

  datatype State = State(cells: Cells, sem: nat, abort: bool, slots: Slots, phases: seq<Phase>)

  /** The batch's fixed part: worker `w` evaluates node `lo + w`, for `lo + w < hi`. */
  datatype Job = Job(orc: Orchestrator, nodes: seq<PlanNode>, lo: nat, hi: nat, maxParallel: nat)

  ghost predicate ValidJob(job: Job) {
    job.lo <= job.hi <= |job.nodes|
  }

  function Cap(job: Job): nat {
    if job.maxParallel < 1 then 1 else job.maxParallel
  }

  function Node(job: Job, w: nat): PlanNode
    requires ValidJob(job) && w < job.hi - job.lo
  {
    job.nodes[job.lo + w]
  }

  function KeysOf(job: Job, w: nat): Keys
    requires ValidJob(job) && w < job.hi - job.lo
  {
    TouchSet(Node(job, w).op)
  }

  ghost predicate Shape(job: Job, b: State) {
    ValidJob(job) && |b.phases| == job.hi - job.lo && |b.slots| == |job.nodes|
  }

  function Launch(job: Job, cells: Cells, slots: Slots): State
    requires ValidJob(job)
  {
    State(cells, 0, false, slots, seq(job.hi - job.lo, _ => Spinning))
  }

  // ------------------------------------------------------------------
  // Steps
  // ------------------------------------------------------------------

  /** The next thing `execute_one` does before the executor is called: ask the probe about one
      more path, or settle the outcome, or start the executor. */
  function Evaluate(job: Job, w: nat, seen: seq<Option<ProbeStat>>, cells: Cells): Phase
    requires ValidJob(job) && w < job.hi - job.lo
  {
    var node := Node(job, w);
    if Asks(job.orc, node, seen) then
      Probing(seen + [StatAt(cells, NextProbe(node.op, seen).value)])
    else match Settled(job.orc, node, Verdict(node.op, seen))
      case Some(o) => Returned(RecordOf(job.lo + w, node.op, o))
      case None => Executing(0, job.orc.executor.begin(node.op, job.orc.dryRun, job.orc.policy))
  }

  predicate Asks(orc: Orchestrator, node: PlanNode, seen: seq<Option<ProbeStat>>) {
    && EarlyExit(orc, node.op).None?
    && !(node.conflict.Some? && node.conflict.value.Hard?)
    && NextProbe(node.op, seen).Some?
  }

  /** The worker's own part of a step: its next phase and the cells. */
  function Advance(job: Job, w: nat, b: State): (Phase, Cells)
    requires Shape(job, b) && w < |b.phases|
  {
    var op := Node(job, w).op;
    match b.phases[w]
    case Spinning => (if b.sem < Cap(job) then Probing([]) else Spinning, b.cells)
    case Probing(seen) => (Evaluate(job, w, seen, b.cells), b.cells)
    case Executing(k, s) =>
      if k < job.orc.executor.steps(op) then
        var (s', out) := job.orc.executor.step(op, k, s, View(b.cells, TouchSet(op)));
        (Executing(k + 1, s'), Commit(b.cells, TouchSet(op), out))
      else
        (Returned(RecordOf(job.lo + w, op, job.orc.executor.outcome(op, s))), b.cells)
    case Returned(record) => (Checked(record), b.cells)
    case Checked(_) => (Stored, b.cells)
    case Stored => (Finished, b.cells)
    case Finished => (Finished, b.cells)
  }

  /** Worker `w` moves once. A spinning worker that finds the semaphore full yields. */
  function Step(job: Job, w: nat, b: State): (b': State)
    requires Shape(job, b)
    ensures Shape(job, b')
  {
    if w >= |b.phases| then b
    else
      var p := b.phases[w];
      var (p', cells) := Advance(job, w, b);
      State(
        cells,
        if p.Spinning? && p'.Probing? then b.sem + 1
        else if p.Stored? && b.sem > 0 then b.sem - 1 else b.sem,
        b.abort || (p.Returned? && Trips(job.orc.policy, p.record)),
        if p.Checked? then b.slots[job.lo + w := Some(p.record)] else b.slots,
        b.phases[w := p'])
  }

  /** The batch after the scheduler has picked the workers of `sched` in that order. */
  function RunSchedule(job: Job, sched: seq<nat>, b: State): (b': State)
    requires Shape(job, b)
    ensures Shape(job, b')
  {
    if sched == [] then b
    else Step(job, sched[|sched| - 1], RunSchedule(job, sched[..|sched| - 1], b))
  }

  ghost predicate Joined(b: State) {
    forall w :: 0 <= w < |b.phases| ==> b.phases[w].Finished?
  }

  // ------------------------------------------------------------------
  // The invariant of every reachable state
  // ------------------------------------------------------------------

  /** A worker that has got as far as `phase` alone, starting from the cells `start`. */
  ghost predicate Sound(job: Job, eval: Evaluator, w: nat, phase: Phase, slot: Option<ExecutionRecord>,
                        cells: Cells, start: Cells)
    requires ValidJob(job) && w < job.hi - job.lo
  {
    var node, keys := Node(job, w), KeysOf(job, w);
    var (record, end) := eval(job.lo + w, start);
    match phase
    case Spinning => Agree(cells, start, keys) && slot.None?
    case Probing(seen) =>
      Agree(cells, start, keys) && slot.None? && Probe(node.op, seen, start) == Probe(node.op, [], start)
    case Executing(k, s) =>
      && slot.None?
      && Settled(job.orc, node, PreconditionConflict(p => StatAt(start, p), node.op)).None?
      && k <= job.orc.executor.steps(node.op)
      && s == RunSteps(job.orc, node.op, k, start).0
      && Agree(cells, RunSteps(job.orc, node.op, k, start).1, keys)
    case Returned(r) => r == record && Agree(cells, end, keys) && slot.None?
    case Checked(r) => r == record && Agree(cells, end, keys) && slot.None?
    case Stored => Agree(cells, end, keys) && slot == Some(record)
    case Finished => Agree(cells, end, keys) && slot == Some(record)
  }

  /** Phases between acquiring the semaphore and releasing it. */
  predicate InFlight(p: Phase) {
    !p.Spinning? && !p.Finished?
  }

  function CountInFlight(phases: seq<Phase>): nat {
    if phases == [] then 0
    else CountInFlight(phases[..|phases| - 1]) + (if InFlight(phases[|phases| - 1]) then 1 else 0)
  }

  /** Phases in which the worker has already looked at the abort policy. */
  predicate Reported(p: Phase) {
    p.Checked? || p.Stored? || p.Finished?
  }

  ghost predicate WorkersSound(job: Job, eval: Evaluator, b: State, start: Cells)
    requires Shape(job, b)
  {
    forall w :: 0 <= w < |b.phases| ==> Sound(job, eval, w, b.phases[w], b.slots[job.lo + w], b.cells, start)
  }

  ghost predicate Untouched(job: Job, k: TouchKey)
    requires ValidJob(job)
  {
    Commute.Outside(TouchSets(job.nodes), job.lo, job.hi, k)
  }

  ghost predicate RestUnchanged(job: Job, b: State, start: Cells, slots: Slots)
    requires Shape(job, b) && |slots| == |b.slots|
  {
    && (forall k :: Untouched(job, k) ==> SameAt(b.cells, start, k))
    && (forall i :: 0 <= i < |slots| && !(job.lo <= i < job.hi) ==> b.slots[i] == slots[i])
  }

  ghost predicate SemaphoreCounts(job: Job, b: State) {
    b.sem == CountInFlight(b.phases) <= Cap(job)
  }

  ghost predicate TripsAlone(job: Job, eval: Evaluator, w: nat, start: Cells)
    requires ValidJob(job) && w < job.hi - job.lo
  {
    Trips(job.orc.policy, eval(job.lo + w, start).0)
  }

  ghost predicate AbortMeans(job: Job, eval: Evaluator, b: State, start: Cells)
    requires Shape(job, b)
  {
    b.abort <==> exists w :: 0 <= w < |b.phases| && Reported(b.phases[w]) && TripsAlone(job, eval, w, start)
  }

  ghost predicate Inv(job: Job, eval: Evaluator, b: State, start: Cells, slots: Slots) {
    && Shape(job, b)
    && |slots| == |b.slots|
    && WorkersSound(job, eval, b, start)
    && RestUnchanged(job, b, start, slots)
    && SemaphoreCounts(job, b)
    && AbortMeans(job, eval, b, start)
  }

  /** The batch's nodes pairwise share no touch key. */
  ghost predicate ConflictFree(job: Job)
    requires ValidJob(job)
  {
    Commute.Disjoint(TouchSets(job.nodes), job.lo, job.hi)
  }

  /** `eval` evaluates the batch's nodes as `execute_one` does. */
  ghost predicate Evaluates(job: Job, eval: Evaluator)
    requires ValidJob(job)
  {
    forall i, c :: job.lo <= i < job.hi ==> eval(i, c) == ExecuteOne(job.orc, i, job.nodes[i], c)
  }

  // ------------------------------------------------------------------
  // One step keeps it
  // ------------------------------------------------------------------

  lemma EvaluateSound(job: Job, eval: Evaluator, w: nat, seen: seq<Option<ProbeStat>>, cells: Cells, start: Cells)
    requires ValidJob(job) && w < job.hi - job.lo
    requires eval(job.lo + w, start) == ExecuteOne(job.orc, job.lo + w, Node(job, w), start)
    requires Sound(job, eval, w, Probing(seen), None, cells, start)
    ensures Sound(job, eval, w, Evaluate(job, w, seen, cells), None, cells, start)
  {
    var node := Node(job, w);
    if Asks(job.orc, node, seen) {
      var path := NextProbe(node.op, seen).value;
      ProbesTouchedPaths(node.op, seen);
      assert SameAt(cells, start, PathKey(path));
      assert Probe(node.op, seen, start) == Probe(node.op, seen + [StatAt(start, path)], start);
    } else {
      ProbingDecidesPreconditions(node.op, start);
      assert NextProbe(node.op, seen).None? ==> Probe(node.op, seen, start) == seen;
      assert Settled(job.orc, node, Verdict(node.op, seen))
          == Settled(job.orc, node, PreconditionConflict(p => StatAt(start, p), node.op));
    }
  }

  lemma ExecuteStepSound(job: Job, eval: Evaluator, w: nat, k: nat, s: Scratch, cells: Cells, start: Cells)
    requires ValidJob(job) && w < job.hi - job.lo
    requires Sound(job, eval, w, Executing(k, s), None, cells, start)
    requires k < job.orc.executor.steps(Node(job, w).op)
    ensures var op := Node(job, w).op;
            var (s', out) := job.orc.executor.step(op, k, s, View(cells, TouchSet(op)));
            Sound(job, eval, w, Executing(k + 1, s'), None, Commit(cells, TouchSet(op), out), start)
  {
    var op := Node(job, w).op;
    var c := RunSteps(job.orc, op, k, start).1;
    AgreeingViews(cells, c, TouchSet(op));
    var out := job.orc.executor.step(op, k, s, View(c, TouchSet(op))).1;
    CommitAgrees(cells, c, TouchSet(op), out);
  }

  lemma ProberSound(job: Job, eval: Evaluator, w: nat, b: State, start: Cells)
    requires Shape(job, b) && w < |b.phases|
    requires eval(job.lo + w, start) == ExecuteOne(job.orc, job.lo + w, Node(job, w), start)
    requires Sound(job, eval, w, b.phases[w], b.slots[job.lo + w], b.cells, start)
    requires b.phases[w].Probing?
    ensures var b' := Step(job, w, b);
            Sound(job, eval, w, b'.phases[w], b'.slots[job.lo + w], b'.cells, start)
  {
    EvaluateSound(job, eval, w, b.phases[w].seen, b.cells, start);
  }

  lemma ExecuterSound(job: Job, eval: Evaluator, w: nat, b: State, start: Cells)
    requires Shape(job, b) && w < |b.phases|
    requires eval(job.lo + w, start) == ExecuteOne(job.orc, job.lo + w, Node(job, w), start)
    requires Sound(job, eval, w, b.phases[w], b.slots[job.lo + w], b.cells, start)
    requires b.phases[w].Executing?
    ensures var b' := Step(job, w, b);
            Sound(job, eval, w, b'.phases[w], b'.slots[job.lo + w], b'.cells, start)
  {
    if b.phases[w].k < job.orc.executor.steps(Node(job, w).op) {
      ExecuteStepSound(job, eval, w, b.phases[w].k, b.phases[w].scratch, b.cells, start);
    }
  }

  lemma OutsiderSound(job: Job, eval: Evaluator, w: nat, b: State, start: Cells)
    requires Shape(job, b) && w < |b.phases|
    requires eval(job.lo + w, start) == ExecuteOne(job.orc, job.lo + w, Node(job, w), start)
    requires Sound(job, eval, w, b.phases[w], b.slots[job.lo + w], b.cells, start)
    requires !b.phases[w].Probing? && !b.phases[w].Executing?
    ensures var b' := Step(job, w, b);
            Sound(job, eval, w, b'.phases[w], b'.slots[job.lo + w], b'.cells, start)
  {
  }

  /** The moving worker stays sound. */
  lemma MoverSound(job: Job, eval: Evaluator, w: nat, b: State, start: Cells)
    requires Shape(job, b) && w < |b.phases|
    requires eval(job.lo + w, start) == ExecuteOne(job.orc, job.lo + w, Node(job, w), start)
    requires Sound(job, eval, w, b.phases[w], b.slots[job.lo + w], b.cells, start)
    ensures var b' := Step(job, w, b);
            Sound(job, eval, w, b'.phases[w], b'.slots[job.lo + w], b'.cells, start)
  {
    match b.phases[w]
    case Probing(_) => ProberSound(job, eval, w, b, start);
    case Executing(_, _) => ExecuterSound(job, eval, w, b, start);
    case _ => OutsiderSound(job, eval, w, b, start);
  }

  /** A step changes no cell outside the mover's keys and no slot but the mover's. */
  lemma StepFrame(job: Job, w: nat, b: State)
    requires Shape(job, b) && w < |b.phases|
    ensures Frame(b.cells, Step(job, w, b).cells, KeysOf(job, w))
    ensures forall i :: 0 <= i < |b.slots| && i != job.lo + w ==> Step(job, w, b).slots[i] == b.slots[i]
  {
  }

  lemma OthersUnseen(job: Job, w: nat, v: nat, b: State)
    requires Shape(job, b) && w < |b.phases| && v < |b.phases| && v != w && ConflictFree(job)
    ensures Agree(b.cells, Step(job, w, b).cells, KeysOf(job, v))
  {
    StepFrame(job, w, b);
    KeysDisjoint(job, v, w);
    FrameMissesDisjoint(b.cells, Step(job, w, b).cells, KeysOf(job, w), KeysOf(job, v));
  }

  lemma KeysDisjoint(job: Job, v: nat, w: nat)
    requires ValidJob(job) && ConflictFree(job) && v < job.hi - job.lo && w < job.hi - job.lo && v != w
    ensures KeysOf(job, v) !! KeysOf(job, w)
  {
    var ts := SetsOf(job);
    DisjointAt(ts, job.lo, job.hi, job.lo + v, job.lo + w);
  }

  /** The touch sets of a job's nodes, the batch's own by worker. */
  lemma SetsOf(job: Job) returns (ts: seq<Keys>)
    requires ValidJob(job) && ConflictFree(job)
    ensures |ts| == |job.nodes| && Commute.Disjoint(ts, job.lo, job.hi)
    ensures forall v: nat :: v < job.hi - job.lo ==> KeysOf(job, v) == ts[job.lo + v]
  {
    ts := TouchSets(job.nodes);
  }

  lemma DisjointAt(ts: seq<Keys>, lo: nat, hi: nat, i: nat, j: nat)
    requires lo <= hi <= |ts| && Commute.Disjoint(ts, lo, hi) && lo <= i < hi && lo <= j < hi && i != j
    ensures ts[i] !! ts[j]
  {
  }

  lemma FrameMissesDisjoint(a: Cells, b: Cells, keys: Keys, others: Keys)
    requires Frame(a, b, keys) && keys !! others
    ensures Agree(a, b, others)
  {
  }

  lemma OthersSound(job: Job, eval: Evaluator, w: nat, v: nat, b: State, start: Cells)
    requires Shape(job, b) && w < |b.phases| && v < |b.phases| && v != w && ConflictFree(job)
    requires Sound(job, eval, v, b.phases[v], b.slots[job.lo + v], b.cells, start)
    ensures var b' := Step(job, w, b);
            Sound(job, eval, v, b'.phases[v], b'.slots[job.lo + v], b'.cells, start)
  {
    OthersUnseen(job, w, v, b);
    SoundFollowsCells(job, eval, v, b.phases[v], b.slots[job.lo + v], b.cells, Step(job, w, b).cells, start);
  }

  lemma SoundFollowsCells(job: Job, eval: Evaluator, v: nat, p: Phase, slot: Option<ExecutionRecord>, a: Cells,
                          c: Cells, start: Cells)
    requires ValidJob(job) && v < job.hi - job.lo
    requires Sound(job, eval, v, p, slot, a, start) && Agree(a, c, KeysOf(job, v))
    ensures Sound(job, eval, v, p, slot, c, start)
  {
  }

  lemma {:induction false} CountUpdate(phases: seq<Phase>, w: nat, p: Phase)
    requires w < |phases|
    ensures CountInFlight(phases[w := p]) + (if InFlight(phases[w]) then 1 else 0)
         == CountInFlight(phases) + (if InFlight(p) then 1 else 0)
  {
    var n := |phases| - 1;
    if w < n {
      CountUpdate(phases[..n], w, p);
      assert phases[w := p][..n] == phases[..n][w := p];
    } else {
      assert phases[w := p][..n] == phases[..n];
    }
  }

  lemma StepSemaphore(job: Job, w: nat, b: State)
    requires Shape(job, b) && SemaphoreCounts(job, b)
    ensures SemaphoreCounts(job, Step(job, w, b))
  {
    if w < |b.phases| {
      CountUpdate(b.phases, w, Advance(job, w, b).0);
      CountUpdate(b.phases, w, Finished);
    }
  }

  lemma StepAbort(job: Job, eval: Evaluator, w: nat, b: State, start: Cells)
    requires Shape(job, b) && WorkersSound(job, eval, b, start) && AbortMeans(job, eval, b, start)
    ensures AbortMeans(job, eval, Step(job, w, b), start)
  {
    if w < |b.phases| {
      var b' := Step(job, w, b);
      assert Sound(job, eval, w, b.phases[w], b.slots[job.lo + w], b.cells, start);
      assert forall v :: 0 <= v < |b.phases| && v != w ==> b'.phases[v] == b.phases[v];
      assert Reported(b.phases[w]) ==> Reported(b'.phases[w]);
      if b.phases[w].Returned? {
        assert Reported(b'.phases[w]);
        assert Trips(job.orc.policy, b.phases[w].record) <==> TripsAlone(job, eval, w, start);
      } else {
        assert Reported(b'.phases[w]) == Reported(b.phases[w]);
      }
    }
  }

  lemma StepKeepsSoundAt(job: Job, eval: Evaluator, w: nat, v: nat, b: State, start: Cells)
    requires Shape(job, b) && w < |b.phases| && v < |b.phases|
    requires Sound(job, eval, v, b.phases[v], b.slots[job.lo + v], b.cells, start)
    requires ConflictFree(job) && Evaluates(job, eval)
    ensures var b' := Step(job, w, b);
            Sound(job, eval, v, b'.phases[v], b'.slots[job.lo + v], b'.cells, start)
  {
    if v == w {
      assert eval(job.lo + w, start) == ExecuteOne(job.orc, job.lo + w, Node(job, w), start);
      MoverSound(job, eval, w, b, start);
    } else {
      OthersSound(job, eval, w, v, b, start);
    }
  }

  lemma StepKeepsSound(job: Job, eval: Evaluator, w: nat, b: State, start: Cells)
    requires Shape(job, b) && w < |b.phases| && WorkersSound(job, eval, b, start)
    requires ConflictFree(job) && Evaluates(job, eval)
    ensures WorkersSound(job, eval, Step(job, w, b), start)
  {
    var b' := Step(job, w, b);
    forall v | 0 <= v < |b.phases|
      ensures Sound(job, eval, v, b'.phases[v], b'.slots[job.lo + v], b'.cells, start)
    {
      StepKeepsSoundAt(job, eval, w, v, b, start);
    }
  }

  lemma StepKeepsRest(job: Job, w: nat, b: State, start: Cells, slots: Slots)
    requires Shape(job, b) && w < |b.phases| && |slots| == |b.slots| && RestUnchanged(job, b, start, slots)
    ensures RestUnchanged(job, Step(job, w, b), start, slots)
  {
    StepFrame(job, w, b);
    var b' := Step(job, w, b);
    forall k | Untouched(job, k) ensures SameAt(b'.cells, start, k) {
      assert k !in TouchSets(job.nodes)[job.lo + w];
      assert SameAt(b.cells, start, k) && SameAt(b.cells, b'.cells, k);
    }
  }

  lemma StepKeepsInv(job: Job, eval: Evaluator, w: nat, b: State, start: Cells, slots: Slots)
    requires Inv(job, eval, b, start, slots) && ConflictFree(job) && Evaluates(job, eval)
    ensures Inv(job, eval, Step(job, w, b), start, slots)
  {
    if w < |b.phases| {
      StepKeepsSound(job, eval, w, b, start);
      StepKeepsRest(job, w, b, start, slots);
      StepSemaphore(job, w, b);
      StepAbort(job, eval, w, b, start);
    }
  }

  // ------------------------------------------------------------------
  // Every reachable state
  // ------------------------------------------------------------------

  /** The batch state a schedule reaches. */
  ghost function Reached(job: Job, sched: seq<nat>, cells: Cells, slots: Slots): (b: State)
    requires ValidJob(job) && |slots| == |job.nodes|
    ensures Shape(job, b)
  {
    RunSchedule(job, sched, Launch(job, cells, slots))
  }

  ghost predicate Empty(job: Job, slots: Slots)
    requires ValidJob(job)
  {
    |slots| == |job.nodes| && forall i :: job.lo <= i < job.hi ==> slots[i].None?
  }

  lemma {:induction false} NobodyInFlight(phases: seq<Phase>)
    requires forall w :: 0 <= w < |phases| ==> !InFlight(phases[w])
    ensures CountInFlight(phases) == 0
  {
    if phases != [] {
      NobodyInFlight(phases[..|phases| - 1]);
    }
  }

  lemma LaunchInv(job: Job, eval: Evaluator, cells: Cells, slots: Slots)
    requires ValidJob(job) && Empty(job, slots)
    ensures Inv(job, eval, Launch(job, cells, slots), cells, slots)
  {
    var b := Launch(job, cells, slots);
    NobodyInFlight(b.phases);
    forall w | 0 <= w < |b.phases|
      ensures Sound(job, eval, w, b.phases[w], b.slots[job.lo + w], b.cells, cells) && !Reported(b.phases[w])
    {
      assert b.phases[w] == Spinning;
    }
  }

  /** Whatever the scheduler does, every worker of a conflict-free batch is where it would
      be had it run alone from the batch's first cells. */
  lemma {:induction false} ReachableInv(job: Job, eval: Evaluator, sched: seq<nat>, cells: Cells, slots: Slots)
    requires ValidJob(job) && Empty(job, slots) && ConflictFree(job) && Evaluates(job, eval)
    ensures Inv(job, eval, Reached(job, sched, cells, slots), cells, slots)
  {
    if sched == [] {
      LaunchInv(job, eval, cells, slots);
    } else {
      var n := |sched| - 1;
      ReachableInv(job, eval, sched[..n], cells, slots);
      StepKeepsInv(job, eval, sched[n], Reached(job, sched[..n], cells, slots), cells, slots);
    }
  }

  /** On any plan, labelled well or not, the semaphore counts the workers between acquire
      and release, and never exceeds max(1, max_parallel). */
  lemma {:induction false} ReachableSemaphore(job: Job, sched: seq<nat>, cells: Cells, slots: Slots)
    requires ValidJob(job) && |slots| == |job.nodes|
    ensures var b := Reached(job, sched, cells, slots);
            b.sem == CountInFlight(b.phases) <= (if job.maxParallel < 1 then 1 else job.maxParallel)
  {
    if sched == [] {
      NobodyInFlight(Launch(job, cells, slots).phases);
    } else {
      var n := |sched| - 1;
      ReachableSemaphore(job, sched[..n], cells, slots);
      StepSemaphore(job, sched[n], Reached(job, sched[..n], cells, slots));
    }
  }

  // ------------------------------------------------------------------
  // Record slots
  // ------------------------------------------------------------------

  /** A worker's slot is full exactly once it has stored its record. */
  ghost predicate SlotsFollow(job: Job, b: State)
    requires Shape(job, b)
  {
    forall w :: 0 <= w < |b.phases| ==> SlotFollows(job, b, w)
  }

  ghost predicate OnlyFills(a: Slots, b: Slots) {
    |a| == |b| && forall i :: 0 <= i < |a| && a[i].Some? ==> b[i] == a[i]
  }

  ghost predicate SlotFollows(job: Job, b: State, v: nat)
    requires Shape(job, b) && v < |b.phases|
  {
    b.slots[job.lo + v].Some? <==> b.phases[v].Stored? || b.phases[v].Finished?
  }

  lemma OwnSlotFollows(job: Job, w: nat, b: State)
    requires Shape(job, b) && w < |b.phases| && SlotFollows(job, b, w)
    ensures SlotFollows(job, Step(job, w, b), w)
    ensures b.slots[job.lo + w].Some? ==> Step(job, w, b).slots[job.lo + w] == b.slots[job.lo + w]
  {
  }

  lemma StepFillsSlots(job: Job, w: nat, b: State)
    requires Shape(job, b) && SlotsFollow(job, b)
    ensures SlotsFollow(job, Step(job, w, b)) && OnlyFills(b.slots, Step(job, w, b).slots)
  {
    if w < |b.phases| {
      StepFrame(job, w, b);
      assert SlotFollows(job, b, w);
      OwnSlotFollows(job, w, b);
      var b' := Step(job, w, b);
      forall v | 0 <= v < |b.phases| ensures SlotFollows(job, b', v) {
        assert SlotFollows(job, b, v);
      }
    }
  }

  lemma {:induction false} ReachableSlots(job: Job, sched: seq<nat>, cells: Cells, slots: Slots)
    requires ValidJob(job) && Empty(job, slots)
    ensures SlotsFollow(job, Reached(job, sched, cells, slots))
  {
    if sched != [] {
      var n := |sched| - 1;
      ReachableSlots(job, sched[..n], cells, slots);
      StepFillsSlots(job, sched[n], Reached(job, sched[..n], cells, slots));
    }
  }

  /** Each slot is written exactly once: empty at launch, never overwritten while the batch
      goes on (`before` then `more`), and full when the batch is joined. */
  lemma {:induction false} SlotsWrittenOnce(job: Job, before: seq<nat>, more: seq<nat>, cells: Cells, slots: Slots)
    requires ValidJob(job) && Empty(job, slots)
    ensures OnlyFills(Reached(job, before, cells, slots).slots, Reached(job, before + more, cells, slots).slots)
    ensures Joined(Reached(job, before, cells, slots)) ==>
      forall i :: job.lo <= i < job.hi ==> Reached(job, before, cells, slots).slots[i].Some?
  {
    var a := Reached(job, before, cells, slots);
    ReachableSlots(job, before, cells, slots);
    forall i | job.lo <= i < job.hi && Joined(a) ensures a.slots[i].Some? {
      assert SlotFollows(job, a, i - job.lo) && a.phases[i - job.lo].Finished?;
    }
    if more == [] {
      assert before + more == before;
    } else {
      var n := |more| - 1;
      SlotsWrittenOnce(job, before, more[..n], cells, slots);
      ReachableSlots(job, before + more[..n], cells, slots);
      StepFillsSlots(job, more[n], Reached(job, before + more[..n], cells, slots));
      assert (before + more)[..|before + more| - 1] == before + more[..n];
    }
  }

  // ------------------------------------------------------------------
  // The abort flag
  // ------------------------------------------------------------------

  /** The record worker `w` has looked at the policy with. */
  ghost function Judged(job: Job, b: State, w: nat): Option<ExecutionRecord>
    requires Shape(job, b) && w < |b.phases|
  {
    if b.phases[w].Checked? then Some(b.phases[w].record)
    else if b.phases[w].Stored? || b.phases[w].Finished? then b.slots[job.lo + w]
    else None
  }

  ghost predicate JudgedTrips(job: Job, b: State, w: nat)
    requires Shape(job, b) && w < |b.phases|
  {
    Judged(job, b, w).Some? && Trips(job.orc.policy, Judged(job, b, w).value)
  }

  /** The flag is up exactly if some worker has put a tripping record before the policy. */
  ghost predicate FlagFollows(job: Job, b: State)
    requires Shape(job, b)
  {
    b.abort <==> exists w :: 0 <= w < |b.phases| && JudgedTrips(job, b, w)
  }

  lemma OthersJudgedAlike(job: Job, w: nat, v: nat, b: State)
    requires Shape(job, b) && w < |b.phases| && v < |b.phases| && v != w
    ensures JudgedTrips(job, Step(job, w, b), v) == JudgedTrips(job, b, v)
  {
  }

  lemma JudgedByStep(job: Job, w: nat, b: State)
    requires Shape(job, b) && w < |b.phases| && SlotFollows(job, b, w)
    ensures JudgedTrips(job, Step(job, w, b), w) <==>
      JudgedTrips(job, b, w) || (b.phases[w].Returned? && Trips(job.orc.policy, b.phases[w].record))
  {
  }

  lemma StepFlag(job: Job, w: nat, b: State)
    requires Shape(job, b) && SlotsFollow(job, b) && FlagFollows(job, b)
    ensures FlagFollows(job, Step(job, w, b))
  {
    if w < |b.phases| {
      var b' := Step(job, w, b);
      assert SlotFollows(job, b, w);
      JudgedByStep(job, w, b);
      forall v | 0 <= v < |b.phases| && v != w ensures JudgedTrips(job, b', v) == JudgedTrips(job, b, v) {
        OthersJudgedAlike(job, w, v, b);
      }
      assert b'.abort <==> b.abort || (b.phases[w].Returned? && Trips(job.orc.policy, b.phases[w].record));
    }
  }

  lemma {:induction false} ReachableFlag(job: Job, sched: seq<nat>, cells: Cells, slots: Slots)
    requires ValidJob(job) && Empty(job, slots)
    ensures FlagFollows(job, Reached(job, sched, cells, slots))
  {
    if sched != [] {
      var n := |sched| - 1;
      ReachableFlag(job, sched[..n], cells, slots);
      ReachableSlots(job, sched[..n], cells, slots);
      StepFlag(job, sched[n], Reached(job, sched[..n], cells, slots));
    }
  }

  lemma {:induction false} OtherSlotsStay(job: Job, sched: seq<nat>, cells: Cells, slots: Slots)
    requires ValidJob(job) && |slots| == |job.nodes|
    ensures forall i :: 0 <= i < |slots| && !(job.lo <= i < job.hi) ==>
      Reached(job, sched, cells, slots).slots[i] == slots[i]
  {
    if sched != [] {
      var n := |sched| - 1;
      OtherSlotsStay(job, sched[..n], cells, slots);
      var b := Reached(job, sched[..n], cells, slots);
      if sched[n] < |b.phases| {
        StepFrame(job, sched[n], b);
      }
    }
  }

  /** On any plan, labelled well or not: a joined batch has filled its own slots and no other, and its flag
      is up exactly if one of its records is a failure or a hard or phantom conflict under Abort. */
  lemma JoinedFlag(job: Job, sched: seq<nat>, cells: Cells, slots: Slots)
    requires ValidJob(job) && Empty(job, slots) && Joined(Reached(job, sched, cells, slots))
    ensures var b := Reached(job, sched, cells, slots);
      && (forall i :: 0 <= i < |slots| && !(job.lo <= i < job.hi) ==> b.slots[i] == slots[i])
      && (forall i :: job.lo <= i < job.hi ==> b.slots[i].Some?)
      && (b.abort <==> job.orc.policy == Abort && exists i ::
            job.lo <= i < job.hi && b.slots[i].value.outcomeKind in {KindFailed, KindHard, KindPhantom})
  {
    var b := Reached(job, sched, cells, slots);
    ReachableFlag(job, sched, cells, slots);
    ReachableSlots(job, sched, cells, slots);
    OtherSlotsStay(job, sched, cells, slots);
    forall i | job.lo <= i < job.hi ensures b.slots[i].Some? && Judged(job, b, i - job.lo) == b.slots[i] {
      assert SlotFollows(job, b, i - job.lo) && b.phases[i - job.lo].Finished?;
    }
    FlagOfJoined(job, b);
  }

  lemma FlagOfJoined(job: Job, b: State)
    requires Shape(job, b) && FlagFollows(job, b)
    requires forall i :: job.lo <= i < job.hi ==> b.slots[i].Some? && Judged(job, b, i - job.lo) == b.slots[i]
    ensures b.abort <==> job.orc.policy == Abort && exists i ::
      job.lo <= i < job.hi && b.slots[i].value.outcomeKind in {KindFailed, KindHard, KindPhantom}
  {
    if b.abort {
      var w :| 0 <= w < |b.phases| && JudgedTrips(job, b, w);
      assert Judged(job, b, job.lo + w - job.lo) == b.slots[job.lo + w];
    }
    if i :| job.lo <= i < job.hi && Trips(job.orc.policy, b.slots[i].value) {
      assert JudgedTrips(job, b, i - job.lo);
    }
  }

  // ------------------------------------------------------------------
  // Progress
  // ------------------------------------------------------------------

  /** The worker's next step is not a yield. */
  predicate Productive(job: Job, w: nat, b: State) {
    w < |b.phases| && !b.phases[w].Finished? && (b.phases[w].Spinning? ==> b.sem < Cap(job))
  }

  /** No deadlock: until the batch is joined, some worker can do more than yield. */
  lemma SomeoneCanMove(job: Job, b: State)
    requires Shape(job, b) && SemaphoreCounts(job, b) && !Joined(b)
    ensures exists w :: Productive(job, w, b)
  {
    if w :| 0 <= w < |b.phases| && InFlight(b.phases[w]) {
      assert Productive(job, w, b);
    } else {
      NobodyInFlight(b.phases);
      var w :| 0 <= w < |b.phases| && !b.phases[w].Finished?;
      assert Productive(job, w, b);
    }
  }

  /** An upper bound on the productive steps a worker has left. */
  function StepsLeft(job: Job, w: nat, p: Phase): nat
    requires ValidJob(job) && w < job.hi - job.lo
  {
    var steps := job.orc.executor.steps(Node(job, w).op);
    match p
    case Spinning => steps + 8
    case Probing(seen) => steps + 5 + (if |seen| < 2 then 2 - |seen| else 0)
    case Executing(k, _) => 4 + (if k < steps then steps - k else 0)
    case Returned(_) => 3
    case Checked(_) => 2
    case Stored => 1
    case Finished => 0
  }

  function Remaining(job: Job, phases: seq<Phase>, n: nat): nat
    requires ValidJob(job) && n <= |phases| == job.hi - job.lo
  {
    if n == 0 then 0 else Remaining(job, phases, n - 1) + StepsLeft(job, n - 1, phases[n - 1])
  }

  lemma {:induction false} RemainingUpdate(job: Job, phases: seq<Phase>, n: nat, w: nat, p: Phase)
    requires ValidJob(job) && n <= |phases| == job.hi - job.lo && w < |phases|
    ensures w < n ==>
      Remaining(job, phases[w := p], n) + StepsLeft(job, w, phases[w])
      == Remaining(job, phases, n) + StepsLeft(job, w, p)
    ensures n <= w ==> Remaining(job, phases[w := p], n) == Remaining(job, phases, n)
  {
    if n > 0 {
      RemainingUpdate(job, phases, n - 1, w, p);
    }
  }

  /** A measure falls on every step but a yield, and a yield changes nothing. */
  lemma StepsRunOut(job: Job, w: nat, b: State)
    requires Shape(job, b)
    ensures Productive(job, w, b) ==>
      Remaining(job, Step(job, w, b).phases, |b.phases|) < Remaining(job, b.phases, |b.phases|)
    ensures !Productive(job, w, b) ==> Step(job, w, b) == b
  {
    if w < |b.phases| {
      var p' := Advance(job, w, b).0;
      RemainingUpdate(job, b.phases, |b.phases|, w, p');
      if b.phases[w].Probing? {
        ProbesTouchedPaths(Node(job, w).op, b.phases[w].seen);
      }
      if !Productive(job, w, b) {
        assert b.phases[w := p'] == b.phases;
      }
    }
  }

  /** How many of the scheduler's picks did something. */
  ghost function Moves(job: Job, sched: seq<nat>, b: State): nat
    requires Shape(job, b)
  {
    if sched == [] then 0
    else
      var n := |sched| - 1;
      Moves(job, sched[..n], b) + (if Productive(job, sched[n], RunSchedule(job, sched[..n], b)) then 1 else 0)
  }

  /** No schedule, however long, moves a batch more often than the measure at launch. */
  lemma {:induction false} MovesBounded(job: Job, sched: seq<nat>, b: State)
    requires Shape(job, b)
    ensures Moves(job, sched, b) + Remaining(job, RunSchedule(job, sched, b).phases, |b.phases|)
         <= Remaining(job, b.phases, |b.phases|)
  {
    if sched != [] {
      var n := |sched| - 1;
      MovesBounded(job, sched[..n], b);
      StepsRunOut(job, sched[n], RunSchedule(job, sched[..n], b));
    }
  }

  // ------------------------------------------------------------------
  // A joined batch has done what the serial walk does
  // ------------------------------------------------------------------

  ghost predicate EvaluatesLocally(job: Job, eval: Evaluator)
    requires ValidJob(job)
  {
    Commute.Local(eval, TouchSets(job.nodes), job.lo, job.hi)
  }

  lemma EvaluatorIsLocal(job: Job, eval: Evaluator)
    requires ValidJob(job) && Evaluates(job, eval)
    ensures EvaluatesLocally(job, eval)
  {
    var ts := TouchSets(job.nodes);
    forall i, a, c | job.lo <= i < job.hi ensures Commute.LocalAt(eval, ts, i, a, c) {
      if Agree(a, c, ts[i]) {
        ExecuteOneLocal(job.orc, i, job.nodes[i], a, c);
      }
    }
  }

  /** What a joined batch is, without its workers. */
  ghost predicate Done(job: Job, eval: Evaluator, b: State, start: Cells, slots: Slots) {
    && Shape(job, b) && |slots| == |b.slots|
    && (forall i :: job.lo <= i < job.hi ==> DoneAt(job, eval, b, start, i))
    && RestUnchanged(job, b, start, slots)
    && (b.abort <==> exists i :: job.lo <= i < job.hi && Trips(job.orc.policy, eval(i, start).0))
  }

  ghost predicate DoneAt(job: Job, eval: Evaluator, b: State, start: Cells, i: nat)
    requires Shape(job, b) && job.lo <= i < job.hi
  {
    b.slots[i] == Some(eval(i, start).0) && Agree(b.cells, eval(i, start).1, TouchSets(job.nodes)[i])
  }

  lemma FinishedWorker(job: Job, eval: Evaluator, b: State, start: Cells, i: nat)
    requires Shape(job, b) && job.lo <= i < job.hi && b.phases[i - job.lo].Finished?
    requires Sound(job, eval, i - job.lo, b.phases[i - job.lo], b.slots[i], b.cells, start)
    ensures DoneAt(job, eval, b, start, i)
  {
  }

  lemma JoinedIsDone(job: Job, eval: Evaluator, b: State, start: Cells, slots: Slots)
    requires Inv(job, eval, b, start, slots) && Joined(b)
    ensures Done(job, eval, b, start, slots)
  {
    forall i | job.lo <= i < job.hi ensures DoneAt(job, eval, b, start, i) {
      var w := i - job.lo;
      assert Sound(job, eval, w, b.phases[w], b.slots[job.lo + w], b.cells, start);
      FinishedWorker(job, eval, b, start, i);
    }
    AbortDone(job, eval, b, start);
  }

  lemma AbortDone(job: Job, eval: Evaluator, b: State, start: Cells)
    requires Shape(job, b) && AbortMeans(job, eval, b, start) && Joined(b)
    ensures b.abort <==> exists i :: job.lo <= i < job.hi && Trips(job.orc.policy, eval(i, start).0)
  {
    if b.abort {
      var w :| 0 <= w < |b.phases| && Reported(b.phases[w]) && TripsAlone(job, eval, w, start);
      assert Trips(job.orc.policy, eval(job.lo + w, start).0);
    }
    if i :| job.lo <= i < job.hi && Trips(job.orc.policy, eval(i, start).0) {
      assert b.phases[i - job.lo].Finished?;
      assert Reported(b.phases[i - job.lo]) && TripsAlone(job, eval, i - job.lo, start);
    }
  }

  lemma AgreeThrough(a: Cells, b: Cells, c: Cells, keys: Keys)
    requires Agree(a, b, keys) && Agree(c, b, keys)
    ensures Agree(a, c, keys)
  {
    forall k | k in keys ensures SameAt(a, c, k) {
      assert SameAt(a, b, k) && SameAt(c, b, k);
    }
  }

  lemma SameCells(a: Cells, b: Cells)
    requires forall k :: SameAt(a, b, k)
    ensures a == b
  {
    forall k | k in a.Keys + b.Keys ensures k in a && k in b && a[k] == b[k] {
      assert SameAt(a, b, k);
    }
  }

  lemma DoneCells(job: Job, eval: Evaluator, b: State, cells: Cells, slots: Slots)
    requires ValidJob(job) && ConflictFree(job) && EvaluatesLocally(job, eval)
    requires Done(job, eval, b, Walk(eval, job.lo, cells).1, slots)
    ensures b.cells == Walk(eval, job.hi, cells).1
  {
    var ts, start := TouchSets(job.nodes), Walk(eval, job.lo, cells).1;
    var (records, c) := Walk(eval, job.hi, cells);
    Commute.WalkInside(eval, ts, job.lo, job.hi, job.hi, cells);
    forall k ensures SameAt(b.cells, c, k) {
      if i :| job.lo <= i < job.hi && k in ts[i] {
        assert DoneAt(job, eval, b, start, i);
        assert Commute.Alone(eval, ts, start, job.hi, records, c, i);
        AgreeThrough(b.cells, eval(i, start).1, c, ts[i]);
        assert SameAt(b.cells, c, k);
      } else {
        assert Commute.Outside(ts, job.lo, job.hi, k);
        assert Untouched(job, k);
        assert SameAt(b.cells, start, k) && SameAt(c, start, k);
      }
    }
    SameCells(b.cells, c);
  }

  /** For every schedule: a joined batch has the cells, the records and the abort verdict of
      the serial walk through its nodes. */
  lemma JoinedIsWalk(job: Job, eval: Evaluator, b: State, cells: Cells, slots: Slots)
    requires ValidJob(job) && ConflictFree(job) && EvaluatesLocally(job, eval)
    requires Done(job, eval, b, Walk(eval, job.lo, cells).1, slots)
    ensures b.cells == Walk(eval, job.hi, cells).1
    ensures forall i :: job.lo <= i < job.hi ==> b.slots[i] == Some(Walk(eval, job.hi, cells).0[i])
    ensures forall i :: 0 <= i < |slots| && !(job.lo <= i < job.hi) ==> b.slots[i] == slots[i]
    ensures b.abort <==>
      exists i :: job.lo <= i < job.hi && Trips(job.orc.policy, Walk(eval, job.hi, cells).0[i])
  {
    DoneCells(job, eval, b, cells, slots);
    var ts, start := TouchSets(job.nodes), Walk(eval, job.lo, cells).1;
    var (records, c) := Walk(eval, job.hi, cells);
    Commute.WalkInside(eval, ts, job.lo, job.hi, job.hi, cells);
    forall i | job.lo <= i < job.hi
      ensures b.slots[i] == Some(records[i]) && records[i] == eval(i, start).0
    {
      assert DoneAt(job, eval, b, start, i);
      assert Commute.Alone(eval, ts, start, job.hi, records, c, i);
    }
  }
}
