/** `group_by_cohort` and `run_parallel` (crates/shit-planner/src/orchestrator.rs): batches
    in plan order, each one joined before the next starts. */
module Parallel {
  import opened Plan
  import opened Cohort
  import opened Execute
  import opened Batch

  datatype Group = Group(cohort: nat, members: seq<nat>)

  // ------------------------------------------------------------------
  // Grouping
  // ------------------------------------------------------------------

  /** The first node of group `g`; of the plan's end, for the last group's successor. */
  function Start(groups: seq<Group>, g: nat): nat
    requires g <= |groups|
  {
    if g == 0 then 0 else Start(groups, g - 1) + |groups[g - 1].members|
  }

  /** Group `g` is a run of consecutive nodes with one label. */
  ghost predicate IsRun(lab: seq<nat>, groups: seq<Group>, g: nat)
    requires g < |groups|
  {
    RunAt(lab, Start(groups, g), groups[g])
  }

  ghost predicate RunAt(lab: seq<nat>, s: nat, group: Group) {
    && group.members != []
    && s + |group.members| <= |lab|
    && forall j :: 0 <= j < |group.members| ==> group.members[j] == s + j && lab[s + j] == group.cohort
  }

  /** The groups are the maximal runs of equal labels, in plan order, and cover the plan. */
  ghost predicate Partition(lab: seq<nat>, groups: seq<Group>) {
    && Start(groups, |groups|) == |lab|
    && (forall g :: 0 <= g < |groups| ==> IsRun(lab, groups, g))
    && (forall g :: 0 < g < |groups| ==> groups[g].cohort != groups[g - 1].cohort)
  }

  lemma {:induction false} StartIgnoresLater(a: seq<Group>, b: seq<Group>, g: nat)
    requires g <= |a| && g <= |b| && a[..g] == b[..g]
    ensures Start(a, g) == Start(b, g)
  {
    if g > 0 {
      assert a[..g - 1] == a[..g][..g - 1] == b[..g][..g - 1] == b[..g - 1];
      assert a[g - 1] == a[..g][g - 1] == b[..g][g - 1] == b[g - 1];
      StartIgnoresLater(a, b, g - 1);
    }
  }

  lemma {:induction false} StartMonotone(groups: seq<Group>, g: nat, h: nat)
    requires g <= h <= |groups|
    ensures Start(groups, g) <= Start(groups, h)
  {
    if g < h {
      StartMonotone(groups, g, h - 1);
    }
  }

  lemma {:induction false} StartShift(groups: seq<Group>, last: Group, g: nat)
    requires g <= |groups|
    ensures Start(groups + [last], g) == Start(groups, g)
  {
    assert (groups + [last])[..g] == groups[..g];
    StartIgnoresLater(groups + [last], groups, g);
  }

  /** Appending a run of `members` labelled `cohort` to a partition of `lab`. */
  lemma AppendRun(lab: seq<nat>, groups: seq<Group>, last: Group)
    requires Partition(lab, groups)
    requires last.members == seq(|last.members|, j => |lab| + j) && last.members != []
    requires groups != [] ==> groups[|groups| - 1].cohort != last.cohort
    ensures Partition(lab + seq(|last.members|, _ => last.cohort), groups + [last])
  {
    var lab', groups' := lab + seq(|last.members|, _ => last.cohort), groups + [last];
    StartShift(groups, last, |groups|);
    forall g | 0 <= g < |groups'| ensures IsRun(lab', groups', g) {
      StartShift(groups, last, g);
      if g < |groups| {
        assert IsRun(lab, groups, g);
        assert groups'[g] == groups[g];
        forall j | 0 <= j < |groups[g].members|
          ensures groups'[g].members[j] == Start(groups', g) + j && lab'[Start(groups', g) + j] == groups'[g].cohort
        {
          assert groups[g].members[j] == Start(groups, g) + j;
        }
      } else {
        forall j | 0 <= j < |last.members|
          ensures last.members[j] == |lab| + j && lab'[|lab| + j] == last.cohort
        {
        }
      }
    }
  }

  /** The last group of a partition can be cut off. */
  lemma CutRun(lab: seq<nat>, groups: seq<Group>)
    requires Partition(lab, groups) && groups != []
    ensures var front, last := groups[..|groups| - 1], groups[|groups| - 1];
            && |last.members| <= |lab|
            && Partition(lab[..|lab| - |last.members|], front)
            && last.members == seq(|last.members|, j => |lab| - |last.members| + j)
            && lab == lab[..|lab| - |last.members|] + seq(|last.members|, _ => last.cohort)
            && last.members != []
            && (front != [] ==> front[|front| - 1].cohort != last.cohort)
  {
    var n := |groups| - 1;
    var front, last := groups[..n], groups[n];
    assert groups == front + [last];
    assert IsRun(lab, groups, n);
    var m := |lab| - |last.members|;
    assert Start(groups, n) == m;
    forall j | 0 <= j < |last.members| ensures lab[m..][j] == last.cohort {
      assert last.members[j] == m + j;
    }
    assert lab[m..] == seq(|last.members|, _ => last.cohort);
    StartShift(front, last, n);
    forall g | 0 <= g < n ensures IsRun(lab[..m], front, g) {
      KeepRun(lab, front, last, g, m);
    }
  }

  lemma KeepRun(lab: seq<nat>, front: seq<Group>, last: Group, g: nat, m: nat)
    requires g < |front| && m <= |lab| && IsRun(lab, front + [last], g) && Start(front + [last], |front|) <= m
    ensures IsRun(lab[..m], front, g)
  {
    var groups := front + [last];
    StartShift(front, last, g);
    StartMonotone(groups, g + 1, |front|);
    assert front[g] == groups[g] && Start(groups, g + 1) == Start(groups, g) + |groups[g].members|;
    CutRunAt(lab, Start(groups, g), groups[g], m);
  }

  lemma CutRunAt(lab: seq<nat>, s: nat, group: Group, m: nat)
    requires RunAt(lab, s, group) && s + |group.members| <= m <= |lab|
    ensures RunAt(lab[..m], s, group)
  {
    forall j | 0 <= j < |group.members| ensures group.members[j] == s + j && lab[..m][s + j] == group.cohort {
      assert group.members[j] == s + j;
    }
  }

  lemma GrowLast(lab: seq<nat>, groups: seq<Group>)
    requires Partition(lab, groups) && groups != []
    ensures var last := groups[|groups| - 1];
            Partition(lab + [last.cohort], groups[..|groups| - 1] + [last.(members := last.members + [|lab|])])
  {
    CutRun(lab, groups);
    var front, last := groups[..|groups| - 1], groups[|groups| - 1];
    var k := |last.members|;
    var lab0 := lab[..|lab| - k];
    var grown := last.(members := last.members + [|lab|]);
    AppendRun(lab0, front, grown);
    assert lab0 + seq(k + 1, _ => last.cohort) == lab + [last.cohort];
  }

  lemma OpenNew(lab: seq<nat>, groups: seq<Group>, cohort: nat)
    requires Partition(lab, groups) && (groups != [] ==> groups[|groups| - 1].cohort != cohort)
    ensures Partition(lab + [cohort], groups + [Group(cohort, [|lab|])])
  {
    AppendRun(lab, groups, Group(cohort, [|lab|]));
    assert lab + seq(1, _ => cohort) == lab + [cohort];
  }

  method GroupByCohort(nodes: seq<PlanNode>) returns (groups: seq<Group>)
    ensures Partition(Labels(nodes), groups)
  {
    groups := [];
    var i := 0;
    while i < |nodes|
      invariant i <= |nodes|
      invariant Partition(Labels(nodes)[..i], groups)
    {
      ghost var lab := Labels(nodes)[..i];
      assert lab + [nodes[i].cohort] == Labels(nodes)[..i + 1];
      if groups != [] && groups[|groups| - 1].cohort == nodes[i].cohort {
        GrowLast(lab, groups);
        var last := groups[|groups| - 1];
        groups := groups[..|groups| - 1] + [last.(members := last.members + [i])];
      } else {
        OpenNew(lab, groups, nodes[i].cohort);
        groups := groups + [Group(nodes[i].cohort, [i])];
      }
      i := i + 1;
    }
    assert Labels(nodes)[..i] == Labels(nodes);
  }

  // ------------------------------------------------------------------
  // Batches of an assigned plan
  // ------------------------------------------------------------------

  function JobOf(orc: Orchestrator, nodes: seq<PlanNode>, groups: seq<Group>, maxParallel: nat, g: nat): Job
    requires g < |groups|
  {
    Job(orc, nodes, Start(groups, g), Start(groups, g + 1), maxParallel)
  }

  ghost predicate Grouped(nodes: seq<PlanNode>, groups: seq<Group>) {
    Partition(Labels(nodes), groups)
  }

  lemma JobValid(orc: Orchestrator, nodes: seq<PlanNode>, groups: seq<Group>, maxParallel: nat, g: nat)
    requires Grouped(nodes, groups) && g < |groups|
    ensures ValidJob(JobOf(orc, nodes, groups, maxParallel, g))
    ensures Start(groups, g) < Start(groups, g + 1)
  {
    assert IsRun(Labels(nodes), groups, g);
  }

  /** No two nodes of one group share a touch key. */
  ghost predicate BatchesConflictFree(nodes: seq<PlanNode>, groups: seq<Group>) {
    forall i, j, g :: 0 <= g < |groups| && i in groups[g].members && j in groups[g].members && i < j < |nodes| ==>
      TouchSet(nodes[i].op) !! TouchSet(nodes[j].op)
  }

  /** After `assign_cohorts`, every batch is conflict-free. */
  lemma AssignedBatchesConflictFree(nodes: seq<PlanNode>, groups: seq<Group>)
    requires FirstFit(TouchSets(nodes), Labels(nodes)) && Grouped(nodes, groups)
    ensures BatchesConflictFree(nodes, groups)
  {
    forall i, j, g | 0 <= g < |groups| && i in groups[g].members && j in groups[g].members && i < j < |nodes|
      ensures TouchSet(nodes[i].op) !! TouchSet(nodes[j].op)
    {
      assert IsRun(Labels(nodes), groups, g);
      SameCohortDisjoint(TouchSets(nodes), Labels(nodes), i, j);
    }
  }

  /** Clashing nodes keep their plan order across batches, whatever their cohort numbers: the
      earlier node's batch is joined before the later node's batch is launched. */
  lemma ClashesCrossBatchesInOrder(nodes: seq<PlanNode>, groups: seq<Group>, i: nat, j: nat, g: nat, h: nat)
    requires FirstFit(TouchSets(nodes), Labels(nodes)) && Grouped(nodes, groups)
    requires g < |groups| && h < |groups| && i in groups[g].members && j in groups[h].members
    requires i < j < |nodes| && Clash(TouchSets(nodes), i, j)
    ensures g < h && Start(groups, g + 1) <= Start(groups, h)
  {
    MemberRange(nodes, groups, i, g);
    MemberRange(nodes, groups, j, h);
    GroupsOrdered(groups, i, j, g, h);
    assert TouchSets(nodes)[i] !! TouchSets(nodes)[j] || Labels(nodes)[i] != Labels(nodes)[j] by {
      if Labels(nodes)[i] == Labels(nodes)[j] {
        SameCohortDisjoint(TouchSets(nodes), Labels(nodes), i, j);
      }
    }
  }

  lemma GroupsOrdered(groups: seq<Group>, i: nat, j: nat, g: nat, h: nat)
    requires g < |groups| && h < |groups| && i < j
    requires Start(groups, g) <= i && j < Start(groups, h + 1)
    ensures g <= h && (g < h ==> Start(groups, g + 1) <= Start(groups, h))
  {
    StartMonotone(groups, if g < h then g + 1 else h + 1, if g < h then h else if h < g then g else g + 1);
  }

  lemma MemberRange(nodes: seq<PlanNode>, groups: seq<Group>, i: nat, g: nat)
    requires Grouped(nodes, groups) && g < |groups| && i in groups[g].members
    ensures Start(groups, g) <= i < Start(groups, g + 1) <= |nodes|
    ensures nodes[i].cohort == groups[g].cohort
  {
    assert IsRun(Labels(nodes), groups, g);
  }

  lemma JobConflictFree(orc: Orchestrator, nodes: seq<PlanNode>, groups: seq<Group>, maxParallel: nat, g: nat)
    requires Grouped(nodes, groups) && BatchesConflictFree(nodes, groups) && g < |groups|
    ensures ValidJob(JobOf(orc, nodes, groups, maxParallel, g))
    ensures ConflictFree(JobOf(orc, nodes, groups, maxParallel, g))
  {
    JobValid(orc, nodes, groups, maxParallel, g);
    var lo, hi, ts := Start(groups, g), Start(groups, g + 1), TouchSets(nodes);
    forall i, j | lo <= i < hi && lo <= j < hi && i != j ensures ts[i] !! ts[j] {
      RangeMember(nodes, groups, i, g);
      RangeMember(nodes, groups, j, g);
      assert i < j ==> TouchSet(nodes[i].op) !! TouchSet(nodes[j].op);
      assert j < i ==> TouchSet(nodes[j].op) !! TouchSet(nodes[i].op);
    }
  }

  lemma RangeMember(nodes: seq<PlanNode>, groups: seq<Group>, i: nat, g: nat)
    requires Grouped(nodes, groups) && g < |groups| && Start(groups, g) <= i < Start(groups, g + 1)
    ensures i in groups[g].members && i < |nodes|
  {
    assert IsRun(Labels(nodes), groups, g);
    assert groups[g].members[i - Start(groups, g)] == i;
  }

  // ------------------------------------------------------------------
  // run_parallel
  // ------------------------------------------------------------------

  /** The records of the nodes that were attempted, in slot order. */
  function Flatten(slots: Slots): seq<ExecutionRecord> {
    if slots == [] then []
    else if slots[0].Some? then [slots[0].value] + Flatten(slots[1..])
    else Flatten(slots[1..])
  }

  datatype Outcome = Outcome(cells: Cells, slots: Slots, aborted: bool)

  /** Batches `g..` under the schedules `scheds`: run a batch to its join, stop if its abort
      flag is up, else go on. */
  ghost function ParallelFrom(orc: Orchestrator, nodes: seq<PlanNode>, groups: seq<Group>, maxParallel: nat,
                              g: nat, cells: Cells, slots: Slots, scheds: seq<seq<nat>>): Outcome
    requires Grouped(nodes, groups) && g <= |groups| == |scheds| && |slots| == |nodes|
    decreases |groups| - g
  {
    if g == |groups| then Outcome(cells, slots, false)
    else
      JobValid(orc, nodes, groups, maxParallel, g);
      var b := Reached(JobOf(orc, nodes, groups, maxParallel, g), scheds[g], cells, slots);
      if b.abort then Outcome(b.cells, b.slots, true)
      else ParallelFrom(orc, nodes, groups, maxParallel, g + 1, b.cells, b.slots, scheds)
  }

  /** Every batch that is launched runs until all of its workers have finished. */
  ghost predicate AllJoined(orc: Orchestrator, nodes: seq<PlanNode>, groups: seq<Group>, maxParallel: nat,
                            g: nat, cells: Cells, slots: Slots, scheds: seq<seq<nat>>)
    requires Grouped(nodes, groups) && g <= |groups| == |scheds| && |slots| == |nodes|
    decreases |groups| - g
  {
    g < |groups| ==>
      (JobValid(orc, nodes, groups, maxParallel, g);
       var b := Reached(JobOf(orc, nodes, groups, maxParallel, g), scheds[g], cells, slots);
       Joined(b) && (!b.abort ==> AllJoined(orc, nodes, groups, maxParallel, g + 1, b.cells, b.slots, scheds)))
  }

  ghost predicate TripsIn(policy: ConflictPolicy, records: seq<ExecutionRecord>, lo: nat, hi: nat) {
    exists i :: lo <= i < hi && i < |records| && Trips(policy, records[i])
  }

  /** The report of a parallel run that attempted the first `g` batches: the serial walk of
      their nodes, where only the last of them may hold a tripping record. */
  ghost predicate ParallelReport(eval: Evaluator, policy: ConflictPolicy, groups: seq<Group>, cells: Cells,
                                 records: seq<ExecutionRecord>, final: Cells, aborted: bool, g: nat) {
    && g <= |groups|
    && |records| == Start(groups, g)
    && (records, final) == Walk(eval, |records|, cells)
    && (if aborted then g > 0 && TripsIn(policy, records, Start(groups, g - 1), |records|) else g == |groups|)
    && !TripsIn(policy, records, 0, Start(groups, if aborted then g - 1 else g))
  }

  /** What holds before batch `g` is launched. */
  ghost predicate AtBatch(eval: Evaluator, policy: ConflictPolicy, groups: seq<Group>, start: Cells,
                          g: nat, cells: Cells, slots: Slots) {
    && g <= |groups|
    && var m := Start(groups, g);
    && m <= |slots|
    && cells == Walk(eval, m, start).1
    && (forall i :: 0 <= i < m ==> slots[i] == Some(Walk(eval, m, start).0[i]))
    && (forall i :: m <= i < |slots| ==> slots[i].None?)
    && !TripsIn(policy, Walk(eval, m, start).0, 0, m)
  }

  lemma {:induction false} FlattenFilled(slots: Slots, records: seq<ExecutionRecord>)
    requires |records| <= |slots|
    requires forall i :: 0 <= i < |records| ==> slots[i] == Some(records[i])
    requires forall i :: |records| <= i < |slots| ==> slots[i].None?
    ensures Flatten(slots) == records
  {
    if slots != [] {
      if records == [] {
        FlattenFilled(slots[1..], []);
      } else {
        FlattenFilled(slots[1..], records[1..]);
        assert [records[0]] + records[1..] == records;
      }
    }
  }

  /** Any schedule that joins batch `g` leaves it done. */
  lemma BatchDone(orc: Orchestrator, nodes: seq<PlanNode>, groups: seq<Group>, maxParallel: nat,
                  g: nat, cells: Cells, slots: Slots, sched: seq<nat>)
    requires Grouped(nodes, groups) && BatchesConflictFree(nodes, groups) && g < |groups|
    requires ValidJob(JobOf(orc, nodes, groups, maxParallel, g))
    requires Empty(JobOf(orc, nodes, groups, maxParallel, g), slots)
    requires Joined(Reached(JobOf(orc, nodes, groups, maxParallel, g), sched, cells, slots))
    ensures var job := JobOf(orc, nodes, groups, maxParallel, g);
            && ConflictFree(job)
            && EvaluatesLocally(job, EvaluatorOf(orc, nodes))
            && Done(job, EvaluatorOf(orc, nodes), Reached(job, sched, cells, slots), cells, slots)
  {
    var job, eval := JobOf(orc, nodes, groups, maxParallel, g), EvaluatorOf(orc, nodes);
    JobConflictFree(orc, nodes, groups, maxParallel, g);
    assert Evaluates(job, eval);
    EvaluatorIsLocal(job, eval);
    ReachableInv(job, eval, sched, cells, slots);
    JoinedIsDone(job, eval, Reached(job, sched, cells, slots), cells, slots);
  }

  /** A batch that is done leads to the next batch, or to an aborted report. */
  lemma NextBatch(eval: Evaluator, groups: seq<Group>, job: Job, start: Cells, g: nat, b: State, cells: Cells,
                  slots: Slots)
    requires AtBatch(eval, job.orc.policy, groups, start, g, cells, slots) && g < |groups| && |slots| == |job.nodes|
    requires ValidJob(job) && job.lo == Start(groups, g) && job.hi == Start(groups, g + 1)
    requires ConflictFree(job) && EvaluatesLocally(job, eval) && Done(job, eval, b, cells, slots)
    ensures b.abort ==> ParallelReport(eval, job.orc.policy, groups, start, Flatten(b.slots), b.cells, true, g + 1)
    ensures !b.abort ==> AtBatch(eval, job.orc.policy, groups, start, g + 1, b.cells, b.slots)
  {
    JoinedIsWalk(job, eval, b, start, slots);
    WalkPrefix(eval, job.lo, job.hi, start);
    var records := Walk(eval, job.hi, start).0;
    assert forall i :: 0 <= i < job.lo ==> records[i] == records[..job.lo][i] == Walk(eval, job.lo, start).0[i];
    assert b.abort <==> TripsIn(job.orc.policy, records, job.lo, job.hi);
    assert !TripsIn(job.orc.policy, records, 0, job.lo);
    FlattenFilled(b.slots, records);
  }

  lemma BatchAdvances(orc: Orchestrator, nodes: seq<PlanNode>, groups: seq<Group>, maxParallel: nat,
                      start: Cells, g: nat, cells: Cells, slots: Slots, sched: seq<nat>, b: State)
    requires Grouped(nodes, groups) && BatchesConflictFree(nodes, groups) && g < |groups| && |slots| == |nodes|
    requires AtBatch(EvaluatorOf(orc, nodes), orc.policy, groups, start, g, cells, slots)
    requires ValidJob(JobOf(orc, nodes, groups, maxParallel, g))
    requires b == Reached(JobOf(orc, nodes, groups, maxParallel, g), sched, cells, slots) && Joined(b)
    ensures b.abort ==>
      ParallelReport(EvaluatorOf(orc, nodes), orc.policy, groups, start, Flatten(b.slots), b.cells, true, g + 1)
    ensures !b.abort ==> AtBatch(EvaluatorOf(orc, nodes), orc.policy, groups, start, g + 1, b.cells, b.slots)
  {
    BatchDone(orc, nodes, groups, maxParallel, g, cells, slots, sched);
    NextBatch(EvaluatorOf(orc, nodes), groups, JobOf(orc, nodes, groups, maxParallel, g), start, g, b, cells, slots);
  }

  /** One batch of a parallel run, and what is left of the run after it. */
  lemma OneBatch(orc: Orchestrator, nodes: seq<PlanNode>, groups: seq<Group>, maxParallel: nat,
                 g: nat, cells: Cells, slots: Slots, scheds: seq<seq<nat>>) returns (b: State)
    requires Grouped(nodes, groups) && g < |groups| == |scheds| && |slots| == |nodes|
    requires AllJoined(orc, nodes, groups, maxParallel, g, cells, slots, scheds)
    ensures ValidJob(JobOf(orc, nodes, groups, maxParallel, g))
    ensures b == Reached(JobOf(orc, nodes, groups, maxParallel, g), scheds[g], cells, slots) && Joined(b)
    ensures |b.slots| == |nodes|
    ensures !b.abort ==> AllJoined(orc, nodes, groups, maxParallel, g + 1, b.cells, b.slots, scheds)
    ensures ParallelFrom(orc, nodes, groups, maxParallel, g, cells, slots, scheds) ==
      if b.abort then Outcome(b.cells, b.slots, true)
      else ParallelFrom(orc, nodes, groups, maxParallel, g + 1, b.cells, b.slots, scheds)
  {
    JobValid(orc, nodes, groups, maxParallel, g);
    b := Reached(JobOf(orc, nodes, groups, maxParallel, g), scheds[g], cells, slots);
  }

  lemma AllBatchesReport(eval: Evaluator, policy: ConflictPolicy, groups: seq<Group>, start: Cells,
                         final: Cells, slots: Slots)
    requires AtBatch(eval, policy, groups, start, |groups|, final, slots) && Start(groups, |groups|) == |slots|
    ensures ParallelReport(eval, policy, groups, start, Flatten(slots), final, false, |groups|)
  {
    FlattenFilled(slots, Walk(eval, |slots|, start).0);
  }

  /** What is known before a batch is launched, and of a report that stopped after some batches. */
  type BatchPoint = (nat, Cells, Slots) -> bool
  type BatchReport = (Outcome, nat) -> bool

  /** Joining batch `g` leads from what is known before it to what is known before the next one, or, with the
      flag up, to the report. */
  ghost predicate LeadsOn(at: BatchPoint, report: BatchReport, orc: Orchestrator, nodes: seq<PlanNode>,
                          groups: seq<Group>, maxParallel: nat, g: nat, cells: Cells, slots: Slots, sched: seq<nat>)
    requires Grouped(nodes, groups)
  {
    g < |groups| && |slots| == |nodes| && at(g, cells, slots) ==>
      (JobValid(orc, nodes, groups, maxParallel, g);
       var b := Reached(JobOf(orc, nodes, groups, maxParallel, g), sched, cells, slots);
       Joined(b) ==>
         if b.abort then report(Outcome(b.cells, b.slots, true), g + 1) else at(g + 1, b.cells, b.slots))
  }

  ghost predicate EachLeadsOn(at: BatchPoint, report: BatchReport, orc: Orchestrator, nodes: seq<PlanNode>,
                              groups: seq<Group>, maxParallel: nat)
    requires Grouped(nodes, groups)
  {
    && (forall g: nat, cells, slots, sched ::
          LeadsOn(at, report, orc, nodes, groups, maxParallel, g, cells, slots, sched))
    && (forall cells, slots :: at(|groups|, cells, slots) ==> report(Outcome(cells, slots, false), |groups|))
  }

  /** What every batch keeps holds of the whole run, under every choice of schedules. */
  lemma {:induction false} BatchesLead(at: BatchPoint, report: BatchReport, orc: Orchestrator, nodes: seq<PlanNode>,
                                       groups: seq<Group>, maxParallel: nat, g: nat, cells: Cells, slots: Slots,
                                       scheds: seq<seq<nat>>)
    returns (stop: nat)
    requires Grouped(nodes, groups) && EachLeadsOn(at, report, orc, nodes, groups, maxParallel)
    requires g <= |groups| == |scheds| && |slots| == |nodes| && at(g, cells, slots)
    requires AllJoined(orc, nodes, groups, maxParallel, g, cells, slots, scheds)
    ensures report(ParallelFrom(orc, nodes, groups, maxParallel, g, cells, slots, scheds), stop)
    decreases |groups| - g
  {
    if g == |groups| {
      stop := g;
    } else {
      var b := OneBatch(orc, nodes, groups, maxParallel, g, cells, slots, scheds);
      assert LeadsOn(at, report, orc, nodes, groups, maxParallel, g, cells, slots, scheds[g]);
      if b.abort {
        stop := g + 1;
      } else {
        stop := BatchesLead(at, report, orc, nodes, groups, maxParallel, g + 1, b.cells, b.slots, scheds);
      }
    }
  }

  ghost function WalkPoint(eval: Evaluator, policy: ConflictPolicy, groups: seq<Group>, start: Cells,
                           n: nat): BatchPoint {
    (g: nat, cells: Cells, slots: Slots) =>
      |slots| == n && AtBatch(eval, policy, groups, start, g, cells, slots)
  }

  ghost function WalkReport(eval: Evaluator, policy: ConflictPolicy, groups: seq<Group>, start: Cells): BatchReport {
    (out: Outcome, stop: nat) =>
      ParallelReport(eval, policy, groups, start, Flatten(out.slots), out.cells, out.aborted, stop)
  }

  lemma WalkLeadsOnAt(orc: Orchestrator, nodes: seq<PlanNode>, groups: seq<Group>, maxParallel: nat, start: Cells,
                      g: nat, cells: Cells, slots: Slots, sched: seq<nat>)
    requires Grouped(nodes, groups) && BatchesConflictFree(nodes, groups)
    ensures var eval := EvaluatorOf(orc, nodes);
      LeadsOn(WalkPoint(eval, orc.policy, groups, start, |nodes|), WalkReport(eval, orc.policy, groups, start),
              orc, nodes, groups, maxParallel, g, cells, slots, sched)
  {
    var at := WalkPoint(EvaluatorOf(orc, nodes), orc.policy, groups, start, |nodes|);
    if g < |groups| && |slots| == |nodes| && at(g, cells, slots) {
      JobValid(orc, nodes, groups, maxParallel, g);
      var b := Reached(JobOf(orc, nodes, groups, maxParallel, g), sched, cells, slots);
      if Joined(b) {
        BatchAdvances(orc, nodes, groups, maxParallel, start, g, cells, slots, sched, b);
      }
    }
  }

  lemma WalkEnds(eval: Evaluator, policy: ConflictPolicy, groups: seq<Group>, start: Cells, cells: Cells, slots: Slots)
    requires WalkPoint(eval, policy, groups, start, Start(groups, |groups|))(|groups|, cells, slots)
    ensures WalkReport(eval, policy, groups, start)(Outcome(cells, slots, false), |groups|)
  {
    AllBatchesReport(eval, policy, groups, start, cells, slots);
  }

  /** A conflict-free batch leads along the serial walk. */
  lemma WalkLeadsOn(orc: Orchestrator, nodes: seq<PlanNode>, groups: seq<Group>, maxParallel: nat, start: Cells,
                    at: BatchPoint, report: BatchReport)
    requires Grouped(nodes, groups) && BatchesConflictFree(nodes, groups)
    requires at == WalkPoint(EvaluatorOf(orc, nodes), orc.policy, groups, start, |nodes|)
    requires report == WalkReport(EvaluatorOf(orc, nodes), orc.policy, groups, start)
    ensures EachLeadsOn(at, report, orc, nodes, groups, maxParallel)
  {
    forall g: nat, cells, slots, sched
      ensures LeadsOn(at, report, orc, nodes, groups, maxParallel, g, cells, slots, sched)
    {
      WalkLeadsOnAt(orc, nodes, groups, maxParallel, start, g, cells, slots, sched);
    }
    forall cells, slots | at(|groups|, cells, slots) ensures report(Outcome(cells, slots, false), |groups|) {
      WalkEnds(EvaluatorOf(orc, nodes), orc.policy, groups, start, cells, slots);
    }
  }

  /** For every plan whose batches are conflict-free, every thread cap and every schedule of
      every batch, `run_parallel` reports the serial walk of the attempted batches. */
  lemma ParallelIsWalk(orc: Orchestrator, nodes: seq<PlanNode>, groups: seq<Group>, maxParallel: nat, cells: Cells,
                       scheds: seq<seq<nat>>)
    returns (stop: nat)
    requires Grouped(nodes, groups) && BatchesConflictFree(nodes, groups) && |groups| == |scheds|
    requires AllJoined(orc, nodes, groups, maxParallel, 0, cells, NoRecords(|nodes|), scheds)
    ensures var out := ParallelFrom(orc, nodes, groups, maxParallel, 0, cells, NoRecords(|nodes|), scheds);
            ParallelReport(EvaluatorOf(orc, nodes), orc.policy, groups, cells,
                           Flatten(out.slots), out.cells, out.aborted, stop)
  {
    var eval := EvaluatorOf(orc, nodes);
    var at, report := WalkPoint(eval, orc.policy, groups, cells, |nodes|), WalkReport(eval, orc.policy, groups, cells);
    WalkLeadsOn(orc, nodes, groups, maxParallel, cells, at, report);
    stop := BatchesLead(at, report, orc, nodes, groups, maxParallel, 0, cells, NoRecords(|nodes|), scheds);
  }

  /** Reports compared: the serial records are a prefix of the parallel ones, cut inside the
      last attempted batch; without an abort the two reports and the two final states are equal. */
  lemma ReportsAgree(eval: Evaluator, policy: ConflictPolicy, n: nat, groups: seq<Group>, cells: Cells,
                     serial: seq<ExecutionRecord>, sfinal: Cells,
                     parallel: seq<ExecutionRecord>, pfinal: Cells, aborted: bool, g: nat)
    requires SerialReport(eval, policy, n, cells, serial, sfinal)
    requires ParallelReport(eval, policy, groups, cells, parallel, pfinal, aborted, g)
    requires Start(groups, |groups|) == n
    ensures serial <= parallel
    ensures !aborted ==> serial == parallel && sfinal == pfinal
    ensures aborted ==> Start(groups, g - 1) < |serial| && Trips(policy, serial[|serial| - 1])
    ensures aborted <==> TripsIn(policy, serial, 0, |serial|)
  {
    var s, p := |serial|, |parallel|;
    var m := if s < p then p else s;
    StartMonotone(groups, g, |groups|);
    WalkPrefix(eval, s, m, cells);
    WalkPrefix(eval, p, m, cells);
    var all := Walk(eval, m, cells).0;
    assert forall k :: 0 <= k < s ==> serial[k] == all[..s][k] == all[k];
    assert forall k :: 0 <= k < p ==> parallel[k] == all[..p][k] == all[k];
    if aborted {
      var i :| Start(groups, g - 1) <= i < p && Trips(policy, parallel[i]);
      assert i < s ==> serial[i] == parallel[i];
    }
  }

  function NoRecords(n: nat): Slots {
    seq(n, _ => None)
  }

  /** Parallel equals serial. For every plan after `assign_cohorts`, every thread cap, every
      executor, probe answer and policy, and every interleaving of every batch: if nothing trips,
      the final cells and the records are those of `run`; under Abort, `run`'s records are a
      prefix of the parallel ones, which cover whole batches up to and including the first one
      that holds a tripping record. */
  lemma ParallelEqualsSerial(orc: Orchestrator, nodes: seq<PlanNode>, groups: seq<Group>, maxParallel: nat,
                             cells: Cells, scheds: seq<seq<nat>>, serial: seq<ExecutionRecord>, sfinal: Cells)
    returns (g: nat)
    requires FirstFit(TouchSets(nodes), Labels(nodes)) && Grouped(nodes, groups) && |scheds| == |groups|
    requires AllJoined(orc, nodes, groups, maxParallel, 0, cells, NoRecords(|nodes|), scheds)
    requires SerialReport(EvaluatorOf(orc, nodes), orc.policy, |nodes|, cells, serial, sfinal)
    ensures var out := ParallelFrom(orc, nodes, groups, maxParallel, 0, cells, NoRecords(|nodes|), scheds);
            var records := Flatten(out.slots);
            && serial <= records
            && (!out.aborted ==> records == serial && out.cells == sfinal)
            && (out.aborted <==> TripsIn(orc.policy, serial, 0, |serial|))
            && g <= |groups| && |records| == Start(groups, g) <= |nodes|
            && (out.aborted ==> 0 < g && Start(groups, g - 1) < |serial|)
            && (forall k :: 0 <= k < |records| ==> records[k].opIndex == k && records[k].op == nodes[k].op)
  {
    var eval := EvaluatorOf(orc, nodes);
    AssignedBatchesConflictFree(nodes, groups);
    g := ParallelIsWalk(orc, nodes, groups, maxParallel, cells, scheds);
    var out := ParallelFrom(orc, nodes, groups, maxParallel, 0, cells, NoRecords(|nodes|), scheds);
    ReportsAgree(eval, orc.policy, |nodes|, groups, cells, serial, sfinal,
                 Flatten(out.slots), out.cells, out.aborted, g);
    StartMonotone(groups, g, |groups|);
    WalkNumbers(orc, nodes, |Flatten(out.slots)|, cells);
  }

  // ------------------------------------------------------------------
  // The loops
  // ------------------------------------------------------------------

  /** Launches a batch and joins it. Which worker moves next is left to the scheduler. */
  method RunBatch(job: Job, cells: Cells, slots: Slots) returns (b: State, ghost sched: seq<nat>)
    requires ValidJob(job) && |slots| == |job.nodes|
    ensures b == Reached(job, sched, cells, slots) && Joined(b)
  {
    b, sched := Launch(job, cells, slots), [];
    while exists w :: 0 <= w < |b.phases| && !b.phases[w].Finished?
      invariant Shape(job, b) && b == Reached(job, sched, cells, slots)
      decreases Remaining(job, b.phases, |b.phases|)
    {
      ReachableSemaphore(job, sched, cells, slots);
      SomeoneCanMove(job, b);
      var w: nat :| w < |b.phases| && Productive(job, w, b);
      StepsRunOut(job, w, b);
      assert (sched + [w])[..|sched|] == sched;
      b, sched := Step(job, w, b), sched + [w];
    }
  }

  /** What a parallel run may report: whole batches of the serial walk, and so the serial run's own
      report wherever nothing trips. */
  ghost predicate ReportsLikeRun(eval: Evaluator, policy: ConflictPolicy, nodes: seq<PlanNode>, cells: Cells,
                                 records: seq<ExecutionRecord>, final: Cells, aborted: bool) {
    && (exists groups, stop ::
      Grouped(nodes, groups) && ParallelReport(eval, policy, groups, cells, records, final, aborted, stop))
    && (forall serial, sfinal :: SerialReport(eval, policy, |nodes|, cells, serial, sfinal) ==>
      serial <= records && (!aborted ==> records == serial && final == sfinal))
  }

  lemma WholeBatchesReport(eval: Evaluator, policy: ConflictPolicy, nodes: seq<PlanNode>, groups: seq<Group>,
                           cells: Cells,
                           records: seq<ExecutionRecord>, final: Cells, aborted: bool, stop: nat)
    requires Grouped(nodes, groups) && ParallelReport(eval, policy, groups, cells, records, final, aborted, stop)
    ensures ReportsLikeRun(eval, policy, nodes, cells, records, final, aborted)
  {
    forall serial, sfinal | SerialReport(eval, policy, |nodes|, cells, serial, sfinal)
      ensures serial <= records && (!aborted ==> records == serial && final == sfinal)
    {
      ReportsAgree(eval, policy, |nodes|, groups, cells, serial, sfinal, records, final, aborted, stop);
    }
  }

  /** What holds of the slots once the first `stop` batches have been joined, whatever the labels: they are
      filled, and only the last of them may hold a tripping record, which is what raised the flag. */
  ghost predicate Attempted(policy: ConflictPolicy, groups: seq<Group>, stop: nat, slots: Slots, aborted: bool) {
    && stop <= |groups| && Start(groups, stop) <= |slots|
    && (forall i :: 0 <= i < Start(groups, stop) ==> slots[i].Some?)
    && (forall i :: Start(groups, stop) <= i < |slots| ==> slots[i].None?)
    && (if aborted then stop > 0 && SlotTrips(policy, slots, Start(groups, stop - 1), Start(groups, stop)) else true)
    && !SlotTrips(policy, slots, 0, if aborted then Start(groups, stop - 1) else Start(groups, stop))
  }

  ghost predicate SlotTrips(policy: ConflictPolicy, slots: Slots, lo: nat, hi: nat) {
    exists i :: lo <= i < hi && i < |slots| && slots[i].Some? && Trips(policy, slots[i].value)
  }

  lemma NextAttempted(orc: Orchestrator, nodes: seq<PlanNode>, groups: seq<Group>, maxParallel: nat,
                      g: nat, cells: Cells, slots: Slots, sched: seq<nat>, b: State)
    requires Grouped(nodes, groups) && g < |groups| && |slots| == |nodes|
    requires ValidJob(JobOf(orc, nodes, groups, maxParallel, g))
    requires b == Reached(JobOf(orc, nodes, groups, maxParallel, g), sched, cells, slots) && Joined(b)
    requires Attempted(orc.policy, groups, g, slots, false)
    ensures Attempted(orc.policy, groups, g + 1, b.slots, b.abort)
  {
    var job := JobOf(orc, nodes, groups, maxParallel, g);
    JoinedFlag(job, sched, cells, slots);
    assert !SlotTrips(orc.policy, b.slots, 0, job.lo) by {
      forall i | 0 <= i < job.lo ensures !Trips(orc.policy, b.slots[i].value) {
        assert b.slots[i] == slots[i];
      }
    }
    if i :| job.lo <= i < job.hi && Trips(orc.policy, b.slots[i].value) {
      assert SlotTrips(orc.policy, b.slots, job.lo, job.hi);
    }
  }

  /** Why a run stopped, said of the nodes' labels and the records' kinds: it aborts exactly if the policy is
      Abort and some record is a failure or a hard or phantom conflict; every such record is of the last
      batch that was attempted; whole batches were attempted, and all of them unless it aborts. */
  ghost predicate StopExplained(nodes: seq<PlanNode>, policy: ConflictPolicy, records: seq<ExecutionRecord>,
                                aborted: bool) {
    && |records| <= |nodes|
    && (aborted <==> policy == Abort && exists k ::
          0 <= k < |records| && records[k].outcomeKind in {KindFailed, KindHard, KindPhantom})
    && (aborted ==> forall j, k ::
          0 <= k <= j < |records| && records[k].outcomeKind in {KindFailed, KindHard, KindPhantom} ==>
          nodes[j].cohort == nodes[k].cohort)
    && (|records| < |nodes| ==>
          aborted && nodes[|records|].cohort != nodes[|records| - 1].cohort)
  }

  lemma AttemptedExplains(nodes: seq<PlanNode>, policy: ConflictPolicy, groups: seq<Group>, stop: nat, slots: Slots,
                          aborted: bool)
    requires Grouped(nodes, groups) && |slots| == |nodes| && Attempted(policy, groups, stop, slots, aborted)
    requires !aborted ==> stop == |groups|
    ensures StopExplained(nodes, policy, Flatten(slots), aborted)
  {
    var m := Start(groups, stop);
    var records := seq(m, i requires 0 <= i < m => slots[i].value);
    FlattenFilled(slots, records);
    assert forall k :: 0 <= k < m ==> records[k] == slots[k].value;
    if aborted {
      var i :| Start(groups, stop - 1) <= i < m && slots[i].Some? && Trips(policy, slots[i].value);
      assert Trips(policy, records[i]);
      LastBatchOnly(nodes, policy, groups, stop, records);
    }
    ExplainedBy(nodes, policy, records, aborted);
  }

  lemma LastBatchOnly(nodes: seq<PlanNode>, policy: ConflictPolicy, groups: seq<Group>, stop: nat,
                      records: seq<ExecutionRecord>)
    requires Grouped(nodes, groups) && 0 < stop <= |groups| && |records| == Start(groups, stop)
    requires forall k :: 0 <= k < |records| && Trips(policy, records[k]) ==> Start(groups, stop - 1) <= k
    ensures 0 < |records| <= |nodes|
    ensures forall j, k :: 0 <= k <= j < |records| && Trips(policy, records[k]) ==> nodes[j].cohort == nodes[k].cohort
    ensures |records| < |nodes| ==> nodes[|records|].cohort != nodes[|records| - 1].cohort
  {
    SameGroup(nodes, groups, stop - 1, Start(groups, stop - 1));
    StartMonotone(groups, stop, |groups|);
    forall j, k | 0 <= k <= j < |records| && Trips(policy, records[k]) ensures nodes[j].cohort == nodes[k].cohort {
      SameGroup(nodes, groups, stop - 1, j);
      SameGroup(nodes, groups, stop - 1, k);
    }
    if stop < |groups| {
      NextGroup(nodes, groups, stop);
    }
  }

  lemma ExplainedBy(nodes: seq<PlanNode>, policy: ConflictPolicy, records: seq<ExecutionRecord>, aborted: bool)
    requires |records| <= |nodes| && (aborted <==> TripsIn(policy, records, 0, |records|))
    requires aborted ==> forall j, k :: 0 <= k <= j < |records| && Trips(policy, records[k]) ==>
      nodes[j].cohort == nodes[k].cohort
    requires |records| < |nodes| ==>
      aborted && |records| > 0 && nodes[|records|].cohort != nodes[|records| - 1].cohort
    ensures StopExplained(nodes, policy, records, aborted)
  {
  }

  lemma SameGroup(nodes: seq<PlanNode>, groups: seq<Group>, g: nat, j: nat)
    requires Grouped(nodes, groups) && g < |groups| && Start(groups, g) <= j
    requires j < Start(groups, g + 1) || j == Start(groups, g)
    ensures j < |nodes| && nodes[j].cohort == groups[g].cohort
  {
    assert IsRun(Labels(nodes), groups, g);
    RangeMember(nodes, groups, j, g);
    MemberRange(nodes, groups, j, g);
  }

  lemma NextGroup(nodes: seq<PlanNode>, groups: seq<Group>, g: nat)
    requires Grouped(nodes, groups) && 0 < g < |groups|
    ensures 0 < Start(groups, g) < |nodes|
    ensures nodes[Start(groups, g)].cohort != nodes[Start(groups, g) - 1].cohort
  {
    assert IsRun(Labels(nodes), groups, g - 1) && IsRun(Labels(nodes), groups, g);
    SameGroup(nodes, groups, g, Start(groups, g));
    SameGroup(nodes, groups, g - 1, Start(groups, g) - 1);
  }

  ghost function AttemptPoint(policy: ConflictPolicy, groups: seq<Group>, n: nat): BatchPoint {
    (g: nat, cells: Cells, slots: Slots) => |slots| == n && Attempted(policy, groups, g, slots, false)
  }

  ghost function AttemptReport(policy: ConflictPolicy, groups: seq<Group>, n: nat): BatchReport {
    (out: Outcome, stop: nat) =>
      && |out.slots| == n && Attempted(policy, groups, stop, out.slots, out.aborted)
      && (!out.aborted ==> stop == |groups|)
  }

  lemma AttemptLeadsOn(orc: Orchestrator, nodes: seq<PlanNode>, groups: seq<Group>, maxParallel: nat)
    requires Grouped(nodes, groups)
    ensures EachLeadsOn(AttemptPoint(orc.policy, groups, |nodes|), AttemptReport(orc.policy, groups, |nodes|),
                        orc, nodes, groups, maxParallel)
  {
    var at, report := AttemptPoint(orc.policy, groups, |nodes|), AttemptReport(orc.policy, groups, |nodes|);
    forall g: nat, cells, slots, sched
      ensures LeadsOn(at, report, orc, nodes, groups, maxParallel, g, cells, slots, sched)
    {
      if g < |groups| && |slots| == |nodes| && at(g, cells, slots) {
        JobValid(orc, nodes, groups, maxParallel, g);
        var b := Reached(JobOf(orc, nodes, groups, maxParallel, g), sched, cells, slots);
        if Joined(b) {
          NextAttempted(orc, nodes, groups, maxParallel, g, cells, slots, sched, b);
        }
      }
    }
  }

  ghost function BothPoints(a: BatchPoint, b: BatchPoint): BatchPoint {
    (g: nat, cells: Cells, slots: Slots) => a(g, cells, slots) && b(g, cells, slots)
  }

  ghost function BothReports(a: BatchReport, b: BatchReport): BatchReport {
    (out: Outcome, stop: nat) => a(out, stop) && b(out, stop)
  }

  lemma BothLeadOn(a: BatchPoint, r: BatchReport, b: BatchPoint, q: BatchReport, orc: Orchestrator,
                   nodes: seq<PlanNode>, groups: seq<Group>, maxParallel: nat)
    requires Grouped(nodes, groups)
    requires EachLeadsOn(a, r, orc, nodes, groups, maxParallel) && EachLeadsOn(b, q, orc, nodes, groups, maxParallel)
    ensures EachLeadsOn(BothPoints(a, b), BothReports(r, q), orc, nodes, groups, maxParallel)
  {
    forall g: nat, cells, slots, sched
      ensures LeadsOn(BothPoints(a, b), BothReports(r, q), orc, nodes, groups, maxParallel, g, cells, slots, sched)
    {
      assert LeadsOn(a, r, orc, nodes, groups, maxParallel, g, cells, slots, sched);
      assert LeadsOn(b, q, orc, nodes, groups, maxParallel, g, cells, slots, sched);
    }
  }

  /** What a run is known by: always why it stopped, and after cohort assignment also the serial walk. */
  lemma KnownBy(orc: Orchestrator, nodes: seq<PlanNode>, groups: seq<Group>, maxParallel: nat, cells: Cells)
    returns (at: BatchPoint, report: BatchReport)
    requires Grouped(nodes, groups)
    ensures EachLeadsOn(at, report, orc, nodes, groups, maxParallel) && at(0, cells, NoRecords(|nodes|))
    ensures forall out, stop :: report(out, stop) ==> StopExplained(nodes, orc.policy, Flatten(out.slots), out.aborted)
    ensures FirstFit(TouchSets(nodes), Labels(nodes)) ==>
      forall out, stop :: report(out, stop) ==>
        ReportsLikeRun(EvaluatorOf(orc, nodes), orc.policy, nodes, cells, Flatten(out.slots), out.cells, out.aborted)
  {
    var eval := EvaluatorOf(orc, nodes);
    at, report := AttemptPoint(orc.policy, groups, |nodes|), AttemptReport(orc.policy, groups, |nodes|);
    AttemptLeadsOn(orc, nodes, groups, maxParallel);
    forall out, stop | report(out, stop) ensures StopExplained(nodes, orc.policy, Flatten(out.slots), out.aborted) {
      AttemptedExplains(nodes, orc.policy, groups, stop, out.slots, out.aborted);
    }
    if FirstFit(TouchSets(nodes), Labels(nodes)) {
      var walk := WalkReport(eval, orc.policy, groups, cells);
      AssignedBatchesConflictFree(nodes, groups);
      var point := WalkPoint(eval, orc.policy, groups, cells, |nodes|);
      WalkLeadsOn(orc, nodes, groups, maxParallel, cells, point, walk);
      BothLeadOn(at, report, point, walk, orc, nodes, groups, maxParallel);
      at := BothPoints(at, point);
      report := BothReports(report, walk);
      forall out, stop | report(out, stop)
        ensures ReportsLikeRun(eval, orc.policy, nodes, cells, Flatten(out.slots), out.cells, out.aborted)
      {
        WholeBatchesReport(eval, orc.policy, nodes, groups, cells, Flatten(out.slots), out.cells, out.aborted, stop);
      }
    }
  }

  /** `run_parallel`. On a plan from `assign_cohorts` its report is a serial walk of whole
      batches, whatever the scheduler did. */
  method RunParallel(orc: Orchestrator, nodes: seq<PlanNode>, maxParallel: nat, cells: Cells)
    returns (records: seq<ExecutionRecord>, final: Cells, aborted: bool)
    ensures FirstFit(TouchSets(nodes), Labels(nodes)) ==>
      ReportsLikeRun(EvaluatorOf(orc, nodes), orc.policy, nodes, cells, records, final, aborted)
    ensures StopExplained(nodes, orc.policy, records, aborted)
  {
    var batches := GroupByCohort(nodes);
    ghost var at, report := KnownBy(orc, nodes, batches, maxParallel, cells);
    var out, stop := RunBatches(orc, nodes, batches, maxParallel, cells, at, report);
    records, final, aborted := Flatten(out.slots), out.cells, out.aborted;
  }

  /** The loop over the batches, for whatever every batch keeps. */
  method RunBatches(orc: Orchestrator, nodes: seq<PlanNode>, batches: seq<Group>, maxParallel: nat, cells: Cells,
                    ghost at: BatchPoint, ghost report: BatchReport)
    returns (out: Outcome, ghost stop: nat)
    requires Grouped(nodes, batches) && EachLeadsOn(at, report, orc, nodes, batches, maxParallel)
    requires at(0, cells, NoRecords(|nodes|))
    ensures |out.slots| == |nodes| && report(out, stop)
  {
    out := Outcome(cells, NoRecords(|nodes|), false);
    var g := 0;
    while g < |batches|
      invariant g <= |batches| && |out.slots| == |nodes| && !out.aborted && at(g, out.cells, out.slots)
    {
      JobValid(orc, nodes, batches, maxParallel, g);
      var b, sched := RunBatch(JobOf(orc, nodes, batches, maxParallel, g), out.cells, out.slots);
      assert LeadsOn(at, report, orc, nodes, batches, maxParallel, g, out.cells, out.slots, sched);
      out := Outcome(b.cells, b.slots, b.abort);
      g := g + 1;
      if b.abort {
        break;
      }
    }
    stop := g;
  }
}
