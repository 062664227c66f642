/** The forward planner (crates/shit-planner/src/plan_forward.rs): events in time order, shim
    captures paired with helper events, one emission per event, cohorts at the end. */
module Forward {
  import opened Plan
  import opened Cohort
  import opened Execute
  import opened Pairing
  import EnvDiff
  import Metadata

  datatype TimePoint = TimePoint(logical: nat, wallclock: nat)

  /** A captured change to the directory tree. */
  datatype TreeOp =
    | Created(path: Path, kind: FileKind, mode: nat)
    | Unlinked(path: Path)
    | Renamed(from: Path, to: Path)
    | Linked(source: InodeRef, target: Path)
    | Symlinked(target: string, path: Path)
    | SymlinkRemoved(target: string, path: Path)

  /** The file and environment arms are modelled; `OtherEvent` stands for the remaining tiers with
      whatever they push. */
  datatype EventKind =
    | ShimFlags(inode: InodeRef, path: Path, meta: FileMetadata)
    | PreImage(path: Path)
    | MetadataChange(inode: InodeRef, path: Path, before: FileMetadata, after: FileMetadata)
    | AppendPreStash(path: Path)
    | TreeChange(op: TreeOp)
    | EnvChange(diff: EnvDiff.Diff)
    | OtherEvent(nodes: seq<PlanNode>, notes: seq<string>)

  datatype CaptureEvent = CaptureEvent(id: nat, ts: TimePoint, partial: bool, kind: EventKind)

  datatype PlanWarning =
    | PartialEvents(dropped: nat)
    | UnclosedCommand
    | CannotRedoFlags(path: Path)
    | CannotRedoWrite(path: Path)
    | CannotRedoAppend(path: Path)
    | Informational(message: string)

  predicate OnlyFlagsChanged(a: FileMetadata, b: FileMetadata) {
    a.flags != b.flags && a == b.(flags := a.flags)
  }

  function MarkOf(ev: CaptureEvent): Mark {
    match ev.kind
    case ShimFlags(inode, _, meta) => Shim(Key(inode, meta.flags))
    case MetadataChange(inode, _, before, after) =>
      if OnlyFlagsChanged(before, after) then Helper(Key(inode, before.flags)) else Neither
    case _ => Neither
  }

  function Marks(events: seq<CaptureEvent>): (marks: seq<Mark>)
    ensures |marks| == |events|
  {
    seq(|events|, i requires 0 <= i < |events| => MarkOf(events[i]))
  }

  function Ids(events: seq<CaptureEvent>): (ids: seq<nat>)
    ensures |ids| == |events|
  {
    seq(|events|, i requires 0 <= i < |events| => events[i].id)
  }

  // ------------------------------------------------------------------
  // paired_flags_shim_events
  // ------------------------------------------------------------------

  function Lookup(pending: map<Key, seq<nat>>, key: Key): seq<nat> {
    if key in pending then pending[key] else []
  }

  /** The loop's table holds each key's stack of ids after `n` events. */
  ghost predicate Tracks(pending: map<Key, seq<nat>>, marks: seq<Mark>, ids: seq<nat>, n: nat) {
    n <= |marks| == |ids| && forall key :: Lookup(pending, key) == IdStack(marks, ids, n, key)
  }

  lemma TracksStep(pending: map<Key, seq<nat>>, marks: seq<Mark>, ids: seq<nat>, n: nat, pending': map<Key, seq<nat>>)
    requires Tracks(pending, marks, ids, n) && n < |marks|
    requires match marks[n]
             case Shim(key) => pending' == pending[key := Lookup(pending, key) + [ids[n]]]
             case Helper(key) =>
               var stack := Lookup(pending, key);
               pending' == if stack == [] then pending else pending[key := stack[..|stack| - 1]]
             case Neither => pending' == pending
    ensures Tracks(pending', marks, ids, n + 1)
  {
    forall key ensures Lookup(pending', key) == IdStack(marks, ids, n + 1, key) {
      assert Lookup(pending, key) == IdStack(marks, ids, n, key);
    }
  }

  /** Events `s` and `h` saw one chflags call: the shim before it and the helper after it, on the same inode,
      where the flags and nothing else changed, from what the shim captured. */
  ghost predicate SameCall(events: seq<CaptureEvent>, h: nat, s: nat) {
    && s < h < |events|
    && events[s].kind.ShimFlags? && events[h].kind.MetadataChange?
    && events[s].kind.inode == events[h].kind.inode
    && var before, after := events[h].kind.before, events[h].kind.after;
    && events[s].kind.meta.flags == before.flags && before.flags != after.flags
    && before.mode == after.mode && before.uid == after.uid && before.gid == after.gid
    && before.size == after.size && before.mtimeNanos == after.mtimeNanos
    && before.xattrs == after.xattrs && before.acl == after.acl
  }

  /** `f` assigns helper captures to earlier shim captures of the same call, no shim twice. */
  ghost predicate PairsCalls(events: seq<CaptureEvent>, f: map<nat, nat>) {
    && (forall h :: h in f ==> SameCall(events, h, f[h]))
    && (forall h, h' :: h in f && h' in f && h != h' ==> f[h] != f[h'])
  }

  /** Shim `s` may go to helper `h`: no earlier helper has it. */
  ghost predicate Available(events: seq<CaptureEvent>, g: map<nat, nat>, h: nat, s: nat) {
    SameCall(events, h, s) && forall h' :: h' in g && h' < h ==> g[h'] != s
  }

  /** Helper `h` has the latest shim available to it, and none only if none is. */
  ghost predicate HasLatest(events: seq<CaptureEvent>, g: map<nat, nat>, h: nat) {
    if h in g then Available(events, g, h, g[h]) && forall s :: Available(events, g, h, s) ==> s <= g[h]
    else forall s :: !Available(events, g, h, s)
  }

  /** `g` pairs helpers with shims, each helper in turn with the latest shim available to it, and no other
      pairing has more pairs. */
  ghost predicate PairsBest(events: seq<CaptureEvent>, g: map<nat, nat>) {
    && PairsCalls(events, g)
    && (forall h: nat :: h < |events| ==> HasLatest(events, g, h))
    && (forall f :: PairsCalls(events, f) ==> |f| <= |g|)
  }

  /** The marks carry what the pairing needs. */
  lemma SameCallMarked(events: seq<CaptureEvent>, h: nat, s: nat)
    ensures SameCall(events, h, s) <==> Pairs(Marks(events), h, s)
  {
  }

  lemma PairsCallsMarked(events: seq<CaptureEvent>, f: map<nat, nat>)
    ensures PairsCalls(events, f) <==> Matching(Marks(events), f)
  {
    forall h | h in f ensures SameCall(events, h, f[h]) <==> Pairs(Marks(events), h, f[h]) {
      SameCallMarked(events, h, f[h]);
    }
  }

  ghost function Paired(events: seq<CaptureEvent>): map<nat, nat> {
    Taken(Marks(events))
  }

  lemma PairedHasLatest(events: seq<CaptureEvent>, h: nat)
    requires h < |events|
    ensures HasLatest(events, Paired(events), h)
  {
    var marks, g := Marks(events), Paired(events);
    forall s: nat ensures Available(events, g, h, s) <==> AvailableMark(marks, h, s) {
      SameCallMarked(events, h, s);
      AvailableIff(events, h, s);
    }
    LatestMark(marks, h);
  }

  lemma AvailableIff(events: seq<CaptureEvent>, h: nat, s: nat)
    requires h < |events|
    ensures Available(events, Paired(events), h, s) <==> AvailableMark(Marks(events), h, s)
  {
    var marks, g := Marks(events), Paired(events);
    SameCallMarked(events, h, s);
    if h' :| h' in g && h' < h && g[h'] == s {
      assert Partner(marks, h') == Some(s);
    }
    if h': nat :| h' < h && Partner(marks, h') == Some(s) {
      assert h' in g && g[h'] == s;
    }
  }

  lemma PairedIsBest(events: seq<CaptureEvent>)
    ensures PairsBest(events, Paired(events))
  {
    TakenIsMatching(Marks(events));
    PairsCallsMarked(events, Paired(events));
    forall h: nat | h < |events| ensures HasLatest(events, Paired(events), h) {
      PairedHasLatest(events, h);
    }
    forall f | PairsCalls(events, f) ensures |f| <= |Paired(events)| {
      PairsCallsMarked(events, f);
      GreedyIsMaximum(Marks(events), f);
    }
  }

  /** Collected are the ids of exactly the shims that the best pairing has. */
  method PairedFlagsShimEvents(events: seq<CaptureEvent>) returns (paired: set<nat>)
    ensures paired == IdsPaired(Marks(events), Ids(events), |events|)
    ensures PairsBest(events, Paired(events))
    ensures forall id :: id in paired <==> exists h :: TakesId(Ids(events), Paired(events), h, id)
  {
    paired := CollectPaired(events);
    PairedIsBest(events);
    forall id ensures id in paired <==> exists h :: TakesId(Ids(events), Paired(events), h, id) {
      CollectedAreTaken(Marks(events), Ids(events), id);
    }
  }

  /** The loop over the pending stacks. */
  method CollectPaired(events: seq<CaptureEvent>) returns (paired: set<nat>)
    ensures paired == IdsPaired(Marks(events), Ids(events), |events|)
  {
    var pending: map<Key, seq<nat>> := map[];
    paired := {};
    var n := 0;
    while n < |events|
      invariant n <= |events|
      invariant Tracks(pending, Marks(events), Ids(events), n)
      invariant paired == IdsPaired(Marks(events), Ids(events), n)
    {
      pending, paired := TakeMark(MarkOf(events[n]), events[n].id, pending, paired, Marks(events), Ids(events), n);
      n := n + 1;
    }
  }

  /** One event: a shim is put on its key's stack, a helper takes the top of its own. */
  method TakeMark(mark: Mark, id: nat, pending: map<Key, seq<nat>>, paired: set<nat>, ghost marks: seq<Mark>,
                  ghost ids: seq<nat>, ghost n: nat)
    returns (pending': map<Key, seq<nat>>, paired': set<nat>)
    requires n < |marks| == |ids| && marks[n] == mark && ids[n] == id
    requires Tracks(pending, marks, ids, n) && paired == IdsPaired(marks, ids, n)
    ensures Tracks(pending', marks, ids, n + 1) && paired' == IdsPaired(marks, ids, n + 1)
  {
    pending', paired' := pending, paired;
    match mark {
      case Shim(key) =>
        pending' := pending[key := Lookup(pending, key) + [id]];
      case Helper(key) =>
        var stack := Lookup(pending, key);
        assert stack == IdStack(marks, ids, n, key);
        if stack != [] {
          paired' := paired + {stack[|stack| - 1]};
          pending' := pending[key := stack[..|stack| - 1]];
        }
      case Neither =>
    }
    TracksStep(pending, marks, ids, n, pending');
  }

  // ------------------------------------------------------------------
  // Time order
  // ------------------------------------------------------------------

  /** The sort key is the time point and then the event id. */
  predicate Before(a: CaptureEvent, b: CaptureEvent) {
    if a.ts.logical != b.ts.logical then a.ts.logical < b.ts.logical
    else if a.ts.wallclock != b.ts.wallclock then a.ts.wallclock < b.ts.wallclock
    else a.id < b.id
  }

  function InsertEvent(ev: CaptureEvent, events: seq<CaptureEvent>): seq<CaptureEvent> {
    if events == [] then [ev]
    else if Before(events[0], ev) then [events[0]] + InsertEvent(ev, events[1..])
    else [ev] + events
  }

  /** The non-partial events, stably sorted. */
  function Timeline(events: seq<CaptureEvent>): seq<CaptureEvent> {
    if events == [] then []
    else if events[0].partial then Timeline(events[1..])
    else InsertEvent(events[0], Timeline(events[1..]))
  }

  ghost predicate InTime(events: seq<CaptureEvent>) {
    forall i, j :: 0 <= i < j < |events| ==> !Before(events[j], events[i])
  }

  lemma NotBeforeTransitive(a: CaptureEvent, b: CaptureEvent, c: CaptureEvent)
    requires !Before(b, a) && !Before(c, b)
    ensures !Before(c, a)
  {
  }

  lemma InTimeCons(ev: CaptureEvent, events: seq<CaptureEvent>)
    requires InTime(events) && forall e :: e in events ==> !Before(e, ev)
    ensures InTime([ev] + events)
  {
    var all := [ev] + events;
    forall i, j | 0 <= i < j < |all| ensures !Before(all[j], all[i]) {
      assert all[j] == events[j - 1] && events[j - 1] in events;
      assert i > 0 ==> all[i] == events[i - 1];
    }
  }

  lemma {:induction false} InsertEventAdds(ev: CaptureEvent, events: seq<CaptureEvent>)
    ensures multiset(InsertEvent(ev, events)) == multiset(events) + multiset{ev}
  {
    if events != [] {
      assert events == [events[0]] + events[1..];
      InsertEventAdds(ev, events[1..]);
    }
  }

  lemma {:induction false} InsertEventSorts(ev: CaptureEvent, events: seq<CaptureEvent>)
    requires InTime(events)
    ensures InTime(InsertEvent(ev, events))
  {
    if events != [] {
      if Before(events[0], ev) {
        var rest := InsertEvent(ev, events[1..]);
        InsertEventSorts(ev, events[1..]);
        InsertEventAdds(ev, events[1..]);
        forall e | e in rest ensures !Before(e, events[0]) {
          assert e in multiset(rest);
          assert e == ev || e in events[1..];
        }
        InTimeCons(events[0], rest);
      } else {
        forall e | e in events ensures !Before(e, ev) {
          var i :| 0 <= i < |events| && events[i] == e;
          assert !Before(events[i], events[0]);
          NotBeforeTransitive(ev, events[0], e);
        }
        InTimeCons(ev, events);
      }
    }
  }

  lemma {:induction false} TimelineSorts(events: seq<CaptureEvent>)
    ensures InTime(Timeline(events))
    ensures forall e :: multiset(Timeline(events))[e] == if e.partial then 0 else multiset(events)[e]
  {
    if events != [] {
      assert events == [events[0]] + events[1..];
      TimelineSorts(events[1..]);
      if !events[0].partial {
        InsertEventSorts(events[0], Timeline(events[1..]));
        InsertEventAdds(events[0], Timeline(events[1..]));
      }
    }
  }

  ghost predicate DistinctIds(events: seq<CaptureEvent>) {
    forall a, b :: a in events && b in events && a.id == b.id ==> a == b
  }

  lemma HeadFirst(events: seq<CaptureEvent>, e: CaptureEvent)
    requires InTime(events) && events != [] && e in multiset(events)
    ensures !Before(e, events[0])
  {
    var i :| 0 <= i < |events| && events[i] == e;
  }

  lemma {:induction false} InTimeUnique(a: seq<CaptureEvent>, b: seq<CaptureEvent>)
    requires InTime(a) && InTime(b) && multiset(a) == multiset(b) && DistinctIds(a)
    ensures a == b
  {
    assert |a| == |multiset(a)| == |multiset(b)| == |b|;
    if a != [] {
      HeadsEqual(a, b);
      TailDrops(a);
      TailDrops(b);
      InTimeUnique(a[1..], b[1..]);
      assert a == [a[0]] + a[1..] && b == [b[0]] + b[1..];
    }
  }

  lemma HeadsEqual(a: seq<CaptureEvent>, b: seq<CaptureEvent>)
    requires InTime(a) && InTime(b) && multiset(a) == multiset(b) && DistinctIds(a) && a != [] && b != []
    ensures a[0] == b[0]
  {
    assert b[0] in multiset(b) && a[0] in multiset(a);
    HeadFirst(a, b[0]);
    HeadFirst(b, a[0]);
    assert a[0] in a && b[0] in a;
    assert a[0].id == b[0].id;
  }

  lemma TailDrops(events: seq<CaptureEvent>)
    requires events != []
    ensures multiset(events[1..]) == multiset(events) - multiset{events[0]}
  {
    assert events == [events[0]] + events[1..];
  }

  lemma SameLiveEvents(a: seq<CaptureEvent>, b: seq<CaptureEvent>)
    requires multiset(a) == multiset(b)
    ensures multiset(Timeline(a)) == multiset(Timeline(b))
  {
    TimelineSorts(a);
    TimelineSorts(b);
    forall e ensures multiset(Timeline(a))[e] == multiset(Timeline(b))[e] {
    }
  }

  lemma LiveIsCaptured(events: seq<CaptureEvent>, e: CaptureEvent)
    requires e in Timeline(events)
    ensures e in events
  {
    TimelineSorts(events);
    assert multiset(Timeline(events))[e] > 0;
    assert e in multiset(events);
  }

  lemma LiveIdsDistinct(events: seq<CaptureEvent>)
    requires DistinctIds(events)
    ensures DistinctIds(Timeline(events))
  {
    forall x, y | x in Timeline(events) && y in Timeline(events) && x.id == y.id ensures x == y {
      LiveIsCaptured(events, x);
      LiveIsCaptured(events, y);
    }
  }

  /** The timeline does not depend on the order in which the events were read. */
  lemma TimelineIgnoresArrival(a: seq<CaptureEvent>, b: seq<CaptureEvent>)
    requires multiset(a) == multiset(b) && DistinctIds(a)
    ensures Timeline(a) == Timeline(b)
  {
    TimelineSorts(a);
    TimelineSorts(b);
    SameLiveEvents(a, b);
    LiveIdsDistinct(a);
    InTimeUnique(Timeline(a), Timeline(b));
  }

  // ------------------------------------------------------------------
  // Emission
  // ------------------------------------------------------------------

  type Probe = Path -> Option<ProbeStat>

  function FileConflict(path: Path, probe: Probe): Option<Conflict> {
    if probe(path).None? then Some(Missing(path + " no longer present at redo time")) else None
  }

  function PhantomIfExists(path: Path, probe: Probe): Option<Conflict> {
    if probe(path).Some? then Some(Phantom(path + " already exists at redo time")) else None
  }

  function MissingIfGone(path: Path, probe: Probe): Option<Conflict> {
    if probe(path).None? then Some(Missing(path + " missing at redo time")) else None
  }

  /** The node that re-applies a tree change; a hard link is not redone. */
  function RedoTree(op: TreeOp, probe: Probe): seq<PlanNode> {
    match op
    case Created(path, kind, mode) => [PlanNode(RecreatePath(path, kind, mode), 0, PhantomIfExists(path, probe))]
    case Unlinked(path) => [PlanNode(Unlink(path), 0, MissingIfGone(path, probe))]
    case Renamed(from, to) => [PlanNode(Rename(from, to), 0, MissingIfGone(from, probe))]
    case Linked(_, _) => []
    case Symlinked(target, path) => [PlanNode(CreateSymlink(target, path), 0, PhantomIfExists(path, probe))]
    case SymlinkRemoved(_, path) => [PlanNode(Unlink(path), 0, MissingIfGone(path, probe))]
  }

  datatype Emission = Emission(nodes: seq<PlanNode>, warnings: seq<PlanWarning>)

  function AsNodes(ops: seq<InverseOp>): seq<PlanNode> {
    seq(|ops|, i requires 0 <= i < |ops| => PlanNode(ops[i], 0, None))
  }

  function AsNotes(notes: seq<string>): seq<PlanWarning> {
    seq(|notes|, i requires 0 <= i < |notes| => Informational(notes[i]))
  }

  /** What one event contributes to a redo plan, given the operations of its environment change. */
  function EmitWith(ev: CaptureEvent, probe: Probe, paired: set<nat>, envOps: seq<InverseOp>): Emission {
    match ev.kind
    case ShimFlags(_, path, _) => Emission([], if ev.id in paired then [] else [CannotRedoFlags(path)])
    case PreImage(path) => Emission([], [CannotRedoWrite(path)])
    case MetadataChange(inode, path, before, after) =>
      Emission(
        [PlanNode(
           if OnlyFlagsChanged(before, after) then RestoreFlags(inode, path, after.flags)
           else RestoreMetadata(inode, path, after),
           0, FileConflict(path, probe))],
        [])
    case AppendPreStash(path) => Emission([], [CannotRedoAppend(path)])
    case TreeChange(op) => Emission(RedoTree(op, probe), [])
    case EnvChange(_) => Emission(AsNodes(envOps), [])
    case OtherEvent(nodes, notes) => Emission(nodes, AsNotes(notes))
  }

  ghost function Emit(ev: CaptureEvent, probe: Probe, paired: set<nat>): Emission {
    EmitWith(ev, probe, paired, if ev.kind.EnvChange? then EnvDiff.EnvOps(ev.kind.diff) else [])
  }

  /** A file's metadata after a metadata operation, unless the platform cannot do it. */
  function Retouched(p: Metadata.Platform, route: Metadata.Route, op: InverseOp,
                     was: FileMetadata): Option<FileMetadata> {
    match op
    case RestoreFlags(_, _, flags) => if p.hasFlags then Some(was.(flags := flags)) else None
    case RestoreMetadata(_, _, target) => Some(Metadata.Restored(p, route, target, was))
    case _ => Some(was)
  }

  /** A metadata change is redone by one node on that path and inode, held back exactly when the path is
      gone. */
  lemma RedoIsOneNode(ev: CaptureEvent, probe: Probe, paired: set<nat>)
    requires ev.kind.MetadataChange?
    ensures var e := Emit(ev, probe, paired);
      && |e.nodes| == 1 && e.warnings == []
      && TouchSet(e.nodes[0].op) == {PathKey(ev.kind.path), InodeKey(ev.kind.inode)}
      && (e.nodes[0].conflict.Some? <==> probe(ev.kind.path).None?)
  {
    var op := Emit(ev, probe, paired).nodes[0].op;
    assert Touches(op) == [PathKey(ev.kind.path), InodeKey(ev.kind.inode)];
  }

  /** Run on the captured file, the node takes it from its state before to its state after if and only if
      flags alone changed and the platform has them, or what no restore changes did not change. */
  lemma RedoReachesAfterIff(ev: CaptureEvent, probe: Probe, paired: set<nat>, p: Metadata.Platform,
                            route: Metadata.Route)
    requires ev.kind.MetadataChange?
    ensures |Emit(ev, probe, paired).nodes| == 1
    ensures Retouched(p, route, Emit(ev, probe, paired).nodes[0].op, ev.kind.before) == Some(ev.kind.after) <==>
      if OnlyFlagsChanged(ev.kind.before, ev.kind.after) then p.hasFlags
      else Metadata.Restorable(p, route, ev.kind.after, ev.kind.before)
  {
    Metadata.RestoredIff(p, route, ev.kind.after, ev.kind.before);
  }

  /** What the planner does not look at: the inode behind a path whose flags are set, a directory that may
      stand where one is made again, and the target of a rename. */
  predicate LooksPast(op: InverseOp, probe: Probe) {
    match op
    case RestoreFlags(inode, path, _) => probe(path).Some? && probe(path).value.inode != inode
    case RecreatePath(path, kind, _) =>
      probe(path).Some? && kind == Directory && KindFromMode(probe(path).value.meta.mode) == Some(Directory)
    case Rename(from, to) => probe(from).Some? && probe(to).Some?
    case _ => false
  }

  lemma ForeseenOnTree(op: TreeOp, probe: Probe, node: PlanNode)
    requires node in RedoTree(op, probe)
    ensures (node.conflict.Some? <==> PreconditionConflict(probe, node.op).Some?) <==> !LooksPast(node.op, probe)
    ensures node.conflict.Some? ==> node.conflict.value.Missing? || node.conflict.value.Phantom?
    ensures node.conflict.Some? && PreconditionConflict(probe, node.op).Some? ==>
      (node.conflict.value.Missing? <==> PreconditionConflict(probe, node.op).value.Missing?)
  {
  }

  /** A file node is planned with a conflict exactly when running it on the same files would find one, but
      for what the planner does not look at. */
  lemma ConflictForeseenIff(ev: CaptureEvent, probe: Probe, paired: set<nat>, node: PlanNode)
    requires (ev.kind.MetadataChange? || ev.kind.TreeChange?) && node in Emit(ev, probe, paired).nodes
    ensures (node.conflict.Some? <==> PreconditionConflict(probe, node.op).Some?) <==> !LooksPast(node.op, probe)
    ensures node.conflict.Some? ==> node.conflict.value.Missing? || node.conflict.value.Phantom?
    ensures node.conflict.Some? && PreconditionConflict(probe, node.op).Some? ==>
      (node.conflict.value.Missing? <==> PreconditionConflict(probe, node.op).value.Missing?)
  {
    if ev.kind.TreeChange? {
      assert node in RedoTree(ev.kind.op, probe);
      ForeseenOnTree(ev.kind.op, probe, node);
    }
  }

  /** No event is passed over in silence but a paired shim, a hard link and an environment change that changed
      nothing; content that cannot be written again is named in a warning. */
  lemma PassedOverIff(ev: CaptureEvent, probe: Probe, paired: set<nat>)
    ensures !ev.kind.OtherEvent? ==> (Emit(ev, probe, paired) == Emission([], []) <==>
      || (ev.kind.ShimFlags? && ev.id in paired)
      || (ev.kind.TreeChange? && ev.kind.op.Linked?)
      || (ev.kind.EnvChange? && EnvDiff.EnvOps(ev.kind.diff) == []))
    ensures ev.kind.PreImage? ==> Emit(ev, probe, paired).warnings == [CannotRedoWrite(ev.kind.path)]
    ensures ev.kind.AppendPreStash? ==> Emit(ev, probe, paired).warnings == [CannotRedoAppend(ev.kind.path)]
    ensures ev.kind.OtherEvent? ==> Emit(ev, probe, paired).nodes == ev.kind.nodes
    ensures ev.kind.EnvChange? ==>
      var nodes, ops := Emit(ev, probe, paired).nodes, EnvDiff.EnvOps(ev.kind.diff);
      |nodes| == |ops| && forall i :: 0 <= i < |ops| ==> nodes[i].op == ops[i] && nodes[i].conflict.None?
  {
    if ev.kind.EnvChange? {
      assert |Emit(ev, probe, paired).nodes| == |EnvDiff.EnvOps(ev.kind.diff)|;
    }
  }

  ghost function EmitUpTo(live: seq<CaptureEvent>, n: nat, probe: Probe, paired: set<nat>): Emission
    requires n <= |live|
  {
    if n == 0 then Emission([], [])
    else
      var front, last := EmitUpTo(live, n - 1, probe, paired), Emit(live[n - 1], probe, paired);
      Emission(front.nodes + last.nodes, front.warnings + last.warnings)
  }

  lemma {:induction false} EmitGrows(live: seq<CaptureEvent>, i: nat, n: nat, probe: Probe, paired: set<nat>)
    requires i <= n <= |live|
    ensures EmitUpTo(live, i, probe, paired).nodes <= EmitUpTo(live, n, probe, paired).nodes
  {
    if i < n {
      EmitGrows(live, i, n - 1, probe, paired);
    }
  }

  ghost predicate StandsAt(plan: seq<PlanNode>, nodes: seq<PlanNode>, p: nat) {
    p + |nodes| <= |plan| && plan[p..p + |nodes|] == nodes
  }

  /** The plan's nodes for event `i` stand where those of the events before it end. */
  lemma EmittedAt(live: seq<CaptureEvent>, i: nat, probe: Probe, paired: set<nat>) returns (p: nat)
    requires i < |live|
    ensures p == |EmitUpTo(live, i, probe, paired).nodes|
    ensures p + |Emit(live[i], probe, paired).nodes| == |EmitUpTo(live, i + 1, probe, paired).nodes|
    ensures StandsAt(EmitUpTo(live, |live|, probe, paired).nodes, Emit(live[i], probe, paired).nodes, p)
  {
    p := |EmitUpTo(live, i, probe, paired).nodes|;
    EmitGrows(live, i + 1, |live|, probe, paired);
    PartStands(EmitUpTo(live, i, probe, paired).nodes, Emit(live[i], probe, paired).nodes,
               EmitUpTo(live, |live|, probe, paired).nodes);
  }

  lemma PartStands(front: seq<PlanNode>, mine: seq<PlanNode>, plan: seq<PlanNode>)
    requires front + mine <= plan
    ensures StandsAt(plan, mine, |front|)
  {
    assert plan[|front|..|front| + |mine|] == (front + mine)[|front|..];
  }

  /** Lesser logical time; between equal ones the wall clock decides, and then the id. */
  ghost predicate Earlier(a: CaptureEvent, b: CaptureEvent) {
    || a.ts.logical < b.ts.logical
    || (a.ts.logical == b.ts.logical && a.ts.wallclock < b.ts.wallclock)
    || (a.ts.logical == b.ts.logical && a.ts.wallclock == b.ts.wallclock && a.id < b.id)
  }

  lemma EarlierIsBefore(live: seq<CaptureEvent>, i: nat, j: nat)
    requires InTime(live) && i < |live| && j < |live| && Earlier(live[i], live[j])
    ensures i < j
  {
    assert Before(live[i], live[j]) && !Before(live[j], live[i]);
  }

  /** Of two live events the earlier one comes first in the plan, with all of its nodes. */
  lemma EarlierFirst(events: seq<CaptureEvent>, i: nat, j: nat, probe: Probe, paired: set<nat>)
    returns (p: nat, q: nat)
    requires i < |Timeline(events)| && j < |Timeline(events)| && Earlier(Timeline(events)[i], Timeline(events)[j])
    ensures var live := Timeline(events);
      var plan := EmitUpTo(live, |live|, probe, paired).nodes;
      var mine, yours := Emit(live[i], probe, paired).nodes, Emit(live[j], probe, paired).nodes;
      StandsAt(plan, mine, p) && StandsAt(plan, yours, q) && p + |mine| <= q
  {
    var live := Timeline(events);
    TimelineSorts(events);
    EarlierIsBefore(live, i, j);
    p := EmittedAt(live, i, probe, paired);
    q := EmittedAt(live, j, probe, paired);
    EmitGrows(live, i + 1, j, probe, paired);
  }

  method EmitForward(ev: CaptureEvent, probe: Probe, paired: set<nat>)
    returns (nodes: seq<PlanNode>, warnings: seq<PlanWarning>)
    ensures Emission(nodes, warnings) == Emit(ev, probe, paired)
  {
    var envOps: seq<InverseOp> := [];
    if ev.kind.EnvChange? {
      envOps := EnvDiff.PlanEnv(ev.kind.diff);
    }
    var e := EmitWith(ev, probe, paired, envOps);
    nodes, warnings := e.nodes, e.warnings;
  }

  ghost function PairedOf(live: seq<CaptureEvent>): set<nat> {
    IdsPaired(Marks(live), Ids(live), |live|)
  }

  function CountPartial(events: seq<CaptureEvent>): nat {
    if events == [] then 0 else (if events[0].partial then 1 else 0) + CountPartial(events[1..])
  }

  /** The warnings that come before any event's. */
  function Preamble(events: seq<CaptureEvent>, closed: bool): seq<PlanWarning> {
    (if CountPartial(events) > 0 then [PartialEvents(CountPartial(events))] else [])
    + (if closed then [] else [UnclosedCommand])
  }

  lemma {:induction false} InsertEventCounts(ev: CaptureEvent, events: seq<CaptureEvent>)
    ensures |InsertEvent(ev, events)| == |events| + 1
  {
    if events != [] {
      InsertEventCounts(ev, events[1..]);
    }
  }

  /** Partial events are those the timeline drops. */
  lemma {:induction false} DroppedArePartial(events: seq<CaptureEvent>)
    ensures CountPartial(events) + |Timeline(events)| == |events|
  {
    if events != [] {
      DroppedArePartial(events[1..]);
      InsertEventCounts(events[0], Timeline(events[1..]));
    }
  }

  /** A plan tells first how many events it had to drop, if any, and whether the command was still running. */
  lemma PreambleTells(events: seq<CaptureEvent>, closed: bool, n: nat)
    ensures PartialEvents(n) in Preamble(events, closed) <==> n > 0 && n == |events| - |Timeline(events)|
    ensures UnclosedCommand in Preamble(events, closed) <==> !closed
    ensures |Preamble(events, closed)| <= 2
  {
    DroppedArePartial(events);
  }

  /** The loop over the live events. */
  method EmitEach(live: seq<CaptureEvent>, probe: Probe, paired: set<nat>)
    returns (nodes: seq<PlanNode>, warnings: seq<PlanWarning>)
    ensures Emission(nodes, warnings) == EmitUpTo(live, |live|, probe, paired)
  {
    nodes, warnings := [], [];
    var n := 0;
    while n < |live|
      invariant n <= |live| && Emission(nodes, warnings) == EmitUpTo(live, n, probe, paired)
    {
      var more, notes := EmitForward(live[n], probe, paired);
      nodes, warnings := nodes + more, warnings + notes;
      n := n + 1;
    }
  }

  /** The redo plan: one emission per live event in time order, then cohorts. */
  method PlanForward(events: seq<CaptureEvent>, closed: bool, probe: Probe)
    returns (nodes: array<PlanNode>, warnings: seq<PlanWarning>)
    ensures var live := Timeline(events);
            var plan := EmitUpTo(live, |live|, probe, PairedOf(live));
            && nodes.Length == |plan.nodes|
            && (forall i :: 0 <= i < nodes.Length ==> nodes[i] == plan.nodes[i].(cohort := nodes[i].cohort))
            && warnings == Preamble(events, closed) + plan.warnings
    ensures FirstFit(TouchSets(nodes[..]), Labels(nodes[..]))
  {
    var live := Timeline(events);
    var paired := PairedFlagsShimEvents(live);
    var planned, notes := EmitEach(live, probe, paired);
    warnings := Preamble(events, closed) + notes;
    nodes := new PlanNode[|planned|](i requires 0 <= i < |planned| => planned[i]);
    var _ := AssignCohorts(nodes);
  }

  // ------------------------------------------------------------------
  // Redo warnings
  // ------------------------------------------------------------------

  /** The paths of the chflags redo warnings, in order. */
  function FlagWarnings(warnings: seq<PlanWarning>): seq<Path> {
    if warnings == [] then []
    else
      var front := FlagWarnings(warnings[..|warnings| - 1]);
      match warnings[|warnings| - 1]
      case CannotRedoFlags(path) => front + [path]
      case _ => front
  }

  /** Positions of the shims among the first `n` events that are not in `taken`. */
  ghost function Unpaired(marks: seq<Mark>, taken: set<nat>, n: nat): set<nat>
    requires n <= |marks|
  {
    set s: nat | s < n && marks[s].Shim? && s !in taken
  }

  lemma {:induction false} FlagWarningsAppend(a: seq<PlanWarning>, b: seq<PlanWarning>)
    ensures FlagWarnings(a + b) == FlagWarnings(a) + FlagWarnings(b)
  {
    if b == [] {
      assert a + b == a;
    } else {
      FlagWarningsAppend(a, b[..|b| - 1]);
      assert (a + b)[..|a + b| - 1] == a + b[..|b| - 1];
    }
  }

  lemma {:induction false} NotesAreNotFlagWarnings(notes: seq<string>)
    ensures FlagWarnings(AsNotes(notes)) == []
  {
    if notes != [] {
      NotesAreNotFlagWarnings(notes[..|notes| - 1]);
      assert AsNotes(notes)[..|notes| - 1] == AsNotes(notes[..|notes| - 1]);
    }
  }

  /** An event yields a chflags warning exactly if it is a shim capture that no helper took. */
  lemma EmittedFlagWarnings(ev: CaptureEvent, probe: Probe, paired: set<nat>)
    ensures |FlagWarnings(Emit(ev, probe, paired).warnings)| == if Warns(ev, paired) then 1 else 0
  {
    match ev.kind
    case ShimFlags(_, path, _) =>
      var one := [CannotRedoFlags(path)];
      assert one[..0] == [] && FlagWarnings(one) == [] + [path];
    case PreImage(path) => assert [CannotRedoWrite(path)][..0] == [];
    case AppendPreStash(path) => assert [CannotRedoAppend(path)][..0] == [];
    case OtherEvent(_, notes) => NotesAreNotFlagWarnings(notes);
    case _ =>
  }

  /** Event `i` is seen alike by the emission and by the pairing. */
  ghost predicate SeenAlike(live: seq<CaptureEvent>, paired: set<nat>, marks: seq<Mark>, taken: set<nat>, i: nat)
    requires i < |live| == |marks|
  {
    Warns(live[i], paired) <==> marks[i].Shim? && i !in taken
  }

  predicate Warns(ev: CaptureEvent, paired: set<nat>) {
    ev.kind.ShimFlags? && ev.id !in paired
  }

  /** A count that grows by one at every unpaired shim counts them. */
  lemma {:induction false} CountsUnpaired(count: nat -> nat, marks: seq<Mark>, taken: set<nat>, n: nat)
    requires n <= |marks| && count(0) == 0
    requires forall k :: 0 <= k < |marks| ==> CountsAt(count, marks, taken, k)
    ensures count(n) == |Unpaired(marks, taken, n)|
  {
    if n == 0 {
      assert Unpaired(marks, taken, 0) == {};
    } else {
      CountsUnpaired(count, marks, taken, n - 1);
      UnpairedStep(marks, taken, n);
      assert CountsAt(count, marks, taken, n - 1);
    }
  }

  ghost predicate CountsAt(count: nat -> nat, marks: seq<Mark>, taken: set<nat>, k: nat)
    requires k < |marks|
  {
    count(k + 1) == count(k) + if marks[k].Shim? && k !in taken then 1 else 0
  }

  /** How many chflags warnings the first `n` events yield. */
  ghost function WarningCount(live: seq<CaptureEvent>, probe: Probe, paired: set<nat>, n: nat): nat {
    if n <= |live| then |FlagWarnings(EmitUpTo(live, n, probe, paired).warnings)| else 0
  }

  lemma WarningCountStep(live: seq<CaptureEvent>, probe: Probe, paired: set<nat>, k: nat)
    requires k < |live|
    ensures WarningCount(live, probe, paired, k + 1) ==
      WarningCount(live, probe, paired, k) + if Warns(live[k], paired) then 1 else 0
  {
    OneMoreWarning(live, k + 1, probe, paired);
  }

  lemma OneWarningEach(live: seq<CaptureEvent>, probe: Probe, paired: set<nat>, marks: seq<Mark>, taken: set<nat>)
    requires |live| == |marks| && forall i :: 0 <= i < |live| ==> SeenAlike(live, paired, marks, taken, i)
    ensures WarningCount(live, probe, paired, |live|) == |Unpaired(marks, taken, |live|)|
  {
    var count: nat -> nat := n => WarningCount(live, probe, paired, n);
    forall k | 0 <= k < |marks| ensures CountsAt(count, marks, taken, k) {
      WarningCountStep(live, probe, paired, k);
      assert SeenAlike(live, paired, marks, taken, k);
    }
    NothingEmitted(live, probe, paired);
    CountsUnpaired(count, marks, taken, |live|);
  }

  lemma NothingEmitted(live: seq<CaptureEvent>, probe: Probe, paired: set<nat>)
    ensures WarningCount(live, probe, paired, 0) == 0
  {
  }

  lemma OneMoreWarning(live: seq<CaptureEvent>, n: nat, probe: Probe, paired: set<nat>)
    requires 0 < n <= |live|
    ensures |FlagWarnings(EmitUpTo(live, n, probe, paired).warnings)| ==
      |FlagWarnings(EmitUpTo(live, n - 1, probe, paired).warnings)|
      + (if Warns(live[n - 1], paired) then 1 else 0)
  {
    FlagWarningsAppend(EmitUpTo(live, n - 1, probe, paired).warnings, Emit(live[n - 1], probe, paired).warnings);
    EmittedFlagWarnings(live[n - 1], probe, paired);
  }

  /** One chflags warning per shim that the best pairing leaves over. */
  lemma OneWarningPerUnpairedShim(live: seq<CaptureEvent>, probe: Probe)
    requires Distinct(Ids(live))
    ensures |FlagWarnings(EmitUpTo(live, |live|, probe, PairedOf(live)).warnings)|
         == |Shims(live) - Paired(live).Values|
  {
    var marks := Marks(live);
    var taken := Taken(marks).Values;
    forall i | 0 <= i < |live|
      ensures SeenAlike(live, PairedOf(live), marks, taken, i)
    {
      ShimPairedIffTaken(marks, Ids(live), i);
    }
    OneWarningEach(live, probe, PairedOf(live), marks, taken);
    assert Unpaired(marks, taken, |live|) == Shims(live) - taken;
  }

  lemma UnpairedStep(marks: seq<Mark>, taken: set<nat>, n: nat)
    requires 0 < n <= |marks|
    ensures |Unpaired(marks, taken, n)|
         == |Unpaired(marks, taken, n - 1)| + (if marks[n - 1].Shim? && n - 1 !in taken then 1 else 0)
  {
    var was, now := Unpaired(marks, taken, n - 1), Unpaired(marks, taken, n);
    if marks[n - 1].Shim? && n - 1 !in taken {
      assert now == was + {n - 1};
    } else {
      assert now == was;
    }
  }

  ghost function Shims(live: seq<CaptureEvent>): set<nat> {
    set s: nat | s < |live| && live[s].kind.ShimFlags?
  }

  /** What a pairing leaves over, counted. */
  lemma LeftOver(live: seq<CaptureEvent>, g: map<nat, nat>)
    requires PairsCalls(live, g)
    ensures |Shims(live) - g.Values| == |Shims(live)| - |g|
  {
    ImageSize(g, g.Keys);
    assert g.Values == set h | h in g.Keys :: g[h];
    forall s | s in g.Values ensures s in Shims(live) {
      var h :| h in g && g[h] == s;
      assert SameCall(live, h, s);
    }
  }

  /** A redo plan carries as few chflags warnings as any pairing of helper captures with earlier shim
      captures of the same call leaves shims over, and there is a pairing that leaves as many. */
  lemma FewestRedoWarnings(live: seq<CaptureEvent>, probe: Probe, f: map<nat, nat>)
    requires Distinct(Ids(live)) && PairsCalls(live, f)
    ensures PairsBest(live, Paired(live))
    ensures |FlagWarnings(EmitUpTo(live, |live|, probe, PairedOf(live)).warnings)|
         == |Shims(live)| - |Paired(live)| <= |Shims(live)| - |f|
  {
    OneWarningPerUnpairedShim(live, probe);
    PairedIsBest(live);
    LeftOver(live, Paired(live));
  }
}
