# A verified model of the undo system

The system records what shell commands do and plans how to undo and redo them. This project models the
parts of it where order, concurrency and encoding decide whether an undo is correct, and proves the laws
those parts rest on:

* **Planning and running a plan.** Cohort assignment (`Cohort`), one operation at a time (`Execute`), a batch
  of worker threads as a machine of interleaved steps (`Batch`, `Commute`), and whole runs (`Parallel`).
  The main theorem is `Parallel.ParallelEqualsSerial`: for every plan after cohort assignment and every executor,
  thread cap and interleaving, a parallel run that does not abort ends where the serial run ends with the same
  records; when it aborts so does the serial run, whose records are a prefix of its own.
* **Redo plans.** The pairing of shim and helper flag captures (`Pairing`), the redo planner (`Forward`), the
  directory tree its nodes rebuild (`Tree`), the metadata they restore (`Metadata`), and environment diffs
  replayed onto an environment (`EnvDiff`). `Tree.RedoReachesTree` takes a whole command's tree from before to
  after.
* **Durable and wire formats.** The crash-safe execution log (`ExecLog`), frames on a byte stream (`Wire`), and
  environment blocks (`EnvBlock`).
* **The descriptor language.** Pattern matching and dispatch (`Matcher`, `Dispatch`), the two path scanners
  (`Paths`), extraction (`Extract`), templates (`Template`), the lint with what it guarantees (`Lint`), what a
  shell makes of an accepted command's first word (`Binary`), and the executor that runs what was rendered
  (`Reverse`).
* **Inverses and printers.** Route and firewall inverses (`Ledger`, `Replay`, `Routes`, `Ufw`), shell quoting,
  whole snippets and what they leave unquoted (`Reader`, `Quote`, `Snippet`, `Unquoted`), and JSON strings
  (`Json`).

`Plan`, `Text` and `Bytes` hold shared data, string order, decimal numbers, splitting and byte order.

The executor is an arbitrary function that takes any number of steps on the cells (paths and inodes) its
operation touches, so the concurrency theorems hold for every executor that stays within its touch set. The
record codec, the redaction digest, JSON and TOML documents, and the probe's answers are parameters.

Some promises do not hold of the code as they are worded. Each has a concrete counterexample and an exact
condition, proved in both directions:

* cohort numbers keep the order of clashing nodes: `OrderNotKept`, `OrderKeptIffGapFree`;
* a more specific pattern scores higher: `EmptyTailOutscores`, `SpecificPatternWins`;
* an encodable frame is received: `EncodableFrameRefused`, `EncodedReceivedIff`, `QuietMeansDelivered`;
* a route inverse restores the captured table: `ChangedGatewayIsNotRestored`, `UndoRestores`;
* a firewall inverse restores the captured order of rules: `EditsLoseOrder`, `InverseRestoresOrderIff`;
* the lint and the extractor accept the same line paths: `SignedIndexParsesUnlinted`, `LinesReadersAgreeIff`;
* a snippet's line is read as meant: `ValueEndsItsComment` and `NamesAreNotQuoted`, `OptReadsIff`,
  `AliasReadsIff` and `FuncReadsIff`;
* a redo brings a variable to its new value: `RedactedIsNotRedone`, `RedoReachesPost`;
* a metadata change is restored: `NotRestored`, `RestoredIff` and `RedoReachesAfterIff`;
* a tree change is redone: `LinkIsNotRedone`, `RedoneIff`;
* a rendered reverse command runs as it was rendered: `ValueIsScannedAgain`, `RunsUnchangedIff`.

Where code and comment disagree the code is modelled: `parse_block` does not strip trailing whitespace, although
its comment says it tolerates it.

## Model

| member | source | states |
|---|---|---|
| `Cohort.TouchSet` | crates/shit-planner/src/cohort.rs:63-112 | the touch set holds the primary path, the primary inode, a rename's source and a hard link's source, and is empty exactly for operations without a path |
| `Cohort.TouchesWhatItNames` | crates/shit-planner/src/cohort.rs:63-112 | exactly both ends of a rename or hard link, else the one path, and the inode of a restore are touched |
| `Cohort.Place` | crates/shit-planner/src/cohort.rs:125-153 | the lowest cohort whose keys miss the node's keys is chosen, a new one when every cohort overlaps, and its keys grow by the node's |
| `Cohort.AssignCohorts` | crates/shit-planner/src/cohort.rs:121-157 | in place, every node gets the least cohort free of clashes with earlier nodes, nothing else changes, and the cohorts in use are exactly 0 up to the returned count |
| `Cohort.SameCohortDisjoint` | crates/shit-planner/src/cohort.rs:8-14 | nodes that share a cohort share no path and no inode |
| `Cohort.FirstFitUnique` | crates/shit-planner/src/cohort.rs:121-157 | the labelling is a function of the touch sets |
| `Cohort.CohortAtMostDegree` | crates/shit-planner/src/cohort.rs:121-157 | a node's cohort is at most the number of earlier nodes it clashes with |
| `Cohort.CohortCount` | crates/shit-planner/src/cohort.rs:121-157 | a non-empty plan uses at most maximum clash degree plus one cohorts |
| `Cohort.OrderKeptIffGapFree` | crates/shit-planner/src/cohort.rs:24-26 | clashing nodes keep their order in cohort numbers exactly on plans whose clash chains have no gap in length |
| `Cohort.OrderNotKept` | crates/shit-planner/src/cohort.rs:24-26 | a three-node plan on which a clashing node lands in an earlier cohort |
| `Execute.ProbesTouchedPaths` | crates/shit-planner/src/orchestrator.rs:383-503 | every path probed before an operation is one it touches, and at most two are probed |
| `Execute.ProbingDecidesPreconditions` | crates/shit-planner/src/orchestrator.rs:383-503 | probing one path at a time reaches the verdict of the precondition table |
| `Execute.ConflictOnFile` | crates/shit-planner/src/orchestrator.rs:383-503 | an operation on a file as it stands finds it missing exactly when nothing is at its path, and a phantom exactly when flags are meant for another inode; restoring content and pathless operations have no preconditions |
| `Execute.ExecuteOneLocal` | crates/shit-planner/src/orchestrator.rs:256-334 | an operation's record and effect depend on the cells it touches only, and it changes no other cell |
| `Execute.RecordTells` | crates/shit-planner/src/orchestrator.rs:320-334 | a record's kind, detail and tier say which outcome it was made from, for every outcome |
| `Execute.PolicyDecides` | crates/shit-planner/src/orchestrator.rs:256-334 | filtered and refused operations, and conflicting ones under Skip, change no cell and are recorded as skipped; under Abort no cell changes and the conflict is recorded; under Force, or where the probe finds nothing and no hard conflict was foreseen, cells and record are the executor's |
| `Execute.AdvisoryConflict` | crates/shit-planner/src/orchestrator.rs:298-310 | a conflict foreseen at planning time that is not hard decides nothing |
| `Execute.Run` | crates/shit-planner/src/orchestrator.rs:338-373 | a serial run is the walk through the nodes; under Abort it is cut right after the first record whose kind is failed, hard or phantom conflict, and it is never cut otherwise |
| `Execute.WalkPrefix` | crates/shit-planner/src/orchestrator.rs:338-373 | the records of fewer nodes are a prefix of the records of more |
| `Execute.WalkNumbers` | crates/shit-planner/src/orchestrator.rs:352-364 | record k is numbered k and carries node k's operation |
| `Execute.WalkAt` | crates/shit-planner/src/orchestrator.rs:352-364 | record k is what node k gives on the cells the nodes before it left |
| `Execute.AppliedOnlyWhenClear` | crates/shit-planner/src/orchestrator.rs:338-373 | in every run that is not forced, an operation is applied only where it is admitted and nothing stands in its way, and any other leaves the cells as they are |
| `Commute.WalkInside` | crates/shit-planner/src/orchestrator.rs:171-225 | inside a run of disjoint nodes, each node sees the cells as they were before the run, and cells none of them touches stay |
| `Batch.ReachableInv` | crates/shit-planner/src/orchestrator.rs:171-225 | after every schedule, each worker's phase, record and cells are what its node alone would have produced so far |
| `Batch.StepKeepsInv` | crates/shit-planner/src/orchestrator.rs:181-225 | every step of every worker keeps that invariant |
| `Batch.ReachableSemaphore` | crates/shit-planner/src/orchestrator.rs:181-225 | after every schedule the semaphore equals the number of workers between acquire and release and is at most max(1, max_parallel) |
| `Batch.SlotsWrittenOnce` | crates/shit-planner/src/orchestrator.rs:207-225 | a record slot is never overwritten, and every slot of the batch is full when it is joined |
| `Batch.JoinedFlag` | crates/shit-planner/src/orchestrator.rs:207-225 | for every schedule and any labels, a joined batch has filled its own slots only, and its flag is up exactly if the policy is Abort and one of its records is failed, hard or phantom conflict |
| `Batch.SomeoneCanMove` | crates/shit-planner/src/orchestrator.rs:181-225 | no deadlock: until the batch is joined some worker can do more than yield |
| `Batch.StepsRunOut` | crates/shit-planner/src/orchestrator.rs:181-225 | a measure falls on every step but a yield, and a yield changes nothing |
| `Batch.MovesBounded` | crates/shit-planner/src/orchestrator.rs:181-225 | no schedule moves a batch more often than the measure at launch |
| `Batch.JoinedIsWalk` | crates/shit-planner/src/orchestrator.rs:171-225 | for every schedule a joined batch has the cells, records and abort verdict of the serial walk through its nodes |
| `Parallel.GroupByCohort` | crates/shit-planner/src/orchestrator.rs:80-89 | the groups are the maximal runs of equal labels, in plan order, and cover the plan |
| `Parallel.AssignedBatchesConflictFree` | crates/shit-planner/src/orchestrator.rs:80-89 | after cohort assignment no batch holds two clashing nodes |
| `Parallel.ClashesCrossBatchesInOrder` | crates/shit-planner/src/orchestrator.rs:171-225 | of two clashing nodes the earlier one's batch is joined before the later one's starts, whatever their cohort numbers |
| `Parallel.RunBatch` | crates/shit-planner/src/orchestrator.rs:171-225 | a batch ends joined, in a state some schedule reaches |
| `Parallel.RunParallel` | crates/shit-planner/src/orchestrator.rs:153-246 | on a plan after cohort assignment the report is the serial walk of whole batches; every serial report is a prefix of it, and equal to it with the same cells when nothing trips; for any labels it aborts exactly if the policy is Abort and some record is failed, hard or phantom conflict, every such record is of the last attempted batch, and all batches are attempted otherwise |
| `Parallel.ParallelIsWalk` | crates/shit-planner/src/orchestrator.rs:153-246 | the same for every choice of schedules, by induction over the batches |
| `Parallel.ReportsAgree` | crates/shit-planner/src/orchestrator.rs:338-373 | the serial records are a prefix of the parallel ones, cut inside the last attempted batch; without an abort reports and states are equal |
| `Parallel.ParallelEqualsSerial` | crates/shit-planner/src/orchestrator.rs:153-246 | for every plan after cohort assignment, every thread cap and every interleaving: equal cells and records without an abort; under Abort the serial records are a prefix of the parallel ones, which are whole batches through the first tripping one; both abort together; record k is numbered k |
| `Pairing.TakenIsMatching` | crates/shit-planner/src/plan_forward.rs:85-113 | the pairing is a matching of helper captures with earlier shim captures of the same inode and flags |
| `Pairing.TakesLatest` | crates/shit-planner/src/plan_forward.rs:85-113 | a helper takes the latest pending shim of its key |
| `Pairing.LatestMark` | crates/shit-planner/src/plan_forward.rs:85-113 | a helper takes the latest shim of its key that no earlier helper took, and none only if there is none |
| `Pairing.GreedyIsMaximum` | crates/shit-planner/src/plan_forward.rs:85-113 | no matching pairs more |
| `Pairing.ShimPairedIffTaken` | crates/shit-planner/src/plan_forward.rs:85-113 | with distinct ids, a shim's id is collected exactly if some helper took it |
| `Forward.PairedFlagsShimEvents` | crates/shit-planner/src/plan_forward.rs:85-113 | the loop over stacks collects the ids of exactly the shims of a pairing of events that is best in the sense below |
| `Forward.PairedIsBest` | crates/shit-planner/src/plan_forward.rs:85-113 | helper events are paired one to one with earlier shim events on the same inode, where the flags and nothing else changed from what the shim captured; each takes the latest one available to it, and no such pairing of the events has more pairs |
| `Forward.TimelineSorts` | crates/shit-planner/src/plan_forward.rs:58-63 | the timeline is in time order and holds exactly the events that are not partial |
| `Forward.TimelineIgnoresArrival` | crates/shit-planner/src/plan_forward.rs:58-63 | the timeline does not depend on the order events were read in |
| `Forward.EarlierFirst` | crates/shit-planner/src/plan_forward.rs:58-63 | of two live events the one earlier in logical time, then wall clock, then id has all its nodes before the other's in the plan |
| `Forward.PassedOverIff` | crates/shit-planner/src/plan_forward.rs:116-190 | no file or environment event is passed over in silence but a paired shim, a hard link and an environment change without changes; content that cannot be redone is named in a warning; an environment change gives its operations in order, without conflicts |
| `Forward.EmittedFlagWarnings` | crates/shit-planner/src/plan_forward.rs:123-137 | an event yields a flags warning exactly if it is a shim capture that no helper took |
| `Forward.RedoIsOneNode` | crates/shit-planner/src/plan_forward.rs:152-182 | redoing a metadata change is one node that touches the captured path and inode only and carries a conflict exactly when the path is gone |
| `Forward.RedoReachesAfterIff` | crates/shit-planner/src/plan_forward.rs:152-182 | run on the captured file, that node takes it from its state before to its state after if and only if flags alone changed and the platform has them, or nothing changed that no restore changes |
| `Metadata.ConvergeXattrs` | crates/shit-planner/src/executors/xattr.rs:53-99 | attributes become those captured, except the managed ones, which stay |
| `Metadata.RestoreMetadata` | crates/shit-planner/src/executors/file.rs:429-491 | owner, permission bits, time, attributes and flags are set, and the set-user and set-group bits survive the change of owner; by way of the helper attributes and flags are not set; size and access list never are |
| `Metadata.OwnerLastLoses` | crates/shit-planner/src/executors/file.rs:429-491 | changing the owner after the mode would lose exactly the modes with a set-user or set-group bit |
| `Metadata.RestoredIff` | crates/shit-planner/src/executors/file.rs:429-491 | a restore reaches its target if and only if size, access list and file type already agree, the time can be set, and so do managed attributes (by way of the helper: all attributes, and flags) |
| `Metadata.FarTimeSaturates` | crates/shit-planner/src/executors/file.rs:548-559 | a time beyond 64-bit seconds becomes the last second with its own fraction |
| `Metadata.NotRestored` | crates/shit-planner/src/executors/file.rs:170-220 | a changed size does not come back, nor, by way of the helper, a changed attribute |
| `Forward.ConflictForeseenIff` | crates/shit-planner/src/plan_forward.rs:510-613 | a metadata or tree node is planned with a conflict exactly when running it on the same files would find one, except for a replaced inode, a directory in place of one to recreate, and an occupied rename target; it is of the same kind, and never hard |
| `Forward.PlanForward` | crates/shit-planner/src/plan_forward.rs:39-83 | the redo plan is the emissions of the timeline in order, first-fit labelled, with the preamble's warnings before theirs |
| `Forward.PreambleTells` | crates/shit-planner/src/plan_forward.rs:45-56 | a plan says how many events it dropped, which are those missing from the timeline, and whether the command was still running |
| `Forward.OneWarningPerUnpairedShim` | crates/shit-planner/src/plan_forward.rs:123-137 | exactly one flags warning per unpaired shim |
| `Forward.FewestRedoWarnings` | crates/shit-planner/src/plan_forward.rs:65-74 | the flags warnings are the shims the best pairing leaves over, and no pairing of events leaves fewer |
| `Tree.RedoneIff` | crates/shit-planner/src/plan_forward.rs:509-575 | on any tree on which a captured creation, removal, rename or link was possible, running its redo leaves the tree the change left if and only if it runs for real on a path the filter lets through, the executor makes that kind of entry, a rename that replaced something is forced, and it is not a hard link |
| `Tree.LinkIsNotRedone` | crates/shit-planner/src/plan_forward.rs:545-553 | a hard link is redone by no node, every other tree change by one |
| `Tree.RepeatsChange` | crates/shit-planner/src/plan_forward.rs:509-575 | the planned operation does to the tree what the captured change did, subtree moves included, unless it is of a kind the executor does not make |
| `Tree.RedoReachesTree` | crates/shit-planner/src/plan_forward.rs:58-78 | for every history of tree changes, each redoable where it happened, running the planned nodes in order takes the tree from before the command to after it, and nothing halts |
| `Tree.RedoCommand` | crates/shit-planner/src/plan_forward.rs:39-83 | the same of the labelled plan the planner returns |
| `Tree.ConflictMeans` | crates/shit-planner/src/orchestrator.rs:383-503 | a tree operation with no conflict destroys nothing it is not meant to and fails only for the way to its result, an unsupported kind, a move into itself or a directory to link; a missing path makes it fail; a phantom stands where its result goes |
| `Tree.ResultStands` | crates/shit-planner/src/inverse.rs:551-578 | the path the filter looks at is where the operation leaves something, or the one it clears |
| `Tree.UnforcedDestroysNothing` | crates/shit-planner/src/orchestrator.rs:298-319 | under Skip and Abort no tree operation of a run overwrites or takes away what it is not meant to |
| `Tree.MakesTheWay` | crates/shit-planner/src/executors/file.rs:618-631 | making a path again makes the directories missing on the way, and changes nothing else |
| `Tree.PerformKeepsRooted` | crates/shit-planner/src/executors/file.rs:235-330 | no tree operation leaves an entry without the directories above it |
| `Tree.KindReadsBack` | crates/shit-planner/src/metadata.rs:81-100 | the kind of an entry is read back from its mode, for every kind |
| `EnvDiff.DiffEnvMaps` | crates/shit-planner/src/env.rs:219-263 | the diff holds, name by name, exactly the additions, removals and changes of names that are neither listed nor of an ignored prefix (all names if all are tracked); values are digests exactly where the name, its small letters taken for capitals, holds a marked word |
| `EnvDiff.RedactionIgnoresCase` | crates/shit-planner/src/env.rs:116-119 | names that differ in ASCII case are redacted alike |
| `EnvDiff.DiffIgnoresIgnored` | crates/shit-planner/src/env.rs:219-263 | environments that agree on tracked names have the same diff |
| `EnvDiff.PlanEnv` | crates/shit-planner/src/plan_forward.rs:278-312 | the planned nodes: additions set, removals unset, changes set to the new value, each in key order |
| `EnvDiff.OpsAreTheNodes` | crates/shit-planner/src/plan_forward.rs:278-312 | one node per changed name and none for any other |
| `EnvDiff.ReplayAnyOrder` | crates/shit-planner/src/plan_forward.rs:278-312 | replaying the nodes in any order leaves the expected value at every name |
| `EnvDiff.RedoReachesPost` | crates/shit-planner/src/plan_forward.rs:278-312 | a tracked name reaches its new value exactly unless it is redacted, changed, and its digest is not its value; ignored names are left alone |
| `EnvDiff.RedactedIsNotRedone` | crates/shit-planner/src/env.rs:219-263 | an added variable whose name is redacted is redone to its digest |
| `ExecLog.Writer.Create` | crates/shit-planner/src/exec_log.rs:66-78 | a log is created, empty, and its id is then in use, unless the id already was or the file system fails |
| `ExecLog.Writer.Append` | crates/shit-planner/src/exec_log.rs:83-97 | a record that fits is appended whole; one that does not is refused and changes nothing; an error of the file system leaves a part of the frame and counts no record |
| `ExecLog.LogAppend` | crates/shit-planner/src/exec_log.rs:83-97 | appending a record appends exactly its frame |
| `ExecLog.ReadAll` | crates/shit-planner/src/exec_log.rs:111-131 | the loop returns what frame-by-frame replay of the file gives, wherever the read of a header comes short |
| `ExecLog.WholeFramesFit` | crates/shit-planner/src/exec_log.rs:111-131 | the number of whole frames before a cut is the greatest that fits |
| `ExecLog.TornLog` | crates/shit-planner/src/exec_log.rs:111-131 | for any appends cut at any byte and read in any way: truncation at the first whole frame whose header comes short; if none does, on a boundary exactly the whole records, elsewhere truncation at the end of the last whole frame |
| `ExecLog.ReplayExactIff` | crates/shit-planner/src/exec_log.rs:111-131 | replay of a whole log is exact if and only if no header comes short |
| `ExecLog.NoneShortIff` | crates/shit-planner/src/exec_log.rs:115-121 | no header comes short if and only if each is read whole where it stands |
| `ExecLog.CrashLosesAtMostOne` | crates/shit-planner/src/exec_log.rs:111-131 | a crash during an append, at any byte, loses at most that record, and re-reading up to the reported offset gives all earlier ones, if and only if no earlier header comes short |
| `ExecLog.FailedAppendKeepsRecords` | crates/shit-planner/src/exec_log.rs:83-97 | a failed append to a whole log costs no earlier record, under the same condition |
| `Wire.FrameRoundTrip` | crates/shit-proto/src/frame.rs:74-132 | decoding inverts encoding for every payload, and encoding refuses exactly the payloads above the limit |
| `Wire.DecodesEncodings` | crates/shit-proto/src/frame.rs:74-132 | exactly encodings are decoded, to what they encode: length in network order, version 1, payload of at most 262139 bytes |
| `Wire.DecodeRefuses` | crates/shit-proto/src/frame.rs:103-132 | which buffers are refused for which reason |
| `Wire.DeliveredInOrder` | crates/shit-helper/src/ipc.rs:259-292 | for any frames and any splitting of sends and receives, at any moment the delivered frames are the first ones sent, whole and in order |
| `Wire.QuietMeansDelivered` | crates/shit-helper/src/ipc.rs:259-292 | when nothing moves any more all frames are delivered with no byte left over, if and only if none exceeds the helper's limit |
| `Wire.MovesRunOut` | crates/shit-helper/src/ipc.rs:67-78 | a measure falls on every move that changes the link |
| `Wire.ChangesBounded` | crates/shit-helper/src/ipc.rs:259-292 | no run changes a link more often than what it has left to move at the start |
| `Wire.EveryRunDelivers` | crates/shit-helper/src/ipc.rs:259-292 | every run can go on until nothing moves, and then exactly the frames before the first oversized one have arrived |
| `Wire.Stream.SendFrame` | crates/shit-helper/src/ipc.rs:67-89 | a successful send puts exactly the frame on the stream, a failed one a proper prefix of it |
| `Wire.Stream.RecvExact` | crates/shit-helper/src/ipc.rs:278-292 | exactly the asked bytes are taken, or the stream ended first |
| `Wire.Stream.RecvFrame` | crates/shit-helper/src/ipc.rs:225-276 | what a receive returns and what it leaves on the stream |
| `Wire.NextFrameTakesOne` | crates/shit-helper/src/ipc.rs:259-276 | a receive takes exactly the next frame; an oversized one is refused after its header was consumed |
| `Wire.EncodedReceivedIff` | crates/shit-helper/src/ipc.rs:259-276 | an encoded frame is received as itself if and only if it keeps to the helper's limit |
| `Wire.EncodableFrameRefused` | crates/shit-helper/src/ipc.rs:259-276 | a payload that is encoded and refused |
| `EnvBlock.Canonicalize` | crates/shit-planner/src/env.rs:125-136 | the block lists every variable once, in key order, with a separator between any two |
| `EnvBlock.ParseBlock` | crates/shit-planner/src/env.rs:141-162 | every chunk with an equals sign is read at its first one, later chunks win, others are dropped |
| `EnvBlock.ParseInvertsCanonical` | crates/shit-planner/src/env.rs:125-162 | parsing the canonical block gives the environment back if and only if no key holds `=` or NUL and no value holds NUL |
| `EnvBlock.AnyOrderParses` | crates/shit-planner/src/env.rs:138-162 | a block listing an environment in any order, with or without a closing NUL, canonicalizes to the same bytes |
| `EnvBlock.CanonicalIsStable` | crates/shit-planner/src/env.rs:125-162 | for any block at all, canonicalizing what was read and reading it again changes nothing |
| `EnvBlock.CanonicalIsInjective` | crates/shit-planner/src/env.rs:164-175 | representable environments with equal blocks are equal |
| `Matcher.MatchInner` | crates/shit-desc/src/matcher.rs:54-91 | the matcher's loop computes the score |
| `Matcher.MatchDescriptor` | crates/shit-desc/src/matcher.rs:96-103 | a matching exclusion wins over the pattern |
| `Matcher.CheckMatchArgv` | crates/shit-desc/src/schema.rs:331-348 | the lint accepts exactly patterns with a literal first token and `**` at the end only |
| `Matcher.MatcherIsGlob` | crates/shit-desc/src/matcher.rs:54-91 | on linted patterns the matcher accepts exactly the glob's language |
| `Matcher.ScoreByPosition` | crates/shit-desc/src/matcher.rs:54-91 | the score, read off position by position |
| `Matcher.WithinIsSyntactic` | crates/shit-desc/src/matcher.rs:54-91 | the language of one pattern is contained in another's if and only if the other is, position by position, a star or the same token, and only an open one is shorter |
| `Matcher.SpecificPatternWins` | crates/shit-desc/src/matcher.rs:54-91 | the contained pattern scores strictly higher on every argv it matches, except exactly when the other adds a `**` that soaks up nothing |
| `Matcher.EmptyTailOutscores` | crates/shit-desc/src/matcher.rs:54-91 | the exception on concrete patterns |
| `Dispatch.Dispatch` | crates/shit-desc/src/dispatch.rs:106-129 | nothing is returned exactly when nothing matches, otherwise the optimum over all loaded descriptors that match and are not excluded: none scores higher, a user's is passed over only for a higher score or another of the user's, a built-in one only for these or another built-in one, and within an authority the first name wins |
| `Dispatch.OptimumUnique` | crates/shit-desc/src/dispatch.rs:106-129 | score, authority rank, authority and name leave at most one optimum |
| `Paths.IsStructuredPath` | crates/shit-desc/src/schema.rs:416-467 | the lint's scanner accepts exactly the written paths of one or more valid pieces, except `.raw` |
| `Paths.ParseStructuredPath` | crates/shit-desc/src/parse.rs:166-236 | the extractor's parser returns the path's segments, or nothing when it is malformed or an index exceeds `usize` |
| `Paths.ScanShows` | crates/shit-desc/src/parse.rs:166-236 | what is scanned, written again, is the text that was scanned |
| `Paths.ScanOfShown` | crates/shit-desc/src/parse.rs:166-236 | every written path is scanned as its pieces |
| `Paths.ScannersAgree` | crates/shit-desc/src/schema.rs:416-467 | the extractor parses exactly the paths the lint accepts whose indices fit `usize` |
| `Paths.NameIs` | crates/shit-desc/src/interpolate.rs:63-76 | a name is a letter or underscore, then letters, digits and underscores |
| `Paths.ParseInvertsPrint` | crates/shit-desc/src/parse.rs:166-236 | parsing inverts printing for every non-empty list of valid segments but the lone field `raw` |
| `Paths.LinesScannersAgree` | crates/shit-desc/src/parse.rs:92-112 | the lint accepts exactly the unsigned spellings; both readers accept exactly those in range, the lint alone exactly those out of range, the extractor alone exactly the signed spellings in range |
| `Paths.LinesReadersAgreeIff` | crates/shit-desc/src/parse.rs:92-112 | the two readers agree on a path if and only if it is neither an unsigned spelling beyond `usize` nor a signed one within it |
| `Paths.LineIndexReadBack` | crates/shit-desc/src/parse.rs:92-112 | a written line index is accepted and read back |
| `Paths.SignedIndexParsesUnlinted` | crates/shit-desc/src/schema.rs:406-414 | `[+5]` is parsed although the lint rejects it |
| `Extract.TrimEndIs` | crates/shit-desc/src/parse.rs:47 | raw output loses its closing newlines and nothing else |
| `Extract.LinesReadBack` | crates/shit-desc/src/parse.rs:58-66 | printed lines are read back, whether or not the last one is terminated |
| `Extract.Walk` | crates/shit-desc/src/parse.rs:117-164 | the cursor reaches the document at the end of the path, or reports a missing step, a leaf that is not a scalar or a bad path |
| `Extract.SelectIff` | crates/shit-desc/src/parse.rs:117-164 | the cursor finds exactly what stands where the path leads, each field among any others and each index after as many items |
| `Extract.WalkTells` | crates/shit-desc/src/parse.rs:117-164 | a scalar where the path leads is read, any other leaf is reported as no scalar, and nothing is found exactly where nothing stands |
| `Extract.LineTells` | crates/shit-desc/src/parse.rs:92-112 | a written index reads the line after as many others, and is not found beyond the last |
| `Extract.UsableIff` | crates/shit-desc/src/parse.rs:35-90 | an output is usable if it is text and, for the structured kinds, a document |
| `Extract.ExtractAll` | crates/shit-desc/src/parse.rs:35-90 | success captures exactly the asked keys with their extracted values; failure is the error of the first failing key, or of unusable output |
| `Extract.CheckExtractorPaths` | crates/shit-desc/src/schema.rs:379-404 | accepted exactly when every path suits the parse kind |
| `Extract.AcceptedPathIsUnderstood` | crates/shit-desc/src/schema.rs:379-404 | a path the lint accepts is refused by the extractor as malformed only for an index beyond `usize` |
| `Template.WrittenIsSource` | crates/shit-desc/src/interpolate.rs:25-53 | taking a template apart loses nothing |
| `Template.ShapeOfWritten` | crates/shit-desc/src/interpolate.rs:25-53 | a template written from parts is taken apart into those parts |
| `Template.ShapeIsProper` | crates/shit-desc/src/interpolate.rs:25-53 | every template whose references are closed has such parts |
| `Template.ReadingUnique` | crates/shit-desc/src/interpolate.rs:25-53 | and no others |
| `Template.ValidNameLeads` | crates/shit-desc/src/interpolate.rs:63-76 | every valid name, and every text without an opening brace, may be a part |
| `Template.FindDoubled` | crates/shit-desc/src/interpolate.rs:31-38 | the first doubled brace at or after a position, or the end |
| `Template.InterpolationVars` | crates/shit-desc/src/schema.rs:471-487 | the lint collects exactly the valid names of closed references, in order |
| `Template.VarsAreValidNames` | crates/shit-desc/src/schema.rs:471-487 | a name is collected exactly if the template refers to it and it is valid |
| `Template.InterpolateToken` | crates/shit-desc/src/interpolate.rs:25-53 | every reference is replaced by its value, or the first problem from the left is reported |
| `Template.ProblemFree` | crates/shit-desc/src/interpolate.rs:25-53 | there is no problem exactly when all references are closed, valid, bound and not empty |
| `Template.RenderWritten` | crates/shit-desc/src/interpolate.rs:25-53 | rendering is one pass: values, whatever they hold, stand where the references stood and are not scanned again |
| `Template.MissingIsUnbound` | crates/shit-desc/src/interpolate.rs:41-43 | a missing variable is a valid name of the template that the state does not bind |
| `Template.ProblemTells` | crates/shit-desc/src/interpolate.rs:25-53 | each error names a reference of the template that is invalid, unbound or empty, or a template that is not closed |
| `Template.InterpolateArgv` | crates/shit-desc/src/interpolate.rs:56-61 | every token rendered in its place, or the error of the first that cannot be |
| `Lint.VarsResolve` | crates/shit-desc/src/schema.rs:271-277 | accepted exactly when every variable of the template is captured by some phase |
| `Lint.CheckRecipe` | crates/shit-desc/src/schema.rs:212-309 | the lint accepts exactly the clean descriptors: version, slug, description, patterns, commands, variables, extractor paths, privilege and confirmation |
| `Lint.ResolvedRenders` | crates/shit-desc/src/interpolate.rs:25-53 | a resolved template never misses a variable, and renders exactly when its references are closed, valid and captured non-empty |
| `Lint.LintedReverseIsSound` | crates/shit-desc/src/schema.rs:254-283 | for every linted descriptor and every captured state: the reverse command never fails for a missing variable, renders exactly when its references are closed, valid and captured non-empty, keeps its token count, and is the one-pass substitution |
| `Lint.LintedGuardIsSound` | crates/shit-desc/src/schema.rs:278-283 | the same for the guard's expected output |
| `Binary.MetaIs` | crates/shit-desc/src/schema.rs:350 | the barred characters are exactly those that separate commands, redirect or start a substitution |
| `Binary.AcceptedIsOneCommand` | crates/shit-desc/src/schema.rs:352-360 | no command of an accepted descriptor starts with a word that a shell takes for more than words, that holds a substitution, or that holds `..` |
| `Binary.AcceptedIsOneWordIff` | crates/shit-desc/src/schema.rs:352-360 | an accepted first word is that one word to a shell if and only if it holds no blank, quotes or backslash and does not start a comment |
| `Binary.BlankIsAccepted` | crates/shit-desc/src/schema.rs:596-598 | a first word with a blank is accepted, as intended, and a shell would split it |
| `Binary.SlugIs` | crates/shit-desc/src/schema.rs:315-329 | a descriptor's name is 1 to 64 small letters, digits and hyphens, the first not a hyphen, and one shell word |
| `Reverse.ArgvToRun` | crates/shit-planner/src/executors/descriptor.rs:111-134 | the executor runs the second rendering of the argv, and nothing when there is none or it still opens a reference |
| `Reverse.RunsUnchangedIff` | crates/shit-planner/src/executors/descriptor.rs:111-134 | what was rendered runs unchanged if and only if no rendered token holds two opening braces in a row |
| `Reverse.LintedReverseRunsIff` | crates/shit-planner/src/executors/descriptor.rs:111-134 | for every linted descriptor and captured state, what runs is the one-pass substitution if and only if no substituted token opens a reference |
| `Reverse.BraceFreeValuesRunUnchanged` | crates/shit-planner/src/executors/descriptor.rs:111-134 | captured values without an opening brace never change what runs |
| `Reverse.ValueIsScannedAgain` | crates/shit-planner/src/executors/descriptor.rs:111-134 | a captured value that looks like a reference is replaced before it runs |
| `Ledger.UndoReverts` | crates/shit-planner/src/network_diff.rs:137-162 | for any keyed rows, deleting what appeared and adding what went away runs to its end exactly when no key appeared or went away twice, and leaves shared rows as they are and the rest as captured |
| `Ledger.RevertedIs` | crates/shit-planner/src/network_diff.rs:137-162 | the captured keys are restored, and the captured table exactly when the shared rows agree |
| `Ledger.RevertedBack` | crates/shit-planner/src/network_diff.rs:137-162 | reverting the other way leads back, whatever differs |
| `Routes.ArgvReadsBack` | crates/shit-planner/src/network_diff.rs:98-135 | an invocation reads back as its verb and row, the main table named or not |
| `Routes.MainIsNotNamed` | crates/shit-planner/src/network_diff.rs:127-132 | a row of the main table gives the same invocation as one without a table |
| `Routes.IdentityIsPlace` | crates/shit-planner/src/network_diff.rs:85-96 | the diff tells rows apart exactly as the kernel does from the words of the invocation: by destination, device, table (main if unnamed) and metric (zero if unnamed) |
| `Routes.RowsCoexist` | crates/shit-planner/src/network_diff.rs:85-88 | rows that differ in one of these stand side by side in the kernel, and no others do |
| `Routes.SynthesiseIpRoute` | crates/shit-planner/src/network_diff.rs:137-162 | a row of the later state is deleted, and one of the earlier state added back, exactly if no row of the other state has its destination, device, table and metric; deletions come first, and states that do not parse give nothing |
| `Routes.DiffApply` | crates/shit-planner/src/executors/network.rs:148-165 | an empty list is skipped, a dry run changes nothing, and otherwise the invocations run in order to the end or to the first that is refused, which leaves what the earlier ones did |
| `Routes.InverseReverts` | crates/shit-planner/src/network_diff.rs:137-162 | the synthesised argvs, run in order, succeed exactly when no place in the kernel appeared or went away twice, and leave the reverted table |
| `Routes.DistinctIsUnambiguous` | crates/shit-planner/src/network_diff.rs:89-96 | states any two rows of which differ in destination, device, table or metric always qualify |
| `Routes.UndoRestores` | crates/shit-planner/src/network_diff.rs:137-162 | an undo restores the captured places, and the captured table exactly when shared places hold equal rows |
| `Routes.RedoUndoesUndo` | crates/shit-planner/src/plan_forward.rs:340-370 | undo followed by redo, the inverse with its arguments swapped, gives back the very same table |
| `Routes.ChangedGatewayIsNotRestored` | crates/shit-planner/src/network_diff.rs:89-96 | a changed gateway leaves the identity alone, so no invocation changes it back |
| `Ufw.Synthesise` | crates/shit-planner/src/network_diff.rs:355-389 | per-rule edits up to ten changes, reset and reapply above, nothing when the rule sets are equal |
| `Ufw.ResetRestores` | crates/shit-planner/src/network_diff.rs:370-377 | reset and reapply restores the captured rules in the captured order |
| `Ufw.EditsRestore` | crates/shit-planner/src/network_diff.rs:379-388 | per-rule edits keep surviving rules in place and append the restored ones in key order |
| `Ufw.InverseRestores` | crates/shit-planner/src/network_diff.rs:355-389 | whichever branch is taken, every step succeeds and exactly the captured rules are in force |
| `Ufw.EditsRestoreOrderIff` | crates/shit-planner/src/network_diff.rs:379-388 | the per-rule branch restores the captured list if and only if the surviving rules kept their order and the removed ones stood last, in key order |
| `Ufw.InverseRestoresOrderIff` | crates/shit-planner/src/network_diff.rs:355-389 | the captured list comes back if and only if the change calls for a reset or that condition holds |
| `Ufw.EditsLoseOrder` | crates/shit-planner/src/network_diff.rs:379-388 | the per-rule branch can change the order of rules |
| `Reader.ReadsBack` | crates/shit-planner/src/shell_state_render.rs:20-33 | a reader that undoes the escaping of every character undoes the escaping of every string |
| `Quote.ShQuoteReadsBack` | crates/shit-planner/src/shell_state_render.rs:22-25 | for every string the quoted form is one shell word, the string itself, wherever a word may end |
| `Quote.FishEscapeStep` | crates/shit-planner/src/shell_state_render.rs:30-33 | the two replacements in turn escape each character on its own |
| `Quote.FishQuoteReadsBack` | crates/shit-planner/src/shell_state_render.rs:27-33 | the same for fish |
| `Snippet.RenderBash` | crates/shit-planner/src/shell_state_render.rs:39-91 | the snippet is the directory, option, alias and function lines in order |
| `Snippet.SnippetReadsAsMeant` | crates/shit-planner/src/shell_state_render.rs:39-91 | the shell takes the whole snippet for exactly the commands meant, whatever the directory and the expansions hold and whatever follows, when each option, alias and function-removal line meets its exact condition below and each saved body is read the same in front of any text |
| `Snippet.SavedBodyKept` | crates/shit-planner/src/shell_state_render.rs:76-84 | a saved function body is written as it was saved, ending a line |
| `Unquoted.OptReadsIff` | crates/shit-planner/src/shell_state_render.rs:49-63 | an option line is read as meant, alone and before any text, if and only if a switched option's name needs no quotes, or the name and values of any other option keep to one line |
| `Unquoted.AliasReadsIff` | crates/shit-planner/src/shell_state_render.rs:64-77 | an alias line is read as meant, alone and before any text, if and only if its name needs no quotes; the expansion may hold anything |
| `Unquoted.FuncReadsIff` | crates/shit-planner/src/shell_state_render.rs:85-88 | a function's removal line is read as meant, alone and before any text, if and only if its name needs no quotes |
| `Unquoted.WordReadOff` | crates/shit-planner/src/shell_state_render.rs:20-25 | reading any word costs a character of its own for every quote that is passed |
| `Unquoted.ValueEndsItsComment` | crates/shit-planner/src/shell_state_render.rs:54-62 | an option value with a newline ends its comment, and the rest of it is read as words |
| `Unquoted.NamesAreNotQuoted` | crates/shit-planner/src/shell_state_render.rs:49-88 | an option and a function name with a blank and an alias name with quotes are not read as meant |
| `Json.JsonString` | crates/shit-helper/src/main.rs:1096-1114 | the literal is the escaped characters between quotation marks |
| `Json.EscapeIsShortest` | crates/shit-helper/src/main.rs:1096-1114 | nothing is escaped that need not be, and what has a short escape gets it |
| `Json.JsonReadsBack` | crates/shit-helper/src/main.rs:1089-1114 | for every string the literal reads back as that string under section 7 of RFC 8259 and ends where it was closed |

## Left out

- Effects outside the touch set in parallel runs: making parent directories or moving a directory reaches paths an operation does not touch; `Tree` models these for serial runs, and the theorems on parallel runs hold of executors that stay inside their touch set.
- Commutation of environment, package, service and cloud operations inside a batch: their touch set is empty by design, so their effects are not cells of the model.
- Panics in workers, fault injection, tracing, metrics and the command line.
- Path filters: a filter is an arbitrary predicate on paths, glob compilation is not modelled.
- Forward.PlanForward: events of the package, network, service, process, shell-state, container, cloud and database tiers are one kind with arbitrary nodes and notes, because they relate no two events and touch no file.
- Postcard, JSON, TOML, blake3 and lossy UTF-8: a codec only has to decode what it encoded; blocks and outputs are text, or absent when they are not UTF-8.
- ExecLog.Writer.Append: says nothing of the records that a reader finds when appends go on after a failed one.
- Metadata.RestoreMetadata: single calls that fail are not modelled; the source logs a failed attribute or flag and goes on.
- Descriptor passing, `recv_frame_with_fd` and the SEQPACKET branches of the helper's connection.
- Scores are whole hundredths where the source adds `f32` values.
- Lint.CheckRecipe: states the lint's verdict and not which of its error messages is reported.
- Text parsing of ufw, `netstat`, `ifconfig` and `networksetup` output, the ufw rule-to-argv translation, and the inverses of `ip addr` and `ip link`: the models start from parsed rows and rules.
- Kernels that refuse a second device for the same destination and metric: the model's kernel keeps routes apart by table, destination, device and metric, as the source's comment has it.
- Tree.RedoneIff: paths are taken literally, without following links on the way; a file made again over a link or a device, and a helper that gives an entry other permissions than asked, are not modelled.
- Tree.RedoReachesTree: is stated one way, since of two changes that are not redone one may undo the other; for a single change the condition is exact.
- Snippet.SnippetReadsAsMeant: is stated one way for a whole snippet, and whether two misread lines can make up for each other is not decided; line by line the condition is exact in both directions. A saved function body is copied verbatim, and is covered only when it is read the same in front of any text.
- Snippet.RenderBash: token recognition is that of words, quotes, comments and operators; `2>` is a word and an operator where a shell has an IO number, and tilde and pathname expansion of bare names is not modelled.
- The zsh snippet renderer, which differs from bash in the words of its option lines, and the fish one, which quotes with `fish_quote` and turns every option into a comment.
- The benchmark statistics (outlier rejection and percentiles): order statistics apart from the undo system.
- Kernel event sources, sandboxing, credentials and probes: system calls outside the model.
- Finite tables (filesystem tiers, feature versions, refusal and coverage catalogues): settled by listing their cases.
