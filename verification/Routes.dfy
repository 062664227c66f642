/** Undoing and redoing changes to a routing table: the synthesised `ip route` invocations
    (crates/shit-planner/src/network_diff.rs:66-162) replayed by the network executor
    (crates/shit-planner/src/executors/network.rs:148-165). */
module Routes {
  import opened Plan
  import opened Text
  import opened Ledger
  import opened Replay

  const MAIN := "main"

  datatype Row = Row(
    dst: string, gateway: Option<string>, dev: Option<string>, table: Option<string>,
    scope: Option<string>, protocol: Option<string>, metric: Option<nat>, prefsrc: Option<string>)

  /** What makes two rows the same route. */
  datatype Id = Id(dst: string, dev: string, table: string, metric: nat)

  function Or<T>(o: Option<T>, default: T): T {
    if o.Some? then o.value else default
  }

  function Identity(r: Row): Id {
    Id(r.dst, Or(r.dev, ""), Or(r.table, MAIN), Or(r.metric, 0))
  }

  /** The main table may be named or left unnamed; the kernel does not tell them apart. */
  function Normal(r: Row): Row {
    if r.table == Some(MAIN) then r.(table := None) else r
  }

  // ------------------------------------------------------------------
  // Invocations
  // ------------------------------------------------------------------

  type Argv = seq<string>

  datatype Action = Add | Del

  function Verb(a: Action): string {
    if a.Add? then "add" else "del"
  }

  function Clause(key: string, value: Option<string>): Argv {
    if value.Some? then [key, value.value] else []
  }

  function Shown(n: Option<nat>): Option<string> {
    if n.Some? then Some(Decimal(n.value)) else None
  }

  /** The invocation for a row, clause by clause. */
  function ToArgv(a: Action, r: Row): Argv {
    ["ip", "route", Verb(a), r.dst] + Path(r)
  }

  function Path(r: Row): Argv {
    Clause("via", r.gateway) + (Clause("dev", r.dev) + (Clause("scope", r.scope) + Attributes(r)))
  }

  function Attributes(r: Row): Argv {
    Clause("proto", r.protocol)
      + (Clause("metric", Shown(r.metric)) + (Clause("src", r.prefsrc) + Clause("table", Normal(r).table)))
  }

  /** `ip route`'s own reading of the clauses: keyword and value in turn. */
  function ReadClauses(r: Row, argv: Argv): Option<Row>
    decreases |argv|
  {
    if argv == [] then Some(r)
    else if |argv| == 1 then None
    else match ReadClause(r, argv[0], argv[1])
      case None => None
      case Some(next) => ReadClauses(next, argv[2..])
  }

  function ReadClause(r: Row, key: string, value: string): Option<Row> {
    if key == "via" then Some(r.(gateway := Some(value)))
    else if key == "dev" then Some(r.(dev := Some(value)))
    else if key == "scope" then Some(r.(scope := Some(value)))
    else if key == "proto" then Some(r.(protocol := Some(value)))
    else if key == "metric" then
      if value != [] && AllDigits(value) then Some(r.(metric := Some(Value(value)))) else None
    else if key == "src" then Some(r.(prefsrc := Some(value)))
    else if key == "table" then Some(r.(table := Some(value)))
    else None
  }

  function Bare(dst: string): Row {
    Row(dst, None, None, None, None, None, None, None)
  }

  function ReadArgv(argv: Argv): Option<(Action, Row)> {
    if |argv| < 4 || argv[0] != "ip" || argv[1] != "route" then None
    else match ReadClauses(Bare(argv[3]), argv[4..])
      case None => None
      case Some(r) =>
        if argv[2] == "add" then Some((Add, r)) else if argv[2] == "del" then Some((Del, r)) else None
  }

  lemma ReadOne(r: Row, key: string, value: Option<string>, rest: Argv, next: Row)
    requires if value.Some? then ReadClause(r, key, value.value) == Some(next) else r == next
    ensures ReadClauses(r, Clause(key, value) + rest) == ReadClauses(next, rest)
  {
    if value.Some? {
      assert ([key, value.value] + rest)[2..] == rest;
    } else {
      assert [] + rest == rest;
    }
  }

  lemma AttributesReadBack(r: Row)
    ensures var r3 := Bare(r.dst).(gateway := r.gateway, dev := r.dev, scope := r.scope);
      ReadClauses(r3, Attributes(r)) == Some(Normal(r))
  {
    var r3 := Bare(r.dst).(gateway := r.gateway, dev := r.dev, scope := r.scope);
    var r4 := r3.(protocol := r.protocol);
    var r5 := r4.(metric := r.metric);
    var r6 := r5.(prefsrc := r.prefsrc);
    var t7 := Clause("table", Normal(r).table);
    var t6 := Clause("src", r.prefsrc) + t7;
    if r.metric.Some? {
      DecimalRoundTrip(r.metric.value);
    }
    ReadOne(r3, "proto", r.protocol, Clause("metric", Shown(r.metric)) + t6, r4);
    ReadOne(r4, "metric", Shown(r.metric), t6, r5);
    ReadOne(r5, "src", r.prefsrc, t7, r6);
    ReadOne(r6, "table", Normal(r).table, [], Normal(r));
    assert t7 + [] == t7;
  }

  lemma PathReadsBack(r: Row)
    ensures ReadClauses(Bare(r.dst), Path(r)) == Some(Normal(r))
  {
    var r0 := Bare(r.dst);
    var r1 := r0.(gateway := r.gateway);
    var r2 := r1.(dev := r.dev);
    var r3 := r2.(scope := r.scope);
    var t3 := Clause("scope", r.scope) + Attributes(r);
    ReadOne(r0, "via", r.gateway, Clause("dev", r.dev) + t3, r1);
    ReadOne(r1, "dev", r.dev, t3, r2);
    ReadOne(r2, "scope", r.scope, Attributes(r), r3);
    AttributesReadBack(r);
  }

  /** An invocation reads back as the row it was made for. */
  lemma ArgvReadsBack(a: Action, r: Row)
    ensures ReadArgv(ToArgv(a, r)) == Some((a, Normal(r)))
  {
    PathReadsBack(r);
    assert ToArgv(a, r)[4..] == Path(r);
    assert "add" != "del" by { assert "add"[0] != "del"[0]; }
  }

  /** The main table is left unnamed. */
  lemma MainIsNotNamed(a: Action, r: Row)
    requires r.table == Some("main")
    ensures ToArgv(a, r) == ToArgv(a, r.(table := None)) && Said(Path(r), "table").None?
  {
    SaidPath(r);
  }

  // ------------------------------------------------------------------
  // Tables
  // ------------------------------------------------------------------

  /** The place of a route in the kernel. */
  datatype Slot = Slot(table: string, dst: string, dev: string, metric: nat)

  /** The value an invocation gives for a keyword. */
  function Said(clauses: Argv, key: string): Option<string>
    decreases |clauses|
  {
    if |clauses| < 2 then None else if clauses[0] == key then Some(clauses[1]) else Said(clauses[2..], key)
  }

  /** The kernel's own reading: the main table and metric zero unless the invocation says otherwise. */
  function SlotOf(argv: Argv): Slot
    requires |argv| >= 4
  {
    var table, dev, metric := Said(argv[4..], "table"), Said(argv[4..], "dev"), Said(argv[4..], "metric");
    Slot(
      if table.None? then "main" else table.value, argv[3], if dev.None? then "" else dev.value,
      if metric.Some? && AllDigits(metric.value) then Value(metric.value) else 0)
  }

  /** The kernel's table, one route per place. */
  type Table = map<Slot, Row>

  function Perform(t: Table, argv: Argv): Option<Table> {
    match ReadArgv(argv)
    case None => None
    case Some((Add, r)) => if SlotOf(argv) in t then None else Some(t[SlotOf(argv) := r])
    case Some((Del, r)) => if SlotOf(argv) in t then Some(t - {SlotOf(argv)}) else None
  }

  /** The place an invocation for the row names. */
  function Place(r: Row): Slot {
    SlotOf(ToArgv(Add, r))
  }

  /** The table that lists the rows. */
  ghost function TableOf(rows: seq<Row>): Table {
    Ledger.Table(rows, Place, Normal)
  }

  /** The rows differ in destination, device, table or metric; an absent device is "", an absent table the main
      one and an absent metric zero. */
  ghost predicate Differ(a: Row, b: Row) {
    || a.dst != b.dst
    || (if a.dev.Some? then a.dev.value else "") != (if b.dev.Some? then b.dev.value else "")
    || (if a.table.Some? then a.table.value else "main") != (if b.table.Some? then b.table.value else "main")
    || (if a.metric.Some? then a.metric.value else 0) != (if b.metric.Some? then b.metric.value else 0)
  }

  lemma SaidFirst(key: string, value: Option<string>, rest: Argv, asked: string)
    ensures Said(Clause(key, value) + rest, asked) ==
      if key == asked && value.Some? then value else Said(rest, asked)
  {
    if value.Some? {
      assert ([key, value.value] + rest)[2..] == rest;
    } else {
      assert [] + rest == rest;
    }
  }

  lemma SaidAttributes(r: Row, asked: string)
    ensures Said(Attributes(r), asked) ==
      if asked == "proto" && r.protocol.Some? then r.protocol
      else if asked == "metric" && r.metric.Some? then Shown(r.metric)
      else if asked == "src" && r.prefsrc.Some? then r.prefsrc
      else if asked == "table" then Normal(r).table else None
  {
    var t7 := Clause("table", Normal(r).table);
    var t6 := Clause("src", r.prefsrc) + t7;
    SaidFirst("proto", r.protocol, Clause("metric", Shown(r.metric)) + t6, asked);
    SaidFirst("metric", Shown(r.metric), t6, asked);
    SaidFirst("src", r.prefsrc, t7, asked);
    SaidFirst("table", Normal(r).table, [], asked);
    assert t7 + [] == t7;
    assert Said([], asked) == None;
  }

  lemma SaidPath(r: Row)
    ensures Said(Path(r), "dev") == r.dev && Said(Path(r), "metric") == Shown(r.metric)
    ensures Said(Path(r), "table") == Normal(r).table
  {
    SaidOfPath(r, "dev");
    SaidOfPath(r, "metric");
    SaidOfPath(r, "table");
    SaidAttributes(r, "dev");
    SaidAttributes(r, "metric");
    SaidAttributes(r, "table");
  }

  lemma SaidOfPath(r: Row, asked: string)
    ensures Said(Path(r), asked) ==
      if asked == "via" && r.gateway.Some? then r.gateway
      else if asked == "dev" && r.dev.Some? then r.dev
      else if asked == "scope" && r.scope.Some? then r.scope
      else Said(Attributes(r), asked)
  {
    var t3 := Clause("scope", r.scope) + Attributes(r);
    SaidFirst("via", r.gateway, Clause("dev", r.dev) + t3, asked);
    SaidFirst("dev", r.dev, t3, asked);
    SaidFirst("scope", r.scope, Attributes(r), asked);
  }

  /** Adding and deleting a row name the same place. */
  lemma PlaceIs(a: Action, r: Row)
    ensures |ToArgv(a, r)| >= 4 && SlotOf(ToArgv(a, r)) == Place(r)
    ensures Place(r) == Slot(Or(r.table, MAIN), r.dst, Or(r.dev, ""), Or(r.metric, 0))
  {
    SaidPath(r);
    assert ToArgv(a, r)[4..] == Path(r) == ToArgv(Add, r)[4..];
    if r.metric.Some? {
      DecimalRoundTrip(r.metric.value);
    }
  }

  /** The diff tells rows apart exactly as the kernel does: by destination, device, table and metric. */
  lemma IdentityIsPlace(a: Row, b: Row)
    ensures Place(a) != Place(b) <==> Differ(a, b)
    ensures ToldAlike(Identity, Place, a, b)
  {
    PlaceIs(Add, a);
    PlaceIs(Add, b);
  }

  /** Rows that differ in metric, device, table or destination stand side by side in the kernel, and no others
      do: after one was added, the other can be added exactly if it differs and was not there before. */
  lemma RowsCoexist(t: Table, a: Row, b: Row)
    requires Perform(t, ToArgv(Add, a)).Some?
    ensures var t' := Perform(t, ToArgv(Add, a)).value;
      && (Perform(t', ToArgv(Add, b)).Some? <==> Differ(a, b) && Perform(t, ToArgv(Add, b)).Some?)
      && (Perform(t', ToArgv(Add, b)).Some? ==>
            var both := Perform(t', ToArgv(Add, b)).value;
            && Place(a) in both && both[Place(a)] == Normal(a) && Place(b) in both && both[Place(b)] == Normal(b)
            && Perform(both, ToArgv(Del, b)) == Some(t'))
  {
    PerformIs(t, Add, a);
    PerformIs(t, Add, b);
    IdentityIsPlace(a, b);
    var t' := Perform(t, ToArgv(Add, a)).value;
    PerformIs(t', Add, b);
    if Perform(t', ToArgv(Add, b)).Some? {
      var both := Perform(t', ToArgv(Add, b)).value;
      PerformIs(both, Del, b);
      assert both - {Place(b)} == t';
    }
  }

  /** Where a run that fails stops: every invocation before `k` was performed, and `k` was refused. */
  ghost predicate StopsAt(t: Table, invocations: seq<Argv>, k: nat, after: Table) {
    && k < |invocations|
    && Replayed(Perform, t, invocations[..k]) == Some(after)
    && Perform(after, invocations[k]).None?
  }

  method DiffApply(t: Table, invocations: seq<Argv>, dryRun: bool) returns (after: Table, result: ExecutionOutcome)
    ensures !result.Conflicted? && (result.Skipped? <==> invocations == [])
    ensures result.WouldApply? <==> invocations != [] && dryRun
    ensures result.Skipped? || result.WouldApply? ==> after == t
    ensures result.Applied? ==> Replayed(Perform, t, invocations) == Some(after)
    ensures result.Failed? ==> Replayed(Perform, t, invocations).None? && exists k :: StopsAt(t, invocations, k, after)
  {
    after := t;
    if invocations == [] {
      return after, Skipped("no inverse invocations to replay");
    }
    if dryRun {
      return after, WouldApply;
    }
    var i := 0;
    while i < |invocations|
      invariant i <= |invocations| && Replayed(Perform, t, invocations[..i]) == Some(after)
    {
      assert invocations[..i + 1][..i] == invocations[..i];
      var next := Perform(after, invocations[i]);
      if next.None? {
        FailsForGood(Perform, t, invocations, i + 1);
        assert StopsAt(t, invocations, i, after);
        return after, Failed(if invocations[i] == [] then "?" else invocations[i][0]);
      }
      after := next.value;
      i := i + 1;
    }
    assert invocations[..i] == invocations;
    result := Applied;
  }

  // ------------------------------------------------------------------
  // The synthesised inverse
  // ------------------------------------------------------------------

  ghost function Ids(rows: seq<Row>): set<Id> {
    Keys(rows, Identity)
  }

  function Commands(a: Action, rows: seq<Row>): seq<Argv> {
    seq(|rows|, i requires 0 <= i < |rows| => ToArgv(a, rows[i]))
  }

  /** The rows of `post` that `pre` does not know. */
  ghost function Appeared(pre: seq<Row>, post: seq<Row>): seq<Row> {
    Only(post, Identity, Ids(pre))
  }

  /** Delete what appeared, then add back what went away. */
  ghost function Inverse(pre: seq<Row>, post: seq<Row>): seq<Argv> {
    Commands(Del, Appeared(pre, post)) + Commands(Add, Appeared(post, pre))
  }

  method Among(r: Row, rows: seq<Row>) returns (found: bool)
    ensures found <==> Identity(r) in Ids(rows)
  {
    KeysHas(rows, Identity, Identity(r));
    for i := 0 to |rows|
      invariant forall j :: 0 <= j < i ==> Identity(rows[j]) != Identity(r)
    {
      if Identity(rows[i]) == Identity(r) {
        return true;
      }
    }
    found := false;
  }

  method CommandsFor(a: Action, rows: seq<Row>, others: seq<Row>) returns (out: seq<Argv>)
    ensures out == Commands(a, Appeared(others, rows))
  {
    out := [];
    for i := 0 to |rows|
      invariant out == Commands(a, Appeared(others, rows[..i]))
    {
      assert rows[..i + 1][..i] == rows[..i];
      var found := Among(rows[i], others);
      if !found {
        CommandsSnoc(a, Appeared(others, rows[..i]), rows[i]);
        out := out + [ToArgv(a, rows[i])];
      }
    }
    assert rows[..|rows|] == rows;
  }

  lemma CommandsSnoc(a: Action, rows: seq<Row>, r: Row)
    ensures Commands(a, rows + [r]) == Commands(a, rows) + [ToArgv(a, r)]
  {
  }

  /** `None` stands for a state that does not parse. */
  method SynthesiseIpRoute(before: Option<seq<Row>>, after: Option<seq<Row>>) returns (inverse: seq<Argv>)
    ensures inverse == if before.None? || after.None? then [] else Inverse(before.value, after.value)
    ensures before.Some? && after.Some? ==>
      && (forall r :: r in after.value ==> (ToArgv(Del, r) in inverse <==> New(r, before.value)))
      && (forall r :: r in before.value ==> (ToArgv(Add, r) in inverse <==> New(r, after.value)))
  {
    if before.None? {
      return [];
    }
    if after.None? {
      return [];
    }
    var dels := CommandsFor(Del, after.value, before.value);
    var adds := CommandsFor(Add, before.value, after.value);
    inverse := dels + adds;
    ghost var pre, post := before.value, after.value;
    forall r | r in post ensures ToArgv(Del, r) in inverse <==> New(r, pre) {
      CommandedIff(Del, r, pre, post);
      OtherVerb(Add, Appeared(post, pre), Del, r);
    }
    forall r | r in pre ensures ToArgv(Add, r) in inverse <==> New(r, post) {
      CommandedIff(Add, r, post, pre);
      OtherVerb(Del, Appeared(pre, post), Add, r);
    }
  }

  /** No row listed is the same route. */
  ghost predicate New(r: Row, rows: seq<Row>) {
    forall q :: q in rows ==> Differ(q, r)
  }

  lemma NewIff(r: Row, rows: seq<Row>)
    ensures New(r, rows) <==> Identity(r) !in Ids(rows)
  {
    KeysHas(rows, Identity, Identity(r));
    forall q ensures Identity(q) == Identity(r) <==> !Differ(q, r) {
      IdentityIsPlace(q, r);
    }
  }

  lemma SameCommand(a: Action, r: Row, q: Row)
    requires ToArgv(a, r) == ToArgv(a, q)
    ensures Identity(r) == Identity(q)
  {
    PlaceIs(a, r);
    PlaceIs(a, q);
  }

  /** Where a command stands for a row, that row's identity is among those commanded. */
  lemma CommandedAt(a: Action, r: Row, only: seq<Row>) returns (q: Row)
    requires ToArgv(a, r) in Commands(a, only)
    ensures q in only && Identity(q) == Identity(r)
  {
    var i :| 0 <= i < |only| && Commands(a, only)[i] == ToArgv(a, r);
    q := only[i];
    SameCommand(a, q, r);
  }

  lemma CommandedIn(a: Action, r: Row, only: seq<Row>)
    requires r in only
    ensures ToArgv(a, r) in Commands(a, only)
  {
    var i :| 0 <= i < |only| && only[i] == r;
    assert Commands(a, only)[i] == ToArgv(a, r);
  }

  /** A row is commanded exactly if it is new. */
  lemma CommandedIff(a: Action, r: Row, others: seq<Row>, rows: seq<Row>)
    requires r in rows
    ensures ToArgv(a, r) in Commands(a, Appeared(others, rows)) <==> New(r, others)
  {
    var only := Appeared(others, rows);
    NewIff(r, others);
    OnlyHas(rows, Identity, Ids(others), r);
    if r in only {
      CommandedIn(a, r, only);
    } else if ToArgv(a, r) in Commands(a, only) {
      var q := CommandedAt(a, r, only);
      OnlyHas(rows, Identity, Ids(others), q);
    }
  }

  lemma OtherVerb(a: Action, rows: seq<Row>, b: Action, r: Row)
    requires a != b
    ensures ToArgv(b, r) !in Commands(a, rows)
  {
    forall i | 0 <= i < |rows| ensures Commands(a, rows)[i] != ToArgv(b, r) {
      ArgvReadsBack(a, rows[i]);
      ArgvReadsBack(b, r);
    }
  }

  // ------------------------------------------------------------------
  // What replaying the inverse does
  // ------------------------------------------------------------------

  lemma PerformIs(t: Table, a: Action, r: Row)
    ensures Perform(t, ToArgv(a, r)) == if a.Add? then Put(t, Place(r), Normal(r)) else Drop(t, Place(r))
  {
    ArgvReadsBack(a, r);
    PlaceIs(a, r);
  }

  lemma {:induction false} ReplayedCommands(t: Table, a: Action, rows: seq<Row>)
    ensures Replayed(Perform, t, Commands(a, rows)) ==
      if a.Add? then PutAll(t, rows, Place, Normal) else DropAll(t, rows, Place)
  {
    if rows != [] {
      var m := |rows| - 1;
      var init := rows[..m];
      assert init + [rows[m]] == rows;
      CommandsSnoc(a, init, rows[m]);
      ReplayedSnoc(Perform, t, Commands(a, init), ToArgv(a, rows[m]));
      ReplayedCommands(t, a, init);
      var sofar := Replayed(Perform, t, Commands(a, init));
      if sofar.Some? {
        PerformIs(sofar.value, a, rows[m]);
      }
    }
  }

  /** No place appeared twice and none went away twice. */
  ghost predicate Unambiguous(pre: seq<Row>, post: seq<Row>) {
    DistinctKeys(Appeared(pre, post), Place) && DistinctKeys(Appeared(post, pre), Place)
  }

  /** Any two rows differ. */
  ghost predicate ListedOnce(rows: seq<Row>) {
    forall i, j :: 0 <= i < j < |rows| ==> Differ(rows[i], rows[j])
  }

  lemma ListedOnceIs(rows: seq<Row>)
    requires ListedOnce(rows)
    ensures DistinctKeys(rows, Place)
  {
    forall i, j | 0 <= i < j < |rows| ensures Place(rows[i]) != Place(rows[j]) {
      IdentityIsPlace(rows[i], rows[j]);
    }
    DistinctKeysIs(rows, Place);
  }

  /** States no two rows of which are the same route are never ambiguous. */
  lemma DistinctIsUnambiguous(pre: seq<Row>, post: seq<Row>)
    requires ListedOnce(pre) && ListedOnce(post)
    ensures Unambiguous(pre, post)
  {
    ListedOnceIs(pre);
    ListedOnceIs(post);
    AppearedIs(pre, post);
    AppearedIs(post, pre);
    OnlyKeepsDistinct(post, Place, Keys(pre, Place));
    OnlyKeepsDistinct(pre, Place, Keys(post, Place));
  }

  /** What appeared is what stands in a new place. */
  lemma AppearedIs(pre: seq<Row>, post: seq<Row>)
    ensures Appeared(pre, post) == Only(post, Place, Keys(pre, Place))
  {
    forall a, b ensures ToldAlike(Identity, Place, a, b) {
      IdentityIsPlace(a, b);
    }
    OnlyRekeyed(post, pre, Identity, Place);
  }

  /** The inverse runs to its end exactly when it is unambiguous, and then what both states know keeps
      its present row and the rest is as captured. */
  lemma InverseReverts(t: Table, pre: seq<Row>, post: seq<Row>)
    requires t.Keys == Keys(post, Place)
    ensures Replayed(Perform, t, Inverse(pre, post)) ==
      if Unambiguous(pre, post) then Some(Reverted(t, TableOf(pre))) else None
  {
    var gone, back := Appeared(pre, post), Appeared(post, pre);
    ReplayedInTurn(Perform, t, Commands(Del, gone), Commands(Add, back));
    ReplayedCommands(t, Del, gone);
    var left := Replayed(Perform, t, Commands(Del, gone));
    if left.Some? {
      ReplayedCommands(left.value, Add, back);
    }
    AppearedIs(pre, post);
    AppearedIs(post, pre);
    UndoReverts(t, pre, post, Place, Normal);
  }

  /** Undoing restores the captured identities, and the captured table itself exactly when the routes
      known before and after did not change in other respects. */
  lemma UndoRestores(pre: seq<Row>, post: seq<Row>)
    requires Unambiguous(pre, post)
    ensures var after := Replayed(Perform, TableOf(post), Inverse(pre, post));
      && after.Some? && after.value.Keys == TableOf(pre).Keys
      && (after.value == TableOf(pre) <==> SharedAgree(TableOf(pre), TableOf(post)))
  {
    InverseReverts(TableOf(post), pre, post);
    RevertedIs(TableOf(post), TableOf(pre));
  }

  ghost predicate SharedAgree(a: Table, b: Table) {
    forall place :: place in a && place in b ==> a[place] == b[place]
  }

  /** Redo is the inverse with its arguments swapped; run after an undo it leads back to the very same
      table, for all captured states. */
  lemma RedoUndoesUndo(pre: seq<Row>, post: seq<Row>)
    requires Unambiguous(pre, post)
    ensures Replayed(Perform, TableOf(post), Inverse(pre, post) + Inverse(post, pre)) == Some(TableOf(post))
  {
    var t := TableOf(post);
    var mid := Reverted(t, TableOf(pre));
    InverseReverts(t, pre, post);
    RevertedIs(t, TableOf(pre));
    InverseReverts(mid, post, pre);
    ReplayedInTurn(Perform, t, Inverse(pre, post), Inverse(post, pre));
    RevertedBack(t, TableOf(pre));
  }

  /** A route whose gateway changed keeps its identity, so nothing is synthesised to change it back. */
  lemma ChangedGatewayIsNotRestored(r: Row, gateway: Option<string>)
    requires gateway != r.gateway
    ensures var pre, post := [r], [r.(gateway := gateway)];
      Inverse(pre, post) == [] && TableOf(post) != TableOf(pre)
  {
    var pre, post := [r], [r.(gateway := gateway)];
    assert Identity(pre[0]) == Identity(post[0]) && Identity(r) in Ids(pre) && Identity(r) in Ids(post);
    OnlyOfOne(r, Identity, Ids(post));
    OnlyOfOne(post[0], Identity, Ids(pre));
    IdentityIsPlace(pre[0], post[0]);
    assert TableOf(pre)[Place(r)].gateway != TableOf(post)[Place(r)].gateway;
  }
}
