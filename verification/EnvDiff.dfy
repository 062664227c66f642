/** Environment diffs (crates/shit-planner/src/env.rs:219-263) and their replay as SetEnv and
    UnsetEnv nodes (crates/shit-planner/src/plan_forward.rs:278-312). */
module EnvDiff {
  import opened Plan
  import Text

  datatype Filter = Filter(
    ignore: seq<string>, ignorePrefixes: seq<string>, redactSubstrings: seq<string>, trackAll: bool)

  datatype Diff = Diff(
    added: map<string, string>, removed: map<string, string>, modified: map<string, (string, string)>)

  predicate IsIgnored(filter: Filter, name: string) {
    && !filter.trackAll
    && (name in filter.ignore || exists p :: p in filter.ignorePrefixes && p <= name)
  }

  function ToUpper(s: string): string {
    seq(|s|, i requires 0 <= i < |s| => if 'a' <= s[i] <= 'z' then s[i] - 'a' + 'A' else s[i])
  }

  predicate Contains(s: string, part: string) {
    exists i :: 0 <= i <= |s| && part <= s[i..]
  }

  predicate IsRedacted(filter: Filter, name: string) {
    exists p :: p in filter.redactSubstrings && Contains(ToUpper(name), p)
  }

  /** A redacted name's value is replaced by a digest of it; `redact` is that digest. */
  function Project(filter: Filter, redact: string -> string, name: string, value: string): string {
    if IsRedacted(filter, name) then redact(value) else value
  }

  // ------------------------------------------------------------------
  // diff_env_maps
  // ------------------------------------------------------------------

  /** Which part of the diff a name belongs to, name by name. */
  ghost predicate IsDiff(d: Diff, pre: Environment, post: Environment, filter: Filter, redact: string -> string) {
    forall name :: IsDiffAt(d, pre, post, filter, redact, name)
  }

  ghost predicate IsDiffAt(d: Diff, pre: Environment, post: Environment, filter: Filter, redact: string -> string,
                           name: string) {
    var tracked := !IsIgnored(filter, name);
    && (name in d.added <==> tracked && name in post && name !in pre)
    && (name in d.removed <==> tracked && name in pre && name !in post)
    && (name in d.modified <==> tracked && name in pre && name in post && pre[name] != post[name])
    && (name in d.added ==> d.added[name] == Project(filter, redact, name, post[name]))
    && (name in d.removed ==> d.removed[name] == Project(filter, redact, name, pre[name]))
    && (name in d.modified ==>
          d.modified[name] == (Project(filter, redact, name, pre[name]), Project(filter, redact, name, post[name])))
  }

  method DiffEnvMaps(pre: Environment, post: Environment, filter: Filter, redact: string -> string) returns (d: Diff)
    ensures IsDiff(d, pre, post, filter, redact)
    ensures forall name :: ShowsAt(d, pre, post, filter, redact, name)
  {
    d := Diff(map[], map[], map[]);
    var todo := post.Keys;
    while todo != {}
      invariant todo <= post.Keys && d.removed == map[]
      invariant forall name :: name in todo ==> name !in d.added && name !in d.modified
      invariant forall name :: name !in todo ==> PostDone(d, pre, post, filter, redact, name)
      decreases todo
    {
      var name := Text.NextKey(todo);
      ghost var was := d;
      if !IsIgnored(filter, name) {
        if name !in pre {
          d := d.(added := d.added[name := Project(filter, redact, name, post[name])]);
        } else if pre[name] != post[name] {
          d := d.(modified := d.modified[name :=
            (Project(filter, redact, name, pre[name]), Project(filter, redact, name, post[name]))]);
        }
      }
      todo := todo - {name};
      forall other | other !in todo ensures PostDone(d, pre, post, filter, redact, other) {
        assert other != name ==> PostDone(was, pre, post, filter, redact, other);
      }
    }
    todo := pre.Keys;
    while todo != {}
      invariant todo <= pre.Keys
      invariant forall name :: PostDone(d, pre, post, filter, redact, name)
      invariant forall name :: name in todo ==> name !in d.removed
      invariant forall name :: name !in todo ==> PreDone(d, pre, post, filter, redact, name)
      decreases todo
    {
      var name := Text.NextKey(todo);
      ghost var was := d;
      if !IsIgnored(filter, name) && name !in post {
        d := d.(removed := d.removed[name := Project(filter, redact, name, pre[name])]);
      }
      todo := todo - {name};
      forall other ensures PostDone(d, pre, post, filter, redact, other) {
        assert PostDone(was, pre, post, filter, redact, other);
      }
      forall other | other !in todo ensures PreDone(d, pre, post, filter, redact, other) {
        assert other != name ==> PreDone(was, pre, post, filter, redact, other);
      }
    }
    forall name ensures IsDiffAt(d, pre, post, filter, redact, name) {
      assert PostDone(d, pre, post, filter, redact, name) && PreDone(d, pre, post, filter, redact, name);
    }
    DiffShows(d, pre, post, filter, redact);
  }

  /** Neither listed for being ignored nor of an ignored family, or all names are tracked. */
  ghost predicate Unlisted(filter: Filter, name: string) {
    filter.trackAll ||
    ((forall n :: n in filter.ignore ==> n != name) &&
     (forall p :: p in filter.ignorePrefixes ==> |p| > |name| || name[..|p|] != p))
  }

  /** `name` spells the marked `part` from position `i` on, its small letters taken for capitals. */
  ghost predicate SpelledIn(filter: Filter, name: string, part: string, i: nat) {
    && part in filter.redactSubstrings && i + |part| <= |name|
    && forall j :: 0 <= j < |part| ==> Capital(name[i + j], part[j])
  }

  predicate Capital(c: char, u: char) {
    if 'a' <= c <= 'z' then u as int == c as int - 32 else u == c
  }

  lemma SpelledAt(filter: Filter, name: string, part: string, i: nat)
    requires part in filter.redactSubstrings && i <= |name|
    ensures SpelledIn(filter, name, part, i) <==> part <= ToUpper(name)[i..]
  {
    var upper := ToUpper(name);
    if i + |part| <= |name| {
      forall j | 0 <= j < |part| ensures Capital(name[i + j], part[j]) <==> upper[i..][j] == part[j] {
      }
      assert part <= upper[i..] <==> forall j :: 0 <= j < |part| ==> upper[i..][j] == part[j];
    }
  }

  lemma RedactedIff(filter: Filter, name: string)
    ensures IsRedacted(filter, name) <==> exists p, i :: SpelledIn(filter, name, p, i)
  {
    if IsRedacted(filter, name) {
      var p :| p in filter.redactSubstrings && Contains(ToUpper(name), p);
      var i :| 0 <= i <= |ToUpper(name)| && p <= ToUpper(name)[i..];
      SpelledAt(filter, name, p, i);
    }
    if p, i :| SpelledIn(filter, name, p, i) {
      SpelledAt(filter, name, p, i);
      assert Contains(ToUpper(name), p);
    }
  }

  /** Redaction does not tell small letters from capitals. */
  lemma RedactionIgnoresCase(filter: Filter, a: string, b: string)
    requires |a| == |b| && forall i :: 0 <= i < |a| ==> a[i] == b[i] || Capital(a[i], b[i]) || Capital(b[i], a[i])
    ensures IsRedacted(filter, a) == IsRedacted(filter, b)
  {
    assert ToUpper(a) == ToUpper(b);
  }

  ghost function Shown(filter: Filter, redact: string -> string, name: string, value: string): string {
    if exists p, i :: SpelledIn(filter, name, p, i) then redact(value) else value
  }

  /** What a diff shows of a name, said of the filter's lists and the letters of the name. */
  ghost predicate ShowsAt(d: Diff, pre: Environment, post: Environment, filter: Filter, redact: string -> string,
                          name: string) {
    && (!Unlisted(filter, name) ==> name !in d.added && name !in d.removed && name !in d.modified)
    && (Unlisted(filter, name) ==>
          && At(d.added, name) == (if name in post && name !in pre then Some(Shown(filter, redact, name, post[name]))
                                   else None)
          && At(d.removed, name) == (if name in pre && name !in post then Some(Shown(filter, redact, name, pre[name]))
                                     else None)
          && At(d.modified, name) ==
             (if name in pre && name in post && pre[name] != post[name] then
                Some((Shown(filter, redact, name, pre[name]), Shown(filter, redact, name, post[name])))
              else None))
  }

  lemma DiffShows(d: Diff, pre: Environment, post: Environment, filter: Filter, redact: string -> string)
    requires IsDiff(d, pre, post, filter, redact)
    ensures forall name :: ShowsAt(d, pre, post, filter, redact, name)
  {
    forall name ensures ShowsAt(d, pre, post, filter, redact, name) {
      assert IsDiffAt(d, pre, post, filter, redact, name);
      UnlistedIff(filter, name);
      RedactedIff(filter, name);
    }
  }

  lemma UnlistedIff(filter: Filter, name: string)
    ensures Unlisted(filter, name) <==> !IsIgnored(filter, name)
  {
    forall p | p in filter.ignorePrefixes ensures p <= name <==> |p| <= |name| && name[..|p|] == p {
    }
  }

  /** The first loop has treated `name`. */
  ghost predicate PostDone(d: Diff, pre: Environment, post: Environment, filter: Filter, redact: string -> string,
                           name: string) {
    var tracked := !IsIgnored(filter, name);
    && (name in d.added <==> tracked && name in post && name !in pre)
    && (name in d.modified <==> tracked && name in pre && name in post && pre[name] != post[name])
    && (name in d.added ==> d.added[name] == Project(filter, redact, name, post[name]))
    && (name in d.modified ==>
          d.modified[name] == (Project(filter, redact, name, pre[name]), Project(filter, redact, name, post[name])))
  }

  /** The second loop has treated `name`. */
  ghost predicate PreDone(d: Diff, pre: Environment, post: Environment, filter: Filter, redact: string -> string,
                          name: string) {
    && (name in d.removed <==> !IsIgnored(filter, name) && name in pre && name !in post)
    && (name in d.removed ==> d.removed[name] == Project(filter, redact, name, pre[name]))
  }

  /** The diff does not depend on the values of ignored names. */
  lemma DiffIgnoresIgnored(d: Diff, d': Diff, pre: Environment, post: Environment, pre': Environment,
                           post': Environment,
                           filter: Filter, redact: string -> string)
    requires IsDiff(d, pre, post, filter, redact) && IsDiff(d', pre', post', filter, redact)
    requires forall name :: !IsIgnored(filter, name) ==>
      At(pre, name) == At(pre', name) && At(post, name) == At(post', name)
    ensures d == d'
  {
    forall name
      ensures At(d.added, name) == At(d'.added, name) && At(d.removed, name) == At(d'.removed, name)
      ensures At(d.modified, name) == At(d'.modified, name)
    {
      assert IsDiffAt(d, pre, post, filter, redact, name) && IsDiffAt(d', pre', post', filter, redact, name);
      assert IsIgnored(filter, name) || (At(pre, name) == At(pre', name) && At(post, name) == At(post', name));
    }
    SameMap(d.added, d'.added);
    SameMap(d.removed, d'.removed);
    SameMap(d.modified, d'.modified);
  }

  function At<V>(m: map<string, V>, name: string): Option<V> {
    if name in m then Some(m[name]) else None
  }

  lemma SameMap<V>(a: map<string, V>, b: map<string, V>)
    requires forall name :: At(a, name) == At(b, name)
    ensures a == b
  {
    forall name | name in a.Keys + b.Keys ensures name in a && name in b && a[name] == b[name] {
      assert At(a, name) == At(b, name);
    }
  }

  // ------------------------------------------------------------------
  // Planning and replay
  // ------------------------------------------------------------------

  /** The nodes planned for a diff: added values, removals, then new values, each in name order. */
  ghost function EnvOps(d: Diff): seq<InverseOp> {
    OpsOver(d, Text.InOrder(d.added.Keys), Text.InOrder(d.removed.Keys), Text.InOrder(d.modified.Keys))
  }

  ghost function OpsOver(d: Diff, added: seq<string>, removed: seq<string>, modified: seq<string>): seq<InverseOp> {
    SetAll(d.added, added) + UnsetAll(removed) + SetAll(NewValues(d.modified), modified)
  }

  function NewValues(modified: map<string, (string, string)>): map<string, string> {
    map name | name in modified :: modified[name].1
  }

  ghost function SetAll(values: map<string, string>, names: seq<string>): seq<InverseOp> {
    seq(|names|, i requires 0 <= i < |names| =>
      SetEnv(names[i], if names[i] in values then values[names[i]] else ""))
  }

  ghost function UnsetAll(names: seq<string>): seq<InverseOp> {
    seq(|names|, i requires 0 <= i < |names| => UnsetEnv(names[i]))
  }

  /** The loop over one part of the diff; `unset` drops the values. */
  method EmitPart(values: map<string, string>, unset: bool) returns (ops: seq<InverseOp>)
    ensures ops == if unset then UnsetAll(Text.InOrder(values.Keys)) else SetAll(values, Text.InOrder(values.Keys))
  {
    ops := [];
    var todo := values.Keys;
    ghost var done: seq<string> := [];
    while todo != {}
      invariant todo <= values.Keys
      invariant done + Text.InOrder(todo) == Text.InOrder(values.Keys)
      invariant ops == if unset then UnsetAll(done) else SetAll(values, done)
      decreases todo
    {
      var name := Text.NextKey(todo);
      ops := ops + [if unset then UnsetEnv(name) else SetEnv(name, values[name])];
      done := done + [name];
      todo := todo - {name};
    }
    assert done + [] == done;
  }

  method PlanEnv(d: Diff) returns (ops: seq<InverseOp>)
    ensures ops == EnvOps(d)
  {
    var a := EmitPart(d.added, false);
    var r := EmitPart(d.removed, true);
    var m := EmitPart(NewValues(d.modified), false);
    assert NewValues(d.modified).Keys == d.modified.Keys;
    ops := a + r + m;
  }

  predicate EnvOp(op: InverseOp) {
    op.SetEnv? || op.UnsetEnv?
  }

  /** What an environment node does to the shell. */
  function Apply(op: InverseOp, env: Environment): Environment {
    match op
    case SetEnv(name, value) => env[name := value]
    case UnsetEnv(name) => env - {name}
    case _ => env
  }

  function Replay(ops: seq<InverseOp>, env: Environment): Environment {
    if ops == [] then env else Apply(ops[|ops| - 1], Replay(ops[..|ops| - 1], env))
  }

  /** What a node leaves at its own name. */
  function Effect(op: InverseOp): Option<string> {
    if op.SetEnv? then Some(op.value) else None
  }

  ghost predicate DistinctNames(ops: seq<InverseOp>) {
    && (forall i :: 0 <= i < |ops| ==> EnvOp(ops[i]))
    && (forall i, j :: 0 <= i < j < |ops| ==> ops[i].name != ops[j].name)
  }

  lemma {:induction false} ReplayEffects(ops: seq<InverseOp>, env: Environment)
    requires DistinctNames(ops)
    ensures forall i :: 0 <= i < |ops| ==> At(Replay(ops, env), ops[i].name) == Effect(ops[i])
    ensures forall name :: (forall i :: 0 <= i < |ops| ==> ops[i].name != name) ==>
      At(Replay(ops, env), name) == At(env, name)
  {
    if ops != [] {
      var n := |ops| - 1;
      var front := ops[..n];
      ReplayEffects(front, env);
      var before := Replay(front, env);
      assert Replay(ops, env) == Apply(ops[n], before);
      forall i | 0 <= i < n ensures At(Replay(ops, env), ops[i].name) == Effect(ops[i]) {
        assert front[i] == ops[i];
      }
      forall name | forall i :: 0 <= i < |ops| ==> ops[i].name != name
        ensures At(Replay(ops, env), name) == At(env, name)
      {
        assert ops[n].name != name;
        assert forall i :: 0 <= i < n ==> front[i].name != name;
      }
    }
  }

  /** The node a diff has for a name, if any. */
  function OpFor(d: Diff, name: string): Option<InverseOp> {
    if name in d.added then Some(SetEnv(name, d.added[name]))
    else if name in d.removed then Some(UnsetEnv(name))
    else if name in d.modified then Some(SetEnv(name, d.modified[name].1))
    else None
  }

  ghost predicate PartsDisjoint(d: Diff) {
    && d.added.Keys !! d.removed.Keys
    && d.added.Keys !! d.modified.Keys
    && d.removed.Keys !! d.modified.Keys
  }

  /** The names in planning order. */
  ghost function Names(d: Diff): seq<string> {
    Text.InOrder(d.added.Keys) + Text.InOrder(d.removed.Keys) + Text.InOrder(d.modified.Keys)
  }

  lemma OpAt(d: Diff, i: nat)
    requires PartsDisjoint(d) && i < |EnvOps(d)|
    ensures |EnvOps(d)| == |Names(d)|
    ensures EnvOp(EnvOps(d)[i]) && EnvOps(d)[i].name == Names(d)[i]
    ensures OpFor(d, Names(d)[i]) == Some(EnvOps(d)[i])
  {
    Text.InOrderSorted(d.added.Keys);
    Text.InOrderSorted(d.removed.Keys);
    Text.InOrderSorted(d.modified.Keys);
    OpOverAt(d, Text.InOrder(d.added.Keys), Text.InOrder(d.removed.Keys), Text.InOrder(d.modified.Keys), i);
  }

  lemma OpOverAt(d: Diff, a: seq<string>, r: seq<string>, m: seq<string>, i: nat)
    requires PartsDisjoint(d) && i < |a + r + m|
    requires forall k :: (k in a ==> k in d.added) && (k in r ==> k in d.removed) && (k in m ==> k in d.modified)
    ensures |OpsOver(d, a, r, m)| == |a + r + m|
    ensures EnvOp(OpsOver(d, a, r, m)[i]) && OpsOver(d, a, r, m)[i].name == (a + r + m)[i]
    ensures OpFor(d, (a + r + m)[i]) == Some(OpsOver(d, a, r, m)[i])
  {
    var op := OpsOver(d, a, r, m)[i];
    if i < |a| {
      assert a[i] in a;
      assert op == SetAll(d.added, a)[i];
    } else if i < |a| + |r| {
      assert r[i - |a|] in r;
      assert op == UnsetAll(r)[i - |a|];
    } else {
      assert m[i - |a| - |r|] in m;
      assert op == SetAll(NewValues(d.modified), m)[i - |a| - |r|];
    }
  }

  lemma NamesDistinct(d: Diff, i: nat, j: nat)
    requires PartsDisjoint(d) && i < j < |Names(d)|
    ensures Names(d)[i] != Names(d)[j]
  {
    Text.InOrderSorted(d.added.Keys);
    Text.InOrderSorted(d.removed.Keys);
    Text.InOrderSorted(d.modified.Keys);
    NamesDiffer(Text.InOrder(d.added.Keys), Text.InOrder(d.removed.Keys), Text.InOrder(d.modified.Keys), i, j);
  }

  lemma NamesAreTheChanges(d: Diff, name: string)
    ensures name in Names(d) <==> OpFor(d, name).Some?
  {
    Text.InOrderSorted(d.added.Keys);
    Text.InOrderSorted(d.removed.Keys);
    Text.InOrderSorted(d.modified.Keys);
    var a, r, m := Text.InOrder(d.added.Keys), Text.InOrder(d.removed.Keys), Text.InOrder(d.modified.Keys);
    assert name in a + r + m <==> name in a || name in r || name in m;
  }

  lemma OpsAreTheNodes(d: Diff)
    requires PartsDisjoint(d)
    ensures DistinctNames(EnvOps(d))
    ensures forall op :: op in EnvOps(d) ==> EnvOp(op) && OpFor(d, op.name) == Some(op)
    ensures forall name :: OpFor(d, name).Some? ==> OpFor(d, name).value in EnvOps(d)
  {
    var ops := EnvOps(d);
    forall i | 0 <= i < |ops|
      ensures |ops| == |Names(d)| && EnvOp(ops[i]) && ops[i].name == Names(d)[i]
      ensures OpFor(d, ops[i].name) == Some(ops[i])
    {
      OpAt(d, i);
    }
    forall i, j | 0 <= i < j < |ops| ensures ops[i].name != ops[j].name {
      NamesDistinct(d, i, j);
    }
    forall name | OpFor(d, name).Some? ensures OpFor(d, name).value in ops {
      NamesAreTheChanges(d, name);
      var i :| 0 <= i < |Names(d)| && Names(d)[i] == name;
      assert |ops| == |Names(d)|;
      assert OpFor(d, ops[i].name) == Some(ops[i]);
    }
  }

  lemma NamesDiffer(a: seq<string>, r: seq<string>, m: seq<string>, i: nat, j: nat)
    requires Text.Sorted(a) && Text.Sorted(r) && Text.Sorted(m) && i < j < |a| + |r| + |m|
    requires forall k :: !(k in a && k in r) && !(k in a && k in m) && !(k in r && k in m)
    ensures (a + r + m)[i] != (a + r + m)[j]
  {
    var all := a + r + m;
    var x, y := all[i], all[j];
    assert (x in a && i < |a|) || (x in r && |a| <= i < |a| + |r|) || (x in m && |a| + |r| <= i);
    assert (y in a && j < |a|) || (y in r && |a| <= j < |a| + |r|) || (y in m && |a| + |r| <= j);
    Text.LessIrreflexive(x);
    if j < |a| {
      assert Text.Less(a[i], a[j]);
    } else if |a| <= i && j < |a| + |r| {
      assert Text.Less(r[i - |a|], r[j - |a|]);
    } else if |a| + |r| <= i {
      assert Text.Less(m[i - |a| - |r|], m[j - |a| - |r|]);
    }
  }

  lemma {:induction false} CountTwice<T>(s: seq<T>, i: nat, j: nat)
    requires i < j < |s| && s[i] == s[j]
    ensures multiset(s)[s[i]] >= 2
  {
    assert s == s[..j] + [s[j]] + s[j + 1..];
    assert s[..j] == s[..i] + [s[i]] + s[i + 1..j];
  }

  lemma {:induction false} CountOnce<T>(s: seq<T>, x: T)
    requires forall i, j :: 0 <= i < j < |s| ==> s[i] != s[j]
    ensures multiset(s)[x] <= 1
  {
    if s != [] {
      var n := |s| - 1;
      CountOnce(s[..n], x);
      assert s == s[..n] + [s[n]];
      if s[n] == x {
        assert x !in s[..n];
        assert x !in multiset(s[..n]);
      }
    }
  }

  /** Reordering keeps the names distinct. */
  lemma ReorderedDistinct(ops: seq<InverseOp>, nodes: seq<InverseOp>)
    requires DistinctNames(nodes) && multiset(ops) == multiset(nodes)
    ensures DistinctNames(ops)
  {
    forall i | 0 <= i < |ops| ensures EnvOp(ops[i]) {
      assert ops[i] in multiset(ops);
    }
    forall i, j | 0 <= i < j < |ops| ensures ops[i].name != ops[j].name {
      assert ops[i] in multiset(ops) && ops[j] in multiset(ops);
      assert ops[i] in nodes && ops[j] in nodes;
      CountOnce(nodes, ops[i]);
      assert ops[i] == ops[j] ==> multiset(ops)[ops[i]] >= 2 by {
        if ops[i] == ops[j] { CountTwice(ops, i, j); }
      }
    }
  }

  /** The environment a redo should leave: ignored names as they were, changed names at the value
      the diff recorded for them. */
  ghost function Expected(pre: Environment, post: Environment, filter: Filter, redact: string -> string,
                          name: string): Option<string> {
    if IsIgnored(filter, name) then At(pre, name)
    else if At(pre, name) == At(post, name) then At(post, name)
    else if name in post then Some(Project(filter, redact, name, post[name]))
    else None
  }

  /** Replaying the planned nodes onto `pre`, in any order, leaves exactly the expected value at
      every name. */
  lemma ReplayAnyOrder(d: Diff, pre: Environment, post: Environment, filter: Filter, redact: string -> string,
                       ops: seq<InverseOp>, name: string)
    requires IsDiff(d, pre, post, filter, redact)
    requires multiset(ops) == multiset(EnvOps(d))
    ensures At(Replay(ops, pre), name) == Expected(pre, post, filter, redact, name)
  {
    DiffParts(d, pre, post, filter, redact);
    OpsAreTheNodes(d);
    ReorderedDistinct(ops, EnvOps(d));
    ReplayFollows(d, ops, pre, name);
    assert IsDiffAt(d, pre, post, filter, redact, name);
  }

  lemma DiffParts(d: Diff, pre: Environment, post: Environment, filter: Filter, redact: string -> string)
    requires IsDiff(d, pre, post, filter, redact)
    ensures PartsDisjoint(d)
  {
    forall n
      ensures !(n in d.added && n in d.removed) && !(n in d.added && n in d.modified)
      ensures !(n in d.removed && n in d.modified)
    {
      assert IsDiffAt(d, pre, post, filter, redact, n);
    }
  }

  lemma ReplayFollows(d: Diff, ops: seq<InverseOp>, env: Environment, name: string)
    requires DistinctNames(ops) && multiset(ops) == multiset(EnvOps(d))
    requires forall op :: op in EnvOps(d) ==> EnvOp(op) && OpFor(d, op.name) == Some(op)
    requires forall n :: OpFor(d, n).Some? ==> OpFor(d, n).value in EnvOps(d)
    ensures At(Replay(ops, env), name) == if OpFor(d, name).Some? then Effect(OpFor(d, name).value) else At(env, name)
  {
    ReplayEffects(ops, env);
    if OpFor(d, name).Some? {
      var op := OpFor(d, name).value;
      assert op in multiset(EnvOps(d));
      assert op in ops;
      var i :| 0 <= i < |ops| && ops[i] == op;
      assert At(Replay(ops, env), ops[i].name) == Effect(ops[i]);
    } else {
      forall i | 0 <= i < |ops| ensures ops[i].name != name {
        assert ops[i] in multiset(ops);
        assert ops[i] in EnvOps(d);
      }
    }
  }

  /** A redo brings a tracked name to its post value unless the name is redacted, its value
      changed, and the digest is not the value; and it leaves ignored names alone. */
  lemma RedoReachesPost(d: Diff, pre: Environment, post: Environment, filter: Filter, redact: string -> string,
                        ops: seq<InverseOp>, name: string)
    requires IsDiff(d, pre, post, filter, redact)
    requires multiset(ops) == multiset(EnvOps(d))
    ensures IsIgnored(filter, name) ==> At(Replay(ops, pre), name) == At(pre, name)
    ensures !IsIgnored(filter, name) ==>
      (At(Replay(ops, pre), name) == At(post, name) <==>
       !(&& IsRedacted(filter, name) && name in post && At(pre, name) != At(post, name)
         && redact(post[name]) != post[name]))
  {
    ReplayAnyOrder(d, pre, post, filter, redact, ops, name);
  }

  /** A redacted variable that was added is redone to its digest. */
  lemma RedactedIsNotRedone(d: Diff, redact: string -> string)
    requires redact("s") != "s"
    requires IsDiff(d, map[], map["API_TOKEN" := "s"], Filter([], [], ["TOKEN"], false), redact)
    ensures At(Replay(EnvOps(d), map[]), "API_TOKEN") == Some(redact("s"))
  {
    var filter := Filter([], [], ["TOKEN"], false);
    TokenIsRedacted(filter);
    ReplayAnyOrder(d, map[], map["API_TOKEN" := "s"], filter, redact, EnvOps(d), "API_TOKEN");
  }

  lemma TokenIsRedacted(filter: Filter)
    requires filter == Filter([], [], ["TOKEN"], false)
    ensures IsRedacted(filter, "API_TOKEN") && !IsIgnored(filter, "API_TOKEN")
  {
    var upper := ToUpper("API_TOKEN");
    assert upper == "API_TOKEN";
    assert "TOKEN" <= upper[4..];
    assert "TOKEN" in filter.redactSubstrings && Contains(upper, "TOKEN");
  }
}
