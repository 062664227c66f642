/** The descriptor lint (crates/shit-desc/src/schema.rs:231-309) and what it buys: a linted
    descriptor's reverse command never misses a captured variable. */
module Lint {
  import opened Plan
  import opened Paths
  import opened Template
  import opened Extract
  import Matcher

  datatype Snapshot = Snapshot(command: seq<string>, kind: ParseKind, extract: map<string, string>)

  datatype Guard = Guard(command: seq<string>, expected: string)

  /** The sections of a descriptor the rules below speak about. */
  datatype Recipe = Recipe(
    version: nat, name: string, description: string,
    argv: seq<string>, excluded: seq<seq<string>>,
    pre: Snapshot, post: Option<Snapshot>,
    reverse: seq<string>, guard: Option<Guard>,
    privileged: bool, confirms: bool, builtin: bool)

  // ------------------------------------------------------------------
  // The rules
  // ------------------------------------------------------------------

  const SHELL_META := {';', '&', '|', '$', '`', '<', '>', '(', ')', '\n'}

  predicate SafeBinary(s: string) {
    && s != []
    && (forall i :: 0 <= i < |s| - 1 ==> !DotsAt(s, i))
    && forall c :: c in s ==> c !in SHELL_META
  }

  predicate DotsAt(s: string, i: nat)
    requires i + 1 < |s|
  {
    s[i] == '.' && s[i + 1] == '.'
  }

  predicate SafeCommand(command: seq<string>) {
    command != [] && SafeBinary(command[0])
  }

  ghost predicate SnapshotClean(snap: Snapshot) {
    && SafeCommand(snap.command)
    && snap.extract.Keys != {}
    && forall k :: k in snap.extract ==> PathAccepted(snap.kind, snap.extract[k])
  }

  function ExtractedKeys(d: Recipe): set<string> {
    d.pre.extract.Keys + if d.post.Some? then d.post.value.extract.Keys else {}
  }

  /** Every valid name the template refers to is captured by some phase. */
  ghost predicate Resolved(tok: string, keys: set<string>) {
    forall v :: v in Vars(ShapeOf(tok)) ==> v in keys
  }

  const MAX_SUPPORTED_VERSION := 1

  predicate SlugStart(c: char) {
    'a' <= c <= 'z' || '0' <= c <= '9'
  }

  /** `^[a-z0-9][a-z0-9-]{0,63}$` */
  predicate ValidSlug(s: string) {
    1 <= |s| <= 64 && SlugStart(s[0]) && forall i :: 0 <= i < |s| ==> SlugStart(s[i]) || s[i] == '-'
  }

  ghost predicate Clean(d: Recipe) {
    && d.version <= MAX_SUPPORTED_VERSION && ValidSlug(d.name) && 1 <= |d.description| <= 200
    && Matcher.Clean(d.argv)
    && (forall i :: 0 <= i < |d.excluded| ==> Matcher.Clean(d.excluded[i]))
    && SnapshotClean(d.pre)
    && (d.post.Some? ==> SnapshotClean(d.post.value))
    && SafeCommand(d.reverse)
    && (forall i :: 0 <= i < |d.reverse| ==> Resolved(d.reverse[i], ExtractedKeys(d)))
    && (d.guard.Some? ==> Resolved(d.guard.value.expected, ExtractedKeys(d)) && SafeCommand(d.guard.value.command))
    && (d.builtin || (!d.privileged && d.confirms))
  }

  // ------------------------------------------------------------------
  // The lint
  // ------------------------------------------------------------------

  method VarsResolve(tok: string, keys: set<string>) returns (ok: bool)
    ensures ok <==> Resolved(tok, keys)
  {
    var vars := InterpolationVars(tok);
    for i := 0 to |vars|
      invariant forall j :: 0 <= j < i ==> vars[j] in keys
    {
      if vars[i] !in keys {
        return false;
      }
    }
    ok := true;
  }

  method AllResolve(argv: seq<string>, keys: set<string>) returns (ok: bool)
    ensures ok <==> forall i :: 0 <= i < |argv| ==> Resolved(argv[i], keys)
  {
    for i := 0 to |argv|
      invariant forall j :: 0 <= j < i ==> Resolved(argv[j], keys)
    {
      var resolves := VarsResolve(argv[i], keys);
      if !resolves {
        return false;
      }
    }
    ok := true;
  }

  method PatternsClean(argv: seq<string>, excluded: seq<seq<string>>) returns (ok: bool)
    ensures ok <==> Matcher.Clean(argv) && forall i :: 0 <= i < |excluded| ==> Matcher.Clean(excluded[i])
  {
    var first := Matcher.CheckMatchArgv(argv);
    if first != Matcher.CleanArgv {
      return false;
    }
    for i := 0 to |excluded|
      invariant forall j :: 0 <= j < i ==> Matcher.Clean(excluded[j])
    {
      var next := Matcher.CheckMatchArgv(excluded[i]);
      if next != Matcher.CleanArgv {
        return false;
      }
    }
    ok := true;
  }

  predicate SnapshotSound(snap: Snapshot) {
    SafeCommand(snap.command) && snap.extract.Keys != {}
  }

  method PathsClean(d: Recipe) returns (ok: bool)
    ensures ok <==>
      && (forall k :: k in d.pre.extract ==> PathAccepted(d.pre.kind, d.pre.extract[k]))
      && (d.post.Some? ==> forall k :: k in d.post.value.extract ==>
        PathAccepted(d.post.value.kind, d.post.value.extract[k]))
  {
    ok := CheckExtractorPaths(d.pre.kind, d.pre.extract);
    if ok && d.post.Some? {
      ok := CheckExtractorPaths(d.post.value.kind, d.post.value.extract);
    }
  }

  method CheckRecipe(d: Recipe) returns (ok: bool)
    ensures ok <==> Clean(d)
    ensures ok ==> d.version <= 1 && 1 <= |d.description| <= 200 && (d.privileged ==> d.builtin)
  {
    if d.version > MAX_SUPPORTED_VERSION || !ValidSlug(d.name) {
      return false;
    }
    if !(1 <= |d.description| <= 200) {
      return false;
    }
    var patterns := PatternsClean(d.argv, d.excluded);
    if !patterns {
      return false;
    }
    if !SnapshotSound(d.pre) {
      return false;
    }
    if d.post.Some? && !SnapshotSound(d.post.value) {
      return false;
    }
    if !SafeCommand(d.reverse) {
      return false;
    }
    var keys := ExtractedKeys(d);
    var reverse := AllResolve(d.reverse, keys);
    if !reverse {
      return false;
    }
    if d.guard.Some? {
      var expected := VarsResolve(d.guard.value.expected, keys);
      if !expected || !SafeCommand(d.guard.value.command) {
        return false;
      }
    }
    var paths := PathsClean(d);
    if !paths {
      return false;
    }
    ok := d.builtin || (!d.privileged && d.confirms);
  }

  // ------------------------------------------------------------------
  // Soundness
  // ------------------------------------------------------------------

  /** `state` unites what the phases captured; where both captured a key, either value may stand. */
  ghost predicate CapturedState(d: Recipe, pre: Output, post: Output, state: Bindings) {
    exists a: Bindings, b: Bindings ::
      && Captures(d.pre.kind, pre, d.pre.extract, a)
      && (if d.post.Some? then Captures(d.post.value.kind, post, d.post.value.extract, b) else b == map[])
      && IsUnion(state, a, b)
  }

  ghost predicate IsUnion(state: Bindings, a: Bindings, b: Bindings) {
    && state.Keys == a.Keys + b.Keys
    && forall k :: k in state ==> (k in a && state[k] == a[k]) || (k in b && state[k] == b[k])
  }

  lemma StateBindsAll(d: Recipe, pre: Output, post: Output, state: Bindings)
    requires CapturedState(d, pre, post, state)
    ensures state.Keys == ExtractedKeys(d)
  {
  }

  /** A resolved template over a captured state: what fails is never a missing variable, and it renders
      exactly when its references are closed, valid and captured non-empty. */
  lemma ResolvedRenders(tok: string, state: Bindings)
    requires Resolved(tok, state.Keys)
    ensures var r := Render(tok, state); !(r.Rejected? && r.error.MissingVariable?)
    ensures Render(tok, state).Filled? <==> RendersOver(tok, state)
    ensures Render(tok, state).Filled? ==> Render(tok, state).text == Fill(ShapeOf(tok), state)
  {
    var sh := ShapeOf(tok);
    ProblemFree(tok, sh, state);
    forall name | name in Names(sh) && ValidName(name) ensures name in state {
      VarsAreValidNames(sh, name);
    }
    var p := Problem(tok, sh, state);
    if p.Some? && p.value.MissingVariable? {
      MissingIsUnbound(tok, sh, state);
    }
  }

  /** Closed references to valid names whose captured values are not empty. */
  ghost predicate RendersOver(tok: string, state: Bindings) {
    && Closed(ShapeOf(tok))
    && forall name :: name in Names(ShapeOf(tok)) ==> ValidName(name) && (name in state ==> state[name] != [])
  }

  /** Descriptor soundness, for every linted descriptor and every captured state. */
  lemma LintedReverseIsSound(d: Recipe, pre: Output, post: Output, state: Bindings, r: Command)
    requires Clean(d) && CapturedState(d, pre, post, state) && InterpolatesTo(d.reverse, state, r)
    ensures !(r.Refused? && r.error.MissingVariable?)
    ensures r.Command? <==> forall i :: 0 <= i < |d.reverse| ==> RendersOver(d.reverse[i], state)
    ensures r.Command? ==> |r.argv| == |d.reverse|
    ensures r.Command? ==> forall i :: 0 <= i < |d.reverse| ==> r.argv[i] == Fill(ShapeOf(d.reverse[i]), state)
  {
    StateBindsAll(d, pre, post, state);
    forall i | 0 <= i < |d.reverse|
      ensures Render(d.reverse[i], state).Filled? <==> RendersOver(d.reverse[i], state)
      ensures var t := Render(d.reverse[i], state);
        if t.Filled? then t.text == Fill(ShapeOf(d.reverse[i]), state) else !t.error.MissingVariable?
    {
      ResolvedRenders(d.reverse[i], state);
    }
  }

  /** The same for the guard's expected output. */
  lemma LintedGuardIsSound(d: Recipe, pre: Output, post: Output, state: Bindings)
    requires Clean(d) && d.guard.Some? && CapturedState(d, pre, post, state)
    ensures var r := Render(d.guard.value.expected, state);
      && !(r.Rejected? && r.error.MissingVariable?)
      && (r.Filled? <==> RendersOver(d.guard.value.expected, state))
  {
    StateBindsAll(d, pre, post, state);
    ResolvedRenders(d.guard.value.expected, state);
  }
}
