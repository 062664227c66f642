/** Running a rendered reverse command: the descriptor executor interpolates it once more
    (crates/shit-planner/src/executors/descriptor.rs:111-134, 161-194). */
module Reverse {
  import opened Plan
  import opened Paths
  import opened Extract
  import opened Template
  import Lint

  /** Two opening braces in a row stand somewhere in the token. */
  ghost predicate Opens(tok: string) {
    Doubled(tok, '{', 0) < |tok|
  }

  ghost predicate NoneOpens(argv: seq<string>) {
    forall i :: 0 <= i < |argv| ==> !Opens(argv[i])
  }

  /** What the executor runs, unless it skips. */
  ghost predicate RunsAs(argv: seq<string>, state: Bindings, ran: seq<string>) {
    InterpolatesTo(argv, state, Command(ran)) && NoneOpens(ran)
  }

  /** The argv to run; nothing when interpolation fails or leaves an opening behind. */
  method ArgvToRun(argv: seq<string>, state: Bindings) returns (r: Option<seq<string>>)
    ensures r.Some? ==> RunsAs(argv, state, r.value)
    ensures r.None? ==> forall ran :: !RunsAs(argv, state, ran)
  {
    var c := InterpolateArgv(argv, state);
    if c.Refused? {
      RefusedRunsNothing(argv, state, c.error);
      return None;
    }
    forall ran | InterpolatesTo(argv, state, Command(ran)) ensures ran == c.argv {
      OneRendering(argv, state, ran, c.argv);
    }
    for i := 0 to |c.argv|
      invariant forall j :: 0 <= j < i ==> !Opens(c.argv[j])
    {
      var open := FindDoubled(c.argv[i], '{', 0);
      if open < |c.argv[i]| {
        return None;
      }
    }
    r := Some(c.argv);
  }

  lemma OneRendering(argv: seq<string>, state: Bindings, a: seq<string>, b: seq<string>)
    requires InterpolatesTo(argv, state, Command(a)) && InterpolatesTo(argv, state, Command(b))
    ensures a == b
  {
    forall i | 0 <= i < |argv| ensures a[i] == b[i] {
      assert Render(argv[i], state) == Filled(a[i]) == Filled(b[i]);
    }
  }

  lemma RefusedRunsNothing(argv: seq<string>, state: Bindings, e: TemplateError)
    requires InterpolatesTo(argv, state, Refused(e))
    ensures forall ran :: !RunsAs(argv, state, ran)
  {
  }

  /** A token that opens nothing is rendered as it is. */
  lemma ClosedTokenStays(tok: string, state: Bindings)
    requires !Opens(tok)
    ensures Render(tok, state) == Filled(tok)
  {
    assert Doubled(tok, '{', 0) == |tok| && tok[0..] == tok;
  }

  /** The executor runs what was rendered, unchanged, if and only if nothing rendered opens a reference. */
  lemma RunsUnchangedIff(argv: seq<string>, state: Bindings)
    ensures RunsAs(argv, state, argv) <==> NoneOpens(argv)
  {
    if NoneOpens(argv) {
      forall i | 0 <= i < |argv| ensures Render(argv[i], state) == Filled(argv[i]) {
        ClosedTokenStays(argv[i], state);
      }
    }
  }

  /** From lint to execution: what runs for a linted descriptor is the one-pass substitution of the
      captured values into its reverse command, if and only if no substituted token opens a reference. */
  lemma LintedReverseRunsIff(d: Lint.Recipe, pre: Output, post: Output, state: Bindings, rendered: seq<string>)
    requires Lint.Clean(d) && Lint.CapturedState(d, pre, post, state)
    requires InterpolatesTo(d.reverse, state, Command(rendered))
    ensures |rendered| == |d.reverse|
    ensures forall i :: 0 <= i < |d.reverse| ==> rendered[i] == Fill(ShapeOf(d.reverse[i]), state)
    ensures RunsAs(rendered, state, rendered) <==> NoneOpens(rendered)
  {
    Lint.LintedReverseIsSound(d, pre, post, state, Command(rendered));
    RunsUnchangedIff(rendered, state);
  }

  // ------------------------------------------------------------------
  // Values without braces are safe
  // ------------------------------------------------------------------

  lemma JoinsWithout(a: string, b: string)
    requires !Opens(a) && !Opens(b) && (a != [] ==> a[|a| - 1] != '{')
    ensures !Opens(a + b)
  {
    var t := a + b;
    forall m, n | 0 <= m < |t| && m < n < |t| && n == m + 1 && t[m] == '{' ensures t[n] != '{' {
      if n < |a| {
        assert a[m] == t[m] && a[n] == t[n];
      } else if m >= |a| {
        assert b[m - |a|] == t[m] && b[n - |a|] == t[n];
      }
    }
    DoubledIs(t, '{', 0, |t|);
  }

  lemma NoBraceNoOpening(v: string)
    requires '{' !in v
    ensures !Opens(v) && (v != [] ==> v[|v| - 1] != '{')
  {
    DoubledIs(v, '{', 0, |v|);
  }

  lemma LeadOpensNothing(text: string)
    requires Leads(text, '{')
    ensures !Opens(text) && (text != [] ==> text[|text| - 1] != '{')
  {
    var tt := text + ['{', '{'];
    assert forall m :: 0 <= m < |text| ==> tt[m] == text[m];
    if text != [] {
      var k := |text| - 1;
      assert tt[k] == text[k] && tt[|text|] == '{';
    }
    DoubledIs(text, '{', 0, |text|);
  }

  lemma {:induction false} FilledOpensNothing(sh: Shape, state: Bindings)
    requires Proper(sh) && forall k :: k in state ==> '{' !in state[k]
    ensures !Opens(Fill(sh, state))
  {
    if sh.Hole? {
      var v, rest := Lookup(sh.name, state), Fill(sh.rest, state);
      FilledOpensNothing(sh.rest, state);
      LeadOpensNothing(sh.text);
      NoBraceNoOpening(v);
      JoinsWithout(v, rest);
      JoinsWithout(sh.text, v + rest);
      assert sh.text + v + rest == sh.text + (v + rest);
    } else {
      DoubledIs(sh.text, '{', 0, |sh.text|);
    }
  }

  /** Captured values without an opening brace never change what runs. */
  lemma BraceFreeValuesRunUnchanged(argv: seq<string>, state: Bindings, rendered: seq<string>)
    requires InterpolatesTo(argv, state, Command(rendered)) && forall k :: k in state ==> '{' !in state[k]
    ensures RunsAs(rendered, state, rendered)
  {
    forall i | 0 <= i < |rendered| ensures !Opens(rendered[i]) {
      var sh := ShapeOf(argv[i]);
      assert Render(argv[i], state) == Filled(rendered[i]);
      ProblemFree(argv[i], sh, state);
      ShapeIsProper(argv[i]);
      FilledOpensNothing(sh, state);
    }
    RunsUnchangedIff(rendered, state);
  }

  // ------------------------------------------------------------------
  // A value that is scanned again
  // ------------------------------------------------------------------

  function Reference(name: string): Shape {
    Hole([], name, Plain([]))
  }

  lemma ReferenceRenders(name: string, state: Bindings)
    requires ValidName(name) && name in state && state[name] != []
    ensures Render(Written(Reference(name)), state) == Filled(state[name])
  {
    var sh := Reference(name);
    ValidNameLeads([], name);
    assert Names(Plain([])) == [] && Names(sh) == [name];
    RenderWritten(sh, state);
    assert Fill(sh, state) == [] + state[name] + [];
  }

  /** A captured value that looks like a reference is replaced again before it runs. */
  lemma ValueIsScannedAgain() returns (state: Bindings, rendered: string)
    ensures InterpolatesTo([Written(Reference("x"))], state, Command([rendered]))
    ensures RunsAs([rendered], state, ["v"]) && rendered != "v"
  {
    NamesDiffer();
    rendered := Written(Reference("y"));
    state := map["x" := rendered, "y" := "v"];
    WrittenStarts("y");
    TwicePasses("x", "y", "v", state);
  }

  lemma NamesDiffer()
    ensures ValidName("x") && ValidName("y") && "x" != "y"
  {
    assert "x"[0] != "y"[0];
  }

  lemma WrittenStarts(name: string)
    ensures Written(Reference(name)) != [] && Written(Reference(name))[0] == '{'
  {
  }

  lemma TwicePasses(x: string, y: string, v: string, state: Bindings)
    requires ValidName(x) && ValidName(y) && x in state && y in state
    requires state[x] == Written(Reference(y)) && state[y] == v
    requires v != [] && '{' !in v
    ensures InterpolatesTo([Written(Reference(x))], state, Command([Written(Reference(y))]))
    ensures RunsAs([Written(Reference(y))], state, [v])
  {
    ReferenceRenders(x, state);
    ReferenceRenders(y, state);
    NoBraceNoOpening(v);
  }
}
