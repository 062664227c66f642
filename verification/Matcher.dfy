/** Argv patterns (crates/shit-desc/src/matcher.rs) and the lint that keeps them well formed
    (crates/shit-desc/src/schema.rs:331-348). Scores are in hundredths. */
module Matcher {
  import opened Plan

  type Argv = seq<string>

  const STAR := "*"
  const TAIL := "**"

  // ------------------------------------------------------------------
  // match_inner
  // ------------------------------------------------------------------

  function TailScore(consumed: nat): nat {
    if consumed > 0 then 25 * consumed else 1
  }

  function TokenScore(tok: string): nat {
    if tok == STAR then 50 else 100
  }

  predicate TokenMatches(tok: string, arg: string) {
    tok == STAR || tok == arg
  }

  /** The score of a match, token by token from the front; `None` when there is no match. */
  function Score(pattern: Argv, argv: Argv): Option<nat> {
    if pattern == [] then (if argv == [] then Some(0) else None)
    else if pattern[0] == TAIL then Some(TailScore(|argv|))
    else if argv == [] || !TokenMatches(pattern[0], argv[0]) then None
    else match Score(pattern[1..], argv[1..])
      case Some(s) => Some(TokenScore(pattern[0]) + s)
      case None => None
  }

  function Plus(score: nat, rest: Option<nat>): Option<nat> {
    match rest case Some(s) => Some(score + s) case None => None
  }

  method MatchInner(pattern: Argv, argv: Argv) returns (r: Option<nat>)
    ensures r == Score(pattern, argv)
  {
    var p, a, score := 0, 0, 0;
    assert pattern[0..] == pattern && argv[0..] == argv;
    while p < |pattern|
      invariant p <= |pattern| && a <= |argv| && p == a
      invariant Score(pattern, argv) == Plus(score, Score(pattern[p..], argv[a..]))
    {
      var tok := pattern[p];
      assert pattern[p..][0] == tok && pattern[p..][1..] == pattern[p + 1..];
      if tok == TAIL {
        var consumed := |argv| - a;
        score := score + (if consumed > 0 then 25 * consumed else 1);
        return Some(score);
      }
      if a >= |argv| {
        return None;
      }
      assert argv[a..][0] == argv[a] && argv[a..][1..] == argv[a + 1..];
      if tok == STAR {
        score := score + 50;
      } else if tok == argv[a] {
        score := score + 100;
      } else {
        return None;
      }
      p, a := p + 1, a + 1;
    }
    r := if a == |argv| then Some(score) else None;
  }

  function MatchPattern(pattern: Argv, argv: Argv): Option<nat> {
    if argv == [] || pattern == [] then None else Score(pattern, argv)
  }

  /** The whole match block: any matching exclusion wins over the pattern. */
  method MatchDescriptor(pattern: Argv, excludes: seq<Argv>, argv: Argv) returns (r: Option<nat>)
    ensures r == DescriptorScore(pattern, excludes, argv)
  {
    var i := 0;
    while i < |excludes|
      invariant i <= |excludes|
      invariant forall e :: 0 <= e < i ==> MatchPattern(excludes[e], argv).None?
    {
      if argv != [] && excludes[i] != [] {
        var m := MatchInner(excludes[i], argv);
        if m.Some? {
          return None;
        }
      }
      i := i + 1;
    }
    if argv == [] || pattern == [] {
      return None;
    }
    r := MatchInner(pattern, argv);
  }

  function DescriptorScore(pattern: Argv, excludes: seq<Argv>, argv: Argv): Option<nat> {
    if exists e :: 0 <= e < |excludes| && MatchPattern(excludes[e], argv).Some? then None
    else MatchPattern(pattern, argv)
  }

  // ------------------------------------------------------------------
  // check_match_argv
  // ------------------------------------------------------------------

  datatype ArgvLint = CleanArgv | EmptyArgv | GlobInArgvZero | BadDoubleStar

  /** A literal first token, and `**` in the last place only. */
  ghost predicate Clean(pattern: Argv) {
    && pattern != []
    && pattern[0] != STAR && pattern[0] != TAIL
    && forall i :: 0 <= i < |pattern| - 1 ==> pattern[i] != TAIL
  }

  method CheckMatchArgv(argv: Argv) returns (r: ArgvLint)
    ensures r == CleanArgv <==> Clean(argv)
    ensures r == EmptyArgv <==> argv == []
    ensures r == GlobInArgvZero <==> argv != [] && (argv[0] == STAR || argv[0] == TAIL)
  {
    if argv == [] {
      return EmptyArgv;
    }
    if argv[0] == STAR || argv[0] == TAIL {
      return GlobInArgvZero;
    }
    var seen, i := false, 0;
    while i < |argv|
      invariant i <= |argv|
      invariant seen ==> i == |argv|
      invariant forall k :: 0 <= k < i && k < |argv| - 1 ==> argv[k] != TAIL
    {
      if argv[i] == TAIL {
        if seen || i + 1 != |argv| {
          return BadDoubleStar;
        }
        seen := true;
      }
      i := i + 1;
    }
    r := CleanArgv;
  }

  // ------------------------------------------------------------------
  // Glob semantics
  // ------------------------------------------------------------------

  /** What the pattern language means, for a `**` in any place: it stands for any run of tokens. */
  ghost predicate Glob(pattern: Argv, argv: Argv)
    decreases |pattern|
  {
    if pattern == [] then argv == []
    else if pattern[0] == TAIL then exists k :: 0 <= k <= |argv| && Glob(pattern[1..], argv[k..])
    else argv != [] && TokenMatches(pattern[0], argv[0]) && Glob(pattern[1..], argv[1..])
  }

  /** `**` in the last place only. */
  ghost predicate TailLast(pattern: Argv) {
    forall i :: 0 <= i < |pattern| - 1 ==> pattern[i] != TAIL
  }

  lemma {:induction false} ScoreIsGlob(pattern: Argv, argv: Argv)
    requires TailLast(pattern)
    ensures Score(pattern, argv).Some? <==> Glob(pattern, argv)
  {
    if pattern != [] {
      assert forall i :: 0 <= i < |pattern[1..]| - 1 ==> pattern[1..][i] == pattern[i + 1];
      if pattern[0] == TAIL {
        assert pattern[1..] == [];
        assert argv[|argv|..] == [] && Glob(pattern[1..], argv[|argv|..]);
      } else if argv != [] {
        ScoreIsGlob(pattern[1..], argv[1..]);
      }
    }
  }

  /** On lint-clean patterns the matcher accepts exactly the glob's language. */
  lemma MatcherIsGlob(pattern: Argv, argv: Argv)
    requires Clean(pattern)
    ensures MatchPattern(pattern, argv).Some? <==> Glob(pattern, argv)
  {
    ScoreIsGlob(pattern, argv);
  }

  // ------------------------------------------------------------------
  // Specificity
  // ------------------------------------------------------------------

  ghost predicate Open(pattern: Argv) {
    pattern != [] && pattern[|pattern| - 1] == TAIL
  }

  /** The number of tokens before a trailing `**`. */
  ghost function Fixed(pattern: Argv): nat {
    if Open(pattern) then |pattern| - 1 else |pattern|
  }

  ghost function FixedScore(pattern: Argv, n: nat): nat
    requires n <= |pattern|
  {
    if n == 0 then 0 else FixedScore(pattern, n - 1) + TokenScore(pattern[n - 1])
  }

  ghost predicate Covers(pattern: Argv, argv: Argv) {
    && Fixed(pattern) <= |argv|
    && (!Open(pattern) ==> |argv| == |pattern|)
    && forall i :: 0 <= i < Fixed(pattern) ==> TokenMatches(pattern[i], argv[i])
  }

  lemma {:induction false} FixedScoreShift(pattern: Argv, n: nat)
    requires 0 < n <= |pattern|
    ensures FixedScore(pattern, n) == TokenScore(pattern[0]) + FixedScore(pattern[1..], n - 1)
  {
    if n > 1 {
      FixedScoreShift(pattern, n - 1);
    }
  }

  /** The score read off by position. */
  lemma {:induction false} ScoreByPosition(pattern: Argv, argv: Argv)
    requires TailLast(pattern)
    ensures Score(pattern, argv) ==
      if Covers(pattern, argv) then
        Some(FixedScore(pattern, Fixed(pattern)) + (if Open(pattern) then TailScore(|argv| - Fixed(pattern)) else 0))
      else None
  {
    if pattern != [] && pattern[0] != TAIL {
      var rest := pattern[1..];
      assert forall i :: 0 <= i < |rest| ==> rest[i] == pattern[i + 1];
      if argv != [] {
        var tail := argv[1..];
        ScoreByPosition(rest, tail);
        assert Open(rest) == Open(pattern) && Fixed(rest) == Fixed(pattern) - 1;
        FixedScoreShift(pattern, Fixed(pattern));
        CoversShift(pattern, argv);
      }
    }
  }

  lemma CoversShift(pattern: Argv, argv: Argv)
    requires pattern != [] && pattern[0] != TAIL && argv != []
    ensures Covers(pattern, argv) <==> TokenMatches(pattern[0], argv[0]) && Covers(pattern[1..], argv[1..])
  {
    var rest, tail := pattern[1..], argv[1..];
    assert forall i :: 0 <= i < |rest| ==> rest[i] == pattern[i + 1];
    assert forall i :: 0 <= i < |tail| ==> tail[i] == argv[i + 1];
    if TokenMatches(pattern[0], argv[0]) && Covers(rest, tail) {
      forall i | 0 <= i < Fixed(pattern) ensures TokenMatches(pattern[i], argv[i]) {
        assert i > 0 ==> TokenMatches(rest[i - 1], tail[i - 1]);
      }
    }
    if Covers(pattern, argv) {
      forall i | 0 <= i < Fixed(rest) ensures TokenMatches(rest[i], tail[i]) {
        assert TokenMatches(pattern[i + 1], argv[i + 1]);
      }
    }
  }

  /** Every argv that `p` matches, `q` matches too. */
  ghost predicate Within(p: Argv, q: Argv) {
    forall argv :: MatchPattern(p, argv).Some? ==> MatchPattern(q, argv).Some?
  }

  /** An argv of `p` that fills its stars with tokens no literal of `q` equals. */
  ghost function Witness(p: Argv, q: Argv): Argv {
    seq(Fixed(p), i requires 0 <= i < Fixed(p) =>
      if p[i] != STAR then p[i] else if i < |q| then q[i] + "x" else "x")
  }

  lemma WitnessMatches(p: Argv, q: Argv)
    requires Clean(p)
    ensures Covers(p, Witness(p, q)) && Witness(p, q) != []
    ensures Open(p) ==> Covers(p, Witness(p, q) + ["x"])
  {
  }

  lemma CoveredByBoth(p: Argv, q: Argv, argv: Argv)
    requires Clean(p) && Clean(q) && Within(p, q) && Covers(p, argv) && argv != []
    ensures Covers(q, argv)
  {
    ScoreByPosition(p, argv);
    ScoreByPosition(q, argv);
    assert MatchPattern(p, argv).Some?;
  }

  /** Position by position `q` is a star or the same token, and only an open `q` is shorter. */
  ghost predicate Generalises(q: Argv, p: Argv) {
    && Fixed(q) <= Fixed(p)
    && (!Open(q) ==> !Open(p) && |p| == |q|)
    && forall i :: 0 <= i < Fixed(q) ==> q[i] == STAR || q[i] == p[i]
  }

  lemma WithinGeneralises(p: Argv, q: Argv)
    requires Clean(p) && Clean(q) && Within(p, q)
    ensures Generalises(q, p)
  {
    var w := Witness(p, q);
    WitnessMatches(p, q);
    CoveredByBoth(p, q, w);
    if Open(p) {
      CoveredByBoth(p, q, w + ["x"]);
    }
    forall i | 0 <= i < Fixed(q) ensures q[i] == STAR || q[i] == p[i] {
      assert TokenMatches(q[i], w[i]);
      assert |q[i] + "x"| != |q[i]|;
    }
  }

  /** Containment of languages is that relation between the patterns themselves. */
  lemma WithinIsSyntactic(p: Argv, q: Argv)
    requires Clean(p) && Clean(q)
    ensures Within(p, q) <==> Generalises(q, p)
  {
    if Within(p, q) {
      WithinGeneralises(p, q);
    }
    if Generalises(q, p) {
      forall argv | MatchPattern(p, argv).Some? ensures MatchPattern(q, argv).Some? {
        ScoreByPosition(p, argv);
        ScoreByPosition(q, argv);
        assert forall i :: 0 <= i < Fixed(q) ==> TokenMatches(p[i], argv[i]);
      }
    }
  }

  lemma {:induction false} FixedScoreDominates(p: Argv, q: Argv, n: nat)
    requires n <= |p| && n <= |q|
    requires forall i :: 0 <= i < n ==> q[i] == STAR || q[i] == p[i]
    ensures FixedScore(p, n) >= FixedScore(q, n)
    ensures p[..n] != q[..n] ==> FixedScore(p, n) >= FixedScore(q, n) + 50
  {
    if n > 0 {
      FixedScoreDominates(p, q, n - 1);
      assert p[..n] == p[..n - 1] + [p[n - 1]] && q[..n] == q[..n - 1] + [q[n - 1]];
    }
  }

  lemma {:induction false} FixedScoreGrows(p: Argv, m: nat, n: nat)
    requires m <= n <= |p|
    ensures FixedScore(p, n) >= FixedScore(p, m) + 50 * (n - m)
  {
    if m < n {
      FixedScoreGrows(p, m, n - 1);
    }
  }

  /** The more specific of two patterns scores higher on every argv it matches, with one exception:
      `q` is `p` followed by `**`, and the `**` has nothing to soak up. */
  lemma SpecificPatternWins(p: Argv, q: Argv, argv: Argv)
    requires Clean(p) && Clean(q) && Within(p, q) && p != q && MatchPattern(p, argv).Some?
    ensures MatchPattern(q, argv).Some?
    ensures MatchPattern(p, argv).value > MatchPattern(q, argv).value <==> !(q == p + [TAIL] && |argv| == |p|)
    ensures q == p + [TAIL] && |argv| == |p| ==> MatchPattern(q, argv).value == MatchPattern(p, argv).value + 1
  {
    WithinIsSyntactic(p, q);
    ScoreByPosition(p, argv);
    ScoreByPosition(q, argv);
    var m, n := Fixed(q), Fixed(p);
    FixedScoreDominates(p, q, m);
    FixedScoreGrows(p, m, n);
    assert q == p + [TAIL] ==> m == |p| && q[..m] == p && p[..m] == p;
    if p[..m] == q[..m] {
      assert forall i :: 0 <= i < m ==> p[i] == p[..m][i] == q[..m][i] == q[i];
      FixedScoreDominates(q, p, m);
      SameFixedPart(p, q);
    }
  }

  /** Different patterns with the same fixed tokens differ in length or in the trailing `**`. */
  lemma SameFixedPart(p: Argv, q: Argv)
    requires p != q && Fixed(q) <= Fixed(p) && p[..Fixed(q)] == q[..Fixed(q)]
    ensures Fixed(p) > Fixed(q) || Open(p) != Open(q)
    ensures Fixed(p) == Fixed(q) && Open(q) ==> q == p + [TAIL]
    ensures q == p + [TAIL] ==> Fixed(p) == Fixed(q) && Open(q)
  {
    var m := Fixed(q);
    assert q == q[..m] + (if Open(q) then [TAIL] else []);
    assert p == p[..Fixed(p)] + (if Open(p) then [TAIL] else []);
  }

  /** The exception is real. */
  lemma EmptyTailOutscores()
    ensures Within(["x"], ["x", TAIL])
    ensures MatchPattern(["x"], ["x"]) == Some(100) && MatchPattern(["x", TAIL], ["x"]) == Some(101)
  {
    var p, q := ["x"], ["x", TAIL];
    assert Clean(p) && Clean(q);
    forall argv | MatchPattern(p, argv).Some? ensures MatchPattern(q, argv).Some? {
      ScoreByPosition(p, argv);
      ScoreByPosition(q, argv);
    }
    ScoreByPosition(p, ["x"]);
    ScoreByPosition(q, ["x"]);
    assert FixedScore(p, 1) == 100 && FixedScore(q, 1) == 100;
  }
}
