/** The ufw inverse: per-rule edits for small differences, reset and reapply for large ones
    (crates/shit-planner/src/network_diff.rs:326-389). Rules are the normalized bodies of
    `ufw status numbered`, in order and without repetition. */
module Ufw {
  import opened Plan
  import opened Replay
  import opened Text

  const RESET_THRESHOLD := 10

  datatype Step = Reset | Delete(rule: string) | Enable(rule: string)

  function RulesOf(rules: seq<string>): set<string> {
    set r | r in rules
  }

  // ------------------------------------------------------------------
  // The firewall
  // ------------------------------------------------------------------

  /** The rules but one, in order. */
  function Without(rules: seq<string>, rule: string): seq<string> {
    if rules == [] then []
    else Without(rules[..|rules| - 1], rule) + if rules[|rules| - 1] == rule then [] else [rules[|rules| - 1]]
  }

  /** ufw refuses to delete a rule it does not have and skips one it already has. */
  function Perform(rules: seq<string>, step: Step): Option<seq<string>> {
    match step
    case Reset => Some([])
    case Delete(rule) => if rule in rules then Some(Without(rules, rule)) else None
    case Enable(rule) => if rule in rules then Some(rules) else Some(rules + [rule])
  }

  // ------------------------------------------------------------------
  // The inverse
  // ------------------------------------------------------------------

  function Deletes(rules: seq<string>): seq<Step> {
    seq(|rules|, i requires 0 <= i < |rules| => Delete(rules[i]))
  }

  function Enables(rules: seq<string>): seq<Step> {
    seq(|rules|, i requires 0 <= i < |rules| => Enable(rules[i]))
  }

  ghost function Inverse(before: seq<string>, after: seq<string>): seq<Step> {
    var added, removed := RulesOf(after) - RulesOf(before), RulesOf(before) - RulesOf(after);
    if |added| + |removed| > RESET_THRESHOLD then [Reset] + Enables(before)
    else Deletes(InOrder(added)) + Enables(InOrder(removed))
  }

  method Listed(rules: set<string>) returns (out: seq<string>)
    ensures out == InOrder(rules)
  {
    out := [];
    var left := rules;
    while left != {}
      invariant InOrder(rules) == out + InOrder(left)
      decreases left
    {
      var r := NextKey(left);
      OrderStep(out, left, r);
      out, left := out + [r], left - {r};
    }
    assert out + [] == out;
  }

  method DeleteEach(rules: seq<string>) returns (steps: seq<Step>)
    ensures steps == Deletes(rules)
  {
    steps := [];
    for i := 0 to |rules|
      invariant steps == Deletes(rules[..i])
    {
      steps := steps + [Delete(rules[i])];
    }
  }

  method EnableEach(rules: seq<string>) returns (steps: seq<Step>)
    ensures steps == Enables(rules)
  {
    steps := [];
    for i := 0 to |rules|
      invariant steps == Enables(rules[..i])
    {
      steps := steps + [Enable(rules[i])];
    }
  }

  method Synthesise(before: seq<string>, after: seq<string>) returns (steps: seq<Step>)
    ensures steps == Inverse(before, after)
    ensures Reset in steps <==> |RulesOf(after) - RulesOf(before)| + |RulesOf(before) - RulesOf(after)| > 10
    ensures steps == [] <==> RulesOf(after) == RulesOf(before)
  {
    var was, now := RulesOf(before), RulesOf(after);
    var added := Listed(now - was);
    var removed := Listed(was - now);
    InOrderSorted(now - was);
    InOrderSorted(was - now);
    if added == [] && removed == [] {
      return [];
    }
    if |added| + |removed| > RESET_THRESHOLD {
      var enables := EnableEach(before);
      return [Reset] + enables;
    }
    var deletes := DeleteEach(added);
    var enables := EnableEach(removed);
    steps := deletes + enables;
  }

  // ------------------------------------------------------------------
  // Both branches restore the rules
  // ------------------------------------------------------------------

  /** The rules not in `gone`, in order. */
  ghost function Minus(rules: seq<string>, gone: set<string>): seq<string> {
    if rules == [] then []
    else Minus(rules[..|rules| - 1], gone) + if rules[|rules| - 1] in gone then [] else [rules[|rules| - 1]]
  }

  lemma {:induction false} MinusIs(rules: seq<string>, gone: set<string>, r: string)
    ensures r in Minus(rules, gone) <==> r in rules && r !in gone
  {
    if rules != [] {
      MinusIs(rules[..|rules| - 1], gone, r);
      assert rules == rules[..|rules| - 1] + [rules[|rules| - 1]];
    }
  }

  lemma {:induction false} MinusOne(rules: seq<string>, gone: set<string>, r: string)
    ensures Without(Minus(rules, gone), r) == Minus(rules, gone + {r})
  {
    if rules != [] {
      var init, last := rules[..|rules| - 1], rules[|rules| - 1];
      MinusOne(init, gone, r);
      var kept := Minus(init, gone);
      if last in gone {
        assert Minus(rules, gone) == kept;
      } else {
        assert Minus(rules, gone) == kept + [last];
        assert (kept + [last])[..|kept|] == kept;
      }
    }
  }

  lemma {:induction false} MinusNothing(rules: seq<string>)
    ensures Minus(rules, {}) == rules
  {
    if rules != [] {
      MinusNothing(rules[..|rules| - 1]);
    }
  }

  lemma RulesSnoc(init: seq<string>, r: string)
    ensures RulesOf(init + [r]) == RulesOf(init) + {r}
  {
  }

  lemma DistinctSnoc(init: seq<string>, r: string)
    requires Distinct(init + [r])
    ensures Distinct(init) && r !in RulesOf(init)
  {
    var all := init + [r];
    forall i | 0 <= i < |init| ensures init[i] != r {
      assert all[i] != all[|init|];
    }
    forall i, j | 0 <= i < j < |init| ensures init[i] != init[j] {
      assert all[i] != all[j];
    }
  }

  lemma {:induction false} DeletesAll(rules: seq<string>, gone: seq<string>)
    requires Distinct(gone) && forall r :: r in gone ==> r in rules
    ensures Replayed(Perform, rules, Deletes(gone)) == Some(Minus(rules, RulesOf(gone)))
  {
    if gone == [] {
      MinusNothing(rules);
      assert RulesOf(gone) == {};
    } else {
      var init, r := gone[..|gone| - 1], gone[|gone| - 1];
      assert gone == init + [r];
      DistinctSnoc(init, r);
      DeletesAll(rules, init);
      DeleteOne(rules, init, r);
    }
  }

  lemma DeleteOne(rules: seq<string>, init: seq<string>, r: string)
    requires r in rules && r !in RulesOf(init)
    requires Replayed(Perform, rules, Deletes(init)) == Some(Minus(rules, RulesOf(init)))
    ensures Replayed(Perform, rules, Deletes(init + [r])) == Some(Minus(rules, RulesOf(init + [r])))
  {
    assert Deletes(init + [r]) == Deletes(init) + [Delete(r)];
    ReplayedSnoc(Perform, rules, Deletes(init), Delete(r));
    MinusIs(rules, RulesOf(init), r);
    MinusOne(rules, RulesOf(init), r);
    RulesSnoc(init, r);
  }

  lemma {:induction false} EnablesAll(rules: seq<string>, back: seq<string>)
    requires Distinct(back) && forall r :: r in back ==> r !in rules
    ensures Replayed(Perform, rules, Enables(back)) == Some(rules + back)
  {
    if back == [] {
      assert rules + back == rules;
    } else {
      var m := |back| - 1;
      var init, r := back[..m], back[m];
      EnablesAll(rules, init);
      assert Enables(back) == Enables(init) + [Enable(r)];
      ReplayedSnoc(Perform, rules, Enables(init), Enable(r));
      assert rules + back == (rules + init) + [r];
    }
  }

  lemma SortedIsDistinct(rules: set<string>)
    ensures Distinct(InOrder(rules)) && RulesOf(InOrder(rules)) == rules
  {
    InOrderSorted(rules);
    var s := InOrder(rules);
    forall i, j | 0 <= i < j < |s| ensures s[i] != s[j] {
      LessIrreflexive(s[i]);
    }
  }

  predicate Resets(before: seq<string>, after: seq<string>) {
    |RulesOf(after) - RulesOf(before)| + |RulesOf(before) - RulesOf(after)| > RESET_THRESHOLD
  }

  /** Reset and reapply restores the captured rules in the captured order. */
  lemma ResetRestores(before: seq<string>, after: seq<string>)
    requires Distinct(before) && Resets(before, after)
    ensures Replayed(Perform, after, Inverse(before, after)) == Some(before)
  {
    assert [Reset][..0] == [];
    assert Replayed(Perform, after, [Reset]) == Some([]);
    ReplayedInTurn(Perform, after, [Reset], Enables(before));
    EnablesAll([], before);
    assert [] + before == before;
  }

  lemma EditsRun(after: seq<string>, gone: seq<string>, back: seq<string>)
    requires Distinct(gone) && Distinct(back)
    requires (forall r :: r in gone ==> r in after) && (forall r :: r in back ==> r !in after)
    ensures Replayed(Perform, after, Deletes(gone) + Enables(back)) == Some(Minus(after, RulesOf(gone)) + back)
  {
    DeletesAll(after, gone);
    ReplayedInTurn(Perform, after, Deletes(gone), Enables(back));
    forall r | r in back ensures r !in Minus(after, RulesOf(gone)) {
      MinusIs(after, RulesOf(gone), r);
    }
    EnablesAll(Minus(after, RulesOf(gone)), back);
  }

  /** Per-rule edits keep the surviving rules where they are and append the restored ones. */
  lemma EditsRestore(before: seq<string>, after: seq<string>)
    requires !Resets(before, after)
    ensures Replayed(Perform, after, Inverse(before, after)) ==
      Some(Minus(after, RulesOf(after) - RulesOf(before)) + InOrder(RulesOf(before) - RulesOf(after)))
  {
    var added, removed := RulesOf(after) - RulesOf(before), RulesOf(before) - RulesOf(after);
    var gone := InSortedOrder(added);
    var back := InSortedOrder(removed);
    EditsRun(after, gone, back);
  }

  lemma InSortedOrder(rules: set<string>) returns (s: seq<string>)
    ensures s == InOrder(rules) && Distinct(s) && RulesOf(s) == rules && forall r :: r in s <==> r in rules
  {
    SortedIsDistinct(rules);
    s := InOrder(rules);
    assert forall r :: r in s <==> r in RulesOf(s);
  }

  /** Whichever branch is taken, every step succeeds and exactly the captured rules are in force. */
  lemma InverseRestores(before: seq<string>, after: seq<string>)
    requires Distinct(before)
    ensures var r := Replayed(Perform, after, Inverse(before, after)); r.Some? && RulesOf(r.value) == RulesOf(before)
  {
    if Resets(before, after) {
      ResetRestores(before, after);
    } else {
      EditsRestore(before, after);
      var back := InSortedOrder(RulesOf(before) - RulesOf(after));
      EditedRules(before, after, back);
    }
  }

  lemma EditedRules(before: seq<string>, after: seq<string>, back: seq<string>)
    requires forall r :: r in back <==> r in RulesOf(before) - RulesOf(after)
    ensures RulesOf(Minus(after, RulesOf(after) - RulesOf(before)) + back) == RulesOf(before)
  {
    var added := RulesOf(after) - RulesOf(before);
    forall r ensures r in RulesOf(Minus(after, added) + back) <==> r in RulesOf(before) {
      MinusIs(after, added, r);
    }
  }

  lemma {:induction false} MinusInParts(a: seq<string>, b: seq<string>, gone: set<string>)
    ensures Minus(a + b, gone) == Minus(a, gone) + Minus(b, gone)
  {
    if b == [] {
      assert a + b == a;
    } else {
      var m := |b| - 1;
      assert (a + b)[..|a| + m] == a + b[..m];
      MinusInParts(a, b[..m], gone);
    }
  }

  lemma {:induction false} MinusNone(rules: seq<string>, gone: set<string>)
    requires forall r :: r in rules ==> r !in gone
    ensures Minus(rules, gone) == rules
  {
    if rules != [] {
      MinusNone(rules[..|rules| - 1], gone);
    }
  }

  lemma {:induction false} MinusAll(rules: seq<string>, gone: set<string>)
    requires forall r :: r in rules ==> r in gone
    ensures Minus(rules, gone) == []
  {
    if rules != [] {
      MinusAll(rules[..|rules| - 1], gone);
    }
  }

  /** Survivors followed by the removed rules: without the latter just the survivors are left. */
  lemma MinusBack(kept: seq<string>, back: seq<string>, gone: set<string>)
    requires (forall r :: r in kept ==> r !in gone) && (forall r :: r in back ==> r in gone)
    ensures Minus(kept + back, gone) == kept
  {
    MinusInParts(kept, back, gone);
    MinusNone(kept, gone);
    MinusAll(back, gone);
  }

  lemma Survivors(after: seq<string>, added: set<string>, removed: set<string>)
    requires removed !! RulesOf(after)
    ensures forall r :: r in Minus(after, added) ==> r !in removed
  {
    forall r | r in Minus(after, added) ensures r !in removed {
      MinusIs(after, added, r);
    }
  }

  /** The captured order: survivors as they now stand, then the removed rules in key order. */
  ghost predicate OrderSurvives(before: seq<string>, after: seq<string>) {
    var kept := Minus(before, RulesOf(before) - RulesOf(after));
    kept == Minus(after, RulesOf(after) - RulesOf(before)) && kept <= before && Sorted(before[|kept|..])
  }

  /** A suffix that holds exactly `rules` is their list in key order if and only if it is sorted. */
  lemma SortedSuffix(suffix: seq<string>, rules: set<string>)
    requires forall r :: r in suffix <==> r in rules
    ensures Sorted(suffix) <==> suffix == InOrder(rules)
  {
    InOrderSorted(rules);
    if Sorted(suffix) {
      SortedUnique(suffix, InOrder(rules));
    }
  }

  lemma SuffixHolds(before: seq<string>, removed: set<string>)
    requires Distinct(before) && removed <= RulesOf(before) && Minus(before, removed) <= before
    ensures forall r :: r in before[|Minus(before, removed)|..] <==> r in removed
  {
    var kept := Minus(before, removed);
    var suffix := before[|kept|..];
    assert before == kept + suffix;
    DistinctParts(kept, suffix);
    forall r ensures r in suffix <==> r in removed {
      MinusIs(before, removed, r);
      assert r in before <==> r in kept || r in suffix;
    }
  }

  lemma DistinctParts(a: seq<string>, b: seq<string>)
    requires Distinct(a + b)
    ensures forall r :: r in b ==> r !in a
  {
    var all := a + b;
    forall i, j | 0 <= i < |a| && 0 <= j < |b| ensures a[i] != b[j] {
      assert all[i] == a[i] && all[|a| + j] == b[j];
    }
  }

  /** The per-rule branch restores the captured order exactly when the survivors kept theirs and the
      removed rules stood last, in key order. */
  lemma EditsRestoreOrderIff(before: seq<string>, after: seq<string>)
    requires Distinct(before) && !Resets(before, after)
    ensures Replayed(Perform, after, Inverse(before, after)) == Some(before) <==> OrderSurvives(before, after)
  {
    var added, removed := RulesOf(after) - RulesOf(before), RulesOf(before) - RulesOf(after);
    EditsRestore(before, after);
    var back := InSortedOrder(removed);
    Survivors(after, added, removed);
    if before == Minus(after, added) + back {
      MinusBack(Minus(after, added), back, removed);
    }
    if Minus(before, removed) <= before {
      SuffixHolds(before, removed);
      SortedSuffix(before[|Minus(before, removed)|..], removed);
    }
    OrderSplits(before, Minus(after, added), back, Minus(before, removed));
  }

  lemma OrderSplits(before: seq<string>, now: seq<string>, back: seq<string>, kept: seq<string>)
    requires before == now + back ==> kept == now
    ensures before == now + back <==> kept == now && kept <= before && before[|kept|..] == back
  {
    if kept <= before {
      assert before == kept + before[|kept|..];
    }
  }

  /** Whichever branch is taken: the captured list comes back if and only if the change was large enough
      for a reset or the order survives. */
  lemma InverseRestoresOrderIff(before: seq<string>, after: seq<string>)
    requires Distinct(before)
    ensures Replayed(Perform, after, Inverse(before, after)) == Some(before) <==>
      Resets(before, after) || OrderSurvives(before, after)
  {
    if Resets(before, after) {
      ResetRestores(before, after);
    } else {
      EditsRestoreOrderIff(before, after);
    }
  }

  /** The captured order is lost by the per-rule branch: a deleted first rule comes back last. */
  lemma EditsLoseOrder()
    ensures var before, after := ["allow 1", "allow 2"], ["allow 2"];
      var r := Replayed(Perform, after, Inverse(before, after));
      r.Some? && r.value == ["allow 2", "allow 1"] && r.value != before
  {
    var before, after := ["allow 1", "allow 2"], ["allow 2"];
    var one, two := "allow 1", "allow 2";
    assert one[6] != two[6];
    var added, removed := RulesOf(after) - RulesOf(before), RulesOf(before) - RulesOf(after);
    assert added == {} && removed == {one};
    EditsRestore(before, after);
    MinusNothing(after);
    SortedIsDistinct(removed);
    InOrderSorted(removed);
    assert InOrder(removed)[0] in RulesOf(InOrder(removed));
    assert InOrder(removed) == [one];
    assert before[0] == one && [two, one][0] == two;
  }
}
