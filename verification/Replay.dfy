/** Commands run in order on a state, up to the first that fails. */
module Replay {
  import opened Plan

  function Replayed<S, C>(perform: (S, C) -> Option<S>, s: S, commands: seq<C>): Option<S> {
    if commands == [] then Some(s)
    else match Replayed(perform, s, commands[..|commands| - 1])
      case None => None
      case Some(next) => perform(next, commands[|commands| - 1])
  }

  lemma ReplayedSnoc<S, C>(perform: (S, C) -> Option<S>, s: S, init: seq<C>, last: C)
    ensures Replayed(perform, s, init + [last]) ==
      match Replayed(perform, s, init) case None => None case Some(next) => perform(next, last)
  {
    assert (init + [last])[..|init|] == init;
  }

  lemma {:induction false} ReplayedInTurn<S, C>(perform: (S, C) -> Option<S>, s: S, a: seq<C>, b: seq<C>)
    ensures Replayed(perform, s, a + b) ==
      match Replayed(perform, s, a) case None => None case Some(next) => Replayed(perform, next, b)
  {
    if b == [] {
      assert a + b == a;
    } else {
      var m := |b| - 1;
      assert (a + b)[..|a| + m] == a + b[..m];
      ReplayedInTurn(perform, s, a, b[..m]);
    }
  }

  lemma {:induction false} FailsForGood<S, C>(perform: (S, C) -> Option<S>, s: S, commands: seq<C>, i: nat)
    requires i <= |commands| && Replayed(perform, s, commands[..i]).None?
    ensures Replayed(perform, s, commands).None?
    decreases |commands|
  {
    var m := |commands| - 1;
    if i == |commands| {
      assert commands[..i] == commands;
    } else {
      assert commands[..m][..i] == commands[..i];
      FailsForGood(perform, s, commands[..m], i);
    }
  }
}
