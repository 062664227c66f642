/** Evaluations with disjoint footprints do not see each other: inside a stretch of nodes
    that pairwise share no key, the serial walk evaluates every node as if it came first. */
module Commute {
  import opened Plan
  import opened Cohort
  import opened Execute

  /** Node `i`'s evaluation cannot tell `a` from `c` when they agree on its keys, and it
      changes no other cell. */
  ghost predicate LocalAt(eval: Evaluator, ts: seq<Keys>, i: nat, a: Cells, c: Cells)
    requires i < |ts|
  {
    Agree(a, c, ts[i]) ==>
      && eval(i, a).0 == eval(i, c).0
      && Agree(eval(i, a).1, eval(i, c).1, ts[i])
      && Frame(a, eval(i, a).1, ts[i])
  }

  ghost predicate Local(eval: Evaluator, ts: seq<Keys>, lo: nat, hi: nat)
    requires lo <= hi <= |ts|
  {
    forall i, a, c :: lo <= i < hi ==> LocalAt(eval, ts, i, a, c)
  }

  ghost predicate Disjoint(ts: seq<Keys>, lo: nat, hi: nat)
    requires lo <= hi <= |ts|
  {
    forall i, j :: lo <= i < hi && lo <= j < hi && i != j ==> ts[i] !! ts[j]
  }

  /** Where the walk stands after `m` nodes, seen from node `i`. */
  ghost predicate Alone(eval: Evaluator, ts: seq<Keys>, start: Cells, m: nat, records: seq<ExecutionRecord>,
                        c: Cells, i: nat)
    requires i < |ts| && |records| == m
  {
    if i < m then records[i] == eval(i, start).0 && Agree(c, eval(i, start).1, ts[i])
    else Agree(c, start, ts[i])
  }

  ghost predicate Outside(ts: seq<Keys>, lo: nat, hi: nat, k: TouchKey)
    requires lo <= hi <= |ts|
  {
    forall i :: lo <= i < hi ==> k !in ts[i]
  }

  /** One more node `v` keeps every node's view. */
  lemma AloneStep(eval: Evaluator, ts: seq<Keys>, start: Cells, v: nat, records: seq<ExecutionRecord>, c: Cells, i: nat)
    requires v < |ts| && i < |ts| && |records| == v
    requires Alone(eval, ts, start, v, records, c, v) && Alone(eval, ts, start, v, records, c, i)
    requires LocalAt(eval, ts, v, c, start) && (i != v ==> ts[i] !! ts[v])
    ensures Alone(eval, ts, start, v + 1, records + [eval(v, c).0], eval(v, c).1, i)
  {
    var c' := eval(v, c).1;
    if i != v {
      forall k | k in ts[i] ensures SameAt(c, c', k) {
        assert k !in ts[v];
      }
      var was := if i < v then eval(i, start).1 else start;
      assert Agree(c, was, ts[i]);
      forall k | k in ts[i] ensures SameAt(c', was, k) {
        assert SameAt(c, was, k) && SameAt(c, c', k);
      }
    }
  }

  lemma {:induction false} WalkInside(eval: Evaluator, ts: seq<Keys>, lo: nat, hi: nat, m: nat, cells: Cells)
    requires lo <= m <= hi <= |ts| && Disjoint(ts, lo, hi) && Local(eval, ts, lo, hi)
    ensures forall i :: lo <= i < hi ==>
      Alone(eval, ts, Walk(eval, lo, cells).1, m, Walk(eval, m, cells).0, Walk(eval, m, cells).1, i)
    ensures forall k :: Outside(ts, lo, hi, k) ==> SameAt(Walk(eval, m, cells).1, Walk(eval, lo, cells).1, k)
  {
    if m > lo {
      var v := m - 1;
      WalkInside(eval, ts, lo, hi, v, cells);
      var start := Walk(eval, lo, cells).1;
      var (records, c) := Walk(eval, v, cells);
      assert LocalAt(eval, ts, v, c, start);
      forall i | lo <= i < hi
        ensures Alone(eval, ts, start, m, Walk(eval, m, cells).0, Walk(eval, m, cells).1, i)
      {
        AloneStep(eval, ts, start, v, records, c, i);
      }
      forall k | Outside(ts, lo, hi, k) ensures SameAt(Walk(eval, m, cells).1, start, k) {
        assert Alone(eval, ts, start, v, records, c, v);
        assert k !in ts[v];
        assert SameAt(c, start, k);
        assert SameAt(c, eval(v, c).1, k);
      }
    }
  }
}
