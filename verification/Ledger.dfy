/** Tables of keyed rows, and what deleting the rows that appeared and then adding back the rows that
    went away does to one. `key` says which rows are the same, `value` what the table stores. */
module Ledger {
  import opened Plan

  ghost function Keys<R, K>(rows: seq<R>, key: R -> K): set<K> {
    if rows == [] then {} else Keys(rows[..|rows| - 1], key) + {key(rows[|rows| - 1])}
  }

  lemma {:induction false} KeysHas<R, K>(rows: seq<R>, key: R -> K, k: K)
    ensures k in Keys(rows, key) <==> exists i :: 0 <= i < |rows| && key(rows[i]) == k
  {
    if rows != [] {
      var m := |rows| - 1;
      KeysHas(rows[..m], key, k);
      if k in Keys(rows[..m], key) {
        var i :| 0 <= i < m && key(rows[..m][i]) == k;
        assert key(rows[i]) == k;
      }
      forall i | 0 <= i < |rows| && key(rows[i]) == k ensures k in Keys(rows, key) {
        assert i < m ==> rows[..m][i] == rows[i];
      }
    }
  }

  /** The table that lists the rows; of two rows with the same key the later one stands. */
  ghost function Table<R, K, V>(rows: seq<R>, key: R -> K, value: R -> V): (t: map<K, V>)
    ensures t.Keys == Keys(rows, key)
  {
    if rows == [] then map[]
    else Table(rows[..|rows| - 1], key, value)[key(rows[|rows| - 1]) := value(rows[|rows| - 1])]
  }

  /** No key twice. */
  ghost predicate DistinctKeys<R, K>(rows: seq<R>, key: R -> K) {
    rows == [] ||
    (DistinctKeys(rows[..|rows| - 1], key) && key(rows[|rows| - 1]) !in Keys(rows[..|rows| - 1], key))
  }

  lemma {:induction false} DistinctKeysIs<R, K>(rows: seq<R>, key: R -> K)
    ensures DistinctKeys(rows, key) <==> forall i, j :: 0 <= i < j < |rows| ==> key(rows[i]) != key(rows[j])
  {
    if rows != [] {
      var m := |rows| - 1;
      var init := rows[..m];
      DistinctKeysIs(init, key);
      KeysHas(init, key, key(rows[m]));
      assert forall i :: 0 <= i < m ==> init[i] == rows[i];
    }
  }

  /** The rows whose key is not in `known`, in order. */
  ghost function Only<R, K>(rows: seq<R>, key: R -> K, known: set<K>): seq<R> {
    if rows == [] then []
    else Only(rows[..|rows| - 1], key, known) + if key(rows[|rows| - 1]) in known then [] else [rows[|rows| - 1]]
  }

  lemma {:induction false} OnlyIs<R, K, V>(rows: seq<R>, key: R -> K, value: R -> V, known: set<K>)
    ensures Keys(Only(rows, key, known), key) == Keys(rows, key) - known
    ensures Table(Only(rows, key, known), key, value) == Table(rows, key, value) - known
  {
    if rows != [] {
      var m := |rows| - 1;
      var init, r := rows[..m], rows[m];
      OnlyIs(init, key, value, known);
      var kept := Only(init, key, known);
      if key(r) in known {
        assert Only(rows, key, known) == kept;
      } else {
        assert Only(rows, key, known) == kept + [r];
        assert (kept + [r])[..|kept|] == kept;
      }
    }
  }

  lemma {:induction false} OnlyKeepsDistinct<R, K>(rows: seq<R>, key: R -> K, known: set<K>)
    requires DistinctKeys(rows, key)
    ensures DistinctKeys(Only(rows, key, known), key)
  {
    if rows != [] {
      var init, r := rows[..|rows| - 1], rows[|rows| - 1];
      var kept := Only(init, key, known);
      OnlyKeepsDistinct(init, key, known);
      OnlyIs(init, key, key, known);
      if key(r) in known {
        assert Only(rows, key, known) == kept;
      } else {
        DistinctSnoc(kept, r, key);
        assert Only(rows, key, known) == kept + [r];
      }
    }
  }

  lemma DistinctSnoc<R, K>(rows: seq<R>, r: R, key: R -> K)
    requires DistinctKeys(rows, key) && key(r) !in Keys(rows, key)
    ensures DistinctKeys(rows + [r], key)
  {
    assert (rows + [r])[..|rows|] == rows;
  }

  lemma OnlyOfOne<R, K>(r: R, key: R -> K, known: set<K>)
    ensures Only([r], key, known) == if key(r) in known then [] else [r]
  {
    assert [r][..0] == [];
    assert Only([r], key, known) == [] + if key(r) in known then [] else [r];
  }

  /** Two ways of telling rows apart that agree on `a` and `b`. */
  ghost predicate ToldAlike<R, K, L>(key: R -> K, slot: R -> L, a: R, b: R) {
    key(a) == key(b) <==> slot(a) == slot(b)
  }

  /** Rows told apart alike are known alike, so the same rows are left. */
  lemma {:induction false} OnlyRekeyed<R(!new), K, L>(rows: seq<R>, others: seq<R>, key: R -> K, slot: R -> L)
    requires forall a, b :: ToldAlike(key, slot, a, b)
    ensures Only(rows, key, Keys(others, key)) == Only(rows, slot, Keys(others, slot))
  {
    if rows != [] {
      var m := |rows| - 1;
      OnlyRekeyed(rows[..m], others, key, slot);
      KnownRekeyed(rows[m], others, key, slot);
    }
  }

  lemma KnownRekeyed<R(!new), K, L>(r: R, others: seq<R>, key: R -> K, slot: R -> L)
    requires forall a, b :: ToldAlike(key, slot, a, b)
    ensures key(r) in Keys(others, key) <==> slot(r) in Keys(others, slot)
  {
    KeysHas(others, key, key(r));
    KeysHas(others, slot, slot(r));
    forall i | 0 <= i < |others| ensures key(others[i]) == key(r) <==> slot(others[i]) == slot(r) {
      assert ToldAlike(key, slot, others[i], r);
    }
  }

  /** Exactly the rows with no known key are left. */
  lemma {:induction false} OnlyHas<R, K>(rows: seq<R>, key: R -> K, known: set<K>, r: R)
    ensures r in Only(rows, key, known) <==> r in rows && key(r) !in known
  {
    if rows != [] {
      var m := |rows| - 1;
      OnlyHas(rows[..m], key, known, r);
      assert rows == rows[..m] + [rows[m]];
    }
  }

  // ------------------------------------------------------------------
  // Running deletions and additions
  // ------------------------------------------------------------------

  /** One deletion, refused when there is nothing to delete. */
  function Drop<K, V>(t: map<K, V>, k: K): Option<map<K, V>> {
    if k in t then Some(t - {k}) else None
  }

  /** One addition, refused when the key is taken. */
  function Put<K, V>(t: map<K, V>, k: K, v: V): Option<map<K, V>> {
    if k in t then None else Some(t[k := v])
  }

  ghost function DropAll<R, K, V>(t: map<K, V>, rows: seq<R>, key: R -> K): Option<map<K, V>> {
    if rows == [] then Some(t)
    else match DropAll(t, rows[..|rows| - 1], key)
      case None => None
      case Some(next) => Drop(next, key(rows[|rows| - 1]))
  }

  ghost function PutAll<R, K, V>(t: map<K, V>, rows: seq<R>, key: R -> K, value: R -> V): Option<map<K, V>> {
    if rows == [] then Some(t)
    else match PutAll(t, rows[..|rows| - 1], key, value)
      case None => None
      case Some(next) => Put(next, key(rows[|rows| - 1]), value(rows[|rows| - 1]))
  }

  lemma {:induction false} DropAllIs<R, K, V>(t: map<K, V>, rows: seq<R>, key: R -> K)
    requires Keys(rows, key) <= t.Keys
    ensures DropAll(t, rows, key) == if DistinctKeys(rows, key) then Some(t - Keys(rows, key)) else None
  {
    if rows == [] {
      assert t - Keys(rows, key) == t;
    } else {
      var m := |rows| - 1;
      var k := key(rows[m]);
      DropAllIs(t, rows[..m], key);
      var left := t - Keys(rows[..m], key);
      assert left - {k} == t - Keys(rows, key);
    }
  }

  lemma {:induction false} PutAllIs<R, K, V>(t: map<K, V>, rows: seq<R>, key: R -> K, value: R -> V)
    requires Keys(rows, key) !! t.Keys
    ensures PutAll(t, rows, key, value) == if DistinctKeys(rows, key) then Some(t + Table(rows, key, value)) else None
  {
    if rows == [] {
      assert t + Table(rows, key, value) == t;
    } else {
      var m := |rows| - 1;
      var k, v := key(rows[m]), value(rows[m]);
      PutAllIs(t, rows[..m], key, value);
      var now := t + Table(rows[..m], key, value);
      assert now[k := v] == t + Table(rows, key, value);
    }
  }

  // ------------------------------------------------------------------
  // Undo and redo
  // ------------------------------------------------------------------

  /** The table after an undo: what both states know keeps its present row, the rest is as captured. */
  ghost function Reverted<K, V>(t: map<K, V>, pre: map<K, V>): map<K, V> {
    (map k | k in t && k in pre :: t[k]) + (pre - t.Keys)
  }

  ghost function Undo<R, K, V>(t: map<K, V>, gone: seq<R>, back: seq<R>, key: R -> K, value: R -> V): Option<map<K,
                               V>> {
    match DropAll(t, gone, key)
    case None => None
    case Some(next) => PutAll(next, back, key, value)
  }

  lemma UndoRuns<R, K, V>(t: map<K, V>, gone: seq<R>, back: seq<R>, key: R -> K, value: R -> V)
    requires Keys(gone, key) <= t.Keys && Keys(back, key) !! t.Keys
    ensures Undo(t, gone, back, key, value) ==
      if DistinctKeys(gone, key) && DistinctKeys(back, key) then Some((t - Keys(gone, key)) + Table(back, key, value))
      else None
  {
    DropAllIs(t, gone, key);
    PutAllIs(t - Keys(gone, key), back, key, value);
  }

  lemma RevertedInParts<K, V>(t: map<K, V>, pre: map<K, V>)
    ensures (t - (t.Keys - pre.Keys)) + (pre - t.Keys) == Reverted(t, pre)
  {
  }

  /** Deleting what appeared and adding back what went away runs to its end exactly when no key appeared
      or went away twice, and then leaves the reverted table. */
  lemma UndoReverts<R, K, V>(t: map<K, V>, pre: seq<R>, post: seq<R>, key: R -> K, value: R -> V)
    requires t.Keys == Keys(post, key)
    ensures var gone, back := Only(post, key, Keys(pre, key)), Only(pre, key, Keys(post, key));
      Undo(t, gone, back, key, value) ==
      if DistinctKeys(gone, key) && DistinctKeys(back, key) then Some(Reverted(t, Table(pre, key, value))) else None
  {
    OnlyIs(post, key, value, Keys(pre, key));
    OnlyIs(pre, key, value, Keys(post, key));
    UndoRuns(t, Only(post, key, Keys(pre, key)), Only(pre, key, Keys(post, key)), key, value);
    RevertedInParts(t, Table(pre, key, value));
  }

  /** The captured keys are restored; the captured table itself exactly when the shared rows agree. */
  lemma RevertedIs<K, V>(t: map<K, V>, pre: map<K, V>)
    ensures Reverted(t, pre).Keys == pre.Keys
    ensures Reverted(t, pre) == pre <==> forall k :: k in t && k in pre ==> t[k] == pre[k]
  {
    var after := Reverted(t, pre);
    forall k | k in pre ensures k in after && after[k] == if k in t then t[k] else pre[k] {
    }
  }

  /** Reverting to the present table from the reverted one leads back, whatever differs. */
  lemma RevertedBack<K, V>(t: map<K, V>, pre: map<K, V>)
    ensures Reverted(Reverted(t, pre), t) == t
  {
  }
}
