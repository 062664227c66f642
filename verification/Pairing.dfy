/** Pairing chflags shim captures with helper events
    (crates/shit-planner/src/plan_forward.rs:85-113), by position in the event list. */
module Pairing {
  import opened Plan
  import Cohort

  /** A chflags mutation is recognised by its inode and the flags before it. */
  datatype Key = Key(inode: InodeRef, flags: nat)

  /** What an event means for the pairing. */
  datatype Mark = Shim(key: Key) | Helper(key: Key) | Neither

  // ------------------------------------------------------------------
  // Matchings
  // ------------------------------------------------------------------

  ghost predicate Pairs(marks: seq<Mark>, h: nat, s: nat) {
    s < h < |marks| && marks[h].Helper? && marks[s] == Shim(marks[h].key)
  }

  /** `f` assigns helpers to earlier shims of the same key, no shim twice. */
  ghost predicate Matching(marks: seq<Mark>, f: map<nat, nat>) {
    && (forall h :: h in f ==> Pairs(marks, h, f[h]))
    && (forall h, h' :: h in f && h' in f && h != h' ==> f[h] != f[h'])
  }

  // ------------------------------------------------------------------
  // The greedy pairing
  // ------------------------------------------------------------------

  /** The shims of `key` still pending after `n` events, oldest first. */
  function Pending(marks: seq<Mark>, n: nat, key: Key): seq<nat>
    requires n <= |marks|
  {
    if n == 0 then []
    else
      var stack := Pending(marks, n - 1, key);
      if marks[n - 1] == Shim(key) then stack + [n - 1]
      else if marks[n - 1] == Helper(key) && stack != [] then stack[..|stack| - 1]
      else stack
  }

  /** The shim event `h` takes: the newest pending one of its key. */
  function Partner(marks: seq<Mark>, h: nat): Option<nat>
    requires h < |marks|
  {
    if marks[h].Helper? && Pending(marks, h, marks[h].key) != [] then
      var stack := Pending(marks, h, marks[h].key);
      Some(stack[|stack| - 1])
    else None
  }

  /** The greedy pairing as a matching. */
  ghost function Taken(marks: seq<Mark>): map<nat, nat> {
    map h: nat | h < |marks| && Partner(marks, h).Some? :: Partner(marks, h).value
  }

  /** Pending shims are earlier events of the key, in event order. */
  ghost predicate StackOk(marks: seq<Mark>, n: nat, key: Key, stack: seq<nat>) {
    && (forall a, b :: 0 <= a < b < |stack| ==> stack[a] < stack[b])
    && (forall a :: 0 <= a < |stack| ==> stack[a] < n && n <= |marks| && marks[stack[a]] == Shim(key))
  }

  lemma {:induction false} PendingSound(marks: seq<Mark>, n: nat, key: Key)
    requires n <= |marks|
    ensures StackOk(marks, n, key, Pending(marks, n, key))
  {
    if n > 0 {
      PendingSound(marks, n - 1, key);
      assert StackOk(marks, n - 1, key, Pending(marks, n - 1, key));
    }
  }

  lemma PartnerSound(marks: seq<Mark>, h: nat)
    requires h < |marks| && Partner(marks, h).Some?
    ensures Pairs(marks, h, Partner(marks, h).value)
  {
    PendingSound(marks, h, marks[h].key);
    assert StackOk(marks, h, marks[h].key, Pending(marks, h, marks[h].key));
  }

  /** A shim is pending until some helper takes it. */
  lemma {:induction false} PendingOrTaken(marks: seq<Mark>, n: nat, s: nat)
    requires s < n <= |marks| && marks[s].Shim?
    ensures s in Pending(marks, n, marks[s].key)
         || exists h :: 0 <= h < n && Partner(marks, h) == Some(s)
  {
    var key := marks[s].key;
    var stack := Pending(marks, n - 1, key);
    if s < n - 1 {
      PendingOrTaken(marks, n - 1, s);
      if s in stack && marks[n - 1] == Helper(key) {
        var a :| 0 <= a < |stack| && stack[a] == s;
        if a < |stack| - 1 {
          assert Pending(marks, n, key)[a] == s;
        } else {
          assert Partner(marks, n - 1) == Some(s);
        }
      } else if s in stack {
        var a :| 0 <= a < |stack| && stack[a] == s;
        assert Pending(marks, n, key)[a] == s;
      }
    } else {
      assert Pending(marks, n, key)[|stack|] == s;
    }
  }

  /** A taken shim is never pending again. */
  lemma {:induction false} TakenForGood(marks: seq<Mark>, h: nat, n: nat)
    requires h < n <= |marks| && Partner(marks, h).Some?
    ensures Partner(marks, h).value !in Pending(marks, n, marks[h].key)
  {
    var key, s := marks[h].key, Partner(marks, h).value;
    PartnerSound(marks, h);
    var stack, next := Pending(marks, n - 1, key), Pending(marks, n, key);
    if n > h + 1 {
      TakenForGood(marks, h, n - 1);
      assert s !in stack;
    } else {
      PendingSound(marks, h, key);
      assert StackOk(marks, h, key, stack);
      assert next == stack[..|stack| - 1] && stack[|stack| - 1] == s;
    }
  }

  /** The greedy pairing is a matching. */
  lemma TakenIsMatching(marks: seq<Mark>)
    ensures Matching(marks, Taken(marks))
  {
    var f := Taken(marks);
    forall h | h in f ensures Pairs(marks, h, f[h]) {
      PartnerSound(marks, h);
    }
    forall h, h' | h in f && h' in f && h != h' ensures f[h] != f[h'] {
      TakenOnce(marks, if h < h' then h else h', if h < h' then h' else h);
    }
  }

  lemma TakenOnce(marks: seq<Mark>, h: nat, h': nat)
    requires h < h' < |marks| && Partner(marks, h).Some? && Partner(marks, h').Some?
    ensures Partner(marks, h) != Partner(marks, h')
  {
    PartnerSound(marks, h);
    PartnerSound(marks, h');
    if marks[h].key == marks[h'].key {
      TakenForGood(marks, h, h');
      var stack := Pending(marks, h', marks[h'].key);
      assert Partner(marks, h').value == stack[|stack| - 1];
    }
  }

  /** Each helper takes the latest pending shim: every shim of its key between the one it
      took and itself had already been taken by an earlier helper. */
  lemma TakesLatest(marks: seq<Mark>, h: nat, s: nat)
    requires h < |marks| && Partner(marks, h).Some?
    requires Partner(marks, h).value < s < h && marks[s] == Shim(marks[h].key)
    ensures exists h' :: 0 <= h' < h && Partner(marks, h') == Some(s)
  {
    var stack := Pending(marks, h, marks[h].key);
    PendingSound(marks, h, marks[h].key);
    assert StackOk(marks, h, marks[h].key, stack);
    assert s !in stack;
    PendingOrTaken(marks, h, s);
  }

  /** Shim `s` pairs with helper `h` and no earlier helper took it. */
  ghost predicate AvailableMark(marks: seq<Mark>, h: nat, s: nat)
    requires h < |marks|
  {
    Pairs(marks, h, s) && forall h': nat :: h' < h ==> Partner(marks, h') != Some(s)
  }

  /** Pending is what is available. */
  lemma AvailableIsPending(marks: seq<Mark>, h: nat, s: nat)
    requires h < |marks|
    ensures AvailableMark(marks, h, s) <==> marks[h].Helper? && s in Pending(marks, h, marks[h].key)
  {
    if marks[h].Helper? {
      var stack := Pending(marks, h, marks[h].key);
      PendingSound(marks, h, marks[h].key);
      if s in stack {
        var a :| 0 <= a < |stack| && stack[a] == s;
        forall h': nat | h' < h ensures Partner(marks, h') != Some(s) {
          PendingNotTaken(marks, h', h, s);
        }
      }
      if AvailableMark(marks, h, s) {
        PendingOrTaken(marks, h, s);
      }
    }
  }

  lemma PendingNotTaken(marks: seq<Mark>, h: nat, n: nat, s: nat)
    requires h < n <= |marks| && s < n && marks[s].Shim? && s in Pending(marks, n, marks[s].key)
    ensures Partner(marks, h) != Some(s)
  {
    if Partner(marks, h).Some? {
      PartnerSound(marks, h);
      TakenForGood(marks, h, n);
    }
  }

  /** A helper takes the latest shim available to it, and none only if none is. */
  lemma LatestMark(marks: seq<Mark>, h: nat)
    requires h < |marks|
    ensures Partner(marks, h).Some? ==> AvailableMark(marks, h, Partner(marks, h).value)
    ensures forall s: nat :: AvailableMark(marks, h, s) ==> Partner(marks, h).Some? && s <= Partner(marks, h).value
  {
    if Partner(marks, h).Some? {
      AvailableIsPending(marks, h, Partner(marks, h).value);
    }
    forall s: nat | AvailableMark(marks, h, s) ensures Partner(marks, h).Some? && s <= Partner(marks, h).value {
      AvailableIsPending(marks, h, s);
      PendingSound(marks, h, marks[h].key);
    }
  }

  // ------------------------------------------------------------------
  // No matching pairs more
  // ------------------------------------------------------------------

  /** The helpers of `key` among the first `n` events that `f` pairs. */
  ghost function PairedBy(marks: seq<Mark>, f: map<nat, nat>, n: nat, key: Key): set<nat> {
    set h | h in f && h < n && h < |marks| && marks[h] == Helper(key)
  }

  /** For one key, by induction over the events: a helper that finds its stack empty has all
      earlier shims of its key taken, so no injective pairing is ahead of the greedy one. */
  lemma {:induction false} MaximumAtKey(marks: seq<Mark>, f: map<nat, nat>, n: nat, key: Key)
    requires Matching(marks, f) && n <= |marks|
    ensures |PairedBy(marks, f, n, key)| <= |PairedBy(marks, Taken(marks), n, key)|
  {
    if n > 0 {
      MaximumAtKey(marks, f, n - 1, key);
      if marks[n - 1] == Helper(key) && Pending(marks, n - 1, key) == [] {
        AllTaken(marks, f, n, key);
      } else {
        PairedByStep(marks, f, n, key);
        PairedByStep(marks, Taken(marks), n, key);
        assert marks[n - 1] == Helper(key) ==> n - 1 in Taken(marks);
      }
    }
  }

  lemma PairedByStep(marks: seq<Mark>, f: map<nat, nat>, n: nat, key: Key)
    requires 0 < n <= |marks|
    ensures |PairedBy(marks, f, n, key)|
         == |PairedBy(marks, f, n - 1, key)| + (if n - 1 in f && marks[n - 1] == Helper(key) then 1 else 0)
  {
    var was, now := PairedBy(marks, f, n - 1, key), PairedBy(marks, f, n, key);
    if n - 1 in f && marks[n - 1] == Helper(key) {
      assert now == was + {n - 1};
    } else {
      assert now == was;
    }
  }

  lemma AllTaken(marks: seq<Mark>, f: map<nat, nat>, n: nat, key: Key)
    requires Matching(marks, f) && 0 < n <= |marks|
    requires Pending(marks, n - 1, key) == []
    ensures |PairedBy(marks, f, n, key)| <= |PairedBy(marks, Taken(marks), n, key)|
  {
    var g := Taken(marks);
    var now, now' := PairedBy(marks, f, n, key), PairedBy(marks, g, n, key);
    TakenIsMatching(marks);
    var shims, shims' := (set h | h in now :: f[h]), (set h | h in now' :: g[h]);
    assert shims <= shims' by {
      forall s | s in shims ensures s in shims' {
        var h :| h in now && f[h] == s;
        assert Pairs(marks, h, s);
        PendingOrTaken(marks, n - 1, s);
        var h' :| 0 <= h' < n - 1 && Partner(marks, h') == Some(s);
        assert h' in g && g[h'] == s && Pairs(marks, h', s);
        assert h' in now';
      }
    }
    ImageSize(f, now);
    ImageSize(g, now');
    Cohort.SubsetSize(shims, shims');
  }

  lemma {:induction false} ImageSize(f: map<nat, nat>, hs: set<nat>)
    requires hs <= f.Keys
    requires forall h, h' :: h in f && h' in f && h != h' ==> f[h] != f[h']
    ensures |set h | h in hs :: f[h]| == |hs|
  {
    if hs != {} {
      var x :| x in hs;
      ImageSize(f, hs - {x});
      assert (set h | h in hs :: f[h]) == (set h | h in hs - {x} :: f[h]) + {f[x]};
    }
  }

  /** Helpers of `f` whose key is in `keys`. */
  ghost function PairedIn(marks: seq<Mark>, f: map<nat, nat>, keys: set<Key>): set<nat> {
    set h | h in f && h < |marks| && marks[h].Helper? && marks[h].key in keys
  }

  lemma {:induction false} MaximumOver(marks: seq<Mark>, f: map<nat, nat>, keys: set<Key>)
    requires Matching(marks, f)
    ensures |PairedIn(marks, f, keys)| <= |PairedIn(marks, Taken(marks), keys)|
  {
    if keys == {} {
      assert PairedIn(marks, f, keys) == {};
    } else {
      var key :| key in keys;
      MaximumOver(marks, f, keys - {key});
      MaximumAtKey(marks, f, |marks|, key);
      PairedInSplits(marks, f, keys, key);
      PairedInSplits(marks, Taken(marks), keys, key);
    }
  }

  lemma PairedInSplits(marks: seq<Mark>, f: map<nat, nat>, keys: set<Key>, key: Key)
    requires key in keys
    ensures |PairedIn(marks, f, keys)| == |PairedIn(marks, f, keys - {key})| + |PairedBy(marks, f, |marks|, key)|
  {
    var rest, own := PairedIn(marks, f, keys - {key}), PairedBy(marks, f, |marks|, key);
    assert PairedIn(marks, f, keys) == rest + own;
    assert rest !! own;
  }

  /** The greedy pairing is a maximum matching: no assignment of helper events to earlier shim
      events of the same inode and flags, shims used at most once, pairs more. */
  lemma GreedyIsMaximum(marks: seq<Mark>, f: map<nat, nat>)
    requires Matching(marks, f)
    ensures |f| <= |Taken(marks)|
  {
    var keys := set m | m in marks && m.Helper? :: m.key;
    MaximumOver(marks, f, keys);
    TakenIsMatching(marks);
    forall h | h in f ensures marks[h] in marks && h in PairedIn(marks, f, keys) {
      assert Pairs(marks, h, f[h]);
    }
    forall h | h in Taken(marks) ensures h in PairedIn(marks, Taken(marks), keys) {
      assert Pairs(marks, h, Taken(marks)[h]);
    }
    assert f.Keys == PairedIn(marks, f, keys);
    assert Taken(marks).Keys == PairedIn(marks, Taken(marks), keys);
  }

  // ------------------------------------------------------------------
  // The same pairing as the loop keeps it, by event id
  // ------------------------------------------------------------------

  function IdStack(marks: seq<Mark>, ids: seq<nat>, n: nat, key: Key): seq<nat>
    requires n <= |marks| == |ids|
  {
    if n == 0 then []
    else
      var stack := IdStack(marks, ids, n - 1, key);
      if marks[n - 1] == Shim(key) then stack + [ids[n - 1]]
      else if marks[n - 1] == Helper(key) && stack != [] then stack[..|stack| - 1]
      else stack
  }

  function IdsPaired(marks: seq<Mark>, ids: seq<nat>, n: nat): set<nat>
    requires n <= |marks| == |ids|
  {
    if n == 0 then {}
    else
      var paired := IdsPaired(marks, ids, n - 1);
      if marks[n - 1].Helper? && IdStack(marks, ids, n - 1, marks[n - 1].key) != [] then
        var stack := IdStack(marks, ids, n - 1, marks[n - 1].key);
        paired + {stack[|stack| - 1]}
      else paired
  }

  lemma {:induction false} IdStackFollows(marks: seq<Mark>, ids: seq<nat>, n: nat, key: Key)
    requires n <= |marks| == |ids|
    ensures |IdStack(marks, ids, n, key)| == |Pending(marks, n, key)|
    ensures StackOk(marks, n, key, Pending(marks, n, key))
    ensures forall a :: 0 <= a < |Pending(marks, n, key)| ==>
      IdStack(marks, ids, n, key)[a] == ids[Pending(marks, n, key)[a]]
  {
    PendingSound(marks, n, key);
    if n > 0 {
      IdStackFollows(marks, ids, n - 1, key);
    }
  }

  lemma IdsPairedStep(marks: seq<Mark>, ids: seq<nat>, n: nat)
    requires 0 < n <= |marks| == |ids|
    ensures IdsPaired(marks, ids, n) == IdsPaired(marks, ids, n - 1) +
      (if Partner(marks, n - 1).Some? then {PartnerId(marks, ids, n - 1)} else {})
  {
    if marks[n - 1].Helper? {
      IdStackFollows(marks, ids, n - 1, marks[n - 1].key);
    }
  }

  /** The ids the loop collects are those of the taken shims. */
  lemma {:induction false} IdsPairedAreTaken(marks: seq<Mark>, ids: seq<nat>, n: nat, x: nat)
    requires n <= |marks| == |ids|
    ensures x in IdsPaired(marks, ids, n) <==>
      exists h :: 0 <= h < n && Partner(marks, h).Some? && PartnerId(marks, ids, h) == x
  {
    if n > 0 {
      IdsPairedAreTaken(marks, ids, n - 1, x);
      IdsPairedStep(marks, ids, n);
    }
  }

  ghost function PartnerId(marks: seq<Mark>, ids: seq<nat>, h: nat): nat
    requires h < |marks| == |ids| && Partner(marks, h).Some?
  {
    PartnerSound(marks, h);
    ids[Partner(marks, h).value]
  }

  ghost predicate TakesId(ids: seq<nat>, g: map<nat, nat>, h: nat, x: nat) {
    h in g && g[h] < |ids| && ids[g[h]] == x
  }

  lemma CollectedAreTaken(marks: seq<Mark>, ids: seq<nat>, x: nat)
    requires |marks| == |ids|
    ensures x in IdsPaired(marks, ids, |marks|) <==> exists h :: TakesId(ids, Taken(marks), h, x)
  {
    IdsPairedAreTaken(marks, ids, |marks|, x);
    if x in IdsPaired(marks, ids, |marks|) {
      var h :| 0 <= h < |marks| && Partner(marks, h).Some? && PartnerId(marks, ids, h) == x;
      PartnerSound(marks, h);
      assert TakesId(ids, Taken(marks), h, x);
    }
    if h :| TakesId(ids, Taken(marks), h, x) {
      assert Partner(marks, h).Some? && PartnerId(marks, ids, h) == x;
    }
  }

  /** With distinct ids, a shim's id is collected exactly if some helper took the shim. */
  lemma ShimPairedIffTaken(marks: seq<Mark>, ids: seq<nat>, s: nat)
    requires |marks| == |ids| && Distinct(ids) && s < |marks|
    ensures ids[s] in IdsPaired(marks, ids, |marks|) <==> s in Taken(marks).Values
  {
    IdsPairedAreTaken(marks, ids, |marks|, ids[s]);
    if ids[s] in IdsPaired(marks, ids, |marks|) {
      var h :| 0 <= h < |marks| && Partner(marks, h).Some? && PartnerId(marks, ids, h) == ids[s];
      PartnerSound(marks, h);
      assert Taken(marks)[h] == s;
    }
    if s in Taken(marks).Values {
      var h :| h in Taken(marks) && Taken(marks)[h] == s;
      assert Partner(marks, h).Some? && PartnerId(marks, ids, h) == ids[s];
    }
  }
}
