/** Strings in the order `BTreeMap<String, _>` keeps its keys, and decimal numbers. */
module Text {

  /** Lexicographic by code point, which is also the order of the UTF-8 bytes. */
  predicate Less(a: string, b: string) {
    if b == [] then false
    else if a == [] then true
    else a[0] < b[0] || (a[0] == b[0] && Less(a[1..], b[1..]))
  }

  /** `a` comes first exactly if it is a shorter beginning of `b`, or has the lesser character where the two
      first differ. */
  lemma {:induction false} LessIff(a: string, b: string)
    ensures Less(a, b) <==> exists k: nat :: LesserAt(a, b, k)
  {
    if a != [] && b != [] && a[0] == b[0] {
      LessIff(a[1..], b[1..]);
      if k: nat :| LesserAt(a[1..], b[1..], k) {
        LesserLater(a, b, k + 1);
      }
      if k: nat :| LesserAt(a, b, k) {
        LesserLater(a, b, k);
      }
    } else {
      assert b != [] && (a == [] || a[0] < b[0]) ==> LesserAt(a, b, 0);
      forall k: nat | LesserAt(a, b, k) ensures k == 0 || (a != [] && a[0] == b[0]) {
        AgreeingStart(a, b, k);
      }
    }
  }

  /** The two agree on their first `k` characters, and `b` goes on with a greater one or is longer. */
  ghost predicate LesserAt(a: string, b: string, k: nat) {
    k <= |a| && k < |b| && a[..k] == b[..k] && (k == |a| || a[k] < b[k])
  }

  lemma AgreeingStart(a: string, b: string, k: nat)
    requires LesserAt(a, b, k)
    ensures k == 0 || (a != [] && a[0] == b[0])
  {
    assert k > 0 ==> a[..k][0] == b[..k][0];
  }

  lemma LesserLater(a: string, b: string, k: nat)
    requires a != [] && b != [] && a[0] == b[0]
    ensures if k == 0 then !LesserAt(a, b, k) else LesserAt(a, b, k) <==> LesserAt(a[1..], b[1..], k - 1)
  {
    if 0 < k <= |a| && k < |b| {
      assert a[..k] == [a[0]] + a[1..][..k - 1] && b[..k] == [b[0]] + b[1..][..k - 1];
      assert a[..k][1..] == a[1..][..k - 1] && b[..k][1..] == b[1..][..k - 1];
    }
  }

  lemma {:induction false} LessTotal(a: string, b: string)
    ensures a == b || Less(a, b) || Less(b, a)
  {
    if a != [] && b != [] && a[0] == b[0] {
      LessTotal(a[1..], b[1..]);
      assert a == [a[0]] + a[1..] && b == [b[0]] + b[1..];
    }
  }

  lemma {:induction false} LessIrreflexive(a: string)
    ensures !Less(a, a)
  {
    if a != [] {
      LessIrreflexive(a[1..]);
    }
  }

  lemma {:induction false} LessTransitive(a: string, b: string, c: string)
    requires Less(a, b) && Less(b, c)
    ensures Less(a, c)
  {
    if a != [] && a[0] == b[0] && b[0] == c[0] {
      LessTransitive(a[1..], b[1..], c[1..]);
    }
  }

  ghost predicate Sorted(s: seq<string>) {
    forall i, j :: 0 <= i < j < |s| ==> Less(s[i], s[j])
  }

  /** The key iteration comes to first. */
  ghost predicate IsLeast(m: string, keys: set<string>) {
    m in keys && forall k :: k in keys && k != m ==> Less(m, k)
  }

  lemma {:induction false} LeastExists(keys: set<string>)
    requires keys != {}
    ensures exists m :: IsLeast(m, keys)
  {
    var x :| x in keys;
    if keys == {x} {
      assert IsLeast(x, keys);
    } else {
      assert keys - {x} != {} by { assert (keys - {x}) + {x} == keys; }
      LeastExists(keys - {x});
      var m :| IsLeast(m, keys - {x});
      LessTotal(m, x);
      if Less(x, m) {
        forall k | k in keys && k != x ensures Less(x, k) {
          if k != m { LessTransitive(x, m, k); }
        }
        assert IsLeast(x, keys);
      } else {
        assert IsLeast(m, keys);
      }
    }
  }

  lemma LeastUnique(a: string, b: string, keys: set<string>)
    requires IsLeast(a, keys) && IsLeast(b, keys)
    ensures a == b
  {
    if a != b {
      LessTransitive(a, b, a);
      LessIrreflexive(a);
    }
  }

  ghost function Least(keys: set<string>): (m: string)
    requires keys != {}
    ensures IsLeast(m, keys)
  {
    LeastExists(keys);
    var m :| IsLeast(m, keys);
    m
  }

  /** The keys in iteration order. */
  ghost function InOrder(keys: set<string>): (s: seq<string>)
    decreases |keys|
  {
    if keys == {} then [] else [Least(keys)] + InOrder(keys - {Least(keys)})
  }

  lemma {:induction false} InOrderSorted(keys: set<string>)
    ensures Sorted(InOrder(keys))
    ensures forall k :: k in InOrder(keys) <==> k in keys
    ensures |InOrder(keys)| == |keys|
    decreases |keys|
  {
    if keys != {} {
      var m := Least(keys);
      var rest := InOrder(keys - {m});
      InOrderSorted(keys - {m});
      assert InOrder(keys) == [m] + rest;
      forall k ensures k in InOrder(keys) <==> k in keys {
        assert k in [m] + rest <==> k == m || k in rest;
      }
      forall i, j | 0 <= i < j < |InOrder(keys)| ensures Less(InOrder(keys)[i], InOrder(keys)[j]) {
        assert j > 0 ==> rest[j - 1] in rest;
      }
    }
  }

  /** A strictly sorted sequence is determined by its elements. */
  lemma {:induction false} SortedUnique(a: seq<string>, b: seq<string>)
    requires Sorted(a) && Sorted(b) && (forall k :: k in a <==> k in b)
    ensures a == b
  {
    assert b != [] ==> b[0] in a;
    if a != [] {
      assert a[0] in b;
      assert b != [] && b[0] in a;
      FirstIsLeast(a, b[0]);
      FirstIsLeast(b, a[0]);
      if a[0] != b[0] {
        LessTransitive(a[0], b[0], a[0]);
        LessIrreflexive(a[0]);
      }
      forall k ensures k in a[1..] <==> k in b[1..] {
        TailMembers(a, k);
        TailMembers(b, k);
      }
      SortedUnique(a[1..], b[1..]);
      assert a == [a[0]] + a[1..] && b == [b[0]] + b[1..];
    }
  }

  lemma FirstIsLeast(s: seq<string>, k: string)
    requires Sorted(s) && s != [] && k in s
    ensures k == s[0] || Less(s[0], k)
  {
  }

  lemma TailMembers(s: seq<string>, k: string)
    requires Sorted(s) && s != []
    ensures k in s[1..] <==> k in s && k != s[0]
  {
    LessIrreflexive(s[0]);
    if k in s[1..] {
      var i :| 0 <= i < |s[1..]| && s[1..][i] == k;
      assert s[i + 1] == k && Less(s[0], s[i + 1]);
    }
    if k in s && k != s[0] {
      var i :| 0 <= i < |s| && s[i] == k;
      assert s[1..][i - 1] == k;
    }
  }

  /** An iteration takes the least key left. */
  lemma OrderStep(done: seq<string>, left: set<string>, k: string)
    requires left != {} && k == Least(left)
    ensures done + InOrder(left) == (done + [k]) + InOrder(left - {k})
  {
  }

  /** The next key of an iteration over `keys`. */
  method NextKey(keys: set<string>) returns (k: string)
    requires keys != {}
    ensures k == Least(keys)
  {
    LeastExists(keys);
    k :| k in keys && forall k' :: k' in keys && k' != k ==> Less(k, k');
    LeastUnique(k, Least(keys), keys);
  }

  // ------------------------------------------------------------------
  // Decimal numbers
  // ------------------------------------------------------------------

  predicate IsDigit(c: char) {
    '0' <= c <= '9'
  }

  predicate AllDigits(s: string) {
    forall i :: 0 <= i < |s| ==> IsDigit(s[i])
  }

  /** The number a digit string denotes; leading zeros are allowed. */
  function Value(s: string): nat
    requires AllDigits(s)
  {
    if s == [] then 0 else 10 * Value(s[..|s| - 1]) + (s[|s| - 1] - '0') as nat
  }

  function Digit(d: nat): char
    requires d < 10
  {
    '0' + d as char
  }

  /** `to_string` of a number. */
  function Decimal(n: nat): (s: string)
    ensures s != [] && AllDigits(s)
  {
    if n < 10 then [Digit(n)] else Decimal(n / 10) + [Digit(n % 10)]
  }

  lemma {:induction false} DecimalRoundTrip(n: nat)
    ensures Value(Decimal(n)) == n
  {
    var s := Decimal(n);
    var m := |s| - 1;
    if n < 10 {
      assert s[..0] == [];
    } else {
      DecimalRoundTrip(n / 10);
      assert s[..m] == Decimal(n / 10);
    }
  }

  // ------------------------------------------------------------------
  // Splitting at a separator
  // ------------------------------------------------------------------

  /** `str::split(c)`: the pieces between separators, one more than there are separators. */
  function Split(s: string, c: char): (pieces: seq<string>)
    ensures pieces != []
  {
    if s == [] then [""]
    else if s[0] == c then [""] + Split(s[1..], c)
    else var rest := Split(s[1..], c); [[s[0]] + rest[0]] + rest[1..]
  }

  /** The pieces, each followed by the separator. */
  function Terminated(pieces: seq<string>, c: char): string {
    if pieces == [] then [] else pieces[0] + [c] + Terminated(pieces[1..], c)
  }

  ghost predicate Free(pieces: seq<string>, c: char) {
    forall i :: 0 <= i < |pieces| ==> c !in pieces[i]
  }

  lemma {:induction false} SplitFirst(piece: string, rest: string, c: char)
    requires c !in piece
    ensures Split(piece + [c] + rest, c) == [piece] + Split(rest, c)
  {
    var s := piece + [c] + rest;
    if piece == [] {
      assert s[1..] == rest;
    } else {
      assert s[1..] == piece[1..] + [c] + rest;
      SplitFirst(piece[1..], rest, c);
      assert [s[0]] + piece[1..] == piece;
    }
  }

  lemma {:induction false} SplitLast(piece: string, c: char)
    requires c !in piece
    ensures Split(piece, c) == [piece]
  {
    if piece != [] {
      SplitLast(piece[1..], c);
      assert [piece[0]] + piece[1..] == piece;
    }
  }

  lemma {:induction false} SplitTerminated(pieces: seq<string>, last: string, c: char)
    requires Free(pieces, c) && c !in last
    ensures Split(Terminated(pieces, c) + last, c) == pieces + [last]
  {
    if pieces == [] {
      assert Terminated(pieces, c) + last == last;
      SplitLast(last, c);
    } else {
      var rest := Terminated(pieces[1..], c) + last;
      assert Terminated(pieces, c) + last == pieces[0] + [c] + rest;
      SplitFirst(pieces[0], rest, c);
      SplitTerminated(pieces[1..], last, c);
      assert [pieces[0]] + (pieces[1..] + [last]) == pieces + [last];
    }
  }

  lemma {:induction false} TerminatedSnoc(pieces: seq<string>, last: string, c: char)
    ensures Terminated(pieces + [last], c) == Terminated(pieces, c) + last + [c]
  {
    if pieces == [] {
      assert [last][1..] == [];
      assert Terminated([last], c) == last + [c] + [];
    } else {
      assert (pieces + [last])[1..] == pieces[1..] + [last];
      TerminatedSnoc(pieces[1..], last, c);
    }
  }

  /** No piece holds the separator. */
  lemma {:induction false} SplitIsFree(s: string, c: char)
    ensures Free(Split(s, c), c)
  {
    if s != [] {
      SplitIsFree(s[1..], c);
    }
  }
}
