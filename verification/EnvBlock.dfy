/** Environment blocks: the canonical byte form of an environment and its parser
    (crates/shit-planner/src/env.rs:125-162). A block is text; `NUL` separates entries. */
module EnvBlock {
  import opened Plan
  import opened Text

  const NUL := 0 as char

  // ------------------------------------------------------------------
  // Entries and blocks
  // ------------------------------------------------------------------

  function Entry(k: string, v: string): string {
    k + ['='] + v
  }

  ghost function Entries(keys: seq<string>, env: Environment): seq<string>
    requires forall k :: k in keys ==> k in env
  {
    seq(|keys|, i requires 0 <= i < |keys| => Entry(keys[i], env[keys[i]]))
  }

  /** Entries with a separator between any two. */
  function Joined(entries: seq<string>): string {
    if entries == [] then [] else Appended(Joined(entries[..|entries| - 1]), |entries| == 1, entries[|entries| - 1])
  }

  function Appended(out: string, first: bool, e: string): string {
    if first then out + e else out + [NUL] + e
  }

  /** The canonical block: every variable once, in key order. */
  ghost function Canonical(env: Environment): string {
    InOrderSorted(env.Keys);
    Joined(Entries(InOrder(env.Keys), env))
  }

  method Canonicalize(env: Environment) returns (out: string)
    ensures out == Canonical(env)
  {
    out := "";
    InOrderSorted(env.Keys);
    ghost var order, done := InOrder(env.Keys), [];
    var left, first := env.Keys, true;
    while left != {}
      invariant left <= env.Keys && order == done + InOrder(left)
      invariant (forall k :: k in done ==> k in env) && out == Joined(Entries(done, env)) && (first <==> done == [])
      decreases left
    {
      var k := NextKey(left);
      EntriesSnoc(done, k, env);
      OrderStep(done, left, k);
      out := Push(out, first, k, env[k]);
      left, first, done := left - {k}, false, done + [k];
    }
    assert done + [] == done;
  }

  method Push(out: string, first: bool, k: string, v: string) returns (next: string)
    ensures next == Appended(out, first, Entry(k, v))
  {
    next := out;
    if !first {
      next := next + [NUL];
    }
    next := next + k + ['='] + v;
  }

  lemma EntriesSnoc(keys: seq<string>, k: string, env: Environment)
    requires k in env && forall k :: k in keys ==> k in env
    ensures forall x :: x in keys + [k] ==> x in env
    ensures Joined(Entries(keys + [k], env)) == Appended(Joined(Entries(keys, env)), keys == [], Entry(k, env[k]))
  {
    var es := Entries(keys + [k], env);
    assert es[..|es| - 1] == Entries(keys, env);
  }

  lemma {:induction false} JoinedIsTerminated(entries: seq<string>, last: string)
    ensures Joined(entries + [last]) == Terminated(entries, NUL) + last
  {
    var es := entries + [last];
    assert es[..|entries|] == entries;
    if entries == [] {
      assert Joined([]) + last == last == Terminated([], NUL) + last;
    } else {
      var m := |entries| - 1;
      assert entries[..m] + [entries[m]] == entries;
      JoinedIsTerminated(entries[..m], entries[m]);
      TerminatedSnoc(entries[..m], entries[m], NUL);
    }
  }

  // ------------------------------------------------------------------
  // Parsing
  // ------------------------------------------------------------------

  /** Where the first `=` stands; the length when there is none. */
  function EqualsAt(chunk: string): (p: nat)
    ensures p <= |chunk| && '=' !in chunk[..p] && (p < |chunk| ==> chunk[p] == '=')
  {
    if chunk == [] || chunk[0] == '=' then 0
    else
      var p := EqualsAt(chunk[1..]);
      assert chunk[..p + 1] == [chunk[0]] + chunk[1..][..p];
      p + 1
  }

  /** One chunk read into the map; a chunk without `=` is dropped. */
  function Absorb(env: Environment, chunk: string): Environment {
    var p := EqualsAt(chunk);
    if p < |chunk| then env[chunk[..p] := chunk[p + 1..]] else env
  }

  function Absorbed(chunks: seq<string>): Environment {
    if chunks == [] then map[] else Absorb(Absorbed(chunks[..|chunks| - 1]), chunks[|chunks| - 1])
  }

  function Parsed(block: string): Environment {
    Absorbed(Split(block, NUL))
  }

  method ParseBlock(block: string) returns (env: Environment)
    ensures env == Parsed(block)
  {
    env := map[];
    var chunks := Split(block, NUL);
    for i := 0 to |chunks|
      invariant env == Absorbed(chunks[..i])
    {
      assert chunks[..i + 1][..i] == chunks[..i];
      var chunk := chunks[i];
      if chunk == [] {
        continue;
      }
      var p := Position(chunk);
      if p == |chunk| {
        continue;
      }
      env := env[chunk[..p] := chunk[p + 1..]];
    }
    assert chunks[..|chunks|] == chunks;
  }

  method Position(chunk: string) returns (p: nat)
    ensures p == EqualsAt(chunk)
  {
    p := 0;
    assert chunk[0..] == chunk;
    while p < |chunk| && chunk[p] != '='
      invariant p <= |chunk| && EqualsAt(chunk) == p + EqualsAt(chunk[p..])
    {
      assert chunk[p..][1..] == chunk[p + 1..];
      p := p + 1;
    }
  }

  // ------------------------------------------------------------------
  // Round trips
  // ------------------------------------------------------------------

  /** Representable: no separator in a key, and none that ends an entry in a value. */
  ghost predicate Clean(env: Environment) {
    forall k :: k in env ==> '=' !in k && NUL !in k && NUL !in env[k]
  }

  lemma {:induction false} EqualsAfter(k: string, v: string)
    requires '=' !in k
    ensures EqualsAt(Entry(k, v)) == |k|
  {
    if k != [] {
      assert Entry(k, v)[1..] == Entry(k[1..], v);
      EqualsAfter(k[1..], v);
    }
  }

  lemma AbsorbEntry(env: Environment, k: string, v: string)
    requires '=' !in k
    ensures Absorb(env, Entry(k, v)) == env[k := v]
  {
    var e := Entry(k, v);
    EqualsAfter(k, v);
    assert e[..|k|] == k && e[|k| + 1..] == v;
  }

  ghost function Restrict(env: Environment, keys: seq<string>): Environment {
    map k | k in keys && k in env :: env[k]
  }

  lemma RestrictSnoc(env: Environment, init: seq<string>, k: string)
    requires k in env
    ensures Restrict(env, init)[k := env[k]] == Restrict(env, init + [k])
  {
    assert forall x :: x in init + [k] <==> x in init || x == k;
  }

  lemma AbsorbedSnoc(init: seq<string>, last: string)
    ensures Absorbed(init + [last]) == Absorb(Absorbed(init), last)
  {
    assert (init + [last])[..|init|] == init;
  }

  /** Reading entries of an environment, in any order, rebuilds that part of it. */
  lemma {:induction false} AbsorbedEntries(keys: seq<string>, env: Environment)
    requires Clean(env) && forall k :: k in keys ==> k in env
    ensures Absorbed(Entries(keys, env)) == Restrict(env, keys)
  {
    if keys != [] {
      var init, k := keys[..|keys| - 1], keys[|keys| - 1];
      assert keys == init + [k];
      AbsorbedEntries(init, env);
      assert Entries(keys, env) == Entries(init, env) + [Entry(k, env[k])];
      AbsorbedSnoc(Entries(init, env), Entry(k, env[k]));
      AbsorbEntry(Restrict(env, init), k, env[k]);
      RestrictSnoc(env, init, k);
    }
  }

  lemma EntriesFree(keys: seq<string>, env: Environment)
    requires Clean(env) && forall k :: k in keys ==> k in env
    ensures Free(Entries(keys, env), NUL)
  {
  }

  lemma SplitJoined(entries: seq<string>)
    requires entries != [] && Free(entries, NUL)
    ensures Split(Joined(entries), NUL) == entries && Split(Joined(entries) + [NUL], NUL) == entries + [""]
  {
    var m := |entries| - 1;
    assert entries[..m] + [entries[m]] == entries;
    JoinedIsTerminated(entries[..m], entries[m]);
    SplitTerminated(entries[..m], entries[m], NUL);
    TerminatedSnoc(entries[..m], entries[m], NUL);
    assert Terminated(entries, NUL) + "" == Joined(entries) + [NUL];
    SplitTerminated(entries, "", NUL);
  }

  lemma ParsedJoined(entries: seq<string>)
    requires Free(entries, NUL)
    ensures Parsed(Joined(entries)) == Absorbed(entries) && Parsed(Joined(entries) + [NUL]) == Absorbed(entries)
  {
    if entries == [] {
      NothingParsed();
      assert Joined(entries) + [NUL] == [NUL];
    } else {
      SplitJoined(entries);
      assert (entries + [""])[..|entries|] == entries;
    }
  }

  lemma NothingParsed()
    ensures Parsed([]) == map[] && Parsed([NUL]) == map[]
  {
    assert [""][..0] == [] && ["", ""][..1] == [""];
    assert [NUL][1..] == [] && Split([NUL], NUL) == ["", ""];
  }

  /** A block that lists an environment in any order, ended by a separator or not, reads as that
      environment and so canonicalizes to the same bytes. */
  lemma AnyOrderParses(keys: seq<string>, env: Environment, closed: bool)
    requires Clean(env) && forall k :: k in keys <==> k in env
    ensures var block := Joined(Entries(keys, env)) + if closed then [NUL] else [];
      Parsed(block) == env && Canonical(Parsed(block)) == Canonical(env)
  {
    EntriesFree(keys, env);
    AbsorbedEntries(keys, env);
    assert Restrict(env, keys) == env;
    ParsedJoined(Entries(keys, env));
    assert Joined(Entries(keys, env)) + [] == Joined(Entries(keys, env));
  }

  /** What the parser returns is always representable. */
  lemma {:induction false} AbsorbedIsClean(chunks: seq<string>)
    requires Free(chunks, NUL)
    ensures Clean(Absorbed(chunks))
  {
    if chunks != [] {
      AbsorbedIsClean(chunks[..|chunks| - 1]);
    }
  }

  /** Parsing inverts canonicalizing exactly on the representable environments. */
  lemma ParseInvertsCanonical(env: Environment)
    ensures Parsed(Canonical(env)) == env <==> Clean(env)
  {
    InOrderSorted(env.Keys);
    if Clean(env) {
      AnyOrderParses(InOrder(env.Keys), env, false);
      assert Canonical(env) + [] == Canonical(env);
    }
    SplitIsFree(Canonical(env), NUL);
    AbsorbedIsClean(Split(Canonical(env), NUL));
  }

  /** For any bytes at all, re-canonicalizing what was read loses nothing more. */
  lemma CanonicalIsStable(block: string)
    ensures Parsed(Canonical(Parsed(block))) == Parsed(block)
  {
    SplitIsFree(block, NUL);
    AbsorbedIsClean(Split(block, NUL));
    ParseInvertsCanonical(Parsed(block));
  }

  /** Equal canonical blocks, equal environments: what makes the block's hash an identity. */
  lemma CanonicalIsInjective(a: Environment, b: Environment)
    requires Clean(a) && Clean(b) && Canonical(a) == Canonical(b)
    ensures a == b
  {
    ParseInvertsCanonical(a);
    ParseInvertsCanonical(b);
  }
}
