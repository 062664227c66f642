/** Descriptor dispatch (crates/shit-desc/src/dispatch.rs): the best-scoring match over all
    authorities. */
module Dispatch {
  import opened Plan
  import opened Matcher
  import Text

  datatype MatchBlock = MatchBlock(argv: Argv, excludes: seq<Argv>)

  /** Descriptors by authority and name; both levels iterate in key order. */
  type Loader = map<string, map<string, MatchBlock>>

  function AuthorityRank(auth: string): nat {
    if auth == "user" then 0 else if auth == "builtin" then 1 else 2
  }

  datatype Candidate = Candidate(score: nat, auth: string, name: string)

  /** A loaded descriptor that matches and is not excluded, with its score. */
  ghost predicate IsCandidate(loader: Loader, argv: Argv, c: Candidate) {
    && c.auth in loader && c.name in loader[c.auth]
    && var block := loader[c.auth][c.name];
    DescriptorScore(block.argv, block.excludes, argv) == Some(c.score)
  }

  /** Higher score, then better authority rank, then authority and name in key order. */
  predicate Better(a: Candidate, b: Candidate) {
    if a.score != b.score then a.score > b.score
    else if AuthorityRank(a.auth) != AuthorityRank(b.auth) then AuthorityRank(a.auth) < AuthorityRank(b.auth)
    else if a.auth != b.auth then Text.Less(a.auth, b.auth)
    else Text.Less(a.name, b.name)
  }

  ghost predicate Optimal(loader: Loader, argv: Argv, best: Candidate) {
    && IsCandidate(loader, argv, best)
    && forall c :: IsCandidate(loader, argv, c) && c != best ==> Better(best, c)
  }

  /** There is at most one optimum. */
  lemma OptimumUnique(loader: Loader, argv: Argv, a: Candidate, b: Candidate)
    requires Optimal(loader, argv, a) && Optimal(loader, argv, b)
    ensures a == b
  {
    if a != b {
      assert Better(a, b) && Better(b, a);
      if a.auth == b.auth {
        Text.LessTransitive(a.name, b.name, a.name);
        Text.LessIrreflexive(a.name);
      } else {
        Text.LessTotal(a.auth, b.auth);
        if Text.Less(a.auth, b.auth) && Text.Less(b.auth, a.auth) {
          Text.LessTransitive(a.auth, b.auth, a.auth);
          Text.LessIrreflexive(a.auth);
        }
      }
    }
  }

  /** Why `c` was not chosen over `best`, said of the authorities by name: its score is no higher; a user's
      own descriptor is passed over only for a higher score or another of the user's, a built-in one only for
      a higher score, the user's or another built-in one; and within an authority the first name wins. */
  ghost predicate Outdone(best: Candidate, c: Candidate) {
    && c.score <= best.score
    && (c.auth == "user" && best.auth != "user" ==> c.score < best.score)
    && (c.auth == "builtin" && best.auth != "user" && best.auth != "builtin" ==> c.score < best.score)
    && (c.auth == best.auth && c.score == best.score ==> c.name == best.name || Text.Less(best.name, c.name))
  }

  lemma OptimumOutdoes(loader: Loader, argv: Argv, best: Candidate)
    requires Optimal(loader, argv, best)
    ensures forall c :: IsCandidate(loader, argv, c) ==> Outdone(best, c)
  {
    forall c | IsCandidate(loader, argv, c) ensures Outdone(best, c) {
      assert c == best || Better(best, c);
    }
  }

  // ------------------------------------------------------------------
  // The loop
  // ------------------------------------------------------------------

  /** `(auth, name)` comes before `(auth', name')` in the iteration. */
  ghost predicate Precedes(auth: string, name: string, auth': string, name': string) {
    Text.Less(auth, auth') || (auth == auth' && Text.Less(name, name'))
  }

  /** `best` is the optimum of the candidates in `seen`. */
  ghost predicate BestBefore(loader: Loader, argv: Argv, best: Option<Candidate>, seen: set<(string, string)>) {
    && (best.None? ==> forall c :: IsCandidate(loader, argv, c) ==> (c.auth, c.name) !in seen)
    && (best.Some? ==> IsCandidate(loader, argv, best.value) && (best.value.auth, best.value.name) in seen)
    && (best.Some? ==> forall c :: IsCandidate(loader, argv, c) && (c.auth, c.name) in seen && c != best.value ==>
          Better(best.value, c))
  }

  /** The comparison in the loop: a newcomer replaces the best only if it is strictly better in
      score and rank. */
  function Keep(best: Option<Candidate>, c: Candidate): Candidate {
    match best
    case None => c
    case Some(prev) =>
      if c.score > prev.score || (c.score == prev.score && AuthorityRank(c.auth) < AuthorityRank(prev.auth)) then c
      else prev
  }

  lemma BetterTransitive(a: Candidate, b: Candidate, c: Candidate)
    requires Better(a, b) && Better(b, c)
    ensures Better(a, c)
  {
    if a.auth == b.auth == c.auth && a.score == b.score == c.score {
      Text.LessTransitive(a.name, b.name, c.name);
    } else if a.auth != b.auth && b.auth != c.auth && Text.Less(a.auth, b.auth) && Text.Less(b.auth, c.auth) {
      Text.LessTransitive(a.auth, b.auth, c.auth);
      Text.LessIrreflexive(a.auth);
    }
  }

  lemma KeepIsBest(loader: Loader, argv: Argv, best: Option<Candidate>, seen: set<(string, string)>, c: Candidate)
    requires BestBefore(loader, argv, best, seen) && IsCandidate(loader, argv, c)
    requires forall p :: p in seen ==> Precedes(p.0, p.1, c.auth, c.name)
    ensures BestBefore(loader, argv, Some(Keep(best, c)), seen + {(c.auth, c.name)})
  {
    var kept := Keep(best, c);
    forall d | IsCandidate(loader, argv, d) && (d.auth, d.name) in seen + {(c.auth, c.name)} && d != kept
      ensures Better(kept, d)
    {
      if (d.auth, d.name) == (c.auth, c.name) {
        assert d == c;
        NewcomerLoses(best.value, c);
      } else if kept == c {
        if best.Some? && d != best.value {
          NewcomerWins(best.value, c);
          BetterTransitive(c, best.value, d);
        }
      }
    }
  }

  lemma NewcomerLoses(prev: Candidate, c: Candidate)
    requires Precedes(prev.auth, prev.name, c.auth, c.name) && Keep(Some(prev), c) == prev
    ensures Better(prev, c)
  {
    Text.LessIrreflexive(c.auth);
  }

  lemma NewcomerWins(prev: Candidate, c: Candidate)
    requires Keep(Some(prev), c) == c && Precedes(prev.auth, prev.name, c.auth, c.name)
    ensures Better(c, prev)
  {
    Text.LessIrreflexive(c.auth);
    Text.LessIrreflexive(c.name);
  }

  lemma SkipIsBest(loader: Loader, argv: Argv, best: Option<Candidate>, seen: set<(string, string)>, auth: string,
                   name: string)
    requires BestBefore(loader, argv, best, seen)
    requires forall c :: IsCandidate(loader, argv, c) ==> (c.auth, c.name) != (auth, name)
    ensures BestBefore(loader, argv, best, seen + {(auth, name)})
  {
  }

  /** The pairs of authority and name that have been visited. */
  ghost function Visited(loader: Loader, auths: set<string>): set<(string, string)> {
    set auth, name | auth in loader && auth !in auths && name in loader[auth] :: (auth, name)
  }

  method Dispatch(loader: Loader, argv: Argv) returns (best: Option<Candidate>)
    ensures best.None? <==> forall c :: !IsCandidate(loader, argv, c)
    ensures best.Some? ==> Optimal(loader, argv, best.value)
    ensures best.Some? ==> forall c :: IsCandidate(loader, argv, c) ==> Outdone(best.value, c)
  {
    best := None;
    var auths := loader.Keys;
    while auths != {}
      invariant auths <= loader.Keys
      invariant forall a, b :: a in loader && a !in auths && b in auths ==> Text.Less(a, b)
      invariant BestBefore(loader, argv, best, Visited(loader, auths))
      decreases auths
    {
      var auth := Text.NextKey(auths);
      best := DispatchIn(loader, argv, auth, auths, best);
      auths := auths - {auth};
    }
    forall c | IsCandidate(loader, argv, c) ensures (c.auth, c.name) in Visited(loader, {}) {
    }
    if best.Some? {
      OptimumOutdoes(loader, argv, best.value);
    }
  }

  /** What has been visited when only `names` are left of an authority's bucket. */
  ghost function VisitedIn(loader: Loader, auths: set<string>, auth: string, names: set<string>): set<(string, string)>
    requires auth in loader
  {
    Visited(loader, auths) + set name | name in loader[auth] && name !in names :: (auth, name)
  }

  lemma VisitedPrecedes(loader: Loader, auths: set<string>, auth: string, names: set<string>, name: string)
    requires auth in loader
    requires forall a :: a in loader && a !in auths ==> Text.Less(a, auth)
    requires forall a :: a in loader[auth] && a !in names ==> Text.Less(a, name)
    ensures forall p :: p in VisitedIn(loader, auths, auth, names) ==> Precedes(p.0, p.1, auth, name)
  {
  }

  lemma VisitedGrows(loader: Loader, auths: set<string>, auth: string, names: set<string>, name: string)
    requires auth in loader && name in names && names <= loader[auth].Keys
    ensures VisitedIn(loader, auths, auth, names - {name}) == VisitedIn(loader, auths, auth, names) + {(auth, name)}
  {
  }

  lemma VisitedAll(loader: Loader, auths: set<string>, auth: string)
    requires auth in loader && auth in auths
    ensures VisitedIn(loader, auths, auth, {}) == Visited(loader, auths - {auth})
    ensures VisitedIn(loader, auths, auth, loader[auth].Keys) == Visited(loader, auths)
  {
  }

  /** The inner loop: one authority's bucket. */
  method DispatchIn(loader: Loader, argv: Argv, auth: string, ghost auths: set<string>, before: Option<Candidate>)
    returns (best: Option<Candidate>)
    requires auths <= loader.Keys && auth in auths
    requires forall a :: a in loader && a !in auths ==> Text.Less(a, auth)
    requires BestBefore(loader, argv, before, Visited(loader, auths))
    ensures BestBefore(loader, argv, best, Visited(loader, auths - {auth}))
  {
    best := before;
    var bucket := loader[auth];
    var names := bucket.Keys;
    VisitedAll(loader, auths, auth);
    while names != {}
      invariant names <= bucket.Keys
      invariant forall a, b :: a in bucket && a !in names && b in names ==> Text.Less(a, b)
      invariant BestBefore(loader, argv, best, VisitedIn(loader, auths, auth, names))
      decreases names
    {
      var name := Text.NextKey(names);
      VisitedPrecedes(loader, auths, auth, names, name);
      VisitedGrows(loader, auths, auth, names, name);
      var score := MatchDescriptor(bucket[name].argv, bucket[name].excludes, argv);
      best := Consider(loader, argv, best, auth, name, score, VisitedIn(loader, auths, auth, names));
      names := names - {name};
    }
  }

  /** One descriptor of a bucket. */
  method Consider(loader: Loader, argv: Argv, best: Option<Candidate>, auth: string, name: string,
                  score: Option<nat>, ghost seen: set<(string, string)>)
    returns (next: Option<Candidate>)
    requires auth in loader && name in loader[auth]
    requires score == DescriptorScore(loader[auth][name].argv, loader[auth][name].excludes, argv)
    requires BestBefore(loader, argv, best, seen)
    requires forall p :: p in seen ==> Precedes(p.0, p.1, auth, name)
    ensures BestBefore(loader, argv, next, seen + {(auth, name)})
  {
    if score.Some? {
      var c := Candidate(score.value, auth, name);
      KeepIsBest(loader, argv, best, seen, c);
      next := Some(Keep(best, c));
    } else {
      SkipIsBest(loader, argv, best, seen, auth, name);
      next := best;
    }
  }
}
