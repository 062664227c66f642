/** Restoring a file's metadata (crates/shit-planner/src/executors/file.rs:170-220, 429-491, 546-569) and its
    extended attributes (crates/shit-planner/src/executors/xattr.rs:53-99). */
module Metadata {
  import opened Plan
  import opened Text

  /** Whether files carry flags, and the attributes the system manages itself and no restore writes. */
  datatype Platform = Platform(hasFlags: bool, managed: set<string>)

  /** Ownership is changed directly, or by the helper when that takes privilege. */
  datatype Route = Direct | Helper

  // ------------------------------------------------------------------
  // Extended attributes
  // ------------------------------------------------------------------

  type Attributes = map<string, string>

  /** Managed attributes as they are, all others as captured. */
  function Converged(current: Attributes, target: Attributes, managed: set<string>): Attributes {
    map k | k in current.Keys + target.Keys && (if k in managed then k in current else k in target) ::
      if k in managed then current[k] else target[k]
  }

  ghost predicate SameAttribute(a: Attributes, b: Attributes, k: string) {
    (k in a <==> k in b) && (k in a ==> a[k] == b[k])
  }

  lemma ConvergedIff(current: Attributes, target: Attributes, managed: set<string>)
    ensures Converged(current, target, managed) == target <==>
      forall k :: k in managed ==> SameAttribute(current, target, k)
  {
    var now := Converged(current, target, managed);
    if now == target {
      forall k | k in managed ensures SameAttribute(current, target, k) {
        assert k in now <==> k in current;
      }
    }
    if forall k :: k in managed ==> SameAttribute(current, target, k) {
      forall k ensures SameAttribute(now, target, k) {
        assert k in managed ==> SameAttribute(current, target, k);
      }
    }
  }

  method ConvergeXattrs(current: Attributes, target: Attributes, managed: set<string>) returns (now: Attributes)
    ensures now == Converged(current, target, managed)
  {
    now := SetMissing(current, target, managed);
    now := DeleteOrphans(now, current, target, managed);
    forall k ensures SameAttribute(now, Converged(current, target, managed), k) {
      assert if k in managed then SameAttribute(now, current, k) else SameAttribute(now, target, k);
    }
    SameEverywhere(now, Converged(current, target, managed));
  }

  lemma SameEverywhere(a: Attributes, b: Attributes)
    requires forall k :: SameAttribute(a, b, k)
    ensures a == b
  {
    forall k ensures (k in a <==> k in b) && (k in a ==> a[k] == b[k]) {
      assert SameAttribute(a, b, k);
    }
    assert a.Keys == b.Keys;
  }

  /** Adds and updates. */
  method SetMissing(current: Attributes, target: Attributes, managed: set<string>) returns (now: Attributes)
    ensures forall k :: k in target && k !in managed ==> SameAttribute(now, target, k)
    ensures forall k :: k in managed || k !in target ==> SameAttribute(now, current, k)
  {
    now := current;
    var todo := target.Keys;
    while todo != {}
      invariant todo <= target.Keys
      invariant forall k :: k in target && k !in todo && k !in managed ==> SameAttribute(now, target, k)
      invariant forall k :: k in managed || k !in target || k in todo ==> SameAttribute(now, current, k)
      decreases todo
    {
      var k := NextKey(todo);
      if k !in managed && !(k in current && current[k] == target[k]) {
        now := now[k := target[k]];
      }
      todo := todo - {k};
    }
  }

  /** Removes what was there and is not captured. */
  method DeleteOrphans(merged: Attributes, current: Attributes, target: Attributes, managed: set<string>)
    returns (now: Attributes)
    requires forall k :: k in target && k !in managed ==> SameAttribute(merged, target, k)
    requires forall k :: k in managed || k !in target ==> SameAttribute(merged, current, k)
    ensures forall k :: k in managed ==> SameAttribute(now, current, k)
    ensures forall k :: k !in managed ==> SameAttribute(now, target, k)
  {
    now := merged;
    var todo := current.Keys;
    while todo != {}
      invariant todo <= current.Keys
      invariant forall k :: k in managed ==> SameAttribute(now, current, k)
      invariant forall k :: k !in managed && (k in target || k !in todo) ==> SameAttribute(now, target, k)
      decreases todo
    {
      var k := NextKey(todo);
      if k !in target && k !in managed {
        now := now - {k};
      }
      todo := todo - {k};
    }
  }

  // ------------------------------------------------------------------
  // Mode and time
  // ------------------------------------------------------------------

  const PERMISSIONS := 0x1000
  const SET_ID := 0x400
  const NANOS := 1_000_000_000
  const I64_MIN := -0x8000_0000_0000_0000
  const I64_MAX := 0x7FFF_FFFF_FFFF_FFFF

  /** The file type of one mode with the permission bits of another. */
  function WithPermissions(mode: nat, target: nat): nat {
    mode / PERMISSIONS * PERMISSIONS + target % PERMISSIONS
  }

  /** Changing the owner clears the set-user and set-group bits. */
  function WithoutSetId(mode: nat): nat {
    mode / PERMISSIONS * PERMISSIONS + mode % SET_ID
  }

  lemma OwnerChangeKeepsType(mode: nat, target: nat)
    ensures WithPermissions(WithoutSetId(mode), target) == WithPermissions(mode, target)
  {
    var kind, low := mode / PERMISSIONS, mode % SET_ID;
    assert (kind * PERMISSIONS + low) / PERMISSIONS == kind;
  }

  /** Why the owner comes first: changed last, it would cost exactly the modes with a set-user or set-group
      bit. */
  lemma OwnerLastLoses(mode: nat, target: nat)
    ensures WithoutSetId(WithPermissions(mode, target)) == WithPermissions(mode, target) <==> target % 0x1000 < 0x400
  {
    var kind, low := mode / PERMISSIONS, target % PERMISSIONS;
    SplitMode(kind, low);
    RestOf(kind * PERMISSIONS + low, 4 * kind + low / SET_ID, low % SET_ID);
  }

  lemma SplitMode(kind: nat, low: nat)
    requires low < PERMISSIONS
    ensures (kind * PERMISSIONS + low) / PERMISSIONS == kind
  {
  }

  lemma RestOf(n: nat, q: nat, r: nat)
    requires n == SET_ID * q + r && r < SET_ID
    ensures n % SET_ID == r
  {
  }

  lemma PermissionsIff(mode: nat, target: nat)
    ensures WithPermissions(mode, target) == target <==> mode / PERMISSIONS == target / PERMISSIONS
  {
    assert target == target / PERMISSIONS * PERMISSIONS + target % PERMISSIONS;
  }

  /** The time set on a file: zero means not captured, and seconds saturate upwards at 64 bits. */
  function TimeSet(was: int, target: int): int {
    if target == 0 then was else Saturated(target / NANOS) * NANOS + target % NANOS
  }

  function Saturated(seconds: int): int {
    if I64_MIN <= seconds <= I64_MAX then seconds else I64_MAX
  }

  ghost predicate TimeFits(was: int, target: int) {
    if target == 0 then was == 0 else I64_MIN <= target / NANOS <= I64_MAX
  }

  lemma TimeSetIff(was: int, target: int)
    ensures TimeSet(was, target) == target <==> TimeFits(was, target)
  {
    assert target == target / NANOS * NANOS + target % NANOS;
  }

  /** A time too far off to be set becomes the last second there is, with its own fraction. */
  lemma FarTimeSaturates(was: int, target: int)
    requires target != 0 && !TimeFits(was, target)
    ensures 0 <= TimeSet(was, target) - 0x7FFF_FFFF_FFFF_FFFF * NANOS < NANOS
    ensures (TimeSet(was, target) - target) % NANOS == 0
  {
    assert target == target / NANOS * NANOS + target % NANOS;
    assert TimeSet(was, target) - target == (I64_MAX - target / NANOS) * NANOS;
  }

  // ------------------------------------------------------------------
  // The whole
  // ------------------------------------------------------------------

  /** The metadata a restore leaves; size and access list are never touched, and by way of the helper neither
      are attributes and flags. */
  function Restored(p: Platform, route: Route, target: FileMetadata, was: FileMetadata): FileMetadata {
    FileMetadata(
      WithPermissions(was.mode, target.mode), target.uid, target.gid, was.size,
      TimeSet(was.mtimeNanos, target.mtimeNanos),
      if route.Direct? then Converged(was.xattrs, target.xattrs, p.managed) else was.xattrs,
      was.acl,
      if route.Direct? && p.hasFlags then target.flags else was.flags)
  }

  /** Owner first, since that clears bits the mode sets again. */
  method RestoreMetadata(p: Platform, route: Route, target: FileMetadata, was: FileMetadata) returns (now: FileMetadata)
    ensures now == Restored(p, route, target, was)
  {
    now := was.(uid := target.uid, gid := target.gid, mode := WithoutSetId(was.mode));
    OwnerChangeKeepsType(was.mode, target.mode);
    now := now.(mode := WithPermissions(now.mode, target.mode));
    if route.Direct? {
      var attributes := ConvergeXattrs(now.xattrs, target.xattrs, p.managed);
      now := now.(xattrs := attributes);
      if p.hasFlags {
        now := now.(flags := target.flags);
      }
    }
    now := now.(mtimeNanos := TimeSet(now.mtimeNanos, target.mtimeNanos));
  }

  /** What a restore cannot change already agrees. */
  ghost predicate Restorable(p: Platform, route: Route, target: FileMetadata, was: FileMetadata) {
    && was.size == target.size && was.acl == target.acl
    && was.mode / PERMISSIONS == target.mode / PERMISSIONS
    && TimeFits(was.mtimeNanos, target.mtimeNanos)
    && (if route.Direct? then forall k :: k in p.managed ==> SameAttribute(was.xattrs, target.xattrs, k)
        else was.xattrs == target.xattrs)
    && ((route.Direct? && p.hasFlags) || was.flags == target.flags)
  }

  /** A restore reaches its target if and only if size, access list and file type already agree, the time
      can be set, and so do managed attributes (by way of the helper: attributes and flags). */
  lemma RestoredIff(p: Platform, route: Route, target: FileMetadata, was: FileMetadata)
    ensures Restored(p, route, target, was) == target <==> Restorable(p, route, target, was)
  {
    PermissionsIff(was.mode, target.mode);
    TimeSetIff(was.mtimeNanos, target.mtimeNanos);
    ConvergedIff(was.xattrs, target.xattrs, p.managed);
  }

  /** Neither a changed size nor, by way of the helper, a changed attribute comes back. */
  lemma NotRestored(p: Platform, m: FileMetadata, k: string, v: string)
    requires k !in m.xattrs
    ensures Restored(p, Direct, m.(size := m.size + 1), m) != m.(size := m.size + 1)
    ensures Restored(p, Helper, m.(xattrs := m.xattrs[k := v]), m) != m.(xattrs := m.xattrs[k := v])
  {
    var with := m.xattrs[k := v];
    assert k in with;
  }
}
