/** The plan's data: paths, inodes, inverse operations, conflicts and outcomes
    (crates/shit-planner/src/inverse.rs, inode.rs, metadata.rs, executor.rs). */
module Plan {

  datatype Option<+T> = None | Some(value: T)

  type Path = string

  type Environment = map<string, string>

  /** No element twice. */
  ghost predicate Distinct<T>(s: seq<T>) {
    forall i, j :: 0 <= i < j < |s| ==> s[i] != s[j]
  }

  datatype InodeRef = InodeRef(dev: nat, inode: nat)

  datatype FileKind = Regular | Directory | Symlink | Fifo | Socket | BlockDevice | CharDevice

  datatype FileMetadata = FileMetadata(
    mode: nat, uid: nat, gid: nat, size: nat, mtimeNanos: int,
    xattrs: map<string, string>, acl: Option<string>, flags: nat)

  /** The file kind held in the `S_IFMT` bits of a mode. */
  function KindFromMode(mode: nat): Option<FileKind> {
    match mode / 0x1000 % 16
    case 8 => Some(Regular)
    case 4 => Some(Directory)
    case 10 => Some(Symlink)
    case 1 => Some(Fifo)
    case 12 => Some(Socket)
    case 6 => Some(BlockDevice)
    case 2 => Some(CharDevice)
    case _ => None
  }

  datatype Tier =
    | Files | Env | Packages | Network | Services | Processes | Descriptor
    | Cloud | Container | ShellState | Database | RefuseTier

  /** File-tier and environment operations keep their fields; the remaining tiers,
      none of which touches a path, an inode or a probe, share `OtherTier`. */
  datatype InverseOp =
    | RestoreContent(inode: InodeRef, path: Path, blob: string)
    | RestoreMetadata(inode: InodeRef, path: Path, target: FileMetadata)
    | Unlink(path: Path)
    | RecreatePath(path: Path, kind: FileKind, mode: nat)
    | Rename(from: Path, to: Path)
    | CreateSymlink(linkTarget: string, path: Path)
    | CreateHardlink(source: Path, linkPath: Path)
    | FileExtend(path: Path, truncateTo: nat)
    | RestoreFlags(inode: InodeRef, path: Path, flags: nat)
    | SetEnv(name: string, value: string)
    | UnsetEnv(name: string)
    | Refuse(class_: string, reason: string, remediation: Option<string>)
    | OtherTier(tier: Tier, payload: seq<string>)

  datatype Conflict =
    | Soft(detail: string)
    | Hard(detail: string)
    | Missing(detail: string)
    | Phantom(detail: string)

  datatype PlanNode = PlanNode(op: InverseOp, cohort: nat, conflict: Option<Conflict>)

  /** The path the `--paths` filter looks at, if the operation has one. */
  function PrimaryPath(op: InverseOp): Option<Path> {
    match op
    case RestoreContent(_, path, _) => Some(path)
    case RestoreMetadata(_, path, _) => Some(path)
    case RestoreFlags(_, path, _) => Some(path)
    case Unlink(path) => Some(path)
    case RecreatePath(path, _, _) => Some(path)
    case CreateSymlink(_, path) => Some(path)
    case FileExtend(path, _) => Some(path)
    case CreateHardlink(_, linkPath) => Some(linkPath)
    case Rename(_, to) => Some(to)
    case SetEnv(_, _) => None
    case UnsetEnv(_) => None
    case Refuse(_, _, _) => None
    case OtherTier(_, _) => None
  }

  function PrimaryInode(op: InverseOp): Option<InodeRef> {
    match op
    case RestoreContent(inode, _, _) => Some(inode)
    case RestoreMetadata(inode, _, _) => Some(inode)
    case RestoreFlags(inode, _, _) => Some(inode)
    case _ => None
  }

  function TierOf(op: InverseOp): Tier {
    match op
    case SetEnv(_, _) => Env
    case UnsetEnv(_) => Env
    case Refuse(_, _, _) => RefuseTier
    case OtherTier(tier, _) => tier
    case _ => Files
  }

  datatype ExecutionOutcome =
    | Applied
    | WouldApply
    | Skipped(reason: string)
    | Conflicted(kind: Conflict)
    | Failed(err: string)

  datatype OutcomeKind =
    | KindApplied | KindWouldApply | KindSkipped
    | KindSoft | KindHard | KindMissing | KindPhantom | KindFailed

  function KindOf(o: ExecutionOutcome): OutcomeKind {
    match o
    case Applied => KindApplied
    case WouldApply => KindWouldApply
    case Skipped(_) => KindSkipped
    case Conflicted(Soft(_)) => KindSoft
    case Conflicted(Hard(_)) => KindHard
    case Conflicted(Missing(_)) => KindMissing
    case Conflicted(Phantom(_)) => KindPhantom
    case Failed(_) => KindFailed
  }

  datatype ExecutionRecord = ExecutionRecord(
    opIndex: nat, op: InverseOp, tier: Tier, outcomeKind: OutcomeKind, detail: Option<string>)

  datatype ConflictPolicy = Abort | Skip | Force
}
