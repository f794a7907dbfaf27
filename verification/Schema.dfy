/** The recorded objects and the event stream of schema version 0.
  *
  * Object ids are modelled as the content they name: a commit carries its parent and its tree, an
  * operation carries its parent and its commit.  Two ids are equal exactly when their contents are,
  * and a new object is different from everything it is built on, so freshness is proved, not assumed.
  */
module Schema {
  datatype Option<+T> = None | Some(value: T)

  const SCHEMA_VERSION: nat := 0

  /** A path is its rank in the byte order of path strings (the order of the source's sorted maps). */
  type Path = nat

  type Byte = b: int | 0 <= b < 256

  /** A blob id. */
  type Blob = nat

  datatype TreeValue =
    | File(id: Blob, executable: bool)
    | Symlink(target: Blob)
    | Submodule(pin: Blob)

  type Tree = map<Path, TreeValue>

  datatype Commit = RootCommit | Commit(parent: Commit, tree: Tree)

  datatype Operation = RootOperation | Operation(parent: Operation, commit: Commit)

  datatype TouchOperation = Create | Modify | Remove | Rename | Other

  datatype ChangeKind = Added | Removed | Modified | ModeChanged

  datatype Change = Change(path: Path, kind: ChangeKind, blob: Option<Blob>, prevBlob: Option<Blob>)

  datatype ChangeStats = ChangeStats(added: nat, removed: nat, modified: nat, modeChanged: nat)

  datatype Snapshot = Snapshot(op: Operation, parentOp: Operation, commit: Commit, tree: Tree,
                               changes: seq<Change>, stats: ChangeStats, truncated: bool)

  datatype EventBody =
    | SessionStart(baselineOp: Operation, baselineTree: Tree)
    | SnapshotTaken(snapshot: Snapshot)
    | TouchedPaths(paths: map<Path, set<TouchOperation>>, touchedRaw: nat, windowStart: nat)
    | Mark(tag: string, refOp: Operation)
    | Flush(op: Operation, throughSeq: nat)
    | SessionEnd(finalOp: Operation, reason: string, snapshots: nat, events: nat)
    | Overflow(source: string, overflowRaw: nat)

  datatype Event = Event(v: nat, seqNo: nat, session: string, body: EventBody)

  /** Events are numbered 0, 1, 2, ... */
  predicate Contiguous(log: seq<Event>) {
    forall i :: 0 <= i < |log| ==> log[i].seqNo == i
  }

  /** The operation of the newest snapshot in the log, or of the baseline. */
  function LatestOp(log: seq<Event>): Operation {
    if log == [] then RootOperation
    else
      match log[|log| - 1].body
      case SessionStart(baselineOp, _) => baselineOp
      case SnapshotTaken(snapshot) => snapshot.op
      case _ => LatestOp(log[..|log| - 1])
  }

  lemma LatestOpAppend(log: seq<Event>, e: Event)
    ensures LatestOp(log + [e]) ==
            match e.body {
              case SessionStart(baselineOp, _) => baselineOp
              case SnapshotTaken(snapshot) => snapshot.op
              case _ => LatestOp(log)
            }
  {
    assert (log + [e])[..|log|] == log;
  }

  /** The operations of the snapshot events of the log, in order. */
  function SnapshotOps(log: seq<Event>): seq<Operation> {
    if log == [] then []
    else
      var rest := SnapshotOps(log[..|log| - 1]);
      match log[|log| - 1].body
      case SnapshotTaken(snapshot) => rest + [snapshot.op]
      case _ => rest
  }

  lemma SnapshotOpsAppend(log: seq<Event>, e: Event)
    ensures SnapshotOps(log + [e]) ==
            SnapshotOps(log) + if e.body.SnapshotTaken? then [e.body.snapshot.op] else []
  {
    assert (log + [e])[..|log|] == log;
  }

  /** Length of the parent chain of an operation. */
  function Depth(op: Operation): nat {
    match op
    case RootOperation => 0
    case Operation(parent, _) => 1 + Depth(parent)
  }

  /** Reflexive ancestry of commits. */
  predicate IsAncestor(a: Commit, b: Commit) {
    a == b || (b.Commit? && IsAncestor(a, b.parent))
  }

  lemma {:induction false} AncestorTransitive(a: Commit, b: Commit, c: Commit)
    requires IsAncestor(a, b) && IsAncestor(b, c)
    ensures IsAncestor(a, c)
  {
    if b != c {
      AncestorTransitive(a, b, c.parent);
    }
  }

  function CommitDepth(c: Commit): nat {
    match c
    case RootCommit => 0
    case Commit(parent, _) => 1 + CommitDepth(parent)
  }

  lemma {:induction false} AncestorDepth(a: Commit, b: Commit)
    requires IsAncestor(a, b)
    ensures CommitDepth(a) <= CommitDepth(b)
    ensures CommitDepth(a) == CommitDepth(b) ==> a == b
  {
    if a != b {
      AncestorDepth(a, b.parent);
    }
  }

  lemma AncestorAntisymmetric(a: Commit, b: Commit)
    requires IsAncestor(a, b) && IsAncestor(b, a)
    ensures a == b
  {
    AncestorDepth(a, b);
    AncestorDepth(b, a);
  }
}
