/** The recorder: capturing the watched tree and projecting the difference of two trees
  * (`JjRecorder` and `project_diff`), and replaying the projected changes.
  */
module Recorder {
  import opened Schema

  // ---------------------------------------------------------------- sorted enumeration

  ghost predicate Ascending(s: seq<nat>) {
    forall i, j :: 0 <= i < j < |s| ==> s[i] < s[j]
  }

  ghost predicate IsSmallest(m: nat, s: set<nat>) {
    m in s && forall x :: x in s ==> m <= x
  }

  lemma {:induction false} SmallestExists(s: set<nat>)
    requires s != {}
    ensures exists m :: IsSmallest(m, s)
  {
    var m :| m in s;
    var rest := s - {m};
    if rest == {} {
      assert s == {m};
      assert IsSmallest(m, s);
    } else {
      SmallestExists(rest);
      var k :| IsSmallest(k, rest);
      assert forall x :: x in s ==> x == m || x in rest;
      assert IsSmallest(if m < k then m else k, s);
    }
  }

  function Smallest(s: set<nat>): (m: nat)
    requires s != {}
    ensures m in s
    ensures forall x :: x in s ==> m <= x
  {
    SmallestExists(s);
    assert exists m :: m in s && forall x :: x in s ==> m <= x by {
      var m :| IsSmallest(m, s);
    }
    var m :| m in s && forall x :: x in s ==> m <= x;
    m
  }

  /** The elements of a set of paths in byte order. */
  function Sorted(s: set<nat>): (r: seq<nat>)
    ensures forall x :: x in r <==> x in s
  {
    if s == {} then [] else [Smallest(s)] + Sorted(s - {Smallest(s)})
  }

  lemma ConsAscending(m: nat, rest: seq<nat>)
    requires Ascending(rest)
    requires forall x :: x in rest ==> m < x
    ensures Ascending([m] + rest)
  {
    var r := [m] + rest;
    forall i, j | 0 <= i < j < |r| ensures r[i] < r[j] {
      assert r[j] == rest[j - 1] && rest[j - 1] in rest;
      if i > 0 {
        assert r[i] == rest[i - 1];
      }
    }
  }

  lemma {:induction false} SortedAscending(s: set<nat>)
    ensures Ascending(Sorted(s))
    ensures |Sorted(s)| == |s|
  {
    if s != {} {
      var m := Smallest(s);
      var tail := s - {m};
      SortedAscending(tail);
      SmallestFirst(s, m, Sorted(tail));
      assert Sorted(s) == [m] + Sorted(tail);
    }
  }

  lemma SmallestFirst(s: set<nat>, m: nat, rest: seq<nat>)
    requires m in s && (forall x :: x in s ==> m <= x)
    requires Ascending(rest) && (forall x :: x in rest <==> x in s - {m})
    ensures Ascending([m] + rest)
  {
    hide Ascending;
    forall x | x in rest ensures m < x {
      assert x in s - {m};
    }
    ConsAscending(m, rest);
  }

  // ---------------------------------------------------------------- tree difference

  function ValueAt(t: Tree, p: Path): Option<TreeValue> {
    if p in t then Some(t[p]) else None
  }

  /** Every path at which the two trees differ; the tree diff yields each of them once. */
  function Differing(before: Tree, after: Tree): (r: set<Path>)
    ensures forall p :: p in r <==> ValueAt(before, p) != ValueAt(after, p)
  {
    set p | p in before.Keys + after.Keys && ValueAt(before, p) != ValueAt(after, p)
  }

  function Classify(before: Option<TreeValue>, after: Option<TreeValue>): ChangeKind {
    match (before, after)
    case (None, Some(_)) => Added
    case (Some(_), None) => Removed
    case (Some(File(b, x)), Some(File(a, y))) => if b == a && x != y then ModeChanged else Modified
    case _ => Modified
  }

  function BlobId(v: Option<TreeValue>): Option<Blob> {
    match v
    case Some(File(id, _)) => Some(id)
    case Some(Symlink(id)) => Some(id)
    case _ => None
  }

  function ChangeAt(before: Tree, after: Tree, p: Path): Change {
    var b, a := ValueAt(before, p), ValueAt(after, p);
    Change(p, Classify(b, a), BlobId(a), BlobId(b))
  }

  function Record(stats: ChangeStats, kind: ChangeKind): ChangeStats {
    match kind
    case Added => stats.(added := stats.added + 1)
    case Removed => stats.(removed := stats.removed + 1)
    case Modified => stats.(modified := stats.modified + 1)
    case ModeChanged => stats.(modeChanged := stats.modeChanged + 1)
  }

  function Stats(before: Tree, after: Tree, paths: seq<Path>): ChangeStats {
    if paths == [] then ChangeStats(0, 0, 0, 0)
    else
      var n := |paths| - 1;
      Record(Stats(before, after, paths[..n]), ChangeAt(before, after, paths[n]).kind)
  }

  function Changes(before: Tree, after: Tree, paths: seq<Path>): (r: seq<Change>)
    ensures |r| == |paths|
    ensures forall i :: 0 <= i < |r| ==> r[i] == ChangeAt(before, after, paths[i])
  {
    seq(|paths|, i requires 0 <= i < |paths| => ChangeAt(before, after, paths[i]))
  }

  function Min(a: nat, b: nat): nat { if a < b then a else b }

  datatype Projection = Projection(changes: seq<Change>, stats: ChangeStats, truncated: bool)

  /** What `project_diff` computes: the first `max` changes, the statistics of all of them, and
    * whether any was cut off. */
  function Project(before: Tree, after: Tree, max: nat): Projection {
    var paths := Sorted(Differing(before, after));
    Projection(Changes(before, after, paths[..Min(max, |paths|)]), Stats(before, after, paths),
               |paths| > max)
  }

  lemma StatsOfNone(before: Tree, after: Tree)
    ensures Stats(before, after, []) == ChangeStats(0, 0, 0, 0)
  {
  }

  lemma StatsAppend(before: Tree, after: Tree, paths: seq<Path>, p: Path)
    ensures Stats(before, after, paths + [p])
            == Record(Stats(before, after, paths), ChangeAt(before, after, p).kind)
  {
    assert (paths + [p])[..|paths|] == paths;
  }

  /** The source's loop over the diff stream. */
  method ProjectDiff(before: Tree, after: Tree, max: nat)
    returns (changes: seq<Change>, stats: ChangeStats, truncated: bool)
    ensures Projection(changes, stats, truncated) == Project(before, after, max)
    ensures Projects(before, after, max, changes, truncated)
  {
    ProjectedExactly(before, after, max);
    hide Projects, Classify, BlobId, Sorted, Stats;
    var stream := Sorted(Differing(before, after));
    StatsOfNone(before, after);
    changes, stats := [], ChangeStats(0, 0, 0, 0);
    var total := 0;
    while total < |stream|
      invariant 0 <= total <= |stream|
      invariant stats == Stats(before, after, stream[..total])
      invariant |changes| == Min(max, total)
      invariant forall i :: 0 <= i < |changes| ==> changes[i] == ChangeAt(before, after, stream[i])
    {
      var path := stream[total];
      StatsAppend(before, after, stream[..total], path);
      assert stream[..total + 1] == stream[..total] + [path];
      var kind := Classify(ValueAt(before, path), ValueAt(after, path));
      stats := Record(stats, kind);
      if |changes| < max {
        changes := changes +
        [Change(path, kind, BlobId(ValueAt(after, path)), BlobId(ValueAt(before, path)))];
      }
      total := total + 1;
    }
    assert stream[..total] == stream;
    assert changes == Changes(before, after, stream[..Min(max, total)]);
    truncated := total > max;
  }

  // ---------------------------------------------------------------- what a projection says

  /** The blob id of what `t` holds at `p`: files and links have one. */
  ghost predicate HasBlob(t: Tree, p: Path, blob: Option<Blob>) {
    match blob
    case Some(id) => p in t && (t[p] == File(id, true) || t[p] == File(id, false) || t[p] == Symlink(id))
    case None => p in t ==> t[p].Submodule?
  }

  /** The two trees hold the same file content at `p`, executable in one and not in the other. */
  ghost predicate OnlyModeDiffers(before: Tree, after: Tree, p: Path) {
    && p in before && p in after && before[p].File? && after[p].File?
    && before[p].id == after[p].id && before[p].executable != after[p].executable
  }

  /** The change says what happened at its path, over the two trees. */
  ghost predicate Tells(c: Change, before: Tree, after: Tree) {
    && (c.kind == Added <==> c.path !in before && c.path in after)
    && (c.kind == Removed <==> c.path in before && c.path !in after)
    && (c.kind == ModeChanged <==> OnlyModeDiffers(before, after, c.path))
    && (c.kind == Modified <==> c.path in before && c.path in after && before[c.path] != after[c.path]
                                && !OnlyModeDiffers(before, after, c.path))
    && HasBlob(after, c.path, c.blob) && HasBlob(before, c.path, c.prevBlob)
  }

  ghost predicate ListedIn(changes: seq<Change>, p: Path) {
    exists i :: 0 <= i < |changes| && changes[i].path == p
  }

  /** The changes tell what happened at the smallest differing paths, in path order, as many as the limit
    * allows; and the flag is set exactly when there are more, that is when some path is not listed. */
  ghost predicate Projects(before: Tree, after: Tree, max: nat, changes: seq<Change>, truncated: bool) {
    var paths := Differing(before, after);
    && |changes| == (if |paths| <= max then |paths| else max)
    && (truncated <==> |paths| > max)
    && (truncated <==> exists p :: p in paths && !ListedIn(changes, p))
    && (forall i :: 0 <= i < |changes| ==> changes[i].path in paths && Tells(changes[i], before, after))
    && (forall i, j :: 0 <= i < j < |changes| ==> changes[i].path < changes[j].path)
    && (forall p, i :: p in paths && !ListedIn(changes, p) && 0 <= i < |changes| ==> changes[i].path < p)
  }

  lemma ChangeTells(before: Tree, after: Tree, p: Path)
    requires p in Differing(before, after)
    ensures Tells(ChangeAt(before, after, p), before, after)
  {
  }

  lemma ProjectedExactly(before: Tree, after: Tree, max: nat)
    ensures var p := Project(before, after, max);
            Projects(before, after, max, p.changes, p.truncated)
  {
    hide Differing, Sorted, Stats, Tells, ChangeAt, ListedIn;
    var all := Differing(before, after);
    var paths := Sorted(all);
    SortedAscending(all);
    var n := Min(max, |paths|);
    var changes := Changes(before, after, paths[..n]);
    forall i | 0 <= i < n ensures changes[i].path == paths[i] && Tells(changes[i], before, after) {
      assert paths[i] in paths;
      PathOfChange(before, after, paths[i]);
      ChangeTells(before, after, paths[i]);
    }
    ListsSmallest(changes, paths, all, n);
  }

  /** Listing the first paths of an ascending enumeration. */
  lemma ListsSmallest(changes: seq<Change>, paths: seq<Path>, all: set<Path>, n: nat)
    requires |changes| == n <= |paths| && Ascending(paths) && forall p :: p in paths <==> p in all
    requires forall i :: 0 <= i < n ==> changes[i].path == paths[i]
    ensures n < |paths| <==> exists p :: p in all && !ListedIn(changes, p)
    ensures forall i :: 0 <= i < n ==> changes[i].path in all
    ensures forall i, j :: 0 <= i < j < n ==> changes[i].path < changes[j].path
    ensures forall p, i :: p in all && !ListedIn(changes, p) && 0 <= i < n ==> changes[i].path < p
  {
    forall p | p in all ensures ListedIn(changes, p) || (n < |paths| && forall i :: 0 <= i < n ==> changes[i].path < p) {
      var j :| 0 <= j < |paths| && paths[j] == p;
      if j < n {
        assert changes[j].path == p;
      }
    }
    if n < |paths| {
      NotListed(changes, paths, n);
    }
  }

  lemma PathOfChange(before: Tree, after: Tree, p: Path)
    ensures ChangeAt(before, after, p).path == p
  {
  }

  lemma NotListed(changes: seq<Change>, paths: seq<Path>, n: nat)
    requires |changes| == n < |paths| && Ascending(paths)
    requires forall i :: 0 <= i < n ==> changes[i].path == paths[i]
    ensures paths[n] in paths && !ListedIn(changes, paths[n])
  {
  }

  // ---------------------------------------------------------------- statistics are complete

  function KindCount(stats: ChangeStats, kind: ChangeKind): nat {
    match kind
    case Added => stats.added
    case Removed => stats.removed
    case Modified => stats.modified
    case ModeChanged => stats.modeChanged
  }

  ghost function PathsOfKind(before: Tree, after: Tree, paths: seq<Path>, kind: ChangeKind): set<Path> {
    set p | p in paths && ChangeAt(before, after, p).kind == kind
  }

  lemma PathsOfKindAppend(before: Tree, after: Tree, paths: seq<Path>, p: Path, kind: ChangeKind)
    requires p !in paths
    ensures |PathsOfKind(before, after, paths + [p], kind)|
            == |PathsOfKind(before, after, paths, kind)| + if ChangeAt(before, after, p).kind == kind then 1 else 0
  {
    var was, now := PathsOfKind(before, after, paths, kind), PathsOfKind(before, after, paths + [p], kind);
    if ChangeAt(before, after, p).kind == kind {
      assert now == was + {p};
    } else {
      assert now == was;
    }
  }

  lemma {:induction false} StatsCount(before: Tree, after: Tree, paths: seq<Path>, kind: ChangeKind)
    requires Ascending(paths)
    ensures KindCount(Stats(before, after, paths), kind) == |PathsOfKind(before, after, paths, kind)|
  {
    if paths == [] {
      assert PathsOfKind(before, after, paths, kind) == {};
    } else {
      var n := |paths| - 1;
      var init, last := paths[..n], paths[n];
      StatsCount(before, after, init, kind);
      assert paths == init + [last];
      PathsOfKindAppend(before, after, init, last, kind);
      var stats := Stats(before, after, init);
      assert Stats(before, after, paths) == Record(stats, ChangeAt(before, after, last).kind);
    }
  }

  /** Paths whose file content stays and whose executable bit changes. */
  ghost function ModeChanges(before: Tree, after: Tree): set<Path> {
    set p | p in before && p in after && before[p].File? && after[p].File?
            && before[p].id == after[p].id && before[p].executable != after[p].executable
  }

  lemma KindsByTree(before: Tree, after: Tree)
    ensures var paths := Sorted(Differing(before, after));
            && PathsOfKind(before, after, paths, Added) == after.Keys - before.Keys
            && PathsOfKind(before, after, paths, Removed) == before.Keys - after.Keys
            && PathsOfKind(before, after, paths, ModeChanged) == ModeChanges(before, after)
  {
    var paths := Sorted(Differing(before, after));
    forall p
      ensures p in PathsOfKind(before, after, paths, Added) <==> p in after.Keys - before.Keys
      ensures p in PathsOfKind(before, after, paths, Removed) <==> p in before.Keys - after.Keys
      ensures p in PathsOfKind(before, after, paths, ModeChanged) <==> p in ModeChanges(before, after)
    {
      assert p in paths <==> ValueAt(before, p) != ValueAt(after, p);
    }
  }

  lemma PartsByKind(before: Tree, after: Tree)
    ensures var paths := Sorted(Differing(before, after));
            && Differing(before, after)
               == PathsOfKind(before, after, paths, Added) + PathsOfKind(before, after, paths, Removed)
                  + PathsOfKind(before, after, paths, Modified) + PathsOfKind(before, after, paths, ModeChanged)
            && PathsOfKind(before, after, paths, Added) !! PathsOfKind(before, after, paths, Removed)
               !! PathsOfKind(before, after, paths, Modified) !! PathsOfKind(before, after, paths, ModeChanged)
  {
  }

  lemma FourParts(d: set<Path>, a: set<Path>, b: set<Path>, c: set<Path>, e: set<Path>)
    requires d == a + b + c + e && a !! b !! c !! e
    ensures |d| == |a| + |b| + |c| + |e|
  {
  }

  lemma ProjectedCount(before: Tree, after: Tree, max: nat, kind: ChangeKind)
    ensures KindCount(Project(before, after, max).stats, kind)
            == |PathsOfKind(before, after, Sorted(Differing(before, after)), kind)|
  {
    SortedAscending(Differing(before, after));
    StatsCount(before, after, Sorted(Differing(before, after)), kind);
  }

  /** The statistics cover the complete difference whatever the limit on listed changes: each count is
    * the number of paths of that kind, stated directly over the two trees. */
  lemma StatsAreComplete(before: Tree, after: Tree, max: nat)
    ensures var stats := Project(before, after, max).stats;
            && stats.added == |after.Keys - before.Keys|
            && stats.removed == |before.Keys - after.Keys|
            && stats.modeChanged == |ModeChanges(before, after)|
            && stats.added + stats.removed + stats.modified + stats.modeChanged == |Differing(before, after)|
  {
    ProjectedCount(before, after, max, Added);
    ProjectedCount(before, after, max, Removed);
    ProjectedCount(before, after, max, Modified);
    ProjectedCount(before, after, max, ModeChanged);
    PartsByKind(before, after);
    KindsByTree(before, after);
    hide Project, Sorted, Differing, PathsOfKind, ModeChanges;
    var paths := Sorted(Differing(before, after));
    FourParts(Differing(before, after),
              PathsOfKind(before, after, paths, Added), PathsOfKind(before, after, paths, Removed),
              PathsOfKind(before, after, paths, Modified), PathsOfKind(before, after, paths, ModeChanged));
  }

  // ---------------------------------------------------------------- replay

  /** The blob recorded at each path that has one. */
  function BlobMap(t: Tree): map<Path, Blob> {
    map p | p in t && BlobId(Some(t[p])).Some? :: BlobId(Some(t[p])).value
  }

  function ApplyOne(m: map<Path, Blob>, c: Change): map<Path, Blob> {
    match c.blob
    case Some(b) => m[c.path := b]
    case None => m - {c.path}
  }

  /** Folds listed changes over a path-to-blob map. */
  function Replay(m: map<Path, Blob>, changes: seq<Change>): map<Path, Blob> {
    if changes == [] then m
    else ApplyOne(Replay(m, changes[..|changes| - 1]), changes[|changes| - 1])
  }

  function BlobAt(m: map<Path, Blob>, p: Path): Option<Blob> {
    if p in m then Some(m[p]) else None
  }

  lemma ApplyOneAt(m: map<Path, Blob>, c: Change, p: Path)
    ensures BlobAt(ApplyOne(m, c), p) == if p == c.path then c.blob else BlobAt(m, p)
  {
  }

  lemma {:induction false} ReplayAt(before: Tree, after: Tree, m: map<Path, Blob>, paths: seq<Path>, p: Path)
    ensures BlobAt(Replay(m, Changes(before, after, paths)), p) ==
            if p in paths then BlobId(ValueAt(after, p)) else BlobAt(m, p)
  {
    if paths != [] {
      var n := |paths| - 1;
      var init, last := paths[..n], paths[n];
      ReplayAt(before, after, m, init, p);
      var changes := Changes(before, after, paths);
      assert changes[..n] == Changes(before, after, init);
      assert changes[n] == ChangeAt(before, after, last);
      ApplyOneAt(Replay(m, changes[..n]), changes[n], p);
      assert paths == init + [last];
    }
  }

  lemma MapsEqualPointwise(a: map<Path, Blob>, b: map<Path, Blob>)
    requires forall p :: BlobAt(a, p) == BlobAt(b, p)
    ensures a == b
  {
    forall p ensures p in a <==> p in b {
      assert BlobAt(a, p) == BlobAt(b, p);
    }
    forall p | p in a ensures a[p] == b[p] {
      assert BlobAt(a, p) == BlobAt(b, p);
    }
  }

  /** The paths whose changes the limit cut off. */
  ghost function CutOff(before: Tree, after: Tree, max: nat): seq<Path> {
    var paths := Sorted(Differing(before, after));
    paths[Min(max, |paths|)..]
  }

  lemma ReplayedAt(before: Tree, after: Tree, max: nat, p: Path)
    ensures var paths := Sorted(Differing(before, after));
            BlobAt(Replay(BlobMap(before), Project(before, after, max).changes), p)
            == if p in paths[..Min(max, |paths|)] then BlobId(ValueAt(after, p)) else BlobId(ValueAt(before, p))
  {
    var paths := Sorted(Differing(before, after));
    SortedAscending(Differing(before, after));
    ReplayAt(before, after, BlobMap(before), paths[..Min(max, |paths|)], p);
  }

  lemma SplitMembership(s: seq<nat>, n: nat, p: nat)
    requires n <= |s| && Ascending(s)
    ensures p in s <==> p in s[..n] || p in s[n..]
    ensures !(p in s[..n] && p in s[n..])
  {
    assert s == s[..n] + s[n..];
  }

  /** Replaying a projected difference over the blobs of the old tree gives the blobs of the new one
    * if and only if no cut-off path changes its blob (cut-off mode changes do no harm). */
  lemma ReplayExact(before: Tree, after: Tree, max: nat)
    ensures Replay(BlobMap(before), Project(before, after, max).changes) == BlobMap(after)
            <==> forall p :: p in CutOff(before, after, max)
                             ==> BlobId(ValueAt(before, p)) == BlobId(ValueAt(after, p))
  {
    var paths := Sorted(Differing(before, after));
    SortedAscending(Differing(before, after));
    var n := Min(max, |paths|);
    var replayed := Replay(BlobMap(before), Project(before, after, max).changes);
    forall p
      ensures BlobAt(replayed, p) == BlobAt(BlobMap(after), p)
              <==> (p in CutOff(before, after, max) ==> BlobId(ValueAt(before, p)) == BlobId(ValueAt(after, p)))
    {
      ReplayedAt(before, after, max, p);
      SplitMembership(paths, n, p);
    }
    if forall p :: p in CutOff(before, after, max) ==> BlobId(ValueAt(before, p)) == BlobId(ValueAt(after, p)) {
      MapsEqualPointwise(replayed, BlobMap(after));
    }
  }

  // ---------------------------------------------------------------- capture

  /** The recorder's own state: its newest operation and commit and the tree they record. */
  datatype RecorderState = RecorderState(op: Operation, commit: Option<Commit>, tree: Tree)

  const FRESH_RECORDER := RecorderState(RootOperation, None, map[])

  /** The snapshot a capture produces when the watched tree is `tree`. */
  function SnapshotOf(r: RecorderState, tree: Tree, maxChanges: nat): Snapshot {
    var p := Project(r.tree, tree, maxChanges);
    var parent := match r.commit case Some(c) => c case None => RootCommit;
    var commit := Commit(parent, tree);
    Snapshot(Operation(r.op, commit), r.op, commit, tree, p.changes, p.stats, p.truncated)
  }

  /** A capture moves operation, commit and tree together. */
  function Captured(r: RecorderState, tree: Tree, maxChanges: nat): RecorderState {
    var snap := SnapshotOf(r, tree, maxChanges);
    RecorderState(snap.op, Some(snap.commit), tree)
  }

  /** Operation, commit and tree of a recorder that has captured at least once agree. */
  predicate Consistent(r: RecorderState) {
    && r.op.Operation?
    && r.commit == Some(r.op.commit)
    && r.op.commit.Commit?
    && r.tree == r.op.commit.tree
  }
}
