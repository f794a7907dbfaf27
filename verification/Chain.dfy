/** The operation chain: what the accepted events, the held event, the recorder and the flush requests
  * have to do with each other in every reachable state.
  */
module Chain {
  import opened Schema
  import opened Audit
  import opened Recorder
  import opened Coordination
  import opened Moves

  lemma PrefixOfAppend<T>(s: seq<T>, x: T, k: nat)
    requires k <= |s|
    ensures (s + [x])[..k] == s[..k]
  {
  }

  /** `snap` records the change of the watched tree since operation `prev`, and nothing else. */
  ghost predicate Linked(prev: Operation, snap: Snapshot, maxChanges: nat) {
    && prev.Operation? && prev.commit.Commit?
    && snap.parentOp == prev
    && snap.commit == Commit(prev.commit, snap.tree)
    && snap.op == Operation(prev, snap.commit)
    && Projection(snap.changes, snap.stats, snap.truncated) == Project(prev.commit.tree, snap.tree, maxChanges)
  }

  /** Every snapshot event is linked to the snapshot event (or the baseline) before it. */
  ghost predicate Chained(log: seq<Event>, maxChanges: nat) {
    forall i :: 0 <= i < |log| && log[i].body.SnapshotTaken?
                ==> Linked(LatestOp(log[..i]), log[i].body.snapshot, maxChanges)
  }

  lemma ChainedAppend(log: seq<Event>, e: Event, maxChanges: nat)
    requires Chained(log, maxChanges)
    requires e.body.SnapshotTaken? ==> Linked(LatestOp(log), e.body.snapshot, maxChanges)
    ensures Chained(log + [e], maxChanges)
  {
    hide Linked, LatestOp;
    var l := log + [e];
    forall i | 0 <= i < |l| && l[i].body.SnapshotTaken?
      ensures Linked(LatestOp(l[..i]), l[i].body.snapshot, maxChanges)
    {
      PrefixOfAppend(log, e, i);
      assert log[..|log|] == log;
    }
  }

  /** The log begins with the only session start, with the baseline the recorder captured. */
  ghost predicate Begins(log: seq<Event>) {
    && log != []
    && log[0].body.SessionStart?
    && log[0].body.baselineOp.Operation? && log[0].body.baselineOp.commit.Commit?
    && log[0].body.baselineOp.commit.tree == log[0].body.baselineTree
    && (forall i :: 1 <= i < |log| ==> !log[i].body.SessionStart?)
  }

  ghost predicate OneSession(log: seq<Event>, session: string) {
    forall i :: 0 <= i < |log| ==> log[i].v == SCHEMA_VERSION && log[i].session == session
  }

  /** Every snapshot commit in the log is `c` or an ancestor of it. */
  ghost predicate CommitsBelow(log: seq<Event>, c: Commit) {
    forall i :: 0 <= i < |log| && log[i].body.SnapshotTaken? ==> IsAncestor(log[i].body.snapshot.commit, c)
  }

  /** The events accepted in a trace. */
  function LogOf(trace: seq<Step>): seq<Event> {
    if trace == [] then []
    else
      match trace[|trace| - 1]
      case Accepted(e, _) => LogOf(trace[..|trace| - 1]) + [e]
      case _ => LogOf(trace[..|trace| - 1])
  }

  lemma LogOfAppend(trace: seq<Step>, x: Step)
    ensures LogOf(trace + [x]) == LogOf(trace) + if x.Accepted? then [x.event] else []
  {
    PrefixOfAppend(trace, x, |trace|);
    assert trace[..|trace|] == trace;
  }

  lemma LogStep(trace: seq<Step>, n: nat)
    requires n < |trace|
    ensures LogOf(trace[..n + 1]) == LogOf(trace[..n]) + if trace[n].Accepted? then [trace[n].event] else []
  {
    assert trace[..n + 1] == trace[..n] + [trace[n]];
    LogOfAppend(trace[..n], trace[n]);
  }

  lemma {:induction false} LogGrows(trace: seq<Step>, n: nat)
    requires n <= |trace|
    ensures LogOf(trace[..n]) <= LogOf(trace)
    decreases |trace| - n
  {
    if n == |trace| {
      assert trace[..n] == trace;
    } else {
      hide LogOf;
      LogStep(trace, n);
      LogGrows(trace, n + 1);
    }
  }

  /** The operations captured in a trace. */
  function RecordedOps(trace: seq<Step>): seq<Operation> {
    if trace == [] then []
    else
      match trace[|trace| - 1]
      case Recorded(op, _, _) => RecordedOps(trace[..|trace| - 1]) + [op]
      case _ => RecordedOps(trace[..|trace| - 1])
  }

  lemma RecordedOpsAppend(trace: seq<Step>, x: Step)
    ensures RecordedOps(trace + [x]) == RecordedOps(trace) + if x.Recorded? then [x.op] else []
  {
    PrefixOfAppend(trace, x, |trace|);
    assert trace[..|trace|] == trace;
  }

  /** A flush request targets the flush event that ends the log, and its checkpoint covers the log. */
  ghost predicate RequestCovers(log: seq<Event>, request: FlushRequest) {
    && log != [] && log[|log| - 1].body.Flush?
    && request.lastSeq == |log| - 1
    && request.lastOp == log[|log| - 1].body.op
    && request.checkpoint.Some? && CommitsBelow(log, request.checkpoint.value)
  }

  ghost predicate RequestsCover(trace: seq<Step>) {
    forall k :: 0 <= k < |trace| && trace[k].Requested? ==> RequestCovers(LogOf(trace[..k]), trace[k].request)
  }

  lemma RequestsCoverAppend(trace: seq<Step>, x: Step)
    requires RequestsCover(trace)
    requires x.Requested? ==> RequestCovers(LogOf(trace), x.request)
    ensures RequestsCover(trace + [x])
  {
    hide RequestCovers, LogOf;
    var t := trace + [x];
    forall k | 0 <= k < |t| && t[k].Requested? ensures RequestCovers(LogOf(t[..k]), t[k].request) {
      PrefixOfAppend(trace, x, k);
      assert trace[..|trace|] == trace;
    }
  }

  // ---------------------------------------------------------------- the invariant

  ghost predicate LogInv(s: Sys) {
    && s.c.seqNo == |s.log|
    && Contiguous(s.log)
    && Begins(s.log)
    && OneSession(s.log, s.c.session)
    && Chained(s.log, s.c.maxChanges)
    && s.c.snapshots == |SnapshotOps(s.log)|
  }

  /** The recorder is at the newest logged operation, or one capture ahead of it with that capture held. */
  ghost predicate HeldInv(s: Sys) {
    && Consistent(s.rec)
    && (s.c.held.None? ==> s.rec.op == LatestOp(s.log))
    && (s.c.held.Some? ==>
          var e := s.c.held.value;
          && e.body.SnapshotTaken? && e.seqNo <= s.c.seqNo
          && e.v == SCHEMA_VERSION && e.session == s.c.session
          && Linked(LatestOp(s.log), e.body.snapshot, s.c.maxChanges)
          && e.body.snapshot.op == s.rec.op)
    && CommitsBelow(s.log, s.rec.op.commit)
  }

  ghost predicate TraceInv(s: Sys) {
    && LogOf(s.trace) == s.log
    && s.log != [] && s.log[0].body.SessionStart?
    && RecordedOps(s.trace)
       == [s.log[0].body.baselineOp] + SnapshotOps(s.log) + HeldOps(s.c)
    && RequestsCover(s.trace)
  }

  function HeldOps(c: Coord): seq<Operation> {
    if c.held.Some? && c.held.value.body.SnapshotTaken? then [c.held.value.body.snapshot.op] else []
  }

  ghost predicate ChainInv(s: Sys) {
    LogInv(s) && HeldInv(s) && TraceInv(s)
  }

  // ---------------------------------------------------------------- one accepted event

  lemma PostedLog(s: Sys, e: Event, origin: Option<Origin>)
    requires ChainInv(s)
    requires e.seqNo == s.c.seqNo && e.v == SCHEMA_VERSION && e.session == s.c.session
    requires !e.body.SessionStart?
    requires e.body.SnapshotTaken? ==> Linked(LatestOp(s.log), e.body.snapshot, s.c.maxChanges)
    ensures var log := s.log + [e];
            && Contiguous(log) && Begins(log) && OneSession(log, s.c.session) && Chained(log, s.c.maxChanges)
            && SnapshotOps(log) == SnapshotOps(s.log) + (if e.body.SnapshotTaken? then [e.body.snapshot.op] else [])
            && LatestOp(log) == (if e.body.SnapshotTaken? then e.body.snapshot.op else LatestOp(s.log))
            && LogOf(s.trace + [Accepted(e, origin)]) == log
            && RecordedOps(s.trace + [Accepted(e, origin)]) == RecordedOps(s.trace)
            && RequestsCover(s.trace + [Accepted(e, origin)])
  {
    ChainedAppend(s.log, e, s.c.maxChanges);
    SnapshotOpsAppend(s.log, e);
    LatestOpAppend(s.log, e);
    LogOfAppend(s.trace, Accepted(e, origin));
    RecordedOpsAppend(s.trace, Accepted(e, origin));
    RequestsCoverAppend(s.trace, Accepted(e, origin));
    hide Chained, Linked, SnapshotOps, LatestOp, LogOf, RecordedOps, RequestsCover, CommitsBelow;
  }

  /** Accepting an event that is no snapshot. */
  lemma PostedChain(s: Sys, body: EventBody, origin: Option<Origin>)
    requires ChainInv(s) && !body.SessionStart? && !body.SnapshotTaken?
    ensures ChainInv(Posted(s, NewEvent(s, body), origin))
  {
    var e := NewEvent(s, body);
    PostedLog(s, e, origin);
    assert CommitsBelow(s.log + [e], s.rec.op.commit);
    hide Chained, Linked, SnapshotOps, LatestOp, LogOf, RecordedOps, RequestsCover, CommitsBelow, Begins, Contiguous;
  }

  /** Accepting the held snapshot event. */
  lemma PostedHeld(s: Sys, pending: bool, forceFull: bool)
    requires ChainInv(s) && s.c.held.Some? && s.c.held.value.seqNo == s.c.seqNo
    ensures var p := Posted(s, s.c.held.value, None);
            ChainInv(p.(c := p.c.(held := None, forceFull := forceFull, pending := pending,
                                  snapshots := p.c.snapshots + 1)))
  {
    var e := s.c.held.value;
    PostedLog(s, e, None);
    assert e.body.snapshot.commit == s.rec.op.commit;
    assert CommitsBelow(s.log + [e], s.rec.op.commit);
    hide Chained, Linked, SnapshotOps, LatestOp, LogOf, RecordedOps, RequestsCover, CommitsBelow, Begins, Contiguous;
  }

  lemma CaptureLinks(r: RecorderState, tree: Tree, maxChanges: nat)
    requires Consistent(r)
    ensures Linked(r.op, SnapshotOf(r, tree, maxChanges), maxChanges)
    ensures Consistent(Captured(r, tree, maxChanges))
    ensures Captured(r, tree, maxChanges).op == SnapshotOf(r, tree, maxChanges).op
    ensures IsAncestor(r.op.commit, Captured(r, tree, maxChanges).op.commit)
  {
  }

  lemma CommitsBelowMore(log: seq<Event>, a: Commit, b: Commit)
    requires CommitsBelow(log, a) && IsAncestor(a, b)
    ensures CommitsBelow(log, b)
  {
    forall i | 0 <= i < |log| && log[i].body.SnapshotTaken? ensures IsAncestor(log[i].body.snapshot.commit, b) {
      AncestorTransitive(log[i].body.snapshot.commit, a, b);
    }
  }

  lemma CaptureChain(s: Sys, tree: Tree)
    requires ChainInv(s) && s.c.held.None?
    ensures ChainInv(Do(s, CaptureMove(tree)))
    requires Enabled(s, CaptureMove(tree))
  {
    hide Chained, Linked, SnapshotOps, LatestOp, LogOf, RecordedOps, RequestsCover, CommitsBelow, Begins, Contiguous,
      IsAncestor, Captured, SnapshotOf, Consistent;
    CaptureLinks(s.rec, tree, s.c.maxChanges);
    var snap := SnapshotOf(s.rec, tree, s.c.maxChanges);
    CommitsBelowMore(s.log, s.rec.op.commit, Captured(s.rec, tree, s.c.maxChanges).op.commit);
    LogOfAppend(s.trace, Recorded(snap.op, s.c.forceFull, s.env.clock));
    RecordedOpsAppend(s.trace, Recorded(snap.op, s.c.forceFull, s.env.clock));
    RequestsCoverAppend(s.trace, Recorded(snap.op, s.c.forceFull, s.env.clock));
    assert s.log + [] == s.log;
  }

  /** A step that neither captures nor accepts. */
  lemma QuietChain(s: Sys, x: Step)
    requires ChainInv(s) && !x.Recorded? && !x.Accepted?
    requires x.Requested? ==> RequestCovers(s.log, x.request)
    ensures ChainInv(s.(trace := s.trace + [x]))
  {
    hide Chained, Linked, SnapshotOps, LatestOp, LogOf, RecordedOps, RequestsCover, CommitsBelow, Begins, Contiguous,
      RequestCovers;
    LogOfAppend(s.trace, x);
    RecordedOpsAppend(s.trace, x);
    RequestsCoverAppend(s.trace, x);
    assert s.log + [] == s.log;
    assert RecordedOps(s.trace) + [] == RecordedOps(s.trace);
  }

  /** Changes outside log, trace, recorder and the fields the chain is about. */
  lemma ChainFrame(s: Sys, t: Sys)
    requires ChainInv(s)
    requires t.log == s.log && t.trace == s.trace && t.rec == s.rec
    requires t.c.seqNo == s.c.seqNo && t.c.session == s.c.session && t.c.maxChanges == s.c.maxChanges
    requires t.c.snapshots == s.c.snapshots && t.c.held == s.c.held
    ensures ChainInv(t)
  {
    hide Chained, Linked, SnapshotOps, LatestOp, LogOf, RecordedOps, RequestsCover, CommitsBelow, Begins, Contiguous;
  }

  lemma MoveChain(s: Sys, m: Move)
    requires Window(s) && ChainInv(s) && Enabled(s, m)
    ensures ChainInv(Do(s, m))
  {
    hide Window, ChainInv, Merged, Notified, Rep, SnapshotOf, Captured;
    var t := Do(s, m);
    match m
    case ArriveMove(n) =>
      QuietChain(s, Arrived(n, s.env.clock));
      ChainFrame(s.(trace := s.trace + [Arrived(n, s.env.clock)]), t);
    case DrainMove =>
      QuietChain(s, Drained);
      DrainMoveFrame(s);
      ChainFrame(s.(trace := s.trace + [Drained]), t);
    case OverflowMove =>
      var n := s.c.overflows[0];
      PostedChain(s, Overflow(n.source, n.rawEvents), Some(n.origin));
      ChainFrame(Posted(s, NewEvent(s, Overflow(n.source, n.rawEvents)), Some(n.origin)), t);
    case AuditMove =>
      var body := TouchedPaths(s.c.touched, s.c.rawEvents, s.c.startedAt.value);
      PostedChain(s, body, None);
      ChainFrame(Posted(s, NewEvent(s, body), None), t);
    case CaptureMove(tree) => CaptureChain(s, tree);
    case RetryMove => PostedHeld(s, s.c.startedAt.Some? || s.c.overflows != [], s.c.overflows != []);
    case PreparedMove => PostedHeld(s, false, false);
    case PostMove(body) => PostedChain(s, body, None);
    case RequestMove(done) => RequestChain(s, done);
    case _ => ChainFrame(s, t);
  }

  lemma DrainMoveFrame(s: Sys)
    requires Window(s)
    ensures var r := Merged(s.c, DrainBatch(s.acc));
            && r.session == s.c.session && r.maxChanges == s.c.maxChanges && r.seqNo == s.c.seqNo
            && r.snapshots == s.c.snapshots && r.held == s.c.held
  {
    hide Merged;
    MergedFacts(s.c, DrainBatch(s.acc));
  }

  lemma RequestChain(s: Sys, done: bool)
    requires ChainInv(s) && Enabled(s, RequestMove(done))
    ensures ChainInv(Do(s, RequestMove(done)))
  {
    hide Chained, Linked, SnapshotOps, LatestOp, LogOf, RecordedOps, RequestsCover, Begins, Contiguous, CommitsBelow;
    QuietChain(s, Requested(FlushRequest(s.c.seqNo - 1, s.rec.op, s.rec.commit), done));
  }

  // ---------------------------------------------------------------- depth

  lemma {:induction false} LatestDepth(log: seq<Event>, maxChanges: nat, i: nat, j: nat)
    requires Begins(log) && Chained(log, maxChanges) && 1 <= i <= j <= |log|
    ensures Depth(LatestOp(log[..i])) <= Depth(LatestOp(log[..j]))
    decreases j
  {
    if i < j {
      LatestDepth(log, maxChanges, i, j - 1);
      assert log[..j] == log[..j - 1] + [log[j - 1]];
      LatestOpAppend(log[..j - 1], log[j - 1]);
    }
  }

  /** No operation is emitted twice: operations grow strictly deeper along the log. */
  lemma OpsDistinct(log: seq<Event>, maxChanges: nat, i: nat, j: nat)
    requires Begins(log) && Chained(log, maxChanges)
    requires i < j < |log| && log[i].body.SnapshotTaken? && log[j].body.SnapshotTaken?
    ensures Depth(log[i].body.snapshot.op) < Depth(log[j].body.snapshot.op)
    ensures log[i].body.snapshot.op != log[j].body.snapshot.op
  {
    assert log[..i + 1] == log[..i] + [log[i]];
    LatestOpAppend(log[..i], log[i]);
    LatestDepth(log, maxChanges, i + 1, j);
    assert Linked(LatestOp(log[..j]), log[j].body.snapshot, maxChanges);
  }
}
