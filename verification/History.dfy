/** What the event stream lets a reader reconstruct, and what a successful flush or shutdown leaves. */
module History {
  import opened Schema
  import opened Audit
  import opened Recorder
  import opened Coordination
  import opened Moves
  import opened Chain
  import opened OverflowObligation
  import opened Windows
  import opened Marks
  import opened Sessions

  // ---------------------------------------------------------------- replay

  function ReplayEvent(m: map<Path, Blob>, body: EventBody): map<Path, Blob> {
    if body.SessionStart? then BlobMap(body.baselineTree)
    else if body.SnapshotTaken? then Replay(m, body.snapshot.changes)
    else m
  }

  /** Folds the listed changes of all snapshot events over the baseline's path-to-blob map. */
  function ReplayLog(log: seq<Event>): map<Path, Blob> {
    if log == [] then map[]
    else ReplayEvent(ReplayLog(log[..|log| - 1]), log[|log| - 1].body)
  }

  lemma ReplayLogAppend(log: seq<Event>, e: Event)
    ensures ReplayLog(log + [e]) == ReplayEvent(ReplayLog(log), e.body)
  {
    assert (log + [e])[..|log|] == log;
  }

  /** The tree an operation records. */
  function TreeOf(op: Operation): Tree {
    if op.Operation? && op.commit.Commit? then op.commit.tree else map[]
  }

  /** The snapshot event at `k` lists every change that alters a blob. */
  ghost predicate ListsBlobs(log: seq<Event>, maxChanges: nat, k: nat)
    requires k < |log| && log[k].body.SnapshotTaken?
  {
    var before, after := TreeOf(LatestOp(log[..k])), log[k].body.snapshot.tree;
    forall p :: p in CutOff(before, after, maxChanges) ==> BlobId(ValueAt(before, p)) == BlobId(ValueAt(after, p))
  }

  ghost predicate ReplaysAt(log: seq<Event>, k: nat)
    requires k < |log| && log[k].body.SnapshotTaken?
  {
    ReplayLog(log[..k + 1]) == BlobMap(log[k].body.snapshot.tree)
  }

  ghost predicate Listed(log: seq<Event>, maxChanges: nat) {
    forall k :: 0 <= k < |log| && log[k].body.SnapshotTaken? ==> ListsBlobs(log, maxChanges, k)
  }

  /** At every snapshot event, replaying the stream so far gives that snapshot's path-to-blob map. */
  ghost predicate Replays(log: seq<Event>) {
    forall k :: 0 <= k < |log| && log[k].body.SnapshotTaken? ==> ReplaysAt(log, k)
  }

  lemma {:induction false} ReplayCurrent(log: seq<Event>, maxChanges: nat)
    requires Begins(log) && Chained(log, maxChanges) && Replays(log)
    ensures ReplayLog(log) == BlobMap(TreeOf(LatestOp(log)))
  {
    var n := |log| - 1;
    var init, e := log[..n], log[n];
    assert log == init + [e];
    LatestOpAppend(init, e);
    ReplayLogAppend(init, e);
    if e.body.SnapshotTaken? {
      assert ReplaysAt(log, n);
      assert log[..n + 1] == log;
      assert Linked(LatestOp(log[..n]), e.body.snapshot, maxChanges);
    } else if n > 0 {
      PrefixChained(log, maxChanges, n);
      ReplayCurrent(init, maxChanges);
    }
  }

  lemma PrefixChained(log: seq<Event>, maxChanges: nat, n: nat)
    requires Begins(log) && Chained(log, maxChanges) && 1 <= n <= |log|
    ensures Begins(log[..n]) && Chained(log[..n], maxChanges)
    ensures Replays(log) ==> Replays(log[..n])
    ensures Listed(log, maxChanges) ==> Listed(log[..n], maxChanges)
  {
    hide Linked, LatestOp, ReplayLog, CutOff, TreeOf, BlobMap;
    var l := log[..n];
    forall k | 0 <= k < n && l[k].body.SnapshotTaken? ensures Linked(LatestOp(l[..k]), l[k].body.snapshot, maxChanges) {
      assert l[..k] == log[..k];
    }
    forall k | 0 <= k < n && l[k].body.SnapshotTaken?
      ensures ReplaysAt(log, k) ==> ReplaysAt(l, k)
      ensures LatestOp(l[..k]) == LatestOp(log[..k])
      ensures ListsBlobs(log, maxChanges, k) ==> ListsBlobs(l, maxChanges, k)
    {
      assert l[..k + 1] == log[..k + 1];
      assert l[..k] == log[..k];
    }
  }

  lemma ReplayStep(log: seq<Event>, maxChanges: nat, n: nat)
    requires Begins(log) && Chained(log, maxChanges) && 1 <= n < |log| && log[n].body.SnapshotTaken?
    requires Replays(log[..n])
    ensures ReplaysAt(log, n) <==> ListsBlobs(log, maxChanges, n)
  {
    hide Replay, CutOff, Project, LatestOp, Replays;
    PrefixChained(log, maxChanges, n);
    ReplayCurrent(log[..n], maxChanges);
    assert Linked(LatestOp(log[..n]), log[n].body.snapshot, maxChanges);
    var before := TreeOf(LatestOp(log[..n]));
    ReplayExact(before, log[n].body.snapshot.tree, maxChanges);
    assert log[..n + 1] == log[..n] + [log[n]];
    ReplayLogAppend(log[..n], log[n]);
  }

  /** A chained stream replays at every one of its snapshots if and only if each of them lists every
    * change that alters a blob. */
  lemma {:induction false} ReplaysExactly(log: seq<Event>, maxChanges: nat)
    requires Begins(log) && Chained(log, maxChanges)
    ensures Replays(log) <==> Listed(log, maxChanges)
  {
    hide ListsBlobs, ReplaysAt, Chained, LatestOp;
    var n := |log| - 1;
    if n <= 0 {
      assert Begins(log);
      NoSnapshotFirst(log);
    } else {
      PrefixChained(log, maxChanges, n);
      ReplaysExactly(log[..n], maxChanges);
      if Replays(log[..n]) && log[n].body.SnapshotTaken? {
        ReplayStep(log, maxChanges, n);
      }
      LastDecides(log, maxChanges, n);
    }
  }

  lemma NoSnapshotFirst(log: seq<Event>)
    requires Begins(log)
    ensures !log[0].body.SnapshotTaken?
  {
  }

  lemma LastDecides(log: seq<Event>, maxChanges: nat, n: nat)
    requires Begins(log) && Chained(log, maxChanges) && 1 <= n && n + 1 == |log|
    ensures Replays(log) <==> Replays(log[..n]) && (log[n].body.SnapshotTaken? ==> ReplaysAt(log, n))
    ensures Listed(log, maxChanges)
            <==> Listed(log[..n], maxChanges) && (log[n].body.SnapshotTaken? ==> ListsBlobs(log, maxChanges, n))
  {
    hide Linked, LatestOp, ReplayLog, CutOff, TreeOf, BlobMap;
    PrefixChained(log, maxChanges, n);
    var l := log[..n];
    forall k | 0 <= k < n && l[k].body.SnapshotTaken?
      ensures ReplaysAt(log, k) <==> ReplaysAt(l, k)
      ensures LatestOp(l[..k]) == LatestOp(log[..k])
      ensures ListsBlobs(log, maxChanges, k) <==> ListsBlobs(l, maxChanges, k)
    {
      assert l[..k + 1] == log[..k + 1];
      assert l[..k] == log[..k];
    }
  }

  /** The same for the stream of any session. */
  lemma SessionReplays(session: string, maxChanges: nat, env: Env, commands: seq<Command>)
    requires Initialize(session, maxChanges, env).ok
    ensures var s := Run(session, maxChanges, env, commands);
            && Begins(s.log) && Chained(s.log, maxChanges)
            && (Replays(s.log) <==> Listed(s.log, maxChanges))
            && ((forall i :: 0 <= i < |s.log| && s.log[i].body.SnapshotTaken? ==> !s.log[i].body.snapshot.truncated)
                ==> Replays(s.log))
  {
    hide Run, Initialize, Begins, Chained, Contiguous, OneSession, Linked, ReplaysAt, LatestOp, SnapshotOps;
    EventStream(session, maxChanges, env, commands);
    var s := Run(session, maxChanges, env, commands);
    ReplaysExactly(s.log, maxChanges);
    forall k | 0 <= k < |s.log| && s.log[k].body.SnapshotTaken? && !s.log[k].body.snapshot.truncated
      ensures Linked(LatestOp(s.log[..k]), s.log[k].body.snapshot, maxChanges)
              && ListsBlobs(s.log, maxChanges, k)
    {
      LinkedAt(s.log, maxChanges, k);
      UntruncatedLists(s.log, maxChanges, k);
    }
  }

  lemma LinkedAt(log: seq<Event>, maxChanges: nat, k: nat)
    requires Chained(log, maxChanges) && k < |log| && log[k].body.SnapshotTaken?
    ensures Linked(LatestOp(log[..k]), log[k].body.snapshot, maxChanges)
  {
  }

  lemma UntruncatedLists(log: seq<Event>, maxChanges: nat, k: nat)
    requires k < |log| && log[k].body.SnapshotTaken? && Linked(LatestOp(log[..k]), log[k].body.snapshot, maxChanges)
    requires !log[k].body.snapshot.truncated
    ensures ListsBlobs(log, maxChanges, k)
  {
    hide LatestOp, Stats, Changes;
    var before, after := TreeOf(LatestOp(log[..k])), log[k].body.snapshot.tree;
    assert !Project(before, after, maxChanges).truncated;
    assert CutOff(before, after, maxChanges) == [];
  }

  /** Every snapshot event of every session lists what happened at the smallest paths that differ from the
    * snapshot (or baseline) before it, and says that it is truncated exactly when there are more. */
  lemma SessionProjects(session: string, maxChanges: nat, env: Env, commands: seq<Command>, k: nat)
    requires Initialize(session, maxChanges, env).ok
    requires var log := Run(session, maxChanges, env, commands).log; k < |log| && log[k].body.SnapshotTaken?
    ensures var s := Run(session, maxChanges, env, commands);
            var snap := s.log[k].body.snapshot;
            Projects(TreeOf(LatestOp(s.log[..k])), snap.tree, maxChanges, snap.changes, snap.truncated)
  {
    hide Run, Initialize, Begins, Chained, Contiguous, OneSession, LatestOp, SnapshotOps, Projects, Project;
    EventStream(session, maxChanges, env, commands);
    var s := Run(session, maxChanges, env, commands);
    LinkedAt(s.log, maxChanges, k);
    ProjectedExactly(TreeOf(LatestOp(s.log[..k])), s.log[k].body.snapshot.tree, maxChanges);
  }

  // ---------------------------------------------------------------- successful flush and shutdown

  lemma FlushedLast(s: Sys)
    requires FlushDurable(s).ok
    ensures var t := FlushDurable(s).s;
            && t.log == s.log + [NewEvent(s, Flush(s.rec.op, s.c.seqNo))]
            && t.trace != [] && t.trace[|t.trace| - 1..]
               == [Requested(FlushRequest(s.c.seqNo, s.rec.op, s.rec.commit), true)]
            && t.c.held == s.c.held && t.rec == s.rec
  {
  }

  /** A successful flush that did not strand anything ends the log with a flush event, has made one
    * successful request for it, and names the newest snapshot event (or baseline) and its commit. */
  lemma FlushNamesNewest(s: Sys)
    requires Inv(s) && NamesInv(s) && s.running && !Strands(s, FlushSession)
    requires FlushNow(s).ok
    ensures var t := FlushNow(s).s;
            && t.log != [] && t.log[|t.log| - 1].body.Flush? && t.c.held.None?
            && LatestOp(t.log).Operation?
            && t.trace[|t.trace| - 1..]
               == [Requested(FlushRequest(|t.log| - 1, LatestOp(t.log), Some(LatestOp(t.log).commit)), true)]
  {
    hide Window, ChainInv, DebtInv, WindowsInv, MarksInv, NamesInv, DrainAndSettle, FlushDurable, Leads, DrainAudit;
    var a := DrainAndSettleMoves(true, s);
    var r := DrainAndSettle(s);
    LeadsInv(true, s, a, r.s);
    FlushedLast(r.s);
    SettledOps(r.s);
    LatestOpAppend(r.s.log, NewEvent(r.s, Flush(r.s.rec.op, r.s.c.seqNo)));
  }

  lemma SettledOps(s: Sys)
    requires ChainInv(s) && s.c.held.None?
    ensures s.rec.op == LatestOp(s.log) && s.rec.op.Operation? && s.rec.commit == Some(s.rec.op.commit)
    ensures s.c.seqNo == |s.log|
  {
  }

  /** A careful flush: no command so far stranded a snapshot, the flush strands none, and it succeeds. */
  ghost predicate CarefulFlush(session: string, maxChanges: nat, env: Env, commands: seq<Command>) {
    && Initialize(session, maxChanges, env).ok
    && var s := Run(session, maxChanges, env, commands);
       NamesInv(s) && s.running && !Strands(s, FlushSession) && FlushNow(s).ok
  }

  lemma CarefulFlushState(session: string, maxChanges: nat, env: Env, commands: seq<Command>)
    requires CarefulFlush(session, maxChanges, env, commands)
    ensures var t := FlushNow(Run(session, maxChanges, env, commands)).s;
            var n := |t.log|;
            && t == Run(session, maxChanges, env, commands + [FlushSession])
            && Inv(t) && t.c.held.None?
            && n > 0 && t.log[n - 1].body.Flush? && LatestOp(t.log).Operation?
            && |t.trace| >= 2
            && t.trace[|t.trace| - 1]
               == Requested(FlushRequest(n - 1, LatestOp(t.log), Some(LatestOp(t.log).commit)), true)
            && t.trace[|t.trace| - 2] == Accepted(t.log[n - 1], None)
  {
    hide Run, Initialize, Inv, NamesInv, Strands, FlushNow, LatestOp;
    var s := Run(session, maxChanges, env, commands);
    RunInv(session, maxChanges, env, commands);
    FlushNamesNewest(s);
    var t := FlushNow(s).s;
    FlushTail(s);
    assert t.trace[|t.trace| - 1..][0] == t.trace[|t.trace| - 1];
    RunStep(session, maxChanges, env, commands, FlushSession);
    RunInv(session, maxChanges, env, commands + [FlushSession]);
  }

  /** A sink that accepts everything, and a tree that stays empty. */
  const AGREEABLE := Env([], (n: nat) => true, (n: nat) => map[], 0)

  /** Careful flushes happen: the first flush of an undisturbed session is one. */
  lemma CarefulFlushHappens(session: string, maxChanges: nat)
    ensures CarefulFlush(session, maxChanges, AGREEABLE, [])
  {
    hide SnapshotOf, Captured, NamesInv, DrainAudit, Rep;
    var s := Initialize(session, maxChanges, AGREEABLE).s;
    InitialShape(session, maxChanges, AGREEABLE);
    InitialChain(session, maxChanges, AGREEABLE);
    assert Run(session, maxChanges, AGREEABLE, []) == s;
    DrainFacts(s);
    assert DrainAndSettle(s) == Outcome(DrainAudit(s), true);
  }

  lemma FlushTail(s: Sys)
    requires Window(s) && FlushNow(s).ok
    ensures var t := FlushNow(s).s;
            |t.trace| >= 2 && t.log != [] && t.trace[|t.trace| - 2] == Accepted(t.log[|t.log| - 1], None)
  {
    hide DrainAndSettle, Window;
  }

  /** The log ends with the session end, which counts the events before it, directly followed by a flush
    * event, and the last step was a successful request for that flush. */
  ghost predicate Ended(t: Sys) {
    var n := |t.log|;
    && n >= 2 && t.log[n - 2].body.SessionEnd? && t.log[n - 1].body.Flush?
    && t.log[n - 2].body.events == t.log[n - 2].seqNo == n - 2
    && t.log[n - 1].body.throughSeq == n - 1
    && t.log[n - 1].body.op == t.log[n - 2].body.finalOp
    && t.trace != []
    && t.trace[|t.trace| - 1] == Requested(FlushRequest(n - 1, t.log[n - 1].body.op, t.rec.commit), true)
  }

  /** A successful shutdown ends the session. */
  lemma ShutdownEndsSession(s: Sys, reason: string)
    requires Inv(s) && Finish(s, reason).ok
    ensures Ended(Finish(s, reason).s)
  {
    hide Window, ChainInv, DebtInv, WindowsInv, MarksInv, DrainAndSettle, FlushDurable, Leads, DrainAudit, Ended;
    var a := DrainAndSettleMoves(false, s);
    var r := DrainAndSettle(s);
    LeadsInv(false, s, a, r.s);
    EndsAfter(r.s, reason);
  }

  lemma EndsAfter(s: Sys, reason: string)
    requires ChainInv(s) && EmitEnd(s, reason).ok && FlushDurable(EmitEnd(s, reason).s).ok
    ensures Ended(FlushDurable(EmitEnd(s, reason).s).s)
  {
    hide ChainInv, FlushDurable;
    SeqIsLength(s);
    FlushedLast(EmitEnd(s, reason).s);
    var t := FlushDurable(EmitEnd(s, reason).s).s;
    assert t.trace[|t.trace| - 1] == t.trace[|t.trace| - 1..][0];
  }

  lemma SeqIsLength(s: Sys)
    requires ChainInv(s)
    ensures s.c.seqNo == |s.log|
  {
  }
}
