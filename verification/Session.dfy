/** Whole sessions: every state reached by any commands, any notifications at any time, any failures and
  * any contents of the watched tree.  These are the main results about the coordinator.
  */
module Sessions {
  import opened Schema
  import opened Audit
  import opened Recorder
  import opened Coordination
  import opened Moves
  import opened Chain
  import opened OverflowObligation
  import opened Tables
  import opened Windows
  import opened Marks

  ghost predicate Inv(s: Sys) {
    Window(s) && ChainInv(s) && DebtInv(s) && WindowsInv(s) && MarksInv(s)
  }

  lemma MoveInv(s: Sys, m: Move)
    requires Inv(s) && Enabled(s, m)
    ensures Inv(Do(s, m))
  {
    hide Window, ChainInv, DebtInv, WindowsInv, MarksInv, Enabled, Do;
    WindowMove(s, m);
    MoveChain(s, m);
    MoveDebt(s, m);
    MoveWindows(s, m);
    MoveMarks(s, m);
  }

  lemma {:induction false} LeadsInv(careful: bool, s: Sys, ms: seq<Move>, t: Sys)
    requires Inv(s) && Leads(careful, s, ms, t)
    ensures Inv(t)
    ensures careful && NamesInv(s) ==> NamesInv(t)
    decreases ms
  {
    hide Window, ChainInv, DebtInv, WindowsInv, MarksInv, Enabled, Do, NamesInv;
    if ms != [] {
      MoveInv(s, ms[0]);
      if careful && NamesInv(s) {
        MoveNames(s, ms[0]);
      }
      LeadsInv(careful, Do(s, ms[0]), ms[1..], t);
    }
  }

  lemma ExecInv(s: Sys, command: Command)
    requires Inv(s)
    ensures Inv(Exec(s, command).s)
    ensures NamesInv(s) && !Strands(s, command) ==> NamesInv(Exec(s, command).s)
  {
    hide Window, ChainInv, DebtInv, WindowsInv, MarksInv, Leads, NamesInv, Strands, Exec;
    var careful := !Strands(s, command);
    var ms := ExecMoves(careful, s, command);
    LeadsInv(careful, s, ms, Exec(s, command).s);
  }

  lemma InitialShape(session: string, maxChanges: nat, env: Env)
    requires Initialize(session, maxChanges, env).ok
    ensures var s := Initialize(session, maxChanges, env).s;
            && Consistent(s.rec)
            && s.c == Coord(session, maxChanges, 1, 0, map[], 0, None, false, false, false, None, [], false)
            && s.log == [Event(SCHEMA_VERSION, 0, session, SessionStart(s.rec.op, s.rec.tree))]
            && s.trace == [Recorded(s.rec.op, true, env.clock), Accepted(s.log[0], None)]
            && s.env == env.(clock := env.clock + 2) && s.rec.op.commit.tree == env.disk(env.clock)
            && s.acc == EMPTY_AUDIT
  {
    hide Project;
  }

  lemma InitialLog(session: string, maxChanges: nat, env: Env)
    requires Initialize(session, maxChanges, env).ok
    ensures var s := Initialize(session, maxChanges, env).s;
            LogInv(s) && HeldInv(s) && NamesInv(s) && SnapshotOps(s.log) == []
  {
    hide Initialize;
    InitialShape(session, maxChanges, env);
    var s := Initialize(session, maxChanges, env).s;
    assert s.log[..0] == [];
    assert LatestOp(s.log) == s.rec.op;
    assert SnapshotOps(s.log[..0]) == [];
    assert SnapshotOps(s.log) == [];
  }

  lemma InitialChain(session: string, maxChanges: nat, env: Env)
    requires Initialize(session, maxChanges, env).ok
    ensures ChainInv(Initialize(session, maxChanges, env).s)
    ensures NamesInv(Initialize(session, maxChanges, env).s)
  {
    hide Initialize, LogInv, HeldInv, NamesInv, SnapshotOps;
    InitialShape(session, maxChanges, env);
    InitialLog(session, maxChanges, env);
    var s := Initialize(session, maxChanges, env).s;
    var x0, x1 := s.trace[0], s.trace[1];
    assert s.trace == [x0] + [x1];
    LogOfAppend([x0], x1);
    RecordedOpsAppend([x0], x1);
    LogOfAppend([], x0);
    RecordedOpsAppend([], x0);
    assert [] + [x0] == [x0];
  }

  lemma InitialRest(session: string, maxChanges: nat, env: Env)
    requires Initialize(session, maxChanges, env).ok
    ensures var s := Initialize(session, maxChanges, env).s;
            Window(s) && DebtInv(s) && WindowsInv(s) && MarksInv(s)
  {
    hide Initialize;
    InitialShape(session, maxChanges, env);
    var s := Initialize(session, maxChanges, env).s;
    var x0, x1 := s.trace[0], s.trace[1];
    assert s.trace == [x0] + [x1];
    DebtOfAppend([x0], x1);
    DebtOfAppend([], x0);
    TallyAppend([x0], x1);
    TallyAppend([], x0);
    UnseenAppend([x0], x1);
    UnseenAppend([], x0);
    assert [] + [x0] == [x0];
    assert s.trace[..0] == [];
    assert s.trace[..1] == [x0];
    assert DebtOf([]) == Clear;
    assert TallyOf([]) == Tally([], [], false);
    EmptyNotLimited();
    assert UnseenOf([]) == Unseen(false, false);
  }

  lemma {:induction false} ContinueInv(s: Sys, commands: seq<Command>)
    requires Inv(s)
    ensures Inv(Continue(s, commands))
  {
    hide Window, ChainInv, DebtInv, WindowsInv, MarksInv, Exec;
    if commands != [] {
      ContinueInv(s, commands[..|commands| - 1]);
      ExecInv(Continue(s, commands[..|commands| - 1]), commands[|commands| - 1]);
    }
  }

  lemma RunInv(session: string, maxChanges: nat, env: Env, commands: seq<Command>)
    requires Initialize(session, maxChanges, env).ok
    ensures Inv(Run(session, maxChanges, env, commands))
  {
    hide Window, ChainInv, DebtInv, WindowsInv, MarksInv, Initialize, Exec, Continue;
    InitialChain(session, maxChanges, env);
    InitialRest(session, maxChanges, env);
    ContinueInv(Initialize(session, maxChanges, env).s, commands);
  }

  /** No command changes the session's id or its limit on listed changes. */
  ghost predicate Configured(s: Sys, session: string, maxChanges: nat) {
    s.c.session == session && s.c.maxChanges == maxChanges
  }

  lemma MoveConfigured(s: Sys, m: Move, session: string, maxChanges: nat)
    requires Window(s) && Enabled(s, m) && Configured(s, session, maxChanges)
    ensures Configured(Do(s, m), session, maxChanges)
  {
    hide Merged, Notified, SnapshotOf, Captured, Rep;
    if m == DrainMove {
      DrainMoveFrame(s);
    }
  }

  lemma {:induction false} LeadsConfigured(careful: bool, s: Sys, ms: seq<Move>, t: Sys, session: string, maxChanges: nat)
    requires Window(s) && Leads(careful, s, ms, t) && Configured(s, session, maxChanges)
    ensures Configured(t, session, maxChanges)
    decreases ms
  {
    hide Window, Enabled, Do, Configured;
    if ms != [] {
      WindowMove(s, ms[0]);
      MoveConfigured(s, ms[0], session, maxChanges);
      LeadsConfigured(careful, Do(s, ms[0]), ms[1..], t, session, maxChanges);
    }
  }

  lemma {:induction false} RunConfigured(session: string, maxChanges: nat, env: Env, commands: seq<Command>)
    requires Initialize(session, maxChanges, env).ok
    ensures Configured(Run(session, maxChanges, env, commands), session, maxChanges)
  {
    hide Initialize, Exec, Leads, Window;
    if commands == [] {
      InitialShape(session, maxChanges, env);
    } else {
      var init, command := commands[..|commands| - 1], commands[|commands| - 1];
      RunConfigured(session, maxChanges, env, init);
      var s := Run(session, maxChanges, env, init);
      var ms := ExecMoves(false, s, command);
      LeadsConfigured(false, s, ms, Exec(s, command).s, session, maxChanges);
    }
  }

  /** One more command. */
  lemma RunStep(session: string, maxChanges: nat, env: Env, commands: seq<Command>, command: Command)
    requires Initialize(session, maxChanges, env).ok
    ensures Run(session, maxChanges, env, commands + [command])
            == Exec(Run(session, maxChanges, env, commands), command).s
  {
    hide Initialize, Exec;
    assert (commands + [command])[..|commands|] == commands;
  }

  // ---------------------------------------------------------------- the event stream

  /** The accepted events of any session are numbered 0, 1, 2, ..., belong to one session, begin with the
    * only session start, and form an unbroken operation chain; the snapshot counter is their count. */
  lemma EventStream(session: string, maxChanges: nat, env: Env, commands: seq<Command>)
    requires Initialize(session, maxChanges, env).ok
    ensures var s := Run(session, maxChanges, env, commands);
            && Contiguous(s.log) && s.c.seqNo == |s.log|
            && Begins(s.log) && OneSession(s.log, session)
            && Chained(s.log, maxChanges)
            && s.c.snapshots == |SnapshotOps(s.log)|
  {
    hide Run, Window, DebtInv, WindowsInv, MarksInv, HeldInv, TraceInv, Contiguous, Begins, OneSession, Chained, Initialize;
    RunInv(session, maxChanges, env, commands);
    RunConfigured(session, maxChanges, env, commands);
  }

  /** Exactly once, in order: the captured operations are the baseline, then those of the accepted snapshot
    * events, then the held one if there is one. */
  lemma CapturedExactlyOnce(session: string, maxChanges: nat, env: Env, commands: seq<Command>)
    requires Initialize(session, maxChanges, env).ok
    ensures var s := Run(session, maxChanges, env, commands);
            && s.log != [] && s.log[0].body.SessionStart?
            && RecordedOps(s.trace) == [s.log[0].body.baselineOp] + SnapshotOps(s.log) + HeldOps(s.c)
  {
    hide Run, Window, DebtInv, WindowsInv, MarksInv, LogInv, HeldInv, Initialize;
    RunInv(session, maxChanges, env, commands);
  }

  /** Every flush request names the flush event that ends the log at that moment and a checkpoint that
    * equals or descends from every snapshot commit in the log. */
  lemma FlushRequestsCover(session: string, maxChanges: nat, env: Env, commands: seq<Command>)
    requires Initialize(session, maxChanges, env).ok
    ensures RequestsCover(Run(session, maxChanges, env, commands).trace)
  {
    hide Run, Window, DebtInv, WindowsInv, MarksInv, LogInv, HeldInv, Initialize;
    RunInv(session, maxChanges, env, commands);
  }

  // ---------------------------------------------------------------- overflows

  /** After an overflow event that came from the accumulator, no mark, flush or session end is accepted
    * before a snapshot event whose capture was a full scan made after that overflow event. */
  lemma OverflowForcesFullScan(session: string, maxChanges: nat, env: Env, commands: seq<Command>, i: nat, k: nat)
    requires Initialize(session, maxChanges, env).ok
    requires var trace := Run(session, maxChanges, env, commands).trace;
             i < k < |trace| && Announces(trace[i]) && IsPost(trace[k])
    ensures var trace := Run(session, maxChanges, env, commands).trace;
            exists m, n :: i < m < n < k && FullScanAt(trace, m, n)
  {
    hide Run, Window, ChainInv, WindowsInv, MarksInv, DebtsPaid, Initialize;
    RunInv(session, maxChanges, env, commands);
    FullScanBetween(Run(session, maxChanges, env, commands).trace, i, k);
  }

  // ---------------------------------------------------------------- audit windows

  /** Two-stage audit refines a union, exactly.  Take the batches of touches drained since the previous
    * touched_paths event.  The event reports the table of their merge: per path the union of all operations,
    * each batch and then the merge restricted to their first 100,000 distinct paths.  Pair by pair: an
    * operation is missing only if its path is not in the report, which is full, or was not in its batch,
    * which was full; and nothing is reported that was not touched.  If any path was turned away, a path-limit
    * overflow was accepted in between. */
  lemma TouchedPathsRefineUnion(session: string, maxChanges: nat, env: Env, commands: seq<Command>, k: nat)
    requires Initialize(session, maxChanges, env).ok
    requires var trace := Run(session, maxChanges, env, commands).trace;
             k < |trace| && trace[k].Accepted? && trace[k].event.body.TouchedPaths?
    ensures var trace := Run(session, maxChanges, env, commands).trace;
            var batches := TallyOf(trace[..k]).batches;
            var report := trace[k].event.body.paths;
            && report == TableOf(Merge(batches))
            && (forall i, e, o :: 0 <= i < |batches| && e in batches[i] && o in e.ops
                                  ==> Accounted(report, batches[i], e.path, o))
            && (forall p, o :: p in report && o in report[p]
                               ==> exists i, e :: 0 <= i < |batches| && e in batches[i] && e.path == p && o in e.ops)
            && (Limited(batches) ==> exists j :: 0 <= j < k && LimitAt(trace[..k], j))
  {
    hide Run, Window, ChainInv, DebtInv, MarksInv, Initialize, TallyOf, LimitAt, Merge, TableOf, Limited, Accounted;
    RunInv(session, maxChanges, env, commands);
    var trace := Run(session, maxChanges, env, commands).trace;
    var t := TallyOf(trace[..k]);
    assert WindowReported(t, trace[k]);
    MergeAccounts(t.batches);
    if t.limitSeen {
      LimitSeenMeans(trace[..k]);
    }
  }

  /** In every state, the accumulator holds exactly the table of the touches not yet drained, the coordinator
    * exactly the table of the batches not yet reported; each has noted the limit exactly when it turned a
    * path away, and for a drained one an overflow is queued or was accepted since; and raw counts are
    * conserved until they would overflow 64 bits. */
  lemma NothingObservedIsLost(session: string, maxChanges: nat, env: Env, commands: seq<Command>)
    requires Initialize(session, maxChanges, env).ok
    ensures var s := Run(session, maxChanges, env, commands);
            var t := TallyOf(s.trace);
            && Accumulated(s.acc, t.arriving) && Held(s.c, Merge(t.batches))
            && (Limited(t.batches) ==> Noted(s.c, t.limitSeen))
            && (RawArrived(s.trace) <= U64_MAX
                ==> RawArrived(s.trace) == RawEmitted(s.trace) + s.c.rawEvents + s.acc.rawEvents)
  {
    hide Run, Window, ChainInv, DebtInv, MarksInv, Initialize, TallyOf, WindowsExact, Noted, RawArrived, RawEmitted,
      Accumulated, Held, Merge, Limited;
    RunInv(session, maxChanges, env, commands);
  }

  // ---------------------------------------------------------------- marks, flushes and ends

  /** When a mark, flush or session end is accepted: everything drained before it has been reported; every
    * notification drained before it is followed by a capture before it; and flush and end events state
    * their own position, the end also the number of snapshot events before it. */
  lemma PostsAreTimely(session: string, maxChanges: nat, env: Env, commands: seq<Command>, k: nat)
    requires Initialize(session, maxChanges, env).ok
    requires var trace := Run(session, maxChanges, env, commands).trace;
             k < |trace| && IsPost(trace[k])
    ensures var trace := Run(session, maxChanges, env, commands).trace;
            && AllEmpty(TallyOf(trace[..k]).batches)
            && (forall i, j :: 0 <= i < j < k && ArrivedThenDrained(trace, i, j)
                               ==> exists m :: i < m < k && trace[m].Recorded?)
            && (trace[k].event.body.Flush? ==> trace[k].event.body.throughSeq == trace[k].event.seqNo)
            && (trace[k].event.body.SessionEnd? ==>
                  && trace[k].event.body.events == trace[k].event.seqNo == |LogOf(trace[..k])|
                  && trace[k].event.body.snapshots == |SnapshotOps(LogOf(trace[..k]))|)
  {
    hide Run, Window, ChainInv, DebtInv, Initialize, TallyOf, UnseenOf, LogOf, SnapshotOps, Effective;
    RunInv(session, maxChanges, env, commands);
    var trace := Run(session, maxChanges, env, commands).trace;
    assert WindowClosed(TallyOf(trace[..k]), trace[k]);
    assert PostTimely(trace[..k], trace[k]);
    forall i, j | 0 <= i < j < k && ArrivedThenDrained(trace, i, j)
      ensures exists m :: i < m < k && trace[m].Recorded?
    {
      SeenMeans(trace[..k], i, j);
      var m :| i < m < |trace[..k]| && trace[..k][m].Recorded?;
      assert trace[m].Recorded?;
    }
  }

  ghost predicate ArrivedThenDrained(trace: seq<Step>, i: nat, j: nat)
    requires i < j < |trace|
  {
    trace[i].Arrived? && Effective(trace[i].n) && trace[j].Drained?
  }
}
