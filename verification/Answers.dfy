/** What the coordinator's commands answer, and what a successful one leaves: the loops settle everything, an
  * accepting environment makes every command succeed, and only marks and shutdowns write marks and ends.
  */
module Answers {
  import opened Schema
  import opened Audit
  import opened Recorder
  import opened Coordination
  import opened Chain
  import opened OverflowObligation
  import opened Tables
  import opened Windows
  import opened Marks
  import opened Sessions
  import opened Notices

  // ---------------------------------------------------------------- nothing fails

  /** From now on every emit, capture and flush request succeeds. */
  ghost predicate Accepting(s: Sys) {
    forall n :: n >= s.env.clock ==> s.env.fate(n)
  }

  lemma {:induction false} OverflowsAccepted(s: Sys)
    requires Accepting(s)
    ensures EmitOverflows(s).ok && Accepting(EmitOverflows(s).s)
    decreases |s.c.overflows|
  {
    if s.c.overflows != [] {
      OverflowsAccepted(EmitFirstOverflow(s).s);
    }
  }

  lemma AuditAccepted(s: Sys)
    requires Accepting(s)
    ensures EmitAudit(s).ok && Accepting(EmitAudit(s).s)
  {
  }

  lemma CaptureAccepted(s: Sys)
    requires Accepting(s)
    ensures CaptureAndHold(s).ok && EmitPrepared(CaptureAndHold(s).s).ok
    ensures Accepting(EmitPrepared(CaptureAndHold(s).s).s)
  {
    hide SnapshotOf, Captured;
  }

  lemma SnapshotAccepted(s: Sys)
    requires Window(s) && Accepting(s)
    ensures FreshSnapshot(s).ok && Accepting(FreshSnapshot(s).s)
  {
    hide DrainAudit, EmitOverflows, EmitAudit, CaptureAndHold, EmitPrepared, Window;
    DrainFacts(s);
    var d := DrainAudit(s);
    OverflowsAccepted(d);
    var r1 := EmitOverflows(d).s;
    AuditAccepted(r1);
    CaptureAccepted(EmitAudit(r1).s);
  }

  lemma TakeAccepted(s: Sys)
    requires Window(s) && Accepting(s) && HeldCurrent(s)
    ensures TakeSnapshot(s).ok && Accepting(TakeSnapshot(s).s) && HeldCurrent(TakeSnapshot(s).s)
  {
    hide FreshSnapshot, Window;
    SnapshotFacts(s);
    if s.c.held.None? {
      SnapshotAccepted(s);
    }
  }

  lemma DrainAccepted(s: Sys)
    requires Window(s) && Accepting(s) && HeldCurrent(s)
    ensures Window(DrainAudit(s)) && Accepting(DrainAudit(s)) && HeldCurrent(DrainAudit(s))
  {
    hide DrainAudit, Window;
    DrainFacts(s);
  }

  lemma {:induction false} SettleAccepted(s: Sys)
    requires Window(s) && Accepting(s) && HeldCurrent(s)
    ensures SettlePending(s).ok && Accepting(SettlePending(s).s) && HeldCurrent(SettlePending(s).s)
    decreases |s.env.script|, if s.c.held.Some? then 1 else 0, if s.c.pending then 1 else 0
  {
    hide DrainAudit, TakeSnapshot, Window, Accepting, HeldCurrent;
    if s.c.pending {
      TakeAccepted(s);
      SnapshotFacts(s);
      var r := TakeSnapshot(s);
      DrainFacts(r.s);
      DrainAccepted(r.s);
      SettleAccepted(DrainAudit(r.s));
    }
  }

  lemma AcceptSucceeds(s: Sys, body: EventBody)
    requires Accepting(s)
    ensures var r := Accept(s, NewEvent(s, body), None); r.ok && Accepting(r.s)
  {
  }

  lemma FlushAccepted(s: Sys)
    requires Accepting(s)
    ensures FlushDurable(s).ok
  {
  }

  /** Every command succeeds in a running session whose held event, if any, is in step, when nothing fails any
    * more, however many notifications still arrive. */
  lemma AcceptingAnswers(s: Sys, command: Command)
    requires Window(s) && s.running && Accepting(s) && HeldCurrent(s)
    ensures Exec(s, command).ok
  {
    hide DrainAudit, TakeSnapshot, SettlePending, Window, Accepting, HeldCurrent, Accept, FlushDurable;
    DrainFacts(s);
    DrainAccepted(s);
    match command
    case Notify(_) =>
    case Pause =>
    case Snap => TakeAccepted(s);
    case MarkAs(tag) =>
      SettleAccepted(DrainAudit(s));
      AcceptSucceeds(DrainAndSettle(s).s, Mark(tag, DrainAndSettle(s).s.rec.op));
    case FlushSession =>
      SettleAccepted(DrainAudit(s));
      FlushAccepted(DrainAndSettle(s).s);
    case Resume =>
      ResumedAccepts(DrainAudit(s));
      SettleAccepted(DrainAudit(s).(c := DrainAudit(s).c.(paused := false)));
    case Shutdown(reason) =>
      SettleAccepted(DrainAudit(s));
      var t := DrainAndSettle(s).s;
      AcceptSucceeds(t, SessionEnd(t.rec.op, reason, t.c.snapshots, t.c.seqNo));
      FlushAccepted(EmitEnd(t, reason).s);
  }

  lemma ResumedAccepts(s: Sys)
    requires Window(s) && Accepting(s) && HeldCurrent(s)
    ensures var t := s.(c := s.c.(paused := false));
            Window(t) && Accepting(t) && HeldCurrent(t)
  {
  }

  // ---------------------------------------------------------------- what the loop does to the log

  /** The events a snapshot may emit. */
  predicate FromSnapshot(body: EventBody) {
    body.SnapshotTaken? || body.TouchedPaths? || body.Overflow?
  }

  ghost predicate HoldsSnapshot(s: Sys) {
    s.c.held.Some? ==> s.c.held.value.body.SnapshotTaken?
  }

  /** `t` comes from `s` by drains and snapshots. */
  ghost predicate Quietly(s: Sys, t: Sys) {
    && s.log <= t.log && (forall i :: |s.log| <= i < |t.log| ==> FromSnapshot(t.log[i].body))
    && t.c.paused == s.c.paused && t.running == s.running
    && (HoldsSnapshot(s) ==> HoldsSnapshot(t))
  }

  lemma QuietlyThen(s: Sys, t: Sys, u: Sys)
    requires Quietly(s, t) && Quietly(t, u)
    ensures Quietly(s, u)
  {
    hide FromSnapshot;
  }

  lemma DrainQuietly(s: Sys)
    requires Window(s)
    ensures Quietly(s, DrainAudit(s))
  {
    hide Merged, BeforeDrain;
    BeforeDrainFacts(s);
    MergedFacts(s.c, DrainBatch(BeforeDrain(s).acc));
  }

  lemma {:induction false} OverflowsQuietly(s: Sys)
    ensures Quietly(s, EmitOverflows(s).s)
    decreases |s.c.overflows|
  {
    if s.c.overflows != [] {
      var r := EmitFirstOverflow(s);
      if r.ok {
        OverflowsQuietly(r.s);
        QuietlyThen(s, r.s, EmitOverflows(s).s);
      }
    }
  }

  lemma AuditQuietly(s: Sys)
    ensures Quietly(s, EmitAudit(s).s)
  {
  }

  lemma CaptureQuietly(s: Sys)
    ensures Quietly(s, CaptureAndHold(s).s)
    ensures CaptureAndHold(s).ok ==> Quietly(s, EmitPrepared(CaptureAndHold(s).s).s)
  {
    hide SnapshotOf, Captured;
  }

  lemma FreshQuietly(s: Sys)
    requires Window(s)
    ensures Quietly(s, FreshSnapshot(s).s)
  {
    hide DrainAudit, EmitOverflows, EmitAudit, CaptureAndHold, EmitPrepared, Window, Quietly;
    DrainQuietly(s);
    var d := DrainAudit(s);
    OverflowsQuietly(d);
    QuietlyThen(s, d, EmitOverflows(d).s);
    var r1 := EmitOverflows(d);
    if r1.ok {
      AuditQuietly(r1.s);
      QuietlyThen(s, r1.s, EmitAudit(r1.s).s);
      var r2 := EmitAudit(r1.s);
      if r2.ok {
        CaptureQuietly(r2.s);
        CaptureFacts(r2.s);
        QuietlyThen(s, r2.s, CaptureAndHold(r2.s).s);
        if CaptureAndHold(r2.s).ok {
          QuietlyThen(s, r2.s, EmitPrepared(CaptureAndHold(r2.s).s).s);
        }
      }
    }
  }

  lemma TakeQuietly(s: Sys)
    requires Window(s) && HoldsSnapshot(s)
    ensures Quietly(s, TakeSnapshot(s).s)
  {
    hide FreshSnapshot, Window;
    if s.c.held.None? {
      FreshQuietly(s);
    }
  }

  lemma {:induction false} SettleQuietly(s: Sys)
    requires Window(s) && HoldsSnapshot(s)
    ensures Quietly(s, SettlePending(s).s)
    decreases |s.env.script|, if s.c.held.Some? then 1 else 0, if s.c.pending then 1 else 0
  {
    hide DrainAudit, TakeSnapshot, Window, Quietly, HoldsSnapshot;
    if !s.c.pending {
      SameQuietly(s);
    } else {
      TakeQuietly(s);
      SnapshotFacts(s);
      StillSnapshot(s, TakeSnapshot(s).s);
      var r := TakeSnapshot(s);
      if r.ok {
        DrainFacts(r.s);
        DrainQuietly(r.s);
        StillSnapshot(r.s, DrainAudit(r.s));
        SettleQuietly(DrainAudit(r.s));
        QuietlyThen(s, r.s, DrainAudit(r.s));
        QuietlyThen(s, DrainAudit(r.s), SettlePending(s).s);
      }
    }
  }

  lemma SameQuietly(s: Sys)
    ensures Quietly(s, s)
  {
  }

  lemma StillSnapshot(s: Sys, t: Sys)
    requires Quietly(s, t) && HoldsSnapshot(s)
    ensures HoldsSnapshot(t)
  {
  }

  lemma DrainAndSettleQuietly(s: Sys)
    requires Window(s) && HoldsSnapshot(s)
    ensures Quietly(s, DrainAndSettle(s).s)
  {
    hide DrainAudit, SettlePending, Window, Quietly, HoldsSnapshot;
    DrainFacts(s);
    DrainQuietly(s);
    StillSnapshot(s, DrainAudit(s));
    SettleQuietly(DrainAudit(s));
    QuietlyThen(s, DrainAudit(s), DrainAndSettle(s).s);
  }

  // ---------------------------------------------------------------- marks and ends

  /** The tags of the marks of a log, in order. */
  function Tags(log: seq<Event>): seq<string> {
    if log == [] then []
    else
      var e := log[|log| - 1];
      Tags(log[..|log| - 1]) + if e.body.Mark? then [e.body.tag] else []
  }

  /** The reasons of the session ends of a log, in order. */
  function Reasons(log: seq<Event>): seq<string> {
    if log == [] then []
    else
      var e := log[|log| - 1];
      Reasons(log[..|log| - 1]) + if e.body.SessionEnd? then [e.body.reason] else []
  }

  lemma TagsAppend(log: seq<Event>, e: Event)
    ensures Tags(log + [e]) == Tags(log) + if e.body.Mark? then [e.body.tag] else []
    ensures Reasons(log + [e]) == Reasons(log) + if e.body.SessionEnd? then [e.body.reason] else []
  {
    assert (log + [e])[..|log|] == log;
  }

  lemma {:induction false} QuietTags(a: seq<Event>, b: seq<Event>)
    requires a <= b && forall i :: |a| <= i < |b| ==> FromSnapshot(b[i].body)
    ensures Tags(b) == Tags(a) && Reasons(b) == Reasons(a)
    decreases |b|
  {
    if |a| < |b| {
      var n := |b| - 1;
      assert FromSnapshot(b[n].body);
      QuietTags(a, b[..n]);
    } else {
      assert a == b;
    }
  }

  /** The end event a shutdown writes, if its sink accepts it. */
  ghost predicate EndAccepted(s: Sys, reason: string)
    requires Window(s)
  {
    DrainAndSettle(s).ok && EmitEnd(DrainAndSettle(s).s, reason).ok
  }

  lemma FlushTags(s: Sys)
    ensures Tags(FlushDurable(s).s.log) == Tags(s.log) && Reasons(FlushDurable(s).s.log) == Reasons(s.log)
    ensures FlushDurable(s).s.c.paused == s.c.paused
  {
    hide Tags, Reasons;
    TagsAppend(s.log, NewEvent(s, Flush(s.rec.op, s.c.seqNo)));
  }

  lemma SettledTags(s: Sys)
    requires Window(s) && HoldsSnapshot(s)
    ensures var t := DrainAndSettle(s).s;
            Tags(t.log) == Tags(s.log) && Reasons(t.log) == Reasons(s.log) && t.c.paused == s.c.paused
  {
    hide DrainAndSettle, Window, FromSnapshot;
    DrainAndSettleQuietly(s);
    QuietTags(s.log, DrainAndSettle(s).s.log);
  }

  /** What a command of a running session does to marks, ends and the paused flag: a mark command that
    * succeeds adds its mark, a shutdown whose end event is accepted adds that, and only pause and resume
    * change the flag. */
  lemma CommandWrites(s: Sys, command: Command)
    requires Window(s) && HoldsSnapshot(s) && s.running
    ensures var r := Exec(s, command);
            && Tags(r.s.log) == Tags(s.log) + (if command.MarkAs? && r.ok then [command.tag] else [])
            && Reasons(r.s.log)
               == Reasons(s.log) + (if command.Shutdown? && EndAccepted(s, command.reason) then [command.reason] else [])
            && r.s.c.paused == (if command.Pause? then true else if command.Resume? then false else s.c.paused)
            && r.s.running == !command.Shutdown?
            && (command.Shutdown? && r.ok ==> EndAccepted(s, command.reason))
  {
    hide DrainAudit, DrainAndSettle, SettlePending, TakeSnapshot, FlushDurable, Window, FromSnapshot, HoldsSnapshot, Tags, Reasons;
    assert Tags(s.log) + [] == Tags(s.log) && Reasons(s.log) + [] == Reasons(s.log);
    match command
    case Notify(_) =>
    case Pause =>
    case Snap =>
      TakeQuietly(s);
      QuietTags(s.log, TakeSnapshot(s).s.log);
    case Resume => ResumeWrites(s);
    case MarkAs(tag) =>
      SettledTags(s);
      DrainAndSettleQuietly(s);
      var t := DrainAndSettle(s).s;
      TagsAppend(t.log, NewEvent(t, Mark(tag, t.rec.op)));
    case FlushSession =>
      SettledTags(s);
      DrainAndSettleQuietly(s);
      FlushTags(DrainAndSettle(s).s);
      FlushRuns(DrainAndSettle(s).s);
    case Shutdown(reason) => ShutdownWrites(s, reason);
  }

  lemma FlushRuns(s: Sys)
    ensures FlushDurable(s).s.running == s.running
  {
  }

  lemma ResumeWrites(s: Sys)
    requires Window(s) && HoldsSnapshot(s)
    ensures var t := Exec(s, Resume).s;
            s.running ==> Tags(t.log) == Tags(s.log) && Reasons(t.log) == Reasons(s.log) && !t.c.paused && t.running
  {
    hide DrainAudit, SettlePending, Window, FromSnapshot, Tags, Reasons;
    DrainFacts(s);
    DrainQuietly(s);
    var d := DrainAudit(s);
    var u := d.(c := d.c.(paused := false));
    ResumedWindow(d);
    SettleQuietly(u);
    QuietTags(s.log, d.log);
    QuietTags(d.log, SettlePending(u).s.log);
  }

  lemma ResumedWindow(s: Sys)
    requires Window(s)
    ensures Window(s.(c := s.c.(paused := false)))
  {
  }

  lemma ShutdownWrites(s: Sys, reason: string)
    requires Window(s) && HoldsSnapshot(s) && s.running
    ensures var r := Exec(s, Shutdown(reason));
            && Tags(r.s.log) == Tags(s.log)
            && Reasons(r.s.log) == Reasons(s.log) + (if EndAccepted(s, reason) then [reason] else [])
            && r.s.c.paused == s.c.paused && !r.s.running && (r.ok ==> EndAccepted(s, reason))
  {
    hide DrainAndSettle, FlushDurable, Window, FromSnapshot, HoldsSnapshot, Tags, Reasons;
    SettledTags(s);
    var t := DrainAndSettle(s).s;
    TagsAppend(t.log, NewEvent(t, SessionEnd(t.rec.op, reason, t.c.snapshots, t.c.seqNo)));
    FlushTags(EmitEnd(t, reason).s);
  }

  // ---------------------------------------------------------------- whole sessions

  /** What the commands so far have written: the tags of the marks that were answered with success, the
    * reasons of accepted ends, whether watching is paused, and whether the session still runs. */
  datatype Written = Written(tags: seq<string>, reasons: seq<string>, paused: bool, running: bool)

  ghost function NextWritten(w: Written, s: Sys, command: Command): Written
    requires Window(s)
  {
    if !w.running then w
    else
      match command
      case MarkAs(tag) => if Exec(s, command).ok then w.(tags := w.tags + [tag]) else w
      case Shutdown(reason) =>
        if EndAccepted(s, reason) then w.(reasons := w.reasons + [reason], running := false) else w.(running := false)
      case Pause => w.(paused := true)
      case Resume => w.(paused := false)
      case _ => w
  }

  ghost function WrittenBy(session: string, maxChanges: nat, env: Env, commands: seq<Command>): Written
    requires Initialize(session, maxChanges, env).ok
  {
    if commands == [] then Written([], [], false, true)
    else
      var init := commands[..|commands| - 1];
      NextWritten(WrittenBy(session, maxChanges, env, init), Run(session, maxChanges, env, init),
                  commands[|commands| - 1])
  }

  lemma HoldsOnlySnapshots(s: Sys)
    requires ChainInv(s)
    ensures HoldsSnapshot(s)
  {
  }

  /** In every session the marks of the log carry the tags of exactly the mark commands that succeeded, in
    * order; the session ends, of which there is at most one, carry the reason of the shutdown that wrote it;
    * and watching is paused exactly between a pause and the next resume. */
  lemma {:induction false} CommandsWrite(session: string, maxChanges: nat, env: Env, commands: seq<Command>)
    requires Initialize(session, maxChanges, env).ok
    ensures var s := Run(session, maxChanges, env, commands);
            var w := WrittenBy(session, maxChanges, env, commands);
            && Tags(s.log) == w.tags && Reasons(s.log) == w.reasons
            && s.c.paused == w.paused && s.running == w.running
            && |w.reasons| <= (if w.running then 0 else 1)
  {
    hide Initialize, Exec, Tags, Reasons, Window, ChainInv, DebtInv, WindowsInv, MarksInv, EndAccepted, HoldsSnapshot;
    if commands == [] {
      FirstWritten(session, maxChanges, env);
    } else {
      var init, command := commands[..|commands| - 1], commands[|commands| - 1];
      CommandsWrite(session, maxChanges, env, init);
      RunInv(session, maxChanges, env, init);
      var s := Run(session, maxChanges, env, init);
      HoldsOnlySnapshots(s);
      assert Run(session, maxChanges, env, commands) == Exec(s, command).s;
      if s.running {
        CommandWrites(s, command);
      } else {
        NothingAnswers(s, command);
      }
    }
  }

  lemma NothingAnswers(s: Sys, command: Command)
    requires Window(s) && !s.running
    ensures Exec(s, command) == Outcome(s, false)
  {
  }

  lemma FirstWritten(session: string, maxChanges: nat, env: Env)
    requires Initialize(session, maxChanges, env).ok
    ensures var s := Run(session, maxChanges, env, []);
            Tags(s.log) == [] && Reasons(s.log) == [] && !s.c.paused && s.running
  {
    hide Initialize;
    InitialShape(session, maxChanges, env);
    InitialRuns(session, maxChanges, env);
    var s := Initialize(session, maxChanges, env).s;
    TagsAppend([], s.log[0]);
    assert [] + [s.log[0]] == s.log;
  }

  lemma InitialRuns(session: string, maxChanges: nat, env: Env)
    requires Initialize(session, maxChanges, env).ok
    ensures Initialize(session, maxChanges, env).s.running
  {
    hide SnapshotOf, Captured;
  }

  // ---------------------------------------------------------------- resume

  lemma ResumeOutcome(s: Sys)
    requires Window(s) && s.running && Exec(s, Resume).ok
    ensures !Exec(s, Resume).s.c.pending && Window(Exec(s, Resume).s)
  {
    hide DrainAudit, SettlePending, Window;
    DrainFacts(s);
    ResumedWindow(DrainAudit(s));
    SettleWindow(DrainAudit(s).(c := DrainAudit(s).c.(paused := false)));
  }

  /** Everything that was drained has been reported, announced and captured. */
  ghost predicate Settled(s: Sys) {
    && !s.c.pending && s.c.touched == map[] && s.c.startedAt.None? && s.c.overflows == []
    && AllEmpty(TallyOf(s.trace).batches)
    && LedgerOf(s.trace).reported == LedgerOf(s.trace).announced && !LedgerOf(s.trace).due
    && (forall i, j :: 0 <= i < j < |s.trace| && ArrivedThenDrained(s.trace, i, j)
                       ==> exists m :: i < m < |s.trace| && s.trace[m].Recorded?)
  }

  /** When nothing is pending, everything drained is settled. */
  lemma NothingPending(s: Sys)
    requires Inv(s) && NoticesInv(s) && !s.c.pending
    ensures Settled(s)
  {
    hide ChainInv, DebtInv, LedgerOf, TallyOf, UnseenOf, WindowsExact, AllAgree, PostsTimely, TableOf, Merge, TurnedAway,
      Limited, NotifiedAll, AllTouches, AllEmpty, Rep, Effective;
    WindowIsEmpty(s);
    var l := LedgerOf(s.trace);
    assert l.announced + [] == l.announced;
    EmptyTable(TallyOf(s.trace).batches);
    forall i, j | 0 <= i < j < |s.trace| && ArrivedThenDrained(s.trace, i, j)
      ensures exists m :: i < m < |s.trace| && s.trace[m].Recorded?
    {
      SeenMeans(s.trace, i, j);
    }
  }

  lemma WindowIsEmpty(s: Sys)
    requires Window(s) && !s.c.pending
    ensures s.c.touched == map[] && s.c.startedAt.None? && s.c.overflows == []
  {
    hide Rep;
  }

  /** A resume that succeeds leaves nothing pending: the window and the queue are empty, everything drained has
    * been reported, announced and followed by a capture, and watching is no longer paused.  It does succeed
    * from any running state whose held event is in step when nothing fails. */
  lemma ResumeSettles(session: string, maxChanges: nat, env: Env, commands: seq<Command>)
    requires Initialize(session, maxChanges, env).ok && Run(session, maxChanges, env, commands).running
    ensures var s := Run(session, maxChanges, env, commands);
            var r := Exec(s, Resume);
            && (r.ok ==> Settled(r.s))
            && !r.s.c.paused
            && (Accepting(s) && HeldCurrent(s) ==> r.ok)
  {
    hide Run, Initialize, Exec, Window, ChainInv, DebtInv, WindowsInv, MarksInv, Settled, NoticesInv, Accepting, HeldCurrent,
      HoldsSnapshot, Tags, Reasons;
    var s := Run(session, maxChanges, env, commands);
    RunInv(session, maxChanges, env, commands);
    RunStep(session, maxChanges, env, commands, Resume);
    RunInv(session, maxChanges, env, commands + [Resume]);
    RunNotices(session, maxChanges, env, commands + [Resume]);
    HoldsOnlySnapshots(s);
    CommandWrites(s, Resume);
    if Exec(s, Resume).ok {
      ResumeOutcome(s);
      NothingPending(Exec(s, Resume).s);
    }
    if Accepting(s) && HeldCurrent(s) {
      AcceptingAnswers(s, Resume);
    }
  }

  // ---------------------------------------------------------------- shutdown

  /** Once a shutdown has been executed the session is over: no later command succeeds or changes anything. */
  lemma {:induction false} ShutdownIsFinal(session: string, maxChanges: nat, env: Env, commands: seq<Command>, k: nat,
                                           n: nat)
    requires Initialize(session, maxChanges, env).ok && k < n <= |commands| && commands[k].Shutdown?
    ensures var s := Run(session, maxChanges, env, commands[..n]);
            && !s.running && s == Run(session, maxChanges, env, commands[..k + 1])
            && forall command :: Exec(s, command) == Outcome(s, false)
    decreases n
  {
    hide Run, Initialize, Exec, Window, HoldsSnapshot, Inv, Tags, Reasons;
    var init := commands[..n - 1];
    assert commands[..n] == init + [commands[n - 1]];
    var s := Run(session, maxChanges, env, init);
    RunStep(session, maxChanges, env, init, commands[n - 1]);
    if n == k + 1 {
      RunInv(session, maxChanges, env, init);
      StopsHere(s, commands[k].reason);
    } else {
      ShutdownIsFinal(session, maxChanges, env, commands, k, n - 1);
    }
    var t := Run(session, maxChanges, env, commands[..n]);
    forall command ensures Exec(t, command) == Outcome(t, false) {
      NothingAnswers(t, command);
    }
  }

  lemma StopsHere(s: Sys, reason: string)
    requires Window(s)
    ensures !Exec(s, Shutdown(reason)).s.running
  {
    hide Finish;
  }
}
