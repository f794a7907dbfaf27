/** Which contents of the watched tree the snapshots of a session record, and when they were read. */
module Readings {
  import opened Schema
  import opened Audit
  import opened Recorder
  import opened Coordination
  import opened Moves
  import opened Chain
  import opened OverflowObligation
  import opened Windows
  import opened Marks
  import opened Sessions
  import opened History

  // ---------------------------------------------------------------- times in a trace

  /** The clock at an arrival, or when a capture read the watched tree. */
  function TimeOf(x: Step): Option<nat> {
    match x
    case Arrived(_, time) => Some(time)
    case Recorded(_, _, time) => Some(time)
    case _ => None
  }

  /** Time does not run backwards along the trace, and it passes at every capture. */
  ghost predicate Timed(trace: seq<Step>, clock: nat) {
    && (forall i :: 0 <= i < |trace| && TimeOf(trace[i]).Some? ==>
          TimeOf(trace[i]).value <= clock && (trace[i].Recorded? ==> TimeOf(trace[i]).value < clock))
    && (forall i, j :: 0 <= i < j < |trace| && TimeOf(trace[i]).Some? && TimeOf(trace[j]).Some? ==>
          && TimeOf(trace[i]).value <= TimeOf(trace[j]).value
          && (trace[i].Recorded? ==> TimeOf(trace[i]).value < TimeOf(trace[j]).value))
  }

  /** Every capture recorded what was on disk when it read the watched tree. */
  ghost predicate ReadFrom(trace: seq<Step>, disk: nat -> Tree) {
    forall k :: 0 <= k < |trace| && trace[k].Recorded? ==> TreeOf(trace[k].op) == disk(trace[k].time)
  }

  ghost predicate ReadingsInv(s: Sys, disk: nat -> Tree) {
    s.env.disk == disk && Timed(s.trace, s.env.clock) && ReadFrom(s.trace, disk)
  }

  lemma TimedAppend(trace: seq<Step>, x: Step, clock: nat, later: nat)
    requires Timed(trace, clock) && clock <= later
    requires TimeOf(x).Some? ==> TimeOf(x).value == clock && (x.Recorded? ==> clock < later)
    ensures Timed(trace + [x], later)
  {
    hide TimeOf;
    var t := trace + [x];
    assert t[|trace|] == x;
    assert forall i :: 0 <= i < |trace| ==> t[i] == trace[i];
  }

  lemma ReadAppend(trace: seq<Step>, x: Step, disk: nat -> Tree)
    requires ReadFrom(trace, disk) && (x.Recorded? ==> TreeOf(x.op) == disk(x.time))
    ensures ReadFrom(trace + [x], disk)
  {
    hide TreeOf;
    var t := trace + [x];
    assert forall i :: 0 <= i < |trace| ==> t[i] == trace[i];
  }

  lemma LaterTimed(trace: seq<Step>, clock: nat, later: nat)
    requires Timed(trace, clock) && clock <= later
    ensures Timed(trace, later)
  {
    hide TimeOf;
  }

  /** A step that reads nothing. */
  lemma QuietReadings(s: Sys, t: Sys, x: Step, disk: nat -> Tree)
    requires ReadingsInv(s, disk) && t.trace == s.trace + [x] && t.env == s.env && !x.Recorded?
    requires TimeOf(x).Some? ==> TimeOf(x).value == s.env.clock
    ensures ReadingsInv(t, disk)
  {
    hide Timed, ReadFrom, TimeOf;
    TimedAppend(s.trace, x, s.env.clock, s.env.clock);
    ReadAppend(s.trace, x, disk);
  }

  lemma MoveReadings(s: Sys, m: Move, disk: nat -> Tree)
    requires ReadingsInv(s, disk) && Enabled(s, m)
    ensures ReadingsInv(Do(s, m), disk)
  {
    hide ReadingsInv, Timed, ReadFrom, Project, Merged, Notified;
    var t := Do(s, m);
    match m
    case EnvMove(env) => EnvReadings(s, t, disk);
    case ArriveMove(n) => QuietReadings(s, t, Arrived(n, s.env.clock), disk);
    case DrainMove => QuietReadings(s, t, Drained, disk);
    case OverflowMove =>
      var n := s.c.overflows[0];
      QuietReadings(s, t, Accepted(NewEvent(s, Overflow(n.source, n.rawEvents)), Some(n.origin)), disk);
    case AuditMove =>
      QuietReadings(s, t, Accepted(NewEvent(s, TouchedPaths(s.c.touched, s.c.rawEvents, s.c.startedAt.value)), None), disk);
    case CaptureMove(tree) => CaptureReadings(s, tree, disk);
    case RetryMove => QuietReadings(s, t, Accepted(s.c.held.value, None), disk);
    case PreparedMove => QuietReadings(s, t, Accepted(s.c.held.value, None), disk);
    case PostMove(body) => QuietReadings(s, t, Accepted(NewEvent(s, body), None), disk);
    case RequestMove(done) =>
      QuietReadings(s, t, Requested(FlushRequest(s.c.seqNo - 1, s.rec.op, s.rec.commit), done), disk);
    case _ => EnvReadings(s, t, disk);
  }

  lemma EnvReadings(s: Sys, t: Sys, disk: nat -> Tree)
    requires ReadingsInv(s, disk) && t.trace == s.trace
    requires t.env.disk == s.env.disk && s.env.clock <= t.env.clock
    ensures ReadingsInv(t, disk)
  {
    hide Timed, ReadFrom;
    LaterTimed(s.trace, s.env.clock, t.env.clock);
  }

  lemma CaptureReadings(s: Sys, tree: Tree, disk: nat -> Tree)
    requires ReadingsInv(s, disk) && Enabled(s, CaptureMove(tree))
    ensures ReadingsInv(Do(s, CaptureMove(tree)), disk)
  {
    hide Timed, ReadFrom, Project;
    var x := Recorded(SnapshotOf(s.rec, tree, s.c.maxChanges).op, s.c.forceFull, s.env.clock);
    TimedAppend(s.trace, x, s.env.clock, s.env.clock + 1);
    ReadAppend(s.trace, x, disk);
  }

  lemma {:induction false} LeadsReadings(careful: bool, s: Sys, ms: seq<Move>, t: Sys, disk: nat -> Tree)
    requires ReadingsInv(s, disk) && Leads(careful, s, ms, t)
    ensures ReadingsInv(t, disk)
    decreases ms
  {
    hide Enabled, Do, ReadingsInv;
    if ms != [] {
      MoveReadings(s, ms[0], disk);
      LeadsReadings(careful, Do(s, ms[0]), ms[1..], t, disk);
    }
  }

  lemma InitialReadings(session: string, maxChanges: nat, env: Env)
    requires Initialize(session, maxChanges, env).ok
    ensures ReadingsInv(Initialize(session, maxChanges, env).s, env.disk)
  {
    hide Initialize;
    InitialShape(session, maxChanges, env);
    var s := Initialize(session, maxChanges, env).s;
    var x0, x1 := s.trace[0], s.trace[1];
    assert s.trace == [x0] + [x1] && [] + [x0] == [x0];
    TimedAppend([], x0, env.clock, env.clock + 1);
    TimedAppend([x0], x1, env.clock + 1, env.clock + 2);
  }

  lemma {:induction false} RunReadings(session: string, maxChanges: nat, env: Env, commands: seq<Command>)
    requires Initialize(session, maxChanges, env).ok
    ensures ReadingsInv(Run(session, maxChanges, env, commands), env.disk)
  {
    hide ReadingsInv, Initialize, Exec, Leads, Window;
    if commands == [] {
      InitialReadings(session, maxChanges, env);
    } else {
      var init, command := commands[..|commands| - 1], commands[|commands| - 1];
      RunReadings(session, maxChanges, env, init);
      var s := Run(session, maxChanges, env, init);
      var ms := ExecMoves(false, s, command);
      LeadsReadings(false, s, ms, Exec(s, command).s, env.disk);
    }
  }

  // ---------------------------------------------------------------- the snapshots of a session

  /** When the captures of a trace read the watched tree, in order. */
  function ReadTimes(trace: seq<Step>): seq<nat> {
    if trace == [] then []
    else
      var x := trace[|trace| - 1];
      ReadTimes(trace[..|trace| - 1]) + if x.Recorded? then [x.time] else []
  }

  /** The trees of the snapshot events of the log, in order. */
  function SnapshotTrees(log: seq<Event>): seq<Tree> {
    if log == [] then []
    else
      var e := log[|log| - 1];
      SnapshotTrees(log[..|log| - 1]) + if e.body.SnapshotTaken? then [e.body.snapshot.tree] else []
  }

  /** The tree of the held snapshot event. */
  function HeldTrees(c: Coord): seq<Tree> {
    if c.held.Some? && c.held.value.body.SnapshotTaken? then [c.held.value.body.snapshot.tree] else []
  }

  function TreesOf(ops: seq<Operation>): (r: seq<Tree>)
    ensures |r| == |ops| && forall i :: 0 <= i < |ops| ==> r[i] == TreeOf(ops[i])
  {
    seq(|ops|, i requires 0 <= i < |ops| => TreeOf(ops[i]))
  }

  lemma {:induction false} TimesAre(trace: seq<Step>, disk: nat -> Tree, clock: nat)
    requires ReadFrom(trace, disk) && Timed(trace, clock)
    ensures |ReadTimes(trace)| == |RecordedOps(trace)|
    ensures forall i :: 0 <= i < |RecordedOps(trace)| ==> TreeOf(RecordedOps(trace)[i]) == disk(ReadTimes(trace)[i])
    ensures forall i :: 0 <= i < |ReadTimes(trace)| ==>
              exists k :: 0 <= k < |trace| && trace[k].Recorded? && trace[k].time == ReadTimes(trace)[i]
    ensures forall i, j :: 0 <= i < j < |ReadTimes(trace)| ==> ReadTimes(trace)[i] < ReadTimes(trace)[j]
  {
    hide TreeOf;
    if trace != [] {
      var n := |trace| - 1;
      var init := trace[..n];
      assert forall k :: 0 <= k < n ==> init[k] == trace[k];
      TimesAre(init, disk, clock);
      var r := ReadTimes(init);
      forall i | 0 <= i < |r| && trace[n].Recorded? ensures r[i] < trace[n].time {
        var k :| 0 <= k < n && init[k].Recorded? && init[k].time == r[i];
        assert TimeOf(trace[k]).value < TimeOf(trace[n]).value;
      }
      forall i | 0 <= i < |ReadTimes(trace)|
        ensures exists k :: 0 <= k < |trace| && trace[k].Recorded? && trace[k].time == ReadTimes(trace)[i]
      {
        if i < |r| {
          var k :| 0 <= k < n && init[k].Recorded? && init[k].time == r[i];
          assert trace[k].Recorded? && trace[k].time == ReadTimes(trace)[i];
        } else {
          assert trace[n].Recorded? && trace[n].time == ReadTimes(trace)[i];
        }
      }
    }
  }

  lemma {:induction false} TreesAre(log: seq<Event>, maxChanges: nat)
    requires Begins(log) && Chained(log, maxChanges)
    ensures SnapshotTrees(log) == TreesOf(SnapshotOps(log))
  {
    hide Chained, TreeOf, TreesOf, Begins;
    var n := |log| - 1;
    BeginsWith(log);
    if n == 0 {
      assert log[..0] == [];
      assert SnapshotOps([]) == [] && SnapshotTrees([]) == [];
      assert TreesOf([]) == [];
    } else {
      PrefixChained(log, maxChanges, n);
      TreesAre(log[..n], maxChanges);
      TreesAppend(SnapshotOps(log[..n]));
      if log[n].body.SnapshotTaken? {
        LoggedTree(log, maxChanges, n);
      }
    }
  }

  lemma BeginsWith(log: seq<Event>)
    requires Begins(log)
    ensures log != [] && log[0].body.SessionStart?
  {
  }

  lemma TreesAppend(ops: seq<Operation>)
    ensures forall op :: TreesOf(ops + [op]) == TreesOf(ops) + [TreeOf(op)]
    ensures TreesOf(ops + []) == TreesOf(ops)
  {
    assert ops + [] == ops;
  }

  lemma LoggedTree(log: seq<Event>, maxChanges: nat, k: nat)
    requires Chained(log, maxChanges) && k < |log| && log[k].body.SnapshotTaken?
    ensures TreeOf(log[k].body.snapshot.op) == log[k].body.snapshot.tree
  {
    hide Project, LatestOp;
    assert Linked(LatestOp(log[..k]), log[k].body.snapshot, maxChanges);
  }

  lemma HeldTreeIs(s: Sys)
    requires ChainInv(s)
    ensures HeldTrees(s.c) == TreesOf(HeldOps(s.c))
    ensures s.log != [] && s.log[0].body.SessionStart? && TreeOf(s.log[0].body.baselineOp) == s.log[0].body.baselineTree
  {
    hide Project, LatestOp;
  }

  /** Every snapshot of every session, accepted or held, records exactly what was in the watched tree at the
    * moment its own capture read it, and so does the baseline; these moments are those of the captures in the
    * trace, and each is later than the one before. */
  lemma SnapshotsReadTheDisk(session: string, maxChanges: nat, env: Env, commands: seq<Command>)
    requires Initialize(session, maxChanges, env).ok
    ensures var s := Run(session, maxChanges, env, commands);
            var times := ReadTimes(s.trace);
            && s.log != [] && s.log[0].body.SessionStart?
            && var trees := [s.log[0].body.baselineTree] + SnapshotTrees(s.log) + HeldTrees(s.c);
            && |times| == |trees|
            && (forall i :: 0 <= i < |trees| ==> trees[i] == env.disk(times[i]))
            && (forall i, j :: 0 <= i < j < |times| ==> times[i] < times[j])
  {
    hide Run, Initialize, TreeOf, Timed, ReadFrom, Begins, Chained, Contiguous, OneSession, RecordedOps, SnapshotOps,
      SnapshotTrees, HeldTrees, HeldOps, Window, ChainInv, DebtInv, WindowsInv, MarksInv;
    var s := Run(session, maxChanges, env, commands);
    RunReadings(session, maxChanges, env, commands);
    RunInv(session, maxChanges, env, commands);
    EventStream(session, maxChanges, env, commands);
    CapturedExactlyOnce(session, maxChanges, env, commands);
    TimesAre(s.trace, env.disk, s.env.clock);
    TreesAre(s.log, maxChanges);
    HeldTreeIs(s);
    var ops := RecordedOps(s.trace);
    assert TreesOf(ops) == [s.log[0].body.baselineTree] + SnapshotTrees(s.log) + HeldTrees(s.c);
  }
}
