/** The coordinator as the source has it: objects whose fields the methods update.
  *
  * Each method is proved to take the whole system state where the specification function of the same
  * name in `Coordination` takes it, so everything proved about those functions holds of these methods.
  */
module CoordinatorObjects {
  import opened Schema
  import opened Audit
  import opened Recorder
  import opened Coordination
  import opened Accumulator

  /** Outcomes, tree contents and notifications supplied from outside. */
  class World {
    const fate: nat -> bool
    const disk: nat -> Tree
    var script: seq<seq<Notification>>
    var clock: nat

    constructor (fate: nat -> bool, disk: nat -> Tree, script: seq<seq<Notification>>, clock: nat)
      ensures this.fate == fate && this.disk == disk && this.script == script && this.clock == clock
    {
      this.fate, this.disk, this.script, this.clock := fate, disk, script, clock;
    }

    ghost function View(): Env
      reads this
    {
      Env(script, fate, disk, clock)
    }

    /** The outcome of the next attempted operation. */
    method Attempt() returns (ok: bool)
      modifies this`clock
      ensures ok == fate(old(clock)) && clock == old(clock) + 1
    {
      ok := fate(clock);
      clock := clock + 1;
    }

    method Arrivals() returns (ns: seq<Notification>)
      modifies this`script
      ensures ns == NextArrivals(old(View()))
      ensures script == if old(script) == [] then [] else old(script)[1..]
    {
      if script == [] {
        ns := [];
      } else {
        ns, script := script[0], script[1..];
      }
    }
  }

  /** The sink's acceptance boundary: an emit either appends the event or changes nothing. */
  class EventSink {
    var accepted: seq<Event>

    constructor ()
      ensures accepted == []
    {
      accepted := [];
    }

    method Emit(e: Event, world: World) returns (ok: bool)
      modifies this, world`clock
      ensures ok == world.fate(old(world.clock)) && world.clock == old(world.clock) + 1
      ensures accepted == if ok then old(accepted) + [e] else old(accepted)
    {
      ok := world.Attempt();
      if ok {
        accepted := accepted + [e];
      }
    }
  }

  class JjRecorder {
    var op: Operation
    var previousCommit: Option<Commit>
    var previousTree: Tree

    constructor ()
      ensures View() == FRESH_RECORDER
    {
      op, previousCommit, previousTree := RootOperation, None, map[];
    }

    ghost function View(): RecorderState
      reads this
    {
      RecorderState(op, previousCommit, previousTree)
    }

    /** The steps of the source's capture once the tree has been read. */
    method Capture(tree: Tree, maxChanges: nat) returns (snapshot: Snapshot)
      modifies this
      ensures snapshot == SnapshotOf(old(View()), tree, maxChanges)
      ensures View() == Captured(old(View()), tree, maxChanges)
    {
      var changes, stats, truncated := ProjectDiff(previousTree, tree, maxChanges);
      var parentOp := op;
      var parentCommit := match previousCommit case Some(c) => c case None => RootCommit;
      var commit := Commit(parentCommit, tree);
      op := Operation(parentOp, commit);
      snapshot := Snapshot(op, parentOp, commit, tree, changes, stats, truncated);
      previousTree := tree;
      previousCommit := Some(commit);
    }
  }

  class Coordinator {
    const session: string
    const maxChanges: nat
    const audit: AuditAccumulator
    const recorder: JjRecorder
    const sink: EventSink
    const world: World
    var seqNo: nat
    var snapshots: nat
    var touched: PathOps
    var rawEvents: nat
    var startedAt: Option<nat>
    var pending: bool
    var forceFull: bool
    var paused: bool
    var held: Option<Event>
    var overflows: seq<Notice>
    var pathLimitReported: bool
    var running: bool
    ghost var trace: seq<Step>

    ghost function Fields(): Coord
      reads this
    {
      Coord(session, maxChanges, seqNo, snapshots, touched, rawEvents, startedAt, pending, forceFull, paused, held,
            overflows, pathLimitReported)
    }

    /** The whole system state. */
    ghost function View(): Sys
      reads this, audit, recorder, sink, world
    {
      Sys(Fields(), audit.State(), recorder.View(), sink.accepted, trace, world.View(), running)
    }

    constructor (session: string, maxChanges: nat, audit: AuditAccumulator, recorder: JjRecorder, sink: EventSink,
                 world: World)
      ensures this.session == session && this.maxChanges == maxChanges
      ensures this.audit == audit && this.recorder == recorder && this.sink == sink && this.world == world
      ensures Fields() == Coord(session, maxChanges, 0, 0, map[], 0, None, false, false, false, None, [], false)
      ensures trace == [] && running
    {
      this.session, this.maxChanges := session, maxChanges;
      this.audit, this.recorder, this.sink, this.world := audit, recorder, sink, world;
      seqNo, snapshots, touched, rawEvents, startedAt := 0, 0, map[], 0, None;
      pending, forceFull, paused, held, overflows := false, false, false, None, [];
      pathLimitReported, running, trace := false, true, [];
    }

    /** The baseline capture and the session-start event. */
    method Baseline() returns (ok: bool)
      modifies this`seqNo, this`trace, recorder, sink, world`clock
      ensures Outcome(View(), ok) == Coordination.Baseline(old(View()))
    {
      hide SnapshotOf, Captured, Accept;
      var at := world.clock;
      ok := world.Attempt();
      if ok {
        var baseline := recorder.Capture(world.disk(at), maxChanges);
        trace := trace + [Recorded(baseline.op, true, at)];
        ok := Emit(SessionStart(baseline.op, baseline.tree), None);
      }
    }

    /** A watcher callback. */
    method Deliver(n: Notification)
      modifies this`trace, audit
      ensures View() == Arrive(old(View()), n)
    {
      match n {
        case Observed(ts, raw, at) => audit.Observe(ts, raw, at);
        case Lost(source, raw, at) => audit.ReportOverflow(source, raw, at);
      }
      trace := trace + [Arrived(n, world.clock)];
    }

    method DeliverArrivals()
      modifies this`trace, audit, world`script
      ensures View() == BeforeDrain(old(View()))
    {
      var ns := world.Arrivals();
      ghost var s0 := View();
      var i := 0;
      while i < |ns|
        invariant i <= |ns|
        invariant View() == ArriveAll(s0, ns[..i])
      {
        assert ns[..i + 1][..i] == ns[..i];
        Deliver(ns[i]);
        i := i + 1;
      }
      assert ns[..i] == ns;
    }

    method MergeInOrder(batch: AuditBatch, order: seq<Path>)
      requires forall p :: p in order ==> p in batch.paths
      modifies this
      ensures Fields() == MergePaths(old(Fields()), batch, order)
      ensures trace == old(trace) && running == old(running)
    {
      hide MergePath;
      var i := 0;
      while i < |order|
        invariant i <= |order|
        invariant Fields() == MergePaths(old(Fields()), batch, order[..i])
        invariant trace == old(trace) && running == old(running)
      {
        assert order[..i + 1][..i] == order[..i];
        MergeOne(batch, order[i]);
        i := i + 1;
      }
      assert order[..i] == order;
    }

    method Total(batch: AuditBatch)
      modifies this
      ensures Fields() == Totalled(old(Fields()), batch)
      ensures trace == old(trace) && running == old(running)
    {
      hide SaturatingAdd;
      rawEvents := SaturatingAdd(rawEvents, batch.rawEvents);
      if batch.overflows != [] {
        overflows := overflows + batch.overflows;
        forceFull := true;
      }
      if touched != map[] || overflows != [] {
        pending := true;
      }
    }

    method MergeBatch(batch: AuditBatch)
      modifies this
      ensures Fields() == Merged(old(Fields()), batch)
      ensures trace == old(trace) && running == old(running)
    {
      hide MergePaths, Sorted, Totalled;
      if startedAt.None? {
        startedAt := batch.startedAt;
      }
      var order := Sorted(batch.paths.Keys);
      SortedElementsIn(batch.paths);
      MergeInOrder(batch, order);
      Total(batch);
    }

    method MergeOne(batch: AuditBatch, p: Path)
      requires p in batch.paths
      modifies this
      ensures Fields() == MergePath(old(Fields()), batch, p)
      ensures trace == old(trace) && running == old(running)
    {
      if p in touched {
        touched := touched[p := touched[p] + batch.paths[p]];
      } else if |touched| < MAX_AUDIT_PATHS {
        touched := touched[p := batch.paths[p]];
      } else if !pathLimitReported {
        pathLimitReported := true;
        overflows := overflows
        + [Notice(PATH_LIMIT_SOURCE, SaturatingAdd(rawEvents, batch.rawEvents), FromCoordinator)];
      }
    }

    method DrainAudit()
      modifies this, audit, world`script
      ensures View() == Coordination.DrainAudit(old(View()))
    {
      hide Merged, ArriveAll;
      DeliverArrivals();
      var batch := audit.Drain();
      MergeBatch(batch);
      trace := trace + [Drained];
    }

    method EmitExact(e: Event, ghost origin: Option<Origin>) returns (ok: bool)
      modifies this`seqNo, this`trace, sink, world`clock
      ensures Outcome(View(), ok) == Accept(old(View()), e, origin)
    {
      if e.seqNo != seqNo {
        return false;
      }
      ok := sink.Emit(e, world);
      if ok {
        trace := trace + [Accepted(e, origin)];
        seqNo := seqNo + 1;
      }
    }

    method Emit(body: EventBody, ghost origin: Option<Origin>) returns (ok: bool)
      modifies this`seqNo, this`trace, sink, world`clock
      ensures Outcome(View(), ok) == Accept(old(View()), NewEvent(old(View()), body), origin)
    {
      ok := EmitExact(Event(SCHEMA_VERSION, seqNo, session, body), origin);
    }

    method EmitOverflows() returns (ok: bool)
      modifies this, sink, world`clock
      ensures Outcome(View(), ok) == Coordination.EmitOverflows(old(View()))
    {
      while overflows != []
        invariant Coordination.EmitOverflows(View()) == Coordination.EmitOverflows(old(View()))
        decreases |overflows|
      {
        ghost var s := View();
        var notice := overflows[0];
        ok := Emit(Overflow(notice.source, notice.rawEvents), Some(notice.origin));
        if !ok {
          return;
        }
        overflows := overflows[1..];
        assert Outcome(View(), true) == EmitFirstOverflow(s);
      }
      ok := true;
    }

    method EmitAudit() returns (ok: bool)
      modifies this, sink, world`clock
      ensures Outcome(View(), ok) == Coordination.EmitAudit(old(View()))
    {
      hide Accept;
      if startedAt.None? {
        return true;
      }
      ok := Emit(TouchedPaths(touched, rawEvents, startedAt.value), None);
      if ok {
        CloseWindow();
      }
    }

    method CloseWindow()
      modifies this`touched, this`rawEvents, this`startedAt, this`pathLimitReported
      ensures View() == old(View()).(c := old(Fields()).(touched := map[], rawEvents := 0, startedAt := None,
                                                         pathLimitReported := false))
    {
      touched, rawEvents, startedAt, pathLimitReported := map[], 0, None, false;
    }

    /** Forgets the held event once it has been accepted. */
    method Release(pending: bool, forceFull: bool)
      modifies this`held, this`pending, this`forceFull, this`snapshots
      ensures View() == old(View()).(c := old(Fields()).(held := None, pending := pending, forceFull := forceFull,
                                                         snapshots := old(snapshots) + 1))
    {
      this.held, this.pending, this.forceFull, snapshots := None, pending, forceFull, snapshots + 1;
    }

    method CaptureAndHold() returns (ok: bool)
      modifies this, recorder, world`clock
      ensures Outcome(View(), ok) == Coordination.CaptureAndHold(old(View()))
    {
      hide SnapshotOf, Captured;
      var at := world.clock;
      ok := world.Attempt();
      if ok {
        var snapshot := recorder.Capture(world.disk(at), maxChanges);
        trace := trace + [Recorded(snapshot.op, forceFull, at)];
        held := Some(Event(SCHEMA_VERSION, seqNo, session, SnapshotTaken(snapshot)));
      }
    }

    method EmitHeld() returns (ok: bool)
      requires held.Some?
      modifies this, sink, world`clock
      ensures Outcome(View(), ok) == Coordination.EmitHeld(old(View()))
    {
      hide Accept;
      ok := EmitExact(held.value, None);
      if ok {
        Release(startedAt.Some? || overflows != [], overflows != []);
      }
    }

    method EmitPrepared() returns (ok: bool)
      requires held.Some?
      modifies this, sink, world`clock
      ensures Outcome(View(), ok) == Coordination.EmitPrepared(old(View()))
    {
      hide Accept;
      ok := EmitExact(held.value, None);
      if ok {
        Release(false, false);
      }
    }

    method TakeSnapshot() returns (ok: bool)
      modifies this, audit, recorder, sink, world
      ensures Outcome(View(), ok) == Coordination.TakeSnapshot(old(View()))
    {
      hide Coordination.DrainAudit, Coordination.EmitOverflows, Coordination.EmitAudit, Coordination.CaptureAndHold,
        Coordination.EmitHeld, Coordination.EmitPrepared;
      if held.Some? {
        ok := EmitHeld();
        return;
      }
      DrainAudit();
      ok := EmitOverflows();
      if !ok {
        return;
      }
      ok := EmitAudit();
      if !ok {
        return;
      }
      CaptureFacts(View());
      ok := CaptureAndHold();
      if !ok {
        return;
      }
      ok := EmitPrepared();
    }

    method SettlePending() returns (ok: bool)
      requires Window(View())
      modifies this, audit, recorder, sink, world
      ensures Outcome(View(), ok) == Coordination.SettlePending(old(View()))
    {
      hide Coordination.DrainAudit, Coordination.TakeSnapshot, Window;
      while pending
        invariant Window(View())
        invariant Coordination.SettlePending(View()) == Coordination.SettlePending(old(View()))
        decreases |world.script|, if held.Some? then 1 else 0, if pending then 1 else 0
      {
        ghost var s := View();
        SnapshotFacts(s);
        ok := TakeSnapshot();
        if !ok {
          return;
        }
        ghost var t := View();
        DrainFacts(t);
        DrainAudit();
        RoundEnds(s);
      }
      ok := true;
    }

    method Mark(tag: string) returns (ok: bool)
      requires Window(View())
      modifies this, audit, recorder, sink, world
      ensures Outcome(View(), ok) == MarkNow(old(View()), tag)
    {
      hide Coordination.DrainAudit, Coordination.SettlePending, Window;
      ghost var s := View();
      DrainFacts(s);
      DrainAudit();
      ok := SettlePending();
      if ok {
        ok := Emit(EventBody.Mark(tag, recorder.op), None);
      }
    }

    method FlushDurable() returns (ok: bool)
      modifies this, sink, world`clock
      ensures Outcome(View(), ok) == Coordination.FlushDurable(old(View()))
    {
      var op, checkpoint := recorder.op, recorder.previousCommit;
      ok := Emit(EventBody.Flush(op, seqNo), None);
      if ok {
        var request := FlushRequest(seqNo - 1, op, checkpoint);
        ok := world.Attempt();
        trace := trace + [Requested(request, ok)];
      }
    }

    method Flush() returns (ok: bool)
      requires Window(View())
      modifies this, audit, recorder, sink, world
      ensures Outcome(View(), ok) == FlushNow(old(View()))
    {
      hide Coordination.DrainAudit, Coordination.SettlePending, Coordination.FlushDurable, Window;
      ghost var s := View();
      DrainFacts(s);
      DrainAudit();
      ok := SettlePending();
      if ok {
        ok := FlushDurable();
      }
    }

    method Finish(reason: string) returns (ok: bool)
      requires Window(View())
      modifies this, audit, recorder, sink, world
      ensures Outcome(View(), ok) == Coordination.Finish(old(View()), reason)
    {
      hide Coordination.DrainAudit, Coordination.SettlePending, Coordination.FlushDurable, Window;
      ghost var s := View();
      DrainFacts(s);
      DrainAudit();
      ok := SettlePending();
      if ok {
        ok := Emit(EventBody.SessionEnd(recorder.op, reason, snapshots, seqNo), None);
        if ok {
          ok := FlushDurable();
        }
      }
    }

    /** One command from the queue, or a notification. */
    method Execute(command: Command) returns (ok: bool)
      requires Window(View()) && running
      modifies this, audit, recorder, sink, world
      ensures Outcome(View(), ok) == Exec(old(View()), command)
    {
      hide Coordination.DrainAudit, Coordination.SettlePending, Coordination.TakeSnapshot, MarkNow, FlushNow,
        Coordination.Finish, Arrive, Window;
      match command {
        case Notify(n) =>
          Deliver(n);
          ok := true;
        case Snap => ok := TakeSnapshot();
        case MarkAs(tag) => ok := Mark(tag);
        case FlushSession => ok := Flush();
        case Pause =>
          paused := true;
          ok := true;
        case Resume =>
          ghost var s := View();
          DrainFacts(s);
          PausedWindow(Coordination.DrainAudit(s));
          DrainAudit();
          paused := false;
          ok := SettlePending();
        case Shutdown(reason) =>
          ok := Finish(reason);
          running := false;
      }
    }

    /** The run loop: commands in order until a shutdown; if the queue closes first, an implicit one. */
    method RunLoop(commands: seq<Command>)
      requires Window(View()) && running
      modifies this, audit, recorder, sink, world
      ensures View() == Continue(old(View()), commands + [Shutdown("control_channel_closed")])
    {
      hide Window, Exec;
      ghost var s := View();
      var all := commands + [Shutdown("control_channel_closed")];
      var i := 0;
      while i < |all| && running
        invariant i <= |all|
        invariant Window(View()) && View() == Continue(s, all[..i])
      {
        assert all[..i + 1][..i] == all[..i];
        ghost var t := View();
        ExecWindow(t, all[i]);
        var _ := Execute(all[i]);
        i := i + 1;
      }
      StoppedStays(s, all, i);
      assert all[..|all|] == all;
    }
  }

  lemma SortedElementsIn(m: PathOps)
    ensures forall p :: p in Sorted(m.Keys) <==> p in m
  {
  }

  lemma PausedWindow(s: Sys)
    requires Window(s)
    ensures Window(s.(c := s.c.(paused := false)))
  {
  }

  /** One round of the settling loop: the specification unfolds once and its measure decreases. */
  lemma RoundEnds(s: Sys)
    requires Window(s) && s.c.pending && Coordination.TakeSnapshot(s).ok
    ensures Window(Coordination.TakeSnapshot(s).s) && Window(DrainAudit(Coordination.TakeSnapshot(s).s))
    ensures var d := DrainAudit(Coordination.TakeSnapshot(s).s);
            && Coordination.SettlePending(s) == Coordination.SettlePending(d)
            && (|d.env.script| < |s.env.script|
                || (|d.env.script| == |s.env.script|
                    && ((s.c.held.Some? && d.c.held.None?)
                        || (s.c.held == d.c.held && !d.c.pending))))
  {
    hide DrainAudit, Coordination.TakeSnapshot, Rep;
    SnapshotFacts(s);
    var r := Coordination.TakeSnapshot(s).s;
    DrainFacts(r);
  }

  lemma {:induction false} StoppedStays(s: Sys, commands: seq<Command>, i: nat)
    requires Window(s) && i <= |commands|
    requires i < |commands| ==> !Continue(s, commands[..i]).running
    ensures Continue(s, commands[..|commands|]) == Continue(s, commands[..i])
    decreases |commands| - i
  {
    hide Window;
    if i < |commands| {
      assert commands[..i + 1][..i] == commands[..i];
      assert Continue(s, commands[..i + 1]) == Continue(s, commands[..i]);
      StoppedStays(s, commands, i + 1);
    }
  }

  /** Start-up. */
  method Start(session: string, maxChanges: nat, world: World) returns (coordinator: Coordinator, ok: bool)
    modifies world
    ensures fresh(coordinator) && coordinator.world == world
    ensures ok == Initialize(session, maxChanges, old(world.View())).ok
    ensures ok ==> coordinator.View() == Initialize(session, maxChanges, old(world.View())).s
  {
    var audit := new AuditAccumulator();
    var recorder := new JjRecorder();
    var sink := new EventSink();
    coordinator := new Coordinator(session, maxChanges, audit, recorder, sink, world);
    assert coordinator.View() == Constructed(session, maxChanges, world.View());
    ok := coordinator.Baseline();
  }
}
