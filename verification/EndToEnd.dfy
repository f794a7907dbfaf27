/** From the recorder to the reader: a session published locally, whatever the file system did on the way. */
module EndToEnd {
  import opened Schema
  import opened Coordination
  import opened Moves
  import opened Chain
  import opened OverflowObligation
  import opened Windows
  import opened Marks
  import opened Sessions
  import opened History
  import opened Readings
  import opened Journal
  import opened Reader
  import Local

  /** How the directory sink fares at one step of a session. */
  datatype World = World(manifestSteps: nat, flush: Local.FlushWorld)

  /** What the coordinator had its sink do: every accepted event and every flush request. */
  function OpsOf(trace: seq<Step>, worlds: nat -> World): seq<Local.Op> {
    if trace == [] then []
    else
      var n := |trace| - 1;
      var ops := OpsOf(trace[..n], worlds);
      match trace[n]
      case Accepted(e, _) => ops + [Local.EmitOp(e, Local.EmitWorld(None, worlds(n).manifestSteps))]
      case Requested(request, _) => ops + [Local.FlushOp(request, worlds(n).flush)]
      case _ => ops
  }

  function SinkAfter(session: string, trace: seq<Step>, worlds: nat -> World, cfg: Local.Config): (s: Local.Sink)
    ensures s.hist != []
  {
    Local.After(session, OpsOf(trace, worlds), cfg)
  }

  /** At every flush request the recorder's repository is complete and mirrored properly, and the accepted
    * events fit into the spool. */
  ghost predicate Supported(session: string, trace: seq<Step>, worlds: nat -> World, cfg: Local.Config, o: Local.Objects) {
    && |Written(cfg.codec, LogOf(trace))| <= cfg.limit
    && forall k :: 0 <= k < |trace| && trace[k].Requested?
                   ==> Local.Proper(SinkAfter(session, trace[..k], worlds, cfg), trace[k].request, worlds(k).flush, o)
  }

  lemma OpsStep(trace: seq<Step>, worlds: nat -> World, n: nat)
    requires n < |trace|
    ensures OpsOf(trace[..n + 1], worlds) == OpsOf(trace[..n], worlds)
            + match trace[n] {
                case Accepted(e, _) => [Local.EmitOp(e, Local.EmitWorld(None, worlds(n).manifestSteps))]
                case Requested(request, _) => [Local.FlushOp(request, worlds(n).flush)]
                case _ => []
              }
  {
    assert trace[..n + 1][..n] == trace[..n];
  }

  ghost predicate Follows(s: Local.Sink, log: seq<Event>) {
    s.log == log && !s.failed
  }

  /** The sink's operations are orderly, and it accepts exactly the events of the session's log. */
  lemma {:induction false} SinkFollows(session: string, trace: seq<Step>, worlds: nat -> World, cfg: Local.Config,
                                       o: Local.Objects, n: nat)
    requires n <= |trace| && Supported(session, trace, worlds, cfg, o)
    requires Contiguous(LogOf(trace)) && OneSession(LogOf(trace), session) && RequestsCover(trace)
    ensures Local.AllOrderly(session, OpsOf(trace[..n], worlds), cfg, o)
    ensures Follows(SinkAfter(session, trace[..n], worlds, cfg), LogOf(trace[..n]))
  {
    hide LogOf, Local.Orderly, Local.Apply, Local.Proper, RequestCovers, Written, Contiguous, OneSession, Supported,
      Local.AllOrderly, RequestsCover, Local.After;
    if n == 0 {
      assert trace[..0] == [];
      StartsFollowing(session, cfg, o);
    } else {
      var m := n - 1;
      SinkFollows(session, trace, worlds, cfg, o, m);
      OpsStep(trace, worlds, m);
      LogStep(trace, m);
      var s := SinkAfter(session, trace[..m], worlds, cfg);
      Local.AfterInv(session, OpsOf(trace[..m], worlds), cfg, o);
      if trace[m].Accepted? {
        var op := Local.EmitOp(trace[m].event, Local.EmitWorld(None, worlds(m).manifestSteps));
        AcceptedFits(session, trace, worlds, cfg, o, m);
        Local.AppendOp(session, OpsOf(trace[..m], worlds), op, cfg, o);
      } else if trace[m].Requested? {
        var op := Local.FlushOp(trace[m].request, worlds(m).flush);
        RequestedOrderly(session, trace, worlds, cfg, o, m);
        Local.AppendOp(session, OpsOf(trace[..m], worlds), op, cfg, o);
        assert LogOf(trace[..m]) + [] == LogOf(trace[..m]);
      } else {
        assert OpsOf(trace[..m], worlds) + [] == OpsOf(trace[..m], worlds);
        assert LogOf(trace[..m]) + [] == LogOf(trace[..m]);
      }
    }
  }

  lemma StartsFollowing(session: string, cfg: Local.Config, o: Local.Objects)
    ensures Local.AllOrderly(session, [], cfg, o) && Follows(Local.After(session, [], cfg), LogOf([]))
  {
  }

  /** An accepted event is the next one of the session, and there is room for it. */
  lemma AcceptedFits(session: string, trace: seq<Step>, worlds: nat -> World, cfg: Local.Config, o: Local.Objects, m: nat)
    requires m < |trace| && trace[m].Accepted? && Supported(session, trace, worlds, cfg, o)
    requires Contiguous(LogOf(trace)) && OneSession(LogOf(trace), session)
    requires var s := SinkAfter(session, trace[..m], worlds, cfg);
             Local.SinkInv(s, session, cfg, o) && Follows(s, LogOf(trace[..m]))
    ensures var s := SinkAfter(session, trace[..m], worlds, cfg);
            var op := Local.EmitOp(trace[m].event, Local.EmitWorld(None, worlds(m).manifestSteps));
            && Local.Orderly(s, op, o)
            && Follows(Local.Apply(s, op, cfg).0, LogOf(trace[..m]) + [trace[m].event])
  {
    hide LogOf, Written, Local.SinkInv, SinkAfter, Local.Apply, Local.Orderly, Contiguous, OneSession, Supported;
    var e := trace[m].event;
    NextFits(session, trace, worlds, cfg, o, m);
    EmitFollows(SinkAfter(session, trace[..m], worlds, cfg), e, worlds(m).manifestSteps, session, cfg, o);
  }

  lemma NextFits(session: string, trace: seq<Step>, worlds: nat -> World, cfg: Local.Config, o: Local.Objects, m: nat)
    requires m < |trace| && trace[m].Accepted? && Supported(session, trace, worlds, cfg, o)
    requires Contiguous(LogOf(trace)) && OneSession(LogOf(trace), session)
    ensures var log, e := LogOf(trace[..m]), trace[m].event;
            && e.seqNo == |log| && e.v == SCHEMA_VERSION && e.session == session
            && |Written(cfg.codec, log)| + |cfg.codec.enc(e)| + 1 <= cfg.limit
  {
    hide LogOf, Written, SinkAfter, Local.Proper;
    var e := trace[m].event;
    var log, all := LogOf(trace[..m]), LogOf(trace);
    LogStep(trace, m);
    LogGrows(trace, m + 1);
    assert all[|log|] == e;
    assert log + [e] == all[..|log| + 1];
    WrittenAppend(cfg.codec, log, e);
    WrittenGrows(cfg.codec, all, |log| + 1);
  }

  lemma EmitFollows(s: Local.Sink, e: Event, steps: nat, session: string, cfg: Local.Config, o: Local.Objects)
    requires Local.SinkInv(s, session, cfg, o) && !s.failed
    requires e.seqNo == |s.log| && e.v == SCHEMA_VERSION && e.session == session
    requires |Written(cfg.codec, s.log)| + |cfg.codec.enc(e)| + 1 <= cfg.limit
    ensures var op := Local.EmitOp(e, Local.EmitWorld(None, steps));
            Local.Orderly(s, op, o) && Follows(Local.Apply(s, op, cfg).0, s.log + [e])
  {
    hide Written, Local.HistOk, Local.ManifestOk, Local.WriteManifest;
  }

  lemma RequestedOrderly(session: string, trace: seq<Step>, worlds: nat -> World, cfg: Local.Config, o: Local.Objects,
                         m: nat)
    requires m < |trace| && trace[m].Requested? && Supported(session, trace, worlds, cfg, o) && RequestsCover(trace)
    requires Follows(SinkAfter(session, trace[..m], worlds, cfg), LogOf(trace[..m]))
    ensures var s := SinkAfter(session, trace[..m], worlds, cfg);
            var op := Local.FlushOp(trace[m].request, worlds(m).flush);
            && Local.Orderly(s, op, o)
            && Follows(Local.Apply(s, op, cfg).0, LogOf(trace[..m]))
  {
    hide LogOf, Written, SinkAfter, Local.Proper, RequestCovers, Local.WriteManifest, Local.CopySpool;
  }

  // ---------------------------------------------------------------- freshness

  function LastRecorded(trace: seq<Step>): (r: Option<nat>)
    ensures r.Some? ==> r.value < |trace| && trace[r.value].Recorded?
    ensures r.Some? ==> forall m :: 0 <= m < |trace| && trace[m].Recorded? ==> m <= r.value
    ensures r.None? ==> forall m :: 0 <= m < |trace| ==> !trace[m].Recorded?
  {
    if trace == [] then None
    else if trace[|trace| - 1].Recorded? then Some(|trace| - 1)
    else
      var r := LastRecorded(trace[..|trace| - 1]);
      assert forall m :: 0 <= m < |trace| - 1 ==> trace[m] == trace[..|trace| - 1][m];
      r
  }

  lemma {:induction false} LastRecordedIs(trace: seq<Step>)
    ensures RecordedOps(trace) != [] ==>
              && LastRecorded(trace).Some?
              && trace[LastRecorded(trace).value].op == RecordedOps(trace)[|RecordedOps(trace)| - 1]
  {
    if trace != [] && !trace[|trace| - 1].Recorded? {
      LastRecordedIs(trace[..|trace| - 1]);
    }
  }

  lemma {:induction false} LatestIsLast(log: seq<Event>)
    requires log != [] && log[0].body.SessionStart?
    requires forall i :: 1 <= i < |log| ==> !log[i].body.SessionStart?
    ensures var ops := [log[0].body.baselineOp] + SnapshotOps(log);
            LatestOp(log) == ops[|ops| - 1]
  {
    var n := |log| - 1;
    if n == 0 {
      assert log[..0] == [];
      assert SnapshotOps(log[..0]) == [];
    } else {
      LatestIsLast(log[..n]);
      assert log[..n][0] == log[0];
    }
  }

  /** The newest operation of a state that holds nothing is the newest capture. */
  lemma NewestCapture(s: Sys)
    requires ChainInv(s) && s.c.held.None?
    ensures var m := LastRecorded(s.trace);
            m.Some? && s.trace[m.value].op == LatestOp(s.log)
  {
    hide LogInv, HeldInv, LatestOp, SnapshotOps, RecordedOps, RequestsCover;
    BeginsWell(s);
    LastRecordedIs(s.trace);
    LatestIsLast(s.log);
    var ops := [s.log[0].body.baselineOp] + SnapshotOps(s.log);
    assert ops + [] == ops;
  }

  lemma BeginsWell(s: Sys)
    requires ChainInv(s)
    ensures s.log != [] && s.log[0].body.SessionStart?
    ensures forall i :: 1 <= i < |s.log| ==> !s.log[i].body.SessionStart?
  {
  }

  // ---------------------------------------------------------------- the main result

  /** The end-to-end guarantee.  After a careful flush whose local publication succeeds, a reader opens the
    * session and gets every accepted event; looking up the durable operation returns the newest snapshot
    * event (or the baseline), whose immutable files are all in place; and that snapshot records what was in
    * the watched tree at a moment after the arrival of every notification that had been drained when the flush
    * event was accepted. */
  lemma FlushedSessionIsReadable(session: string, maxChanges: nat, env: Env, commands: seq<Command>,
                                 worlds: nat -> World, cfg: Local.Config, o: Local.Objects, legacy: Option<Bytes>)
    requires CarefulFlush(session, maxChanges, env, commands) && Sound(cfg.codec)
    requires var t := FlushNow(Run(session, maxChanges, env, commands)).s;
             && Supported(session, t.trace, worlds, cfg, o)
             && t.trace != [] && t.trace[|t.trace| - 1].Requested?
             && var k := |t.trace| - 1;
                Local.Flush(SinkAfter(session, t.trace[..k], worlds, cfg), t.trace[k].request, worlds(k).flush).1
    ensures var t := FlushNow(Run(session, maxChanges, env, commands)).s;
            var d := Local.Now(SinkAfter(session, t.trace, worlds, cfg));
            && d.manifest.Some? && d.manifest.value.durableOp == Some(LatestOp(t.log))
            && Opened(cfg.codec, d.manifest, EventFiles(d.objects, legacy)) == Ok(Session(d.manifest.value, t.log))
            && NewestFound(t.log)
            && Local.Present(d.store, o.needs(LatestOp(t.log)), o.truth)
    ensures FreshlyCaptured(FlushNow(Run(session, maxChanges, env, commands)).s, env.disk)
  {
    hide Run, Initialize, FlushNow, NamesInv, Strands, LatestOp, Supported, Flushed, Local.Flush, Local.Present, Sound,
      NewestFound, Opened, SinkAfter, FreshlyCaptured;
    CarefulIsFlushed(session, maxChanges, env, commands);
    Freshness(session, maxChanges, env, commands);
    FlushedIsReadable(session, FlushNow(Run(session, maxChanges, env, commands)).s, worlds, cfg, o, legacy);
  }

  /** A log whose last event is a flush that names the newest operation, and that was requested last. */
  ghost predicate Flushed(t: Sys, session: string) {
    && LogOf(t.trace) == t.log && Contiguous(t.log) && OneSession(t.log, session)
    && Begins(t.log) && Chained(t.log, t.c.maxChanges) && RequestsCover(t.trace)
    && t.trace != [] && t.trace[|t.trace| - 1].Requested?
    && t.trace[|t.trace| - 1].request.lastOp == LatestOp(t.log)
  }

  lemma CarefulIsFlushed(session: string, maxChanges: nat, env: Env, commands: seq<Command>)
    requires CarefulFlush(session, maxChanges, env, commands)
    ensures Flushed(FlushNow(Run(session, maxChanges, env, commands)).s, session)
  {
    hide Run, FlushNow, Inv, LatestOp, Chained, Begins, LogOf, Contiguous, OneSession, RequestsCover, NamesInv, Strands;
    CarefulFlushState(session, maxChanges, env, commands);
    LogFacts(session, maxChanges, env, commands + [FlushSession]);
  }

  lemma FlushedIsReadable(session: string, t: Sys, worlds: nat -> World, cfg: Local.Config, o: Local.Objects,
                          legacy: Option<Bytes>)
    requires Flushed(t, session) && Sound(cfg.codec) && Supported(session, t.trace, worlds, cfg, o)
    requires var k := |t.trace| - 1;
             Local.Flush(SinkAfter(session, t.trace[..k], worlds, cfg), t.trace[k].request, worlds(k).flush).1
    ensures var d := Local.Now(SinkAfter(session, t.trace, worlds, cfg));
            && d.manifest.Some? && d.manifest.value.durableOp == Some(LatestOp(t.log))
            && Opened(cfg.codec, d.manifest, EventFiles(d.objects, legacy)) == Ok(Session(d.manifest.value, t.log))
            && NewestFound(t.log)
            && Local.Present(d.store, o.needs(LatestOp(t.log)), o.truth)
  {
    hide Chained, Begins, LogOf, Contiguous, OneSession, RequestsCover, NewestFound, Supported, Local.Flush, LatestOp,
      Sound, Opened, SinkAfter, Local.Present;
    Published(session, t, worlds, cfg, o, legacy);
    NewestIsFound(t.log, t.c.maxChanges);
  }

  /** Looking up the newest operation returns the newest snapshot event, or the baseline. */
  ghost predicate NewestFound(log: seq<Event>) {
    && log != []
    && var newest := InfoOf(log[Newest(log)]);
       && newest.Some? && InspectOperation(log, LatestOp(log)) == Ok(newest.value)
       && forall i :: Newest(log) < i < |log| ==> !log[i].body.SnapshotTaken?
  }

  lemma NewestIsFound(log: seq<Event>, maxChanges: nat)
    requires Begins(log) && Chained(log, maxChanges)
    ensures NewestFound(log)
  {
    hide Chained, LatestOp, InspectOperation;
    InspectNewest(log, maxChanges);
    forall i | Newest(log) < i < |log| ensures !log[i].body.SnapshotTaken? {
      assert InfoOf(log[i]).None?;
    }
  }

  /** The newest operation records what was on disk when its capture read the watched tree, and that was after
    * everything that had been drained when the last event, a flush, was accepted. */
  ghost predicate FreshlyCaptured(t: Sys, disk: nat -> Tree) {
    && |t.trace| >= 2
    && var m := LastRecorded(t.trace);
       && m.Some? && t.trace[m.value].op == LatestOp(t.log)
       && TreeOf(LatestOp(t.log)) == disk(t.trace[m.value].time)
       && forall i, j :: 0 <= i < j < |t.trace| - 2 && ArrivedThenDrained(t.trace, i, j) ==>
            i < m.value && t.trace[i].time <= t.trace[m.value].time
  }

  lemma Freshness(session: string, maxChanges: nat, env: Env, commands: seq<Command>)
    requires CarefulFlush(session, maxChanges, env, commands)
    ensures FreshlyCaptured(FlushNow(Run(session, maxChanges, env, commands)).s, env.disk)
  {
    hide Run, Initialize, FlushNow, LatestOp, Window, ChainInv, DebtInv, WindowsInv, MarksInv,
      RecordedOps, SnapshotOps, LogOf, TallyOf, TreeOf, Timed, ReadFrom;
    CarefulFlushState(session, maxChanges, env, commands);
    var t := FlushNow(Run(session, maxChanges, env, commands)).s;
    NewestCapture(t);
    RunReadings(session, maxChanges, env, commands + [FlushSession]);
    var last := LastRecorded(t.trace).value;
    ReadAt(t.trace, env.disk, last);
    var k := |t.trace| - 2;
    PostsAreTimely(session, maxChanges, env, commands + [FlushSession], k);
    forall i, j | 0 <= i < j < k && ArrivedThenDrained(t.trace, i, j)
      ensures i < last && t.trace[i].time <= t.trace[last].time
    {
      var m :| i < m < k && t.trace[m].Recorded?;
      TimesOrdered(t.trace, t.env.clock, i, last);
    }
  }

  lemma ReadAt(trace: seq<Step>, disk: nat -> Tree, k: nat)
    requires ReadFrom(trace, disk) && k < |trace| && trace[k].Recorded?
    ensures TreeOf(trace[k].op) == disk(trace[k].time)
  {
  }

  lemma TimesOrdered(trace: seq<Step>, clock: nat, i: nat, j: nat)
    requires Timed(trace, clock) && i < j < |trace| && trace[i].Arrived? && trace[j].Recorded?
    ensures trace[i].time <= trace[j].time
  {
    assert TimeOf(trace[i]).Some? && TimeOf(trace[j]).Some?;
  }

  lemma LogFacts(session: string, maxChanges: nat, env: Env, commands: seq<Command>)
    requires Initialize(session, maxChanges, env).ok
    ensures var s := Run(session, maxChanges, env, commands);
            && LogOf(s.trace) == s.log && Contiguous(s.log) && OneSession(s.log, session)
            && Begins(s.log) && Chained(s.log, maxChanges) && s.c.maxChanges == maxChanges && RequestsCover(s.trace)
  {
    hide Run, Initialize, Begins, Chained, Contiguous, OneSession, LogOf, RequestsCover, SnapshotOps;
    EventStream(session, maxChanges, env, commands);
    FlushRequestsCover(session, maxChanges, env, commands);
    RunInv(session, maxChanges, env, commands);
    RunConfigured(session, maxChanges, env, commands);
    TraceLog(Run(session, maxChanges, env, commands));
  }

  lemma TraceLog(s: Sys)
    requires Inv(s)
    ensures LogOf(s.trace) == s.log
  {
  }

  /** The last flush of a supported session, when it succeeds. */
  lemma Published(session: string, t: Sys, worlds: nat -> World, cfg: Local.Config, o: Local.Objects,
                  legacy: Option<Bytes>)
    requires Sound(cfg.codec) && Supported(session, t.trace, worlds, cfg, o)
    requires LogOf(t.trace) == t.log && Contiguous(t.log) && OneSession(t.log, session) && RequestsCover(t.trace)
    requires t.trace != [] && t.trace[|t.trace| - 1].Requested?
    requires var k := |t.trace| - 1;
             Local.Flush(SinkAfter(session, t.trace[..k], worlds, cfg), t.trace[k].request, worlds(k).flush).1
    ensures var d := Local.Now(SinkAfter(session, t.trace, worlds, cfg));
            var op := t.trace[|t.trace| - 1].request.lastOp;
            && d.manifest.Some? && d.manifest.value.durableOp == Some(op)
            && Opened(cfg.codec, d.manifest, EventFiles(d.objects, legacy)) == Ok(Session(d.manifest.value, t.log))
            && Local.Present(d.store, o.needs(op), o.truth)
  {
    hide LogOf, Local.Flush, Supported, Contiguous, OneSession, RequestsCover, Local.AllOrderly, Local.SinkInv,
      Local.Orderly, Local.Present, Opened, Local.After, Sound;
    var k := |t.trace| - 1;
    SinkFollows(session, t.trace, worlds, cfg, o, k);
    SinkFollows(session, t.trace, worlds, cfg, o, k + 1);
    assert t.trace[..k + 1] == t.trace;
    var s := SinkAfter(session, t.trace[..k], worlds, cfg);
    Local.AfterInv(session, OpsOf(t.trace[..k], worlds), cfg, o);
    RequestedOrderly(session, t.trace, worlds, cfg, o, k);
    var op := Local.FlushOp(t.trace[k].request, worlds(k).flush);
    Local.AppendOp(session, OpsOf(t.trace[..k], worlds), op, cfg, o);
    OpsStep(t.trace, worlds, k);
    CoversAt(s, op, o);
    Local.FlushInv(s, t.trace[k].request, worlds(k).flush, session, cfg, o);
    var r := SinkAfter(session, t.trace, worlds, cfg);
    var n := |r.hist| - 1;
    Local.SessionAlwaysReadable(session, OpsOf(t.trace, worlds), cfg, o, n, n, legacy);
    LogStep(t.trace, k);
    assert t.log[..t.trace[k].request.lastSeq + 1] == t.log;
  }

  lemma CoversAt(s: Local.Sink, op: Local.Op, o: Local.Objects)
    requires op.FlushOp? && Local.Orderly(s, op, o)
    ensures RequestCovers(s.log, op.request) && Local.Proper(s, op.request, op.flushWorld, o)
    ensures s.log != [] && op.request.lastSeq == |s.log| - 1
  {
  }
}
