/** When the directory sink accepts an event or a flush, told from what its file operations do. */
module LocalAnswers {
  import opened Schema
  import opened Coordination
  import opened Chain
  import opened Marks
  import opened Sessions
  import opened History
  import opened Journal
  import opened Mirror
  import opened Mirroring
  import opened Local
  import EndToEnd
  import RemoteAnswers
  import Watermark

  /** An event is accepted if and only if no write has failed so far, the spool has room for it, and its line
    * is written; the manifest update after it does not matter. */
  lemma EmitExactly(s: Sink, e: Event, w: EmitWorld, session: string, cfg: Config, o: Objects)
    requires SinkInv(s, session, cfg, o)
    ensures Emit(s, e, cfg, w).1
            <==> !s.failed && |Written(cfg.codec, s.log + [e])| <= cfg.limit && w.written.None?
  {
    hide Written, HistOk, ManifestOk, LogOk, WriteManifest;
    WrittenAppend(cfg.codec, s.log, e);
  }

  /** A flush that covers the log succeeds if and only if no write has failed so far, the spool can be synced,
    * the repository is mirrored, the event object exists or is copied and synced, the cursor file is written,
    * and the manifest is renamed into place and synced. */
  lemma FlushExactly(s: Sink, request: FlushRequest, w: FlushWorld, session: string, cfg: Config, o: Objects)
    requires SinkInv(s, session, cfg, o) && RequestCovers(s.log, request)
    ensures Local.Flush(s, request, w).1
            <==> && !s.failed && w.spoolOk && w.mirrored
                 && (request.lastSeq in Now(s).objects || w.copySteps >= 5) && w.cursorOk && w.manifestSteps >= 4
  {
    hide HistOk, ManifestOk, Written, WriteManifest, CopySpool, CommitsBelow;
    LastIs(s.log, request);
    var h1 := s.hist + StoreStates(Now(s), w.stores);
    assert h1[|h1| - 1].objects == Now(s).objects;
  }

  /** A write has failed: an emit with room for its line did not get it written. */
  ghost predicate FailsAt(session: string, ops: seq<Op>, cfg: Config, k: nat)
    requires k < |ops|
  {
    var s := After(session, ops[..k], cfg);
    ops[k].EmitOp? && ops[k].emitWorld.written.Some? && s.spoolBytes + |cfg.codec.enc(ops[k].event)| + 1 <= cfg.limit
  }

  /** The sink has failed for good if and only if some write failed. */
  lemma {:induction false} FailedExactly(session: string, ops: seq<Op>, cfg: Config, n: nat)
    requires n <= |ops|
    ensures After(session, ops[..n], cfg).failed <==> exists k :: 0 <= k < n && FailsAt(session, ops, cfg, k)
  {
    hide After, FailsAt;
    if n == 0 {
      assert ops[..0] == [];
      FirstNotFailed(session, cfg);
    } else {
      FailedExactly(session, ops, cfg, n - 1);
      Watermark.AfterLast(session, ops, cfg, n - 1);
      FailedNext(session, ops, cfg, n - 1);
    }
  }

  lemma FirstNotFailed(session: string, cfg: Config)
    ensures !After(session, [], cfg).failed
  {
  }

  lemma FailedNext(session: string, ops: seq<Op>, cfg: Config, k: nat)
    requires k < |ops|
    ensures var s := After(session, ops[..k], cfg);
            Apply(s, ops[k], cfg).0.failed <==> s.failed || FailsAt(session, ops, cfg, k)
  {
    hide After, WriteManifest, CopySpool;
  }

  // ---------------------------------------------------------------- a session that is published

  lemma {:induction false} EmitsKeepStore(session: string, ops: seq<Op>, cfg: Config)
    requires forall k :: 0 <= k < |ops| ==> ops[k].EmitOp?
    ensures Now(After(session, ops, cfg)).store == map[]
  {
    if ops != [] {
      hide After, WriteManifest;
      var n := |ops| - 1;
      EmitsKeepStore(session, ops[..n], cfg);
      assert ops[..n + 1] == ops;
      Watermark.AfterLast(session, ops, cfg, n);
      EmitKeepsStore(After(session, ops[..n], cfg), ops[n].event, cfg, ops[n].emitWorld);
    }
  }

  lemma EmitKeepsStore(s: Sink, e: Event, cfg: Config, w: EmitWorld)
    requires s.hist != []
    ensures Now(Emit(s, e, cfg, w).0).store == Now(s).store
  {
  }

  lemma {:induction false} OnlyEmits(trace: seq<Step>, worlds: nat -> EndToEnd.World)
    requires forall k :: 0 <= k < |trace| ==> !trace[k].Requested?
    ensures forall k :: 0 <= k < |EndToEnd.OpsOf(trace, worlds)| ==> EndToEnd.OpsOf(trace, worlds)[k].EmitOp?
  {
    if trace != [] {
      OnlyEmits(trace[..|trace| - 1], worlds);
    }
  }

  /** Nothing fails while an empty repository is mirrored for the first time. */
  const HEALTHY := EndToEnd.World(4, FlushWorld(true, [], [map[[] := DirItem]], true, 5, 0, true, 4))

  /** The hypotheses of the end-to-end guarantee are met by a session: its first flush, undisturbed, with room
    * in the spool and no failing file operation. */
  lemma LocalFlushHappens(session: string, maxChanges: nat, cfg: Config)
    requires CarefulFlush(session, maxChanges, AGREEABLE, [])
    requires |Written(cfg.codec, FlushNow(Run(session, maxChanges, AGREEABLE, [])).s.log)| <= cfg.limit
    ensures var t := FlushNow(Run(session, maxChanges, AGREEABLE, [])).s;
            var worlds := (n: nat) => HEALTHY;
            && EndToEnd.Supported(session, t.trace, worlds, cfg, Watermark.NO_OBJECTS)
            && t.trace != [] && t.trace[|t.trace| - 1].Requested?
            && var k := |t.trace| - 1;
               Local.Flush(EndToEnd.SinkAfter(session, t.trace[..k], worlds, cfg), t.trace[k].request, HEALTHY.flush).1
  {
    hide Run, FlushNow, Initialize, LogOf, Written, LatestOp, NamesInv, Inv, CarefulFlush, RequestCovers, Contiguous,
      OneSession, RequestsCover, Begins, Chained, SinkInv, Local.Flush, Proper, EndToEnd.SinkAfter, SyncedDir, CarefulPath;
    RemoteAnswers.Initialized(session, maxChanges);
    CarefulFlushState(session, maxChanges, AGREEABLE, []);
    RemoteAnswers.OneRequest(session, maxChanges);
    var t := FlushNow(Run(session, maxChanges, AGREEABLE, [])).s;
    var k := |t.trace| - 1;
    assert [] + [FlushSession] == [FlushSession];
    EndToEnd.LogFacts(session, maxChanges, AGREEABLE, [FlushSession]);
    PublishedOnce(session, t, cfg);
  }

  /** The same for any trace whose last step is its only flush request. */
  lemma PublishedOnce(session: string, t: Sys, cfg: Config)
    requires LogOf(t.trace) == t.log && Contiguous(t.log) && OneSession(t.log, session) && RequestsCover(t.trace)
    requires t.trace != [] && t.trace[|t.trace| - 1].Requested?
    requires forall n :: 0 <= n < |t.trace| - 1 ==> !t.trace[n].Requested?
    requires |Written(cfg.codec, t.log)| <= cfg.limit
    ensures var worlds := (n: nat) => HEALTHY;
            && EndToEnd.Supported(session, t.trace, worlds, cfg, Watermark.NO_OBJECTS)
            && var k := |t.trace| - 1;
               Local.Flush(EndToEnd.SinkAfter(session, t.trace[..k], worlds, cfg), t.trace[k].request, HEALTHY.flush).1
  {
    hide LogOf, Written, RequestCovers, Contiguous, OneSession, RequestsCover, SinkInv, Local.Flush, Proper, After,
      Orderly, SyncedDir, CarefulPath, Apply, AllOrderly;
    var worlds := (n: nat) => HEALTHY;
    var o := Watermark.NO_OBJECTS;
    var k := |t.trace| - 1;
    var before := EndToEnd.SinkAfter(session, t.trace[..k], worlds, cfg);
    OnlyEmits(t.trace[..k], worlds);
    EmitsKeepStore(session, EndToEnd.OpsOf(t.trace[..k], worlds), cfg);
    HealthyProper(before, t.trace[k].request);
    assert EndToEnd.Supported(session, t.trace, worlds, cfg, o);
    EndToEnd.SinkFollows(session, t.trace, worlds, cfg, o, k);
    AfterInv(session, EndToEnd.OpsOf(t.trace[..k], worlds), cfg, o);
    EndToEnd.RequestedOrderly(session, t.trace, worlds, cfg, o, k);
    EndToEnd.CoversAt(before, FlushOp(t.trace[k].request, HEALTHY.flush), o);
    FlushExactly(before, t.trace[k].request, HEALTHY.flush, session, cfg, o);
  }

  lemma HealthyProper(s: Sink, request: FlushRequest)
    requires s.hist != [] && Now(s).store == map[]
    ensures Proper(s, request, HEALTHY.flush, Watermark.NO_OBJECTS)
  {
    hide SyncedDir, CarefulPath;
    Watermark.EmptySource(map[]);
    var f: Store := map[];
    assert [f] + HEALTHY.flush.stores == [map[], map[[] := DirItem]];
  }
}
