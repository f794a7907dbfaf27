/** The coordinator as a specification: one function per operation of the source's `Coordinator`,
  * acting on the whole system state (coordinator, accumulator, recorder, accepted events, environment).
  *
  * The environment is arbitrary: `fate` decides the outcome of every emit, capture and flush request in
  * the order they are attempted, `disk` is the watched tree at each capture, and `script` lists, for
  * each drain, the notifications that arrive just before it.  Only a drain reads the accumulator, so
  * this covers every interleaving of the watcher with a running command.
  */
module Coordination {
  import opened Schema
  import opened Audit
  import opened Recorder

  datatype Env = Env(script: seq<seq<Notification>>, fate: nat -> bool, disk: nat -> Tree, clock: nat)

  datatype FlushRequest = FlushRequest(lastSeq: nat, lastOp: Operation, checkpoint: Option<Commit>)

  /** What happened, in order; `time` is the environment's clock at an arrival, and at the moment a capture
    * reads the watched tree.  History only: no operation reads it. */
  datatype Step =
    | Arrived(n: Notification, time: nat)
    | Drained
    | Recorded(op: Operation, full: bool, time: nat)
    | Accepted(event: Event, origin: Option<Origin>)
    | Requested(request: FlushRequest, done: bool)

  datatype Coord = Coord(
    session: string, maxChanges: nat,
    seqNo: nat, snapshots: nat,
    touched: PathOps, rawEvents: nat, startedAt: Option<nat>,
    pending: bool, forceFull: bool, paused: bool,
    held: Option<Event>,
    overflows: seq<Notice>, pathLimitReported: bool)

  datatype Sys = Sys(c: Coord, acc: AuditState, rec: RecorderState, log: seq<Event>, trace: seq<Step>,
                     env: Env, running: bool)

  datatype Outcome = Outcome(s: Sys, ok: bool)

  // ---------------------------------------------------------------- window invariant

  /** Facts about the audit window that the loops rely on. */
  ghost predicate Window(s: Sys) {
    && Rep(s.acc)
    && |s.c.touched| <= MAX_AUDIT_PATHS
    && (s.c.startedAt.Some? <==> s.c.touched != map[])
    && (s.c.startedAt.None? ==> s.c.rawEvents == 0)
    && (s.c.touched != map[] || s.c.overflows != [] ==> s.c.pending)
  }

  // ---------------------------------------------------------------- draining

  function Arrive(s: Sys, n: Notification): Sys {
    s.(acc := Notified(s.acc, n), trace := s.trace + [Arrived(n, s.env.clock)])
  }

  function ArriveAll(s: Sys, ns: seq<Notification>): Sys {
    if ns == [] then s else Arrive(ArriveAll(s, ns[..|ns| - 1]), ns[|ns| - 1])
  }

  /** Merges one drained path into the coordinator's window. */
  function MergePath(c: Coord, b: AuditBatch, p: Path): Coord
    requires p in b.paths
  {
    if p in c.touched then c.(touched := c.touched[p := c.touched[p] + b.paths[p]])
    else if |c.touched| < MAX_AUDIT_PATHS then c.(touched := c.touched[p := b.paths[p]])
    else if !c.pathLimitReported then
      c.(pathLimitReported := true,
         overflows := c.overflows
         + [Notice(PATH_LIMIT_SOURCE, SaturatingAdd(c.rawEvents, b.rawEvents), FromCoordinator)])
    else c
  }

  function MergePaths(c: Coord, b: AuditBatch, order: seq<Path>): Coord
    requires forall p :: p in order ==> p in b.paths
  {
    if order == [] then c
    else MergePath(MergePaths(c, b, order[..|order| - 1]), b, order[|order| - 1])
  }

  /** The end of a merge: counts, overflow notices and the pending flag. */
  function Totalled(c: Coord, b: AuditBatch): Coord {
    var c3 := c.(rawEvents := SaturatingAdd(c.rawEvents, b.rawEvents));
    var c4 := if b.overflows != [] then c3.(overflows := c3.overflows + b.overflows, forceFull := true) else c3;
    if c4.touched != map[] || c4.overflows != [] then c4.(pending := true) else c4
  }

  /** `drain_audit`, given the drained batch. */
  function Merged(c: Coord, b: AuditBatch): Coord {
    var c1 := if c.startedAt.None? then c.(startedAt := b.startedAt) else c;
    Totalled(MergePaths(c1, b, Sorted(b.paths.Keys)), b)
  }

  function NextArrivals(env: Env): seq<Notification> {
    if env.script == [] then [] else env.script[0]
  }

  /** The state just before a drain: the scripted notifications have arrived. */
  function BeforeDrain(s: Sys): Sys {
    ArriveAll(s.(env := s.env.(script := if s.env.script == [] then [] else s.env.script[1..])),
              NextArrivals(s.env))
  }

  function DrainAudit(s: Sys): Sys {
    var t := BeforeDrain(s);
    t.(c := Merged(t.c, DrainBatch(t.acc)), acc := EMPTY_AUDIT, trace := t.trace + [Drained])
  }

  // ---------------------------------------------------------------- emitting

  function Tick(env: Env): Env {
    env.(clock := env.clock + 1)
  }

  /** `emit_exact`: the sink is asked only when the event carries the current sequence number. */
  function Accept(s: Sys, e: Event, origin: Option<Origin>): Outcome {
    if e.seqNo != s.c.seqNo then Outcome(s, false)
    else if !s.env.fate(s.env.clock) then Outcome(s.(env := Tick(s.env)), false)
    else
      Outcome(s.(env := Tick(s.env), log := s.log + [e], trace := s.trace + [Accepted(e, origin)],
                 c := s.c.(seqNo := s.c.seqNo + 1)), true)
  }

  function NewEvent(s: Sys, body: EventBody): Event {
    Event(SCHEMA_VERSION, s.c.seqNo, s.c.session, body)
  }

  function EmitFirstOverflow(s: Sys): Outcome
    requires s.c.overflows != []
  {
    var n := s.c.overflows[0];
    var r := Accept(s, NewEvent(s, Overflow(n.source, n.rawEvents)), Some(n.origin));
    if !r.ok then r else Outcome(r.s.(c := r.s.c.(overflows := r.s.c.overflows[1..])), true)
  }

  function EmitOverflows(s: Sys): Outcome
    decreases |s.c.overflows|
  {
    if s.c.overflows == [] then Outcome(s, true)
    else
      var r := EmitFirstOverflow(s);
      if !r.ok then r else EmitOverflows(r.s)
  }

  function EmitAudit(s: Sys): Outcome {
    if s.c.startedAt.None? then Outcome(s, true)
    else
      var r := Accept(s, NewEvent(s, TouchedPaths(s.c.touched, s.c.rawEvents, s.c.startedAt.value)), None);
      if !r.ok then r
      else
        Outcome(r.s.(c := r.s.c.(touched := map[], rawEvents := 0, startedAt := None,
                                 pathLimitReported := false)), true)
  }

  // ---------------------------------------------------------------- snapshots

  /** Captures the watched tree and prepares the snapshot event; a failed capture changes nothing. */
  function CaptureAndHold(s: Sys): Outcome {
    if !s.env.fate(s.env.clock) then Outcome(s.(env := Tick(s.env)), false)
    else
      var tree := s.env.disk(s.env.clock);
      var snap := SnapshotOf(s.rec, tree, s.c.maxChanges);
      Outcome(s.(env := Tick(s.env), rec := Captured(s.rec, tree, s.c.maxChanges),
                 trace := s.trace + [Recorded(snap.op, s.c.forceFull, s.env.clock)],
                 c := s.c.(held := Some(NewEvent(s, SnapshotTaken(snap))))), true)
  }

  /** Retries the held snapshot event verbatim. */
  function EmitHeld(s: Sys): Outcome
    requires s.c.held.Some?
  {
    var r := Accept(s, s.c.held.value, None);
    if !r.ok then r
    else
      var c := r.s.c;
      Outcome(r.s.(c := c.(held := None, forceFull := c.overflows != [],
                           pending := c.startedAt.Some? || c.overflows != [],
                           snapshots := c.snapshots + 1)), true)
  }

  /** Emits the snapshot event that was prepared by the same call. */
  function EmitPrepared(s: Sys): Outcome
    requires s.c.held.Some?
  {
    var r := Accept(s, s.c.held.value, None);
    if !r.ok then r
    else
      Outcome(r.s.(c := r.s.c.(held := None, forceFull := false, pending := false,
                               snapshots := r.s.c.snapshots + 1)), true)
  }

  function FreshSnapshot(s: Sys): Outcome {
    var r1 := EmitOverflows(DrainAudit(s));
    if !r1.ok then r1
    else
      var r2 := EmitAudit(r1.s);
      if !r2.ok then r2
      else
        var r3 := CaptureAndHold(r2.s);
        if !r3.ok then r3 else EmitPrepared(r3.s)
  }

  function TakeSnapshot(s: Sys): Outcome {
    if s.c.held.Some? then EmitHeld(s) else FreshSnapshot(s)
  }

  // ---------------------------------------------------------------- the loops end

  lemma {:induction false} ArriveAllFacts(s: Sys, ns: seq<Notification>)
    ensures ArriveAll(s, ns).c == s.c && ArriveAll(s, ns).env == s.env && ArriveAll(s, ns).rec == s.rec
    ensures ArriveAll(s, ns).log == s.log && ArriveAll(s, ns).running == s.running
    ensures ArriveAll(s, ns).acc == NotifiedAll(s.acc, ns)
    ensures Window(s) ==> Window(ArriveAll(s, ns))
  {
    if ns != [] {
      ArriveAllFacts(s, ns[..|ns| - 1]);
      var m := ArriveAll(s, ns[..|ns| - 1]);
      if Window(s) {
        NotifiedRep(m.acc, ns[|ns| - 1]);
      }
    }
  }

  lemma {:induction false} MergePathsFacts(c: Coord, b: AuditBatch, order: seq<Path>)
    requires forall p :: p in order ==> p in b.paths
    requires |c.touched| <= MAX_AUDIT_PATHS
    ensures var r := MergePaths(c, b, order);
            && r == c.(touched := r.touched, pathLimitReported := r.pathLimitReported, overflows := r.overflows)
            && |r.touched| <= MAX_AUDIT_PATHS
            && (order != [] || c.touched != map[] ==> r.touched != map[])
            && (order == [] ==> r == c)
            && |c.overflows| <= |r.overflows| && r.overflows[..|c.overflows|] == c.overflows
            && forall i :: |c.overflows| <= i < |r.overflows| ==> r.overflows[i].origin == FromCoordinator
  {
    if order != [] {
      MergePathsFacts(c, b, order[..|order| - 1]);
      var m := MergePaths(c, b, order[..|order| - 1]);
      var p := order[|order| - 1];
      if p in m.touched {
        assert m.touched[p := m.touched[p] + b.paths[p]].Keys == m.touched.Keys;
      } else if |m.touched| < MAX_AUDIT_PATHS {
        assert m.touched[p := b.paths[p]].Keys == m.touched.Keys + {p};
      }
    }
  }

  /** What a merge leaves alone and what it establishes. */
  lemma MergedFacts(c: Coord, b: AuditBatch)
    requires |c.touched| <= MAX_AUDIT_PATHS
    requires c.startedAt.Some? <==> c.touched != map[]
    requires b.startedAt.Some? <==> b.paths != map[]
    requires (c.startedAt.None? ==> c.rawEvents == 0) && (b.startedAt.None? ==> b.rawEvents == 0)
    ensures var r := Merged(c, b);
            && r.session == c.session && r.maxChanges == c.maxChanges && r.seqNo == c.seqNo
            && r.snapshots == c.snapshots && r.paused == c.paused && r.held == c.held
            && |r.touched| <= MAX_AUDIT_PATHS
            && (r.startedAt.Some? <==> r.touched != map[])
            && (r.startedAt.None? ==> r.rawEvents == 0)
            && (r.touched != map[] || r.overflows != [] ==> r.pending)
            && (c.pending ==> r.pending) && (c.forceFull ==> r.forceFull)
            && (b.overflows != [] ==> r.forceFull && r.pending)
            && (b.overflows == [] ==> r.forceFull == c.forceFull)
            && (b.paths != map[] ==> r.pending)
            && (c.touched != map[] ==> r.touched != map[])
            && (b.paths == map[] && b.overflows == []
                ==> r.touched == c.touched && r.overflows == c.overflows
                    && (r.pending <==> c.pending || c.touched != map[] || c.overflows != []))
  {
    var c1 := if c.startedAt.None? then c.(startedAt := b.startedAt) else c;
    var order := Sorted(b.paths.Keys);
    MergePathsFacts(c1, b, order);
    if b.paths == map[] {
      assert b.paths.Keys == {};
      assert order == [];
    } else {
      var p :| p in b.paths;
      assert p in order;
    }
  }

  lemma BeforeDrainFacts(s: Sys)
    requires Window(s)
    ensures var t := BeforeDrain(s);
            && Window(t) && t.c == s.c && t.rec == s.rec && t.log == s.log && t.running == s.running
            && t.acc == NotifiedAll(s.acc, NextArrivals(s.env))
            && t.env == s.env.(script := if s.env.script == [] then [] else s.env.script[1..])
  {
    var s0 := s.(env := s.env.(script := if s.env.script == [] then [] else s.env.script[1..]));
    ArriveAllFacts(s0, NextArrivals(s.env));
  }

  lemma NoArrivals(acc: AuditState)
    ensures NotifiedAll(acc, []) == acc
  {
  }

  lemma DrainFacts(s: Sys)
    requires Window(s)
    ensures var r := DrainAudit(s);
            && Window(r) && r.acc == EMPTY_AUDIT
            && r.log == s.log && r.rec == s.rec && r.running == s.running
            && r.c.session == s.c.session && r.c.maxChanges == s.c.maxChanges && r.c.seqNo == s.c.seqNo
            && r.c.snapshots == s.c.snapshots && r.c.held == s.c.held
            && (s.c.pending ==> r.c.pending) && (s.c.forceFull ==> r.c.forceFull)
            && r.env == s.env.(script := if s.env.script == [] then [] else s.env.script[1..])
            && (s.env.script == [] && s.acc == EMPTY_AUDIT
                ==> r.c.pending == s.c.pending && r.c.touched == s.c.touched && r.c.overflows == s.c.overflows)
  {
    hide BeforeDrain, Merged, NotifiedAll;
    BeforeDrainFacts(s);
    var t := BeforeDrain(s);
    var b := DrainBatch(t.acc);
    MergedFacts(s.c, b);
    var m := Merged(s.c, b);
    assert DrainAudit(s) == t.(c := m, acc := EMPTY_AUDIT, trace := t.trace + [Drained]);
    if s.env.script == [] && s.acc == EMPTY_AUDIT {
      assert t.acc == EMPTY_AUDIT by {
        assert NextArrivals(s.env) == [];
        NoArrivals(s.acc);
      }
    }
  }

  lemma {:induction false} EmitOverflowsFacts(s: Sys)
    requires Window(s)
    ensures var r := EmitOverflows(s);
            && Window(r.s) && r.s.acc == s.acc && r.s.env.script == s.env.script
            && r.s.c == s.c.(seqNo := r.s.c.seqNo, overflows := r.s.c.overflows)
            && (r.ok ==> r.s.c.overflows == [])
    decreases |s.c.overflows|
  {
    hide Rep;
    if s.c.overflows != [] {
      var r := EmitFirstOverflow(s);
      if r.ok {
        EmitOverflowsFacts(r.s);
      }
    }
  }

  lemma EmitAuditFacts(s: Sys)
    requires Window(s)
    ensures var r := EmitAudit(s);
            && Window(r.s) && r.s.acc == s.acc && r.s.env.script == s.env.script
            && r.s.c.overflows == s.c.overflows && r.s.c.held == s.c.held
            && (r.ok ==> r.s.c.touched == map[] && r.s.c.startedAt.None?)
  {
  }

  lemma CaptureFacts(s: Sys)
    ensures var r := CaptureAndHold(s);
            && r.s.acc == s.acc && r.s.env.script == s.env.script && r.s.log == s.log
            && r.s.c == s.c.(held := r.s.c.held)
            && (r.ok ==> r.s.c.held.Some?) && (!r.ok ==> r.s.c.held == s.c.held)
  {
  }

  lemma PreparedFacts(s: Sys)
    requires s.c.held.Some?
    ensures var r := EmitPrepared(s);
            && r.s.acc == s.acc && r.s.env.script == s.env.script
            && r.s.c.touched == s.c.touched && r.s.c.overflows == s.c.overflows && r.s.c.startedAt == s.c.startedAt
            && r.s.c.rawEvents == s.c.rawEvents
            && (r.ok ==> !r.s.c.pending && r.s.c.held.None?)
            && (!r.ok ==> r.s.c == s.c)
  {
  }

  lemma FreshSnapshotFacts(s: Sys)
    requires Window(s)
    ensures var r := FreshSnapshot(s);
            && Window(r.s) && r.s.acc == EMPTY_AUDIT
            && r.s.env.script == (if s.env.script == [] then [] else s.env.script[1..])
            && (r.ok ==> !r.s.c.pending && r.s.c.touched == map[] && r.s.c.overflows == [] && r.s.c.held.None?)
  {
    hide DrainAudit, EmitOverflows, EmitAudit, CaptureAndHold, EmitPrepared, Rep;
    DrainFacts(s);
    var d := DrainAudit(s);
    EmitOverflowsFacts(d);
    var r1 := EmitOverflows(d);
    if r1.ok {
      EmitAuditFacts(r1.s);
      var r2 := EmitAudit(r1.s);
      if r2.ok {
        CaptureFacts(r2.s);
        var r3 := CaptureAndHold(r2.s);
        if r3.ok {
          PreparedFacts(r3.s);
        }
      }
    }
  }

  /** A snapshot keeps the window facts; a successful one leaves nothing held, and if it was fresh it
    * leaves an empty window with nothing pending. */
  lemma SnapshotFacts(s: Sys)
    requires Window(s)
    ensures var r := TakeSnapshot(s);
            && Window(r.s)
            && (r.ok ==> r.s.c.held.None?)
            && (s.c.held.Some? ==> r.s.env.script == s.env.script)
            && (s.c.held.None? ==>
                  && r.s.acc == EMPTY_AUDIT
                  && r.s.env.script == (if s.env.script == [] then [] else s.env.script[1..])
                  && (r.ok ==> !r.s.c.pending && r.s.c.touched == map[] && r.s.c.overflows == []))
  {
    if s.c.held.None? {
      FreshSnapshotFacts(s);
    }
  }

  // ---------------------------------------------------------------- commands

  /** The loop shared by mark, flush, resume and finish: snapshot and drain while something is pending.
    * It ends because the environment has finitely many notifications left, and without new ones each
    * round clears the held event or the pending flag. */
  function SettlePending(s: Sys): Outcome
    requires Window(s)
    decreases |s.env.script|, if s.c.held.Some? then 1 else 0, if s.c.pending then 1 else 0
  {
    if !s.c.pending then Outcome(s, true)
    else
      var r := TakeSnapshot(s);
      if !r.ok then r
      else
        SnapshotFacts(s);
        DrainFacts(r.s);
        SettlePending(DrainAudit(r.s))
  }

  function DrainAndSettle(s: Sys): Outcome
    requires Window(s)
  {
    DrainFacts(s);
    SettlePending(DrainAudit(s))
  }

  function EmitMark(s: Sys, tag: string): Outcome {
    Accept(s, NewEvent(s, Mark(tag, s.rec.op)), None)
  }

  /** `flush_durable`: a flush event, then one flush request to the sink. */
  function FlushDurable(s: Sys): Outcome {
    var r := Accept(s, NewEvent(s, Flush(s.rec.op, s.c.seqNo)), None);
    if !r.ok then r
    else
      var done := r.s.env.fate(r.s.env.clock);
      var request := FlushRequest(r.s.c.seqNo - 1, s.rec.op, s.rec.commit);
      Outcome(r.s.(env := Tick(r.s.env), trace := r.s.trace + [Requested(request, done)]), done)
  }

  function EmitEnd(s: Sys, reason: string): Outcome {
    Accept(s, NewEvent(s, SessionEnd(s.rec.op, reason, s.c.snapshots, s.c.seqNo)), None)
  }

  function MarkNow(s: Sys, tag: string): Outcome
    requires Window(s)
  {
    var r := DrainAndSettle(s);
    if !r.ok then r else EmitMark(r.s, tag)
  }

  function FlushNow(s: Sys): Outcome
    requires Window(s)
  {
    var r := DrainAndSettle(s);
    if !r.ok then r else FlushDurable(r.s)
  }

  function Finish(s: Sys, reason: string): Outcome
    requires Window(s)
  {
    var r := DrainAndSettle(s);
    if !r.ok then r
    else
      var e := EmitEnd(r.s, reason);
      if !e.ok then e else FlushDurable(e.s)
  }

  datatype Command =
    | Notify(n: Notification)
    | Snap
    | MarkAs(tag: string)
    | FlushSession
    | Pause
    | Resume
    | Shutdown(reason: string)

  /** One command of the coordinator's run loop, or a notification between commands. */
  function Exec(s: Sys, command: Command): Outcome
    requires Window(s)
  {
    if !s.running then Outcome(s, false)
    else
      match command
      case Notify(n) => Outcome(Arrive(s, n), true)
      case Snap => TakeSnapshot(s)
      case MarkAs(tag) => MarkNow(s, tag)
      case FlushSession => FlushNow(s)
      case Pause => Outcome(s.(c := s.c.(paused := true)), true)
      case Resume =>
        DrainFacts(s);
        SettlePending(DrainAudit(s).(c := DrainAudit(s).c.(paused := false)))
      case Shutdown(reason) =>
        var r := Finish(s, reason);
        Outcome(r.s.(running := false), r.ok)
  }

  lemma {:induction false} SettleWindow(s: Sys)
    requires Window(s)
    ensures Window(SettlePending(s).s)
    ensures SettlePending(s).ok ==> !SettlePending(s).s.c.pending
    decreases |s.env.script|, if s.c.held.Some? then 1 else 0, if s.c.pending then 1 else 0
  {
    if s.c.pending {
      SnapshotFacts(s);
      var r := TakeSnapshot(s);
      if r.ok {
        DrainFacts(r.s);
        SettleWindow(DrainAudit(r.s));
      }
    }
  }

  lemma AcceptWindow(s: Sys, e: Event)
    requires Window(s)
    ensures Window(Accept(s, e, None).s)
  {
  }

  lemma FlushWindow(s: Sys)
    requires Window(s)
    ensures Window(FlushDurable(s).s)
  {
  }

  lemma ExecWindow(s: Sys, command: Command)
    requires Window(s)
    ensures Window(Exec(s, command).s)
  {
    hide DrainAudit, TakeSnapshot, SettlePending, Notified, Rep, Accept, FlushDurable;
    if s.running {
      DrainFacts(s);
      match command
      case Notify(n) => NotifiedRep(s.acc, n);
      case Snap => SnapshotFacts(s);
      case Pause =>
      case Resume => SettleWindow(DrainAudit(s).(c := DrainAudit(s).c.(paused := false)));
      case MarkAs(tag) =>
        SettleWindow(DrainAudit(s));
        AcceptWindow(DrainAndSettle(s).s, NewEvent(DrainAndSettle(s).s, Mark(tag, DrainAndSettle(s).s.rec.op)));
      case FlushSession => SettleWindow(DrainAudit(s)); FlushWindow(DrainAndSettle(s).s);
      case Shutdown(reason) =>
        SettleWindow(DrainAudit(s));
        var t := DrainAndSettle(s).s;
        AcceptWindow(t, NewEvent(t, SessionEnd(t.rec.op, reason, t.c.snapshots, t.c.seqNo)));
        FlushWindow(EmitEnd(DrainAndSettle(s).s, reason).s);
    }
  }

  /** The coordinator as it is constructed. */
  function Constructed(session: string, maxChanges: nat, env: Env): Sys {
    Sys(Coord(session, maxChanges, 0, 0, map[], 0, None, false, false, false, None, [], false),
        EMPTY_AUDIT, FRESH_RECORDER, [], [], env, true)
  }

  /** The baseline capture, a full scan, and the session-start event. */
  function Baseline(s: Sys): Outcome {
    if !s.env.fate(s.env.clock) then Outcome(s.(env := Tick(s.env)), false)
    else
      var tree := s.env.disk(s.env.clock);
      var snap := SnapshotOf(s.rec, tree, s.c.maxChanges);
      var t := s.(env := Tick(s.env), rec := Captured(s.rec, tree, s.c.maxChanges),
                  trace := s.trace + [Recorded(snap.op, true, s.env.clock)]);
      Accept(t, NewEvent(t, SessionStart(snap.op, snap.tree)), None)
  }

  /** Start-up.  Without the baseline there is no session. */
  function Initialize(session: string, maxChanges: nat, env: Env): Outcome {
    Baseline(Constructed(session, maxChanges, env))
  }

  /** The state after executing `commands`, whatever each of them returned. */
  function Continue(s: Sys, commands: seq<Command>): (r: Sys)
    requires Window(s)
    ensures Window(r)
  {
    if commands == [] then s
    else
      var t := Continue(s, commands[..|commands| - 1]);
      ExecWindow(t, commands[|commands| - 1]);
      Exec(t, commands[|commands| - 1]).s
  }

  /** A whole session: start-up, then `commands`. */
  function Run(session: string, maxChanges: nat, env: Env, commands: seq<Command>): (r: Sys)
    requires Initialize(session, maxChanges, env).ok
    ensures Window(r)
  {
    Continue(Initialize(session, maxChanges, env).s, commands)
  }
}
