/** Every command of the coordinator is a sequence of atomic moves, each guarded as in the code.
  * An invariant of all reachable states then needs to be checked for one move at a time.
  */
module Moves {
  import opened Schema
  import opened Audit
  import opened Recorder
  import opened Coordination

  datatype Move =
    | EnvMove(env: Env)
    | ArriveMove(n: Notification)
    | DrainMove
    | OverflowMove
    | AuditMove
    | CaptureMove(tree: Tree)
    | RetryMove
    | PreparedMove
    | PostMove(body: EventBody)
    | RequestMove(done: bool)
    | PauseMove(paused: bool)
    | StopMove

  /** The state after the sink accepted `e`. */
  function Posted(s: Sys, e: Event, origin: Option<Origin>): Sys {
    s.(log := s.log + [e], trace := s.trace + [Accepted(e, origin)], c := s.c.(seqNo := s.c.seqNo + 1))
  }

  /** A mark, flush or session end as the coordinator fills it in. */
  ghost predicate OwnBody(s: Sys, body: EventBody) {
    match body
    case Mark(_, refOp) => refOp == s.rec.op
    case Flush(op, throughSeq) => op == s.rec.op && throughSeq == s.c.seqNo
    case SessionEnd(finalOp, _, snapshots, events) =>
      finalOp == s.rec.op && snapshots == s.c.snapshots && events == s.c.seqNo
    case _ => false
  }

  ghost predicate Enabled(s: Sys, m: Move) {
    match m
    case EnvMove(env) => env == s.env.(script := env.script, clock := env.clock) && s.env.clock <= env.clock
    case OverflowMove => s.c.held.None? && s.c.overflows != []
    case AuditMove => s.c.held.None? && s.c.overflows == [] && s.c.startedAt.Some?
    case CaptureMove(tree) =>
      s.c.held.None? && s.c.overflows == [] && s.c.startedAt.None? && tree == s.env.disk(s.env.clock)
    case RetryMove => s.c.held.Some? && s.c.held.value.seqNo == s.c.seqNo
    case PreparedMove =>
      s.c.held.Some? && s.c.held.value.seqNo == s.c.seqNo && s.c.overflows == [] && s.c.startedAt.None?
    case PostMove(body) => !s.c.pending && OwnBody(s, body)
    case RequestMove(_) => s.c.seqNo > 0 && s.log != [] && s.log[|s.log| - 1].body.Flush?
                            && s.log[|s.log| - 1].body.op == s.rec.op && !s.c.pending
    case _ => true
  }

  ghost function Do(s: Sys, m: Move): Sys
    requires Enabled(s, m)
  {
    match m
    case EnvMove(env) => s.(env := env)
    case ArriveMove(n) => Arrive(s, n)
    case DrainMove =>
      s.(c := Merged(s.c, DrainBatch(s.acc)), acc := EMPTY_AUDIT, trace := s.trace + [Drained])
    case OverflowMove =>
      var n := s.c.overflows[0];
      var p := Posted(s, NewEvent(s, Overflow(n.source, n.rawEvents)), Some(n.origin));
      p.(c := p.c.(overflows := p.c.overflows[1..]))
    case AuditMove =>
      var p := Posted(s, NewEvent(s, TouchedPaths(s.c.touched, s.c.rawEvents, s.c.startedAt.value)), None);
      p.(c := p.c.(touched := map[], rawEvents := 0, startedAt := None, pathLimitReported := false))
    case CaptureMove(tree) =>
      var snap := SnapshotOf(s.rec, tree, s.c.maxChanges);
      s.(env := Tick(s.env), rec := Captured(s.rec, tree, s.c.maxChanges),
         trace := s.trace + [Recorded(snap.op, s.c.forceFull, s.env.clock)],
         c := s.c.(held := Some(NewEvent(s, SnapshotTaken(snap)))))
    case RetryMove =>
      var p := Posted(s, s.c.held.value, None);
      p.(c := p.c.(held := None, forceFull := p.c.overflows != [],
                   pending := p.c.startedAt.Some? || p.c.overflows != [], snapshots := p.c.snapshots + 1))
    case PreparedMove =>
      var p := Posted(s, s.c.held.value, None);
      p.(c := p.c.(held := None, forceFull := false, pending := false, snapshots := p.c.snapshots + 1))
    case PostMove(body) => Posted(s, NewEvent(s, body), None)
    case RequestMove(done) =>
      s.(trace := s.trace + [Requested(FlushRequest(s.c.seqNo - 1, s.rec.op, s.rec.commit), done)])
    case PauseMove(paused) => s.(c := s.c.(paused := paused))
    case StopMove => s.(running := false)
  }

  /** An enabled move; a careful run makes no mark, flush or end while a snapshot event is held. */
  ghost predicate MayDo(careful: bool, s: Sys, m: Move) {
    Enabled(s, m) && (careful && m.PostMove? ==> s.c.held.None?)
  }

  /** The moves `ms` may be made in turn and take `s` to `t`. */
  ghost predicate Leads(careful: bool, s: Sys, ms: seq<Move>, t: Sys)
    decreases ms
  {
    if ms == [] then s == t
    else MayDo(careful, s, ms[0]) && Leads(careful, Do(s, ms[0]), ms[1..], t)
  }

  lemma {:induction false} LeadsTrans(careful: bool, s: Sys, a: seq<Move>, t: Sys, b: seq<Move>, u: Sys)
    requires Leads(careful, s, a, t) && Leads(careful, t, b, u)
    ensures Leads(careful, s, a + b, u)
    decreases a
  {
    hide Enabled, Do;
    if a == [] {
      assert a + b == b;
    } else {
      LeadsTrans(careful, Do(s, a[0]), a[1..], t, b, u);
      assert (a + b)[1..] == a[1..] + b;
    }
  }

  lemma OneMove(careful: bool, s: Sys, m: Move)
    requires MayDo(careful, s, m)
    ensures Leads(careful, s, [m], Do(s, m))
  {
    hide Enabled, Do;
    assert [m][1..] == [];
  }

  lemma MoveThenEnv(careful: bool, s: Sys, m: Move, env: Env)
    requires MayDo(careful, s, m) && Enabled(Do(s, m), EnvMove(env))
    ensures Leads(careful, s, [m, EnvMove(env)], Do(s, m).(env := env))
  {
    OneMove(careful, s, m);
    OneMove(careful, Do(s, m), EnvMove(env));
    LeadsTrans(careful, s, [m], Do(s, m), [EnvMove(env)], Do(s, m).(env := env));
    assert [m] + [EnvMove(env)] == [m, EnvMove(env)];
  }

  lemma WindowDrain(s: Sys)
    requires Window(s)
    ensures Window(Do(s, DrainMove))
  {
    hide Merged;
    MergedFacts(s.c, DrainBatch(s.acc));
  }

  lemma WindowMove(s: Sys, m: Move)
    requires Window(s) && Enabled(s, m)
    ensures Window(Do(s, m))
  {
    hide Rep, Merged, SnapshotOf, Captured, Notified;
    match m
    case ArriveMove(n) => NotifiedRep(s.acc, n);
    case DrainMove => WindowDrain(s);
    case _ =>
  }

  // ---------------------------------------------------------------- each operation as moves

  lemma {:induction false} ArriveAllMoves(careful: bool, s: Sys, ns: seq<Notification>) returns (ms: seq<Move>)
    ensures Leads(careful, s, ms, ArriveAll(s, ns))
  {
    if ns == [] {
      ms := [];
    } else {
      var a := ArriveAllMoves(careful, s, ns[..|ns| - 1]);
      var t := ArriveAll(s, ns[..|ns| - 1]);
      OneMove(careful, t, ArriveMove(ns[|ns| - 1]));
      LeadsTrans(careful, s, a, t, [ArriveMove(ns[|ns| - 1])], ArriveAll(s, ns));
      ms := a + [ArriveMove(ns[|ns| - 1])];
    }
  }

  lemma DrainMoves(careful: bool, s: Sys) returns (ms: seq<Move>)
    ensures Leads(careful, s, ms, DrainAudit(s))
  {
    hide Leads, ArriveAll, Merged;
    var env := s.env.(script := if s.env.script == [] then [] else s.env.script[1..]);
    OneMove(careful, s, EnvMove(env));
    var s0 := s.(env := env);
    var a := ArriveAllMoves(careful, s0, NextArrivals(s.env));
    var t := BeforeDrain(s);
    LeadsTrans(careful, s, [EnvMove(env)], s0, a, t);
    OneMove(careful, t, DrainMove);
    LeadsTrans(careful, s, [EnvMove(env)] + a, t, [DrainMove], DrainAudit(s));
    ms := [EnvMove(env)] + a + [DrainMove];
  }

  lemma {:induction false} EmitOverflowsMoves(careful: bool, s: Sys) returns (ms: seq<Move>)
    requires s.c.held.None?
    ensures Leads(careful, s, ms, EmitOverflows(s).s)
    decreases |s.c.overflows|
  {
    hide Leads;
    if s.c.overflows == [] {
      ms := Stay(careful, s);
    } else {
      var r := EmitFirstOverflow(s);
      if r.ok {
        MoveThenEnv(careful, s, OverflowMove, Tick(s.env));
        var rest := EmitOverflowsMoves(careful, r.s);
        LeadsTrans(careful, s, [OverflowMove, EnvMove(Tick(s.env))], r.s, rest, EmitOverflows(s).s);
        ms := [OverflowMove, EnvMove(Tick(s.env))] + rest;
      } else {
        ms := Failed(careful, s);
      }
    }
  }

  lemma Stay(careful: bool, s: Sys) returns (ms: seq<Move>)
    ensures Leads(careful, s, ms, s)
  {
    ms := [];
  }

  /** A failed attempt only moves the environment on. */
  lemma Failed(careful: bool, s: Sys) returns (ms: seq<Move>)
    ensures Leads(careful, s, ms, s.(env := Tick(s.env)))
  {
    ms := [EnvMove(Tick(s.env))];
    OneMove(careful, s, EnvMove(Tick(s.env)));
  }

  lemma EmitAuditMoves(careful: bool, s: Sys) returns (ms: seq<Move>)
    requires s.c.held.None? && s.c.overflows == []
    ensures Leads(careful, s, ms, EmitAudit(s).s)
  {
    hide Leads;
    if s.c.startedAt.None? {
      ms := Stay(careful, s);
    } else if EmitAudit(s).ok {
      ms := [AuditMove, EnvMove(Tick(s.env))];
      MoveThenEnv(careful, s, AuditMove, Tick(s.env));
    } else {
      ms := Failed(careful, s);
    }
  }

  lemma CaptureMoves(careful: bool, s: Sys) returns (ms: seq<Move>)
    requires s.c.held.None? && s.c.overflows == [] && s.c.startedAt.None?
    ensures Leads(careful, s, ms, CaptureAndHold(s).s)
    ensures CaptureAndHold(s).ok ==> CaptureAndHold(s).s.c.held.Some?
                                     && CaptureAndHold(s).s.c.held.value.seqNo == s.c.seqNo
  {
    hide Leads, SnapshotOf, Captured;
    if CaptureAndHold(s).ok {
      var tree := s.env.disk(s.env.clock);
      ms := [CaptureMove(tree)];
      OneMove(careful, s, CaptureMove(tree));
    } else {
      ms := Failed(careful, s);
    }
  }

  lemma PreparedMoves(careful: bool, s: Sys) returns (ms: seq<Move>)
    requires s.c.held.Some? && s.c.held.value.seqNo == s.c.seqNo && s.c.overflows == [] && s.c.startedAt.None?
    ensures Leads(careful, s, ms, EmitPrepared(s).s)
  {
    hide Leads;
    if EmitPrepared(s).ok {
      ms := [PreparedMove, EnvMove(Tick(s.env))];
      MoveThenEnv(careful, s, PreparedMove, Tick(s.env));
    } else {
      ms := Failed(careful, s);
    }
  }

  lemma HeldMoves(careful: bool, s: Sys) returns (ms: seq<Move>)
    requires s.c.held.Some?
    ensures Leads(careful, s, ms, EmitHeld(s).s)
  {
    hide Leads;
    if EmitHeld(s).ok {
      ms := [RetryMove, EnvMove(Tick(s.env))];
      MoveThenEnv(careful, s, RetryMove, Tick(s.env));
    } else if s.c.held.value.seqNo == s.c.seqNo {
      ms := Failed(careful, s);
    } else {
      ms := Stay(careful, s);
    }
  }

  lemma FreshMoves(careful: bool, s: Sys) returns (ms: seq<Move>)
    requires Window(s) && s.c.held.None?
    ensures Leads(careful, s, ms, FreshSnapshot(s).s)
  {
    hide Leads, DrainAudit, EmitOverflows, EmitAudit, CaptureAndHold, EmitPrepared, Rep;
    ms := DrainMoves(careful, s);
    DrainFacts(s);
    var d := DrainAudit(s);
    var a := EmitOverflowsMoves(careful, d);
    EmitOverflowsFacts(d);
    var r1 := EmitOverflows(d);
    LeadsTrans(careful, s, ms, d, a, r1.s);
    ms := ms + a;
    if r1.ok {
      var b := EmitAuditMoves(careful, r1.s);
      EmitAuditFacts(r1.s);
      var r2 := EmitAudit(r1.s);
      LeadsTrans(careful, s, ms, r1.s, b, r2.s);
      ms := ms + b;
      if r2.ok {
        var c := CaptureMoves(careful, r2.s);
        CaptureFacts(r2.s);
        var r3 := CaptureAndHold(r2.s);
        LeadsTrans(careful, s, ms, r2.s, c, r3.s);
        ms := ms + c;
        if r3.ok {
          var p := PreparedMoves(careful, r3.s);
          LeadsTrans(careful, s, ms, r3.s, p, EmitPrepared(r3.s).s);
          ms := ms + p;
        }
      }
    }
  }

  lemma SnapshotMoves(careful: bool, s: Sys) returns (ms: seq<Move>)
    requires Window(s)
    ensures Leads(careful, s, ms, TakeSnapshot(s).s)
  {
    hide Leads, EmitHeld, FreshSnapshot, Rep;
    if s.c.held.Some? {
      ms := HeldMoves(careful, s);
    } else {
      ms := FreshMoves(careful, s);
    }
  }

  lemma {:induction false} SettleMoves(careful: bool, s: Sys) returns (ms: seq<Move>)
    requires Window(s)
    ensures Leads(careful, s, ms, SettlePending(s).s)
    decreases |s.env.script|, if s.c.held.Some? then 1 else 0, if s.c.pending then 1 else 0
  {
    hide Leads, TakeSnapshot, DrainAudit, Rep;
    if !s.c.pending {
      ms := Stay(careful, s);
    } else {
      ms := SnapshotMoves(careful, s);
      SnapshotFacts(s);
      var r := TakeSnapshot(s);
      if r.ok {
        var d := DrainMoves(careful, r.s);
        DrainFacts(r.s);
        LeadsTrans(careful, s, ms, r.s, d, DrainAudit(r.s));
        var rest := SettleMoves(careful, DrainAudit(r.s));
        LeadsTrans(careful, s, ms + d, DrainAudit(r.s), rest, SettlePending(s).s);
        ms := ms + d + rest;
      }
    }
  }

  /** A settled state holds nothing, unless nothing was pending and something held to begin with. */
  lemma {:induction false} SettleHeld(s: Sys)
    requires Window(s)
    requires s.c.pending || s.c.held.None?
    ensures SettlePending(s).ok ==> SettlePending(s).s.c.held.None?
    decreases |s.env.script|, if s.c.held.Some? then 1 else 0, if s.c.pending then 1 else 0
  {
    hide TakeSnapshot, DrainAudit, Rep;
    if s.c.pending {
      SnapshotFacts(s);
      var r := TakeSnapshot(s);
      if r.ok {
        DrainFacts(r.s);
        SettleHeld(DrainAudit(r.s));
      }
    }
  }

  /** The command posts its event although a snapshot event is held: the drain found nothing pending,
    * so the settling loop is skipped. */
  ghost predicate Strands(s: Sys, command: Command) {
    && s.running
    && (command.MarkAs? || command.FlushSession? || command.Shutdown?)
    && s.c.held.Some? && !DrainAudit(s).c.pending
  }

  lemma DrainAndSettleMoves(careful: bool, s: Sys) returns (ms: seq<Move>)
    requires Window(s)
    requires careful ==> s.c.held.None? || DrainAudit(s).c.pending
    ensures careful && DrainAndSettle(s).ok ==> DrainAndSettle(s).s.c.held.None?
    ensures Leads(careful, s, ms, DrainAndSettle(s).s)
    ensures Window(DrainAndSettle(s).s)
    ensures DrainAndSettle(s).ok ==> !DrainAndSettle(s).s.c.pending
  {
    hide Leads, DrainAudit, SettlePending, Rep;
    var d := DrainMoves(careful, s);
    DrainFacts(s);
    var rest := SettleMoves(careful, DrainAudit(s));
    SettleWindow(DrainAudit(s));
    if careful {
      SettleHeld(DrainAudit(s));
    }
    LeadsTrans(careful, s, d, DrainAudit(s), rest, DrainAndSettle(s).s);
    ms := d + rest;
  }

  lemma PostMoves(careful: bool, s: Sys, body: EventBody) returns (ms: seq<Move>)
    requires !s.c.pending && OwnBody(s, body)
    requires careful ==> s.c.held.None?
    ensures var r := Accept(s, NewEvent(s, body), None);
            && Leads(careful, s, ms, r.s)
            && (r.ok ==> r.s == Posted(s, NewEvent(s, body), None).(env := Tick(s.env)))
  {
    hide Leads, OwnBody;
    if Accept(s, NewEvent(s, body), None).ok {
      ms := [PostMove(body), EnvMove(Tick(s.env))];
      MoveThenEnv(careful, s, PostMove(body), Tick(s.env));
    } else {
      ms := Failed(careful, s);
    }
  }

  lemma FlushMoves(careful: bool, s: Sys) returns (ms: seq<Move>)
    requires !s.c.pending
    requires careful ==> s.c.held.None?
    ensures Leads(careful, s, ms, FlushDurable(s).s)
  {
    hide Leads;
    ms := PostMoves(careful, s, Flush(s.rec.op, s.c.seqNo));
    var r := Accept(s, NewEvent(s, Flush(s.rec.op, s.c.seqNo)), None);
    if r.ok {
      var done := r.s.env.fate(r.s.env.clock);
      MoveThenEnv(careful, r.s, RequestMove(done), Tick(r.s.env));
      LeadsTrans(careful, s, ms, r.s, [RequestMove(done), EnvMove(Tick(r.s.env))], FlushDurable(s).s);
      ms := ms + [RequestMove(done), EnvMove(Tick(r.s.env))];
    }
  }

  lemma ResumeMoves(careful: bool, s: Sys) returns (ms: seq<Move>)
    requires Window(s) && s.running
    ensures Leads(careful, s, ms, Exec(s, Resume).s)
  {
    hide Leads, DrainAudit, SettlePending, Rep;
    ms := DrainMoves(careful, s);
    DrainFacts(s);
    var d := DrainAudit(s);
    var p := d.(c := d.c.(paused := false));
    OneMove(careful, d, PauseMove(false));
    var rest := SettleMoves(careful, p);
    LeadsTrans(careful, s, ms, d, [PauseMove(false)], p);
    LeadsTrans(careful, s, ms + [PauseMove(false)], p, rest, SettlePending(p).s);
    ms := ms + [PauseMove(false)] + rest;
  }

  lemma ShutdownMoves(careful: bool, s: Sys, reason: string) returns (ms: seq<Move>)
    requires Window(s)
    requires careful ==> s.c.held.None? || DrainAudit(s).c.pending
    ensures Leads(careful, s, ms, Finish(s, reason).s)
  {
    hide Leads, DrainAndSettle, FlushDurable, Rep;
    ms := DrainAndSettleMoves(careful, s);
    var t := DrainAndSettle(s);
    if t.ok {
      var body := SessionEnd(t.s.rec.op, reason, t.s.c.snapshots, t.s.c.seqNo);
      var e := PostMoves(careful, t.s, body);
      LeadsTrans(careful, s, ms, t.s, e, EmitEnd(t.s, reason).s);
      ms := ms + e;
      if EmitEnd(t.s, reason).ok {
        var u := EmitEnd(t.s, reason).s;
        var f := FlushMoves(careful, u);
        LeadsTrans(careful, s, ms, u, f, FlushDurable(u).s);
        ms := ms + f;
      }
    }
  }

  /** Every command is a sequence of enabled moves. */
  lemma ExecMoves(careful: bool, s: Sys, command: Command) returns (ms: seq<Move>)
    requires Window(s)
    requires careful ==> !Strands(s, command)
    ensures Leads(careful, s, ms, Exec(s, command).s)
  {
    hide Leads, DrainAndSettle, DrainAudit, FlushDurable, Finish, TakeSnapshot, Arrive, Rep;
    if !s.running {
      ms := Stay(careful, s);
    } else {
      match command
      case Notify(n) =>
        OneMove(careful, s, ArriveMove(n));
        ms := [ArriveMove(n)];
      case Snap => ms := SnapshotMoves(careful, s);
      case MarkAs(tag) =>
        ms := DrainAndSettleMoves(careful, s);
        var t := DrainAndSettle(s);
        if t.ok {
          var m := PostMoves(careful, t.s, Mark(tag, t.s.rec.op));
          LeadsTrans(careful, s, ms, t.s, m, EmitMark(t.s, tag).s);
          ms := ms + m;
        }
      case FlushSession =>
        ms := DrainAndSettleMoves(careful, s);
        var t := DrainAndSettle(s);
        if t.ok {
          var m := FlushMoves(careful, t.s);
          LeadsTrans(careful, s, ms, t.s, m, FlushDurable(t.s).s);
          ms := ms + m;
        }
      case Pause =>
        OneMove(careful, s, PauseMove(true));
        ms := [PauseMove(true)];
      case Resume => ms := ResumeMoves(careful, s);
      case Shutdown(reason) =>
        ms := ShutdownMoves(careful, s, reason);
        var t := Finish(s, reason).s;
        OneMove(careful, t, StopMove);
        LeadsTrans(careful, s, ms, t, [StopMove], t.(running := false));
        ms := ms + [StopMove];
    }
  }
}
