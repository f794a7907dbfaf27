/** The one way a session goes out of step, exactly: a `Snap` on a clean window whose snapshot event is
  * refused holds that event without marking anything pending; a mark, flush or shutdown that then finds
  * nothing pending skips its settling loop and takes the sequence number the held event needs.
  */
module Stranding {
  import opened Schema
  import opened Audit
  import opened Recorder
  import opened Coordination
  import opened Moves
  import opened Chain
  import opened OverflowObligation
  import opened Windows
  import opened Marks
  import opened Sessions

  /** The held snapshot event can never be accepted any more. */
  ghost predicate Lost(s: Sys) {
    s.c.held.Some? && s.c.held.value.seqNo < s.c.seqNo
  }

  ghost predicate Prefix<T>(a: seq<T>, b: seq<T>) {
    |a| <= |b| && b[..|a|] == a
  }

  lemma PrefixTrans<T>(a: seq<T>, b: seq<T>, c: seq<T>)
    requires Prefix(a, b) && Prefix(b, c)
    ensures Prefix(a, c)
  {
    assert c[..|a|] == c[..|b|][..|a|];
  }

  lemma MoveGrows(s: Sys, m: Move)
    requires Window(s) && Enabled(s, m)
    ensures Prefix(s.log, Do(s, m).log)
    ensures ChainInv(s) && Lost(s)
            ==> Lost(Do(s, m)) && Do(s, m).c.held == s.c.held && SnapshotOps(Do(s, m).log) == SnapshotOps(s.log)
  {
    hide Merged, Notified, SnapshotOps, SnapshotOf, Captured, LogInv, TraceInv, Linked, CommitsBelow, Rep;
    match m
    case DrainMove => DrainMoveFrame(s);
    case PostMove(body) => SnapshotOpsAppend(s.log, NewEvent(s, body));
    case _ =>
  }

  lemma {:induction false} LeadsGrows(careful: bool, s: Sys, ms: seq<Move>, t: Sys)
    requires Inv(s) && Leads(careful, s, ms, t)
    ensures Prefix(s.log, t.log)
    ensures Lost(s) ==> Lost(t) && t.c.held == s.c.held && SnapshotOps(t.log) == SnapshotOps(s.log)
    decreases ms
  {
    hide Window, DebtInv, WindowsInv, MarksInv, ChainInv, Do, Enabled, SnapshotOps, Prefix, Lost;
    if ms == [] {
      assert Prefix(s.log, s.log) by {
        PrefixSelf(s.log);
      }
    } else {
      var u := Do(s, ms[0]);
      MoveGrows(s, ms[0]);
      MoveInv(s, ms[0]);
      LeadsGrows(careful, u, ms[1..], t);
      PrefixTrans(s.log, u.log, t.log);
    }
  }

  lemma PrefixSelf<T>(a: seq<T>)
    ensures Prefix(a, a)
  {
  }

  lemma ExecGrows(s: Sys, command: Command)
    requires Inv(s)
    ensures Prefix(s.log, Exec(s, command).s.log)
    ensures Lost(s) ==> Lost(Exec(s, command).s) && Exec(s, command).s.c.held == s.c.held
                        && SnapshotOps(Exec(s, command).s.log) == SnapshotOps(s.log)
  {
    hide Window, DebtInv, WindowsInv, MarksInv, ChainInv, Leads, Exec, SnapshotOps, Prefix, Lost;
    var ms := ExecMoves(false, s, command);
    LeadsGrows(false, s, ms, Exec(s, command).s);
  }

  /** Once lost, always lost: whatever happens, the held event stays held, every `Snap` fails without
    * effect, and no snapshot event is ever accepted again. */
  lemma {:induction false} LostForever(s: Sys, commands: seq<Command>)
    requires Inv(s) && Lost(s)
    ensures var t := Continue(s, commands);
            && Inv(t) && Lost(t) && t.c.held == s.c.held
            && SnapshotOps(t.log) == SnapshotOps(s.log)
            && Exec(t, Snap) == Outcome(t, false)
  {
    hide Window, DebtInv, WindowsInv, MarksInv, ChainInv, SnapshotOps;
    if commands == [] {
      LostSnap(s);
    } else {
      LostForever(s, commands[..|commands| - 1]);
      var u := Continue(s, commands[..|commands| - 1]);
      ExecGrows(u, commands[|commands| - 1]);
      ExecInv(u, commands[|commands| - 1]);
      LostSnap(Continue(s, commands));
    }
  }

  lemma LostSnap(s: Sys)
    requires Window(s) && Lost(s)
    ensures Exec(s, Snap) == Outcome(s, false)
  {
  }

  lemma NamesBroken(a: seq<Event>, b: seq<Event>)
    requires Prefix(a, b) && NamesAgree(b)
    ensures NamesAgree(a)
  {
    hide NamesLatest;
    forall k | 0 <= k < |a| ensures NamesLatest(a[..k], a[k]) {
      assert a[..k] == b[..k] && a[k] == b[k];
      assert NamesLatest(b[..k], b[k]);
    }
  }

  /** The operation of a held snapshot is not the one the log ends with. */
  lemma HeldIsAhead(s: Sys)
    requires ChainInv(s) && s.c.held.Some?
    ensures s.rec.op != LatestOp(s.log)
  {
    var prev := LatestOp(s.log);
    assert s.rec.op == Operation(prev, s.c.held.value.body.snapshot.commit);
  }

  /** The sink's answer to the next event it is asked to accept. */
  predicate SinkAccepts(s: Sys) {
    s.env.fate(s.env.clock)
  }

  /** Accepting a mark, flush or end while a snapshot event is held loses that event, and what was
    * accepted names an operation the log does not have. */
  lemma PostedWhileHeld(s: Sys, body: EventBody)
    requires ChainInv(s) && s.c.held.Some? && HeldCurrent(s) && OwnBody(s, body)
    ensures var r := Accept(s, NewEvent(s, body), None);
            && (r.ok <==> SinkAccepts(s))
            && (r.ok ==> Lost(r.s) && r.s.log == s.log + [NewEvent(s, body)] && !NamesAgree(r.s.log))
            && (!r.ok ==> r.s.c == s.c && r.s.log == s.log)
  {
    HeldIsAhead(s);
    hide LogInv, HeldInv, TraceInv, LatestOp;
    var r := Accept(s, NewEvent(s, body), None);
    if r.ok {
      var k := |s.log|;
      assert r.s.log[..k] == s.log && r.s.log[k] == NewEvent(s, body);
      assert !NamesLatest(r.s.log[..k], r.s.log[k]);
    }
  }

  lemma StrandedFlush(s: Sys)
    requires ChainInv(s) && s.c.held.Some? && HeldCurrent(s)
    ensures var r := FlushDurable(s);
            if SinkAccepts(s) then Lost(r.s) && |r.s.log| > |s.log| else r.s.log == s.log && r.s.c == s.c
  {
    hide LogInv, HeldInv, TraceInv;
    PostedWhileHeld(s, Flush(s.rec.op, s.c.seqNo));
  }

  lemma DrainedInv(s: Sys)
    requires Inv(s)
    ensures Inv(DrainAudit(s)) && DrainAudit(s).log == s.log && DrainAudit(s).c.held == s.c.held
    ensures HeldCurrent(s) ==> HeldCurrent(DrainAudit(s))
  {
    hide ChainInv, DebtInv, WindowsInv, MarksInv, Leads, DrainAudit, Rep;
    var ms := DrainMoves(false, s);
    LeadsInv(false, s, ms, DrainAudit(s));
    DrainFacts(s);
  }

  /** A stranding command either is refused by the sink and changes nothing that matters, or loses the
    * held event. */
  lemma StrandedCommand(s: Sys, command: Command)
    requires Inv(s) && HeldCurrent(s) && Strands(s, command)
    ensures var t := Exec(s, command).s;
            if SinkAccepts(s) then Lost(t) && t.log != s.log else t.log == s.log && HeldCurrent(t)
  {
    hide ChainInv, DebtInv, WindowsInv, MarksInv, DrainAudit, FlushDurable, Rep;
    DrainedInv(s);
    DrainFacts(s);
    var d := DrainAudit(s);
    assert DrainAndSettle(s) == Outcome(d, true);
    match command
    case MarkAs(tag) => PostedWhileHeld(d, Mark(tag, d.rec.op));
    case FlushSession => StrandedFlush(d);
    case Shutdown(reason) =>
      var body := SessionEnd(d.rec.op, reason, d.c.snapshots, d.c.seqNo);
      PostedWhileHeld(d, body);
      var e := EmitEnd(d, reason);
      if e.ok {
        FlushGrows(e.s);
      }
  }

  lemma FlushGrows(s: Sys)
    ensures var r := FlushDurable(s);
            r.s.c.held == s.c.held && r.s.c.seqNo >= s.c.seqNo && |r.s.log| >= |s.log|
  {
  }

  /** The command at `k` of a session came with an event held and nothing pending after a drain, and the
    * sink accepts the next event it is asked to. */
  ghost predicate StrandedAt(session: string, maxChanges: nat, env: Env, commands: seq<Command>, k: nat)
    requires Initialize(session, maxChanges, env).ok && k < |commands|
  {
    var s := Run(session, maxChanges, env, commands[..k]);
    Strands(s, commands[k]) && SinkAccepts(s)
  }

  lemma StepExactly(s: Sys, command: Command)
    requires Inv(s)
    ensures NamesInv(Exec(s, command).s)
            <==> NamesInv(s) && !(Strands(s, command) && SinkAccepts(s))
  {
    hide Window, ChainInv, DebtInv, WindowsInv, MarksInv, Exec, Strands, NamesAgree, Prefix, SnapshotOps;
    var t := Exec(s, command).s;
    ExecInv(s, command);
    ExecGrows(s, command);
    if NamesInv(s) {
      if Strands(s, command) {
        StrandedCommand(s, command);
      }
    } else if NamesInv(t) {
      NamesBroken(s.log, t.log);
      HeldNotAhead(s);
    }
  }

  lemma HeldNotAhead(s: Sys)
    requires ChainInv(s)
    ensures !HeldCurrent(s) ==> Lost(s)
  {
  }

  lemma StrandedEarlier(session: string, maxChanges: nat, env: Env, commands: seq<Command>, k: nat)
    requires Initialize(session, maxChanges, env).ok && k + 1 < |commands|
    ensures StrandedAt(session, maxChanges, env, commands[..|commands| - 1], k)
            <==> StrandedAt(session, maxChanges, env, commands, k)
  {
    hide Strands, Initialize;
    assert commands[..|commands| - 1][..k] == commands[..k];
  }

  lemma LastInStep(session: string, maxChanges: nat, env: Env, commands: seq<Command>)
    requires Initialize(session, maxChanges, env).ok && commands != []
    ensures var n := |commands| - 1;
            NamesInv(Run(session, maxChanges, env, commands))
            <==> NamesInv(Run(session, maxChanges, env, commands[..n])) && !StrandedAt(session, maxChanges, env, commands, n)
  {
    hide Inv, NamesInv, Strands, Initialize, Exec, Run, SinkAccepts;
    var init, command := commands[..|commands| - 1], commands[|commands| - 1];
    RunInv(session, maxChanges, env, init);
    StepExactly(Run(session, maxChanges, env, init), command);
    RunStep(session, maxChanges, env, init, command);
    assert init + [command] == commands;
  }

  /** In every session: the held event carries the current sequence number and every mark, flush and end
    * names the newest snapshot event before it, if and only if no command ever stranded a held event. */
  lemma {:induction false} InStepExactly(session: string, maxChanges: nat, env: Env, commands: seq<Command>)
    requires Initialize(session, maxChanges, env).ok
    ensures NamesInv(Run(session, maxChanges, env, commands))
            <==> forall k :: 0 <= k < |commands| ==> !StrandedAt(session, maxChanges, env, commands, k)
  {
    hide NamesInv, Initialize, StrandedAt, Run;
    if commands == [] {
      FirstInStep(session, maxChanges, env);
    } else {
      var n := |commands| - 1;
      InStepExactly(session, maxChanges, env, commands[..n]);
      LastInStep(session, maxChanges, env, commands);
      forall k | 0 <= k < n
        ensures StrandedAt(session, maxChanges, env, commands[..n], k) <==> StrandedAt(session, maxChanges, env, commands, k)
      {
        StrandedEarlier(session, maxChanges, env, commands, k);
      }
    }
  }

  lemma FirstInStep(session: string, maxChanges: nat, env: Env)
    requires Initialize(session, maxChanges, env).ok
    ensures NamesInv(Run(session, maxChanges, env, []))
  {
    hide NamesInv, Initialize;
    InitialChain(session, maxChanges, env);
  }

  // ---------------------------------------------------------------- the witness

  /** A sink that refuses its third request: the first snapshot event. */
  const REFUSING := Env([], (n: nat) => n != 3, (n: nat) => map[], 0)

  /** The first command's outcome: the snapshot is captured and held, and nothing is pending. */
  lemma WitnessSnap(session: string, maxChanges: nat)
    ensures Initialize(session, maxChanges, REFUSING).ok
    ensures var s := Initialize(session, maxChanges, REFUSING).s;
            && Window(s)
            && var t := Exec(s, Snap).s;
            && t.running && t.c.held.Some? && t.c.held.value.seqNo == t.c.seqNo == 1
            && !t.c.pending && t.c.touched == map[] && t.c.overflows == [] && t.acc == EMPTY_AUDIT
            && t.env == REFUSING.(clock := 4) && t.log == s.log
  {
    hide SnapshotOf, Captured;
    var s := Initialize(session, maxChanges, REFUSING).s;
    assert s.env == REFUSING.(clock := 2);
    DrainFacts(s);
    var d := DrainAudit(s);
    assert d.c.pending == s.c.pending && d.c.touched == map[] && d.c.overflows == [];
    assert EmitOverflows(d) == Outcome(d, true);
    assert EmitAudit(d) == Outcome(d, true);
  }

  /** The guarantee does fail: `Snap` on a clean window with the snapshot event refused, then a mark, and
    * the session is out of step for good. */
  lemma WitnessLost(session: string, maxChanges: nat)
    ensures Initialize(session, maxChanges, REFUSING).ok
    ensures var t := Run(session, maxChanges, REFUSING, [Snap, MarkAs("m")]);
            Lost(t) && !NamesAgree(t.log) && Exec(t, Snap) == Outcome(t, false)
  {
    hide Window, ChainInv, DebtInv, WindowsInv, MarksInv, Initialize, Exec, NamesAgree;
    WitnessSnap(session, maxChanges);
    var s := Initialize(session, maxChanges, REFUSING).s;
    InitialChain(session, maxChanges, REFUSING);
    InitialRest(session, maxChanges, REFUSING);
    ExecInv(s, Snap);
    var t := Exec(s, Snap).s;
    WitnessMark(t);
    var commands := [Snap, MarkAs("m")];
    assert commands[..1] == [Snap];
    assert [Snap][..0] == [];
    assert Continue(s, []) == s;
    assert Continue(s, [Snap]) == t;
    assert Continue(s, commands) == Exec(t, MarkAs("m")).s;
    ExecWindow(t, MarkAs("m"));
    LostSnap(Exec(t, MarkAs("m")).s);
  }

  lemma WitnessMark(t: Sys)
    requires Inv(t) && t.running && t.c.held.Some? && HeldCurrent(t)
    requires !t.c.pending && t.c.touched == map[] && t.c.overflows == [] && t.acc == EMPTY_AUDIT
    requires t.env == REFUSING.(clock := 4)
    ensures Lost(Exec(t, MarkAs("m")).s) && !NamesAgree(Exec(t, MarkAs("m")).s.log)
  {
    hide ChainInv, DebtInv, WindowsInv, MarksInv, DrainAudit, Rep, NamesAgree;
    DrainedInv(t);
    DrainFacts(t);
    var d := DrainAudit(t);
    assert DrainAndSettle(t) == Outcome(d, true);
    PostedWhileHeld(d, Mark("m", d.rec.op));
  }
}
