/** The overflow obligation: once the loss of notifications has been announced, nothing may claim a
  * point in time before a full scan has been captured and accepted.
  */
module OverflowObligation {
  import opened Schema
  import opened Audit
  import opened Recorder
  import opened Coordination
  import opened Moves
  import opened Chain

  /** What the announced overflows still demand. */
  datatype Debt = Clear | Owed | Covered(op: Operation)

  predicate Announces(x: Step) {
    x.Accepted? && x.event.body.Overflow? && x.origin == Some(FromAccumulator)
  }

  /** A mark, flush or session end. */
  predicate IsPost(x: Step) {
    x.Accepted? && (x.event.body.Mark? || x.event.body.Flush? || x.event.body.SessionEnd?)
  }

  function NextDebt(d: Debt, x: Step): Debt {
    if Announces(x) then Owed
    else if x.Recorded? && x.full && d == Owed then Covered(x.op)
    else if x.Accepted? && x.event.body.SnapshotTaken? && d == Covered(x.event.body.snapshot.op) then Clear
    else d
  }

  function DebtOf(trace: seq<Step>): Debt {
    if trace == [] then Clear else NextDebt(DebtOf(trace[..|trace| - 1]), trace[|trace| - 1])
  }

  lemma DebtOfAppend(trace: seq<Step>, x: Step)
    ensures DebtOf(trace + [x]) == NextDebt(DebtOf(trace), x)
  {
    PrefixOfAppend(trace, x, |trace|);
    assert trace[..|trace|] == trace;
  }

  /** Whenever a mark, flush or end was accepted, no overflow was waiting for its full scan. */
  ghost predicate DebtsPaid(trace: seq<Step>) {
    forall k :: 0 <= k < |trace| && IsPost(trace[k]) ==> DebtOf(trace[..k]) == Clear
  }

  lemma DebtsPaidAppend(trace: seq<Step>, x: Step)
    requires DebtsPaid(trace)
    requires IsPost(x) ==> DebtOf(trace) == Clear
    ensures DebtsPaid(trace + [x])
  {
    hide DebtOf, IsPost;
    var t := trace + [x];
    forall k | 0 <= k < |t| && IsPost(t[k]) ensures DebtOf(t[..k]) == Clear {
      PrefixOfAppend(trace, x, k);
      assert trace[..|trace|] == trace;
    }
  }

  /** The coordinator's flags reflect the debt. */
  ghost predicate DebtHeld(c: Coord, d: Debt) {
    && (forall n :: n in c.overflows && n.origin == FromAccumulator ==> c.forceFull)
    && match d
       case Clear => true
       case Owed => c.forceFull && c.pending && c.held.None?
       case Covered(op) =>
         c.pending && c.held.Some? && c.held.value.body.SnapshotTaken? && c.held.value.body.snapshot.op == op
  }

  ghost predicate DebtInv(s: Sys) {
    DebtsPaid(s.trace) && DebtHeld(s.c, DebtOf(s.trace))
  }

  lemma DebtStep(s: Sys, t: Sys, x: Step)
    requires DebtInv(s) && t.trace == s.trace + [x]
    requires IsPost(x) ==> DebtOf(s.trace) == Clear
    requires DebtHeld(t.c, NextDebt(DebtOf(s.trace), x))
    ensures DebtInv(t)
  {
    hide DebtOf, DebtsPaid, NextDebt, DebtHeld;
    DebtOfAppend(s.trace, x);
    DebtsPaidAppend(s.trace, x);
  }

  lemma MergedOverflows(c: Coord, b: AuditBatch)
    requires |c.touched| <= MAX_AUDIT_PATHS
    ensures var r := Merged(c, b);
            && (b.overflows == [] ==> forall n :: n in r.overflows && n.origin == FromAccumulator ==> n in c.overflows)
            && (b.overflows != [] ==> r.forceFull)
            && (c.forceFull ==> r.forceFull)
  {
    var c1 := if c.startedAt.None? then c.(startedAt := b.startedAt) else c;
    MergePathsFacts(c1, b, Sorted(b.paths.Keys));
  }

  lemma DrainDebt(s: Sys)
    requires Window(s) && DebtInv(s)
    ensures DebtInv(Do(s, DrainMove))
  {
    hide Merged, DebtOf, DebtsPaid, Rep;
    var b := DrainBatch(s.acc);
    DrainMoveFrame(s);
    DrainMoveFlags(s);
    MergedOverflows(s.c, b);
    DebtStep(s, Do(s, DrainMove), Drained);
  }

  lemma DrainMoveFlags(s: Sys)
    requires Window(s)
    ensures var r := Merged(s.c, DrainBatch(s.acc)); s.c.pending ==> r.pending
  {
    hide Merged;
    MergedFacts(s.c, DrainBatch(s.acc));
  }

  lemma MoveDebt(s: Sys, m: Move)
    requires Window(s) && ChainInv(s) && DebtInv(s) && Enabled(s, m)
    ensures DebtInv(Do(s, m))
  {
    hide DebtOf, DebtsPaid, Rep, SnapshotOf, Captured, Merged, LogInv, TraceInv, Linked, CommitsBelow, LatestOp,
      Consistent;
    var t := Do(s, m);
    match m
    case ArriveMove(n) => DebtStep(s, t, Arrived(n, s.env.clock));
    case DrainMove => DrainDebt(s);
    case OverflowMove =>
      var n := s.c.overflows[0];
      assert n in s.c.overflows;
      DebtStep(s, t, Accepted(NewEvent(s, Overflow(n.source, n.rawEvents)), Some(n.origin)));
    case AuditMove =>
      DebtStep(s, t, Accepted(NewEvent(s, TouchedPaths(s.c.touched, s.c.rawEvents, s.c.startedAt.value)), None));
    case CaptureMove(tree) =>
      DebtStep(s, t, Recorded(SnapshotOf(s.rec, tree, s.c.maxChanges).op, s.c.forceFull, s.env.clock));
    case RetryMove => DebtStep(s, t, Accepted(s.c.held.value, None));
    case PreparedMove => DebtStep(s, t, Accepted(s.c.held.value, None));
    case PostMove(body) => DebtStep(s, t, Accepted(NewEvent(s, body), None));
    case RequestMove(done) =>
      DebtStep(s, t, Requested(FlushRequest(s.c.seqNo - 1, s.rec.op, s.rec.commit), done));
    case _ =>
  }

  // ---------------------------------------------------------------- what a clear debt means

  /** A full scan captured and then accepted, both after step `i` of the trace. */
  ghost predicate FullScanAfter(trace: seq<Step>, i: nat) {
    exists m, n :: i < m < n < |trace| && FullScanAt(trace, m, n)
  }

  ghost predicate FullScanAt(trace: seq<Step>, m: nat, n: nat)
    requires m < n < |trace|
  {
    && trace[m].Recorded? && trace[m].full
    && trace[n].Accepted? && trace[n].event.body.SnapshotTaken?
    && trace[n].event.body.snapshot.op == trace[m].op
  }

  ghost predicate CapturedFullAfter(trace: seq<Step>, i: nat, op: Operation) {
    exists m :: i < m < |trace| && trace[m].Recorded? && trace[m].op == op && trace[m].full
  }

  lemma {:induction false} DebtSince(trace: seq<Step>, i: nat)
    requires i < |trace| && Announces(trace[i])
    ensures match DebtOf(trace)
            case Clear => FullScanAfter(trace, i)
            case Owed => true
            case Covered(op) => FullScanAfter(trace, i) || CapturedFullAfter(trace, i, op)
  {
    var n := |trace| - 1;
    var init, x := trace[..n], trace[n];
    if i < n {
      DebtSince(init, i);
      if FullScanAfter(init, i) {
        var m, k :| i < m < k < |init| && FullScanAt(init, m, k);
        assert FullScanAt(trace, m, k);
      } else if DebtOf(init).Covered? {
        var op := DebtOf(init).op;
        var m :| i < m < |init| && init[m].Recorded? && init[m].op == op && init[m].full;
        assert trace[m] == init[m];
        if x.Accepted? && x.event.body.SnapshotTaken? && x.event.body.snapshot.op == op {
          assert FullScanAt(trace, m, n);
        }
      }
    }
  }

  /** In a trace whose debts are paid, a full scan lies between an announced overflow and any later
    * mark, flush or session end. */
  lemma FullScanBetween(trace: seq<Step>, i: nat, k: nat)
    requires DebtsPaid(trace)
    requires i < k < |trace| && Announces(trace[i]) && IsPost(trace[k])
    ensures exists m, n :: i < m < n < k && FullScanAt(trace, m, n)
  {
    DebtSince(trace[..k], i);
    var m, n :| i < m < n < |trace[..k]| && FullScanAt(trace[..k], m, n);
    assert FullScanAt(trace, m, n);
  }
}
