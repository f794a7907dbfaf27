/** When a fresh snapshot is a full scan.
  *
  * The schema says every overflow forces a full scan.  The coordinator's own path limit queues an overflow
  * without asking for one, so the promise holds exactly for overflows that came from the accumulator.
  */
module PathLimit {
  import opened Schema
  import opened Audit
  import opened Recorder
  import opened Coordination

  /** The notices the next drain brings from the accumulator. */
  function DrainedNotices(s: Sys): seq<Notice> {
    DrainBatch(BeforeDrain(s).acc).overflows
  }

  /** Step `k` of the trace accepts an overflow event for notice `n`. */
  ghost predicate AnnouncedAt(trace: seq<Step>, k: nat, n: Notice) {
    k < |trace| && trace[k].Accepted? && trace[k].event.body == Overflow(n.source, n.rawEvents)
  }

  /** The trace ends with a capture, full or not, and its snapshot event. */
  ghost predicate EndsWithCapture(trace: seq<Step>, full: bool) {
    && |trace| >= 2
    && trace[|trace| - 2].Recorded? && trace[|trace| - 2].full == full
    && trace[|trace| - 1].Accepted? && trace[|trace| - 1].event.body.SnapshotTaken?
  }

  /** `b` extends `a` by accepted events. */
  ghost predicate OnlyAccepts(a: seq<Step>, b: seq<Step>) {
    a <= b && forall k :: |a| <= k < |b| ==> b[k].Accepted?
  }

  /** `b` extends `a`, and every capture in between is a full scan or none is. */
  ghost predicate Captures(a: seq<Step>, b: seq<Step>, full: bool) {
    a <= b && forall k :: |a| <= k < |b| && b[k].Recorded? ==> b[k].full == full
  }

  lemma {:induction false} OverflowsKeep(s: Sys)
    ensures var r := EmitOverflows(s);
            && r.s.c.forceFull == s.c.forceFull && OnlyAccepts(s.trace, r.s.trace)
            && (r.ok && s.c.overflows != [] ==> AnnouncedAt(r.s.trace, |s.trace|, s.c.overflows[0]))
    decreases |s.c.overflows|
  {
    hide AnnouncedAt;
    if s.c.overflows != [] {
      FirstAnnounced(s);
      var r := EmitFirstOverflow(s);
      if r.ok {
        OverflowsKeep(r.s);
        StillAnnounced(r.s.trace, EmitOverflows(r.s).s.trace, |s.trace|, s.c.overflows[0]);
      }
    }
  }

  lemma FirstAnnounced(s: Sys)
    requires s.c.overflows != []
    ensures var r := EmitFirstOverflow(s);
            && r.s.c.forceFull == s.c.forceFull && OnlyAccepts(s.trace, r.s.trace)
            && (r.ok ==> AnnouncedAt(r.s.trace, |s.trace|, s.c.overflows[0]))
  {
  }

  lemma StillAnnounced(a: seq<Step>, b: seq<Step>, k: nat, n: Notice)
    requires a <= b && AnnouncedAt(a, k, n)
    ensures AnnouncedAt(b, k, n)
  {
  }

  lemma AuditKeeps(s: Sys)
    ensures EmitAudit(s).s.c.forceFull == s.c.forceFull && OnlyAccepts(s.trace, EmitAudit(s).s.trace)
  {
  }

  lemma CaptureEnds(s: Sys)
    requires CaptureAndHold(s).ok && EmitPrepared(CaptureAndHold(s).s).ok
    ensures var t := EmitPrepared(CaptureAndHold(s).s).s;
            Captures(s.trace, t.trace, s.c.forceFull) && EndsWithCapture(t.trace, s.c.forceFull)
  {
    hide SnapshotOf, Captured;
  }

  lemma DrainForces(s: Sys)
    requires Window(s)
    ensures DrainAudit(s).c.forceFull <==> s.c.forceFull || DrainedNotices(s) != []
  {
    hide Merged, BeforeDrain;
    BeforeDrainFacts(s);
    MergedFacts(s.c, DrainBatch(BeforeDrain(s).acc));
  }

  /** A fresh snapshot that succeeds ends with a capture and its snapshot event.  The capture is a full scan
    * if and only if one was already due or the accumulator reported an overflow; if anything was queued,
    * an overflow event was accepted by the same snapshot before the capture; and it captured only once. */
  lemma FullScanExactly(s: Sys)
    requires Window(s) && FreshSnapshot(s).ok
    ensures var d, t := DrainAudit(s), FreshSnapshot(s).s;
            && EndsWithCapture(t.trace, s.c.forceFull || DrainedNotices(s) != [])
            && Captures(d.trace, t.trace, s.c.forceFull || DrainedNotices(s) != [])
            && (d.c.overflows != [] ==> AnnouncedAt(t.trace, |d.trace|, d.c.overflows[0]))
  {
    hide DrainAudit, EmitOverflows, EmitAudit, CaptureAndHold, EmitPrepared, DrainedNotices, Window, AnnouncedAt,
      EndsWithCapture;
    DrainForces(s);
    var d := DrainAudit(s);
    OverflowsKeep(d);
    var r1 := EmitOverflows(d).s;
    AuditKeeps(r1);
    var r2 := EmitAudit(r1).s;
    CaptureEnds(r2);
    if d.c.overflows != [] {
      StillAnnounced(r1.trace, FreshSnapshot(s).s.trace, |d.trace|, d.c.overflows[0]);
    }
  }

  /** The coordinator's own path limit, alone: the window is full, the next batch brings a new path and no
    * notice, so an overflow is queued and no full scan is asked for. */
  lemma LimitAloneForcesNothing(c: Coord, b: AuditBatch, p: Path)
    requires |c.touched| == MAX_AUDIT_PATHS && c.startedAt.Some? && !c.pathLimitReported && !c.forceFull
    requires c.overflows == [] && b.overflows == [] && b.paths.Keys == {p} && p !in c.touched
    ensures var m := Merged(c, b);
            && m.overflows == [Notice(PATH_LIMIT_SOURCE, SaturatingAdd(c.rawEvents, b.rawEvents), FromCoordinator)]
            && !m.forceFull && m.touched == c.touched && m.pending
  {
    var order := Sorted(b.paths.Keys);
    OneInOrder(order, p);
    assert order[..0] == [];
    assert MergePaths(c, b, order[..0]) == c;
    assert c.touched != map[];
  }

  lemma OneInOrder(order: seq<Path>, p: Path)
    requires order == Sorted({p})
    ensures order == [p]
  {
  }
}
