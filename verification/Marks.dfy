/** Marks, flushes and session ends: which operation they name and what has been captured by then. */
module Marks {
  import opened Schema
  import opened Audit
  import opened Recorder
  import opened Coordination
  import opened Moves
  import opened Chain
  import opened OverflowObligation

  // ---------------------------------------------------------------- captured after every drained observation

  /** Notifications that arrived since the last capture: still accumulating, or drained. */
  datatype Unseen = Unseen(arriving: bool, drained: bool)

  function NextUnseen(u: Unseen, x: Step): Unseen {
    match x
    case Arrived(n, _) => u.(arriving := u.arriving || Effective(n))
    case Drained => Unseen(false, u.drained || u.arriving)
    case Recorded(_, _, _) => Unseen(false, false)
    case _ => u
  }

  function UnseenOf(trace: seq<Step>): Unseen {
    if trace == [] then Unseen(false, false)
    else NextUnseen(UnseenOf(trace[..|trace| - 1]), trace[|trace| - 1])
  }

  lemma UnseenAppend(trace: seq<Step>, x: Step)
    ensures UnseenOf(trace + [x]) == NextUnseen(UnseenOf(trace), x)
  {
    PrefixOfAppend(trace, x, |trace|);
    assert trace[..|trace|] == trace;
  }

  /** The event at `k`, if a mark, flush or end, comes after a capture of all that was drained; an end
    * also reports its own position and the number of snapshot events before it. */
  ghost predicate PostTimely(trace: seq<Step>, x: Step) {
    IsPost(x) ==>
      && !UnseenOf(trace).drained
      && (x.event.body.SessionEnd? ==>
            && x.event.body.events == x.event.seqNo == |LogOf(trace)|
            && x.event.body.snapshots == |SnapshotOps(LogOf(trace))|)
      && (x.event.body.Flush? ==> x.event.body.throughSeq == x.event.seqNo == |LogOf(trace)|)
  }

  ghost predicate PostsTimely(trace: seq<Step>) {
    forall k :: 0 <= k < |trace| ==> PostTimely(trace[..k], trace[k])
  }

  lemma PostsTimelyAppend(trace: seq<Step>, x: Step)
    requires PostsTimely(trace) && PostTimely(trace, x)
    ensures PostsTimely(trace + [x])
  {
    hide PostTimely;
    var t := trace + [x];
    forall k | 0 <= k < |t| ensures PostTimely(t[..k], t[k]) {
      PrefixOfAppend(trace, x, k);
      assert trace[..|trace|] == trace;
    }
  }

  ghost predicate SeenHeld(s: Sys, u: Unseen) {
    && (u.arriving ==> IsDirty(s.acc))
    && (u.drained ==> s.c.pending)
    && (u.drained && s.c.held.Some? ==> s.c.touched != map[] || s.c.overflows != [])
  }

  ghost predicate MarksInv(s: Sys) {
    PostsTimely(s.trace) && SeenHeld(s, UnseenOf(s.trace))
  }

  lemma MarksStep(s: Sys, t: Sys, x: Step)
    requires MarksInv(s) && t.trace == s.trace + [x]
    requires PostTimely(s.trace, x) && SeenHeld(t, NextUnseen(UnseenOf(s.trace), x))
    ensures MarksInv(t)
  {
    hide UnseenOf, PostTimely, NextUnseen, SeenHeld, PostsTimely;
    UnseenAppend(s.trace, x);
    PostsTimelyAppend(s.trace, x);
  }

  lemma DrainSeen(s: Sys, u: Unseen)
    requires Window(s) && SeenHeld(s, u)
    ensures SeenHeld(Do(s, DrainMove), NextUnseen(u, Drained))
  {
    hide Merged, MergePaths;
    var b := DrainBatch(s.acc);
    MergedFacts(s.c, b);
    MergedKeeps(s.c, b);
    if u.arriving && s.acc.paths == map[] {
      assert s.acc.overflows != [];
      assert b.overflows != [];
    }
  }

  lemma MergedKeeps(c: Coord, b: AuditBatch)
    requires |c.touched| <= MAX_AUDIT_PATHS
    ensures var r := Merged(c, b);
            && (c.touched != map[] || b.paths != map[] ==> r.touched != map[])
            && (c.overflows != [] || b.overflows != [] ==> r.overflows != [])
  {
    hide Sorted, MergePaths, MergePath;
    var c1 := if c.startedAt.None? then c.(startedAt := b.startedAt) else c;
    SomeInOrder(b.paths);
    MergePathsFacts(c1, b, Sorted(b.paths.Keys));
  }

  lemma SomeInOrder(paths: PathOps)
    ensures paths != map[] ==> Sorted(paths.Keys) != []
  {
    hide Sorted;
    if p :| p in paths {
      assert p in Sorted(paths.Keys);
    }
  }

  lemma PostMarks(s: Sys, body: EventBody)
    requires ChainInv(s) && MarksInv(s) && Enabled(s, PostMove(body))
    ensures MarksInv(Do(s, PostMove(body)))
  {
    hide UnseenOf, PostsTimely, SnapshotOps, LogOf, Chained, Linked, HeldInv, CommitsBelow, LatestOp, RequestsCover;
    MarksStep(s, Do(s, PostMove(body)), Accepted(NewEvent(s, body), None));
  }

  lemma MoveMarks(s: Sys, m: Move)
    requires Window(s) && ChainInv(s) && MarksInv(s) && Enabled(s, m)
    ensures MarksInv(Do(s, m))
  {
    hide UnseenOf, PostsTimely, SnapshotOf, Captured, Merged, LogInv, TraceInv, Linked, CommitsBelow, LatestOp,
      Consistent, Notified, Effective;
    var t := Do(s, m);
    match m
    case ArriveMove(n) =>
      NotifiedRep(s.acc, n);
      MarksStep(s, t, Arrived(n, s.env.clock));
    case DrainMove =>
      DrainSeen(s, UnseenOf(s.trace));
      MarksStep(s, t, Drained);
    case OverflowMove =>
      var n := s.c.overflows[0];
      MarksStep(s, t, Accepted(NewEvent(s, Overflow(n.source, n.rawEvents)), Some(n.origin)));
    case AuditMove =>
      MarksStep(s, t, Accepted(NewEvent(s, TouchedPaths(s.c.touched, s.c.rawEvents, s.c.startedAt.value)), None));
    case CaptureMove(tree) =>
      MarksStep(s, t, Recorded(SnapshotOf(s.rec, tree, s.c.maxChanges).op, s.c.forceFull, s.env.clock));
    case RetryMove => MarksStep(s, t, Accepted(s.c.held.value, None));
    case PreparedMove => MarksStep(s, t, Accepted(s.c.held.value, None));
    case PostMove(body) => PostMarks(s, body);
    case RequestMove(done) =>
      MarksStep(s, t, Requested(FlushRequest(s.c.seqNo - 1, s.rec.op, s.rec.commit), done));
    case _ =>
  }

  /** If nothing drained is unseen, a capture separates any earlier drained notification from here. */
  lemma {:induction false} SeenMeans(trace: seq<Step>, i: nat, j: nat)
    requires i < j < |trace| && trace[i].Arrived? && Effective(trace[i].n) && trace[j].Drained?
    ensures UnseenOf(trace).drained || exists m :: i < m < |trace| && trace[m].Recorded?
  {
    var n := |trace| - 1;
    var init := trace[..n];
    if j < n {
      SeenMeans(init, i, j);
      if m :| i < m < |init| && init[m].Recorded? {
        assert trace[m].Recorded?;
      }
    } else {
      ArrivalPends(init, i);
      if m :| i < m < |init| && init[m].Recorded? {
        assert trace[m].Recorded?;
      }
    }
  }

  lemma {:induction false} ArrivalPends(trace: seq<Step>, i: nat)
    requires i < |trace| && trace[i].Arrived? && Effective(trace[i].n)
    ensures UnseenOf(trace).arriving || UnseenOf(trace).drained || exists m :: i < m < |trace| && trace[m].Recorded?
  {
    var n := |trace| - 1;
    var init := trace[..n];
    if i < n {
      ArrivalPends(init, i);
      if m :| i < m < |init| && init[m].Recorded? {
        assert trace[m].Recorded?;
      } else if trace[n].Recorded? {
        assert trace[n].Recorded?;
      }
    }
  }

  // ---------------------------------------------------------------- which operation is named

  /** The operation a mark, flush or end names. */
  function NamedOp(body: EventBody): Operation {
    match body
    case Mark(_, op) => op
    case Flush(op, _) => op
    case SessionEnd(op, _, _, _) => op
    case _ => RootOperation
  }

  ghost predicate NamesLatest(log: seq<Event>, e: Event) {
    e.body.Mark? || e.body.Flush? || e.body.SessionEnd? ==> NamedOp(e.body) == LatestOp(log)
  }

  /** Every mark, flush and end names the newest snapshot event before it (or the baseline). */
  ghost predicate NamesAgree(log: seq<Event>) {
    forall k :: 0 <= k < |log| ==> NamesLatest(log[..k], log[k])
  }

  lemma NamesAgreeAppend(log: seq<Event>, e: Event)
    requires NamesAgree(log) && NamesLatest(log, e)
    ensures NamesAgree(log + [e])
  {
    hide NamesLatest;
    var l := log + [e];
    forall k | 0 <= k < |l| ensures NamesLatest(l[..k], l[k]) {
      PrefixOfAppend(log, e, k);
      assert log[..|log|] == log;
    }
  }

  /** No sequence number was given away while a snapshot event was held. */
  ghost predicate HeldCurrent(s: Sys) {
    s.c.held.Some? ==> s.c.held.value.seqNo == s.c.seqNo
  }

  ghost predicate NamesInv(s: Sys) {
    HeldCurrent(s) && NamesAgree(s.log)
  }

  lemma MoveNames(s: Sys, m: Move)
    requires Window(s) && ChainInv(s) && NamesInv(s) && MayDo(true, s, m)
    ensures NamesInv(Do(s, m))
  {
    hide SnapshotOf, Captured, Merged, LogInv, TraceInv, Linked, CommitsBelow, LatestOp, Consistent, Notified,
      NamesAgree;
    match m
    case DrainMove => DrainMoveFrame(s);
    case OverflowMove =>
      var n := s.c.overflows[0];
      NamesAgreeAppend(s.log, NewEvent(s, Overflow(n.source, n.rawEvents)));
    case AuditMove =>
      NamesAgreeAppend(s.log, NewEvent(s, TouchedPaths(s.c.touched, s.c.rawEvents, s.c.startedAt.value)));
    case RetryMove => NamesAgreeAppend(s.log, s.c.held.value);
    case PreparedMove => NamesAgreeAppend(s.log, s.c.held.value);
    case PostMove(body) => NamesAgreeAppend(s.log, NewEvent(s, body));
    case _ =>
  }
}
