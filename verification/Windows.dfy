/** Audit windows: the two bounded accumulators together refine one unbounded union.
  *
  * The tally below follows the trace and remembers every touch without any bound: those of the current
  * accumulator window, and those of each window drained since the last touched_paths event.
  */
module Windows {
  import opened Schema
  import opened Audit
  import opened Recorder
  import opened Coordination
  import opened Moves
  import opened Chain
  import opened OverflowObligation
  import opened Tables

  /** Touches not yet drained, the batches of touches drained since the last touched_paths event, and whether
    * a path-limit overflow was accepted since then. */
  datatype Tally = Tally(arriving: seq<Touch>, batches: seq<seq<Touch>>, limitSeen: bool)

  ghost function NextTally(t: Tally, x: Step): Tally {
    match x
    case Arrived(n, _) => t.(arriving := t.arriving + Touches(n))
    case Drained => t.(arriving := [], batches := t.batches + [t.arriving])
    case Accepted(e, _) =>
      if e.body.TouchedPaths? then t.(batches := [], limitSeen := false)
      else if e.body.Overflow? && e.body.source == PATH_LIMIT_SOURCE then t.(limitSeen := true)
      else t
    case _ => t
  }

  ghost function TallyOf(trace: seq<Step>): Tally {
    if trace == [] then Tally([], [], false) else NextTally(TallyOf(trace[..|trace| - 1]), trace[|trace| - 1])
  }

  /** Raw notifications observed, and raw notifications reported by touched_paths events. */
  function RawArrived(trace: seq<Step>): nat {
    if trace == [] then 0
    else
      RawArrived(trace[..|trace| - 1])
      + if trace[|trace| - 1].Arrived? then NoteRaw(trace[|trace| - 1].n) else 0
  }

  function RawEmitted(trace: seq<Step>): nat {
    if trace == [] then 0
    else
      RawEmitted(trace[..|trace| - 1])
      + var x := trace[|trace| - 1];
        if x.Accepted? && x.event.body.TouchedPaths? then x.event.body.touchedRaw else 0
  }

  lemma TallyAppend(trace: seq<Step>, x: Step)
    ensures TallyOf(trace + [x]) == NextTally(TallyOf(trace), x)
    ensures RawArrived(trace + [x]) == RawArrived(trace) + if x.Arrived? then NoteRaw(x.n) else 0
    ensures RawEmitted(trace + [x])
            == RawEmitted(trace) + if x.Accepted? && x.event.body.TouchedPaths? then x.event.body.touchedRaw else 0
  {
    PrefixOfAppend(trace, x, |trace|);
    assert trace[..|trace|] == trace;
  }

  /** Each touched_paths event reports exactly the table of the batches drained in its window; and if any path
    * was turned away, within a batch or from that table, an overflow event gave notice of it before. */
  ghost predicate WindowReported(t: Tally, x: Step) {
    x.Accepted? && x.event.body.TouchedPaths? ==>
      && x.event.body.paths == TableOf(Merge(t.batches))
      && (Limited(t.batches) ==> t.limitSeen)
  }

  /** When a mark, flush or end is accepted, the window is empty: all that was drained has been emitted. */
  ghost predicate WindowClosed(t: Tally, x: Step) {
    IsPost(x) ==> AllEmpty(t.batches)
  }

  ghost predicate WindowsExact(trace: seq<Step>) {
    forall k :: 0 <= k < |trace|
                ==> WindowReported(TallyOf(trace[..k]), trace[k]) && WindowClosed(TallyOf(trace[..k]), trace[k])
  }

  lemma WindowsExactAppend(trace: seq<Step>, x: Step)
    requires WindowsExact(trace)
    requires WindowReported(TallyOf(trace), x) && WindowClosed(TallyOf(trace), x)
    ensures WindowsExact(trace + [x])
  {
    hide TallyOf, WindowReported, WindowClosed;
    var t := trace + [x];
    forall k | 0 <= k < |t| ensures WindowReported(TallyOf(t[..k]), t[k]) && WindowClosed(TallyOf(t[..k]), t[k]) {
      PrefixOfAppend(trace, x, k);
      assert trace[..|trace|] == trace;
    }
  }

  // ---------------------------------------------------------------- the invariant

  /** A path-limit notice is queued, or one was accepted in this window. */
  ghost predicate Noted(c: Coord, limitSeen: bool) {
    limitSeen || exists n :: n in c.overflows && n.source == PATH_LIMIT_SOURCE
  }

  /** The coordinator holds the table of the touches `es`, and has noted whether it turned any path away. */
  ghost predicate Held(c: Coord, es: seq<Touch>) {
    c.touched == TableOf(es) && (c.pathLimitReported <==> TurnedAway(es) != {})
  }

  /** Both stages hold exactly the tables of what they were given. */
  ghost predicate Kept(c: Coord, acc: AuditState, t: Tally) {
    && Accumulated(acc, t.arriving)
    && Held(c, Merge(t.batches))
    && (Limited(t.batches) ==> Noted(c, t.limitSeen))
  }

  /** Until 2^64 raw notifications have been observed, every one is emitted, retained or accumulating. */
  ghost predicate RawKept(c: Coord, acc: AuditState, arrived: nat, emitted: nat) {
    arrived <= U64_MAX ==> arrived == emitted + c.rawEvents + acc.rawEvents
  }

  ghost predicate WindowsInv(s: Sys) {
    && WindowsExact(s.trace)
    && Kept(s.c, s.acc, TallyOf(s.trace))
    && RawKept(s.c, s.acc, RawArrived(s.trace), RawEmitted(s.trace))
  }

  lemma WindowsStep(s: Sys, t: Sys, x: Step)
    requires WindowsInv(s) && t.trace == s.trace + [x]
    requires WindowReported(TallyOf(s.trace), x) && WindowClosed(TallyOf(s.trace), x)
    requires Kept(t.c, t.acc, NextTally(TallyOf(s.trace), x))
    requires RawKept(t.c, t.acc, RawArrived(s.trace) + (if x.Arrived? then NoteRaw(x.n) else 0),
                     RawEmitted(s.trace)
                     + if x.Accepted? && x.event.body.TouchedPaths? then x.event.body.touchedRaw else 0)
    ensures WindowsInv(t)
  {
    hide TallyOf, RawArrived, RawEmitted, WindowsExact, NextTally, Kept, RawKept, WindowReported, WindowClosed;
    TallyAppend(s.trace, x);
    WindowsExactAppend(s.trace, x);
  }

  // ---------------------------------------------------------------- arrival

  lemma NotifiedRaw(s: AuditState, n: Notification)
    requires Rep(s)
    ensures s.rawEvents + NoteRaw(n) <= U64_MAX ==> Notified(s, n).rawEvents == s.rawEvents + NoteRaw(n)
  {
    if n.Observed? && n.touched != [] {
      TouchAllRep(s.(startedAt := OrElse(s.startedAt, n.at), first := OrElse(s.first, n.at), last := Some(n.at),
                  rawEvents := SaturatingAdd(s.rawEvents, n.rawEvents)), n.touched);
    }
  }

  lemma ArriveWindows(s: Sys, n: Notification)
    requires Window(s) && WindowsInv(s)
    ensures WindowsInv(Do(s, ArriveMove(n)))
  {
    hide TallyOf, RawArrived, RawEmitted, WindowsExact, Notified, Touches, NoteRaw, Held, Accumulated, Noted, Rep,
      Limited, Merge;
    NotifiedRaw(s.acc, n);
    NotifiedTable(s.acc, n, TallyOf(s.trace).arriving);
    WindowsStep(s, Do(s, ArriveMove(n)), Arrived(n, s.env.clock));
  }

  // ---------------------------------------------------------------- drain

  lemma MergePathHeld(c: Coord, b: AuditBatch, p: Path, es: seq<Touch>)
    requires p in b.paths && Held(c, es)
    ensures Held(MergePath(c, b, p), es + [Touch(p, b.paths[p])])
  {
    hide TableOf, TurnedAway;
    TableAppend(es, Touch(p, b.paths[p]));
  }

  lemma MergePathNotes(c: Coord, b: AuditBatch, p: Path)
    requires p in b.paths
    ensures var r := MergePath(c, b, p);
            && (forall n :: n in c.overflows ==> n in r.overflows)
            && (r.pathLimitReported ==>
                  c.pathLimitReported || exists n :: n in r.overflows && n.source == PATH_LIMIT_SOURCE)
  {
    var r := MergePath(c, b, p);
    if r.pathLimitReported && !c.pathLimitReported {
      var n := r.overflows[|r.overflows| - 1];
      assert n in r.overflows && n.source == PATH_LIMIT_SOURCE;
    }
  }

  /** Merging a batch path by path puts its entries into the coordinator's table, one after the other. */
  lemma {:induction false} MergePathsHeld(c: Coord, b: AuditBatch, order: seq<Path>, es: seq<Touch>)
    requires (forall p :: p in order ==> p in b.paths) && Held(c, es)
    ensures var r := MergePaths(c, b, order);
            && Held(r, es + EntriesIn(b.paths, order))
            && (forall n :: n in c.overflows ==> n in r.overflows)
            && (r.pathLimitReported ==>
                  c.pathLimitReported || exists n :: n in r.overflows && n.source == PATH_LIMIT_SOURCE)
  {
    hide Held, MergePath;
    if order == [] {
      assert es + EntriesIn(b.paths, order) == es;
    } else {
      var init, p := order[..|order| - 1], order[|order| - 1];
      MergePathsHeld(c, b, init, es);
      var m := MergePaths(c, b, init);
      MergePathHeld(m, b, p, es + EntriesIn(b.paths, init));
      MergePathNotes(m, b, p);
      assert es + EntriesIn(b.paths, order) == es + EntriesIn(b.paths, init) + [Touch(p, b.paths[p])];
    }
  }

  lemma MergedHeld(c: Coord, b: AuditBatch, es: seq<Touch>, limitSeen: bool)
    requires Held(c, es)
    ensures var r := Merged(c, b);
            && Held(r, es + Entries(b.paths))
            && (r.pathLimitReported ==> c.pathLimitReported || Noted(r, limitSeen))
            && (forall n :: n in c.overflows || n in b.overflows ==> n in r.overflows)
  {
    hide MergePaths, Sorted, TableOf, TurnedAway;
    var c1 := if c.startedAt.None? then c.(startedAt := b.startedAt) else c;
    SortedElements(b.paths.Keys);
    MergePathsHeld(c1, b, Sorted(b.paths.Keys), es);
    MergePathsTouched(c, b);
  }

  lemma SortedElements(s: set<Path>)
    ensures forall x :: x in Sorted(s) <==> x in s
  {
  }

  lemma MergePathsTouched(c: Coord, b: AuditBatch)
    ensures var c1 := if c.startedAt.None? then c.(startedAt := b.startedAt) else c;
            var m := MergePaths(c1, b, Sorted(b.paths.Keys));
            var r := Merged(c, b);
            && r.touched == m.touched && r.pathLimitReported == m.pathLimitReported
            && r.overflows == m.overflows + b.overflows
  {
    hide MergePaths, Sorted;
  }

  lemma LimitedAppend(batches: seq<seq<Touch>>, b: seq<Touch>)
    ensures Limited(batches + [b]) ==>
              Limited(batches) || TurnedAway(b) != {} || TurnedAway(Merge(batches + [b])) != {}
    ensures TurnedAway(Merge(batches)) != {} ==> Limited(batches)
  {
    hide Merge, TurnedAway;
  }

  lemma EmptyNotLimited()
    ensures Accumulated(EMPTY_AUDIT, []) && Merge([]) == [] && !Limited([])
    ensures TableOf([]) == map[] && TurnedAway([]) == {}
  {
    assert TableOf([]) == map[];
  }

  lemma DrainKept(c: Coord, acc: AuditState, r: Coord, t: Tally)
    requires Kept(c, acc, t)
    requires Held(r, Merge(t.batches) + Entries(acc.paths))
    requires r.pathLimitReported ==> c.pathLimitReported || Noted(r, t.limitSeen)
    requires forall n :: n in c.overflows || n in DrainBatch(acc).overflows ==> n in r.overflows
    ensures Kept(r, EMPTY_AUDIT, NextTally(t, Drained))
  {
    hide Merge, TurnedAway, TableOf, Entries, Limited;
    EmptyNotLimited();
    MergeAppend(t.batches, t.arriving);
    LimitedAppend(t.batches, t.arriving);
    assert Noted(c, t.limitSeen) ==> Noted(r, t.limitSeen);
    if acc.pathLimitReported {
      var b := DrainBatch(acc);
      assert b.overflows[|b.overflows| - 1] in r.overflows;
      assert Noted(r, t.limitSeen);
    }
  }

  lemma DrainWindows(s: Sys)
    requires Window(s) && WindowsInv(s)
    ensures WindowsInv(Do(s, DrainMove))
  {
    hide TallyOf, RawArrived, RawEmitted, WindowsExact, Merged, Rep, Held, Accumulated, Limited, Merge, Entries;
    var t := TallyOf(s.trace);
    var b := DrainBatch(s.acc);
    MergedHeld(s.c, b, Merge(t.batches), t.limitSeen);
    MergedRaw(s.c, b);
    DrainKept(s.c, s.acc, Merged(s.c, b), t);
    WindowsStep(s, Do(s, DrainMove), Drained);
  }

  lemma MergedRaw(c: Coord, b: AuditBatch)
    ensures Merged(c, b).rawEvents == SaturatingAdd(c.rawEvents, b.rawEvents)
  {
    hide Sorted;
    var c1 := if c.startedAt.None? then c.(startedAt := b.startedAt) else c;
    SortedElements(b.paths.Keys);
    MergePathsRaw(c1, b, Sorted(b.paths.Keys));
  }

  lemma {:induction false} MergePathsRaw(c: Coord, b: AuditBatch, order: seq<Path>)
    requires forall p :: p in order ==> p in b.paths
    ensures MergePaths(c, b, order).rawEvents == c.rawEvents
  {
    if order != [] {
      MergePathsRaw(c, b, order[..|order| - 1]);
    }
  }

  // ---------------------------------------------------------------- the other moves

  lemma PostedWindows(s: Sys, t: Sys, e: Event, origin: Option<Origin>)
    requires Window(s) && WindowsInv(s)
    requires t.trace == s.trace + [Accepted(e, origin)] && t.acc == s.acc
    requires t.c.touched == s.c.touched && t.c.rawEvents == s.c.rawEvents
    requires t.c.pathLimitReported == s.c.pathLimitReported && t.c.overflows == s.c.overflows
    requires !e.body.TouchedPaths? && !e.body.Overflow?
    requires IsPost(Accepted(e, origin)) ==> !s.c.pending
    ensures WindowsInv(t)
  {
    hide TallyOf, RawArrived, RawEmitted, WindowsExact, Rep, TableOf, TurnedAway, Merge, Limited, Accumulated, AllEmpty;
    if s.c.touched == map[] {
      EmptyTable(TallyOf(s.trace).batches);
    }
    WindowsStep(s, t, Accepted(e, origin));
  }

  lemma OverflowWindows(s: Sys)
    requires Window(s) && WindowsInv(s) && Enabled(s, OverflowMove)
    ensures WindowsInv(Do(s, OverflowMove))
  {
    hide TallyOf, RawArrived, RawEmitted, WindowsExact, Rep, TableOf, TurnedAway, Merge, Limited, Accumulated;
    var n := s.c.overflows[0];
    var t := Do(s, OverflowMove);
    var x := Accepted(NewEvent(s, Overflow(n.source, n.rawEvents)), Some(n.origin));
    var tally := TallyOf(s.trace);
    assert s.c.overflows == [n] + t.c.overflows;
    assert Noted(s.c, tally.limitSeen) ==> Noted(t.c, NextTally(tally, x).limitSeen);
    WindowsStep(s, t, x);
  }

  lemma AuditWindows(s: Sys)
    requires Window(s) && WindowsInv(s) && Enabled(s, AuditMove)
    ensures WindowsInv(Do(s, AuditMove))
  {
    hide TallyOf, RawArrived, RawEmitted, WindowsExact, Rep, TableOf, TurnedAway, Merge, Limited, Accumulated;
    EmptyNotLimited();
    var x := Accepted(NewEvent(s, TouchedPaths(s.c.touched, s.c.rawEvents, s.c.startedAt.value)), None);
    WindowsStep(s, Do(s, AuditMove), x);
  }

  lemma QuietWindows(s: Sys, t: Sys, x: Step)
    requires WindowsInv(s) && t.trace == s.trace + [x] && t.acc == s.acc
    requires t.c == s.c.(held := t.c.held)
    requires x.Recorded? || x.Requested?
    ensures WindowsInv(t)
  {
    hide TallyOf, RawArrived, RawEmitted, WindowsExact, TableOf, TurnedAway, Merge, Limited, Accumulated;
    WindowsStep(s, t, x);
  }

  lemma HeldIsSnapshot(s: Sys)
    requires ChainInv(s) && s.c.held.Some?
    ensures s.c.held.value.body.SnapshotTaken?
  {
  }

  lemma MoveWindows(s: Sys, m: Move)
    requires Window(s) && ChainInv(s) && WindowsInv(s) && Enabled(s, m)
    ensures WindowsInv(Do(s, m))
  {
    hide Window, WindowsInv, ChainInv, SnapshotOf, Captured, Merged, Notified;
    var t := Do(s, m);
    match m
    case ArriveMove(n) => ArriveWindows(s, n);
    case DrainMove => DrainWindows(s);
    case OverflowMove => OverflowWindows(s);
    case AuditMove => AuditWindows(s);
    case CaptureMove(tree) =>
      QuietWindows(s, t, Recorded(SnapshotOf(s.rec, tree, s.c.maxChanges).op, s.c.forceFull, s.env.clock));
    case RetryMove =>
      HeldIsSnapshot(s);
      PostedWindows(s, t, s.c.held.value, None);
    case PreparedMove =>
      HeldIsSnapshot(s);
      PostedWindows(s, t, s.c.held.value, None);
    case PostMove(body) => PostedWindows(s, t, NewEvent(s, body), None);
    case RequestMove(done) =>
      QuietWindows(s, t, Requested(FlushRequest(s.c.seqNo - 1, s.rec.op, s.rec.commit), done));
    case EnvMove(_) => WindowsFrame(s, t);
    case PauseMove(_) => WindowsFrame(s, t);
    case StopMove => WindowsFrame(s, t);
  }

  lemma WindowsFrame(s: Sys, t: Sys)
    requires WindowsInv(s) && t.trace == s.trace && t.acc == s.acc && t.c == s.c.(paused := t.c.paused)
    ensures WindowsInv(t)
  {
    hide TallyOf, RawArrived, RawEmitted, WindowsExact, TableOf, TurnedAway, Merge, Limited, Accumulated;
  }

  // ---------------------------------------------------------------- reading the tally off the trace

  /** A noted limit means an accepted path-limit overflow since the last touched_paths event. */
  lemma {:induction false} LimitSeenMeans(trace: seq<Step>)
    requires TallyOf(trace).limitSeen
    ensures exists j :: 0 <= j < |trace| && LimitAt(trace, j)
  {
    var n := |trace| - 1;
    var x := trace[n];
    if x.Accepted? && x.event.body.Overflow? && x.event.body.source == PATH_LIMIT_SOURCE {
      assert LimitAt(trace, n);
    } else {
      LimitSeenMeans(trace[..n]);
      var j :| 0 <= j < n && LimitAt(trace[..n], j);
      assert LimitAt(trace, j);
    }
  }

  ghost predicate LimitAt(trace: seq<Step>, j: nat)
    requires j < |trace|
  {
    && trace[j].Accepted? && trace[j].event.body.Overflow? && trace[j].event.body.source == PATH_LIMIT_SOURCE
    && forall i :: j < i < |trace| ==> !(trace[i].Accepted? && trace[i].event.body.TouchedPaths?)
  }
}
