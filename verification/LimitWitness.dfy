/** A session in which a mark is accepted after an overflow event with no full scan in between: the
  * coordinator's own path limit is reached.
  */
module LimitWitness {
  import opened Schema
  import opened Audit
  import opened Recorder
  import opened Coordination
  import opened Moves
  import opened Chain
  import opened OverflowObligation
  import opened Tables
  import opened Windows
  import opened Marks
  import opened Sessions
  import opened PathLimit
  import opened Answers

  // ---------------------------------------------------------------- filling a table

  /** The first `n` paths, each modified. */
  function FirstPaths(n: nat): seq<TouchedPath> {
    if n == 0 then [] else FirstPaths(n - 1) + [TouchedPath(n - 1, [Modify])]
  }

  lemma {:induction false} FirstTouches(n: nat)
    ensures var es := TouchesOf(FirstPaths(n));
            && |es| == n && |PathsIn(es)| == n && forall p :: p in PathsIn(es) ==> p < n
  {
    hide PathsIn;
    if n == 0 {
      NoPaths();
    } else {
      FirstTouches(n - 1);
      NextTouch(FirstPaths(n - 1), TouchedPath(n - 1, [Modify]));
    }
  }

  lemma NextTouch(ts: seq<TouchedPath>, t: TouchedPath)
    ensures TouchesOf(ts + [t]) == TouchesOf(ts) + [TouchOf(t)]
    ensures PathsIn(TouchesOf(ts + [t])) == PathsIn(TouchesOf(ts)) + {t.path}
  {
    hide PathsIn;
    assert (ts + [t])[..|ts|] == ts;
    Append(TouchesOf(ts), TouchOf(t));
  }

  lemma NoPaths()
    ensures PathsIn([]) == {}
  {
  }

  /** Up to the limit every path is admitted. */
  lemma {:induction false} AllAdmitted(es: seq<Touch>)
    requires |PathsIn(es)| <= MAX_AUDIT_PATHS
    ensures Admitted(es) == PathsIn(es) && TurnedAway(es) == {}
  {
    hide PathsIn;
    if es == [] {
      NoPaths();
    } else {
      var init, t := es[..|es| - 1], es[|es| - 1];
      assert es == init + [t];
      Append(init, t);
      if t.path in PathsIn(init) {
        assert PathsIn(init) + {t.path} == PathsIn(init);
      }
      AllAdmitted(init);
    }
  }

  lemma EntriesPaths(table: PathOps)
    ensures PathsIn(Entries(table)) == table.Keys
  {
    hide Entries;
    EntriesOfTable(table);
    forall p | p in table ensures p in PathsIn(Entries(table)) {
      assert Touch(p, table[p]) in Entries(table);
    }
  }

  // ---------------------------------------------------------------- the session

  /** The sink refuses its third request: the first touched_paths event. */
  const REFUSED_WINDOW := Env([], (n: nat) => n != 2, (n: nat) => map[], 0)

  /** As many paths as a window holds. */
  function FullWindow(): Notification {
    Observed(FirstPaths(MAX_AUDIT_PATHS), MAX_AUDIT_PATHS, 0)
  }

  /** One more. */
  function OneMore(): Notification {
    Observed([TouchedPath(MAX_AUDIT_PATHS, [Modify])], 1, 1)
  }

  /** Nothing more arrives and nothing fails any more. */
  ghost predicate Smooth(s: Sys) {
    s.env.script == [] && Accepting(s)
  }

  /** The accumulator has just been given a full window of the first paths. */
  lemma Filled(s: AuditState)
    requires s == Notified(EMPTY_AUDIT, FullWindow())
    ensures |s.paths| == MAX_AUDIT_PATHS && MAX_AUDIT_PATHS !in s.paths
    ensures !s.pathLimitReported && s.overflows == [] && s.startedAt.Some?
  {
    hide FirstPaths, TouchesOf, TableOf, TurnedAway, Admitted, PathsIn, TouchAll;
    var es := Touches(FullWindow());
    EmptyNotLimited();
    NotifiedTable(EMPTY_AUDIT, FullWindow(), []);
    assert [] + es == es;
    FirstTouches(MAX_AUDIT_PATHS);
    AllAdmitted(es);
    TableSize(es);
    NotEmptyWindow();
    WindowOverflows(FullWindow());
  }

  lemma NotEmptyWindow()
    ensures FirstPaths(MAX_AUDIT_PATHS) != []
  {
    hide TouchesOf, PathsIn;
    FirstTouches(MAX_AUDIT_PATHS);
    EmptyTouches();
  }

  lemma EmptyTouches()
    ensures TouchesOf([]) == []
  {
  }

  lemma WindowOverflows(n: Notification)
    requires n.Observed? && n.touched != []
    ensures var s := Notified(EMPTY_AUDIT, n);
            s.overflows == [] && s.startedAt.Some?
  {
    hide TouchAll;
    TouchAllRep(EMPTY_AUDIT.(startedAt := OrElse(None, n.at), first := OrElse(None, n.at), last := Some(n.at),
                             rawEvents := SaturatingAdd(0, n.rawEvents)), n.touched);
  }

  lemma OneMoreTouched(s: AuditState)
    requires s == Notified(EMPTY_AUDIT, OneMore())
    ensures s.paths.Keys == {MAX_AUDIT_PATHS} && !s.pathLimitReported && s.overflows == []
  {
    var t := TouchedPath(MAX_AUDIT_PATHS, [Modify]);
    var s0 := EMPTY_AUDIT.(startedAt := Some(1), first := Some(1), last := Some(1), rawEvents := SaturatingAdd(0, 1));
    assert [t][..0] == [];
    assert TouchAll(s0, []) == s0;
    assert TouchAll(s0, [t]) == TouchOne(s0, t);
  }

  /** Merging notes a path limit before it queues an overflow for it. */
  lemma {:induction false} QueuedIsNoted(c: Coord, b: AuditBatch, order: seq<Path>)
    requires forall p :: p in order ==> p in b.paths
    ensures var r := MergePaths(c, b, order);
            !r.pathLimitReported ==> r.overflows == c.overflows
  {
    if order != [] {
      QueuedIsNoted(c, b, order[..|order| - 1]);
    }
  }

  /** A full batch fills an empty window. */
  lemma FullMerge(c: Coord, b: AuditBatch)
    requires c.touched == map[] && !c.pathLimitReported && c.overflows == [] && !c.forceFull && c.startedAt.None?
    requires |b.paths| == MAX_AUDIT_PATHS && b.overflows == [] && b.startedAt.Some?
    ensures var m := Merged(c, b);
            && m.touched.Keys == b.paths.Keys && |m.touched| == MAX_AUDIT_PATHS && m.startedAt.Some?
            && !m.pathLimitReported && m.overflows == [] && !m.forceFull
  {
    hide TableOf, TurnedAway, Admitted, PathsIn, Entries, MergePaths, Sorted;
    EmptyNotLimited();
    MergedHeld(c, b, [], false);
    var es := Entries(b.paths);
    assert [] + es == es;
    EntriesPaths(b.paths);
    assert |b.paths.Keys| == |b.paths|;
    AllAdmitted(es);
    TableSize(es);
    SortedElements(b.paths.Keys);
    var c1 := c.(startedAt := b.startedAt);
    QueuedIsNoted(c1, b, Sorted(b.paths.Keys));
    MergePathsFacts(c1, b, Sorted(b.paths.Keys));
    MergePathsTouched(c, b);
  }

  /** The window is full, nothing is queued and no full scan is due. */
  ghost predicate WindowFull(s: Sys) {
    && Inv(s) && s.running && s.c.held.None? && |s.c.touched| == MAX_AUDIT_PATHS && MAX_AUDIT_PATHS !in s.c.touched
    && s.c.startedAt.Some? && !s.c.pathLimitReported && !s.c.forceFull && s.c.overflows == []
    && s.acc == EMPTY_AUDIT && Smooth(s)
  }

  lemma ScriptEmpty(s: Sys)
    requires s.env.script == []
    ensures BeforeDrain(s) == s
  {
    assert s.env.(script := []) == s.env;
  }

  lemma FirstStart(session: string, maxChanges: nat)
    ensures Initialize(session, maxChanges, REFUSED_WINDOW).ok
    ensures var s := Initialize(session, maxChanges, REFUSED_WINDOW).s;
            Inv(s) && s.running && s.env == REFUSED_WINDOW.(clock := 2)
  {
    hide SnapshotOf, Captured, Inv;
    RunInv(session, maxChanges, REFUSED_WINDOW, []);
  }

  /** A full window arrives and its event is refused: the window stays full. */
  lemma FillsFrom(s: Sys)
    requires Window(s) && s.running && s.env == REFUSED_WINDOW.(clock := 2) && s.acc == EMPTY_AUDIT
    requires s.c == Coord(s.c.session, s.c.maxChanges, 1, 0, map[], 0, None, false, false, false, None, [], false)
    ensures var a := Arrive(s, FullWindow());
            && Window(a) && var t := TakeSnapshot(a).s;
            && t.running && t.c.held.None? && |t.c.touched| == MAX_AUDIT_PATHS && MAX_AUDIT_PATHS !in t.c.touched
            && t.c.startedAt.Some? && !t.c.pathLimitReported && !t.c.forceFull && t.c.overflows == []
            && t.acc == EMPTY_AUDIT && Smooth(t)
  {
    hide FullWindow, Notified, Merged, DrainAudit, Rep;
    var a := Arrive(s, FullWindow());
    WindowMove(s, ArriveMove(FullWindow()));
    Filled(a.acc);
    ScriptEmpty(a);
    FullMerge(a.c, DrainBatch(a.acc));
    DrainMoveFrame(a);
    RefusedSnap(a);
  }

  /** After the first two commands the window is full and stays so, because its event was refused. */
  lemma WindowFills(session: string, maxChanges: nat)
    ensures Initialize(session, maxChanges, REFUSED_WINDOW).ok
    ensures WindowFull(Run(session, maxChanges, REFUSED_WINDOW, [Notify(FullWindow()), Snap]))
  {
    hide FullWindow, Initialize, TakeSnapshot, Inv, Smooth;
    FirstStart(session, maxChanges);
    InitialShape(session, maxChanges, REFUSED_WINDOW);
    var s := Initialize(session, maxChanges, REFUSED_WINDOW).s;
    var one := [] + [Notify(FullWindow())];
    RunStep(session, maxChanges, REFUSED_WINDOW, [], Notify(FullWindow()));
    RunStep(session, maxChanges, REFUSED_WINDOW, one, Snap);
    assert one + [Snap] == [Notify(FullWindow()), Snap];
    RunInv(session, maxChanges, REFUSED_WINDOW, one + [Snap]);
    JustArrives(s, FullWindow());
    FillsFrom(s);
  }

  /** The snapshot drains the full window and fails at its touched_paths event. */
  lemma RefusedSnap(a: Sys)
    requires a.running && a.c.held.None? && BeforeDrain(a) == a && a.env == REFUSED_WINDOW.(clock := 2)
    requires var m := Merged(a.c, DrainBatch(a.acc)); m.overflows == [] && m.startedAt.Some? && m.held.None?
    ensures TakeSnapshot(a).s == DrainAudit(a).(env := REFUSED_WINDOW.(clock := 3))
    ensures DrainAudit(a).c == Merged(a.c, DrainBatch(a.acc)) && DrainAudit(a).acc == EMPTY_AUDIT
    ensures DrainAudit(a).running
  {
    hide Merged, BeforeDrain;
    var d := DrainAudit(a);
    assert EmitOverflows(d) == Outcome(d, true);
  }

  /** No full scan between an overflow event and a mark. */
  ghost predicate MarkedWithoutFullScan(trace: seq<Step>, i: nat, k: nat) {
    && i < k < |trace|
    && trace[i].Accepted? && trace[i].event.body.Overflow? && trace[i].event.body.source == PATH_LIMIT_SOURCE
    && trace[k].Accepted? && trace[k].event.body.Mark?
    && forall m :: i < m < k && trace[m].Recorded? ==> !trace[m].full
  }

  /** An overflow of the coordinator's own is queued, nothing else has arrived, and no full scan is due. */
  ghost predicate LimitQueued(d: Sys) {
    && Window(d) && Smooth(d) && d.acc == EMPTY_AUDIT && d.c.held.None? && d.c.pending && !d.c.forceFull
    && d.c.overflows != [] && d.c.overflows[0].source == PATH_LIMIT_SOURCE
  }

  /** One more path queues the coordinator's overflow. */
  lemma OneMoreQueues(s: Sys)
    requires WindowFull(s)
    ensures var a := Arrive(s, OneMore());
            Window(a) && LimitQueued(DrainAudit(a))
  {
    hide OneMore, Notified, Merged, ChainInv, DebtInv, WindowsInv, MarksInv, Rep;
    var a := Arrive(s, OneMore());
    OneMoreTouched(a.acc);
    WindowMove(s, ArriveMove(OneMore()));
    ScriptEmpty(a);
    LimitAloneForcesNothing(a.c, DrainBatch(a.acc), MAX_AUDIT_PATHS);
    DrainFacts(a);
  }

  /** The overflow event is accepted and the capture that follows is no full scan. */
  lemma SnapshotAfterLimit(d: Sys)
    requires LimitQueued(d)
    ensures var r := FreshSnapshot(d);
            var i := |DrainAudit(d).trace|;
            && r.ok && Smooth(r.s) && Window(r.s) && r.s.acc == EMPTY_AUDIT && !r.s.c.pending
            && i < |r.s.trace| && r.s.trace[i].Accepted? && r.s.trace[i].event.body.Overflow?
            && r.s.trace[i].event.body.source == PATH_LIMIT_SOURCE
            && (forall m :: i <= m < |r.s.trace| && r.s.trace[m].Recorded? ==> !r.s.trace[m].full)
  {
    hide DrainAudit, FreshSnapshot, Window;
    SnapshotAccepted(d);
    FreshSnapshotFacts(d);
    ScriptEmpty(d);
    DrainFacts(d);
    assert DrainedNotices(d) == [];
    FullScanExactly(d);
  }

  /** The settling loop takes that one snapshot. */
  lemma SettlesOnce(d: Sys)
    requires LimitQueued(d)
    ensures var r := FreshSnapshot(d).s;
            && Window(r)
            && SettlePending(d) == Outcome(DrainAudit(r), true)
            && DrainAudit(r).trace == r.trace + [Drained] && Smooth(DrainAudit(r))
  {
    hide DrainAudit, FreshSnapshot, Window;
    SnapshotAfterLimit(d);
    var r := FreshSnapshot(d).s;
    DrainFacts(r);
    DrainOnly(r);
    assert TakeSnapshot(d) == FreshSnapshot(d);
    SettledAlready(DrainAudit(r));
  }

  lemma DrainOnly(s: Sys)
    requires s.env.script == []
    ensures DrainAudit(s).trace == s.trace + [Drained] && DrainAudit(s).env == s.env
  {
    hide Merged;
    ScriptEmpty(s);
  }

  lemma SettledAlready(s: Sys)
    requires Window(s) && !s.c.pending
    ensures SettlePending(s) == Outcome(s, true)
  {
    hide Window;
  }

  lemma MarkAccepted(s: Sys, tag: string)
    requires Smooth(s)
    ensures EmitMark(s, tag).s.trace == s.trace + [Accepted(NewEvent(s, Mark(tag, s.rec.op)), None)]
  {
  }

  /** From a full window: one more path, then a mark. */
  lemma MarkFromFullWindow(s: Sys, tag: string) returns (i: nat, k: nat)
    requires WindowFull(s)
    ensures var a := Arrive(s, OneMore());
            Window(a) && MarkedWithoutFullScan(Exec(a, MarkAs(tag)).s.trace, i, k)
  {
    hide OneMore, Notified, DrainAudit, FreshSnapshot, ChainInv, DebtInv, WindowsInv, MarksInv, Window, SettlePending,
      Smooth, EmitMark;
    var a := Arrive(s, OneMore());
    OneMoreQueues(s);
    var d := DrainAudit(a);
    SnapshotAfterLimit(d);
    SettlesOnce(d);
    var r := FreshSnapshot(d).s;
    MarkAccepted(DrainAudit(r), tag);
    i, k := |DrainAudit(d).trace|, |r.trace| + 1;
    var t := EmitMark(DrainAudit(r), tag).s;
    assert forall m :: 0 <= m < |r.trace| ==> t.trace[m] == r.trace[m];
  }

  /** The schema's promise fails in this session, whatever its id: 100,000 paths arrive, their touched_paths
    * event is refused, one more path arrives, and a mark is accepted after the overflow event for it although
    * no full scan was captured in between. */
  lemma MarkWithoutFullScan(session: string, maxChanges: nat) returns (i: nat, k: nat)
    ensures Initialize(session, maxChanges, REFUSED_WINDOW).ok
    ensures var commands := [Notify(FullWindow()), Snap, Notify(OneMore()), MarkAs("m")];
            MarkedWithoutFullScan(Run(session, maxChanges, REFUSED_WINDOW, commands).trace, i, k)
  {
    hide FullWindow, OneMore, Initialize, Exec, Inv, MarkedWithoutFullScan;
    WindowFills(session, maxChanges);
    var two := [Notify(FullWindow()), Snap];
    var three := two + [Notify(OneMore())];
    var s := Run(session, maxChanges, REFUSED_WINDOW, two);
    RunStep(session, maxChanges, REFUSED_WINDOW, two, Notify(OneMore()));
    RunStep(session, maxChanges, REFUSED_WINDOW, three, MarkAs("m"));
    JustArrives(s, OneMore());
    i, k := MarkFromFullWindow(s, "m");
    assert three + [MarkAs("m")] == [Notify(FullWindow()), Snap, Notify(OneMore()), MarkAs("m")];
  }

  lemma JustArrives(s: Sys, n: Notification)
    requires Window(s) && s.running
    ensures Exec(s, Notify(n)).s == Arrive(s, n)
  {
  }
}
