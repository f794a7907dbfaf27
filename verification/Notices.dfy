/** Overflow notices, raw counts, window starts and full scans: what the events report and what the captures
  * do, told from the notifications themselves.
  */
module Notices {
  import opened Schema
  import opened Audit
  import opened Recorder
  import opened Coordination
  import opened Moves
  import opened Chain
  import opened OverflowObligation
  import opened Tables
  import opened Windows
  import opened Marks
  import opened Sessions

  // ---------------------------------------------------------------- one accumulator window

  /** The losses among some notifications, in order. */
  function Losses(ns: seq<Notification>): seq<Notice> {
    if ns == [] then []
    else
      Losses(ns[..|ns| - 1])
      + match ns[|ns| - 1]
        case Lost(source, raw, _) => [Notice(source, raw, FromAccumulator)]
        case Observed(_, _, _) => []
  }

  /** Up to 63 notices as they are; the 64th stands for itself and all that follow. */
  function Clipped(l: seq<Notice>): seq<Notice> {
    if |l| < MAX_OVERFLOW_REPORTS then l
    else l[..MAX_OVERFLOW_REPORTS - 1]
         + [Notice(REPORT_LIMIT_SOURCE, l[MAX_OVERFLOW_REPORTS - 1].rawEvents, FromAccumulator)]
  }

  /** The time of the first observation of some path. */
  function FirstObserved(ns: seq<Notification>): Option<nat> {
    if ns == [] then None
    else if ns[0].Observed? && ns[0].touched != [] then Some(ns[0].at)
    else FirstObserved(ns[1..])
  }

  lemma {:induction false} FirstObservedAppend(ns: seq<Notification>, n: Notification)
    ensures FirstObserved(ns + [n])
            == if FirstObserved(ns).Some? then FirstObserved(ns)
               else if n.Observed? && n.touched != [] then Some(n.at) else None
  {
    if ns != [] {
      FirstObservedAppend(ns[1..], n);
      assert (ns + [n])[1..] == ns[1..] + [n];
    }
  }

  lemma TouchAllKeeps(s: AuditState, ts: seq<TouchedPath>)
    ensures TouchAll(s, ts).overflows == s.overflows && TouchAll(s, ts).startedAt == s.startedAt
    ensures TouchAll(s, ts).reportsLimited == s.reportsLimited
  {
  }

  /** What the accumulator holds after some notifications: the losses, up to the report limit, and the time
    * of the first observation. */
  lemma {:induction false} WindowReports(ns: seq<Notification>)
    ensures var s := NotifiedAll(EMPTY_AUDIT, ns);
            && s.overflows == Clipped(Losses(ns)) && s.startedAt == FirstObserved(ns)
            && (s.reportsLimited <==> |Losses(ns)| >= MAX_OVERFLOW_REPORTS)
  {
    hide TouchAll;
    if ns != [] {
      var init, n := ns[..|ns| - 1], ns[|ns| - 1];
      WindowReports(init);
      assert ns == init + [n];
      FirstObservedAppend(init, n);
      var s := NotifiedAll(EMPTY_AUDIT, init);
      if n.Observed? && n.touched != [] {
        TouchAllKeeps(s.(startedAt := OrElse(s.startedAt, n.at), first := OrElse(s.first, n.at), last := Some(n.at),
                         rawEvents := SaturatingAdd(s.rawEvents, n.rawEvents)), n.touched);
      }
    }
  }

  /** All touches some notifications bring, in order. */
  function AllTouches(ns: seq<Notification>): seq<Touch> {
    if ns == [] then [] else AllTouches(ns[..|ns| - 1]) + Touches(ns[|ns| - 1])
  }

  /** The raw notifications observed. */
  function RawOf(ns: seq<Notification>): nat {
    if ns == [] then 0 else RawOf(ns[..|ns| - 1]) + NoteRaw(ns[|ns| - 1])
  }

  /** A count of 64 bits that stays at its maximum. */
  function Cap(n: nat): nat {
    if n <= U64_MAX then n else U64_MAX
  }

  /** The notices a drain brings, told from the notifications of its window: the losses, up to the report
    * limit, and one more if a path was turned away. */
  function WindowNotices(ns: seq<Notification>): seq<Notice> {
    Clipped(Losses(ns))
    + if TurnedAway(AllTouches(ns)) != {} then [Notice(PATH_LIMIT_SOURCE, Cap(RawOf(ns)), FromAccumulator)] else []
  }

  lemma NotifiedCounts(s: AuditState, n: Notification)
    ensures Notified(s, n).rawEvents == if NoteRaw(n) == 0 && !(n.Observed? && n.touched != []) then s.rawEvents
                                        else SaturatingAdd(s.rawEvents, NoteRaw(n))
  {
    if n.Observed? && n.touched != [] {
      TouchAllCounts(s.(startedAt := OrElse(s.startedAt, n.at), first := OrElse(s.first, n.at), last := Some(n.at),
                        rawEvents := SaturatingAdd(s.rawEvents, n.rawEvents)), n.touched);
    }
  }

  lemma {:induction false} TouchAllCounts(s: AuditState, ts: seq<TouchedPath>)
    ensures TouchAll(s, ts).rawEvents == s.rawEvents
  {
    if ts != [] {
      TouchAllCounts(s, ts[..|ts| - 1]);
    }
  }

  lemma {:induction false} WindowCounts(ns: seq<Notification>)
    ensures Accumulated(NotifiedAll(EMPTY_AUDIT, ns), AllTouches(ns))
    ensures NotifiedAll(EMPTY_AUDIT, ns).rawEvents == Cap(RawOf(ns))
  {
    hide Accumulated, Notified, Touches;
    if ns == [] {
      EmptyNotLimited();
    } else {
      var init, n := ns[..|ns| - 1], ns[|ns| - 1];
      WindowCounts(init);
      NotifiedTable(NotifiedAll(EMPTY_AUDIT, init), n, AllTouches(init));
      NotifiedCounts(NotifiedAll(EMPTY_AUDIT, init), n);
    }
  }

  /** A drain takes everything: after any notifications, the batch is the bounded table of their touches, the
    * capped sum of their raw counts, the time of the first observation, and exactly the notices they call for. */
  lemma DrainedExactly(ns: seq<Notification>)
    ensures DrainBatch(NotifiedAll(EMPTY_AUDIT, ns))
            == AuditBatch(TableOf(AllTouches(ns)), Cap(RawOf(ns)), FirstObserved(ns), WindowNotices(ns))
  {
    hide NotifiedAll, TableOf, TurnedAway, Clipped, Losses, FirstObserved;
    WindowReports(ns);
    WindowCounts(ns);
  }

  // ---------------------------------------------------------------- the ledger of a trace

  /** What a trace says, told from its notifications and accepted events: the notifications since the last
    * drain; when the coordinator's window started and its raw count; the notices that were called for and
    * those announced; and whether a full scan, or any snapshot, is due. */
  datatype Ledger = Ledger(since: seq<Notification>, start: Option<nat>, raw: nat,
                           reported: seq<Notice>, announced: seq<Notice>, full: bool, due: bool)

  const FIRST_LEDGER := Ledger([], None, 0, [], [], true, true)

  predicate Queued(l: Ledger) {
    |l.announced| < |l.reported|
  }

  /** The coordinator's own notice, when merging a batch turns away the first path of a window. */
  ghost function Raised(t: Tally, raw: nat): seq<Notice> {
    if TurnedAway(Merge(t.batches)) == {} && TurnedAway(Merge(t.batches + [t.arriving])) != {}
    then [Notice(PATH_LIMIT_SOURCE, Cap(raw), FromCoordinator)] else []
  }

  ghost function AfterDrain(l: Ledger, t: Tally): Ledger {
    var start := if l.start.Some? then l.start else FirstObserved(l.since);
    var raw := l.raw + RawOf(l.since);
    var brought := WindowNotices(l.since);
    var m := Ledger([], start, raw, l.reported + Raised(t, raw) + brought, l.announced, l.full || brought != [], l.due);
    m.(due := l.due || start.Some? || Queued(m))
  }

  function AfterEvent(l: Ledger, e: Event, origin: Option<Origin>): Ledger {
    match e.body
    case SessionStart(_, _) => l.(full := Queued(l), due := l.start.Some? || Queued(l))
    case SnapshotTaken(_) => l.(full := Queued(l), due := l.start.Some? || Queued(l))
    case TouchedPaths(_, _, _) => l.(start := None, raw := 0)
    case Overflow(source, raw) =>
      if origin.Some? then l.(announced := l.announced + [Notice(source, raw, origin.value)]) else l
    case _ => l
  }

  ghost function NextLedger(l: Ledger, t: Tally, x: Step): Ledger {
    match x
    case Arrived(n, _) => l.(since := l.since + [n])
    case Drained => AfterDrain(l, t)
    case Accepted(e, origin) => AfterEvent(l, e, origin)
    case _ => l
  }

  ghost function LedgerOf(trace: seq<Step>): Ledger {
    if trace == [] then FIRST_LEDGER
    else
      var init := trace[..|trace| - 1];
      NextLedger(LedgerOf(init), TallyOf(init), trace[|trace| - 1])
  }

  lemma LedgerAppend(trace: seq<Step>, x: Step)
    ensures LedgerOf(trace + [x]) == NextLedger(LedgerOf(trace), TallyOf(trace), x)
  {
    assert (trace + [x])[..|trace|] == trace;
  }

  /** A step agrees with the ledger before it: a capture is a full scan exactly when one is due; a
    * touched_paths event states when its window started and its raw count; an overflow event announces the
    * next notice; and at a mark, flush or end all notices have been announced and no snapshot is due. */
  ghost predicate Agreeing(l: Ledger, x: Step) {
    && (x.Recorded? ==> x.full == l.full)
    && (x.Accepted? && x.event.body.TouchedPaths? ==>
          l.start == Some(x.event.body.windowStart) && x.event.body.touchedRaw == Cap(l.raw))
    && (x.Accepted? && x.event.body.Overflow? ==>
          && x.origin.Some? && Queued(l)
          && l.reported[|l.announced|] == Notice(x.event.body.source, x.event.body.overflowRaw, x.origin.value))
    && (IsPost(x) ==> l.announced == l.reported && !l.due)
  }

  ghost predicate AllAgree(trace: seq<Step>) {
    forall k :: 0 <= k < |trace| ==> Agreeing(LedgerOf(trace[..k]), trace[k])
  }

  lemma AgreeAppend(trace: seq<Step>, x: Step)
    requires AllAgree(trace) && Agreeing(LedgerOf(trace), x)
    ensures AllAgree(trace + [x])
  {
    hide LedgerOf, Agreeing;
    var t := trace + [x];
    forall k | 0 <= k < |t| ensures Agreeing(LedgerOf(t[..k]), t[k]) {
      PrefixOfAppend(trace, x, k);
      assert trace[..|trace|] == trace;
    }
  }

  // ---------------------------------------------------------------- the invariant

  /** Accumulator and coordinator hold what the ledger says. */
  ghost predicate Holds(s: Sys, l: Ledger, arriving: seq<Touch>) {
    && s.acc == NotifiedAll(EMPTY_AUDIT, l.since)
    && arriving == AllTouches(l.since)
    && l.reported == l.announced + s.c.overflows
    && s.c.startedAt == l.start && s.c.rawEvents == Cap(l.raw)
    && s.c.forceFull == l.full && s.c.pending == l.due
  }

  ghost predicate NoticesInv(s: Sys) {
    AllAgree(s.trace) && Holds(s, LedgerOf(s.trace), TallyOf(s.trace).arriving)
  }

  lemma NoticesStep(s: Sys, t: Sys, x: Step)
    requires NoticesInv(s) && t.trace == s.trace + [x]
    requires Agreeing(LedgerOf(s.trace), x)
    requires var tally := TallyOf(s.trace);
             Holds(t, NextLedger(LedgerOf(s.trace), tally, x), NextTally(tally, x).arriving)
    ensures NoticesInv(t)
  {
    hide AllAgree, Agreeing, Holds, LedgerOf, NextLedger, TallyOf, NextTally, RawArrived, RawEmitted;
    LedgerAppend(s.trace, x);
    TallyAppend(s.trace, x);
    AgreeAppend(s.trace, x);
  }

  /** A step the ledger takes no notice of. */
  lemma QuietNotices(s: Sys, t: Sys, x: Step)
    requires NoticesInv(s) && t.trace == s.trace + [x] && t.acc == s.acc
    requires t.c.overflows == s.c.overflows && t.c.startedAt == s.c.startedAt && t.c.rawEvents == s.c.rawEvents
    requires t.c.forceFull == s.c.forceFull && t.c.pending == s.c.pending
    requires x.Requested? || (x.Recorded? && x.full == s.c.forceFull) || (IsPost(x) && s.c.overflows == [] && !s.c.pending)
    ensures NoticesInv(t)
  {
    hide AllAgree, LedgerOf, TallyOf, AllTouches, NotifiedAll;
    var l := LedgerOf(s.trace);
    assert s.c.overflows == [] ==> l.announced + s.c.overflows == l.announced;
    NoticesStep(s, t, x);
  }

  lemma ArriveNotices(s: Sys, n: Notification)
    requires NoticesInv(s)
    ensures NoticesInv(Do(s, ArriveMove(n)))
  {
    hide AllAgree, LedgerOf, TallyOf, Notified, Touches;
    var l := LedgerOf(s.trace);
    assert (l.since + [n])[..|l.since|] == l.since;
    NoticesStep(s, Do(s, ArriveMove(n)), Arrived(n, s.env.clock));
  }

  /** Accepting a snapshot event: what is queued or observed by now makes the next one due. */
  lemma SnapshotNotices(s: Sys, t: Sys, e: Event)
    requires NoticesInv(s) && e.body.SnapshotTaken? && t.trace == s.trace + [Accepted(e, None)] && t.acc == s.acc
    requires t.c.overflows == s.c.overflows && t.c.startedAt == s.c.startedAt && t.c.rawEvents == s.c.rawEvents
    requires t.c.forceFull == (s.c.overflows != [])
    requires t.c.pending == (s.c.startedAt.Some? || s.c.overflows != [])
    ensures NoticesInv(t)
  {
    hide AllAgree, LedgerOf, TallyOf, AllTouches, NotifiedAll;
    var l := LedgerOf(s.trace);
    assert |l.reported| == |l.announced| + |s.c.overflows|;
    NoticesStep(s, t, Accepted(e, None));
  }

  // Draining.

  /** Merging raises at most one notice, when the first path is turned away. */
  lemma {:induction false} MergeRaises(c: Coord, b: AuditBatch, order: seq<Path>)
    requires forall p :: p in order ==> p in b.paths
    ensures var r := MergePaths(c, b, order);
            && r.rawEvents == c.rawEvents && (c.pathLimitReported ==> r.pathLimitReported)
            && r.overflows == c.overflows
               + if r.pathLimitReported && !c.pathLimitReported
                 then [Notice(PATH_LIMIT_SOURCE, SaturatingAdd(c.rawEvents, b.rawEvents), FromCoordinator)] else []
  {
    if order != [] {
      MergeRaises(c, b, order[..|order| - 1]);
    } else {
      assert c.overflows + [] == c.overflows;
    }
  }

  lemma MergedQueue(c: Coord, b: AuditBatch)
    ensures var r := Merged(c, b);
            && (c.pathLimitReported ==> r.pathLimitReported)
            && r.overflows == c.overflows
               + (if r.pathLimitReported && !c.pathLimitReported
                  then [Notice(PATH_LIMIT_SOURCE, SaturatingAdd(c.rawEvents, b.rawEvents), FromCoordinator)] else [])
               + b.overflows
            && r.startedAt == (if c.startedAt.Some? then c.startedAt else b.startedAt)
            && r.rawEvents == SaturatingAdd(c.rawEvents, b.rawEvents)
            && (r.forceFull <==> c.forceFull || b.overflows != [])
            && (r.pending <==> c.pending || r.touched != map[] || r.overflows != [])
  {
    hide MergePaths, Sorted;
    var c1 := if c.startedAt.None? then c.(startedAt := b.startedAt) else c;
    SortedElements(b.paths.Keys);
    MergeRaises(c1, b, Sorted(b.paths.Keys));
    MergeKeeps(c1, b, Sorted(b.paths.Keys));
    var m := MergePaths(c1, b, Sorted(b.paths.Keys));
    assert m.overflows + [] == m.overflows;
  }

  lemma {:induction false} MergeKeeps(c: Coord, b: AuditBatch, order: seq<Path>)
    requires forall p :: p in order ==> p in b.paths
    ensures var r := MergePaths(c, b, order);
            r.startedAt == c.startedAt && r.forceFull == c.forceFull && r.pending == c.pending
  {
    if order != [] {
      MergeKeeps(c, b, order[..|order| - 1]);
    }
  }

  lemma CapSum(a: nat, b: nat)
    ensures SaturatingAdd(Cap(a), Cap(b)) == Cap(a + b)
  {
  }

  /** The coordinator notes its limit exactly when it turned a path away. */
  lemma RaisedIs(s: Sys)
    requires WindowsInv(s)
    ensures var t := TallyOf(s.trace);
            var r := Merged(s.c, DrainBatch(s.acc));
            && (s.c.pathLimitReported <==> TurnedAway(Merge(t.batches)) != {})
            && (r.pathLimitReported <==> TurnedAway(Merge(t.batches + [t.arriving])) != {})
  {
    hide TallyOf, WindowsExact, RawArrived, RawEmitted, Merged, Merge, TurnedAway, TableOf, Entries, Limited, Noted;
    var t := TallyOf(s.trace);
    MergedHeld(s.c, DrainBatch(s.acc), Merge(t.batches), t.limitSeen);
    MergeAppend(t.batches, t.arriving);
  }

  lemma QueueOrder(announced: seq<Notice>, queue: seq<Notice>, own: seq<Notice>, brought: seq<Notice>)
    ensures (announced + queue) + own + brought == announced + (queue + own + brought)
    ensures |announced + (queue + own + brought)| > |announced| <==> queue + own + brought != []
  {
  }

  lemma DrainHolds(s: Sys, r: Coord, l: Ledger, t: Tally)
    requires Window(s) && Holds(s, l, t.arriving) && r == Merged(s.c, DrainBatch(s.acc))
    requires r.startedAt.Some? <==> r.touched != map[]
    requires s.c.pathLimitReported <==> TurnedAway(Merge(t.batches)) != {}
    requires r.pathLimitReported <==> TurnedAway(Merge(t.batches + [t.arriving])) != {}
    ensures Holds(s.(c := r, acc := EMPTY_AUDIT), AfterDrain(l, t), [])
  {
    hide Merged, DrainBatch, WindowNotices, TurnedAway, Merge, TableOf, RawOf, FirstObserved, NotifiedAll, SaturatingAdd, Cap, Rep;
    DrainedExactly(l.since);
    MergedQueue(s.c, DrainBatch(s.acc));
    CapSum(l.raw, RawOf(l.since));
    NoArrivals(EMPTY_AUDIT);
    var m := AfterDrain(l, t);
    var own := Raised(t, m.raw);
    QueueOrder(l.announced, s.c.overflows, own, WindowNotices(l.since));
    assert m.reported == m.announced + r.overflows;
  }

  lemma DrainNotices(s: Sys)
    requires Window(s) && WindowsInv(s) && NoticesInv(s)
    ensures NoticesInv(Do(s, DrainMove))
  {
    hide AllAgree, LedgerOf, TallyOf, Merged, Holds, AfterDrain, WindowsInv, Merge, TurnedAway;
    var r := Merged(s.c, DrainBatch(s.acc));
    RaisedIs(s);
    WindowMove(s, DrainMove);
    DrainHolds(s, r, LedgerOf(s.trace), TallyOf(s.trace));
    SameHolds(s.(c := r, acc := EMPTY_AUDIT), Do(s, DrainMove), AfterDrain(LedgerOf(s.trace), TallyOf(s.trace)), []);
    NoticesStep(s, Do(s, DrainMove), Drained);
  }

  lemma SameHolds(s: Sys, t: Sys, l: Ledger, arriving: seq<Touch>)
    requires Holds(s, l, arriving) && t.c == s.c && t.acc == s.acc
    ensures Holds(t, l, arriving)
  {
  }

  lemma OverflowNotices(s: Sys)
    requires NoticesInv(s) && Enabled(s, OverflowMove)
    ensures NoticesInv(Do(s, OverflowMove))
  {
    hide AllAgree, LedgerOf, TallyOf, AllTouches, NotifiedAll;
    var n := s.c.overflows[0];
    var x := Accepted(NewEvent(s, Overflow(n.source, n.rawEvents)), Some(n.origin));
    var l := LedgerOf(s.trace);
    assert s.c.overflows == [n] + s.c.overflows[1..];
    assert l.announced + ([n] + s.c.overflows[1..]) == (l.announced + [n]) + s.c.overflows[1..];
    NoticesStep(s, Do(s, OverflowMove), x);
  }

  lemma AuditNotices(s: Sys)
    requires NoticesInv(s) && Enabled(s, AuditMove)
    ensures NoticesInv(Do(s, AuditMove))
  {
    hide AllAgree, LedgerOf, TallyOf, AllTouches, NotifiedAll;
    var x := Accepted(NewEvent(s, TouchedPaths(s.c.touched, s.c.rawEvents, s.c.startedAt.value)), None);
    NoticesStep(s, Do(s, AuditMove), x);
  }

  lemma MoveNotices(s: Sys, m: Move)
    requires Window(s) && ChainInv(s) && WindowsInv(s) && NoticesInv(s) && Enabled(s, m)
    ensures NoticesInv(Do(s, m))
  {
    hide Window, WindowsInv, ChainInv, NoticesInv, SnapshotOf, Captured, Merged, Notified;
    var t := Do(s, m);
    match m
    case ArriveMove(n) => ArriveNotices(s, n);
    case DrainMove => DrainNotices(s);
    case OverflowMove => OverflowNotices(s);
    case AuditMove => AuditNotices(s);
    case CaptureMove(tree) =>
      QuietNotices(s, t, Recorded(SnapshotOf(s.rec, tree, s.c.maxChanges).op, s.c.forceFull, s.env.clock));
    case RetryMove =>
      HeldIsSnapshot(s);
      SnapshotNotices(s, t, s.c.held.value);
    case PreparedMove =>
      HeldIsSnapshot(s);
      SnapshotNotices(s, t, s.c.held.value);
    case PostMove(body) =>
      NothingQueued(s);
      QuietNotices(s, t, Accepted(NewEvent(s, body), None));
    case RequestMove(done) =>
      QuietNotices(s, t, Requested(FlushRequest(s.c.seqNo - 1, s.rec.op, s.rec.commit), done));
    case _ => NoticesFrame(s, t);
  }

  lemma NothingQueued(s: Sys)
    requires Window(s) && !s.c.pending
    ensures s.c.overflows == []
  {
  }

  lemma NoticesFrame(s: Sys, t: Sys)
    requires NoticesInv(s) && t.trace == s.trace && t.acc == s.acc && t.c == s.c.(paused := t.c.paused)
    ensures NoticesInv(t)
  {
    hide AllAgree, LedgerOf, TallyOf;
  }

  // ---------------------------------------------------------------- whole sessions

  lemma {:induction false} LeadsNotices(careful: bool, s: Sys, ms: seq<Move>, t: Sys)
    requires Inv(s) && NoticesInv(s) && Leads(careful, s, ms, t)
    ensures NoticesInv(t)
    decreases ms
  {
    hide Window, ChainInv, DebtInv, WindowsInv, MarksInv, Enabled, Do, NoticesInv;
    if ms != [] {
      MoveInv(s, ms[0]);
      MoveNotices(s, ms[0]);
      LeadsNotices(careful, Do(s, ms[0]), ms[1..], t);
    }
  }

  lemma InitialNotices(session: string, maxChanges: nat, env: Env)
    requires Initialize(session, maxChanges, env).ok
    ensures NoticesInv(Initialize(session, maxChanges, env).s)
  {
    hide Initialize;
    InitialShape(session, maxChanges, env);
    var s := Initialize(session, maxChanges, env).s;
    var x0, x1 := s.trace[0], s.trace[1];
    assert s.trace == [x0] + [x1] && [] + [x0] == [x0];
    LedgerAppend([], x0);
    LedgerAppend([x0], x1);
    TallyAppend([], x0);
    TallyAppend([x0], x1);
    AgreeAppend([], x0);
    AgreeAppend([x0], x1);
  }

  lemma {:induction false} RunNotices(session: string, maxChanges: nat, env: Env, commands: seq<Command>)
    requires Initialize(session, maxChanges, env).ok
    ensures NoticesInv(Run(session, maxChanges, env, commands))
  {
    hide NoticesInv, Inv, Initialize, Exec, Leads;
    if commands == [] {
      InitialNotices(session, maxChanges, env);
    } else {
      var init, command := commands[..|commands| - 1], commands[|commands| - 1];
      RunNotices(session, maxChanges, env, init);
      RunInv(session, maxChanges, env, init);
      var s := Run(session, maxChanges, env, init);
      var ms := ExecMoves(false, s, command);
      LeadsNotices(false, s, ms, Exec(s, command).s);
    }
  }

  /** Overflow notices are conserved.  In every state of every session, the notices that the notifications and
    * the path limits called for are, in order and with their sources and counts, those announced by accepted
    * overflow events and then those still queued, and the accumulator holds those of the notifications since
    * the last drain.  Every touched_paths event states when its window began and its raw count; a capture is
    * a full scan exactly when one is due; at every mark, flush and end all notices have been announced and no
    * snapshot is due; and the coordinator's flags say exactly what is due. */
  lemma NoticesConserved(session: string, maxChanges: nat, env: Env, commands: seq<Command>)
    requires Initialize(session, maxChanges, env).ok
    ensures var s := Run(session, maxChanges, env, commands);
            var l := LedgerOf(s.trace);
            && l.reported == l.announced + s.c.overflows
            && DrainBatch(s.acc).overflows == WindowNotices(l.since)
            && AllAgree(s.trace)
            && s.c.forceFull == l.full && s.c.pending == l.due
  {
    hide Run, Initialize, NotifiedAll, WindowNotices, LedgerOf, TallyOf, AllAgree, DrainBatch;
    RunNotices(session, maxChanges, env, commands);
    DrainedExactly(LedgerOf(Run(session, maxChanges, env, commands).trace).since);
  }
}
