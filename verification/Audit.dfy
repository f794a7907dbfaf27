/** The bounded accumulator of watcher notifications (`AuditAccumulator`).
  *
  * `AuditState` and the functions on it are the specification; the class below updates its fields in
  * place as the source does and is proved against them.
  */
module Audit {
  import opened Schema

  const MAX_AUDIT_PATHS: nat := 100_000
  const MAX_OVERFLOW_REPORTS: nat := 64
  const U64_MAX: nat := 0xFFFF_FFFF_FFFF_FFFF
  const PATH_LIMIT_SOURCE := "rrjj:audit_path_limit:100000"
  const REPORT_LIMIT_SOURCE := "rrjj:overflow_report_limit:64"

  /** Where a notice was raised.  No code reads it; it lets properties tell notices apart whose source
    * strings coincide. */
  datatype Origin = FromAccumulator | FromCoordinator

  datatype Notice = Notice(source: string, rawEvents: nat, origin: Origin)

  datatype TouchedPath = TouchedPath(path: Path, operations: seq<TouchOperation>)

  /** A watcher callback: touched paths, or lost notifications.  `at` is the clock reading. */
  datatype Notification =
    | Observed(touched: seq<TouchedPath>, rawEvents: nat, at: nat)
    | Lost(source: string, lostRaw: nat, at: nat)

  type PathOps = map<Path, set<TouchOperation>>

  datatype AuditState = AuditState(
    paths: PathOps, rawEvents: nat, startedAt: Option<nat>, first: Option<nat>, last: Option<nat>,
    overflows: seq<Notice>, reportsLimited: bool, pathLimitReported: bool)

  datatype AuditBatch = AuditBatch(
    paths: PathOps, rawEvents: nat, startedAt: Option<nat>, overflows: seq<Notice>)

  const EMPTY_AUDIT := AuditState(map[], 0, None, None, None, [], false, false)

  /** Saturating addition of 64-bit unsigned numbers. */
  function SaturatingAdd(a: nat, b: nat): nat {
    if a + b <= U64_MAX then a + b else U64_MAX
  }

  function OpSet(operations: seq<TouchOperation>): set<TouchOperation> {
    set o | o in operations
  }

  function TouchOne(s: AuditState, t: TouchedPath): AuditState {
    if t.path in s.paths then s.(paths := s.paths[t.path := s.paths[t.path] + OpSet(t.operations)])
    else if |s.paths| < MAX_AUDIT_PATHS then s.(paths := s.paths[t.path := OpSet(t.operations)])
    else s.(pathLimitReported := true)
  }

  function TouchAll(s: AuditState, ts: seq<TouchedPath>): AuditState {
    if ts == [] then s else TouchOne(TouchAll(s, ts[..|ts| - 1]), ts[|ts| - 1])
  }

  lemma TouchAllAppend(s: AuditState, ts: seq<TouchedPath>, t: TouchedPath)
    ensures TouchAll(s, ts + [t]) == TouchOne(TouchAll(s, ts), t)
  {
    assert (ts + [t])[..|ts|] == ts;
  }

  function OrElse(o: Option<nat>, v: nat): Option<nat> {
    if o.None? then Some(v) else o
  }

  function Observe(s: AuditState, touched: seq<TouchedPath>, rawEvents: nat, now: nat): AuditState {
    if touched == [] then s
    else
      TouchAll(s.(startedAt := OrElse(s.startedAt, now), first := OrElse(s.first, now), last := Some(now),
                  rawEvents := SaturatingAdd(s.rawEvents, rawEvents)), touched)
  }

  function PushOverflow(s: AuditState, source: string, rawEvents: nat): AuditState {
    if |s.overflows| < MAX_OVERFLOW_REPORTS - 1 then
      s.(overflows := s.overflows + [Notice(source, rawEvents, FromAccumulator)])
    else if !s.reportsLimited then
      s.(reportsLimited := true,
         overflows := s.overflows + [Notice(REPORT_LIMIT_SOURCE, rawEvents, FromAccumulator)])
    else s
  }

  function ReportOverflow(s: AuditState, source: string, rawEvents: nat, now: nat): AuditState {
    PushOverflow(s.(first := OrElse(s.first, now), last := Some(now)), source, rawEvents)
  }

  function Notified(s: AuditState, n: Notification): AuditState {
    match n
    case Observed(touched, rawEvents, at) => Observe(s, touched, rawEvents, at)
    case Lost(source, rawEvents, at) => ReportOverflow(s, source, rawEvents, at)
  }

  function NotifiedAll(s: AuditState, ns: seq<Notification>): AuditState {
    if ns == [] then s else Notified(NotifiedAll(s, ns[..|ns| - 1]), ns[|ns| - 1])
  }

  function DrainBatch(s: AuditState): AuditBatch {
    AuditBatch(s.paths, s.rawEvents, s.startedAt,
               s.overflows + if s.pathLimitReported
                             then [Notice(PATH_LIMIT_SOURCE, s.rawEvents, FromAccumulator)] else [])
  }

  function Deadline(s: AuditState, quiescence: nat, maxDelay: nat): Option<nat> {
    match (s.first, s.last)
    case (Some(first), Some(last)) =>
      Some(if first + maxDelay <= last + quiescence then first + maxDelay else last + quiescence)
    case _ => None
  }

  predicate IsDirty(s: AuditState) {
    s.paths != map[] || s.overflows != []
  }

  /** A notification that leaves a mark: an observation of no path at all is ignored. */
  predicate Effective(n: Notification) {
    n.Lost? || n.touched != []
  }

  /** The effective notifications of a run, in order. */
  function Effects(ns: seq<Notification>): seq<Notification> {
    if ns == [] then []
    else Effects(ns[..|ns| - 1]) + if Effective(ns[|ns| - 1]) then [ns[|ns| - 1]] else []
  }

  // ---------------------------------------------------------------- representation

  /** What every reachable accumulator state satisfies. */
  ghost predicate Rep(s: AuditState) {
    && |s.paths| <= MAX_AUDIT_PATHS
    && |s.overflows| <= MAX_OVERFLOW_REPORTS
    && (s.reportsLimited <==> |s.overflows| == MAX_OVERFLOW_REPORTS)
    && (s.pathLimitReported ==> |s.paths| == MAX_AUDIT_PATHS)
    && (s.startedAt.Some? <==> s.paths != map[])
    && (s.startedAt.None? ==> s.rawEvents == 0)
    && (s.first.Some? <==> IsDirty(s))
    && (s.last.Some? <==> s.first.Some?)
    && s.rawEvents <= U64_MAX
    && (forall n :: n in s.overflows ==> n.origin == FromAccumulator)
  }

  lemma {:induction false} TouchAllRep(s: AuditState, ts: seq<TouchedPath>)
    requires |s.paths| <= MAX_AUDIT_PATHS
    requires s.pathLimitReported ==> |s.paths| == MAX_AUDIT_PATHS
    ensures var r := TouchAll(s, ts);
            && r == s.(paths := r.paths, pathLimitReported := r.pathLimitReported)
            && |s.paths| <= |r.paths| <= MAX_AUDIT_PATHS
            && (r.pathLimitReported ==> |r.paths| == MAX_AUDIT_PATHS)
            && (ts != [] ==> r.paths != map[])
  {
    if ts != [] {
      TouchAllRep(s, ts[..|ts| - 1]);
      var m := TouchAll(s, ts[..|ts| - 1]);
      var t := ts[|ts| - 1];
      if t.path in m.paths {
        assert m.paths[t.path := m.paths[t.path] + OpSet(t.operations)].Keys == m.paths.Keys;
      } else if |m.paths| < MAX_AUDIT_PATHS {
        assert m.paths[t.path := OpSet(t.operations)].Keys == m.paths.Keys + {t.path};
      }
    }
  }

  lemma NotifiedRep(s: AuditState, n: Notification)
    requires Rep(s)
    ensures Rep(Notified(s, n))
    ensures Effective(n) ==> IsDirty(Notified(s, n)) && Notified(s, n).last == Some(n.at)
                             && Notified(s, n).first == OrElse(s.first, n.at)
    ensures !Effective(n) ==> Notified(s, n) == s
    ensures IsDirty(s) ==> IsDirty(Notified(s, n))
  {
    if n.Observed? && n.touched != [] {
      TouchAllRep(s.(startedAt := OrElse(s.startedAt, n.at), first := OrElse(s.first, n.at), last := Some(n.at),
                  rawEvents := SaturatingAdd(s.rawEvents, n.rawEvents)), n.touched);
    }
  }

  /** Every run of notifications from a drained accumulator keeps the representation: at most 64
    * notices and 100,000 paths, and a deadline exactly when something is pending. */
  lemma {:induction false} RunRep(ns: seq<Notification>, quiescence: nat, maxDelay: nat)
    ensures Rep(NotifiedAll(EMPTY_AUDIT, ns))
    ensures Deadline(NotifiedAll(EMPTY_AUDIT, ns), quiescence, maxDelay).Some?
            <==> IsDirty(NotifiedAll(EMPTY_AUDIT, ns))
    ensures IsDirty(NotifiedAll(EMPTY_AUDIT, ns)) <==> Effects(ns) != []
  {
    if ns != [] {
      RunRep(ns[..|ns| - 1], quiescence, maxDelay);
      NotifiedRep(NotifiedAll(EMPTY_AUDIT, ns[..|ns| - 1]), ns[|ns| - 1]);
    }
  }

  // ---------------------------------------------------------------- debounce

  ghost predicate ClockOrdered(ns: seq<Notification>) {
    forall i, j :: 0 <= i < j < |ns| ==> ns[i].at <= ns[j].at
  }

  lemma {:induction false} FirstAndLast(ns: seq<Notification>)
    ensures var s, e := NotifiedAll(EMPTY_AUDIT, ns), Effects(ns);
            && s.first == (if e == [] then None else Some(e[0].at))
            && s.last == (if e == [] then None else Some(e[|e| - 1].at))
  {
    if ns != [] {
      FirstAndLast(ns[..|ns| - 1]);
      RunRep(ns[..|ns| - 1], 0, 0);
      NotifiedRep(NotifiedAll(EMPTY_AUDIT, ns[..|ns| - 1]), ns[|ns| - 1]);
    }
  }

  lemma {:induction false} EffectsOrdered(ns: seq<Notification>)
    requires ClockOrdered(ns)
    ensures forall i :: 0 <= i < |Effects(ns)| ==> Effects(ns)[i] in ns
    ensures ClockOrdered(Effects(ns))
  {
    if ns != [] {
      var init := ns[..|ns| - 1];
      EffectsOrdered(init);
      forall i | 0 <= i < |Effects(init)| ensures Effects(init)[i] in ns && Effects(init)[i].at <= ns[|ns| - 1].at {
        assert Effects(init)[i] in init;
      }
    }
  }

  lemma EffectsAppend(ns: seq<Notification>, next: Notification)
    ensures Effects(ns + [next]) == Effects(ns) + if Effective(next) then [next] else []
  {
    assert (ns + [next])[..|ns|] == ns;
  }

  function Earlier(a: nat, b: nat): nat { if a <= b then a else b }

  lemma DeadlineOf(ns: seq<Notification>, quiescence: nat, maxDelay: nat)
    requires Effects(ns) != []
    ensures var e := Effects(ns);
            Deadline(NotifiedAll(EMPTY_AUDIT, ns), quiescence, maxDelay)
            == Some(Earlier(e[0].at + maxDelay, e[|e| - 1].at + quiescence))
  {
    FirstAndLast(ns);
  }

  lemma ExtremesAppend(ns: seq<Notification>, next: Notification)
    requires ClockOrdered(ns + [next]) && Effects(ns) != []
    ensures var e, e' := Effects(ns), Effects(ns + [next]);
            e' != [] && e'[0] == e[0] && e[|e| - 1].at <= e'[|e'| - 1].at
  {
    EffectsAppend(ns, next);
    EffectsOrdered(ns + [next]);
    var e, e' := Effects(ns), Effects(ns + [next]);
    assert e'[|e| - 1] == e[|e| - 1];
  }

  /** Between two drains the deadline is the earlier of "first effective notification plus the maximum
    * delay" and "last one plus quiescence"; a further notification never moves it earlier, and it never
    * passes the first plus the maximum delay. */
  lemma DeadlineLaw(ns: seq<Notification>, next: Notification, quiescence: nat, maxDelay: nat)
    requires ClockOrdered(ns + [next])
    requires Effects(ns) != []
    ensures var e := Effects(ns);
            var d := Deadline(NotifiedAll(EMPTY_AUDIT, ns), quiescence, maxDelay);
            var d' := Deadline(NotifiedAll(EMPTY_AUDIT, ns + [next]), quiescence, maxDelay);
            && d == Some(Earlier(e[0].at + maxDelay, e[|e| - 1].at + quiescence))
            && d'.Some? && d.value <= d'.value <= e[0].at + maxDelay
  {
    hide NotifiedAll, Effects, ClockOrdered, Deadline, Effective;
    ExtremesAppend(ns, next);
    DeadlineOf(ns, quiescence, maxDelay);
    DeadlineOf(ns + [next], quiescence, maxDelay);
  }

  function NoteRaw(n: Notification): nat {
    if n.Observed? && n.touched != [] then n.rawEvents else 0
  }
}

/** The accumulator as the source has it: an object whose fields its methods update. */
module Accumulator {
  import opened Schema
  import opened Audit

  class AuditAccumulator {
    var paths: PathOps
    var rawEvents: nat
    var startedAt: Option<nat>
    var first: Option<nat>
    var last: Option<nat>
    var overflows: seq<Notice>
    var reportsLimited: bool
    var pathLimitReported: bool

    ghost function State(): AuditState
      reads this
    {
      AuditState(paths, rawEvents, startedAt, first, last, overflows, reportsLimited, pathLimitReported)
    }

    constructor ()
      ensures State() == EMPTY_AUDIT
    {
      paths, rawEvents, startedAt, first, last := map[], 0, None, None, None;
      overflows, reportsLimited, pathLimitReported := [], false, false;
    }

    method Observe(touched: seq<TouchedPath>, raw: nat, now: nat)
      modifies this
      ensures State() == Audit.Observe(old(State()), touched, raw, now)
    {
      if touched == [] {
        return;
      }
      Stamp(raw, now);
      ghost var before := State();
      var i := 0;
      while i < |touched|
        invariant i <= |touched|
        invariant State() == TouchAll(before, touched[..i])
      {
        TouchAllAppend(before, touched[..i], touched[i]);
        assert touched[..i + 1] == touched[..i] + [touched[i]];
        Touch(touched[i]);
        i := i + 1;
      }
      assert touched[..i] == touched;
    }

    /** Opens the window if it is not open, and counts the raw notifications. */
    method Stamp(raw: nat, now: nat)
      modifies this`startedAt, this`first, this`last, this`rawEvents
      ensures State() == old(State()).(startedAt := OrElse(old(startedAt), now), first := OrElse(old(first), now),
                                       last := Some(now), rawEvents := SaturatingAdd(old(rawEvents), raw))
    {
      if startedAt.None? {
        startedAt := Some(now);
      }
      if first.None? {
        first := Some(now);
      }
      last := Some(now);
      rawEvents := SaturatingAdd(rawEvents, raw);
    }

    /** Extends, inserts or turns away one touched path. */
    method Touch(t: TouchedPath)
      modifies this`paths, this`pathLimitReported
      ensures State() == TouchOne(old(State()), t)
    {
      if t.path in paths {
        paths := paths[t.path := paths[t.path] + OpSet(t.operations)];
      } else if |paths| < MAX_AUDIT_PATHS {
        paths := paths[t.path := OpSet(t.operations)];
      } else if !pathLimitReported {
        pathLimitReported := true;
      }
    }

    method ReportOverflow(source: string, raw: nat, now: nat)
      modifies this
      ensures State() == Audit.ReportOverflow(old(State()), source, raw, now)
    {
      if first.None? {
        first := Some(now);
      }
      last := Some(now);
      PushOverflow(source, raw);
    }

    method PushOverflow(source: string, raw: nat)
      modifies this
      ensures State() == Audit.PushOverflow(old(State()), source, raw)
    {
      if |overflows| < MAX_OVERFLOW_REPORTS - 1 {
        overflows := overflows + [Notice(source, raw, FromAccumulator)];
      } else if !reportsLimited {
        reportsLimited := true;
        overflows := overflows + [Notice(REPORT_LIMIT_SOURCE, raw, FromAccumulator)];
      }
    }

    method Drain() returns (batch: AuditBatch)
      modifies this
      ensures batch == DrainBatch(old(State()))
      ensures State() == EMPTY_AUDIT
    {
      var drained := overflows;
      if pathLimitReported {
        drained := drained + [Notice(PATH_LIMIT_SOURCE, rawEvents, FromAccumulator)];
      }
      batch := AuditBatch(paths, rawEvents, startedAt, drained);
      paths, rawEvents, startedAt, first, last := map[], 0, None, None, None;
      overflows, reportsLimited, pathLimitReported := [], false, false;
    }

    method Deadline(quiescence: nat, maxDelay: nat) returns (due: Option<nat>)
      ensures due == Audit.Deadline(State(), quiescence, maxDelay)
    {
      match (first, last)
      case (Some(f), Some(l)) =>
        due := Some(if f + maxDelay <= l + quiescence then f + maxDelay else l + quiescence);
      case _ =>
        due := None;
    }
  }
}
