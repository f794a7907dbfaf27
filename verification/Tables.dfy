/** What a bounded path table holds after a run of touches, stated without the table: the union of the
  * operations per path, restricted to the first 100,000 distinct paths.
  */
module Tables {
  import opened Schema
  import opened Audit
  import opened Recorder

  /** One path touched, with all operations reported at once. */
  datatype Touch = Touch(path: Path, ops: set<TouchOperation>)

  function PathsIn(es: seq<Touch>): set<Path> {
    set e | e in es :: e.path
  }

  /** Every operation reported on `p`. */
  function OpsOn(es: seq<Touch>, p: Path): set<TouchOperation> {
    if es == [] then {}
    else OpsOn(es[..|es| - 1], p) + if es[|es| - 1].path == p then es[|es| - 1].ops else {}
  }

  /** The first 100,000 distinct paths. */
  function Admitted(es: seq<Touch>): set<Path> {
    if es == [] then {}
    else
      var r := Admitted(es[..|es| - 1]);
      if |r| < MAX_AUDIT_PATHS then r + {es[|es| - 1].path} else r
  }

  /** The paths that came too late. */
  function TurnedAway(es: seq<Touch>): set<Path> {
    PathsIn(es) - Admitted(es)
  }

  function TableOf(es: seq<Touch>): PathOps {
    map p | p in Admitted(es) :: OpsOn(es, p)
  }

  lemma Append(es: seq<Touch>, t: Touch)
    ensures PathsIn(es + [t]) == PathsIn(es) + {t.path}
    ensures forall p :: OpsOn(es + [t], p) == OpsOn(es, p) + if t.path == p then t.ops else {}
    ensures Admitted(es + [t]) == if |Admitted(es)| < MAX_AUDIT_PATHS then Admitted(es) + {t.path} else Admitted(es)
  {
    assert (es + [t])[..|es|] == es;
  }

  /** The admitted paths are those of a prefix, which is the whole or ends where a path beyond 100,000
    * distinct ones comes; and then there are exactly 100,000. */
  lemma {:induction false} AdmittedFirst(es: seq<Touch>) returns (n: nat)
    ensures n <= |es| && Admitted(es) == PathsIn(es[..n]) && |Admitted(es)| <= MAX_AUDIT_PATHS
    ensures n < |es| ==> |Admitted(es)| == MAX_AUDIT_PATHS && es[n].path !in Admitted(es)
  {
    if es == [] {
      n := 0;
    } else {
      var init, t := es[..|es| - 1], es[|es| - 1];
      assert es == init + [t];
      Append(init, t);
      n := AdmittedFirst(init);
      assert es[..n] == init[..n];
      if n == |init| {
        assert init[..n] == init;
        if |Admitted(init)| < MAX_AUDIT_PATHS || t.path in Admitted(init) {
          n := |es|;
          assert es[..n] == es;
          assert Admitted(es) == Admitted(init) + {t.path};
        }
      }
    }
  }

  lemma AdmittedBound(es: seq<Touch>)
    ensures Admitted(es) <= PathsIn(es) && |Admitted(es)| <= MAX_AUDIT_PATHS
    ensures TurnedAway(es) != {} ==> |Admitted(es)| == MAX_AUDIT_PATHS
  {
    var n := AdmittedFirst(es);
    if n == |es| {
      assert es[..n] == es;
    }
  }

  lemma {:induction false} NotReported(es: seq<Touch>, p: Path)
    ensures p !in PathsIn(es) ==> OpsOn(es, p) == {}
    ensures p in PathsIn(es) ==> exists e :: e in es && e.path == p && e.ops <= OpsOn(es, p)
  {
    if es != [] {
      var init, t := es[..|es| - 1], es[|es| - 1];
      assert es == init + [t];
      Append(init, t);
      NotReported(init, p);
    }
  }

  lemma {:induction false} OpsFrom(es: seq<Touch>, p: Path)
    ensures forall o :: o in OpsOn(es, p) <==> exists e :: e in es && e.path == p && o in e.ops
  {
    if es != [] {
      var init, t := es[..|es| - 1], es[|es| - 1];
      assert es == init + [t];
      OpsFrom(init, p);
    }
  }

  /** The three branches of both path loops: extend, insert below the limit, turn away. */
  function Put(table: PathOps, t: Touch): PathOps {
    if t.path in table then table[t.path := table[t.path] + t.ops]
    else if |table| < MAX_AUDIT_PATHS then table[t.path := t.ops]
    else table
  }

  lemma TableSize(es: seq<Touch>)
    ensures TableOf(es).Keys == Admitted(es) && |TableOf(es)| == |Admitted(es)|
  {
    assert TableOf(es).Keys == Admitted(es);
  }

  lemma TableAt(es: seq<Touch>, p: Path)
    ensures p in TableOf(es) <==> p in Admitted(es)
    ensures p in TableOf(es) ==> TableOf(es)[p] == OpsOn(es, p)
  {
  }

  lemma AppendKeys(es: seq<Touch>, t: Touch)
    ensures TableOf(es + [t]).Keys == Put(TableOf(es), t).Keys
  {
    hide PathsIn, OpsOn, Admitted;
    Append(es, t);
    AdmittedBound(es);
    TableSize(es);
    TableSize(es + [t]);
  }

  lemma AppendTurned(es: seq<Touch>, t: Touch)
    ensures TurnedAway(es + [t])
            == TurnedAway(es)
               + if t.path !in TableOf(es) && |TableOf(es)| >= MAX_AUDIT_PATHS then {t.path} else {}
  {
    hide PathsIn, OpsOn, Admitted, TableOf;
    Append(es, t);
    AdmittedBound(es);
    TableSize(es);
    TableAt(es, t.path);
    if t.path !in TableOf(es) && |TableOf(es)| < MAX_AUDIT_PATHS {
      assert t.path !in TurnedAway(es);
    }
  }

  lemma TableAppend(es: seq<Touch>, t: Touch)
    ensures TableOf(es + [t]) == Put(TableOf(es), t)
    ensures TurnedAway(es + [t])
            == TurnedAway(es)
               + if t.path !in TableOf(es) && |TableOf(es)| >= MAX_AUDIT_PATHS then {t.path} else {}
  {
    hide PathsIn, OpsOn, Admitted, TableOf, TurnedAway;
    AppendKeys(es, t);
    AppendTurned(es, t);
    var a, b := TableOf(es + [t]), Put(TableOf(es), t);
    forall p | p in a ensures a[p] == b[p] {
      ValueAppend(es, t, p);
    }
  }

  lemma ValueAppend(es: seq<Touch>, t: Touch, p: Path)
    requires p in TableOf(es + [t]) && p in Put(TableOf(es), t)
    ensures TableOf(es + [t])[p] == Put(TableOf(es), t)[p]
  {
    hide PathsIn, OpsOn, Admitted, TableOf, TurnedAway;
    Append(es, t);
    TableAt(es + [t], p);
    TableAt(es, p);
    if p == t.path && p !in TableOf(es) {
      NeverTouched(es, p);
    }
  }

  /** A path that is not in a table with room was never touched. */
  lemma NeverTouched(es: seq<Touch>, p: Path)
    requires p !in TableOf(es) && |TableOf(es)| < MAX_AUDIT_PATHS
    ensures OpsOn(es, p) == {}
  {
    hide OpsOn, Admitted;
    AdmittedBound(es);
    TableSize(es);
    NotReported(es, p);
    assert p in PathsIn(es) ==> p in TurnedAway(es);
  }

  // ---------------------------------------------------------------- the accumulator's table

  function TouchOf(t: TouchedPath): Touch {
    Touch(t.path, OpSet(t.operations))
  }

  function TouchesOf(ts: seq<TouchedPath>): seq<Touch> {
    if ts == [] then [] else TouchesOf(ts[..|ts| - 1]) + [TouchOf(ts[|ts| - 1])]
  }

  /** The touches a notification brings. */
  function Touches(n: Notification): seq<Touch> {
    if n.Observed? then TouchesOf(n.touched) else []
  }

  /** The accumulator holds the table of the touches `es`, and has noted whether any path was turned away. */
  ghost predicate Accumulated(s: AuditState, es: seq<Touch>) {
    s.paths == TableOf(es) && (s.pathLimitReported <==> TurnedAway(es) != {})
  }

  lemma {:induction false} TouchAllTable(s: AuditState, ts: seq<TouchedPath>, es: seq<Touch>)
    requires Accumulated(s, es)
    ensures Accumulated(TouchAll(s, ts), es + TouchesOf(ts))
  {
    hide TableOf, TurnedAway;
    if ts == [] {
      assert es + TouchesOf(ts) == es;
    } else {
      var init, t := ts[..|ts| - 1], ts[|ts| - 1];
      TouchAllTable(s, init, es);
      TableAppend(es + TouchesOf(init), TouchOf(t));
      assert es + TouchesOf(ts) == es + TouchesOf(init) + [TouchOf(t)];
    }
  }

  /** Stage one, exactly: after any notification the accumulator's table is the union of all operations per
    * path, restricted to the first 100,000 distinct paths, and the limit is noted exactly when a path was
    * turned away. */
  lemma NotifiedTable(s: AuditState, n: Notification, es: seq<Touch>)
    requires Accumulated(s, es)
    ensures Accumulated(Notified(s, n), es + Touches(n))
  {
    hide TableOf, TurnedAway, TouchAll;
    if n.Observed? && n.touched != [] {
      TouchAllTable(s.(startedAt := OrElse(s.startedAt, n.at), first := OrElse(s.first, n.at), last := Some(n.at),
                    rawEvents := SaturatingAdd(s.rawEvents, n.rawEvents)), n.touched, es);
    } else {
      assert es + Touches(n) == es;
    }
  }

  // ---------------------------------------------------------------- the coordinator's table

  function EntriesIn(table: PathOps, order: seq<Path>): seq<Touch>
    requires forall p :: p in order ==> p in table
  {
    if order == [] then []
    else EntriesIn(table, order[..|order| - 1]) + [Touch(order[|order| - 1], table[order[|order| - 1]])]
  }

  lemma {:induction false} EntriesAre(table: PathOps, order: seq<Path>)
    requires forall p :: p in order ==> p in table
    ensures forall e :: e in EntriesIn(table, order) <==> e.path in order && e.ops == table[e.path]
  {
    if order != [] {
      var init, p := order[..|order| - 1], order[|order| - 1];
      EntriesAre(table, init);
      assert order == init + [p];
    }
  }

  /** A table as touches, in path order. */
  function Entries(table: PathOps): seq<Touch> {
    EntriesIn(table, Sorted(table.Keys))
  }

  /** The touches of several drained batches: each batch is itself a bounded table. */
  function Merge(batches: seq<seq<Touch>>): seq<Touch> {
    if batches == [] then [] else Merge(batches[..|batches| - 1]) + Entries(TableOf(batches[|batches| - 1]))
  }

  lemma MergeAppend(batches: seq<seq<Touch>>, b: seq<Touch>)
    ensures Merge(batches + [b]) == Merge(batches) + Entries(TableOf(b))
  {
    assert (batches + [b])[..|batches|] == batches;
  }

  /** Some path was turned away, within a batch or when the batches were merged. */
  ghost predicate Limited(batches: seq<seq<Touch>>) {
    (exists b :: b in batches && TurnedAway(b) != {}) || TurnedAway(Merge(batches)) != {}
  }

  lemma {:induction false} MergeHas(batches: seq<seq<Touch>>, i: nat, e: Touch)
    requires i < |batches| && e in Entries(TableOf(batches[i]))
    ensures e in Merge(batches)
  {
    hide Entries, TableOf;
    if i < |batches| - 1 {
      MergeHas(batches[..|batches| - 1], i, e);
    }
  }

  lemma {:induction false} MergeFrom(batches: seq<seq<Touch>>, e: Touch)
    requires e in Merge(batches)
    ensures exists i :: 0 <= i < |batches| && e in Entries(TableOf(batches[i]))
  {
    hide Entries, TableOf;
    var n := |batches| - 1;
    if e !in Entries(TableOf(batches[n])) {
      MergeFrom(batches[..n], e);
      var i :| 0 <= i < n && e in Entries(TableOf(batches[..n][i]));
      assert batches[i] == batches[..n][i];
    }
  }

  lemma EntriesOfTable(table: PathOps)
    ensures forall e :: e in Entries(table) <==> e.path in table && e.ops == table[e.path]
  {
    EntriesAre(table, Sorted(table.Keys));
  }

  /** A touched operation is reported, or its path is not in the report because that is full, or its path
    * was not in the drained batch because that was full. */
  ghost predicate Accounted(report: PathOps, batch: seq<Touch>, p: Path, o: TouchOperation) {
    || (p in report && o in report[p])
    || (p !in report && |report| == MAX_AUDIT_PATHS)
    || (p !in TableOf(batch) && |TableOf(batch)| == MAX_AUDIT_PATHS)
  }

  /** Stage two, pair by pair: of all operations touched in the batches, the table of their merge misses only
    * those of paths it or their batch turned away at the limit; and it holds nothing else. */
  lemma MergeAccounts(batches: seq<seq<Touch>>)
    ensures var report := TableOf(Merge(batches));
            && (forall i, e, o :: 0 <= i < |batches| && e in batches[i] && o in e.ops
                                  ==> Accounted(report, batches[i], e.path, o))
            && (forall p, o :: p in report && o in report[p]
                               ==> exists i, e :: 0 <= i < |batches| && e in batches[i] && e.path == p && o in e.ops)
  {
    hide Entries, TableOf, Merge, OpsOn;
    var report := TableOf(Merge(batches));
    forall i, e, o | 0 <= i < |batches| && e in batches[i] && o in e.ops
      ensures Accounted(report, batches[i], e.path, o)
    {
      PairAccounted(batches, i, e, o);
    }
    forall p, o | p in report && o in report[p]
      ensures exists i, e :: 0 <= i < |batches| && e in batches[i] && e.path == p && o in e.ops
    {
      PairTouched(batches, p, o);
    }
  }

  lemma TableHolds(es: seq<Touch>, p: Path, o: TouchOperation)
    ensures p in TableOf(es) && o in TableOf(es)[p]
            <==> p in Admitted(es) && exists e :: e in es && e.path == p && o in e.ops
    ensures p in PathsIn(es) && p !in TableOf(es) ==> |TableOf(es)| == MAX_AUDIT_PATHS
  {
    hide OpsOn, Admitted;
    OpsFrom(es, p);
    AdmittedBound(es);
    TableSize(es);
    assert p in PathsIn(es) && p !in TableOf(es) ==> p in TurnedAway(es);
  }

  lemma PairAccounted(batches: seq<seq<Touch>>, i: nat, e: Touch, o: TouchOperation)
    requires i < |batches| && e in batches[i] && o in e.ops
    ensures Accounted(TableOf(Merge(batches)), batches[i], e.path, o)
  {
    hide Entries, TableOf, Merge, OpsOn, Admitted, Accounted;
    var b, all, p := batches[i], Merge(batches), e.path;
    TableSize(b);
    TableSize(all);
    TableHolds(b, p, o);
    if p in TableOf(b) {
      var f := Touch(p, TableOf(b)[p]);
      EntriesOfTable(TableOf(b));
      MergeHas(batches, i, f);
      TableHolds(all, p, o);
      assert p in PathsIn(all);
    }
    AccountedIf(TableOf(all), b, p, o);
  }

  lemma AccountedIf(report: PathOps, batch: seq<Touch>, p: Path, o: TouchOperation)
    requires p in TableOf(batch) || |TableOf(batch)| == MAX_AUDIT_PATHS
    requires p in TableOf(batch) && p in report ==> o in report[p]
    requires p in TableOf(batch) && p !in report ==> |report| == MAX_AUDIT_PATHS
    ensures Accounted(report, batch, p, o)
  {
  }

  lemma PairTouched(batches: seq<seq<Touch>>, p: Path, o: TouchOperation)
    requires var report := TableOf(Merge(batches)); p in report && o in report[p]
    ensures exists i, e :: 0 <= i < |batches| && e in batches[i] && e.path == p && o in e.ops
  {
    hide Entries, TableOf, Merge, OpsOn, Admitted;
    TableHolds(Merge(batches), p, o);
    var f :| f in Merge(batches) && f.path == p && o in f.ops;
    MergeFrom(batches, f);
    var i :| 0 <= i < |batches| && f in Entries(TableOf(batches[i]));
    EntriesOfTable(TableOf(batches[i]));
    TableHolds(batches[i], p, o);
    var e :| e in batches[i] && e.path == p && o in e.ops;
  }

  /** Nothing was touched in any batch. */
  ghost predicate AllEmpty(batches: seq<seq<Touch>>) {
    forall b: seq<Touch> :: b in batches ==> b == []
  }

  lemma {:induction false} FirstAdmitted(es: seq<Touch>)
    requires es != []
    ensures es[0].path in Admitted(es)
  {
    var init, t := es[..|es| - 1], es[|es| - 1];
    if init != [] {
      FirstAdmitted(init);
    } else {
      assert Admitted(init) == {};
    }
  }

  lemma NonEmptyTable(es: seq<Touch>)
    ensures es != [] ==> TableOf(es) != map[]
  {
    hide OpsOn, Admitted;
    if es != [] {
      FirstAdmitted(es);
      TableSize(es);
      assert es[0].path in TableOf(es);
    }
  }

  /** An empty table means that nothing was touched. */
  lemma EmptyTable(batches: seq<seq<Touch>>)
    requires TableOf(Merge(batches)) == map[]
    ensures AllEmpty(batches)
  {
    hide Merge, Entries, OpsOn, Admitted;
    var all := Merge(batches);
    TableSize(all);
    NonEmptyTable(all);
    forall b: seq<Touch> | b in batches ensures b == [] {
      if b != [] {
        var i :| 0 <= i < |batches| && batches[i] == b;
        NonEmptyTable(b);
        var p :| p in TableOf(b);
        EntriesOfTable(TableOf(b));
        MergeHas(batches, i, Touch(p, TableOf(b)[p]));
      }
    }
  }
}
