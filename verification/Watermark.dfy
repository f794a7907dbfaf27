/** The durable watermark shown on disk: consistent always, and monotonic exactly when no flush that failed
  * right after its rename is followed by an emit that shows the older manifest again.
  */
module Watermark {
  import opened Schema
  import opened Coordination
  import opened Journal
  import opened Reader
  import opened Mirror
  import opened Mirroring
  import opened Local

  function Rank(durableSeq: Option<nat>): nat {
    if durableSeq.None? then 0 else durableSeq.value + 1
  }

  /** The watermark a reader sees: 0 for none, n + 1 for durable through n. */
  function Shown(d: Dir): nat {
    if d.manifest.None? then 0 else Rank(d.manifest.value.durableSeq)
  }

  ghost predicate NeverDecreases(hist: seq<Dir>) {
    forall i, j :: 0 <= i <= j < |hist| ==> Shown(hist[i]) <= Shown(hist[j])
  }

  // ---------------------------------------------------------------- what one operation shows

  /** The flush gets as far as renaming its manifest into place. */
  predicate Renames(s: Sink, op: Op)
    requires s.hist != []
  {
    && op.FlushOp? && !s.failed && op.flushWorld.spoolOk && op.request.lastSeq == s.mem.lastSeq
    && op.flushWorld.mirrored
    && (op.request.lastSeq in Now(s).objects || op.flushWorld.copySteps >= 5)
    && op.flushWorld.cursorOk && op.flushWorld.manifestSteps >= 3
  }

  /** The flush fails right after that rename, and its watermark is not the one remembered already. */
  predicate StopsAfterRename(s: Sink, op: Op)
    requires s.hist != []
  {
    Renames(s, op) && op.flushWorld.manifestSteps == 3 && s.mem.durableSeq != Some(op.request.lastSeq)
  }

  /** The emit is accepted and renames its manifest into place. */
  predicate Shows(s: Sink, op: Op, cfg: Config) {
    && op.EmitOp? && !s.failed && s.spoolBytes + |cfg.codec.enc(op.event)| + 1 <= cfg.limit
    && op.emitWorld.written.None? && op.emitWorld.manifestSteps >= 3
  }

  /** `h` extends `hist` by states that show what `hist` shows last, except that the very last shows `mark`. */
  ghost predicate ShowsLast(hist: seq<Dir>, h: seq<Dir>, mark: nat) {
    && hist != [] && hist <= h
    && (forall i :: |hist| <= i < |h| - 1 ==> Shown(h[i]) == Shown(hist[|hist| - 1]))
    && Shown(h[|h| - 1]) == mark
  }

  lemma StatesShow(hist: seq<Dir>, ds: seq<Dir>)
    requires hist != [] && forall i :: 0 <= i < |ds| ==> Shown(ds[i]) == Shown(hist[|hist| - 1])
    ensures ShowsLast(hist, hist + ds, Shown(hist[|hist| - 1]))
  {
  }

  lemma ShowsTwice(a: seq<Dir>, b: seq<Dir>, c: seq<Dir>, mark: nat)
    requires a != [] && ShowsLast(a, b, Shown(a[|a| - 1])) && ShowsLast(b, c, mark)
    ensures ShowsLast(a, c, mark)
  {
  }

  lemma WriteShows(hist: seq<Dir>, m: Manifest, steps: nat)
    requires hist != []
    ensures var h := WriteManifest(hist, m, steps);
            ShowsLast(hist, h, if steps >= 3 then Rank(m.durableSeq) else Shown(hist[|hist| - 1]))
  {
    var d := hist[|hist| - 1];
    var ds := ManifestStates(d, m);
    assert Shown(ds[0]) == Shown(d) && Shown(ds[1]) == Shown(d) && Shown(ds[2]) == Rank(m.durableSeq);
  }

  lemma CopyShows(hist: seq<Dir>, n: nat, short: nat, steps: nat)
    requires hist != []
    ensures var h := CopySpool(hist, n, short, steps);
            h != [] && ShowsLast(hist, h, Shown(hist[|hist| - 1]))
  {
    var d := hist[|hist| - 1];
    if n in d.objects {
      assert hist + [] == hist;
      StatesShow(hist, []);
    } else {
      var ds := CopyStates(d, n, short);
      assert forall i :: 0 <= i < 3 ==> ds[i].manifest == d.manifest;
      StatesShow(hist, ds[..Min(steps, 3)]);
    }
  }

  lemma MirrorShows(hist: seq<Dir>, stores: seq<Store>)
    requires hist != []
    ensures var h := hist + StoreStates(hist[|hist| - 1], stores);
            && ShowsLast(hist, h, Shown(hist[|hist| - 1]))
            && h[|h| - 1].objects == hist[|hist| - 1].objects
  {
    StatesShow(hist, StoreStates(hist[|hist| - 1], stores));
  }

  lemma EmitShows(s: Sink, op: Op, cfg: Config)
    requires s.hist != [] && op.EmitOp?
    ensures var t := Emit(s, op.event, cfg, op.emitWorld).0;
            && ShowsLast(s.hist, t.hist, if Shows(s, op, cfg) then Rank(s.mem.durableSeq) else Shown(Now(s)))
            && t.mem.durableSeq == s.mem.durableSeq
  {
    hide WriteManifest, ShowsLast;
    var line := cfg.codec.enc(op.event) + [LF];
    assert s.hist + [] == s.hist;
    StatesShow(s.hist, []);
    if !s.failed && s.spoolBytes + |line| <= cfg.limit {
      if op.emitWorld.written.Some? {
        StatesShow(s.hist, [Now(s).(spool := Now(s).spool + line[..Min(op.emitWorld.written.value, |line|)])]);
      } else {
        var next := Now(s).(spool := Now(s).spool + line);
        var t := Emit(s, op.event, cfg, op.emitWorld).0;
        StatesShow(s.hist, [next]);
        WriteShows(s.hist + [next], t.mem, op.emitWorld.manifestSteps);
        ShowsTwice(s.hist, s.hist + [next], t.hist, if op.emitWorld.manifestSteps >= 3 then Rank(t.mem.durableSeq) else Shown(next));
      }
    }
  }

  lemma FlushShows(s: Sink, op: Op)
    requires s.hist != [] && op.FlushOp?
    ensures var t := Local.Flush(s, op.request, op.flushWorld).0;
            && ShowsLast(s.hist, t.hist, if Renames(s, op) then op.request.lastSeq + 1 else Shown(Now(s)))
            && t.mem.durableSeq == (if Renames(s, op) && op.flushWorld.manifestSteps >= 4
                                    then Some(op.request.lastSeq) else s.mem.durableSeq)
  {
    hide WriteManifest, CopySpool, StoreStates, ShowsLast;
    var request, w := op.request, op.flushWorld;
    assert s.hist + [] == s.hist;
    StatesShow(s.hist, []);
    if !s.failed && w.spoolOk && request.lastSeq == s.mem.lastSeq {
      MirrorShows(s.hist, w.stores);
      var h1 := s.hist + StoreStates(Now(s), w.stores);
      if w.mirrored {
        CopyShows(h1, request.lastSeq, w.copyShort, w.copySteps);
        var h2 := CopySpool(h1, request.lastSeq, w.copyShort, w.copySteps);
        SameMark(s.hist, h1);
        ShowsTwice(s.hist, h1, h2, Shown(Now(s)));
        SameMark(s.hist, h2);
        if (request.lastSeq in h1[|h1| - 1].objects || w.copySteps >= 5) && w.cursorOk {
          var durable := Durable(s.mem, request);
          WriteShows(h2, durable, w.manifestSteps);
          var h3 := WriteManifest(h2, durable, w.manifestSteps);
          ShowsTwice(s.hist, h2, h3, if w.manifestSteps >= 3 then request.lastSeq + 1 else Shown(Now(s)));
        }
      }
    }
  }

  lemma SameMark(a: seq<Dir>, b: seq<Dir>)
    requires a != [] && ShowsLast(a, b, Shown(a[|a| - 1]))
    ensures b != [] && Shown(b[|b| - 1]) == Shown(a[|a| - 1])
  {
  }

  /** The mark shown after an operation, and the one remembered. */
  lemma ApplyShows(s: Sink, op: Op, cfg: Config)
    requires s.hist != []
    ensures var t := Apply(s, op, cfg).0;
            && ShowsLast(s.hist, t.hist, if Renames(s, op) then op.request.lastSeq + 1
                                         else if Shows(s, op, cfg) then Rank(s.mem.durableSeq)
                                         else Shown(Now(s)))
            && t.mem.durableSeq == (if Renames(s, op) && op.flushWorld.manifestSteps >= 4
                                    then Some(op.request.lastSeq) else s.mem.durableSeq)
  {
    hide ShowsLast, Emit, Local.Flush;
    match op
    case EmitOp(_, _) => EmitShows(s, op, cfg);
    case FlushOp(_, _) => FlushShows(s, op);
  }

  lemma DecreasesAtEnd(hist: seq<Dir>, h: seq<Dir>, mark: nat)
    requires ShowsLast(hist, h, mark)
    ensures NeverDecreases(h) <==> NeverDecreases(hist) && Shown(hist[|hist| - 1]) <= mark
  {
    var n := |hist|;
    if NeverDecreases(h) {
      assert forall i :: 0 <= i < n ==> hist[i] == h[i];
      assert Shown(h[n - 1]) <= Shown(h[|h| - 1]);
    }
    if NeverDecreases(hist) && Shown(hist[n - 1]) <= mark {
      forall i, j | 0 <= i <= j < |h| ensures Shown(h[i]) <= Shown(h[j]) {
        assert i < n ==> h[i] == hist[i] && Shown(hist[i]) <= Shown(hist[n - 1]);
        assert j < n ==> h[j] == hist[j];
      }
    }
  }

  // ---------------------------------------------------------------- runs

  /** The disk shows a newer watermark than the sink remembers. */
  ghost predicate Ahead(s: Sink)
    requires s.hist != []
  {
    Rank(s.mem.durableSeq) < Shown(Now(s))
  }

  /** The sink never remembers more than the disk shows, and neither goes beyond the log. */
  ghost predicate InOrder(s: Sink) {
    s.hist != [] && Rank(s.mem.durableSeq) <= Shown(Now(s)) <= |s.log|
  }

  lemma LogLength(s: Sink, op: Op, session: string, cfg: Config, o: Objects)
    requires SinkInv(s, session, cfg, o) && Orderly(s, op, o) && s.hist != []
    ensures op.FlushOp? ==> op.request.lastSeq + 1 == |s.log|
    ensures |s.log| <= |Apply(s, op, cfg).0.log|
  {
    hide SinkInv, Proper;
    ApplyHist(s, op, cfg);
  }

  /** What one operation does to order, lead and monotonicity. */
  lemma OpMarks(s: Sink, op: Op, session: string, cfg: Config, o: Objects)
    requires SinkInv(s, session, cfg, o) && Orderly(s, op, o) && InOrder(s)
    ensures var t := Apply(s, op, cfg).0;
            && t.hist != [] && InOrder(t)
            && (Ahead(t) <==> StopsAfterRename(s, op) || (Ahead(s) && !Renames(s, op) && !Shows(s, op, cfg)))
            && (NeverDecreases(t.hist) <==> NeverDecreases(s.hist) && !(Ahead(s) && Shows(s, op, cfg)))
  {
    hide SinkInv, Orderly, Apply, ShowsLast, NeverDecreases;
    ApplyShows(s, op, cfg);
    LogLength(s, op, session, cfg, o);
    var t := Apply(s, op, cfg).0;
    var mark := if Renames(s, op) then op.request.lastSeq + 1
                else if Shows(s, op, cfg) then Rank(s.mem.durableSeq)
                else Shown(Now(s));
    LastShown(s.hist, t.hist, mark);
    DecreasesAtEnd(s.hist, t.hist, mark);
  }

  lemma LastShown(hist: seq<Dir>, h: seq<Dir>, mark: nat)
    requires ShowsLast(hist, h, mark)
    ensures h != [] && Shown(h[|h| - 1]) == mark
  {
  }

  lemma OrderlyInit(session: string, ops: seq<Op>, cfg: Config, o: Objects, n: nat)
    requires AllOrderly(session, ops, cfg, o) && n <= |ops|
    ensures AllOrderly(session, ops[..n], cfg, o)
    ensures n < |ops| ==> Orderly(After(session, ops[..n], cfg), ops[n], o)
  {
    hide Orderly, After;
    forall k | 0 <= k < n ensures Orderly(After(session, ops[..n][..k], cfg), ops[..n][k], o) {
      assert ops[..n][..k] == ops[..k];
    }
  }

  lemma AfterLast(session: string, ops: seq<Op>, cfg: Config, n: nat)
    requires n < |ops|
    ensures After(session, ops[..n + 1], cfg) == Apply(After(session, ops[..n], cfg), ops[n], cfg).0
  {
    hide Apply;
    assert ops[..n + 1][..n] == ops[..n];
  }

  lemma {:induction false} RunInOrder(session: string, ops: seq<Op>, cfg: Config, o: Objects, n: nat)
    requires AllOrderly(session, ops, cfg, o) && n <= |ops|
    ensures InOrder(After(session, ops[..n], cfg)) && SinkInv(After(session, ops[..n], cfg), session, cfg, o)
  {
    hide AllOrderly, SinkInv, Orderly, Apply;
    OrderlyInit(session, ops, cfg, o, n);
    AfterInv(session, ops[..n], cfg, o);
    if n == 0 {
      assert ops[..0] == [];
    } else {
      RunInOrder(session, ops, cfg, o, n - 1);
      OrderlyInit(session, ops, cfg, o, n - 1);
      AfterLast(session, ops, cfg, n - 1);
      OpMarks(After(session, ops[..n - 1], cfg), ops[n - 1], session, cfg, o);
    }
  }

  /** Step `k` is a flush that failed right after its rename. */
  ghost predicate StopsAt(session: string, ops: seq<Op>, cfg: Config, k: nat)
    requires k < |ops|
  {
    StopsAfterRename(After(session, ops[..k], cfg), ops[k])
  }

  ghost predicate RenamesAt(session: string, ops: seq<Op>, cfg: Config, k: nat)
    requires k < |ops|
  {
    Renames(After(session, ops[..k], cfg), ops[k])
  }

  ghost predicate ShowsAt(session: string, ops: seq<Op>, cfg: Config, k: nat)
    requires k < |ops|
  {
    Shows(After(session, ops[..k], cfg), ops[k], cfg)
  }

  /** Since step `k` no manifest was renamed into place. */
  ghost predicate QuietSince(session: string, ops: seq<Op>, cfg: Config, k: nat, n: nat)
    requires n <= |ops|
  {
    forall m :: k < m < n ==> !RenamesAt(session, ops, cfg, m) && !ShowsAt(session, ops, cfg, m)
  }

  lemma {:induction false} AheadExactly(session: string, ops: seq<Op>, cfg: Config, o: Objects, n: nat)
    requires AllOrderly(session, ops, cfg, o) && n <= |ops|
    ensures Ahead(After(session, ops[..n], cfg))
            <==> exists k :: 0 <= k < n && StopsAt(session, ops, cfg, k) && QuietSince(session, ops, cfg, k, n)
  {
    hide AllOrderly, SinkInv, Orderly, Apply, StopsAfterRename, Renames, Shows, After, InOrder, Ahead;
    if n == 0 {
      assert ops[..0] == [];
      NotAheadAtFirst(session, cfg);
    } else {
      var m := n - 1;
      AheadExactly(session, ops, cfg, o, m);
      RunInOrder(session, ops, cfg, o, m);
      OrderlyInit(session, ops, cfg, o, m);
      AfterLast(session, ops, cfg, m);
      OpMarks(After(session, ops[..m], cfg), ops[m], session, cfg, o);
      StopRenames(After(session, ops[..m], cfg), ops[m]);
      forall k | 0 <= k < m
        ensures QuietSince(session, ops, cfg, k, n)
                <==> QuietSince(session, ops, cfg, k, m) && !RenamesAt(session, ops, cfg, m) && !ShowsAt(session, ops, cfg, m)
      {
      }
      assert QuietSince(session, ops, cfg, m, n);
    }
  }

  lemma NotAheadAtFirst(session: string, cfg: Config)
    ensures !Ahead(After(session, [], cfg))
  {
  }

  lemma StopRenames(s: Sink, op: Op)
    requires s.hist != []
    ensures StopsAfterRename(s, op) ==> Renames(s, op)
  {
  }

  lemma {:induction false} DecreaseExactly(session: string, ops: seq<Op>, cfg: Config, o: Objects, n: nat)
    requires AllOrderly(session, ops, cfg, o) && n <= |ops|
    ensures NeverDecreases(After(session, ops[..n], cfg).hist)
            <==> forall j :: 0 <= j < n ==> !(Ahead(After(session, ops[..j], cfg)) && ShowsAt(session, ops, cfg, j))
  {
    hide AllOrderly, SinkInv, Orderly, Apply, StopsAfterRename, Renames, Shows, After, InOrder, Ahead, NeverDecreases;
    if n == 0 {
      assert ops[..0] == [];
      NothingDecreases(session, cfg);
    } else {
      var m := n - 1;
      DecreaseExactly(session, ops, cfg, o, m);
      RunInOrder(session, ops, cfg, o, m);
      OrderlyInit(session, ops, cfg, o, m);
      AfterLast(session, ops, cfg, m);
      OpMarks(After(session, ops[..m], cfg), ops[m], session, cfg, o);
    }
  }

  lemma NothingDecreases(session: string, cfg: Config)
    ensures NeverDecreases(After(session, [], cfg).hist)
  {
  }

  /** A flush at `k` failed right after its rename, and before another flush's manifest was renamed into
    * place, the emit at `j` was accepted and showed its manifest. */
  ghost predicate GoesBack(session: string, ops: seq<Op>, cfg: Config, k: nat, j: nat)
    requires j < |ops|
  {
    && k < j && StopsAt(session, ops, cfg, k) && ShowsAt(session, ops, cfg, j)
    && forall m :: k < m < j ==> !RenamesAt(session, ops, cfg, m)
  }

  lemma {:induction false} FirstShow(session: string, ops: seq<Op>, cfg: Config, k: nat, j: nat) returns (i: nat)
    requires k < j < |ops| && ShowsAt(session, ops, cfg, j)
    requires forall m :: k < m < j ==> !RenamesAt(session, ops, cfg, m)
    ensures k < i <= j && ShowsAt(session, ops, cfg, i) && QuietSince(session, ops, cfg, k, i)
    decreases j
  {
    hide After, RenamesAt, ShowsAt;
    if m :| k < m < j && ShowsAt(session, ops, cfg, m) {
      i := FirstShow(session, ops, cfg, k, m);
    } else {
      i := j;
    }
  }

  /** The watermark shown on disk never decreases, over the whole history of a session directory, if and only
    * if no flush failed right after renaming a new watermark into place and was followed, before another
    * flush's manifest was renamed into place, by an accepted emit whose manifest was. */
  lemma MonotonicExactly(session: string, ops: seq<Op>, cfg: Config, o: Objects)
    requires AllOrderly(session, ops, cfg, o)
    ensures NeverDecreases(After(session, ops, cfg).hist)
            <==> !exists k, j :: 0 <= k < j < |ops| && GoesBack(session, ops, cfg, k, j)
  {
    hide AllOrderly, After, RenamesAt, ShowsAt, StopsAt, NeverDecreases, Ahead;
    assert ops[..|ops|] == ops;
    DecreaseExactly(session, ops, cfg, o, |ops|);
    if j :| 0 <= j < |ops| && Ahead(After(session, ops[..j], cfg)) && ShowsAt(session, ops, cfg, j) {
      AheadExactly(session, ops, cfg, o, j);
      var k :| 0 <= k < j && StopsAt(session, ops, cfg, k) && QuietSince(session, ops, cfg, k, j);
      assert GoesBack(session, ops, cfg, k, j);
    }
    if k, j :| 0 <= k < j < |ops| && GoesBack(session, ops, cfg, k, j) {
      var i := FirstShow(session, ops, cfg, k, j);
      AheadExactly(session, ops, cfg, o, i);
      assert Ahead(After(session, ops[..i], cfg));
    }
  }

  // ---------------------------------------------------------------- a run that goes back

  const ROOT: Operation := Operation(RootOperation, Commit(RootCommit, map[]))
  const NO_OBJECTS: Objects := Objects(map[], (op: Operation) => {})

  function WitnessEvent(session: string, n: nat, body: EventBody): Event {
    Event(SCHEMA_VERSION, n, session, body)
  }

  /** A start, a durable flush, a flush that stops after its rename, and a mark. */
  function WitnessEvents(session: string): seq<Event> {
    [WitnessEvent(session, 0, SessionStart(ROOT, map[])),
     WitnessEvent(session, 1, EventBody.Flush(ROOT, 1)),
     WitnessEvent(session, 2, EventBody.Flush(ROOT, 2)),
     WitnessEvent(session, 3, Mark("m", ROOT))]
  }

  function WitnessFlush(n: nat, stores: seq<Store>, manifestSteps: nat): Op {
    FlushOp(FlushRequest(n, ROOT, Some(ROOT.commit)), FlushWorld(true, [], stores, true, 5, 0, true, manifestSteps))
  }

  function WitnessOps(session: string): seq<Op> {
    var es := WitnessEvents(session);
    [EmitOp(es[0], EmitWorld(None, 4)),
     EmitOp(es[1], EmitWorld(None, 4)),
     WitnessFlush(1, [map[[] := DirItem]], 4),
     EmitOp(es[2], EmitWorld(None, 4)),
     WitnessFlush(2, [], 3),
     EmitOp(es[3], EmitWorld(None, 4))]
  }

  /** The part of the sink's state the witness is about. */
  ghost predicate Looks(s: Sink, log: seq<Event>, durable: Option<nat>, store: Store, cfg: Config) {
    && s.hist != [] && !s.failed && s.log == log
    && s.mem.lastSeq == (if log == [] then 0 else |log| - 1)
    && s.mem.durableSeq == durable && s.spoolBytes == |Written(cfg.codec, log)| && Now(s).store == store
  }

  lemma EmitLooks(s: Sink, e: Event, log: seq<Event>, durable: Option<nat>, store: Store, cfg: Config)
    requires Looks(s, log, durable, store, cfg) && e.seqNo == |log|
    requires |Written(cfg.codec, log + [e])| <= cfg.limit
    ensures Looks(Emit(s, e, cfg, EmitWorld(None, 4)).0, log + [e], durable, store, cfg)
    ensures Shows(s, EmitOp(e, EmitWorld(None, 4)), cfg)
    ensures Emit(s, e, cfg, EmitWorld(None, 4)).0.mem.session == s.mem.session
  {
    hide Written;
    WrittenAppend(cfg.codec, log, e);
  }

  lemma FlushLooks(s: Sink, n: nat, stores: seq<Store>, steps: nat, log: seq<Event>, durable: Option<nat>,
                   store: Store, cfg: Config)
    requires Looks(s, log, durable, store, cfg) && n + 1 == |log| && steps >= 3
    ensures var op := WitnessFlush(n, stores, steps);
            && Looks(Local.Flush(s, op.request, op.flushWorld).0, log, if steps >= 4 then Some(n) else durable,
                     if stores == [] then store else stores[|stores| - 1], cfg)
            && Renames(s, op) && (steps == 3 && durable != Some(n) ==> StopsAfterRename(s, op))
            && Local.Flush(s, op.request, op.flushWorld).0.mem.session == s.mem.session
  {
    hide Written;
    var op := WitnessFlush(n, stores, steps);
    var h1 := s.hist + StoreStates(Now(s), stores);
    assert h1[|h1| - 1].store == if stores == [] then store else stores[|stores| - 1];
  }

  lemma EmptySource(f: Store)
    requires f == map[] || f == map[[] := DirItem]
    ensures SyncedDir(f, [], []) == map[[] := DirItem]
    ensures CarefulPath([map[], map[[] := DirItem]], map[]) && CarefulPath([f], map[])
  {
    var g: Store := map[[] := DirItem];
    assert forall p :: p in g ==> !Extra(g, [], [], p);
    assert SyncedEntries(g, [], 0, []) == g;
    assert Swept(g, [], []) == g;
    assert !IsImmutable([]);
  }

  lemma WitnessProper(s: Sink, n: nat, stores: seq<Store>, steps: nat, log: seq<Event>, durable: Option<nat>,
                      store: Store, cfg: Config)
    requires Looks(s, log, durable, store, cfg) && n + 1 == |log| && log[n].body == EventBody.Flush(ROOT, n)
    requires forall i :: 0 <= i < |log| ==> !log[i].body.SnapshotTaken?
    requires (store == map[] && stores == [map[[] := DirItem]]) || (store == map[[] := DirItem] && stores == [])
    ensures Orderly(s, WitnessFlush(n, stores, steps), NO_OBJECTS)
  {
    hide Written, SyncedDir, CarefulPath;
    EmptySource(store);
    assert [store] + stores == if stores == [] then [store] else [store, map[[] := DirItem]];
  }

  lemma EmitNext(session: string, ops: seq<Op>, e: Event, log: seq<Event>, durable: Option<nat>, store: Store, cfg: Config)
    requires AllOrderly(session, ops, cfg, NO_OBJECTS) && Looks(After(session, ops, cfg), log, durable, store, cfg)
    requires After(session, ops, cfg).mem.session == session
    requires e.seqNo == |log| && e.v == SCHEMA_VERSION && e.session == session
    requires |Written(cfg.codec, log + [e])| <= cfg.limit
    ensures var op := EmitOp(e, EmitWorld(None, 4));
            && AllOrderly(session, ops + [op], cfg, NO_OBJECTS)
            && Looks(After(session, ops + [op], cfg), log + [e], durable, store, cfg)
            && After(session, ops + [op], cfg).mem.session == session
            && Shows(After(session, ops, cfg), op, cfg)
  {
    hide Written, AllOrderly, After, Emit, Shows;
    var op := EmitOp(e, EmitWorld(None, 4));
    EmitLooks(After(session, ops, cfg), e, log, durable, store, cfg);
    AppendOp(session, ops, op, cfg, NO_OBJECTS);
  }

  lemma FlushNext(session: string, ops: seq<Op>, n: nat, stores: seq<Store>, steps: nat, log: seq<Event>,
                  durable: Option<nat>, store: Store, cfg: Config)
    requires AllOrderly(session, ops, cfg, NO_OBJECTS) && Looks(After(session, ops, cfg), log, durable, store, cfg)
    requires After(session, ops, cfg).mem.session == session
    requires n + 1 == |log| && log[n].body == EventBody.Flush(ROOT, n) && steps >= 3
    requires forall i :: 0 <= i < |log| ==> !log[i].body.SnapshotTaken?
    requires (store == map[] && stores == [map[[] := DirItem]]) || (store == map[[] := DirItem] && stores == [])
    ensures var op := WitnessFlush(n, stores, steps);
            && AllOrderly(session, ops + [op], cfg, NO_OBJECTS)
            && Looks(After(session, ops + [op], cfg), log, if steps >= 4 then Some(n) else durable, map[[] := DirItem], cfg)
            && After(session, ops + [op], cfg).mem.session == session
            && (steps == 3 && durable != Some(n) ==> StopsAfterRename(After(session, ops, cfg), op))
  {
    hide Written, AllOrderly, After, Local.Flush, StopsAfterRename, Renames, Orderly;
    var op := WitnessFlush(n, stores, steps);
    FlushLooks(After(session, ops, cfg), n, stores, steps, log, durable, store, cfg);
    WitnessProper(After(session, ops, cfg), n, stores, steps, log, durable, store, cfg);
    AppendOp(session, ops, op, cfg, NO_OBJECTS);
  }

  lemma Fits(session: string, cfg: Config, n: nat)
    requires |Written(cfg.codec, WitnessEvents(session))| <= cfg.limit && n < 4
    ensures |Written(cfg.codec, WitnessEvents(session)[..n] + [WitnessEvents(session)[n]])| <= cfg.limit
  {
    hide Written;
    var es := WitnessEvents(session);
    WrittenGrows(cfg.codec, es, n + 1);
    assert es[..n + 1] == es[..n] + [es[n]];
  }

  lemma FirstLooks(session: string, cfg: Config)
    ensures Looks(After(session, [], cfg), [], None, map[], cfg) && AllOrderly(session, [], cfg, NO_OBJECTS)
    ensures After(session, [], cfg).mem.session == session
  {
  }

  /** The first three steps: watermark 1 is durable. */
  lemma WitnessDurable(session: string, cfg: Config)
    requires |Written(cfg.codec, WitnessEvents(session))| <= cfg.limit
    ensures var ops, es := WitnessOps(session), WitnessEvents(session);
            && AllOrderly(session, ops[..3], cfg, NO_OBJECTS)
            && Looks(After(session, ops[..3], cfg), es[..2], Some(1), map[[] := DirItem], cfg)
            && After(session, ops[..3], cfg).mem.session == session
  {
    hide AllOrderly, After, Looks, Written, StopsAfterRename, Shows;
    var ops, es := WitnessOps(session), WitnessEvents(session);
    FirstLooks(session, cfg);
    Fits(session, cfg, 0);
    assert es[..0] == [] && es[..1] == [es[0]] == [] + [es[0]] && es[..2] == es[..1] + [es[1]];
    EmitNext(session, [], es[0], [], None, map[], cfg);
    assert ops[..1] == [] + [ops[0]] && ops[..2] == ops[..1] + [ops[1]] && ops[..3] == ops[..2] + [ops[2]];
    Fits(session, cfg, 1);
    EmitNext(session, ops[..1], es[1], es[..1], None, map[], cfg);
    FlushNext(session, ops[..2], 1, [map[[] := DirItem]], 4, es[..2], None, map[], cfg);
  }

  /** The last three: watermark 2 is renamed into place, and then the manifest with 1. */
  lemma WitnessBack(session: string, cfg: Config)
    requires |Written(cfg.codec, WitnessEvents(session))| <= cfg.limit
    ensures var ops, es := WitnessOps(session), WitnessEvents(session);
            && AllOrderly(session, ops, cfg, NO_OBJECTS)
            && StopsAfterRename(After(session, ops[..4], cfg), ops[4])
            && Looks(After(session, ops[..5], cfg), es[..3], Some(1), map[[] := DirItem], cfg)
            && Shows(After(session, ops[..5], cfg), ops[5], cfg)
  {
    hide AllOrderly, After, Looks, Written, StopsAfterRename, Shows;
    var ops, es := WitnessOps(session), WitnessEvents(session);
    WitnessDurable(session, cfg);
    Fits(session, cfg, 2);
    assert es[..3] == es[..2] + [es[2]] && es[..4] == es[..3] + [es[3]];
    assert ops[..4] == ops[..3] + [ops[3]] && ops[..5] == ops[..4] + [ops[4]] && ops == ops[..5] + [ops[5]];
    EmitNext(session, ops[..3], es[2], es[..2], Some(1), map[[] := DirItem], cfg);
    FlushNext(session, ops[..4], 2, [], 3, es[..3], Some(1), map[[] := DirItem], cfg);
    Fits(session, cfg, 3);
    EmitNext(session, ops[..5], es[3], es[..3], Some(1), map[[] := DirItem], cfg);
  }

  lemma ShownIs(d: Dir, n: nat)
    requires Shown(d) == n + 1
    ensures d.manifest.Some? && d.manifest.value.durableSeq == Some(n)
  {
  }

  /** Whatever the event encoding, if the spool has room for four events there is a run that shows watermark 2
    * and later watermark 1. */
  lemma WatermarkGoesBack(session: string, cfg: Config)
    requires |Written(cfg.codec, WitnessEvents(session))| <= cfg.limit
    ensures var s := After(session, WitnessOps(session), cfg);
            && AllOrderly(session, WitnessOps(session), cfg, NO_OBJECTS)
            && GoesBack(session, WitnessOps(session), cfg, 4, 5)
            && (exists i :: 0 <= i < |s.hist| && s.hist[i].manifest.Some? && s.hist[i].manifest.value.durableSeq == Some(2))
            && Now(s).manifest.Some? && Now(s).manifest.value.durableSeq == Some(1)
  {
    hide AllOrderly, After, Written, Apply, Renames, Shows;
    var ops := WitnessOps(session);
    WitnessBack(session, cfg);
    assert ops[..6] == ops;
    AfterLast(session, ops, cfg, 4);
    AfterLast(session, ops, cfg, 5);
    var s4, s5, s6 := After(session, ops[..4], cfg), After(session, ops[..5], cfg), After(session, ops, cfg);
    StopRenames(s4, ops[4]);
    OneKind(s5, ops[5], cfg);
    ApplyShows(s4, ops[4], cfg);
    ApplyShows(s5, ops[5], cfg);
    LastShown(s4.hist, s5.hist, 3);
    LastShown(s5.hist, s6.hist, 2);
    ShownIs(Now(s5), 2);
    ShownIs(Now(s6), 1);
    var i := |s5.hist| - 1;
    assert s5.hist[i] == s6.hist[i];
  }

  lemma OneKind(s: Sink, op: Op, cfg: Config)
    requires s.hist != [] && Shows(s, op, cfg)
    ensures !Renames(s, op)
  {
  }
}
