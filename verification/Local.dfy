/** Local publication of a session (`DirectorySessionSink`) as small file-system steps.
  *
  * `hist` lists every state of the session directory, one file operation at a time.  A crash is a history
  * that ends early; a concurrent reader reads the manifest in one state and the other files in later ones.
  */
module Local {
  import opened Schema
  import opened Coordination
  import opened Chain
  import opened Journal
  import opened Reader
  import opened Mirror
  import opened Mirroring

  /** A file written under a temporary name. */
  datatype Pending<T> = Absent | Partial | Complete(value: T)

  datatype Dir = Dir(spool: Bytes,
                     manifest: Option<Manifest>, manifestTmp: Pending<Manifest>,
                     objects: map<nat, Bytes>, objectTmps: map<nat, Bytes>,
                     store: Store)

  /** `mem` is the manifest in the sink's memory, `log` the events whose emit succeeded. */
  datatype Sink = Sink(mem: Manifest, spoolBytes: nat, failed: bool, log: seq<Event>, hist: seq<Dir>)

  datatype Config = Config(codec: Codec, limit: nat)

  /** The immutable files of the repository by content, and those that each operation needs. */
  datatype Objects = Objects(truth: map<Name, Content>, needs: Operation -> set<Name>)

  /** How much of an event's line is written, and how many steps of the manifest update succeed. */
  datatype EmitWorld = EmitWorld(written: Option<nat>, manifestSteps: nat)

  /** What happens during a flush: the source repository, the states the mirror takes the store through,
    * whether it and the sync of the directories it changed succeed, how many steps of the event copy and of
    * the manifest update succeed, and whether the spool can be synced and the cursor file written. */
  datatype FlushWorld = FlushWorld(spoolOk: bool, source: seq<Entry>, stores: seq<Store>, mirrored: bool,
                                   copySteps: nat, copyShort: nat, cursorOk: bool, manifestSteps: nat)

  function Now(s: Sink): Dir
    requires s.hist != []
  {
    s.hist[|s.hist| - 1]
  }

  function Min(a: nat, b: nat): nat { if a <= b then a else b }

  /** The steps of an atomic manifest update: the temporary is created, filled, and renamed.  A fourth step
    * syncs the directory. */
  function ManifestStates(d: Dir, m: Manifest): seq<Dir> {
    [d.(manifestTmp := Partial), d.(manifestTmp := Complete(m)), d.(manifestTmp := Absent, manifest := Some(m))]
  }

  function WriteManifest(hist: seq<Dir>, m: Manifest, steps: nat): seq<Dir>
    requires hist != []
  {
    hist + ManifestStates(hist[|hist| - 1], m)[..Min(steps, 3)]
  }

  /** `event_op`. */
  function EventOp(e: Event): Option<Operation> {
    match e.body
    case SessionStart(op, _) => Some(op)
    case SnapshotTaken(snap) => Some(snap.op)
    case SessionEnd(op, _, _, _) => Some(op)
    case Flush(op, _) => Some(op)
    case _ => None
  }

  /** `emit`: the synced spool append decides; the manifest update after it may fail. */
  function Emit(s: Sink, e: Event, cfg: Config, w: EmitWorld): (Sink, bool)
    requires s.hist != []
  {
    var line := cfg.codec.enc(e) + [LF];
    if s.failed || s.spoolBytes + |line| > cfg.limit then (s, false)
    else if w.written.Some? then
      (s.(failed := true,
          hist := s.hist + [Now(s).(spool := Now(s).spool + line[..Min(w.written.value, |line|)])]), false)
    else
      var mem := s.mem.(lastSeq := e.seqNo, lastOp := if EventOp(e).Some? then EventOp(e) else s.mem.lastOp);
      var hist := s.hist + [Now(s).(spool := Now(s).spool + line)];
      (Sink(mem, s.spoolBytes + |line|, false, s.log + [e], WriteManifest(hist, mem, w.manifestSteps)), true)
  }

  /** The states of the directory while the mirror works on the store. */
  function StoreStates(d: Dir, stores: seq<Store>): seq<Dir> {
    seq(|stores|, i requires 0 <= i < |stores| => d.(store := stores[i]))
  }

  /** The steps of copying the spool to event object `n`: part of the temporary, all of it, the rename.  Two
    * more steps sync the directories. */
  function CopyStates(d: Dir, n: nat, short: nat): seq<Dir> {
    [d.(objectTmps := d.objectTmps[n := d.spool[..Min(short, |d.spool|)]]),
     d.(objectTmps := d.objectTmps[n := d.spool]),
     d.(objectTmps := d.objectTmps - {n}, objects := d.objects[n := d.spool])]
  }

  function CopySpool(hist: seq<Dir>, n: nat, short: nat, steps: nat): seq<Dir>
    requires hist != []
  {
    if n in hist[|hist| - 1].objects then hist
    else hist + CopyStates(hist[|hist| - 1], n, short)[..Min(steps, 3)]
  }

  function Durable(mem: Manifest, request: FlushRequest): Manifest {
    mem.(lastOp := Some(request.lastOp), durableSeq := Some(request.lastSeq), durableOp := Some(request.lastOp),
         eventsObject := Some(request.lastSeq))
  }

  /** `flush_session`: repository content, then the event object, then the manifest; memory changes last. */
  function Flush(s: Sink, request: FlushRequest, w: FlushWorld): (Sink, bool)
    requires s.hist != []
  {
    if s.failed || !w.spoolOk || request.lastSeq != s.mem.lastSeq then (s, false)
    else
      var h1 := s.hist + StoreStates(Now(s), w.stores);
      if !w.mirrored then (s.(hist := h1), false)
      else
        var copied := request.lastSeq in h1[|h1| - 1].objects || w.copySteps >= 5;
        var h2 := CopySpool(h1, request.lastSeq, w.copyShort, w.copySteps);
        if !copied || !w.cursorOk then (s.(hist := h2), false)
        else
          var durable := Durable(s.mem, request);
          var h3 := WriteManifest(h2, durable, w.manifestSteps);
          if w.manifestSteps >= 4 then (s.(mem := durable, hist := h3), true) else (s.(hist := h3), false)
  }

  // ---------------------------------------------------------------- what the world may do

  /** `p` is a file of the source repository. */
  predicate IsFile(entries: seq<Entry>, rel: Name, p: Name)
    decreases entries
  {
    && rel < p
    && var i := IndexOf(entries, p[|rel|], |entries|);
       && i.Some?
       && if |p| == |rel| + 1 then entries[i.value].node.FileNode?
          else entries[i.value].node.DirNode? && IsFile(entries[i.value].node.entries, p[..|rel| + 1], p)
  }

  /** A flush starts from a source repository that lists each name once and holds the completed objects of
    * the operation to publish, and mirrors it the way `Mirroring.Destination.SyncTree` does. */
  ghost predicate Proper(s: Sink, request: FlushRequest, w: FlushWorld, o: Objects) {
    && s.hist != []
    && Listing(w.source) && Truthful(w.source, [], o.truth)
    && (forall p :: p in o.needs(request.lastOp) ==> IsImmutable(p) && IsFile(w.source, [], p))
    && CarefulPath([Now(s).store] + w.stores, o.truth)
    && (w.mirrored ==> ([Now(s).store] + w.stores)[|w.stores|] == SyncedDir(Now(s).store, w.source, []))
  }

  datatype Op = EmitOp(event: Event, emitWorld: EmitWorld) | FlushOp(request: FlushRequest, flushWorld: FlushWorld)

  function Apply(s: Sink, op: Op, cfg: Config): (Sink, bool)
    requires s.hist != []
  {
    match op
    case EmitOp(e, w) => Emit(s, e, cfg, w)
    case FlushOp(request, w) => Flush(s, request, w)
  }

  /** What the coordinator asks of its sink: the next event of the session, or a flush of the log so far. */
  ghost predicate Orderly(s: Sink, op: Op, o: Objects) {
    match op
    case EmitOp(e, _) => e.seqNo == |s.log| && e.v == SCHEMA_VERSION && e.session == s.mem.session
    case FlushOp(request, w) => RequestCovers(s.log, request) && Proper(s, request, w, o)
  }

  const NOTHING: Dir := Dir([], None, Absent, map[], map[], map[])

  function Created(session: string): (s: Sink)
    ensures s.hist != []
  {
    Sink(Manifest(session, SESSION_FORMAT, SCHEMA_VERSION, 0, None, None, None, None), 0, false, [], [NOTHING])
  }

  lemma ApplyHist(s: Sink, op: Op, cfg: Config)
    requires s.hist != []
    ensures s.hist <= Apply(s, op, cfg).0.hist
    ensures s.log <= Apply(s, op, cfg).0.log
  {
  }

  function After(session: string, ops: seq<Op>, cfg: Config): (s: Sink)
    ensures s.hist != []
  {
    if ops == [] then Created(session)
    else
      var t := After(session, ops[..|ops| - 1], cfg);
      ApplyHist(t, ops[|ops| - 1], cfg);
      Apply(t, ops[|ops| - 1], cfg).0
  }

  ghost predicate AllOrderly(session: string, ops: seq<Op>, cfg: Config, o: Objects) {
    forall k :: 0 <= k < |ops| ==> Orderly(After(session, ops[..k], cfg), ops[k], o)
  }

  /** One more operation that is asked for in order. */
  lemma AppendOp(session: string, ops: seq<Op>, op: Op, cfg: Config, o: Objects)
    requires AllOrderly(session, ops, cfg, o) && Orderly(After(session, ops, cfg), op, o)
    ensures AllOrderly(session, ops + [op], cfg, o)
    ensures After(session, ops + [op], cfg) == Apply(After(session, ops, cfg), op, cfg).0
  {
    hide Orderly, Apply;
    var more := ops + [op];
    assert more[..|ops|] == ops;
    forall k | 0 <= k < |more| ensures Orderly(After(session, more[..k], cfg), more[k], o) {
      if k < |ops| {
        assert more[..k] == ops[..k];
      }
    }
  }

  // ---------------------------------------------------------------- the invariant

  ghost predicate StoreTrue(f: Store, truth: map<Name, Content>) {
    forall p :: p in f && IsImmutable(p) ==> p in truth && f[p] == FileItem(truth[p])
  }

  ghost predicate Present(f: Store, names: set<Name>, truth: map<Name, Content>) {
    forall p :: p in names ==> IsImmutable(p) && p in truth && At(f, p) == Some(FileItem(truth[p]))
  }

  ghost predicate ObjectsOk(objects: map<nat, Bytes>, log: seq<Event>, c: Codec) {
    forall n :: n in objects ==> n < |log| && objects[n] == Written(c, log[..n + 1])
  }

  /** The newest operation named by an event. */
  function NewestOp(log: seq<Event>): Option<Operation> {
    if log == [] then None
    else if EventOp(log[|log| - 1]).Some? then EventOp(log[|log| - 1])
    else NewestOp(log[..|log| - 1])
  }

  /** The manifest states a position in the log and the newest operation up to it. */
  ghost predicate Observed(m: Manifest, log: seq<Event>) {
    m.lastSeq < |log| && m.lastOp == NewestOp(log[..m.lastSeq + 1])
  }

  /** What a manifest promises, the directory keeps. */
  ghost predicate ManifestOk(d: Dir, m: Manifest, log: seq<Event>, session: string, o: Objects) {
    && m.session == session && m.sessionFormat == SESSION_FORMAT && m.schemaVersion == SCHEMA_VERSION
    && m.eventsObject == m.durableSeq
    && (m.durableSeq.Some? ==>
          var n := m.durableSeq.value;
          && n in d.objects && n < |log| && log[n].body.Flush? && m.durableOp == Some(log[n].body.op)
          && Present(d.store, o.needs(log[n].body.op), o.truth))
  }

  ghost predicate DirOk(d: Dir, log: seq<Event>, session: string, c: Codec, o: Objects) {
    && ObjectsOk(d.objects, log, c)
    && StoreTrue(d.store, o.truth)
    && (d.manifest.Some? ==>
          ManifestOk(d, d.manifest.value, log, session, o) && Observed(d.manifest.value, log))
  }

  /** Event objects and immutable files stay as they are. */
  ghost predicate Grows(a: Dir, b: Dir) {
    && (forall n :: n in a.objects ==> n in b.objects && b.objects[n] == a.objects[n])
    && (forall p :: p in a.store && IsImmutable(p) ==> At(b.store, p) == At(a.store, p))
  }

  ghost predicate HistOk(hist: seq<Dir>, log: seq<Event>, session: string, c: Codec, o: Objects) {
    && (forall i :: 0 <= i < |hist| ==> DirOk(hist[i], log, session, c, o))
    && (forall i :: 0 < i < |hist| ==> Grows(hist[i - 1], hist[i]))
  }

  ghost predicate LogOk(s: Sink, session: string) {
    && Contiguous(s.log) && OneSession(s.log, session) && s.mem.session == session
    && s.mem.lastSeq == (if s.log == [] then 0 else |s.log| - 1)
    && s.mem.lastOp == NewestOp(s.log)
  }

  ghost predicate SinkInv(s: Sink, session: string, cfg: Config, o: Objects) {
    && s.hist != []
    && HistOk(s.hist, s.log, session, cfg.codec, o)
    && ManifestOk(Now(s), s.mem, s.log, session, o)
    && LogOk(s, session)
    && (!s.failed ==> Now(s).spool == Written(cfg.codec, s.log) && s.spoolBytes == |Now(s).spool|)
    && s.spoolBytes <= cfg.limit
  }

  // ---------------------------------------------------------------- extending a history

  lemma HistConcat(hist: seq<Dir>, ds: seq<Dir>, k: nat, log: seq<Event>, session: string, c: Codec, o: Objects)
    requires hist != [] && k <= |ds|
    requires HistOk(hist, log, session, c, o) && HistOk([hist[|hist| - 1]] + ds, log, session, c, o)
    ensures HistOk(hist + ds[..k], log, session, c, o)
  {
    hide DirOk, Grows;
    var h, more := hist + ds[..k], [hist[|hist| - 1]] + ds;
    forall i | 0 <= i < |h| ensures DirOk(h[i], log, session, c, o) {
      if i >= |hist| {
        assert h[i] == more[i - |hist| + 1];
      }
    }
    forall i | 0 < i < |h| ensures Grows(h[i - 1], h[i]) {
      if i >= |hist| {
        assert h[i] == more[i - |hist| + 1] && h[i - 1] == more[i - |hist|];
      }
    }
  }

  lemma ManifestMoves(a: Dir, b: Dir, m: Manifest, log: seq<Event>, session: string, o: Objects)
    requires ManifestOk(a, m, log, session, o) && Grows(a, b)
    ensures ManifestOk(b, m, log, session, o)
  {
    hide IsImmutable;
    if m.durableSeq.Some? {
      var names := o.needs(log[m.durableSeq.value].body.op);
      forall p | p in names ensures IsImmutable(p) && p in o.truth && At(b.store, p) == Some(FileItem(o.truth[p])) {
        assert At(a.store, p) == Some(FileItem(o.truth[p]));
      }
    }
  }

  /** A step that leaves the reader's files alone, and shows a manifest the directory keeps. */
  lemma QuietStep(a: Dir, b: Dir, log: seq<Event>, session: string, c: Codec, o: Objects)
    requires DirOk(a, log, session, c, o) && b.objects == a.objects && b.store == a.store
    requires b.manifest == a.manifest
             || (b.manifest.Some? && ManifestOk(a, b.manifest.value, log, session, o) && Observed(b.manifest.value, log))
    ensures DirOk(b, log, session, c, o) && Grows(a, b)
  {
    hide IsImmutable, Written;
    assert Grows(a, b);
    if b.manifest.Some? {
      ManifestMoves(a, b, b.manifest.value, log, session, o);
    }
  }

  lemma {:induction false} GrowsTo(hist: seq<Dir>, i: nat, j: nat)
    requires forall k :: 0 < k < |hist| ==> Grows(hist[k - 1], hist[k])
    requires i <= j < |hist|
    ensures Grows(hist[i], hist[j])
    decreases j
  {
    hide IsImmutable;
    if i < j {
      GrowsTo(hist, i, j - 1);
      assert Grows(hist[j - 1], hist[j]);
      GrowsTwice(hist[i], hist[j - 1], hist[j]);
    }
  }

  lemma GrowsTwice(a: Dir, b: Dir, c: Dir)
    requires Grows(a, b) && Grows(b, c)
    ensures Grows(a, c)
  {
    hide IsImmutable;
    forall p | p in a.store && IsImmutable(p) ensures At(c.store, p) == At(a.store, p) {
      assert At(b.store, p) == At(a.store, p);
    }
  }

  lemma ManifestSteps(hist: seq<Dir>, m: Manifest, steps: nat, log: seq<Event>, session: string, c: Codec, o: Objects)
    requires hist != [] && HistOk(hist, log, session, c, o)
    requires ManifestOk(hist[|hist| - 1], m, log, session, o) && Observed(m, log)
    ensures var h := WriteManifest(hist, m, steps);
            && HistOk(h, log, session, c, o) && h != [] && Grows(hist[|hist| - 1], h[|h| - 1])
            && h[|h| - 1].spool == hist[|hist| - 1].spool
            && (steps >= 3 ==> h[|h| - 1].manifest == Some(m))
  {
    hide DirOk, Grows, ManifestOk;
    var d := hist[|hist| - 1];
    var ds := ManifestStates(d, m);
    QuietStep(d, ds[0], log, session, c, o);
    ManifestMoves(d, ds[0], m, log, session, o);
    QuietStep(ds[0], ds[1], log, session, c, o);
    ManifestMoves(ds[0], ds[1], m, log, session, o);
    QuietStep(ds[1], ds[2], log, session, c, o);
    var more := [d] + ds;
    assert more[0] == d && more[1] == ds[0] && more[2] == ds[1] && more[3] == ds[2];
    HistConcat(hist, ds, Min(steps, 3), log, session, c, o);
    GrowsTo(more, 0, Min(steps, 3));
    var h := WriteManifest(hist, m, steps);
    assert h[|h| - 1] == more[Min(steps, 3)];
  }

  // ---------------------------------------------------------------- the repository mirror

  lemma StoreStep(d: Dir, next: Store, log: seq<Event>, session: string, c: Codec, o: Objects)
    requires DirOk(d, log, session, c, o) && Careful(d.store, next, o.truth)
    ensures DirOk(d.(store := next), log, session, c, o) && Grows(d, d.(store := next))
  {
    hide IsImmutable, Written;
    var e := d.(store := next);
    assert Grows(d, e);
    forall p | p in next && IsImmutable(p) ensures p in o.truth && next[p] == FileItem(o.truth[p]) {
      if p in d.store {
        assert At(next, p) == At(d.store, p);
      }
    }
    if d.manifest.Some? {
      ManifestMoves(d, e, d.manifest.value, log, session, o);
    }
  }

  lemma {:induction false} StoreSteps(d: Dir, stores: seq<Store>, log: seq<Event>, session: string, c: Codec, o: Objects)
    requires DirOk(d, log, session, c, o) && CarefulPath([d.store] + stores, o.truth)
    ensures HistOk([d] + StoreStates(d, stores), log, session, c, o)
    decreases |stores|
  {
    hide DirOk, Grows, Careful;
    if stores == [] {
      assert [d] + StoreStates(d, stores) == [d];
    } else {
      var n := |stores| - 1;
      var path := [d.store] + stores;
      var init := [d.store] + stores[..n];
      assert forall i :: 0 <= i < |init| ==> init[i] == path[i];
      StoreSteps(d, stores[..n], log, session, c, o);
      var h := [d] + StoreStates(d, stores[..n]);
      var last, next := h[n], d.(store := stores[n]);
      assert last == d.(store := path[n]);
      assert Careful(path[n], path[n + 1], o.truth);
      StoreStep(last, stores[n], log, session, c, o);
      assert last.(store := stores[n]) == next;
      assert [d] + StoreStates(d, stores) == h + [next];
      var all := h + [next];
      forall i | 0 < i < |all| ensures Grows(all[i - 1], all[i]) {
        if i < |h| {
          assert Grows(h[i - 1], h[i]);
        }
      }
    }
  }

  /** An immutable source file is in place after a successful mirror. */
  lemma {:induction false} ImmutableMirrored(f: Store, entries: seq<Entry>, rel: Name, p: Name, truth: map<Name, Content>)
    requires Listing(entries) && Truthful(entries, rel, truth) && IsFile(entries, rel, p) && IsImmutable(p)
    requires StoreTrue(f, truth)
    ensures p in truth && DirAfter(f, entries, rel, p) == Some(FileItem(truth[p]))
  {
    hide IsImmutable, Clobbered, Copied;
    var i := IndexOf(entries, p[|rel|], |entries|).value;
    assert DirAfter(f, entries, rel, p) == EntriesAfter(f, entries, |entries|, rel, p);
    if |p| == |rel| + 1 {
      assert p == rel + [entries[i].name];
      ImmutableNotClobbered(f, entries, rel, entries[i].name, i + 1, |entries|);
      assert EntriesAfter(f, entries, |entries|, rel, p) == ChildAfter(f, entries, |entries|, rel, entries[i].name);
    } else {
      assert p[..|rel| + 1] == rel + [entries[i].name];
      ImmutableMirrored(f, entries[i].node.entries, p[..|rel| + 1], p, truth);
      assert EntriesAfter(f, entries, |entries|, rel, p) == DirAfter(f, entries[i].node.entries, p[..|rel| + 1], p);
    }
  }

  lemma NeedsMirrored(s: Sink, request: FlushRequest, w: FlushWorld, o: Objects)
    requires Proper(s, request, w, o) && StoreTrue(Now(s).store, o.truth)
    ensures Present(SyncedDir(Now(s).store, w.source, []), o.needs(request.lastOp), o.truth)
  {
    hide IsImmutable, DirAfter, SyncedDir, IndexOf;
    var f := Now(s).store;
    SyncLeaves(f, w.source, []);
    forall p | p in o.needs(request.lastOp)
      ensures IsImmutable(p) && p in o.truth && At(SyncedDir(f, w.source, []), p) == Some(FileItem(o.truth[p]))
    {
      ImmutableMirrored(f, w.source, [], p, o.truth);
      assert [] < p;
    }
  }

  // ---------------------------------------------------------------- the event object

  lemma ObjectStep(d: Dir, n: nat, log: seq<Event>, session: string, c: Codec, o: Objects)
    requires DirOk(d, log, session, c, o) && n !in d.objects
    requires n + 1 == |log| && d.spool == Written(c, log)
    ensures var e := d.(objectTmps := d.objectTmps - {n}, objects := d.objects[n := d.spool]);
            DirOk(e, log, session, c, o) && Grows(d, e)
  {
    hide IsImmutable, Written, ManifestOk, StoreTrue;
    var e := d.(objectTmps := d.objectTmps - {n}, objects := d.objects[n := d.spool]);
    assert log[..n + 1] == log;
    assert e.store == d.store;
    assert ObjectsOk(e.objects, log, c);
    assert Grows(d, e);
    if d.manifest.Some? {
      ManifestMoves(d, e, d.manifest.value, log, session, o);
    }
  }

  lemma CopySteps(hist: seq<Dir>, n: nat, short: nat, steps: nat, log: seq<Event>, session: string, c: Codec, o: Objects)
    requires hist != [] && HistOk(hist, log, session, c, o)
    requires n + 1 == |log| && hist[|hist| - 1].spool == Written(c, log)
    ensures var h := CopySpool(hist, n, short, steps);
            && HistOk(h, log, session, c, o) && h != [] && Grows(hist[|hist| - 1], h[|h| - 1])
            && h[|h| - 1].spool == hist[|hist| - 1].spool
            && h[|h| - 1].store == hist[|hist| - 1].store
            && (n in hist[|hist| - 1].objects || steps >= 3 ==> n in h[|h| - 1].objects)
  {
    hide DirOk, Grows, ManifestOk, Written, HistOk;
    var d := hist[|hist| - 1];
    LastOk(hist, log, session, c, o);
    GrowsSelf(d);
    if n !in d.objects {
      var ds := CopyStates(d, n, short);
      CopyStatesOk(d, n, short, log, session, c, o);
      HistConcat(hist, ds, Min(steps, 3), log, session, c, o);
      var more := [d] + ds;
      HistGrows(more, Min(steps, 3), log, session, c, o);
      var h := CopySpool(hist, n, short, steps);
      assert h[|h| - 1] == more[Min(steps, 3)];
    }
  }

  lemma CopyStatesOk(d: Dir, n: nat, short: nat, log: seq<Event>, session: string, c: Codec, o: Objects)
    requires DirOk(d, log, session, c, o) && n !in d.objects
    requires n + 1 == |log| && d.spool == Written(c, log)
    ensures HistOk([d] + CopyStates(d, n, short), log, session, c, o)
  {
    hide DirOk, Grows, ManifestOk, Written;
    var ds := CopyStates(d, n, short);
    QuietStep(d, ds[0], log, session, c, o);
    QuietStep(ds[0], ds[1], log, session, c, o);
    ObjectStep(ds[1], n, log, session, c, o);
    assert ds[1].(objectTmps := ds[1].objectTmps - {n}, objects := ds[1].objects[n := ds[1].spool]) == ds[2] by {
      assert d.objectTmps[n := d.spool] - {n} == d.objectTmps - {n};
    }
    var more := [d] + ds;
    assert more[0] == d && more[1] == ds[0] && more[2] == ds[1] && more[3] == ds[2];
  }

  lemma LastOk(hist: seq<Dir>, log: seq<Event>, session: string, c: Codec, o: Objects)
    requires hist != [] && HistOk(hist, log, session, c, o)
    ensures DirOk(hist[|hist| - 1], log, session, c, o)
  {
  }

  lemma GrowsSelf(d: Dir)
    ensures Grows(d, d)
  {
  }

  lemma HistGrows(hist: seq<Dir>, k: nat, log: seq<Event>, session: string, c: Codec, o: Objects)
    requires k < |hist| && HistOk(hist, log, session, c, o)
    ensures Grows(hist[0], hist[k])
  {
    hide DirOk, Grows;
    GrowsTo(hist, 0, k);
  }

  // ---------------------------------------------------------------- one operation

  lemma LongerLog(d: Dir, m: Manifest, log: seq<Event>, e: Event, session: string, c: Codec, o: Objects)
    ensures DirOk(d, log, session, c, o) ==> DirOk(d, log + [e], session, c, o)
    ensures ManifestOk(d, m, log, session, o) ==> ManifestOk(d, m, log + [e], session, o)
  {
    hide IsImmutable, Written, Present, StoreTrue, NewestOp;
    var longer := log + [e];
    forall n | n in d.objects && n < |log| ensures longer[..n + 1] == log[..n + 1] {
    }
    if d.manifest.Some? && d.manifest.value.lastSeq < |log| {
      assert longer[..d.manifest.value.lastSeq + 1] == log[..d.manifest.value.lastSeq + 1];
    }
  }

  lemma LongerHist(hist: seq<Dir>, log: seq<Event>, e: Event, session: string, c: Codec, o: Objects)
    requires HistOk(hist, log, session, c, o)
    ensures HistOk(hist, log + [e], session, c, o)
  {
    hide DirOk, Grows;
    forall i | 0 <= i < |hist| ensures DirOk(hist[i], log + [e], session, c, o) {
      LongerLog(hist[i], Manifest(session, 0, 0, 0, None, None, None, None), log, e, session, c, o);
    }
  }

  /** The spool changed, nothing else. */
  lemma SpoolStep(hist: seq<Dir>, spool: Bytes, log: seq<Event>, session: string, c: Codec, o: Objects)
    requires hist != [] && HistOk(hist, log, session, c, o)
    ensures HistOk(hist + [hist[|hist| - 1].(spool := spool)], log, session, c, o)
    ensures Grows(hist[|hist| - 1], hist[|hist| - 1].(spool := spool))
  {
    hide DirOk, Grows;
    var d := hist[|hist| - 1];
    var e := d.(spool := spool);
    QuietStep(d, e, log, session, c, o);
    assert [d] + [e] == [d, e];
    HistConcat(hist, [e], 1, log, session, c, o);
    assert [e][..1] == [e];
  }

  lemma LogStep(s: Sink, e: Event, session: string)
    requires LogOk(s, session) && e.seqNo == |s.log| && e.v == SCHEMA_VERSION && e.session == session
    ensures Contiguous(s.log + [e]) && OneSession(s.log + [e], session)
  {
  }

  /** The part of an event's line that a failing write leaves. */
  lemma EmitTorn(s: Sink, spool: Bytes, session: string, cfg: Config, o: Objects)
    requires SinkInv(s, session, cfg, o)
    ensures SinkInv(s.(failed := true, hist := s.hist + [Now(s).(spool := spool)]), session, cfg, o)
  {
    hide HistOk, ManifestOk, Grows, Written, Contiguous, OneSession, NewestOp;
    SpoolStep(s.hist, spool, s.log, session, cfg.codec, o);
    ManifestMoves(Now(s), Now(s).(spool := spool), s.mem, s.log, session, o);
  }

  /** What the accepted event makes of the manifest in memory. */
  function Noting(mem: Manifest, e: Event): Manifest {
    mem.(lastSeq := e.seqNo, lastOp := if EventOp(e).Some? then EventOp(e) else mem.lastOp)
  }

  lemma EmitNoted(s: Sink, e: Event, session: string, next: Dir, cfg: Config, o: Objects)
    requires SinkInv(s, session, cfg, o) && e.seqNo == |s.log| && e.v == SCHEMA_VERSION && e.session == session
    requires Grows(Now(s), next)
    ensures var log, mem := s.log + [e], Noting(s.mem, e);
            && Contiguous(log) && OneSession(log, session)
            && ManifestOk(next, mem, log, session, o) && Observed(mem, log)
            && mem.lastOp == NewestOp(log) && mem.lastSeq == |log| - 1
  {
    hide HistOk, ManifestOk, Grows, Written, Contiguous, OneSession, NewestOp, EventOp;
    var log := s.log + [e];
    LogStep(s, e, session);
    NewestAppend(s.log, e);
    assert log[..|log|] == log;
    ManifestMoves(Now(s), next, s.mem, s.log, session, o);
    LongerLog(next, s.mem, s.log, e, session, cfg.codec, o);
    SameManifest(next, s.mem, Noting(s.mem, e), log, session, o);
  }

  /** The event's line is written, and the manifest update may stop anywhere. */
  lemma EmitAccepted(s: Sink, e: Event, steps: nat, session: string, cfg: Config, o: Objects)
    requires SinkInv(s, session, cfg, o) && !s.failed
    requires e.seqNo == |s.log| && e.v == SCHEMA_VERSION && e.session == session
    requires s.spoolBytes + |cfg.codec.enc(e)| + 1 <= cfg.limit
    ensures SinkInv(Emit(s, e, cfg, EmitWorld(None, steps)).0, session, cfg, o)
  {
    hide HistOk, ManifestOk, Grows, Written, Contiguous, OneSession, WriteManifest, Observed, NewestOp, EventOp;
    var log, mem := s.log + [e], Noting(s.mem, e);
    var next := Now(s).(spool := Now(s).spool + (cfg.codec.enc(e) + [LF]));
    WrittenAppend(cfg.codec, s.log, e);
    SpoolStep(s.hist, next.spool, s.log, session, cfg.codec, o);
    LongerHist(s.hist + [next], s.log, e, session, cfg.codec, o);
    EmitNoted(s, e, session, next, cfg, o);
    ManifestSteps(s.hist + [next], mem, steps, log, session, cfg.codec, o);
    var h := WriteManifest(s.hist + [next], mem, steps);
    ManifestMoves(next, h[|h| - 1], mem, log, session, o);
  }

  lemma EmitInv(s: Sink, e: Event, w: EmitWorld, session: string, cfg: Config, o: Objects)
    requires SinkInv(s, session, cfg, o)
    requires e.seqNo == |s.log| && e.v == SCHEMA_VERSION && e.session == session
    ensures SinkInv(Emit(s, e, cfg, w).0, session, cfg, o)
  {
    hide SinkInv, WriteManifest;
    InvHist(s, session, cfg, o);
    var line := cfg.codec.enc(e) + [LF];
    if !s.failed && s.spoolBytes + |line| <= cfg.limit {
      if w.written.Some? {
        EmitTorn(s, Now(s).spool + line[..Min(w.written.value, |line|)], session, cfg, o);
      } else {
        EmitAccepted(s, e, w.manifestSteps, session, cfg, o);
      }
    }
  }

  lemma InvHist(s: Sink, session: string, cfg: Config, o: Objects)
    requires SinkInv(s, session, cfg, o)
    ensures s.hist != []
  {
  }

  lemma NewestAppend(log: seq<Event>, e: Event)
    ensures NewestOp(log + [e]) == if EventOp(e).Some? then EventOp(e) else NewestOp(log)
  {
    hide EventOp;
    assert (log + [e])[..|log|] == log;
  }

  /** Only the durable part of a manifest makes promises. */
  lemma SameManifest(d: Dir, a: Manifest, b: Manifest, log: seq<Event>, session: string, o: Objects)
    requires ManifestOk(d, a, log, session, o)
    requires b == a.(lastSeq := b.lastSeq, lastOp := b.lastOp)
    ensures ManifestOk(d, b, log, session, o)
  {
    hide Present;
  }

  lemma DurableOk(d: Dir, mem: Manifest, request: FlushRequest, log: seq<Event>, session: string, o: Objects)
    requires ManifestOk(d, mem, log, session, o) && RequestCovers(log, request) && request.lastSeq in d.objects
    requires Present(d.store, o.needs(request.lastOp), o.truth)
    requires mem.lastSeq == |log| - 1
    ensures ManifestOk(d, Durable(mem, request), log, session, o)
    ensures Observed(Durable(mem, request), log) && NewestOp(log) == Some(request.lastOp)
  {
    hide Present, CommitsBelow;
    assert log[..|log|] == log;
  }

  /** After the mirror: the store and the states on the way. */
  lemma FlushStores(s: Sink, request: FlushRequest, w: FlushWorld, session: string, cfg: Config, o: Objects)
    requires SinkInv(s, session, cfg, o) && Proper(s, request, w, o)
    ensures var h1 := s.hist + StoreStates(Now(s), w.stores);
            && HistOk(h1, s.log, session, cfg.codec, o)
            && Grows(Now(s), h1[|h1| - 1]) && h1[|h1| - 1].spool == Now(s).spool
            && (w.mirrored ==> Present(h1[|h1| - 1].store, o.needs(request.lastOp), o.truth))
  {
    hide DirOk, Grows, ManifestOk, Written, Careful, LogOk, SyncedDir, IsFile, Present, StoreTrue;
    var d := Now(s);
    var states := StoreStates(d, w.stores);
    LastOk(s.hist, s.log, session, cfg.codec, o);
    StoreSteps(d, w.stores, s.log, session, cfg.codec, o);
    HistConcat(s.hist, states, |states|, s.log, session, cfg.codec, o);
    assert states[..|states|] == states;
    HistGrows([d] + states, |states|, s.log, session, cfg.codec, o);
    var h1 := s.hist + states;
    assert h1[|h1| - 1] == ([d] + states)[|states|];
    if w.mirrored {
      TrueNow(d, s.log, session, cfg.codec, o);
      NeedsMirrored(s, request, w, o);
      assert h1[|h1| - 1].store == ([d.store] + w.stores)[|w.stores|];
    }
  }

  lemma TrueNow(d: Dir, log: seq<Event>, session: string, c: Codec, o: Objects)
    requires DirOk(d, log, session, c, o)
    ensures StoreTrue(d.store, o.truth)
  {
  }

  lemma FlushInv(s: Sink, request: FlushRequest, w: FlushWorld, session: string, cfg: Config, o: Objects)
    requires SinkInv(s, session, cfg, o) && RequestCovers(s.log, request) && Proper(s, request, w, o)
    ensures var (t, ok) := Flush(s, request, w);
            && SinkInv(t, session, cfg, o)
            && (ok ==> Now(t).manifest == Some(t.mem) && t.mem == Durable(s.mem, request))
  {
    hide HistOk, ManifestOk, Grows, Written, WriteManifest, CopySpool, Proper, RequestCovers, Present, StoreStates,
      Contiguous, OneSession;
    var d := Now(s);
    LastIs(s.log, request);
    if !s.failed && w.spoolOk && request.lastSeq == s.mem.lastSeq {
      FlushStores(s, request, w, session, cfg, o);
      var h1 := s.hist + StoreStates(d, w.stores);
      var d1 := h1[|h1| - 1];
      ManifestMoves(d, d1, s.mem, s.log, session, o);
      if w.mirrored {
        CopySteps(h1, request.lastSeq, w.copyShort, w.copySteps, s.log, session, cfg.codec, o);
        var h2 := CopySpool(h1, request.lastSeq, w.copyShort, w.copySteps);
        var d2 := h2[|h2| - 1];
        ManifestMoves(d1, d2, s.mem, s.log, session, o);
        if (request.lastSeq in d1.objects || w.copySteps >= 5) && w.cursorOk {
          var durable := Durable(s.mem, request);
          DurableOk(d2, s.mem, request, s.log, session, o);
          ManifestSteps(h2, durable, w.manifestSteps, s.log, session, cfg.codec, o);
          var h3 := WriteManifest(h2, durable, w.manifestSteps);
          ManifestMoves(d2, h3[|h3| - 1], durable, s.log, session, o);
          ManifestMoves(d2, h3[|h3| - 1], s.mem, s.log, session, o);
        }
      }
    }
  }

  lemma LastIs(log: seq<Event>, request: FlushRequest)
    requires RequestCovers(log, request)
    ensures log != [] && request.lastSeq == |log| - 1
  {
  }

  // ---------------------------------------------------------------- the main results

  lemma CreatedInv(session: string, cfg: Config, o: Objects)
    ensures SinkInv(Created(session), session, cfg, o)
  {
  }

  lemma {:induction false} AfterInv(session: string, ops: seq<Op>, cfg: Config, o: Objects)
    requires AllOrderly(session, ops, cfg, o)
    ensures SinkInv(After(session, ops, cfg), session, cfg, o)
  {
    hide SinkInv, Orderly, Apply;
    if ops == [] {
      CreatedInv(session, cfg, o);
    } else {
      var n := |ops| - 1;
      var init := ops[..n];
      forall k | 0 <= k < n ensures Orderly(After(session, init[..k], cfg), init[k], o) {
        assert init[..k] == ops[..k];
      }
      AfterInv(session, init, cfg, o);
      assert Orderly(After(session, ops[..n], cfg), ops[n], o);
      ApplyInv(After(session, init, cfg), ops[n], session, cfg, o);
    }
  }

  lemma ApplyInv(s: Sink, op: Op, session: string, cfg: Config, o: Objects)
    requires SinkInv(s, session, cfg, o) && Orderly(s, op, o)
    ensures SinkInv(Apply(s, op, cfg).0, session, cfg, o)
  {
    hide SinkInv, Emit, Flush, Proper, RequestCovers;
    SessionIs(s, session, cfg, o);
    match op
    case EmitOp(e, w) => EmitInv(s, e, w, session, cfg, o);
    case FlushOp(request, w) => FlushInv(s, request, w, session, cfg, o);
  }

  lemma SessionIs(s: Sink, session: string, cfg: Config, o: Objects)
    requires SinkInv(s, session, cfg, o)
    ensures s.mem.session == session
  {
  }

  /** Crash and concurrent-reader safety.  Take any two moments of any history of the session directory: the
    * reader reads the manifest at the first and the other files at the second, or the writer died at the
    * second.  If the manifest names no durable watermark, the session is reported as not durable.  Otherwise
    * the session opens and holds exactly the accepted events up to the watermark, the last of which is the
    * flush event that names the durable operation, and every immutable file that operation needs is in
    * place with its true content. */
  lemma SessionAlwaysReadable(session: string, ops: seq<Op>, cfg: Config, o: Objects, i: nat, j: nat,
                              legacy: Option<Bytes>)
    requires AllOrderly(session, ops, cfg, o) && Sound(cfg.codec)
    requires i <= j < |After(session, ops, cfg).hist| && After(session, ops, cfg).hist[i].manifest.Some?
    ensures var s := After(session, ops, cfg);
            var m := s.hist[i].manifest.value;
            var result := Opened(cfg.codec, Some(m), EventFiles(s.hist[j].objects, legacy));
            && (m.durableSeq.None? ==> result == Err(NotDurable))
            && (m.durableSeq.Some? ==>
                  var d := m.durableSeq.value;
                  && d < |s.log| && result == Ok(Session(m, s.log[..d + 1]))
                  && s.log[d].body.Flush? && m.durableOp == Some(s.log[d].body.op)
                  && Present(s.hist[j].store, o.needs(s.log[d].body.op), o.truth))
  {
    hide Present, AllOrderly, SinkInv, After, Opened;
    AfterInv(session, ops, cfg, o);
    var s := After(session, ops, cfg);
    var m := s.hist[i].manifest.value;
    KeptAt(s, i, j, session, cfg, o);
    ReadableAt(s.hist[j], m, s.log, session, cfg.codec, o, legacy);
  }

  /** A manifest of some moment is kept by the directory at any later one. */
  lemma KeptAt(s: Sink, i: nat, j: nat, session: string, cfg: Config, o: Objects)
    requires SinkInv(s, session, cfg, o) && i <= j < |s.hist| && s.hist[i].manifest.Some?
    ensures ManifestOk(s.hist[j], s.hist[i].manifest.value, s.log, session, o)
    ensures ObjectsOk(s.hist[j].objects, s.log, cfg.codec) && Contiguous(s.log) && OneSession(s.log, session)
  {
    hide Grows, Written, ManifestOk, StoreTrue, OneSession, Contiguous, ObjectsOk;
    assert DirOk(s.hist[i], s.log, session, cfg.codec, o) && DirOk(s.hist[j], s.log, session, cfg.codec, o);
    GrowsTo(s.hist, i, j);
    ManifestMoves(s.hist[i], s.hist[j], s.hist[i].manifest.value, s.log, session, o);
  }

  lemma ReadableAt(d: Dir, m: Manifest, log: seq<Event>, session: string, c: Codec, o: Objects, legacy: Option<Bytes>)
    requires ManifestOk(d, m, log, session, o) && ObjectsOk(d.objects, log, c)
    requires Contiguous(log) && OneSession(log, session) && Sound(c)
    ensures var result := Opened(c, Some(m), EventFiles(d.objects, legacy));
            && (m.durableSeq.None? ==> result == Err(NotDurable))
            && (m.durableSeq.Some? ==>
                  var n := m.durableSeq.value;
                  && n < |log| && result == Ok(Session(m, log[..n + 1]))
                  && log[n].body.Flush? && m.durableOp == Some(log[n].body.op)
                  && Present(d.store, o.needs(log[n].body.op), o.truth))
  {
    hide Written, Present, OneSession, Contiguous, TimelineOf, Sound;
    if m.durableSeq.Some? {
      PrefixReads(c, log, session, m.durableSeq.value + 1);
    }
  }

  lemma PrefixReads(c: Codec, log: seq<Event>, session: string, n: nat)
    requires Sound(c) && Contiguous(log) && OneSession(log, session) && n <= |log|
    ensures TimelineOf(c, Written(c, log[..n])) == Some(log[..n])
    ensures n > 0 ==> log[..n][n - 1].seqNo == n - 1
  {
    hide TimelineOf, Written, Sound;
    JournalRoundTrip(c, log[..n], session);
  }

  /** Any manifest ever shown states a position the log has reached and the newest operation up to it, and the
    * one in memory states the end of the log. */
  lemma ManifestsObserve(session: string, ops: seq<Op>, cfg: Config, o: Objects, i: nat)
    requires AllOrderly(session, ops, cfg, o) && i < |After(session, ops, cfg).hist|
    ensures var s := After(session, ops, cfg);
            && (s.hist[i].manifest.Some? ==> Observed(s.hist[i].manifest.value, s.log))
            && (s.log != [] ==> Observed(s.mem, s.log) && s.mem.lastSeq == |s.log| - 1)
  {
    hide Written, StoreTrue, AllOrderly, OneSession, Contiguous, After, ManifestOk, Grows, NewestOp;
    AfterInv(session, ops, cfg, o);
    var s := After(session, ops, cfg);
    assert DirOk(s.hist[i], s.log, session, cfg.codec, o);
    assert s.log[..|s.log|] == s.log;
  }

  /** No immutable file and no event object that was ever in the session directory is changed or removed, at
    * any later moment; the spool stays within its limit. */
  lemma ImmutableForever(session: string, ops: seq<Op>, cfg: Config, o: Objects, i: nat, j: nat)
    requires AllOrderly(session, ops, cfg, o)
    requires i <= j < |After(session, ops, cfg).hist|
    ensures var s := After(session, ops, cfg);
            && Grows(s.hist[i], s.hist[j])
            && (forall n :: n in s.hist[j].objects ==> n < |s.log| && s.hist[j].objects[n] == Written(cfg.codec, s.log[..n + 1]))
            && (!s.failed ==> Now(s).spool == Written(cfg.codec, s.log) && |Now(s).spool| <= cfg.limit)
  {
    hide Grows, Written, Present, StoreTrue, AllOrderly, OneSession, Contiguous, After;
    AfterInv(session, ops, cfg, o);
    var s := After(session, ops, cfg);
    GrowsTo(s.hist, i, j);
    assert DirOk(s.hist[j], s.log, session, cfg.codec, o);
  }
}
