/** The session reader: opening a session directory and looking things up in its durable timeline. */
module Reader {
  import opened Schema
  import opened Chain
  import opened Journal

  const SESSION_FORMAT: nat := 1

  datatype Manifest = Manifest(session: string, sessionFormat: nat, schemaVersion: nat,
                               lastSeq: nat, lastOp: Option<Operation>,
                               eventsObject: Option<nat>, durableSeq: Option<nat>, durableOp: Option<Operation>)

  datatype ReadError =
    | MissingManifest
    | Incompatible
    | NotDurable
    | MissingEvents
    | BadStream
    | BeyondWatermark(requested: nat, durable: nat)
    | UnknownOperation
    | UnknownTree

  datatype Result<+T> = Ok(value: T) | Err(error: ReadError)

  datatype Session = Session(manifest: Manifest, events: seq<Event>)

  /** The event objects of a session directory by their number, and the one older sessions have. */
  datatype EventFiles = EventFiles(objects: map<nat, Bytes>, legacy: Option<Bytes>)

  function EventsFile(m: Manifest, files: EventFiles): Option<Bytes> {
    if m.eventsObject.None? then files.legacy
    else if m.eventsObject.value in files.objects then Some(files.objects[m.eventsObject.value])
    else None
  }

  function LastSeq(events: seq<Event>): Option<nat> {
    if events == [] then None else Some(events[|events| - 1].seqNo)
  }

  /** `Session::open`, given the manifest that was read first and the event files at the time they are read. */
  function Opened(c: Codec, manifest: Option<Manifest>, files: EventFiles): Result<Session> {
    if manifest.None? then Err(MissingManifest)
    else
      var m := manifest.value;
      if m.sessionFormat != SESSION_FORMAT || m.schemaVersion != SCHEMA_VERSION then Err(Incompatible)
      else if m.durableSeq.None? then Err(NotDurable)
      else if EventsFile(m, files).None? then Err(MissingEvents)
      else
        var events := TimelineOf(c, EventsFile(m, files).value);
        if events.None? then Err(BadStream)
        else if LastSeq(events.value) != m.durableSeq then
          Err(BeyondWatermark(if events.value == [] then 0 else LastSeq(events.value).value, m.durableSeq.value))
        else Ok(Session(m, events.value))
  }

  method Open(c: Codec, manifest: Option<Manifest>, files: EventFiles) returns (r: Result<Session>)
    ensures r == Opened(c, manifest, files)
  {
    if manifest.None? {
      return Err(MissingManifest);
    }
    var m := manifest.value;
    if m.sessionFormat != SESSION_FORMAT || m.schemaVersion != SCHEMA_VERSION {
      return Err(Incompatible);
    }
    if m.durableSeq.None? {
      return Err(NotDurable);
    }
    var bytes := EventsFile(m, files);
    if bytes.None? {
      return Err(MissingEvents);
    }
    var events := ReadTimeline(c, bytes.value);
    if events.None? {
      return Err(BadStream);
    }
    if LastSeq(events.value) != m.durableSeq {
      return Err(BeyondWatermark(if events.value == [] then 0 else LastSeq(events.value).value, m.durableSeq.value));
    }
    r := Ok(Session(m, events.value));
  }

  /** An opened session holds exactly the events 0 to its watermark of one session, and `EventAt` finds each
    * of them by its number and nothing else. */
  lemma OpenedSession(c: Codec, manifest: Option<Manifest>, files: EventFiles, n: nat)
    requires Opened(c, manifest, files).Ok?
    ensures var s := Opened(c, manifest, files).value;
            && manifest == Some(s.manifest) && s.manifest.durableSeq == Some(|s.events| - 1)
            && Contiguous(s.events) && SameSession(s.events)
            && (EventAt(s, n).Ok? <==> n < |s.events|)
            && (n < |s.events| ==> EventAt(s, n).value.seqNo == n)
  {
  }

  /** A session opens exactly if its manifest is there, is of the supported format and names a durable watermark,
    * and the event file it names holds exactly a stream that ends with that watermark; every other case has its
    * own error. */
  lemma OpensExactly(c: Codec, manifest: Option<Manifest>, files: EventFiles, events: seq<Event>)
    ensures Opened(c, manifest, files).Ok? && Opened(c, manifest, files).value.events == events
            <==> && manifest.Some? && manifest.value.sessionFormat == SESSION_FORMAT
                 && manifest.value.schemaVersion == SCHEMA_VERSION
                 && manifest.value.durableSeq == Some(|events| - 1) && events != []
                 && EventsFile(manifest.value, files).Some?
                 && TimelineOf(c, EventsFile(manifest.value, files).value) == Some(events)
    ensures var r := Opened(c, manifest, files);
            r.Err? ==>
              && (r.error == MissingManifest <==> manifest.None?)
              && (r.error == NotDurable ==> manifest.value.durableSeq.None?)
              && (r.error == MissingEvents ==> EventsFile(manifest.value, files).None?)
              && (r.error == BadStream ==> TimelineOf(c, EventsFile(manifest.value, files).value).None?)
              && (r.error.BeyondWatermark? ==> manifest.value.durableSeq == Some(r.error.durable))
  {
    if manifest.Some? && EventsFile(manifest.value, files).Some? {
      var read := TimelineOf(c, EventsFile(manifest.value, files).value);
      if read.Some? && read.value != [] {
        assert read.value[|read.value| - 1].seqNo == |read.value| - 1;
      }
    }
  }

  /** `Session::event`. */
  function EventAt(s: Session, n: nat): Result<Event> {
    if s.manifest.durableSeq.None? then Err(NotDurable)
    else if n > s.manifest.durableSeq.value then Err(BeyondWatermark(n, s.manifest.durableSeq.value))
    else if n < |s.events| then Ok(s.events[n])
    else Err(BeyondWatermark(n, s.manifest.durableSeq.value))
  }

  // ---------------------------------------------------------------- lookups

  datatype OperationInfo = OperationInfo(seqNo: nat, op: Operation, parentOp: Option<Operation>,
                                         commit: Option<Commit>, tree: Tree)

  /** What an event records about an operation, if it does. */
  function InfoOf(e: Event): Option<OperationInfo> {
    match e.body
    case SessionStart(op, tree) => Some(OperationInfo(e.seqNo, op, None, None, tree))
    case SnapshotTaken(s) => Some(OperationInfo(e.seqNo, s.op, Some(s.parentOp), Some(s.commit), s.tree))
    case _ => None
  }

  predicate Records(e: Event, op: Operation) {
    InfoOf(e).Some? && InfoOf(e).value.op == op
  }

  /** The first event that records `op`. */
  function FirstRecord(events: seq<Event>, op: Operation): (r: Option<nat>)
    ensures r.Some? ==> r.value < |events| && Records(events[r.value], op)
    ensures r.Some? ==> forall i :: 0 <= i < r.value ==> !Records(events[i], op)
    ensures r.None? ==> forall i :: 0 <= i < |events| ==> !Records(events[i], op)
  {
    if events == [] then None
    else
      var n := |events| - 1;
      var before := FirstRecord(events[..n], op);
      if before.Some? then before else if Records(events[n], op) then Some(n) else None
  }

  /** `Session::inspect_operation`. */
  function InspectOperation(events: seq<Event>, op: Operation): Result<OperationInfo> {
    var i := FirstRecord(events, op);
    if i.Some? then Ok(InfoOf(events[i.value]).value) else Err(UnknownOperation)
  }

  datatype IndexEntry = IndexEntry(seqNo: nat, kind: string, op: Option<Operation>, tree: Option<Tree>)

  /** One line of the index: every kind of event with an operation shows it, only two have a tree. */
  function EntryOf(e: Event): IndexEntry {
    match e.body
    case SessionStart(op, tree) => IndexEntry(e.seqNo, "session_start", Some(op), Some(tree))
    case SnapshotTaken(s) => IndexEntry(e.seqNo, "snapshot", Some(s.op), Some(s.tree))
    case TouchedPaths(_, _, _) => IndexEntry(e.seqNo, "touched_paths", None, None)
    case Mark(_, refOp) => IndexEntry(e.seqNo, "mark", Some(refOp), None)
    case Flush(op, _) => IndexEntry(e.seqNo, "flush", Some(op), None)
    case SessionEnd(op, _, _, _) => IndexEntry(e.seqNo, "session_end", Some(op), None)
    case Overflow(_, _) => IndexEntry(e.seqNo, "overflow", None, None)
  }

  /** `Session::index`. */
  function Index(events: seq<Event>): (r: seq<IndexEntry>)
    ensures |r| == |events|
    ensures forall i :: 0 <= i < |events| ==> r[i] == EntryOf(events[i])
  {
    seq(|events|, i requires 0 <= i < |events| => EntryOf(events[i]))
  }

  /** In a contiguous timeline, line `i` of the index is about event `i`: its kind tells the events apart; it has
    * a tree exactly if the event records an operation, and then that operation with its tree; and otherwise it
    * names the operation that the mark, flush or end names, if it is one. */
  lemma IndexExactly(events: seq<Event>, i: nat, j: nat)
    requires Contiguous(events) && i < |events| && j < |events|
    ensures var line := Index(events)[i];
            && line.seqNo == i
            && (line.tree.Some? <==> InfoOf(events[i]).Some?)
            && (line.tree.Some? ==>
                  line.op == Some(InfoOf(events[i]).value.op) && line.tree == Some(InfoOf(events[i]).value.tree))
            && (line.op.Some? && line.tree.None? <==>
                  events[i].body.Mark? || events[i].body.Flush? || events[i].body.SessionEnd?)
            && (events[i].body.Mark? ==> line.op == Some(events[i].body.refOp))
            && (events[i].body.Flush? ==> line.op == Some(events[i].body.op))
            && (events[i].body.SessionEnd? ==> line.op == Some(events[i].body.finalOp))
            && (line.kind == Index(events)[j].kind <==> SameKind(events[i].body, events[j].body))
  {
    var kinds := ["session_start", "snapshot", "touched_paths", "mark", "flush", "session_end", "overflow"];
    assert kinds[0][2] == 's' && kinds[1][1] == 'n' && kinds[5][8] == 'e' && kinds[0][8] == 's';
  }

  ghost predicate SameKind(a: EventBody, b: EventBody) {
    && (a.SessionStart? <==> b.SessionStart?) && (a.SnapshotTaken? <==> b.SnapshotTaken?)
    && (a.TouchedPaths? <==> b.TouchedPaths?) && (a.Mark? <==> b.Mark?) && (a.Flush? <==> b.Flush?)
    && (a.SessionEnd? <==> b.SessionEnd?) && (a.Overflow? <==> b.Overflow?)
  }

  function FirstTree(index: seq<IndexEntry>, tree: Tree): (r: Option<nat>)
    ensures r.Some? ==> r.value < |index| && index[r.value].tree == Some(tree)
    ensures r.Some? ==> forall i :: 0 <= i < r.value ==> index[i].tree != Some(tree)
    ensures r.None? ==> forall i :: 0 <= i < |index| ==> index[i].tree != Some(tree)
  {
    if index == [] then None
    else
      var n := |index| - 1;
      var before := FirstTree(index[..n], tree);
      if before.Some? then before else if index[n].tree == Some(tree) then Some(n) else None
  }

  /** `Session::inspect_tree`. */
  function InspectTree(events: seq<Event>, tree: Tree): Result<OperationInfo> {
    var i := FirstTree(Index(events), tree);
    if i.None? || Index(events)[i.value].op.None? then Err(UnknownTree)
    else InspectOperation(events, Index(events)[i.value].op.value)
  }

  // ---------------------------------------------------------------- lookups in a chained timeline

  /** In a chained timeline an operation is recorded by at most one event. */
  lemma RecordedOnce(log: seq<Event>, maxChanges: nat, op: Operation, i: nat, j: nat)
    requires Begins(log) && Chained(log, maxChanges)
    requires i < j < |log| && Records(log[i], op)
    ensures !Records(log[j], op)
  {
    hide Linked, Chained, LatestOp, Depth;
    if Records(log[j], op) {
      if i > 0 {
        OpsDistinct(log, maxChanges, i, j);
      } else {
        DeeperThanBaseline(log, maxChanges, j);
      }
    }
  }

  lemma DeeperThanBaseline(log: seq<Event>, maxChanges: nat, j: nat)
    requires Begins(log) && Chained(log, maxChanges)
    requires 0 < j < |log| && log[j].body.SnapshotTaken?
    ensures log[j].body.snapshot.op != log[0].body.baselineOp
  {
    assert log[..1] == [] + [log[0]];
    LatestOpAppend([], log[0]);
    LatestDepth(log, maxChanges, 1, j);
    assert Linked(LatestOp(log[..j]), log[j].body.snapshot, maxChanges);
  }

  /** In a chained timeline, looking up an operation returns exactly what the one event that recorded it
    * says, and fails exactly when no event recorded it. */
  lemma InspectFinds(log: seq<Event>, maxChanges: nat, op: Operation, info: OperationInfo)
    requires Begins(log) && Chained(log, maxChanges)
    ensures InspectOperation(log, op) == Ok(info)
            <==> info.op == op && exists i :: 0 <= i < |log| && InfoOf(log[i]) == Some(info)
    ensures InspectOperation(log, op).Err? <==> forall i :: 0 <= i < |log| ==> !Records(log[i], op)
  {
    hide Chained, Begins;
    var r := FirstRecord(log, op);
    if i :| info.op == op && 0 <= i < |log| && InfoOf(log[i]) == Some(info) {
      assert Records(log[i], op);
      if r.value < i {
        RecordedOnce(log, maxChanges, op, r.value, i);
      }
    }
    if r.Some? {
      assert InfoOf(log[r.value]).Some?;
    }
  }

  /** The event of the newest snapshot, or of the session start. */
  function Newest(log: seq<Event>): (r: nat)
    requires log != []
    ensures r < |log|
  {
    var n := |log| - 1;
    if n == 0 || InfoOf(log[n]).Some? then n else Newest(log[..n])
  }

  lemma {:induction false} NewestIs(log: seq<Event>)
    requires log != [] && log[0].body.SessionStart?
    ensures Records(log[Newest(log)], LatestOp(log))
    ensures forall i :: Newest(log) < i < |log| ==> InfoOf(log[i]).None?
  {
    var n := |log| - 1;
    if n > 0 && InfoOf(log[n]).None? {
      NewestIs(log[..n]);
      assert LatestOp(log) == LatestOp(log[..n]);
    }
  }

  /** Looking up the newest operation returns the newest snapshot event, or the baseline. */
  lemma InspectNewest(log: seq<Event>, maxChanges: nat)
    requires Begins(log) && Chained(log, maxChanges)
    ensures var newest := InfoOf(log[Newest(log)]);
            newest.Some? && InspectOperation(log, LatestOp(log)) == Ok(newest.value)
    ensures forall i :: Newest(log) < i < |log| ==> InfoOf(log[i]).None?
  {
    hide Chained, LatestOp;
    NewestIs(log);
    InspectFinds(log, maxChanges, LatestOp(log), InfoOf(log[Newest(log)]).value);
  }

  /** In a chained timeline, looking up a tree returns the earliest event that has it, and fails exactly when
    * none has. */
  lemma InspectTreeEarliest(log: seq<Event>, maxChanges: nat, tree: Tree, info: OperationInfo)
    requires Begins(log) && Chained(log, maxChanges)
    ensures InspectTree(log, tree) == Ok(info)
            <==> exists i :: EarliestWith(log, tree, i) && InfoOf(log[i]) == Some(info)
    ensures InspectTree(log, tree).Err? <==> forall i :: 0 <= i < |log| && InfoOf(log[i]).Some?
                                                         ==> InfoOf(log[i]).value.tree != tree
  {
    hide Chained, Begins;
    var index := Index(log);
    var r := FirstTree(index, tree);
    if r.Some? {
      var found := InfoOf(log[r.value]).value;
      InspectFinds(log, maxChanges, found.op, found);
      assert EarliestWith(log, tree, r.value);
      assert InspectTree(log, tree) == Ok(found);
      forall i | EarliestWith(log, tree, i) ensures i == r.value {
        assert index[i].tree == Some(tree);
        assert index[r.value].tree == Some(tree);
      }
    } else {
      forall i | 0 <= i < |log| && InfoOf(log[i]).Some? ensures InfoOf(log[i]).value.tree != tree {
        assert index[i].tree != Some(tree);
      }
    }
  }

  ghost predicate EarliestWith(log: seq<Event>, tree: Tree, i: int) {
    && 0 <= i < |log| && InfoOf(log[i]).Some? && InfoOf(log[i]).value.tree == tree
    && forall j :: 0 <= j < i && InfoOf(log[j]).Some? ==> InfoOf(log[j]).value.tree != tree
  }
}
