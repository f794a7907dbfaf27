/** The directory sink as an object (`DirectorySessionSink`), publishing into a session directory one file
  * operation at a time and mirroring the repository with `Mirroring.Destination`.
  */
module DirectorySinks {
  import opened Schema
  import opened Coordination
  import opened Journal
  import opened Reader
  import opened Mirror
  import opened Mirroring
  import Local

  class SessionDirectory {
    var dir: Local.Dir
    /** Every state of the directory so far. */
    ghost var hist: seq<Local.Dir>

    ghost predicate Valid()
      reads this
    {
      hist != [] && hist[|hist| - 1] == dir
    }

    constructor ()
      ensures Valid() && hist == [Local.NOTHING]
    {
      dir, hist := Local.NOTHING, [Local.NOTHING];
    }

    method Become(next: Local.Dir)
      requires Valid()
      modifies this
      ensures Valid() && dir == next && hist == old(hist) + [next]
    {
      dir, hist := next, hist + [next];
    }

    /** `write_manifest_atomic`, of which `steps` steps succeed. */
    method WriteManifest(m: Manifest, steps: nat) returns (ok: bool)
      requires Valid()
      modifies this
      ensures Valid() && hist == Local.WriteManifest(old(hist), m, steps) && (ok <==> steps >= 4)
    {
      ghost var states := Local.ManifestStates(dir, m);
      if steps == 0 {
        return false;
      }
      Become(dir.(manifestTmp := Local.Partial));
      if steps == 1 {
        assert states[..1] == [states[0]];
        return false;
      }
      Become(dir.(manifestTmp := Local.Complete(m)));
      if steps == 2 {
        assert states[..2] == [states[0], states[1]];
        return false;
      }
      Become(dir.(manifestTmp := Local.Absent, manifest := Some(m)));
      assert states[..3] == [states[0], states[1], states[2]];
      ok := steps >= 4;
    }

    /** Copies the spool to event object `n` unless that exists. */
    method CopySpool(n: nat, short: nat, steps: nat) returns (ok: bool)
      requires Valid()
      modifies this
      ensures Valid() && hist == Local.CopySpool(old(hist), n, short, steps)
      ensures ok <==> n in old(dir.objects) || steps >= 5
    {
      if n in dir.objects {
        return true;
      }
      ghost var d := dir;
      ghost var states := Local.CopyStates(dir, n, short);
      if steps == 0 {
        return false;
      }
      Become(dir.(objectTmps := dir.objectTmps[n := dir.spool[..Local.Min(short, |dir.spool|)]]));
      if steps == 1 {
        assert states[..1] == [states[0]];
        return false;
      }
      Become(dir.(objectTmps := dir.objectTmps[n := dir.spool]));
      assert dir.objectTmps == d.objectTmps[n := d.spool];
      if steps == 2 {
        assert states[..2] == [states[0], states[1]];
        return false;
      }
      Become(dir.(objectTmps := dir.objectTmps - {n}, objects := dir.objects[n := dir.spool]));
      assert dir.objectTmps == d.objectTmps - {n};
      assert states[..3] == [states[0], states[1], states[2]];
      ok := steps >= 5;
    }

    /** Mirrors the repository into the store; `stores` are the states it goes through. */
    method MirrorRepository(source: seq<Entry>, io: IO, ghost truth: map<Name, Content>)
      returns (ok: bool, ghost stores: seq<Store>)
      requires Valid() && Truthful(source, [], truth)
      modifies this
      ensures Valid() && hist == old(hist) + Local.StoreStates(old(dir), stores)
      ensures CarefulPath([old(dir.store)] + stores, truth)
      ensures ok ==> ([old(dir.store)] + stores)[|stores|] == SyncedDir(old(dir.store), source, [])
    {
      hide SyncedDir, IsImmutable, Careful;
      RootIsNoObject();
      var mirror := new Destination(dir.store);
      Single(dir.store, truth);
      ok := mirror.SyncTree(source, [], io, truth);
      stores := mirror.hist[1..];
      assert [old(dir.store)] + stores == mirror.hist;
      ghost var states := Local.StoreStates(dir, stores);
      dir := dir.(store := mirror.store);
      hist := hist + states;
      if stores != [] {
        assert hist[|hist| - 1] == states[|stores| - 1];
      } else {
        assert mirror.store == old(dir.store);
      }
    }
  }

  lemma RootIsNoObject()
    ensures !IsImmutable([])
  {
  }

  lemma Single(f: Store, truth: map<Name, Content>)
    ensures CarefulPath([f], truth)
  {
  }

  /** How the file operations of a flush fare, apart from the mirror's own; `dirsOk` tells whether the
    * directories it changed can be synced after it. */
  datatype FlushFate = FlushFate(spoolOk: bool, dirsOk: bool, copySteps: nat, copyShort: nat, cursorOk: bool, manifestSteps: nat)

  class DirectorySessionSink {
    const cfg: Local.Config
    const place: SessionDirectory
    var mem: Manifest
    var spoolBytes: nat
    var failed: bool
    ghost var log: seq<Event>

    ghost predicate Valid()
      reads this, place
    {
      place.Valid()
    }

    ghost function View(): (s: Local.Sink)
      reads this, place
    {
      Local.Sink(mem, spoolBytes, failed, log, place.hist)
    }

    constructor (cfg: Local.Config, session: string, place: SessionDirectory)
      requires place.Valid() && place.hist == [Local.NOTHING]
      ensures this.cfg == cfg && this.place == place && Valid() && View() == Local.Created(session)
    {
      this.cfg, this.place := cfg, place;
      mem := Manifest(session, SESSION_FORMAT, SCHEMA_VERSION, 0, None, None, None, None);
      spoolBytes, failed, log := 0, false, [];
    }

    method Emit(e: Event, w: Local.EmitWorld) returns (ok: bool)
      requires Valid()
      modifies this, place
      ensures Valid() && (View(), ok) == Local.Emit(old(View()), e, cfg, w)
    {
      hide Local.WriteManifest;
      if failed {
        return false;
      }
      var line := cfg.codec.enc(e) + [LF];
      if spoolBytes + |line| > cfg.limit {
        return false;
      }
      if w.written.Some? {
        place.Become(place.dir.(spool := place.dir.spool + line[..Local.Min(w.written.value, |line|)]));
        failed := true;
        return false;
      }
      place.Become(place.dir.(spool := place.dir.spool + line));
      spoolBytes := spoolBytes + |line|;
      log := log + [e];
      mem := mem.(lastSeq := e.seqNo);
      if Local.EventOp(e).Some? {
        mem := mem.(lastOp := Local.EventOp(e));
      }
      var _ := place.WriteManifest(mem, w.manifestSteps);
      ok := true;
    }

    /** `flush_session`: what it does is a flush in a world the local publication model allows. */
    method FlushSession(request: FlushRequest, source: seq<Entry>, io: IO, fate: FlushFate, ghost o: Local.Objects)
      returns (ok: bool, ghost w: Local.FlushWorld)
      requires Valid() && Listing(source) && Truthful(source, [], o.truth)
      requires forall p :: p in o.needs(request.lastOp) ==> IsImmutable(p) && Local.IsFile(source, [], p)
      modifies this, place
      ensures Valid() && Local.Proper(old(View()), request, w, o)
      ensures (View(), ok) == Local.Flush(old(View()), request, w)
    {
      hide Local.WriteManifest, Local.CopySpool, IsImmutable, Local.IsFile, SyncedDir, CarefulPath, Truthful, Listing;
      ghost var stores: seq<Store> := [];
      w := Local.FlushWorld(fate.spoolOk, source, [], false, fate.copySteps, fate.copyShort, fate.cursorOk,
                            fate.manifestSteps);
      Single(place.dir.store, o.truth);
      assert [place.dir.store] + [] == [place.dir.store];
      ok := false;
      if failed || !fate.spoolOk || request.lastSeq != mem.lastSeq {
        return;
      }
      var durable := mem.(lastOp := Some(request.lastOp));
      ok, stores := place.MirrorRepository(source, io, o.truth);
      ok := ok && fate.dirsOk;
      w := w.(stores := stores, mirrored := ok);
      if !ok {
        return;
      }
      ok := place.CopySpool(request.lastSeq, fate.copyShort, fate.copySteps);
      if !ok || !fate.cursorOk {
        ok := false;
        return;
      }
      durable := durable.(durableSeq := Some(request.lastSeq), durableOp := Some(request.lastOp),
                          eventsObject := Some(request.lastSeq));
      ok := place.WriteManifest(durable, fate.manifestSteps);
      if ok {
        mem := durable;
      }
    }
  }
}
