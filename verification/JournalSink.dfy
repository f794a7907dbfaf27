/** The journal sink as an object (`NdjsonSink`): its file, its byte counter and its accepted events. */
module JournalSinks {
  import opened Schema
  import opened Journal
  import opened JournalRuns

  class NdjsonSink {
    const codec: Codec
    const limit: nat
    const session: Option<string>
    const version: Option<nat>
    var file: Bytes
    var bytes: nat
    var accepted: seq<Event>

    ghost function Settings(): JournalRuns.Config {
      JournalRuns.Config(codec, limit, session, version)
    }

    ghost function View(): State
      reads this
    {
      State(file, bytes, accepted)
    }

    /** The journal is intact. */
    ghost predicate Valid()
      reads this
    {
      Intact(View(), Settings())
    }

    constructor (codec: Codec, limit: nat, session: Option<string>, version: Option<nat>, file: Bytes, accepted: seq<Event>)
      ensures this.codec == codec && this.limit == limit && this.session == session && this.version == version
      ensures this.file == file && bytes == |file| && this.accepted == accepted
    {
      this.codec, this.limit, this.session, this.version := codec, limit, session, version;
      this.file, this.bytes, this.accepted := file, |file|, accepted;
    }

    /** Opens a journal on whatever its file holds. */
    static method Open(codec: Codec, limit: nat, session: Option<string>, version: Option<nat>, file: Bytes)
      returns (sink: NdjsonSink?)
      ensures sink == null
              <==> |file| > limit
                   || (session.Some? && version.Some?
                       && ParseSpool(codec, file, session.value, version.value).None?)
      ensures sink != null ==>
                && fresh(sink) && sink.codec == codec && sink.limit == limit
                && sink.session == session && sink.version == version
                && sink.file == file && sink.bytes == |file|
                && (session.Some? && version.Some?
                    ==> Some(sink.accepted) == ParseSpool(codec, file, session.value, version.value))
                && (session.None? || version.None? ==> sink.accepted == [])
    {
      var accepted: seq<Event> := [];
      if session.Some? && version.Some? {
        var parsed := ParseSpool(codec, file, session.value, version.value);
        if parsed.None? {
          return null;
        }
        accepted := parsed.value;
      }
      if |file| > limit {
        return null;
      }
      sink := new NdjsonSink(codec, limit, session, version, file, accepted);
    }

    /** `next_seq`. */
    function NextSeq(): (r: nat)
      reads this
      ensures Valid() && accepted != [] ==> r == accepted[|accepted| - 1].seqNo + 1
    {
      |accepted|
    }

    method Emit(e: Event, fate: WriteFate) returns (r: EmitResult)
      modifies this
      ensures (View(), r) == Emitted(old(View()), Settings(), Attempt(e, fate))
      ensures r == Appended
              <==> && (session.Some? ==> e.session == session.value)
                   && (version.Some? ==> e.v == version.value)
                   && e.seqNo == old(NextSeq())
                   && old(bytes) + |codec.enc(e)| + 1 <= limit
                   && fate.Whole?
      ensures r == Appended ==>
                && accepted == old(accepted) + [e]
                && file == old(file) + codec.enc(e) + [LF] && bytes == old(bytes) + |codec.enc(e)| + 1
      ensures r != Appended ==> accepted == old(accepted) && bytes == old(bytes)
      ensures r == WriteFailed ==>
                fate.Short? && old(file) <= file <= old(file) + codec.enc(e) + [LF]
                && |file| == old(|file|) + (if fate.kept <= |codec.enc(e)| then fate.kept else |codec.enc(e)| + 1)
      ensures r != Appended && r != WriteFailed ==> file == old(file)
      ensures old(Valid()) && (r == WriteFailed ==> fate.kept == 0) ==> Valid()
    {
      hide Emitted, Written, Belongs;
      ghost var before := View();
      r := Append(e, fate);
      EmittedMeans(before, Settings(), Attempt(e, fate));
    }

    /** The checks in the source's order, then the write. */
    method Append(e: Event, fate: WriteFate) returns (r: EmitResult)
      modifies this
      ensures (View(), r) == Emitted(old(View()), Settings(), Attempt(e, fate))
    {
      if session.Some? && e.session != session.value {
        return WrongSession;
      }
      if version.Some? && e.v != version.value {
        return WrongVersion;
      }
      if e.seqNo != NextSeq() {
        return WrongSequence;
      }
      var line := codec.enc(e) + [LF];
      if bytes + |line| > limit {
        return SpoolFull;
      }
      if fate.Short? {
        file := file + line[..if fate.kept <= |line| then fate.kept else |line|];
        return WriteFailed;
      }
      file := file + line;
      bytes := bytes + |line|;
      accepted := accepted + [e];
      r := Appended;
    }

    /** All accepted events, if the last of them is the requested one. */
    method EventsThrough(lastSeq: nat) returns (r: Option<seq<Event>>)
      ensures Valid() ==> r == if |accepted| == lastSeq + 1 then Some(accepted) else None
      ensures r.Some? ==> r.value == accepted != [] && accepted[|accepted| - 1].seqNo == lastSeq
      ensures r.None? ==> accepted == [] || accepted[|accepted| - 1].seqNo != lastSeq
    {
      if accepted == [] || accepted[|accepted| - 1].seqNo != lastSeq {
        return None;
      }
      r := Some(accepted);
    }

    /** Reopening an intact journal gives back the accepted events. */
    method Reopen() returns (sink: NdjsonSink?)
      requires Valid() && Sound(codec) && session.Some? && version == Some(SCHEMA_VERSION)
      ensures sink != null && fresh(sink) && sink.Valid() && sink.accepted == accepted && sink.file == file
    {
      JournalRoundTrip(codec, accepted, session.value);
      sink := Open(codec, limit, session, version, file);
    }
  }
}
