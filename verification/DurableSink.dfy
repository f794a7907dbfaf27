/** The durable sink as an object (`DurableSessionSink`): a journal, a checkpoint sink and an event sink,
  * flushed in that order.
  */
module DurableSinks {
  import opened Schema
  import opened Coordination
  import opened JournalRuns
  import opened JournalSinks
  import opened HttpClient
  import Git
  import Remote

  class DurableSessionSink {
    const journal: NdjsonSink
    const checkpoint: Git.GitCheckpointSink
    const events: HttpEventSink

    constructor (journal: NdjsonSink, checkpoint: Git.GitCheckpointSink, events: HttpEventSink)
      ensures this.journal == journal && this.checkpoint == checkpoint && this.events == events
    {
      this.journal, this.checkpoint, this.events := journal, checkpoint, events;
    }

    ghost function State(): Remote.RemoteState
      reads checkpoint, checkpoint.remote, events, events.endpoint
    {
      Remote.RemoteState(checkpoint.State(), events.State())
    }

    method LatestSnapshotCommit(log: seq<Event>) returns (commit: Option<Commit>)
      ensures commit == Remote.LatestSnapshotCommit(log)
    {
      var i := |log|;
      assert log[..i] == log;
      while i > 0
        invariant 0 <= i <= |log|
        invariant Remote.LatestSnapshotCommit(log) == Remote.LatestSnapshotCommit(log[..i])
      {
        i := i - 1;
        if log[i].body.SnapshotTaken? {
          return Some(log[i].body.snapshot.commit);
        }
        assert log[..i + 1][..i] == log[..i];
      }
      commit := None;
    }

    /** `emit` is the journal's. */
    method Emit(e: Event, fate: WriteFate) returns (r: EmitResult)
      modifies journal
      ensures r == Appended ==> journal.accepted == old(journal.accepted) + [e]
      ensures r != Appended ==> journal.accepted == old(journal.accepted)
      ensures State() == old(State())
    {
      r := journal.Emit(e, fate);
    }

    method FlushSession(request: FlushRequest, w: Remote.FlushWorld) returns (ok: bool)
      requires events.cfg.limits.maxEvents > 0
      modifies checkpoint, checkpoint.remote, events, events.endpoint
      ensures (State(), ok) == Remote.Flush(old(State()), journal.accepted, request, w, events.cfg)
    {
      if !w.journalOk {
        return false;
      }
      var through := journal.EventsThrough(request.lastSeq);
      if through.None? {
        return false;
      }
      var commit := request.checkpoint;
      if commit.None? {
        commit := LatestSnapshotCommit(through.value);
      }
      if commit.None? {
        return false;
      }
      var outcome := checkpoint.PublishCheckpoint(commit.value, w.publish);
      if outcome != Git.Published {
        return false;
      }
      var result := events.PublishEvents(through.value, Some(request.lastSeq), w.net);
      if !result.Delivered? || result.ack.acceptedThrough < request.lastSeq {
        return false;
      }
      ok := result.ack.durableThrough.None? || result.ack.durableThrough.value >= request.lastSeq;
    }
  }
}
