/** The HTTP event sink as an object: its retry and batch loops, proved against module `Http`. */
module HttpClient {
  import opened Schema
  import opened Batching
  import Http

  /** The remote end: what the receiver holds. */
  class Endpoint {
    var held: Http.Receiver

    constructor ()
      ensures held == Http.Receiver([], None)
    {
      held := Http.Receiver([], None);
    }
  }

  class HttpEventSink {
    const endpoint: Endpoint
    const cfg: Http.Config
    var delivered: Option<nat>
    var cursor: Option<nat>
    var clock: nat
    /** The batches posted so far. */
    ghost var posted: seq<seq<Event>>

    /** A new sink reads its memory from the cursor file. */
    constructor (endpoint: Endpoint, cfg: Http.Config, cursor: Option<nat>)
      requires cfg.limits.maxEvents > 0
      ensures this.endpoint == endpoint && this.cfg == cfg
      ensures State() == Http.HttpState(endpoint.held, cursor, cursor, 0, [])
    {
      this.endpoint, this.cfg, this.cursor, this.delivered := endpoint, cfg, cursor, cursor;
      this.clock, this.posted := 0, [];
    }

    ghost function State(): Http.HttpState
      reads this, endpoint
    {
      Http.HttpState(endpoint.held, delivered, cursor, clock, posted)
    }

    /** Posts one batch, retrying while the request fails or the answer says to retry. */
    method PostBatch(batch: seq<Event>, durable: Option<nat>, net: Http.NetWorld) returns (ack: Option<Http.Ack>)
      requires batch != []
      modifies this`clock, endpoint
      ensures Http.Posted(endpoint.held, clock, ack)
           == Http.PostBatch(old(endpoint.held), batch, durable, 0, cfg.maxRetries, net, old(clock))
    {
      var attempt := 0;
      while true
        invariant attempt <= cfg.maxRetries
        invariant Http.PostBatch(endpoint.held, batch, durable, attempt, cfg.maxRetries, net, clock)
               == Http.PostBatch(old(endpoint.held), batch, durable, 0, cfg.maxRetries, net, old(clock))
        decreases cfg.maxRetries - attempt
      {
        attempt := attempt + 1;
        var reply := net.reply(clock);
        clock := clock + 1;
        if reply.applied {
          endpoint.held := Http.Receive(endpoint.held, batch, durable);
        }
        match reply {
          case NoAnswer(_) =>
            if attempt > cfg.maxRetries {
              return None;
            }
          case Unreadable(_) => return None;
          case Answered(_, status, claim) =>
            match status {
              case Success | Conflict =>
                ack := Http.HonestAck(endpoint.held, claim);
                if ack.Some? && !Http.ValidAck(ack.value, batch[|batch| - 1].seqNo, durable) {
                  ack := None;
                }
                return;
              case Retryable =>
                if attempt > cfg.maxRetries {
                  return None;
                }
              case Permanent => return None;
            }
        }
      }
    }

    /** Whether each event's number follows the one before. */
    method ValidateContiguous(events: seq<Event>) returns (ok: bool)
      ensures ok <==> Http.ContiguousEvents(events)
    {
      var i := 0;
      while i + 1 < |events|
        invariant 0 <= i <= (if events == [] then 0 else |events| - 1)
        invariant forall j :: 0 <= j < i ==> events[j + 1].seqNo == events[j].seqNo + 1
      {
        if events[i + 1].seqNo != events[i].seqNo + 1 {
          return false;
        }
        i := i + 1;
      }
      return true;
    }

    method TakeBatch(remaining: seq<Event>) returns (count: nat)
      requires remaining != [] && cfg.limits.maxEvents > 0
      ensures count == Longest(Http.Lens(remaining, cfg.size), 0, cfg.limits)
      ensures count <= |remaining|
    {
      var lens := Http.Lens(remaining, cfg.size);
      var taken := Batching.TakeBatch(lens, cfg.limits);
      FirstFits(lens, cfg.limits);
      match taken {
        case None => count := 0;
        case Some(n) =>
          TakenIsLongest(lens, n, cfg.limits);
          count := n;
      }
    }

    method PublishEvents(events: seq<Event>, durable: Option<nat>, net: Http.NetWorld) returns (result: Http.HttpResult)
      requires cfg.limits.maxEvents > 0
      modifies this`delivered, this`cursor, this`clock, this`posted, endpoint
      ensures (State(), result) == Http.PublishEvents(old(State()), events, durable, cfg, net)
    {
      if events == [] {
        return Http.NothingToSend;
      }
      var contiguous := ValidateContiguous(events);
      if !contiguous {
        return Http.NotContiguous;
      }
      var start := 0;
      if delivered.Some? {
        while start < |events| && events[start].seqNo <= delivered.value
          invariant start <= |events|
          invariant Http.Start(events, delivered, start) == Http.Start(events, delivered, 0)
        {
          start := start + 1;
        }
        if start == |events| {
          return Http.Delivered(Http.Ack(delivered.value, durable));
        }
        if events[start].seqNo != delivered.value + 1 {
          return Http.Gap;
        }
      } else if events[0].seqNo != 0 {
        return Http.Gap;
      }
      result := SendBatches(events, durable, start, net);
    }

    method SendBatches(events: seq<Event>, durable: Option<nat>, start: nat, net: Http.NetWorld)
      returns (result: Http.HttpResult)
      requires cfg.limits.maxEvents > 0 && start <= |events|
      modifies this`delivered, this`cursor, this`clock, this`posted, endpoint
      ensures (State(), result)
           == Http.SendFrom(old(State()), events, durable, start, Http.FirstAck(old(delivered)), cfg, net)
    {
      hide Http.PostBatch, Longest;
      var offset := start;
      var last := Http.FirstAck(delivered);
      while offset < |events|
        invariant offset <= |events|
        invariant Http.SendFrom(State(), events, durable, offset, last, cfg, net)
               == Http.SendFrom(old(State()), events, durable, start, Http.FirstAck(old(delivered)), cfg, net)
      {
        var n := TakeBatch(events[offset..]);
        if n == 0 {
          return Http.TooLarge;
        }
        var end := offset + n;
        posted := posted + [events[offset..end]];
        var ack := PostBatch(events[offset..end], if end == |events| then durable else None, net);
        if ack.None? {
          return Http.PostFailed;
        }
        last := ack.value;
        delivered := Some(last.acceptedThrough);
        clock := clock + 1;
        if !net.cursorWritable(clock - 1) {
          return Http.CursorFailed;
        }
        cursor := delivered;
        offset := end;
      }
      result := Http.Delivered(last);
    }
  }
}
