/** Delivering events in batches over HTTP (`HttpEventSink`) to an honest receiver that keeps a contiguous
  * prefix.  Requests may be lost before or after they take effect, answers may be unreadable, late or
  * malformed, and retries may run out.
  */
module Http {
  import opened Schema
  import opened Batching

  // ---------------------------------------------------------------- the receiver

  /** The events the receiver holds and its durable watermark. */
  datatype Receiver = Receiver(log: seq<Event>, durable: Option<nat>)

  datatype Ack = Ack(acceptedThrough: nat, durableThrough: Option<nat>)

  function MinNat(a: nat, b: nat): nat { if a <= b then a else b }

  function MaxOption(a: Option<nat>, b: nat): Option<nat> {
    if a.Some? && a.value >= b then a else Some(b)
  }

  /** A batch that continues or overlaps the held prefix extends it; a batch beyond it is ignored. */
  function Receive(r: Receiver, batch: seq<Event>, durable: Option<nat>): Receiver
    requires batch != []
  {
    var first := batch[0].seqNo;
    if first > |r.log| then r
    else
      var log := if first + |batch| > |r.log| then r.log + batch[|r.log| - first..] else r.log;
      Receiver(log, if durable.Some? && durable.value < |log| then MaxOption(r.durable, durable.value) else r.durable)
  }

  datatype StatusClass = Success | Conflict | Retryable | Permanent

  /** What the body of an answer claims to hold. */
  datatype Claim = Malformed | Claim(accepted: nat, durable: Option<nat>)

  /** The fate of one request: whether it took effect, and what came back. */
  datatype Reply =
    | NoAnswer(applied: bool)
    | Unreadable(applied: bool)
    | Answered(applied: bool, status: StatusClass, claim: Claim)

  /** An honest receiver never claims more than it holds. */
  function HonestAck(r: Receiver, claim: Claim): Option<Ack> {
    if claim.Malformed? || r.log == [] then None
    else
      Some(Ack(MinNat(claim.accepted, |r.log| - 1),
               if claim.durable.None? || r.durable.None? then None
               else Some(MinNat(claim.durable.value, r.durable.value))))
  }

  // ---------------------------------------------------------------- the client

  datatype Config = Config(limits: Limits, maxRetries: nat, size: Event -> nat)

  datatype NetWorld = NetWorld(reply: nat -> Reply, cursorWritable: nat -> bool)

  /** `delivered` is the client's memory, `cursor` its file.  `posted` lists the batches posted so far, each
    * once however often it was retried; no code reads it. */
  datatype HttpState = HttpState(receiver: Receiver, delivered: Option<nat>, cursor: Option<nat>, clock: nat,
                                 posted: seq<seq<Event>>)

  datatype HttpResult =
    | Delivered(ack: Ack)
    | NothingToSend
    | NotContiguous
    | Gap
    | TooLarge
    | PostFailed
    | CursorFailed

  /** `validate_ack`. */
  predicate ValidAck(ack: Ack, last: nat, durable: Option<nat>) {
    && ack.acceptedThrough >= last
    && (durable.Some? ==> ack.durableThrough.Some? && ack.durableThrough.value >= durable.value)
  }

  datatype Posted = Posted(receiver: Receiver, clock: nat, ack: Option<Ack>)

  /** The retry loop of `post_batch`, after `attempt` attempts. */
  function PostBatch(r: Receiver, batch: seq<Event>, durable: Option<nat>, attempt: nat, maxRetries: nat,
                     net: NetWorld, clock: nat): Posted
    requires batch != []
    decreases if attempt <= maxRetries then maxRetries - attempt + 1 else 0
  {
    var reply := net.reply(clock);
    var q := if reply.applied then Receive(r, batch, durable) else r;
    var again := reply.NoAnswer? || (reply.Answered? && reply.status == Retryable);
    if again then
      if attempt + 1 > maxRetries then Posted(q, clock + 1, None)
      else PostBatch(q, batch, durable, attempt + 1, maxRetries, net, clock + 1)
    else if reply.Unreadable? || reply.status == Permanent then Posted(q, clock + 1, None)
    else
      var ack := HonestAck(q, reply.claim);
      if ack.Some? && ValidAck(ack.value, batch[|batch| - 1].seqNo, durable) then Posted(q, clock + 1, ack)
      else Posted(q, clock + 1, None)
  }

  function Lens(events: seq<Event>, size: Event -> nat): (r: seq<nat>)
    ensures |r| == |events|
  {
    seq(|events|, i requires 0 <= i < |events| => size(events[i]))
  }

  /** The batch loop of `publish_events` from `offset`; `last` is the newest acknowledgement. */
  ghost function SendFrom(st: HttpState, events: seq<Event>, durable: Option<nat>, offset: nat, last: Ack,
                          cfg: Config, net: NetWorld): (HttpState, HttpResult)
    requires offset <= |events|
    decreases |events| - offset
  {
    if offset == |events| then (st, Delivered(last))
    else
      var lens := Lens(events[offset..], cfg.size);
      var n := Longest(lens, 0, cfg.limits);
      if n == 0 then (st, TooLarge)
      else
        LongestFits(lens, 0, cfg.limits);
        var end := offset + n;
        var p := PostBatch(st.receiver, events[offset..end], if end == |events| then durable else None, 0,
                           cfg.maxRetries, net, st.clock);
        var posted := st.posted + [events[offset..end]];
        if p.ack.None? then (st.(receiver := p.receiver, clock := p.clock, posted := posted), PostFailed)
        else
          var d := Some(p.ack.value.acceptedThrough);
          var t := st.(receiver := p.receiver, clock := p.clock + 1, delivered := d, posted := posted);
          if !net.cursorWritable(p.clock) then (t, CursorFailed)
          else SendFrom(t.(cursor := d), events, durable, end, p.ack.value, cfg, net)
  }

  ghost predicate ContiguousEvents(events: seq<Event>) {
    forall i :: 0 <= i < |events| - 1 ==> events[i + 1].seqNo == events[i].seqNo + 1
  }

  /** The first event after the delivered ones. */
  function Start(events: seq<Event>, delivered: Option<nat>, i: nat): (r: nat)
    requires i <= |events|
    ensures i <= r <= |events|
    decreases |events| - i
  {
    if delivered.Some? && i < |events| && events[i].seqNo <= delivered.value then Start(events, delivered, i + 1) else i
  }

  /** The acknowledgement the loop starts from. */
  function FirstAck(delivered: Option<nat>): Ack {
    Ack(if delivered.Some? && delivered.value > 0 then delivered.value - 1 else 0, None)
  }

  /** `publish_events`. */
  ghost function PublishEvents(st: HttpState, events: seq<Event>, durable: Option<nat>, cfg: Config, net: NetWorld)
    : (HttpState, HttpResult)
  {
    if events == [] then (st, NothingToSend)
    else if !ContiguousEvents(events) then (st, NotContiguous)
    else
      var start := Start(events, st.delivered, 0);
      if st.delivered.Some? && start == |events| then (st, Delivered(Ack(st.delivered.value, durable)))
      else if st.delivered.Some? && events[start].seqNo != st.delivered.value + 1 then (st, Gap)
      else if st.delivered.None? && events[0].seqNo != 0 then (st, Gap)
      else SendFrom(st, events, durable, start, FirstAck(st.delivered), cfg, net)
  }

  lemma LensFrom(events: seq<Event>, size: Event -> nat, i: nat, n: nat)
    requires i + n <= |events|
    ensures Lens(events[i..], size)[n..] == Lens(events[i + n..], size)
  {
  }

  function Sizes(batches: seq<seq<Event>>): (r: seq<nat>)
    ensures |r| == |batches|
  {
    seq(|batches|, i requires 0 <= i < |batches| => |batches[i]|)
  }

  function Flat(batches: seq<seq<Event>>): seq<Event> {
    if batches == [] then [] else batches[0] + Flat(batches[1..])
  }

  /** How the batches `sent` for the events `rest` ended up: they are consecutive pieces of `rest`, with the
    * greedy sizes as far as they go; they are all of them on success; and the size error comes exactly when
    * the greedy cut gets stuck. */
  ghost predicate GreedilySent(sent: seq<seq<Event>>, rest: seq<Event>, result: HttpResult, cfg: Config) {
    var lens := Lens(rest, cfg.size);
    && Flat(sent) <= rest
    && Sizes(sent) <= GreedySizes(lens, cfg.limits)
    && (result.Delivered? ==> Flat(sent) == rest && Greedy(lens, cfg.limits) == Some(Sizes(sent)))
    && (result.TooLarge? ==> Sizes(sent) == GreedySizes(lens, cfg.limits) && Greedy(lens, cfg.limits).None?)
  }

  lemma NothingSent(rest: seq<Event>, result: HttpResult, cfg: Config)
    requires result.Delivered? ==> rest == []
    requires result.TooLarge? ==> rest != [] && Longest(Lens(rest, cfg.size), 0, cfg.limits) == 0
    ensures GreedilySent([], rest, result, cfg)
  {
    hide Longest;
    assert Sizes([]) == [];
  }

  /** One more batch in front. */
  lemma SentFirst(n: nat, later: seq<seq<Event>>, rest: seq<Event>, result: HttpResult, cfg: Config)
    requires n == Longest(Lens(rest, cfg.size), 0, cfg.limits) && 0 < n <= |rest|
    requires GreedilySent(later, rest[n..], result, cfg)
    ensures GreedilySent([rest[..n]] + later, rest, result, cfg)
  {
    hide Longest, Fits;
    var lens := Lens(rest, cfg.size);
    LensFrom(rest, cfg.size, 0, n);
    assert rest[0..] == rest && rest[0 + n..] == rest[n..];
    GreedySizesUnfold(lens, cfg.limits);
    var sent := [rest[..n]] + later;
    assert sent[1..] == later;
    assert Sizes(sent) == [n] + Sizes(later);
    assert rest == rest[..n] + rest[n..];
  }

  /** The batches posted are the greedy ones: `t` has posted what `st` has, and then the greedy batches of the
    * unsent events as far as it got. */
  lemma {:induction false} SendFollowsGreedy(st: HttpState, events: seq<Event>, durable: Option<nat>, offset: nat,
                                             last: Ack, cfg: Config, net: NetWorld) returns (sent: seq<seq<Event>>)
    requires offset <= |events|
    ensures var (t, result) := SendFrom(st, events, durable, offset, last, cfg, net);
            t.posted == st.posted + sent && GreedilySent(sent, events[offset..], result, cfg)
    decreases |events| - offset
  {
    hide PostBatch, Longest, Fits, GreedilySent;
    var (t, result) := SendFrom(st, events, durable, offset, last, cfg, net);
    var rest := events[offset..];
    var n := if offset < |events| then Longest(Lens(rest, cfg.size), 0, cfg.limits) else 0;
    sent := [];
    if n == 0 {
      NothingSent(rest, result, cfg);
    } else {
      LongestFits(Lens(rest, cfg.size), 0, cfg.limits);
      var end := offset + n;
      var batch := events[offset..end];
      var p := PostBatch(st.receiver, batch, if end == |events| then durable else None, 0, cfg.maxRetries, net, st.clock);
      var later: seq<seq<Event>> := [];
      if p.ack.Some? && net.cursorWritable(p.clock) {
        var d := Some(p.ack.value.acceptedThrough);
        later := SendFollowsGreedy(HttpState(p.receiver, d, d, p.clock + 1, st.posted + [batch]), events, durable, end,
                                   p.ack.value, cfg, net);
      } else {
        NothingSent(events[end..], result, cfg);
      }
      assert rest[n..] == events[end..] && rest[..n] == batch;
      SentFirst(n, later, rest, result, cfg);
      sent := [batch] + later;
    }
  }

  /** What one publication posts: nothing, or greedy batches of the events that were not yet delivered; and on
    * success no way to cut those within the limits uses fewer batches. */
  lemma PublishPostsGreedily(st: HttpState, events: seq<Event>, durable: Option<nat>, cfg: Config, net: NetWorld)
    returns (sent: seq<seq<Event>>)
    ensures var (t, result) := PublishEvents(st, events, durable, cfg, net);
            var rest := events[Start(events, st.delivered, 0)..];
            && t.posted == st.posted + sent
            && (sent == [] || GreedilySent(sent, rest, result, cfg))
            && (result.Delivered? ==>
                  && Flat(sent) == rest
                  && forall parts :: Partition(Lens(rest, cfg.size), parts, cfg.limits) ==> |sent| <= |parts|)
  {
    hide SendFrom, Longest;
    sent := [];
    var start := Start(events, st.delivered, 0);
    var (t, result) := PublishEvents(st, events, durable, cfg, net);
    var gap := if st.delivered.None? then events != [] && events[0].seqNo != 0
               else start < |events| && events[start].seqNo != st.delivered.value + 1;
    if events != [] && ContiguousEvents(events) && start < |events| && !gap {
      sent := SendFollowsGreedy(st, events, durable, start, FirstAck(st.delivered), cfg, net);
      if result.Delivered? {
        FewestBatches(sent, events[start..], result, cfg);
      }
    } else {
      assert st.posted + sent == st.posted;
      assert start == |events| ==> events[start..] == [];
    }
  }

  lemma FewestBatches(sent: seq<seq<Event>>, rest: seq<Event>, result: HttpResult, cfg: Config)
    requires GreedilySent(sent, rest, result, cfg) && result.Delivered?
    ensures Flat(sent) == rest
    ensures forall parts :: Partition(Lens(rest, cfg.size), parts, cfg.limits) ==> |sent| <= |parts|
  {
    hide Greedy, GreedySizes;
    forall parts | Partition(Lens(rest, cfg.size), parts, cfg.limits) ensures |sent| <= |parts| {
      GreedyOptimal(Lens(rest, cfg.size), parts, cfg.limits);
    }
  }

  // ---------------------------------------------------------------- the invariant

  ghost predicate PrefixOf(a: seq<Event>, b: seq<Event>) {
    |a| <= |b| && a == b[..|a|]
  }

  /** The receiver holds a prefix of the journal, not beyond the newest flush target; once it holds that
    * target, its watermark covers it. */
  ghost predicate ReceiverOk(r: Receiver, journal: seq<Event>, target: Option<nat>) {
    && PrefixOf(r.log, journal)
    && |r.log| <= (if target.Some? then target.value + 1 else 0)
    && (target.Some? && |r.log| == target.value + 1 ==> r.durable.Some? && r.durable.value >= target.value)
    && (r.durable.Some? ==> r.durable.value < |r.log|)
  }

  /** The client never believes more was delivered than the receiver holds. */
  ghost predicate HttpInv(st: HttpState, journal: seq<Event>, target: Option<nat>) {
    && ReceiverOk(st.receiver, journal, target)
    && (st.delivered.Some? ==> st.delivered.value < |st.receiver.log|)
    && (st.cursor.Some? ==> st.cursor.value < |st.receiver.log|)
  }

  lemma ReceiveOk(r: Receiver, journal: seq<Event>, target: nat, a: nat, b: nat)
    requires ReceiverOk(r, journal, Some(target)) && Contiguous(journal)
    requires a < b <= target + 1 <= |journal|
    ensures var q := Receive(r, journal[a..b], if b == target + 1 then Some(target) else None);
            && ReceiverOk(q, journal, Some(target)) && |r.log| <= |q.log|
  {
    var batch := journal[a..b];
    assert batch[0].seqNo == a;
    if a <= |r.log| < b {
      assert r.log + batch[|r.log| - a..] == journal[..b];
    }
  }

  lemma {:induction false} PostBatchOk(r: Receiver, journal: seq<Event>, target: nat, a: nat, b: nat, attempt: nat,
                                       maxRetries: nat, net: NetWorld, clock: nat)
    requires ReceiverOk(r, journal, Some(target)) && Contiguous(journal)
    requires a < b <= target + 1 <= |journal|
    ensures var durable := if b == target + 1 then Some(target) else None;
            var p := PostBatch(r, journal[a..b], durable, attempt, maxRetries, net, clock);
            && ReceiverOk(p.receiver, journal, Some(target)) && |r.log| <= |p.receiver.log|
            && (p.ack.Some? ==> b - 1 <= p.ack.value.acceptedThrough < |p.receiver.log|)
            && (p.ack.Some? && b == target + 1 ==> |p.receiver.log| == target + 1)
    decreases if attempt <= maxRetries then maxRetries - attempt + 1 else 0
  {
    hide ReceiverOk, Receive;
    var durable := if b == target + 1 then Some(target) else None;
    var batch := journal[a..b];
    assert batch[|batch| - 1].seqNo == b - 1;
    ReceiveOk(r, journal, target, a, b);
    var reply := net.reply(clock);
    var q := if reply.applied then Receive(r, batch, durable) else r;
    AtMostTarget(q, journal, target);
    if reply.NoAnswer? || (reply.Answered? && reply.status == Retryable) {
      if attempt + 1 <= maxRetries {
        PostBatchOk(q, journal, target, a, b, attempt + 1, maxRetries, net, clock + 1);
      }
    }
  }

  lemma AtMostTarget(r: Receiver, journal: seq<Event>, target: nat)
    requires ReceiverOk(r, journal, Some(target))
    ensures |r.log| <= target + 1
  {
  }

  lemma {:induction false} SendFromOk(st: HttpState, journal: seq<Event>, target: nat, offset: nat, last: Ack,
                                      cfg: Config, net: NetWorld)
    requires HttpInv(st, journal, Some(target)) && Contiguous(journal)
    requires offset <= target + 1 <= |journal|
    requires offset == target + 1 ==> |st.receiver.log| == target + 1 && last.acceptedThrough >= target
    ensures var (t, result) := SendFrom(st, journal[..target + 1], Some(target), offset, last, cfg, net);
            && HttpInv(t, journal, Some(target)) && |st.receiver.log| <= |t.receiver.log|
            && result != Gap
            && (result.Delivered? ==> |t.receiver.log| == target + 1 && result.ack.acceptedThrough >= target)
    decreases target + 1 - offset
  {
    hide ReceiverOk, PostBatch, Contiguous, Longest, Lens;
    var events := journal[..target + 1];
    if offset < |events| {
      var lens := Lens(events[offset..], cfg.size);
      var n := Longest(lens, 0, cfg.limits);
      LongestFits(lens, 0, cfg.limits);
      if n > 0 {
        var end := offset + n;
        assert events[offset..end] == journal[offset..end];
        PostBatchOk(st.receiver, journal, target, offset, end, 0, cfg.maxRetries, net, st.clock);
        var p := PostBatch(st.receiver, events[offset..end], if end == |events| then Some(target) else None, 0,
                           cfg.maxRetries, net, st.clock);
        if p.ack.Some? && net.cursorWritable(p.clock) {
          var d := Some(p.ack.value.acceptedThrough);
          SendFromOk(HttpState(p.receiver, d, d, p.clock + 1, st.posted + [events[offset..end]]), journal, target, end, p.ack.value, cfg, net);
        }
      }
    }
  }

  lemma {:induction false} StartIs(events: seq<Event>, delivered: nat, i: nat)
    requires Contiguous(events) && i <= |events| && i <= delivered + 1
    ensures Start(events, Some(delivered), i) == MinNat(delivered + 1, |events|)
    decreases |events| - i
  {
    if i < |events| && events[i].seqNo <= delivered {
      StartIs(events, delivered, i + 1);
    }
  }

  lemma TargetAdvances(st: HttpState, journal: seq<Event>, longer: seq<Event>, target: Option<nat>, next: nat)
    requires HttpInv(st, journal, target) && PrefixOf(journal, longer)
    requires target.Some? ==> target.value <= next
    ensures HttpInv(st, longer, Some(next))
  {
    assert st.receiver.log == longer[..|st.receiver.log|];
  }

  /** Publishing the journal through a target that is no smaller than any before, whatever the network and
    * the cursor file do: the receiver still holds a prefix of the journal and the client still believes no
    * more than that; the sequence-gap error cannot occur; and success, including success without posting
    * anything, means the receiver holds every event and a durable watermark through the target. */
  lemma PublishDelivers(st: HttpState, journal: seq<Event>, before: Option<nat>, target: nat, cfg: Config, net: NetWorld)
    requires HttpInv(st, journal, before) && Contiguous(journal)
    requires (before.Some? ==> before.value <= target) && target < |journal|
    ensures var (t, result) := PublishEvents(st, journal[..target + 1], Some(target), cfg, net);
            && HttpInv(t, journal, Some(target)) && |st.receiver.log| <= |t.receiver.log|
            && result != Gap
            && (result.Delivered? ==>
                  && t.receiver.log == journal[..target + 1]
                  && t.receiver.durable == Some(target)
                  && result.ack.acceptedThrough >= target)
  {
    hide SendFrom;
    var events := journal[..target + 1];
    TargetAdvances(st, journal, journal, before, target);
    if st.delivered.Some? {
      StartIs(events, st.delivered.value, 0);
    }
    var start := Start(events, st.delivered, 0);
    if start < |events| {
      SendFromOk(st, journal, target, start, FirstAck(st.delivered), cfg, net);
    }
  }

  /** A restarted client knows only its cursor file. */
  lemma RestartKeepsInv(st: HttpState, journal: seq<Event>, target: Option<nat>)
    requires HttpInv(st, journal, target)
    ensures HttpInv(st.(delivered := st.cursor), journal, target)
  {
  }
}
