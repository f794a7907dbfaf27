/** When HTTP delivery succeeds, told from the network's answers alone. */
module Delivery {
  import opened Schema
  import opened Batching
  import opened Http

  // ---------------------------------------------------------------- one batch

  /** The request failed, or its answer says to try again. */
  predicate Again(reply: Reply) {
    reply.NoAnswer? || (reply.Answered? && reply.status == Retryable)
  }

  /** How many attempts precede the one that counts, with `left` retries left. */
  function Retries(net: NetWorld, clock: nat, left: nat): nat
    decreases left
  {
    if left == 0 || !Again(net.reply(clock)) then 0 else 1 + Retries(net, clock + 1, left - 1)
  }

  /** One of the attempts at `clock` to `clock + l` took effect. */
  ghost predicate Applied(net: NetWorld, clock: nat, l: nat) {
    exists i :: clock <= i <= clock + l && net.reply(i).applied
  }

  /** An answer that claims enough: the whole batch, and the watermark if one was asked for. */
  predicate Accepts(reply: Reply, last: nat, durable: Option<nat>) {
    && reply.Answered? && (reply.status == Success || reply.status == Conflict)
    && reply.claim.Claim? && reply.claim.accepted >= last
    && (durable.Some? ==> reply.claim.durable.Some? && reply.claim.durable.value >= durable.value)
  }

  lemma {:induction false} AppliedNext(net: NetWorld, clock: nat, l: nat)
    ensures Applied(net, clock, l + 1) <==> net.reply(clock).applied || Applied(net, clock + 1, l)
    ensures Applied(net, clock, 0) <==> net.reply(clock).applied
  {
    if i :| clock <= i <= clock + l + 1 && net.reply(i).applied {
      assert i == clock || clock + 1 <= i <= clock + 1 + l;
    }
    if i :| clock + 1 <= i <= clock + 1 + l && net.reply(i).applied {
      assert clock <= i <= clock + (l + 1);
    }
  }

  /** What one request leaves with the receiver, if it starts within what is held. */
  lemma Received(r: Receiver, journal: seq<Event>, target: nat, a: nat, b: nat)
    requires ReceiverOk(r, journal, Some(target)) && Contiguous(journal)
    requires a < b <= target + 1 <= |journal| && a <= |r.log|
    ensures var q := Receive(r, journal[a..b], if b == target + 1 then Some(target) else None);
            |q.log| == if |r.log| < b then b else |r.log|
  {
    assert journal[a..b][0].seqNo == a;
  }

  /** An honest answer is a valid acknowledgement exactly when it claims enough and the receiver holds the
    * batch. */
  lemma HonestlyAccepted(q: Receiver, journal: seq<Event>, target: nat, b: nat, reply: Reply)
    requires ReceiverOk(q, journal, Some(target)) && 0 < b <= target + 1 <= |journal|
    requires reply.Answered? && (reply.status == Success || reply.status == Conflict)
    ensures var durable := if b == target + 1 then Some(target) else None;
            var ack := HonestAck(q, reply.claim);
            ack.Some? && ValidAck(ack.value, b - 1, durable) <==> Accepts(reply, b - 1, durable) && |q.log| >= b
  {
  }

  /** A batch is acknowledged if and only if the answer that counts (the first that does not say to try again,
    * within the retries) claims enough, and the receiver held the batch before or one of the attempts took
    * effect. */
  lemma {:induction false} PostExactly(r: Receiver, journal: seq<Event>, target: nat, a: nat, b: nat, attempt: nat,
                                       maxRetries: nat, net: NetWorld, clock: nat)
    requires ReceiverOk(r, journal, Some(target)) && Contiguous(journal)
    requires a < b <= target + 1 <= |journal| && a <= |r.log| && attempt <= maxRetries
    ensures var durable := if b == target + 1 then Some(target) else None;
            var p := PostBatch(r, journal[a..b], durable, attempt, maxRetries, net, clock);
            var l := Retries(net, clock, maxRetries - attempt);
            && p.clock == clock + l + 1
            && |p.receiver.log| == (if Applied(net, clock, l) && |r.log| < b then b else |r.log|)
            && (p.ack.Some? <==> Accepts(net.reply(clock + l), b - 1, durable) && (|r.log| >= b || Applied(net, clock, l)))
            && (p.ack.Some? ==> ValidAck(p.ack.value, b - 1, durable))
    decreases maxRetries - attempt
  {
    hide ReceiverOk, Receive, Contiguous, HonestAck, Applied;
    var durable := if b == target + 1 then Some(target) else None;
    var batch := journal[a..b];
    NumberedAt(journal, b - 1);
    var reply := net.reply(clock);
    ReceiveOk(r, journal, target, a, b);
    Received(r, journal, target, a, b);
    var q := if reply.applied then Receive(r, batch, durable) else r;
    var left := maxRetries - attempt;
    AppliedNext(net, clock, if left > 0 then Retries(net, clock + 1, left - 1) else 0);
    if Again(reply) {
      if left > 0 {
        PostExactly(q, journal, target, a, b, attempt + 1, maxRetries, net, clock + 1);
      }
    } else if reply.Answered? && (reply.status == Success || reply.status == Conflict) {
      HonestlyAccepted(q, journal, target, b, reply);
    } else {
      assert Retries(net, clock, left) == 0 && !Accepts(reply, b - 1, durable);
    }
  }

  lemma NumberedAt(journal: seq<Event>, i: nat)
    requires Contiguous(journal) && i < |journal|
    ensures journal[i].seqNo == i
  {
  }

  // ---------------------------------------------------------------- all batches

  function Larger(a: nat, b: nat): nat { if a < b then b else a }

  /** Each batch in turn, of the given sizes from event `from` on, is answered well enough, and the cursor can
    * be written after it; `held` events are held at first. */
  ghost predicate AllAccepted(net: NetWorld, clock: nat, held: nat, from: nat, sizes: seq<nat>, target: nat, maxRetries: nat)
    decreases |sizes|
  {
    sizes == []
    || var end := from + sizes[0];
       var l := Retries(net, clock, maxRetries);
       && end > 0
       && Accepts(net.reply(clock + l), end - 1, if end == target + 1 then Some(target) else None)
       && (held >= end || Applied(net, clock, l))
       && net.cursorWritable(clock + l + 1)
       && AllAccepted(net, clock + l + 2, Larger(held, end), end, sizes[1..], target, maxRetries)
  }

  /** One more batch in front. */
  lemma AcceptedFirst(net: NetWorld, clock: nat, held: nat, from: nat, n: nat, rest: seq<nat>, target: nat, maxRetries: nat)
    requires n > 0
    ensures var end := from + n;
            var l := Retries(net, clock, maxRetries);
            AllAccepted(net, clock, held, from, [n] + rest, target, maxRetries)
            <==> && Accepts(net.reply(clock + l), end - 1, if end == target + 1 then Some(target) else None)
                 && (held >= end || Applied(net, clock, l))
                 && net.cursorWritable(clock + l + 1)
                 && AllAccepted(net, clock + l + 2, Larger(held, end), end, rest, target, maxRetries)
  {
    hide Accepts, Applied, Retries;
    assert ([n] + rest)[1..] == rest;
  }

  lemma {:induction false} SendExactly(st: HttpState, journal: seq<Event>, target: nat, offset: nat, last: Ack,
                                       cfg: Config, net: NetWorld)
    requires HttpInv(st, journal, Some(target)) && Contiguous(journal)
    requires offset <= target + 1 <= |journal| && offset <= |st.receiver.log|
    ensures var result := SendFrom(st, journal[..target + 1], Some(target), offset, last, cfg, net).1;
            var greedy := Greedy(Lens(journal[offset..target + 1], cfg.size), cfg.limits);
            && (result.Delivered? <==>
                  && greedy.Some?
                  && AllAccepted(net, st.clock, |st.receiver.log|, offset, greedy.value, target, cfg.maxRetries))
            && (result.Delivered? && offset <= target ==> ValidAck(result.ack, target, Some(target)))
    decreases target + 1 - offset
  {
    hide ReceiverOk, PostBatch, Contiguous, Longest, Fits, Accepts, Applied, Retries, AllAccepted, Greedy, Lens;
    NothingAccepted(net, st.clock, |st.receiver.log|, offset, target, cfg.maxRetries);
    GreedyNothing(cfg.limits);
    var events := journal[..target + 1];
    assert events[offset..] == journal[offset..target + 1];
    var lens := Lens(events[offset..], cfg.size);
    if offset < |events| {
      var n := Longest(lens, 0, cfg.limits);
      LongestFits(lens, 0, cfg.limits);
      GreedySizesUnfold(lens, cfg.limits);
      GreedyUnfolds(lens, cfg.limits);
      if n > 0 {
        var end := offset + n;
        assert events[offset..end] == journal[offset..end];
        LensFrom(events, cfg.size, offset, n);
        assert events[end..] == journal[end..target + 1];
        var durable := if end == |events| then Some(target) else None;
        PostBatchOk(st.receiver, journal, target, offset, end, 0, cfg.maxRetries, net, st.clock);
        PostExactly(st.receiver, journal, target, offset, end, 0, cfg.maxRetries, net, st.clock);
        var p := PostBatch(st.receiver, events[offset..end], durable, 0, cfg.maxRetries, net, st.clock);
        var rest := Greedy(lens[n..], cfg.limits);
        if rest.Some? {
          AcceptedFirst(net, st.clock, |st.receiver.log|, offset, n, rest.value, target, cfg.maxRetries);
        }
        if p.ack.Some? && net.cursorWritable(p.clock) {
          var d := Some(p.ack.value.acceptedThrough);
          SendExactly(HttpState(p.receiver, d, d, p.clock + 1, st.posted + [events[offset..end]]), journal, target, end,
                      p.ack.value, cfg, net);
        }
      }
    }
  }

  lemma NothingAccepted(net: NetWorld, clock: nat, held: nat, from: nat, target: nat, maxRetries: nat)
    ensures AllAccepted(net, clock, held, from, [], target, maxRetries)
  {
  }

  lemma GreedyNothing(limits: Limits)
    ensures Greedy([], limits) == Some([])
  {
  }

  // ---------------------------------------------------------------- a publication

  /** The events after those the client knows to be delivered. */
  function Unsent(st: HttpState): nat {
    if st.delivered.Some? then st.delivered.value + 1 else 0
  }

  /** The network takes what is left of the journal through `target`: nothing is left, or no event is too large
    * and all greedy batches are accepted. */
  ghost predicate NetTakes(st: HttpState, journal: seq<Event>, target: nat, cfg: Config, net: NetWorld)
    requires target < |journal|
  {
    var from := Unsent(st);
    || from == target + 1
    || (from <= target
        && var lens := Lens(journal[from..target + 1], cfg.size);
           && Greedy(lens, cfg.limits).Some?
           && AllAccepted(net, st.clock, |st.receiver.log|, from, Greedy(lens, cfg.limits).value, target, cfg.maxRetries))
  }

  /** A publication of the journal through a target that is no smaller than any before succeeds, with an
    * acknowledgement through the target, if and only if the network takes it. */
  lemma PublishExactly(st: HttpState, journal: seq<Event>, before: Option<nat>, target: nat, cfg: Config, net: NetWorld)
    requires HttpInv(st, journal, before) && Contiguous(journal)
    requires (before.Some? ==> before.value <= target) && target < |journal|
    ensures var result := PublishEvents(st, journal[..target + 1], Some(target), cfg, net).1;
            && (result.Delivered? <==> NetTakes(st, journal, target, cfg, net))
            && (result.Delivered? ==>
                  && result.ack.acceptedThrough >= target
                  && (result.ack.durableThrough.Some? ==> result.ack.durableThrough.value >= target))
  {
    hide SendFrom, AllAccepted, Greedy;
    var events := journal[..target + 1];
    TargetAdvances(st, journal, journal, before, target);
    if st.delivered.Some? {
      StartIs(events, st.delivered.value, 0);
    }
    var start := Start(events, st.delivered, 0);
    if start < |events| {
      SendExactly(st, journal, target, start, FirstAck(st.delivered), cfg, net);
    }
  }

  // ---------------------------------------------------------------- a healthy network

  /** Every request takes effect and is answered with everything through `target`, and the cursor can always
    * be written. */
  ghost predicate HealthyNet(net: NetWorld, target: nat) {
    && (forall n :: net.reply(n).applied && Accepts(net.reply(n), target, Some(target)))
    && (forall n :: net.cursorWritable(n))
  }

  lemma {:induction false} HealthyAccepts(net: NetWorld, clock: nat, held: nat, from: nat, sizes: seq<nat>, target: nat,
                                          maxRetries: nat)
    requires HealthyNet(net, target) && from + Sum(sizes) <= target + 1
    requires forall i :: 0 <= i < |sizes| ==> sizes[i] > 0
    ensures AllAccepted(net, clock, held, from, sizes, target, maxRetries)
    decreases |sizes|
  {
    hide Accepts, HealthyNet, AllAccepted;
    if sizes == [] {
      NothingAccepted(net, clock, held, from, target, maxRetries);
    } else {
      var end := from + sizes[0];
      assert sizes == [sizes[0]] + sizes[1..];
      SumConcat([sizes[0]], sizes[1..]);
      SumOne(sizes[0]);
      HealthyAnswer(net, clock, end, target, maxRetries);
      HealthyAccepts(net, clock + 2, Larger(held, end), end, sizes[1..], target, maxRetries);
      AcceptedFirst(net, clock, held, from, sizes[0], sizes[1..], target, maxRetries);
    }
  }

  lemma HealthyAnswer(net: NetWorld, clock: nat, end: nat, target: nat, maxRetries: nat)
    requires HealthyNet(net, target) && 0 < end <= target + 1
    ensures Retries(net, clock, maxRetries) == 0 && Applied(net, clock, 0) && net.cursorWritable(clock + 1)
    ensures Accepts(net.reply(clock), end - 1, if end == target + 1 then Some(target) else None)
  {
    hide Applied;
    assert Accepts(net.reply(clock), target, Some(target));
    AppliedNext(net, clock, 0);
  }

  lemma SumOne(x: nat)
    ensures Sum([x]) == x
  {
    assert [x] == [] + [x];
    SumAppend([], x);
  }

  lemma {:induction false} GreedyTotal(lens: seq<nat>, limits: Limits)
    requires Greedy(lens, limits).Some?
    ensures Sum(Greedy(lens, limits).value) == |lens|
    ensures forall i :: 0 <= i < |Greedy(lens, limits).value| ==> Greedy(lens, limits).value[i] > 0
    decreases |lens|
  {
    hide Fits, Longest;
    if lens != [] {
      var n := Longest(lens, 0, limits);
      LongestFits(lens, 0, limits);
      GreedyUnfolds(lens, limits);
      GreedySizesUnfold(lens, limits);
      GreedyTotal(lens[n..], limits);
      SumConcat([n], Greedy(lens[n..], limits).value);
      SumOne(n);
    }
  }

  /** A healthy network takes every publication without an event that is too large. */
  lemma HealthyTakes(st: HttpState, journal: seq<Event>, target: nat, cfg: Config, net: NetWorld)
    requires target < |journal| && Unsent(st) <= target + 1 && cfg.limits.maxEvents > 0
    requires HealthyNet(net, target) && !SomeOversize(Lens(journal, cfg.size), cfg.limits)
    ensures NetTakes(st, journal, target, cfg, net)
  {
    hide Greedy, AllAccepted, HealthyNet, Oversize;
    var from := Unsent(st);
    if from <= target {
      var lens := Lens(journal[from..target + 1], cfg.size);
      forall i | 0 <= i < |lens| ensures !Oversize(lens[i], cfg.limits) {
        assert Lens(journal, cfg.size)[from + i] == lens[i];
      }
      GreedyFailsExactly(lens, cfg.limits);
      GreedyTotal(lens, cfg.limits);
      HealthyAccepts(net, st.clock, |st.receiver.log|, from, Greedy(lens, cfg.limits).value, target, cfg.maxRetries);
    }
  }

  /** A retryable answer (or none), however often within the retries, followed by a good one: the batch is
    * delivered. */
  lemma RetriedThenAccepted(r: Receiver, journal: seq<Event>, target: nat, a: nat, b: nat, maxRetries: nat, net: NetWorld,
                            clock: nat, tries: nat)
    requires ReceiverOk(r, journal, Some(target)) && Contiguous(journal)
    requires a < b <= target + 1 <= |journal| && a <= |r.log| && tries <= maxRetries
    requires forall i :: clock <= i < clock + tries ==> Again(net.reply(i))
    requires net.reply(clock + tries).applied
    requires Accepts(net.reply(clock + tries), b - 1, if b == target + 1 then Some(target) else None)
    ensures PostBatch(r, journal[a..b], if b == target + 1 then Some(target) else None, 0, maxRetries, net, clock).ack.Some?
  {
    hide PostBatch, ReceiverOk, Contiguous;
    RetriesAre(net, clock, maxRetries, tries);
    PostExactly(r, journal, target, a, b, 0, maxRetries, net, clock);
  }

  lemma {:induction false} RetriesAre(net: NetWorld, clock: nat, left: nat, tries: nat)
    requires tries <= left && (forall i :: clock <= i < clock + tries ==> Again(net.reply(i)))
    requires !Again(net.reply(clock + tries))
    ensures Retries(net, clock, left) == tries
    decreases tries
  {
    if tries > 0 {
      assert Again(net.reply(clock));
      RetriesAre(net, clock + 1, left - 1, tries - 1);
    }
  }
}
