/** Cutting the unsent events into HTTP batches (`take_batch` and the loop around it).
  *
  * Only the encoded lengths of the events matter here.  A batch is encoded as a JSON array (section 5 of
  * RFC 8259): two brackets, the encoded events, and a comma between neighbours.
  */
module Batching {
  import opened Schema

  function Sum(lens: seq<nat>): nat {
    if lens == [] then 0 else Sum(lens[..|lens| - 1]) + lens[|lens| - 1]
  }

  /** The encoded length of a batch. */
  function Encoded(lens: seq<nat>): nat {
    2 + Sum(lens) + if lens == [] then 0 else |lens| - 1
  }

  datatype Limits = Limits(maxEvents: nat, maxBytes: nat)

  ghost predicate Fits(lens: seq<nat>, limits: Limits) {
    |lens| <= limits.maxEvents && Encoded(lens) <= limits.maxBytes
  }

  /** The single event is too large for any batch. */
  predicate Oversize(len: nat, limits: Limits) {
    len + 2 > limits.maxBytes
  }

  lemma SumAppend(lens: seq<nat>, x: nat)
    ensures Sum(lens + [x]) == Sum(lens) + x
  {
    assert (lens + [x])[..|lens|] == lens;
  }

  lemma {:induction false} SumConcat(a: seq<nat>, b: seq<nat>)
    ensures Sum(a + b) == Sum(a) + Sum(b)
  {
    if b == [] {
      assert a + b == a;
    } else {
      var n := |b| - 1;
      SumConcat(a, b[..n]);
      assert a + b == a + b[..n] + [b[n]];
      SumAppend(a + b[..n], b[n]);
    }
  }

  /** A piece of a batch that fits, fits. */
  lemma PieceFits(lens: seq<nat>, i: nat, j: nat, limits: Limits)
    requires i <= j <= |lens| && Fits(lens, limits)
    ensures Fits(lens[i..j], limits)
  {
    assert lens == lens[..i] + lens[i..j] + lens[j..];
    SumConcat(lens[..i] + lens[i..j], lens[j..]);
    SumConcat(lens[..i], lens[i..j]);
  }

  lemma ShorterFits(lens: seq<nat>, m: nat, n: nat, limits: Limits)
    requires m <= n <= |lens|
    ensures Fits(lens[..n], limits) ==> Fits(lens[..m], limits)
  {
    if Fits(lens[..n], limits) {
      PieceFits(lens[..n], 0, m, limits);
      assert lens[..n][0..m] == lens[..m];
    }
  }

  /** The batch the source's loop takes: it fails exactly when the first event is too large by itself, and
    * otherwise takes the longest prefix that meets both limits. */
  method TakeBatch(lens: seq<nat>, limits: Limits) returns (count: Option<nat>)
    requires lens != [] && limits.maxEvents > 0
    ensures count.None? <==> Oversize(lens[0], limits)
    ensures count.Some? ==> 1 <= count.value <= |lens| && Fits(lens[..count.value], limits)
    ensures count.Some? && count.value < |lens| ==> !Fits(lens[..count.value + 1], limits)
  {
    var bytes, n := 2, 0;
    while n < |lens| && n < limits.maxEvents
      invariant n <= |lens| && n <= limits.maxEvents
      invariant bytes == Encoded(lens[..n])
      invariant n > 0 ==> !Oversize(lens[0], limits) && bytes <= limits.maxBytes
    {
      var extra := lens[n] + if n == 0 then 0 else 1;
      assert lens[..n + 1] == lens[..n] + [lens[n]];
      SumAppend(lens[..n], lens[n]);
      if n > 0 && bytes + extra > limits.maxBytes {
        break;
      }
      if n == 0 && lens[n] + 2 > limits.maxBytes {
        return None;
      }
      bytes := bytes + extra;
      n := n + 1;
    }
    count := Some(n);
  }

  // ---------------------------------------------------------------- the whole partition

  /** The longest prefix that fits, from a prefix of length `n` that does. */
  ghost function Longest(lens: seq<nat>, n: nat, limits: Limits): (r: nat)
    requires n <= |lens|
    decreases |lens| - n
  {
    if n < |lens| && Fits(lens[..n + 1], limits) then Longest(lens, n + 1, limits) else n
  }

  lemma {:induction false} LongestFits(lens: seq<nat>, n: nat, limits: Limits)
    requires n <= |lens| && (n > 0 ==> Fits(lens[..n], limits))
    ensures var r := Longest(lens, n, limits);
            && n <= r <= |lens| && (r > 0 ==> Fits(lens[..r], limits))
            && (r < |lens| ==> !Fits(lens[..r + 1], limits))
    decreases |lens| - n
  {
    if n < |lens| && Fits(lens[..n + 1], limits) {
      LongestFits(lens, n + 1, limits);
    }
  }

  /** What `TakeBatch` ensures determines its result. */
  lemma TakenIsLongest(lens: seq<nat>, n: nat, limits: Limits)
    requires 1 <= n <= |lens| && Fits(lens[..n], limits)
    requires n < |lens| ==> !Fits(lens[..n + 1], limits)
    ensures n == Longest(lens, 0, limits)
  {
    var r := Longest(lens, 0, limits);
    LongestFits(lens, 0, limits);
    if r < n {
      ShorterFits(lens, r + 1, n, limits);
    } else if n < r {
      ShorterFits(lens, n + 1, r, limits);
    }
  }

  /** Batch sizes of repeated `take_batch`, or failure at the first event that is too large. */
  ghost function Greedy(lens: seq<nat>, limits: Limits): Option<seq<nat>>
    decreases |lens|
  {
    var n := Longest(lens, 0, limits);
    if lens == [] then Some([])
    else if n == 0 then None
    else
      LongestFits(lens, 0, limits);
      match Greedy(lens[n..], limits)
      case Some(rest) => Some([n] + rest)
      case None => None
  }

  /** The sizes of the batches before the cut gets stuck, if it does. */
  ghost function GreedySizes(lens: seq<nat>, limits: Limits): seq<nat>
    decreases |lens|
  {
    var n := Longest(lens, 0, limits);
    if lens == [] || n == 0 then []
    else
      LongestFits(lens, 0, limits);
      [n] + GreedySizes(lens[n..], limits)
  }

  lemma GreedySizesUnfold(lens: seq<nat>, limits: Limits)
    requires lens != []
    ensures var n := Longest(lens, 0, limits);
            n <= |lens|
            && (n > 0 ==>
                  && GreedySizes(lens, limits) == [n] + GreedySizes(lens[n..], limits)
                  && Greedy(lens, limits)
                     == match Greedy(lens[n..], limits) { case Some(rest) => Some([n] + rest) case None => None })
  {
    LongestFits(lens, 0, limits);
  }

  /** `parts` cuts `lens` in order into non-empty batches that meet both limits. */
  ghost predicate Partition(lens: seq<nat>, parts: seq<nat>, limits: Limits)
    decreases parts
  {
    if parts == [] then lens == []
    else 1 <= parts[0] <= |lens| && Fits(lens[..parts[0]], limits) && Partition(lens[parts[0]..], parts[1..], limits)
  }

  lemma {:induction false} GreedyPartitions(lens: seq<nat>, limits: Limits)
    ensures Greedy(lens, limits).Some? ==> Partition(lens, Greedy(lens, limits).value, limits)
    decreases |lens|
  {
    var n := Longest(lens, 0, limits);
    LongestFits(lens, 0, limits);
    if lens != [] && n > 0 {
      GreedyPartitions(lens[n..], limits);
      if Greedy(lens, limits).Some? {
        var g := Greedy(lens, limits).value;
        assert g[1..] == Greedy(lens[n..], limits).value;
      }
    }
  }

  /** Starting no earlier than some partition does, the greedy cut needs no more batches than it. */
  lemma {:induction false} GreedyStaysAhead(lens: seq<nat>, at: nat, parts: seq<nat>, limits: Limits)
    requires at <= |lens| && Partition(lens, parts, limits)
    ensures Greedy(lens[at..], limits).Some?
    ensures |Greedy(lens[at..], limits).value| <= |parts|
    decreases |lens| - at, |parts|
  {
    var tail := lens[at..];
    if tail != [] {
      var p := parts[0];
      if at >= p {
        assert lens[p..][at - p..] == tail;
        GreedyStaysAhead(lens[p..], at - p, parts[1..], limits);
      } else {
        var n := Longest(tail, 0, limits);
        LongestFits(tail, 0, limits);
        PieceFits(lens[..p], at, p, limits);
        assert lens[..p][at..p] == tail[..p - at];
        if n < p - at {
          ShorterFits(tail, n + 1, p - at, limits);
        }
        assert lens[p..][at + n - p..] == tail[n..];
        GreedyStaysAhead(lens[p..], at + n - p, parts[1..], limits);
      }
    }
  }

  /** No other way of cutting the events into batches within the limits uses fewer batches. */
  lemma GreedyOptimal(lens: seq<nat>, parts: seq<nat>, limits: Limits)
    requires Partition(lens, parts, limits)
    ensures Greedy(lens, limits).Some? && |Greedy(lens, limits).value| <= |parts|
  {
    assert lens[0..] == lens;
    GreedyStaysAhead(lens, 0, parts, limits);
  }

  lemma FirstFits(lens: seq<nat>, limits: Limits)
    requires lens != [] && limits.maxEvents > 0
    ensures Longest(lens, 0, limits) > 0 <==> !Oversize(lens[0], limits)
  {
    assert lens[..1] == [] + [lens[0]];
    SumAppend([], lens[0]);
    LongestFits(lens, 0, limits);
    if Longest(lens, 0, limits) > 0 {
      PieceFits(lens[..Longest(lens, 0, limits)], 0, 1, limits);
      assert lens[..Longest(lens, 0, limits)][0..1] == lens[..1];
    }
  }

  lemma MemberFits(lens: seq<nat>, n: nat, i: nat, limits: Limits)
    requires i < n <= |lens| && Fits(lens[..n], limits)
    ensures !Oversize(lens[i], limits)
  {
    PieceFits(lens[..n], i, i + 1, limits);
    assert lens[..n][i..i + 1] == [] + [lens[i]];
    SumAppend([], lens[i]);
  }

  ghost predicate SomeOversize(lens: seq<nat>, limits: Limits) {
    exists i :: 0 <= i < |lens| && Oversize(lens[i], limits)
  }

  lemma OversizeAfter(lens: seq<nat>, n: nat, limits: Limits)
    requires n <= |lens| && (n > 0 ==> Fits(lens[..n], limits))
    ensures SomeOversize(lens, limits) <==> SomeOversize(lens[n..], limits)
  {
    forall i | 0 <= i < n ensures !Oversize(lens[i], limits) {
      MemberFits(lens, n, i, limits);
    }
    if i :| 0 <= i < |lens[n..]| && Oversize(lens[n..][i], limits) {
      assert Oversize(lens[n + i], limits);
    }
    if i :| 0 <= i < |lens| && Oversize(lens[i], limits) {
      assert Oversize(lens[n..][i - n], limits);
    }
  }

  lemma GreedyUnfolds(lens: seq<nat>, limits: Limits)
    requires lens != []
    ensures var n := Longest(lens, 0, limits);
            && n <= |lens|
            && (Greedy(lens, limits).None? <==> n == 0 || Greedy(lens[n..], limits).None?)
  {
    LongestFits(lens, 0, limits);
  }

  /** Batching fails exactly when some single event is too large. */
  lemma {:induction false} GreedyFailsExactly(lens: seq<nat>, limits: Limits)
    requires limits.maxEvents > 0
    ensures Greedy(lens, limits).None? <==> SomeOversize(lens, limits)
    decreases |lens|
  {
    if lens != [] {
      hide Greedy, Longest, Fits;
      FirstFits(lens, limits);
      GreedyUnfolds(lens, limits);
      LongestFits(lens, 0, limits);
      var n := Longest(lens, 0, limits);
      if n == 0 {
        assert Oversize(lens[0], limits);
      } else {
        GreedyFailsExactly(lens[n..], limits);
        OversizeAfter(lens, n, limits);
      }
    }
  }

  ghost predicate CutBy(lens: seq<nat>, parts: seq<nat>, limits: Limits) {
    Partition(lens, parts, limits)
  }

  /** Batching fails exactly when no partition within the limits exists at all. */
  lemma PartitionExistsExactly(lens: seq<nat>, limits: Limits)
    ensures Greedy(lens, limits).Some? <==> exists parts :: CutBy(lens, parts, limits)
  {
    GreedyPartitions(lens, limits);
    if Greedy(lens, limits).Some? {
      assert CutBy(lens, Greedy(lens, limits).value, limits);
    }
    if parts :| CutBy(lens, parts, limits) {
      GreedyOptimal(lens, parts, limits);
    }
  }
}
