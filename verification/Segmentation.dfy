/**
Splitting one connection's packets into flows: `_segment_ids` of
ml/nidra/data/flow_assemble.py.

The loop is proved against the pointwise notion of a lawful block: it spans at
most the timeout and holds no teardown before its last packet. Its segments are
lawful, and no other partition into lawful blocks has fewer at any packet.
*/
module Segmentation {
  const FIN_CLOSES_FLOW_AT := 2

  datatype Packet = Packet(time: real, fin: bool, rst: bool)

  /** FINs that count towards a close: an RST packet's own FIN bit is not looked at. */
  function Fins(ps: seq<Packet>, lo: nat, hi: nat): nat
    requires lo <= hi <= |ps|
    decreases hi
  {
    if lo == hi then 0
    else Fins(ps, lo, hi - 1) + if ps[hi - 1].fin && !ps[hi - 1].rst then 1 else 0
  }

  /** Packet i tears down the flow that started at packet `start`: an RST, or a FIN that completes two. */
  predicate TearsDown(ps: seq<Packet>, start: nat, i: nat)
    requires start <= i < |ps|
  {
    ps[i].rst || (ps[i].fin && Fins(ps, start, i + 1) >= FIN_CLOSES_FLOW_AT)
  }

  predicate Counts(p: Packet) {
    p.fin && !p.rst
  }

  lemma {:induction false} FinsPositive(ps: seq<Packet>, lo: nat, hi: nat)
    requires lo <= hi <= |ps|
    ensures Fins(ps, lo, hi) > 0 <==> exists k | lo <= k < hi :: Counts(ps[k])
    decreases hi
  {
    if lo < hi {
      FinsPositive(ps, lo, hi - 1);
      if Counts(ps[hi - 1]) {
        assert Counts(ps[hi - 1]);
      }
    }
  }

  /** A reset ends the flow, and so does the second FIN of it: one from either side. */
  lemma TearsDownIff(ps: seq<Packet>, start: nat, i: nat)
    requires start <= i < |ps|
    ensures TearsDown(ps, start, i)
       <==> ps[i].rst || (ps[i].fin && exists k | start <= k < i :: Counts(ps[k]))
  {
    FinsPositive(ps, start, i);
  }

  /** Packets lo..hi-1 may form one flow. */
  ghost predicate Lawful(ps: seq<Packet>, timeout: real, lo: nat, hi: nat)
    requires lo < hi <= |ps|
  {
    ps[hi - 1].time - ps[lo].time <= timeout && forall k | lo <= k < hi - 1 :: !TearsDown(ps, lo, k)
  }

  ghost predicate SortedByTime(ps: seq<Packet>) {
    forall i, j | 0 <= i <= j < |ps| :: ps[i].time <= ps[j].time
  }

  /** Labels of contiguous blocks, numbered from 0 without gaps. */
  ghost predicate IsPartition(labels: seq<nat>) {
    (labels != [] ==> labels[0] == 0)
    && forall i | 0 < i < |labels| :: labels[i] == labels[i - 1] || labels[i] == labels[i - 1] + 1
  }

  /** From lo to i there is one block. */
  ghost predicate SameBlock(labels: seq<nat>, lo: nat, i: nat)
    requires lo <= i < |labels|
  {
    labels[lo] == labels[i]
  }

  /** Every stretch inside one block is lawful. */
  ghost predicate AllLawful(ps: seq<Packet>, timeout: real, labels: seq<nat>)
    requires |labels| == |ps|
  {
    forall lo, i | 0 <= lo <= i < |ps| && SameBlock(labels, lo, i) && IsStart(labels, lo) ::
      Lawful(ps, timeout, lo, i + 1)
  }

  ghost predicate IsStart(labels: seq<nat>, i: nat)
    requires i < |labels|
  {
    i == 0 || labels[i - 1] != labels[i]
  }

  lemma {:induction false} FinsShrink(ps: seq<Packet>, lo: nat, mid: nat, hi: nat)
    requires lo <= mid <= hi <= |ps|
    ensures Fins(ps, mid, hi) <= Fins(ps, lo, hi)
    decreases hi
  {
    if mid < hi {
      FinsShrink(ps, lo, mid, hi - 1);
    }
  }

  /** A flow that begins later and ends no later is lawful if the longer one is. */
  lemma LawfulShrinks(ps: seq<Packet>, timeout: real, lo: nat, mid: nat, hi': nat, hi: nat)
    requires lo <= mid < hi' <= hi <= |ps| && SortedByTime(ps) && Lawful(ps, timeout, lo, hi)
    ensures Lawful(ps, timeout, mid, hi')
  {
    forall k | mid <= k < hi' - 1 ensures !TearsDown(ps, mid, k) {
      FinsShrink(ps, lo, mid, k + 1);
      assert !TearsDown(ps, lo, k);
    }
  }

  lemma {:induction false} LabelsGrow(labels: seq<nat>, i: nat, j: nat)
    requires IsPartition(labels) && i <= j < |labels|
    ensures labels[i] <= labels[j]
    decreases j
  {
    if i < j {
      LabelsGrow(labels, i, j - 1);
    }
  }

  /** Where the block of packet i starts. */
  lemma {:induction false} BlockStart(labels: seq<nat>, i: nat) returns (lo: nat)
    requires IsPartition(labels) && i < |labels|
    ensures lo <= i && IsStart(labels, lo) && SameBlock(labels, lo, i)
    ensures forall k | lo <= k <= i :: labels[k] == labels[i]
  {
    if IsStart(labels, i) {
      lo := i;
    } else {
      lo := BlockStart(labels, i - 1);
    }
  }

  /** A block's start comes before everything in the block. */
  lemma StartIsFirst(labels: seq<nat>, start: nat, i: nat, k: nat)
    requires IsPartition(labels) && start <= i < |labels| && k <= i
    requires IsStart(labels, start) && SameBlock(labels, start, i) && labels[k] >= labels[i]
    ensures start <= k
  {
    if k < start {
      LabelsGrow(labels, k, start - 1);
    }
  }

  /** The greedy rule at packet i: it opens a block exactly when the running one cannot take it. */
  ghost predicate IsGreedy(ps: seq<Packet>, timeout: real, labels: seq<nat>)
    requires |labels| <= |ps|
  {
    IsPartition(labels)
    && forall lo, i | 0 <= lo < i < |labels| && IsStart(labels, lo) && SameBlock(labels, lo, i - 1) ::
         (labels[i] == labels[i - 1] <==> Lawful(ps, timeout, lo, i + 1))
  }

  lemma {:induction false} GreedyIsLawful(ps: seq<Packet>, timeout: real, labels: seq<nat>, lo: nat, i: nat)
    requires |labels| == |ps| && IsGreedy(ps, timeout, labels) && timeout >= 0.0
    requires lo <= i < |ps| && IsStart(labels, lo) && SameBlock(labels, lo, i)
    ensures Lawful(ps, timeout, lo, i + 1)
  {
    if lo < i {
      LabelsGrow(labels, lo, i - 1);
      LabelsGrow(labels, i - 1, i);
      assert SameBlock(labels, lo, i - 1);
    }
  }

  /** Greedy stays ahead: at every packet no lawful partition has used fewer blocks. */
  lemma {:induction false} GreedyIsOptimal(ps: seq<Packet>, timeout: real, greedy: seq<nat>, other: seq<nat>, i: nat)
    requires |greedy| == |other| == |ps| && SortedByTime(ps)
    requires IsGreedy(ps, timeout, greedy)
    requires IsPartition(other) && AllLawful(ps, timeout, other)
    requires i < |ps|
    ensures greedy[i] <= other[i]
  {
    if i > 0 {
      GreedyIsOptimal(ps, timeout, greedy, other, i - 1);
      if greedy[i] > other[i] {
        // Both were level at i - 1, and only greedy opened a block at i.
        var lo := BlockStart(greedy, i - 1);
        var lo' := BlockStart(other, i - 1);
        GreedyIsOptimal(ps, timeout, greedy, other, lo);
        LabelsGrow(other, lo, i - 1);
        StartIsFirst(other, lo', i - 1, lo);
        assert SameBlock(other, lo', i) && Lawful(ps, timeout, lo', i + 1);
        LawfulShrinks(ps, timeout, lo', lo, i + 1, i + 1);
      }
    }
  }

  // ---------------------------------------------------------------------- direction epochs

  /** The block of packet i - 1 was torn down by packet i - 1. */
  ghost predicate EndsByTeardown(ps: seq<Packet>, labels: seq<nat>, i: nat)
    requires |labels| <= |ps| && 0 < i <= |labels|
  {
    exists lo | 0 <= lo < i :: IsStart(labels, lo) && SameBlock(labels, lo, i - 1) && TearsDown(ps, lo, i - 1)
  }

  /** Epochs start at 0 and advance by one exactly where the previous packet tore its flow down. */
  ghost predicate AdvancesOnTeardown(ps: seq<Packet>, labels: seq<nat>, epochs: seq<nat>)
    requires |labels| == |epochs| <= |ps|
  {
    (epochs != [] ==> epochs[0] == 0)
    && forall i | 0 < i < |labels| :: epochs[i] == epochs[i - 1] + if EndsByTeardown(ps, labels, i) then 1 else 0
  }

  /** The direction epoch is a monotone function of the segment, never ahead of it. */
  lemma {:induction false} EpochFollowsSegment(ps: seq<Packet>, timeout: real, labels: seq<nat>, epochs: seq<nat>,
                                               i: nat, j: nat)
    requires |labels| == |epochs| == |ps| && IsGreedy(ps, timeout, labels)
    requires AdvancesOnTeardown(ps, labels, epochs) && i <= j < |ps|
    ensures epochs[i] <= epochs[j] && epochs[j] + labels[i] <= labels[j] + epochs[i]
    ensures labels[i] == labels[j] ==> epochs[i] == epochs[j]
    decreases j
  {
    if i < j {
      EpochFollowsSegment(ps, timeout, labels, epochs, i, j - 1);
      LabelsGrow(labels, i, j - 1);
      if EndsByTeardown(ps, labels, j) {
        var lo :| 0 <= lo < j && IsStart(labels, lo) && SameBlock(labels, lo, j - 1) && TearsDown(ps, lo, j - 1);
        assert !Lawful(ps, timeout, lo, j + 1);
      }
    }
  }

  // --------------------------------------------------------------------------- the loop

  lemma SameStarts(labels: seq<nat>, more: seq<nat>, lo: nat, i: nat)
    requires lo <= i < |labels|
    ensures IsStart(labels + more, lo) == IsStart(labels, lo)
    ensures SameBlock(labels + more, lo, i) == SameBlock(labels, lo, i)
  {
  }

  /** The running block has one start. */
  lemma OneStart(labels: seq<nat>, lo: nat, first: nat)
    requires IsPartition(labels) && lo < |labels| && IsStart(labels, lo) && SameBlock(labels, lo, |labels| - 1)
    requires first < |labels| && IsStart(labels, first) && SameBlock(labels, first, |labels| - 1)
    ensures lo == first
  {
    StartIsFirst(labels, lo, |labels| - 1, first);
    StartIsFirst(labels, first, |labels| - 1, lo);
  }

  /** Labelling one more packet by the greedy rule, `first` being where the running block starts. */
  lemma GreedyStep(ps: seq<Packet>, timeout: real, labels: seq<nat>, first: nat)
    requires 0 < |labels| < |ps| && first < |labels| && IsGreedy(ps, timeout, labels)
    requires IsStart(labels, first) && SameBlock(labels, first, |labels| - 1)
    ensures var i := |labels|;
            IsGreedy(ps, timeout, labels + [labels[i - 1] + if Lawful(ps, timeout, first, i + 1) then 0 else 1])
  {
    var i := |labels|;
    var last := labels[i - 1] + if Lawful(ps, timeout, first, i + 1) then 0 else 1;
    var labels' := labels + [last];
    forall lo, k | 0 <= lo < k <= i && IsStart(labels', lo) && SameBlock(labels', lo, k - 1)
      ensures labels'[k] == labels'[k - 1] <==> Lawful(ps, timeout, lo, k + 1)
    {
      GreedyStepAt(ps, timeout, labels, first, last, lo, k);
    }
  }

  lemma GreedyStepAt(ps: seq<Packet>, timeout: real, labels: seq<nat>, first: nat, last: nat, lo: nat, k: nat)
    requires 0 < |labels| < |ps| && first < |labels| && IsGreedy(ps, timeout, labels)
    requires IsStart(labels, first) && SameBlock(labels, first, |labels| - 1) && lo < k <= |labels|
    requires last == labels[|labels| - 1] + if Lawful(ps, timeout, first, |labels| + 1) then 0 else 1
    requires IsStart(labels + [last], lo) && SameBlock(labels + [last], lo, k - 1)
    ensures (labels + [last])[k] == (labels + [last])[k - 1] <==> Lawful(ps, timeout, lo, k + 1)
  {
    SameStarts(labels, [last], lo, k - 1);
    if k == |labels| {
      OneStart(labels, lo, first);
    }
  }

  lemma EpochStep(ps: seq<Packet>, labels: seq<nat>, epochs: seq<nat>, first: nat, next: nat)
    requires 0 < |labels| == |epochs| < |ps| && first < |labels| && IsPartition(labels)
    requires AdvancesOnTeardown(ps, labels, epochs)
    requires IsStart(labels, first) && SameBlock(labels, first, |labels| - 1)
    ensures var i := |labels|;
            var turn := epochs[i - 1] + if TearsDown(ps, first, i - 1) then 1 else 0;
            AdvancesOnTeardown(ps, labels + [next], epochs + [turn])
  {
    var i := |labels|;
    forall k | 0 < k <= i
      ensures EndsByTeardown(ps, labels + [next], k)
              == if k < i then EndsByTeardown(ps, labels, k) else TearsDown(ps, first, i - 1)
    {
      forall lo | 0 <= lo < k
        ensures IsStart(labels + [next], lo) == IsStart(labels, lo)
        ensures SameBlock(labels + [next], lo, k - 1) == SameBlock(labels, lo, k - 1)
        ensures k == i && IsStart(labels, lo) && SameBlock(labels, lo, i - 1) ==> lo == first
      {
        SameStarts(labels, [next], lo, k - 1);
        if k == i && IsStart(labels, lo) && SameBlock(labels, lo, i - 1) {
          OneStart(labels, lo, first);
        }
      }
    }
  }

  /** The loop's state after labelling at least one packet. */
  ghost predicate Running(ps: seq<Packet>, timeout: real, labels: seq<nat>, epochs: seq<nat>,
                          first: nat, finSeen: nat, closed: bool)
    requires 0 < |labels| == |epochs| <= |ps| && first < |labels|
  {
    var i := |labels|;
    && IsGreedy(ps, timeout, labels) && AdvancesOnTeardown(ps, labels, epochs)
    && IsStart(labels, first) && SameBlock(labels, first, i - 1)
    && finSeen == Fins(ps, first, i)
    && (closed <==> TearsDown(ps, first, i - 1))
    && forall k | first <= k < i - 1 :: !TearsDown(ps, first, k)
  }

  datatype Progress = Progress(labels: seq<nat>, epochs: seq<nat>, first: nat, finSeen: nat, closed: bool)

  /** One turn of the loop, at packet i. */
  function Next(ps: seq<Packet>, timeout: real, i: nat, p: Progress): (p': Progress)
    requires |p.labels| == |p.epochs| == i < |ps| && (i > 0 ==> p.first < i) && (i == 0 ==> p.first == 0)
    ensures |p'.labels| == |p'.epochs| == i + 1 && p'.first <= i
  {
    var cut := p.closed || ps[i].time - ps[p.first].time > timeout;
    var fins := if cut then 0 else p.finSeen;
    var fin := ps[i].fin && !ps[i].rst;
    Progress(
      p.labels + [(if i == 0 then 0 else p.labels[i - 1]) + if cut then 1 else 0],
      p.epochs + [(if i == 0 then 0 else p.epochs[i - 1]) + if p.closed then 1 else 0],
      if cut then i else p.first,
      fins + if fin then 1 else 0,
      ps[i].rst || (fin && fins + 1 >= FIN_CLOSES_FLOW_AT))
  }

  /** The loop variables after i packets. */
  function Loop(ps: seq<Packet>, timeout: real, i: nat): (p: Progress)
    requires i <= |ps|
    ensures |p.labels| == |p.epochs| == i && (i > 0 ==> p.first < i) && (i == 0 ==> p.first == 0)
  {
    if i == 0 then Progress([], [], 0, 0, false) else Next(ps, timeout, i - 1, Loop(ps, timeout, i - 1))
  }

  lemma NextExtends(ps: seq<Packet>, timeout: real, i: nat, p: Progress)
    requires 0 < i == |p.labels| == |p.epochs| < |ps| && p.first < i && p.finSeen == Fins(ps, p.first, i)
    requires !p.closed && ps[i].time - ps[p.first].time <= timeout
    ensures Next(ps, timeout, i, p) == Progress(p.labels + [p.labels[i - 1]], p.epochs + [p.epochs[i - 1]], p.first,
                                                Fins(ps, p.first, i + 1), TearsDown(ps, p.first, i))
  {
  }

  lemma NextOpens(ps: seq<Packet>, timeout: real, i: nat, p: Progress)
    requires 0 < i == |p.labels| == |p.epochs| < |ps| && p.first < i
    requires p.closed || ps[i].time - ps[p.first].time > timeout
    ensures Next(ps, timeout, i, p) == Progress(p.labels + [p.labels[i - 1] + 1],
                                                p.epochs + [p.epochs[i - 1] + if p.closed then 1 else 0], i,
                                                Fins(ps, i, i + 1), TearsDown(ps, i, i))
  {
    assert Fins(ps, i, i) == 0;
  }

  lemma NextRuns(ps: seq<Packet>, timeout: real, i: nat, p: Progress)
    requires 0 < i == |p.labels| == |p.epochs| < |ps| && p.first < i
    requires Running(ps, timeout, p.labels, p.epochs, p.first, p.finSeen, p.closed)
    ensures var p' := Next(ps, timeout, i, p);
            Running(ps, timeout, p'.labels, p'.epochs, p'.first, p'.finSeen, p'.closed)
  {
    EpochStep(ps, p.labels, p.epochs, p.first, Next(ps, timeout, i, p).labels[i]);
    GreedyStep(ps, timeout, p.labels, p.first);
    if p.closed || ps[i].time - ps[p.first].time > timeout {
      NextOpens(ps, timeout, i, p);
      assert !Lawful(ps, timeout, p.first, i + 1);
    } else {
      NextExtends(ps, timeout, i, p);
      assert Lawful(ps, timeout, p.first, i + 1);
      SameStarts(p.labels, [p.labels[i - 1]], p.first, i - 1);
    }
  }

  lemma FirstRuns(ps: seq<Packet>, timeout: real)
    requires ps != [] && timeout >= 0.0
    ensures var p := Loop(ps, timeout, 1);
            Running(ps, timeout, p.labels, p.epochs, p.first, p.finSeen, p.closed)
  {
    var p := Loop(ps, timeout, 1);
    assert Loop(ps, timeout, 0) == Progress([], [], 0, 0, false);
    assert p.labels == [0] && p.epochs == [0];
    assert Fins(ps, 0, 0) == 0;
  }

  lemma {:induction false} LoopRuns(ps: seq<Packet>, timeout: real, i: nat)
    requires 0 < i <= |ps| && timeout >= 0.0
    ensures var p := Loop(ps, timeout, i);
            Running(ps, timeout, p.labels, p.epochs, p.first, p.finSeen, p.closed)
  {
    if i == 1 {
      FirstRuns(ps, timeout);
    } else {
      LoopRuns(ps, timeout, i - 1);
      NextRuns(ps, timeout, i - 1, Loop(ps, timeout, i - 1));
    }
  }

  /** A single packet already outlasts a negative timeout, so only the empty capture has lawful flows then. */
  lemma LawfulNeedsTimeout(ps: seq<Packet>, timeout: real, labels: seq<nat>)
    requires ps != [] && |labels| == |ps| && AllLawful(ps, timeout, labels)
    ensures timeout >= 0.0
  {
    assert SameBlock(labels, 0, 0) && IsStart(labels, 0) ==> Lawful(ps, timeout, 0, 1);
  }

  /** Below zero the loop opens a flow at every packet, the first one included. */
  lemma {:induction false} NegativeTimeoutCutsEverywhere(ps: seq<Packet>, timeout: real, n: nat, i: nat)
    requires SortedByTime(ps) && timeout < 0.0 && i < n <= |ps|
    ensures Loop(ps, timeout, n).labels[i] == i + 1
  {
    if i == n - 1 {
      if i > 0 { NegativeTimeoutCutsEverywhere(ps, timeout, n - 1, i - 1); }
    } else {
      NegativeTimeoutCutsEverywhere(ps, timeout, n - 1, i);
    }
  }

  /**
  What the loop returns: lawful flows, as few as any lawful partition has at every
  packet, and direction epochs that advance on teardowns only.
  */
  lemma SegmentationIsOptimal(ps: seq<Packet>, timeout: real, other: seq<nat>)
    requires SortedByTime(ps)
    requires |other| == |ps| && IsPartition(other) && AllLawful(ps, timeout, other)
    ensures var p := Loop(ps, timeout, |ps|);
            IsPartition(p.labels) && AllLawful(ps, timeout, p.labels)
            && (forall i | 0 <= i < |ps| :: p.labels[i] <= other[i])
            && AdvancesOnTeardown(ps, p.labels, p.epochs)
  {
    if ps != [] {
      var labels := Loop(ps, timeout, |ps|).labels;
      LawfulNeedsTimeout(ps, timeout, other);
      LoopRuns(ps, timeout, |ps|);
      forall lo, i | 0 <= lo <= i < |ps| && SameBlock(labels, lo, i) && IsStart(labels, lo)
        ensures Lawful(ps, timeout, lo, i + 1)
      {
        GreedyIsLawful(ps, timeout, labels, lo, i);
      }
      forall i | 0 <= i < |ps| ensures labels[i] <= other[i] {
        GreedyIsOptimal(ps, timeout, labels, other, i);
      }
    }
  }

  /** The loop's own variables before packet i. */
  ghost predicate AtTurn(ps: seq<Packet>, timeout: real, i: nat, segment: nat, epoch: nat, start: real,
                         finSeen: nat, closed: bool)
    requires ps != [] && i <= |ps|
  {
    var p := Loop(ps, timeout, i);
    && start == ps[p.first].time && finSeen == p.finSeen && closed == p.closed
    && segment == (if i == 0 then 0 else p.labels[i - 1])
    && epoch == (if i == 0 then 0 else p.epochs[i - 1])
  }

  lemma TurnIs(ps: seq<Packet>, timeout: real, i: nat, segment: nat, epoch: nat, start: real,
               finSeen: nat, closed: bool)
    requires i < |ps| && AtTurn(ps, timeout, i, segment, epoch, start, finSeen, closed)
    ensures var cut := closed || ps[i].time - start > timeout;
            var segment', epoch' := segment + (if cut then 1 else 0), epoch + if closed then 1 else 0;
            var fins, fin := if cut then 0 else finSeen, ps[i].fin && !ps[i].rst;
            && AtTurn(ps, timeout, i + 1, segment', epoch', if cut then ps[i].time else start,
                      fins + (if fin then 1 else 0), ps[i].rst || (fin && fins + 1 >= FIN_CLOSES_FLOW_AT))
            && Loop(ps, timeout, i + 1).labels == Loop(ps, timeout, i).labels + [segment']
            && Loop(ps, timeout, i + 1).epochs == Loop(ps, timeout, i).epochs + [epoch']
  {
  }

  method SegmentIds(ps: seq<Packet>, timeout: real) returns (segment: array<nat>, epoch: array<nat>)
    ensures fresh(segment) && fresh(epoch) && segment.Length == epoch.Length == |ps|
    ensures segment[..] == Loop(ps, timeout, |ps|).labels && epoch[..] == Loop(ps, timeout, |ps|).epochs
  {
    var n := |ps|;
    segment := new nat[n];
    epoch := new nat[n];
    if n == 0 { return; }
    var seg, directionEpoch, start, finSeen, closed := 0, 0, ps[0].time, 0, false;
    for i := 0 to n
      invariant AtTurn(ps, timeout, i, seg, directionEpoch, start, finSeen, closed)
      invariant segment[..i] == Loop(ps, timeout, i).labels && epoch[..i] == Loop(ps, timeout, i).epochs
    {
      TurnIs(ps, timeout, i, seg, directionEpoch, start, finSeen, closed);
      ghost var cut := closed || ps[i].time - start > timeout;
      ghost var seg', epoch' := seg + (if cut then 1 else 0), directionEpoch + if closed then 1 else 0;
      ghost var start', fins := if cut then ps[i].time else start, if cut then 0 else finSeen;
      if closed || ps[i].time - start > timeout {
        seg := seg + 1;
        if closed { directionEpoch := directionEpoch + 1; }
        start := ps[i].time;
        finSeen := 0;
        closed := false;
      }
      assert seg == seg' && directionEpoch == epoch' && start == start' && finSeen == fins && !closed;
      segment[i] := seg;
      epoch[i] := directionEpoch;
      if ps[i].rst {
        closed := true;
      } else if ps[i].fin {
        finSeen := finSeen + 1;
        closed := finSeen >= FIN_CLOSES_FLOW_AT;
      }
    }
  }
}
