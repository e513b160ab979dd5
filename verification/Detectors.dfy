/**
Sustained-crossing detectors: `lead_time_for_episode` (ml/nidra/eval/metrics.py),
`_first_run` (ml/nidra/eval/episode_metrics.py), `_lead_time_s`
(services/inference/stub_predictor.py) and `_first_timed_run`
(ml/nidra/eval/campaign_metrics.py).

All are proved against one declarative notion, the least start of m consecutive
hits, so the one-pass counters compute what the all-windows scan computes.
*/
module Detectors {
  import opened Options

  // --------------------------------------------------------------- m hits in a row

  /** hit[i..i + m] is all true. */
  ghost predicate RunAt(hit: seq<bool>, m: nat, i: int) {
    0 <= i && i + m <= |hit| && forall k | i <= k < i + m :: hit[k]
  }

  /** r is the least start of m consecutive hits, `None` when there is none. */
  ghost predicate IsFirstRun(hit: seq<bool>, m: nat, r: Option<int>) {
    match r
    case None => forall i :: !RunAt(hit, m, i)
    case Some(s) => RunAt(hit, m, s) && forall i | i < s :: !RunAt(hit, m, i)
  }

  /** The answer is unique, so any two detectors that meet it agree. */
  lemma FirstRunUnique(hit: seq<bool>, m: nat, r1: Option<int>, r2: Option<int>)
    requires IsFirstRun(hit, m, r1) && IsFirstRun(hit, m, r2)
    ensures r1 == r2
  {
    if r1.Some? { assert RunAt(hit, m, r1.value); }
    if r2.Some? { assert RunAt(hit, m, r2.value); }
  }

  /** A counter below m after row i: no run of m ends there. */
  lemma BrokenRun(hit: seq<bool>, m: nat, i: nat, run: nat)
    requires i < |hit| && run < m && (run <= i ==> !hit[i - run])
    ensures !RunAt(hit, m, i + 1 - m)
  {
  }

  /** The one-pass counter. */
  method FirstRun(hit: seq<bool>, m: nat) returns (r: Option<int>)
    requires m >= 1
    ensures IsFirstRun(hit, m, r)
  {
    var run := 0;
    for i := 0 to |hit|
      invariant 0 <= run < m && run <= i
      invariant forall k | i - run <= k < i :: hit[k]
      invariant run < i ==> !hit[i - run - 1]
      invariant forall s | s + m <= i :: !RunAt(hit, m, s)
    {
      run := if hit[i] then run + 1 else 0;
      if run >= m {
        assert RunAt(hit, m, i - m + 1);
        return Some(i - m + 1);
      }
      BrokenRun(hit, m, i, run);
    }
    return None;
  }

  /** The all-windows scan: every window of m is tested in turn. */
  method ScanRun(hit: seq<bool>, m: nat) returns (r: Option<int>)
    requires m >= 1
    ensures IsFirstRun(hit, m, r)
  {
    var index := 0;
    while index < |hit| - m + 1
      invariant 0 <= index
      invariant forall s | s < index :: !RunAt(hit, m, s)
    {
      var window := hit[index..index + m];
      if forall k | 0 <= k < m :: window[k] {
        assert forall k | index <= k < index + m :: hit[k] == window[k - index];
        return Some(index);
      }
      assert !RunAt(hit, m, index) by {
        var k :| 0 <= k < m && !window[k];
        assert !hit[index + k];
      }
      index := index + 1;
    }
    return None;
  }

  /** One forecast step: k windows ahead. */
  datatype Step = Step(k: int, p: real)

  function StepHits(points: seq<Step>, threshold: real): seq<bool> {
    seq(|points|, i requires 0 <= i < |points| => points[i].p >= threshold)
  }

  /** From step s on, m steps in a row reach the threshold. */
  ghost predicate Sustained(points: seq<Step>, threshold: real, m: nat, s: int) {
    0 <= s && s + m <= |points| && forall k | s <= k < s + m :: points[k].p >= threshold
  }

  lemma SustainedIsRun(points: seq<Step>, threshold: real, m: nat, s: int)
    ensures Sustained(points, threshold, m, s) <==> RunAt(StepHits(points, threshold), m, s)
  {
    var hit := StepHits(points, threshold);
    forall k | 0 <= k < |points|
      ensures hit[k] <==> points[k].p >= threshold
    {
    }
    if RunAt(hit, m, s) {
      forall k | s <= k < s + m ensures points[k].p >= threshold { assert hit[k]; }
    }
    if Sustained(points, threshold, m, s) {
      forall k | s <= k < s + m ensures hit[k] { assert points[k].p >= threshold; }
    }
  }

  /** Seconds from the origin to the first sustained crossing inside the horizon. */
  method LeadTimeS(points: seq<Step>, threshold: real, m: nat, windowDelta: int) returns (lead: Option<int>)
    requires m >= 1
    ensures lead.None? ==> IsFirstRun(StepHits(points, threshold), m, None)
    ensures lead.Some? ==> exists s | 0 <= s < |points| ::
              IsFirstRun(StepHits(points, threshold), m, Some(s)) && lead.value == points[s].k * windowDelta
    ensures lead.None? <==> forall s | 0 <= s <= |points| - m :: !Sustained(points, threshold, m, s)
  {
    var first := ScanRun(StepHits(points, threshold), m);
    forall s
      ensures Sustained(points, threshold, m, s) <==> RunAt(StepHits(points, threshold), m, s)
    {
      SustainedIsRun(points, threshold, m, s);
    }
    if first.None? { return None; }
    assert RunAt(StepHits(points, threshold), m, first.value);
    lead := Some(points[first.value].k * windowDelta);
  }

  /** The one-pass counter and the all-windows scan are the same function of the hits. */
  method CounterAgreesWithScan(hit: seq<bool>, m: nat) returns (fast: Option<int>, slow: Option<int>)
    requires m >= 1
    ensures fast == slow
  {
    fast := FirstRun(hit, m);
    slow := ScanRun(hit, m);
    FirstRunUnique(hit, m, fast, slow);
  }

  // ------------------------------------------------------------------------- lead times

  datatype Point = Point(ts: int, p: real)

  /** Windows considered: up to the first at or after the onset. */
  function BeforeOnset(curve: seq<Point>, onset: int, n: nat): nat
    requires n <= |curve|
    ensures BeforeOnset(curve, onset, n) <= n
    ensures forall k | 0 <= k < BeforeOnset(curve, onset, n) :: curve[k].ts < onset
    ensures BeforeOnset(curve, onset, n) < n ==> curve[BeforeOnset(curve, onset, n)].ts >= onset
  {
    if n == 0 then 0
    else
      var b := BeforeOnset(curve, onset, n - 1);
      if b < n - 1 || curve[n - 1].ts >= onset then b else n
  }

  function Hits(curve: seq<Point>, threshold: real): seq<bool> {
    seq(|curve|, i requires 0 <= i < |curve| => curve[i].p >= threshold)
  }

  /** Seconds from the start of the first sustained crossing before the onset to the onset. */
  ghost predicate IsLeadTime(curve: seq<Point>, onset: int, threshold: real, m: nat, lead: Option<int>) {
    var n := BeforeOnset(curve, onset, |curve|);
    match lead
    case None => IsFirstRun(Hits(curve[..n], threshold), m, None)
    case Some(l) => exists s | 0 <= s < n ::
      IsFirstRun(Hits(curve[..n], threshold), m, Some(s)) && l == onset - curve[s].ts
  }

  method LeadTimeForEpisode(curve: seq<Point>, onset: int, threshold: real, m: nat) returns (lead: Option<int>)
    requires m >= 1
    ensures IsLeadTime(curve, onset, threshold, m, lead)
  {
    ghost var n := BeforeOnset(curve, onset, |curve|);
    ghost var hit := Hits(curve[..n], threshold);
    var run := 0;
    var i := 0;
    while i < |curve|
      invariant 0 <= i <= n && 0 <= run < m && run <= i
      invariant forall k | i - run <= k < i :: hit[k]
      invariant run < i ==> !hit[i - run - 1]
      invariant forall s | s + m <= i :: !RunAt(hit, m, s)
    {
      if curve[i].ts >= onset { break; }
      assert hit[i] == (curve[i].p >= threshold);
      run := if curve[i].p >= threshold then run + 1 else 0;
      if run >= m {
        assert RunAt(hit, m, i - m + 1);
        assert IsFirstRun(hit, m, Some(i - m + 1));
        return Some(onset - curve[i - m + 1].ts);
      }
      BrokenRun(hit, m, i, run);
      i := i + 1;
    }
    return None;
  }

  /** From row s on, m rows before the onset reach the threshold. */
  ghost predicate Warns(curve: seq<Point>, onset: int, threshold: real, m: nat, s: int) {
    0 <= s && s + m <= |curve| && (forall k | s <= k < s + m :: curve[k].p >= threshold)
    && forall k | 0 <= k < s + m :: curve[k].ts < onset
  }

  lemma WarnsIsRun(curve: seq<Point>, onset: int, threshold: real, m: nat, s: int)
    requires m >= 1
    ensures Warns(curve, onset, threshold, m, s)
       <==> RunAt(Hits(curve[..BeforeOnset(curve, onset, |curve|)], threshold), m, s)
  {
    var n := BeforeOnset(curve, onset, |curve|);
    var hit := Hits(curve[..n], threshold);
    if RunAt(hit, m, s) {
      forall k | s <= k < s + m ensures curve[k].p >= threshold { assert hit[k]; }
    }
    if Warns(curve, onset, threshold, m, s) {
      if n < |curve| {
        assert curve[n].ts >= onset;
      }
      assert s + m <= n;
      forall k | s <= k < s + m ensures hit[k] { assert curve[k].p >= threshold; }
    }
  }

  /** The lead time, of the curve itself: from the first row that warns, if any does, to the onset. */
  lemma LeadTimeIs(curve: seq<Point>, onset: int, threshold: real, m: nat, lead: Option<int>)
    requires m >= 1
    ensures IsLeadTime(curve, onset, threshold, m, lead)
       <==> match lead
            case None => forall s :: !Warns(curve, onset, threshold, m, s)
            case Some(l) => exists s | 0 <= s < |curve| ::
              Warns(curve, onset, threshold, m, s) && l == onset - curve[s].ts
              && forall i | i < s :: !Warns(curve, onset, threshold, m, i)
  {
    forall s
      ensures Warns(curve, onset, threshold, m, s)
         <==> RunAt(Hits(curve[..BeforeOnset(curve, onset, |curve|)], threshold), m, s)
    {
      WarnsIsRun(curve, onset, threshold, m, s);
    }
  }

  /** A warning always precedes what it warns of. */
  lemma LeadIsPositive(curve: seq<Point>, onset: int, threshold: real, m: nat, lead: int)
    requires m >= 1 && IsLeadTime(curve, onset, threshold, m, Some(lead))
    ensures lead > 0
  {
    var n := BeforeOnset(curve, onset, |curve|);
    var s :| 0 <= s < n && IsFirstRun(Hits(curve[..n], threshold), m, Some(s)) && lead == onset - curve[s].ts;
    assert RunAt(Hits(curve[..n], threshold), m, s);
  }

  ghost predicate Chronological(curve: seq<Point>) {
    forall i, j | 0 <= i < j < |curve| :: curve[i].ts <= curve[j].ts
  }

  lemma HitsWeaken(curve: seq<Point>, low: real, high: real, m: nat, s: int)
    requires low <= high && RunAt(Hits(curve, high), m, s)
    ensures RunAt(Hits(curve, low), m, s)
  {
    forall k | s <= k < s + m ensures Hits(curve, low)[k] {
      assert Hits(curve, high)[k];
    }
  }

  /** Raising the threshold never lengthens a lead, and never makes one appear. */
  lemma StricterIsNoEarlier(curve: seq<Point>, onset: int, low: real, high: real, m: nat,
                            leadLow: Option<int>, leadHigh: Option<int>)
    requires m >= 1 && low <= high && Chronological(curve)
    requires IsLeadTime(curve, onset, low, m, leadLow) && IsLeadTime(curve, onset, high, m, leadHigh)
    ensures leadHigh.Some? ==> leadLow.Some? && leadHigh.value <= leadLow.value
  {
    if leadHigh.Some? {
      var n := BeforeOnset(curve, onset, |curve|);
      var hl, hh := Hits(curve[..n], low), Hits(curve[..n], high);
      var s :| 0 <= s < n && IsFirstRun(hh, m, Some(s)) && leadHigh.value == onset - curve[s].ts;
      HitsWeaken(curve[..n], low, high, m, s);
      if leadLow.Some? {
        var s' :| 0 <= s' < n && IsFirstRun(hl, m, Some(s')) && leadLow.value == onset - curve[s'].ts;
        assert RunAt(hl, m, s') && s' <= s;
      }
    }
  }

  // -------------------------------------------------------------- runs consecutive in time

  /** One scored window: its time, and whether the score reached the threshold. */
  datatype Scored = Scored(ts: int, hit: bool)

  ghost predicate TimedRunAt(xs: seq<Scored>, m: nat, w: int, i: int) {
    0 <= i && i + m <= |xs| && (forall k | i <= k < i + m :: xs[k].hit)
    && forall k | i < k < i + m :: xs[k].ts - xs[k - 1].ts == w
  }

  ghost predicate IsFirstTimedRun(xs: seq<Scored>, m: nat, w: int, r: Option<int>) {
    match r
    case None => forall i :: !TimedRunAt(xs, m, w, i)
    case Some(s) => TimedRunAt(xs, m, w, s) && forall i | i < s :: !TimedRunAt(xs, m, w, i)
  }

  /** Rows j - 1 and j, both hits, one window apart. */
  predicate Linked(xs: seq<Scored>, w: int, j: int) {
    0 < j < |xs| && xs[j - 1].hit && xs[j].hit && xs[j].ts - xs[j - 1].ts == w
  }

  lemma BrokenTimedRun(xs: seq<Scored>, m: nat, w: int, i: nat, run: nat)
    requires i < |xs| && run < m && run <= i + 1
    requires if run == 0 then !xs[i].hit else !Linked(xs, w, i + 1 - run)
    ensures !TimedRunAt(xs, m, w, i + 1 - m)
  {
    var j := i + 1 - run;
    assert j > 0 && run > 0 ==> (xs[j - 1].hit && xs[j].hit ==> xs[j].ts - xs[j - 1].ts != w);
  }

  /** The rows of the current run, and that none was missed before it. */
  ghost predicate Running(xs: seq<Scored>, m: nat, w: int, i: nat, run: nat) {
    && run <= i <= |xs|
    && (forall k | i - run <= k < i :: xs[k].hit)
    && (forall k | i - run < k < i :: xs[k].ts - xs[k - 1].ts == w)
    && (if run == 0 then i == 0 || !xs[i - 1].hit else !Linked(xs, w, i - run))
  }

  lemma RunningStep(xs: seq<Scored>, m: nat, w: int, i: nat, run: nat)
    requires i < |xs| && Running(xs, m, w, i, run)
    ensures var adjacent := i > 0 && xs[i].ts - xs[i - 1].ts == w;
            Running(xs, m, w, i + 1, if xs[i].hit then (if adjacent then run + 1 else 1) else 0)
  {
  }

  method FirstTimedRun(xs: seq<Scored>, m: nat, w: int) returns (r: Option<int>)
    requires m >= 1
    ensures IsFirstTimedRun(xs, m, w, r)
  {
    var run := 0;
    for i := 0 to |xs|
      invariant 0 <= run < m && Running(xs, m, w, i, run)
      invariant forall s | s + m <= i :: !TimedRunAt(xs, m, w, s)
    {
      RunningStep(xs, m, w, i, run);
      var adjacent := i > 0 && xs[i].ts - xs[i - 1].ts == w;
      run := if xs[i].hit then (if adjacent then run + 1 else 1) else 0;
      if run >= m {
        assert run == m && Running(xs, m, w, i + 1, m);
        return Some(i - m + 1);
      }
      BrokenTimedRun(xs, m, w, i, run);
    }
    return None;
  }

  /** Distinct rows are at least one window apart. */
  ghost predicate Spaced(xs: seq<Scored>, w: int) {
    forall i, j | 0 <= i < j < |xs| :: xs[j].ts - xs[i].ts >= w
  }

  /** sub keeps the rows of full at the given ascending positions. */
  ghost predicate IsSubsequence(full: seq<Scored>, sub: seq<Scored>, at: seq<nat>) {
    && |at| == |sub|
    && (forall k | 0 <= k < |at| :: at[k] < |full| && full[at[k]] == sub[k])
    && (forall k, l | 0 <= k < l < |at| :: at[k] < at[l])
  }

  /** Rows one window apart in a spaced table have no row between them. */
  lemma NoRowBetween(full: seq<Scored>, w: int, i: nat, j: nat)
    requires w > 0 && Spaced(full, w) && i < j < |full| && full[j].ts - full[i].ts == w
    ensures j == i + 1
  {
    var next := full[i + 1];
  }

  /** A run in the subsequence sits on consecutive rows of the full table. */
  lemma {:induction false} RunIsContiguous(full: seq<Scored>, sub: seq<Scored>, at: seq<nat>,
                                           m: nat, w: int, i: nat, k: nat)
    requires w > 0 && Spaced(full, w) && IsSubsequence(full, sub, at)
    requires TimedRunAt(sub, m, w, i) && k < m
    ensures at[i + k] == at[i] + k
  {
    if k > 0 {
      RunIsContiguous(full, sub, at, m, w, i, k - 1);
      assert sub[i + k].ts - sub[i + k - 1].ts == w;
      NoRowBetween(full, w, at[i + k - 1], at[i + k]);
    }
  }

  /** So it is a run there too. */
  lemma RunCarriesOver(full: seq<Scored>, sub: seq<Scored>, at: seq<nat>, m: nat, w: int, i: nat)
    requires m >= 1 && w > 0 && Spaced(full, w) && IsSubsequence(full, sub, at) && TimedRunAt(sub, m, w, i)
    ensures TimedRunAt(full, m, w, at[i])
  {
    RunIsContiguous(full, sub, at, m, w, i, m - 1);
    forall k | at[i] <= k < at[i] + m ensures full[k].hit {
      RunIsContiguous(full, sub, at, m, w, i, k - at[i]);
    }
    forall k | at[i] < k < at[i] + m ensures full[k].ts - full[k - 1].ts == w {
      RunIsContiguous(full, sub, at, m, w, i, k - at[i]);
      RunIsContiguous(full, sub, at, m, w, i, k - at[i] - 1);
    }
  }

  /**
  A run found on any subsequence of a spaced table is a run of the table itself, so
  dropping rows never makes a flag appear or come sooner.
  */
  lemma MissingWindowsOnlyHide(full: seq<Scored>, sub: seq<Scored>, at: seq<nat>, m: nat, w: int,
                               rFull: Option<int>, rSub: Option<int>)
    requires m >= 1 && w > 0 && Spaced(full, w) && IsSubsequence(full, sub, at)
    requires IsFirstTimedRun(full, m, w, rFull) && IsFirstTimedRun(sub, m, w, rSub)
    ensures rSub.Some? ==> rFull.Some? && 0 <= rFull.value < |full| && 0 <= rSub.value < |sub|
                           && full[rFull.value].ts <= sub[rSub.value].ts
  {
    if rSub.Some? {
      var i := rSub.value;
      assert TimedRunAt(sub, m, w, i);
      RunCarriesOver(full, sub, at, m, w, i);
      assert rFull.Some? && rFull.value <= at[i];
    }
  }
}
