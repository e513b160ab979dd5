/**
The episode lifecycle of one host: services/persister/episodes.py.

`Advance` is one step of the lifecycle. The random episode id is a
parameter. What the fold means is stated over forecast positions, far from the
code: `ClosedForm` for the state, `RowForm` for what is written to the database,
and `Confluence` for deliveries that repeat and reorder messages.
*/
module Episodes {
  import opened Options

  datatype OpenEpisode = OpenEpisode(
    id: nat, startedAt: int, peakRisk: real, stages: seq<string>,
    firstAlertAt: Option<int>, above: int, below: int)

  datatype HostState = HostState(lastTs: Option<int>, episode: Option<OpenEpisode>)

  const FRESH_HOST := HostState(None, None)

  datatype Transition = Transition(
    state: HostState, episode: Option<OpenEpisode>, opens: bool, closes: bool, endedAt: Option<int>)

  datatype Rules = Rules(riskThreshold: real, closeAfter: int, leadTimeM: int)

  datatype Summary = Summary(originTs: int, maxP: real, stage: string)

  function WithStage(stages: seq<string>, stage: string): seq<string> {
    if stage == "" || stage in stages then stages else stages + [stage]
  }

  function Fold(e: OpenEpisode, f: Summary, rules: Rules): OpenEpisode {
    var above := f.maxP >= rules.riskThreshold;
    var updated := e.(
      peakRisk := if f.maxP > e.peakRisk then f.maxP else e.peakRisk,
      stages := WithStage(e.stages, f.stage),
      above := if above then e.above + 1 else 0,
      below := if above then 0 else e.below + 1);
    if updated.firstAlertAt.None? && updated.above >= rules.leadTimeM
    then updated.(firstAlertAt := Some(f.originTs)) else updated
  }

  /** One forecast; `None` when its origin is not past the watermark. */
  function Advance(state: HostState, f: Summary, rules: Rules, freshId: nat): Option<Transition> {
    if state.lastTs.Some? && f.originTs <= state.lastTs.value then None
    else
      var seen := state.(lastTs := Some(f.originTs));
      var above := f.maxP >= rules.riskThreshold;
      match state.episode
      case None =>
        if !above then Some(Transition(seen, None, false, false, None))
        else
          var e := OpenEpisode(freshId, f.originTs, f.maxP, WithStage([], f.stage),
                               if rules.leadTimeM <= 1 then Some(f.originTs) else None, 1, 0);
          Some(Transition(seen.(episode := Some(e)), Some(e), true, false, None))
      case Some(e) =>
        var updated := Fold(e, f, rules);
        if !above && updated.below >= rules.closeAfter
        then Some(Transition(seen.(episode := None), Some(updated), false, true, Some(f.originTs)))
        else Some(Transition(seen.(episode := Some(updated)), Some(updated), false, false, None))
  }

  datatype Outcome = Outcome(state: HostState, transitions: seq<Transition>)

  /** One more delivery: a skipped one leaves everything as it was. */
  function Append(o: Outcome, f: Summary, rules: Rules, id: nat): Outcome {
    match Advance(o.state, f, rules, id)
    case None => o
    case Some(t) => Outcome(t.state, o.transitions + [t])
  }

  /** The outcome of the first n deliveries, from `FRESH_HOST`. */
  function Deliver(fs: seq<Summary>, ids: seq<nat>, rules: Rules, n: nat): Outcome
    requires n <= |fs| == |ids|
  {
    if n == 0 then Outcome(FRESH_HOST, [])
    else
      Append(Deliver(fs, ids, rules, n - 1), fs[n - 1], rules, ids[n - 1])
  }

  // ----------------------------------------------------- the watermark and its records

  predicate IsRecord(fs: seq<Summary>, i: nat)
    requires i < |fs|
  {
    forall j | 0 <= j < i :: fs[j].originTs < fs[i].originTs
  }

  /** The subsequence of strict running maxima of origin_ts among the first n. */
  function Records(fs: seq<Summary>, n: nat): seq<Summary>
    requires n <= |fs|
  {
    if n == 0 then []
    else Records(fs, n - 1) + (if IsRecord(fs, n - 1) then [fs[n - 1]] else [])
  }

  ghost predicate Increasing(fs: seq<Summary>) {
    forall i, j | 0 <= i < j < |fs| :: fs[i].originTs < fs[j].originTs
  }

  lemma {:induction false} RecordsIncrease(fs: seq<Summary>, n: nat)
    requires n <= |fs|
    ensures Increasing(Records(fs, n))
    ensures forall r | r in Records(fs, n) :: exists j | 0 <= j < n :: fs[j] == r
  {
    if n > 0 {
      RecordsIncrease(fs, n - 1);
      var init := Records(fs, n - 1);
      forall i | 0 <= i < |init| && IsRecord(fs, n - 1) ensures init[i].originTs < fs[n - 1].originTs {
        assert init[i] in init;
      }
    }
  }

  /** The stored watermark is the largest origin_ts delivered so far. */
  lemma {:induction false} WatermarkIsMax(fs: seq<Summary>, ids: seq<nat>, rules: Rules, n: nat)
    requires n <= |fs| == |ids|
    ensures var w := Deliver(fs, ids, rules, n).state.lastTs;
            if n == 0 then w.None?
            else w.Some? && (exists j | 0 <= j < n :: fs[j].originTs == w.value)
                 && (forall j | 0 <= j < n :: fs[j].originTs <= w.value)
  {
    if n > 0 {
      WatermarkIsMax(fs, ids, rules, n - 1);
      var w := Deliver(fs, ids, rules, n).state.lastTs;
      if Advance(Deliver(fs, ids, rules, n - 1).state, fs[n - 1], rules, ids[n - 1]).Some? {
        assert w == Some(fs[n - 1].originTs);
      }
    }
  }

  function EraseEpisode(e: Option<OpenEpisode>): Option<OpenEpisode> {
    if e.None? then None else Some(e.value.(id := 0))
  }

  function EraseState(s: HostState): HostState { s.(episode := EraseEpisode(s.episode)) }

  function EraseTransition(t: Transition): Transition {
    t.(state := EraseState(t.state), episode := EraseEpisode(t.episode))
  }

  function EraseAll(ts: seq<Transition>): seq<Transition> {
    seq(|ts|, i requires 0 <= i < |ts| => EraseTransition(ts[i]))
  }

  /** The lifecycle never looks at the episode id. */
  lemma AdvanceIgnoresId(s1: HostState, s2: HostState, f: Summary, rules: Rules, id1: nat, id2: nat)
    requires EraseState(s1) == EraseState(s2)
    ensures var t1, t2 := Advance(s1, f, rules, id1), Advance(s2, f, rules, id2);
            (t1.None? <==> t2.None?)
            && (t1.Some? ==> EraseTransition(t1.value) == EraseTransition(t2.value))
  {
    if s1.episode.Some? {
      assert Fold(s1.episode.value, f, rules).(id := 0) == Fold(s2.episode.value, f, rules).(id := 0);
    }
  }

  lemma {:induction false} DeliverPrefix(fs: seq<Summary>, ids: seq<nat>, more: seq<Summary>, moreIds: seq<nat>,
                                         rules: Rules, n: nat)
    requires n <= |fs| == |ids| && |more| == |moreIds|
    ensures Deliver(fs + more, ids + moreIds, rules, n) == Deliver(fs, ids, rules, n)
  {
    if n > 0 {
      DeliverPrefix(fs, ids, more, moreIds, rules, n - 1);
    }
  }

  lemma SameAdvance(o1: Outcome, o2: Outcome, f: Summary, rules: Rules, id1: nat, id2: nat)
    requires EraseState(o1.state) == EraseState(o2.state) && EraseAll(o1.transitions) == EraseAll(o2.transitions)
    ensures var o1', o2' := Append(o1, f, rules, id1), Append(o2, f, rules, id2);
            EraseState(o1'.state) == EraseState(o2'.state) && EraseAll(o1'.transitions) == EraseAll(o2'.transitions)
  {
    AdvanceIgnoresId(o1.state, o2.state, f, rules, id1, id2);
    var t1, t2 := Advance(o1.state, f, rules, id1), Advance(o2.state, f, rules, id2);
    if t1.Some? {
      assert EraseAll(o1.transitions + [t1.value]) == EraseAll(o1.transitions) + [EraseTransition(t1.value)];
      assert EraseAll(o2.transitions + [t2.value]) == EraseAll(o2.transitions) + [EraseTransition(t2.value)];
    }
  }

  /**
  Deliveries with duplicates and reordering end in the same state, and make the
  same transitions, as the strict running maxima alone: only the ids differ.
  */
  lemma {:induction false} Confluence(fs: seq<Summary>, ids: seq<nat>, ids': seq<nat>, rules: Rules, n: nat)
    requires n <= |fs| == |ids| && |ids'| == |Records(fs, n)|
    ensures var all, kept := Deliver(fs, ids, rules, n), Deliver(Records(fs, n), ids', rules, |ids'|);
            EraseState(all.state) == EraseState(kept.state)
            && EraseAll(all.transitions) == EraseAll(kept.transitions)
    decreases n
  {
    if n > 0 {
      var m := |Records(fs, n - 1)|;
      Confluence(fs, ids, ids'[..m], rules, n - 1);
      WatermarkIsMax(fs, ids, rules, n - 1);
      var before := Deliver(fs, ids, rules, n - 1);
      if IsRecord(fs, n - 1) {
        DeliverPrefix(Records(fs, n - 1), ids'[..m], [fs[n - 1]], [ids'[m]], rules, m);
        assert ids' == ids'[..m] + [ids'[m]];
        SameAdvance(before, Deliver(Records(fs, n - 1), ids'[..m], rules, m), fs[n - 1], rules, ids[n - 1], ids'[m]);
      } else {
        assert Records(fs, n) == Records(fs, n - 1) && ids'[..m] == ids';
        assert Advance(before.state, fs[n - 1], rules, ids[n - 1]).None?;
      }
    }
  }

  // -------------------------------------------------------------------- the closed form

  ghost predicate Hot(fs: seq<Summary>, rules: Rules, i: int) {
    0 <= i < |fs| && fs[i].maxP >= rules.riskThreshold
  }

  ghost predicate AllHot(fs: seq<Summary>, rules: Rules, lo: int, hi: int) {
    forall i | lo <= i < hi :: Hot(fs, rules, i)
  }

  ghost predicate AllCold(fs: seq<Summary>, rules: Rules, lo: int, hi: int) {
    forall i | lo <= i < hi :: !Hot(fs, rules, i)
  }

  /** s is hot, and nothing from b up to it is. */
  ghost predicate Starts(fs: seq<Summary>, rules: Rules, b: int, s: int) {
    b <= s && Hot(fs, rules, s) && AllCold(fs, rules, b, s)
  }

  /** Settings below one act as one. */
  ghost function CloseAfter(rules: Rules): nat { if rules.closeAfter < 1 then 1 else rules.closeAfter }

  ghost function LeadTime(rules: Rules): nat { if rules.leadTimeM < 1 then 1 else rules.leadTimeM }

  /** c ends `CloseAfter` below-threshold forecasts in a row, all after s. */
  ghost predicate Quiet(fs: seq<Summary>, rules: Rules, s: int, c: int) {
    s <= c - CloseAfter(rules) && AllCold(fs, rules, c - CloseAfter(rules) + 1, c + 1)
  }

  ghost predicate StillOpen(fs: seq<Summary>, rules: Rules, s: int, n: int) {
    forall c | s < c < n :: !Quiet(fs, rules, s, c)
  }

  /** b follows the forecast that closed an episode, or nothing has closed before it. */
  ghost predicate Boundary(fs: seq<Summary>, rules: Rules, b: nat) {
    b == 0 || exists b0: nat, s: nat | b0 <= s < b ::
      Boundary(fs, rules, b0) && Starts(fs, rules, b0, s)
      && StillOpen(fs, rules, s, b - 1) && s < b - 1 && Quiet(fs, rules, s, b - 1)
  }

  ghost predicate IsPeak(fs: seq<Summary>, s: nat, n: nat, peak: real)
    requires s < n <= |fs|
  {
    (exists i | s <= i < n :: fs[i].maxP == peak) && (forall i | s <= i < n :: fs[i].maxP <= peak)
  }

  /** The non-empty stages of [s, n), each once, in the order each first occurred. */
  ghost predicate IsArc(fs: seq<Summary>, s: nat, n: nat, stages: seq<string>)
    requires s < n <= |fs|
  {
    && (forall i | s <= i < n :: fs[i].stage == "" || fs[i].stage in stages)
    && (forall p | 0 <= p < |stages| :: stages[p] != "" && exists i | s <= i < n :: fs[i].stage == stages[p])
    && (forall p, q | 0 <= p < q < |stages| :: stages[p] != stages[q] && Precedes(fs, s, n, stages[p], stages[q]))
  }

  /** Some occurrence of a comes before every occurrence of b. */
  ghost predicate Precedes(fs: seq<Summary>, s: nat, n: nat, a: string, b: string)
    requires s < n <= |fs|
  {
    exists i | s <= i < n :: fs[i].stage == a && forall k | s <= k <= i :: fs[k].stage != b
  }

  ghost predicate AlertEnd(fs: seq<Summary>, rules: Rules, s: nat, i: nat) {
    s <= i - LeadTime(rules) + 1 && AllHot(fs, rules, i - LeadTime(rules) + 1, i + 1)
  }

  /** The first end, in [s, n), of LeadTime consecutive above-threshold forecasts. */
  ghost predicate IsFirstAlert(fs: seq<Summary>, rules: Rules, s: nat, n: nat, alert: Option<int>)
    requires s < n <= |fs|
  {
    match alert
    case None => forall i | s <= i < n :: !AlertEnd(fs, rules, s, i)
    case Some(t) => exists i | s <= i < n :: fs[i].originTs == t && AlertEnd(fs, rules, s, i)
                                             && forall j | s <= j < i :: !AlertEnd(fs, rules, s, j)
  }

  ghost predicate IsTrailing(fs: seq<Summary>, rules: Rules, s: nat, n: nat, above: int, below: int) {
    && 0 <= above <= n - s && AllHot(fs, rules, n - above, n) && (above < n - s ==> !Hot(fs, rules, n - above - 1))
    && 0 <= below < n - s && AllCold(fs, rules, n - below, n) && Hot(fs, rules, n - below - 1)
    && (above == 0 || below == 0)
  }

  /** e is the aggregate of the episode that started at position s, after n forecasts. */
  ghost predicate Aggregates(fs: seq<Summary>, rules: Rules, s: nat, n: nat, e: OpenEpisode)
    requires s < n <= |fs|
  {
    && e.startedAt == fs[s].originTs
    && IsPeak(fs, s, n, e.peakRisk)
    && IsArc(fs, s, n, e.stages)
    && IsTrailing(fs, rules, s, n, e.above, e.below)
    && IsFirstAlert(fs, rules, s, n, e.firstAlertAt)
  }

  ghost predicate OpenSpan(fs: seq<Summary>, rules: Rules, n: nat, b: nat, s: nat) {
    b <= s < n && Boundary(fs, rules, b) && Starts(fs, rules, b, s) && StillOpen(fs, rules, s, n)
  }

  /** What a host's state is after n forecasts, said about positions only. */
  ghost predicate ClosedForm(fs: seq<Summary>, rules: Rules, n: nat, episode: Option<OpenEpisode>)
    requires n <= |fs|
  {
    match episode
    case None => exists b: nat | b <= n :: Boundary(fs, rules, b) && AllCold(fs, rules, b, n)
    case Some(e) => exists b: nat, s: nat | b <= s < n ::
      OpenSpan(fs, rules, n, b, s) && Aggregates(fs, rules, s, n, e)
  }

  /** What the n-th forecast (counting from one) writes to the episodes table. */
  ghost predicate RowForm(fs: seq<Summary>, rules: Rules, n: nat, t: Transition)
    requires 0 < n <= |fs|
  {
    match t.episode
    case None => !t.opens && !t.closes && t.endedAt.None? && t.state.episode.None? && !Hot(fs, rules, n - 1)
    case Some(e) => exists b: nat, s: nat | b <= s < n ::
      && Boundary(fs, rules, b) && Starts(fs, rules, b, s) && StillOpen(fs, rules, s, n - 1)
      && Aggregates(fs, rules, s, n, e)
      && (t.opens <==> s == n - 1)
      && (t.closes <==> s < n - 1 && Quiet(fs, rules, s, n - 1))
      && t.endedAt == (if t.closes then Some(fs[n - 1].originTs) else None)
  }

  lemma PeakStep(fs: seq<Summary>, s: nat, n: nat, peak: real)
    requires s < n < |fs| && IsPeak(fs, s, n, peak)
    ensures IsPeak(fs, s, n + 1, if fs[n].maxP > peak then fs[n].maxP else peak)
  {
    if fs[n].maxP <= peak {
      var i :| s <= i < n && fs[i].maxP == peak;
      assert s <= i < n + 1;
    }
  }

  lemma ArcStep(fs: seq<Summary>, s: nat, n: nat, stages: seq<string>)
    requires s < n < |fs| && IsArc(fs, s, n, stages)
    ensures IsArc(fs, s, n + 1, WithStage(stages, fs[n].stage))
  {
    var next := WithStage(stages, fs[n].stage);
    forall p | 0 <= p < |next| ensures next[p] != "" && exists i | s <= i < n + 1 :: fs[i].stage == next[p] {
      if p < |stages| {
        var i :| s <= i < n && fs[i].stage == stages[p];
        assert fs[i].stage == next[p];
      } else {
        assert fs[n].stage == next[p];
      }
    }
    forall p, q | 0 <= p < q < |next|
      ensures next[p] != next[q] && Precedes(fs, s, n + 1, next[p], next[q])
    {
      if q < |stages| {
        assert Precedes(fs, s, n, stages[p], stages[q]);
        var i :| s <= i < n && fs[i].stage == stages[p] && forall k | s <= k <= i :: fs[k].stage != stages[q];
        assert fs[i].stage == next[p];
      } else {
        var i :| s <= i < n && fs[i].stage == stages[p];
        assert fs[i].stage == next[p];
      }
    }
  }

  lemma AlertStep(fs: seq<Summary>, rules: Rules, s: nat, n: nat, e: OpenEpisode)
    requires s < n < |fs| && Hot(fs, rules, s)
    requires IsTrailing(fs, rules, s, n, e.above, e.below)
    requires IsFirstAlert(fs, rules, s, n, e.firstAlertAt)
    ensures IsFirstAlert(fs, rules, s, n + 1, Fold(e, fs[n], rules).firstAlertAt)
  {
    var e' := Fold(e, fs[n], rules);
    if e.firstAlertAt.Some? {
      var i :| s <= i < n && fs[i].originTs == e.firstAlertAt.value && AlertEnd(fs, rules, s, i)
               && forall j | s <= j < i :: !AlertEnd(fs, rules, s, j);
      assert s <= i < n + 1;
    } else if e'.above >= rules.leadTimeM {
      assert LeadTime(rules) == 1 ==> AlertEnd(fs, rules, s, s);
      assert AlertEnd(fs, rules, s, n);
    } else {
      assert Hot(fs, rules, n) ==> e.above < n - s ==> !Hot(fs, rules, n - e.above - 1);
      assert !AlertEnd(fs, rules, s, n);
    }
  }

  lemma TrailingStep(fs: seq<Summary>, rules: Rules, s: nat, n: nat, e: OpenEpisode)
    requires s < n < |fs| && Hot(fs, rules, s) && IsTrailing(fs, rules, s, n, e.above, e.below)
    ensures IsTrailing(fs, rules, s, n + 1, Fold(e, fs[n], rules).above, Fold(e, fs[n], rules).below)
  {
  }

  lemma FoldStep(fs: seq<Summary>, rules: Rules, s: nat, n: nat, e: OpenEpisode)
    requires s < n < |fs| && Hot(fs, rules, s)
    requires Aggregates(fs, rules, s, n, e)
    ensures Aggregates(fs, rules, s, n + 1, Fold(e, fs[n], rules))
  {
    PeakStep(fs, s, n, e.peakRisk);
    TrailingStep(fs, rules, s, n, e);
    ArcStep(fs, s, n, e.stages);
    AlertStep(fs, rules, s, n, e);
  }

  lemma OpeningAggregates(fs: seq<Summary>, rules: Rules, n: nat, id: nat)
    requires n < |fs| && Hot(fs, rules, n)
    ensures var t := Advance(HostState(None, None), fs[n], rules, id);
            t.Some? && t.value.episode.Some? && Aggregates(fs, rules, n, n + 1, t.value.episode.value)
  {
    var e := Advance(HostState(None, None), fs[n], rules, id).value.episode.value;
    assert fs[n].maxP == e.peakRisk;
    forall p | 0 <= p < |e.stages| ensures exists i | n <= i < n + 1 :: fs[i].stage == e.stages[p] {
      assert fs[n].stage == e.stages[p];
    }
    if rules.leadTimeM <= 1 {
      assert AlertEnd(fs, rules, n, n);
    }
  }

  /** The counter test of the code is the positional notion of closing. */
  lemma QuietIffClosing(fs: seq<Summary>, rules: Rules, s: nat, n: nat, e: OpenEpisode)
    requires s < n < |fs| && Hot(fs, rules, s)
    requires IsTrailing(fs, rules, s, n, e.above, e.below)
    ensures Quiet(fs, rules, s, n) <==> !Hot(fs, rules, n) && Fold(e, fs[n], rules).below >= rules.closeAfter
  {
  }

  lemma IdleStep(fs: seq<Summary>, rules: Rules, n: nat, state: HostState, id: nat)
    requires n < |fs|
    requires state.lastTs.Some? ==> state.lastTs.value < fs[n].originTs
    requires state.episode.None? && ClosedForm(fs, rules, n, state.episode)
    ensures var t := Advance(state, fs[n], rules, id).value;
            ClosedForm(fs, rules, n + 1, t.state.episode) && RowForm(fs, rules, n + 1, t)
  {
    var b: nat :| b <= n && Boundary(fs, rules, b) && AllCold(fs, rules, b, n);
    if Hot(fs, rules, n) {
      OpeningAggregates(fs, rules, n, id);
      assert OpenSpan(fs, rules, n + 1, b, n);
      assert StillOpen(fs, rules, n, n);
    } else {
      assert AllCold(fs, rules, b, n + 1);
    }
  }

  lemma OpenStepAt(fs: seq<Summary>, rules: Rules, n: nat, e: OpenEpisode, b: nat, s: nat)
    requires b <= s < n < |fs| && OpenSpan(fs, rules, n, b, s) && Aggregates(fs, rules, s, n, e)
    ensures var e' := Fold(e, fs[n], rules);
            var closing := !Hot(fs, rules, n) && e'.below >= rules.closeAfter;
            Aggregates(fs, rules, s, n + 1, e') && (closing <==> Quiet(fs, rules, s, n))
            && ClosedForm(fs, rules, n + 1, if closing then None else Some(e'))
  {
    FoldStep(fs, rules, s, n, e);
    QuietIffClosing(fs, rules, s, n, e);
    if Quiet(fs, rules, s, n) {
      assert Boundary(fs, rules, n + 1);
      assert AllCold(fs, rules, n + 1, n + 1);
    } else {
      assert OpenSpan(fs, rules, n + 1, b, s);
    }
  }

  lemma OpenRowForm(fs: seq<Summary>, rules: Rules, n: nat, e: OpenEpisode, b: nat, s: nat, t: Transition)
    requires b <= s < n < |fs| && OpenSpan(fs, rules, n, b, s)
    requires t.episode == Some(Fold(e, fs[n], rules)) && Aggregates(fs, rules, s, n + 1, t.episode.value)
    requires !t.opens && (t.closes <==> Quiet(fs, rules, s, n))
    requires t.endedAt == if t.closes then Some(fs[n].originTs) else None
    ensures RowForm(fs, rules, n + 1, t)
  {
  }

  /** What one forecast does to an open episode. */
  lemma OpenAdvances(state: HostState, f: Summary, rules: Rules, id: nat)
    requires state.episode.Some? && (state.lastTs.Some? ==> state.lastTs.value < f.originTs)
    ensures var e := Fold(state.episode.value, f, rules);
            var closing := f.maxP < rules.riskThreshold && e.below >= rules.closeAfter;
            Advance(state, f, rules, id)
            == Some(Transition(HostState(Some(f.originTs), if closing then None else Some(e)), Some(e), false, closing,
                               if closing then Some(f.originTs) else None))
  {
  }

  lemma OpenStep(fs: seq<Summary>, rules: Rules, n: nat, state: HostState, id: nat, t: Transition)
    requires n < |fs| && Advance(state, fs[n], rules, id) == Some(t)
    requires state.lastTs.Some? ==> state.lastTs.value < fs[n].originTs
    requires state.episode.Some? && ClosedForm(fs, rules, n, state.episode)
    ensures ClosedForm(fs, rules, n + 1, t.state.episode) && RowForm(fs, rules, n + 1, t)
  {
    var e := state.episode.value;
    var b: nat, s: nat :| b <= s < n && OpenSpan(fs, rules, n, b, s) && Aggregates(fs, rules, s, n, e);
    OpenAdvances(state, fs[n], rules, id);
    OpenStepAt(fs, rules, n, e, b, s);
    OpenRowForm(fs, rules, n, e, b, s, t);
  }

  lemma AdvanceStep(fs: seq<Summary>, rules: Rules, n: nat, state: HostState, id: nat)
    requires n < |fs|
    requires state.lastTs.Some? ==> state.lastTs.value < fs[n].originTs
    requires ClosedForm(fs, rules, n, state.episode)
    ensures var t := Advance(state, fs[n], rules, id);
            t.Some? && ClosedForm(fs, rules, n + 1, t.value.state.episode) && RowForm(fs, rules, n + 1, t.value)
  {
    if state.episode.None? {
      IdleStep(fs, rules, n, state, id);
    } else {
      OpenAdvances(state, fs[n], rules, id);
      OpenStep(fs, rules, n, state, id, Advance(state, fs[n], rules, id).value);
    }
  }

  ghost predicate FormAfter(fs: seq<Summary>, rules: Rules, n: nat, o: Outcome)
    requires n <= |fs|
  {
    && ClosedForm(fs, rules, n, o.state.episode)
    && |o.transitions| == n
    && (n > 0 ==> RowForm(fs, rules, n, o.transitions[n - 1]))
  }

  lemma AppendStep(fs: seq<Summary>, rules: Rules, n: nat, o: Outcome, id: nat)
    requires n < |fs| && FormAfter(fs, rules, n, o)
    requires o.state.lastTs.Some? ==> o.state.lastTs.value < fs[n].originTs
    ensures FormAfter(fs, rules, n + 1, Append(o, fs[n], rules, id))
  {
    AdvanceStep(fs, rules, n, o.state, id);
  }

  lemma NothingIsLate(fs: seq<Summary>, ids: seq<nat>, rules: Rules, n: nat)
    requires n < |fs| == |ids| && Increasing(fs)
    ensures var w := Deliver(fs, ids, rules, n).state.lastTs;
            w.Some? ==> w.value < fs[n].originTs
  {
    WatermarkIsMax(fs, ids, rules, n);
  }

  /**
  Over every strictly increasing stream: each forecast is accepted, the state it
  leaves has the closed form, and the row it writes has the row form.
  */
  lemma {:induction false} EpisodeClosedForm(fs: seq<Summary>, ids: seq<nat>, rules: Rules, n: nat)
    requires n <= |fs| == |ids| && Increasing(fs)
    ensures ClosedForm(fs, rules, n, Deliver(fs, ids, rules, n).state.episode)
    ensures |Deliver(fs, ids, rules, n).transitions| == n
    ensures n > 0 ==> RowForm(fs, rules, n, Deliver(fs, ids, rules, n).transitions[n - 1])
  {
    if n == 0 {
      assert Boundary(fs, rules, 0) && AllCold(fs, rules, 0, 0);
    } else {
      EpisodeClosedForm(fs, ids, rules, n - 1);
      NothingIsLate(fs, ids, rules, n - 1);
      AppendStep(fs, rules, n - 1, Deliver(fs, ids, rules, n - 1), ids[n - 1]);
    }
  }

  lemma RowFormIgnoresId(fs: seq<Summary>, rules: Rules, n: nat, t: Transition, t': Transition)
    requires 0 < n <= |fs| && RowForm(fs, rules, n, t) && EraseTransition(t) == EraseTransition(t')
    ensures RowForm(fs, rules, n, t')
  {
    if t.episode.Some? {
      var e, e' := t.episode.value, t'.episode.value;
      assert e.(id := 0) == e'.(id := 0);
      var b: nat, s: nat :| b <= s < n && Boundary(fs, rules, b) && Starts(fs, rules, b, s)
        && StillOpen(fs, rules, s, n - 1) && Aggregates(fs, rules, s, n, e)
        && (t.opens <==> s == n - 1) && (t.closes <==> s < n - 1 && Quiet(fs, rules, s, n - 1));
      assert Aggregates(fs, rules, s, n, e');
    }
  }

  lemma {:induction false} TransitionsStay(fs: seq<Summary>, ids: seq<nat>, rules: Rules, n: nat, m: nat)
    requires n <= m <= |fs| == |ids|
    ensures Deliver(fs, ids, rules, n).transitions <= Deliver(fs, ids, rules, m).transitions
  {
    if n < m {
      TransitionsStay(fs, ids, rules, n, m - 1);
    }
  }

  lemma RecordRowHasForm(fs: seq<Summary>, ids: seq<nat>, rules: Rules, i: nat)
    requires i < |fs| == |ids| && Increasing(fs)
    ensures |Deliver(fs, ids, rules, |fs|).transitions| == |fs|
    ensures RowForm(fs, rules, i + 1, Deliver(fs, ids, rules, |fs|).transitions[i])
  {
    var early, all := Deliver(fs, ids, rules, i + 1).transitions, Deliver(fs, ids, rules, |fs|).transitions;
    EpisodeClosedForm(fs, ids, rules, |fs|);
    EpisodeClosedForm(fs, ids, rules, i + 1);
    TransitionsStay(fs, ids, rules, i + 1, |fs|);
    assert early[i] == all[i];
  }

  lemma SameErased(ts: seq<Transition>, ts': seq<Transition>)
    requires EraseAll(ts) == EraseAll(ts')
    ensures |ts| == |ts'|
    ensures forall i | 0 <= i < |ts| :: EraseTransition(ts[i]) == EraseTransition(ts'[i])
  {
    assert |EraseAll(ts)| == |EraseAll(ts')|;
    forall i | 0 <= i < |ts|
      ensures EraseTransition(ts[i]) == EraseTransition(ts'[i])
    {
      assert EraseAll(ts)[i] == EraseAll(ts')[i];
    }
  }

  lemma RowFormMoves(fs: seq<Summary>, rules: Rules, kept: seq<Transition>, ts: seq<Transition>, i: nat)
    requires i < |kept| == |fs| && RowForm(fs, rules, i + 1, kept[i]) && EraseAll(ts) == EraseAll(kept)
    ensures |ts| == |fs| && RowForm(fs, rules, i + 1, ts[i])
  {
    SameErased(ts, kept);
    RowFormIgnoresId(fs, rules, i + 1, kept[i], ts[i]);
  }

  lemma SameTransitions(fs: seq<Summary>, ids: seq<nat>, ids': seq<nat>, rules: Rules)
    requires |fs| == |ids| && |ids'| == |Records(fs, |fs|)|
    ensures var kept := Deliver(Records(fs, |fs|), ids', rules, |ids'|).transitions;
            |kept| == |ids'| && EraseAll(Deliver(fs, ids, rules, |fs|).transitions) == EraseAll(kept)
            && |Deliver(fs, ids, rules, |fs|).transitions| == |kept|
  {
    Confluence(fs, ids, ids', rules, |fs|);
    RecordsIncrease(fs, |fs|);
    EpisodeClosedForm(Records(fs, |fs|), ids', rules, |ids'|);
    SameErased(Deliver(fs, ids, rules, |fs|).transitions, Deliver(Records(fs, |fs|), ids', rules, |ids'|).transitions);
  }

  /** Any delivery order writes, row by row, what the closed form says of its records. */
  lemma EveryRowHasForm(fs: seq<Summary>, ids: seq<nat>, rules: Rules, i: nat)
    requires |fs| == |ids|
    requires i < |Deliver(fs, ids, rules, |fs|).transitions|
    ensures i < |Records(fs, |fs|)|
    ensures RowForm(Records(fs, |fs|), rules, i + 1, Deliver(fs, ids, rules, |fs|).transitions[i])
  {
    var records, ts := Records(fs, |fs|), Deliver(fs, ids, rules, |fs|).transitions;
    var ids' := seq(|records|, j => 0);
    SameTransitions(fs, ids, ids', rules);
    RecordsIncrease(fs, |fs|);
    RecordRowHasForm(records, ids', rules, i);
    RowFormMoves(records, rules, Deliver(records, ids', rules, |ids'|).transitions, ts, i);
  }

  /** Both results together: any delivery order has the closed form of its records. */
  lemma AnyDeliveryHasClosedForm(fs: seq<Summary>, ids: seq<nat>, rules: Rules)
    requires |fs| == |ids|
    ensures var records := Records(fs, |fs|);
            exists e :: EraseEpisode(e) == EraseEpisode(Deliver(fs, ids, rules, |fs|).state.episode)
                        && ClosedForm(records, rules, |records|, e)
  {
    var records := Records(fs, |fs|);
    var ids' := seq(|records|, i => 0);
    RecordsIncrease(fs, |fs|);
    Confluence(fs, ids, ids', rules, |fs|);
    EpisodeClosedForm(records, ids', rules, |records|);
  }
}
