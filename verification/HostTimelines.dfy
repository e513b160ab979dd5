/**
 * The rows of one host in the published stream: they are the host's own timeline,
 * so what is proved of `Timeline` holds of every run of the worker.
 */
module HostTimelines {
  import opened Options
  import opened Events
  import opened Increments
  import opened Numbers
  import opened Features
  import opened WindowTotals
  import T = Timeline
  import Orders

  function PointOf(r: Row, host: int): seq<T.Point> {
    if r.host == host then [r.point] else []
  }

  function PointsOf(rows: seq<Row>, host: int): seq<T.Point> {
    if rows == [] then [] else PointsOf(rows[..|rows| - 1], host) + PointOf(rows[|rows| - 1], host)
  }

  function SampleOf(r: Row, host: int): seq<T.Sample> {
    if r.host == host && r.point.cell.seen then [T.Sample(r.point.cell.ts, r.point.cell.x)] else []
  }

  /** The windows the host was active in, with their tracked values. */
  function SamplesOf(rows: seq<Row>, host: int): seq<T.Sample> {
    if rows == [] then [] else SamplesOf(rows[..|rows| - 1], host) + SampleOf(rows[|rows| - 1], host)
  }

  predicate SeenIffWindow(rows: seq<Row>) {
    forall r | r in rows :: r.window.Some? <==> r.point.cell.seen
  }

  lemma {:induction false} PointsConcat(a: seq<Row>, b: seq<Row>, host: int)
    ensures PointsOf(a + b, host) == PointsOf(a, host) + PointsOf(b, host)
    decreases |b|
  {
    if b == [] {
      assert a + b == a;
    } else {
      assert (a + b)[..|a + b| - 1] == a + b[..|b| - 1];
      PointsConcat(a, b[..|b| - 1], host);
    }
  }

  lemma {:induction false} SamplesConcat(a: seq<Row>, b: seq<Row>, host: int)
    ensures SamplesOf(a + b, host) == SamplesOf(a, host) + SamplesOf(b, host)
    decreases |b|
  {
    if b == [] {
      assert a + b == a;
    } else {
      assert (a + b)[..|a + b| - 1] == a + b[..|b| - 1];
      SamplesConcat(a, b[..|b| - 1], host);
    }
  }

  lemma {:induction false} OthersRows(rows: seq<Row>, host: int)
    requires forall r | r in rows :: r.host != host
    ensures PointsOf(rows, host) == [] && SamplesOf(rows, host) == []
  {
    if rows != [] {
      OthersRows(rows[..|rows| - 1], host);
    }
  }

  lemma {:induction false} OwnPoints(host: int, win: Window, points: seq<T.Point>)
    ensures PointsOf(RowsOf(host, win, points), host) == points
  {
    if points != [] {
      var init := points[..|points| - 1];
      OwnPoints(host, win, init);
      assert RowsOf(host, win, points)[..|points| - 1] == RowsOf(host, win, init);
    }
  }

  lemma {:induction false} SilentSamples(rows: seq<Row>, host: int)
    requires forall r | r in rows :: !r.point.cell.seen
    ensures SamplesOf(rows, host) == []
  {
    if rows != [] {
      SilentSamples(rows[..|rows| - 1], host);
    }
  }

  lemma OwnSamples(host: int, win: Window, points: seq<T.Point>, q: T.Sample)
    requires |points| > 0 && points[|points| - 1].cell == T.Cell(q.ts, true, q.x)
    requires forall i | 0 <= i < |points| - 1 :: !points[i].cell.seen
    ensures SamplesOf(RowsOf(host, win, points), host) == [q]
  {
    SilentSamples(RowsOf(host, win, points)[..|points| - 1], host);
  }

  // ------------------------------------------------- rows are the timeline

  /** The history kept for a host, and its rows, are those of its own timeline. */
  ghost predicate OnTimeline(cfg: Config, s: State, rows: seq<Row>, host: int)
    requires cfg.delta > 0
  {
    T.Trace(PaceOf(cfg), SamplesOf(rows, host)) == (PrevAt(s, host), PointsOf(rows, host))
  }

  lemma TimelineGrows(p: T.Pace, prev: Option<T.Prev>, rows: seq<Row>, more: seq<Row>, q: T.Sample, host: int)
    requires p.delta > 0 && T.Trace(p, SamplesOf(rows, host)) == (prev, PointsOf(rows, host))
    requires SamplesOf(more, host) == [q] && PointsOf(more, host) == T.Emit(p, prev, q).1
    ensures T.Trace(p, SamplesOf(rows + more, host)) == (Some(T.Emit(p, prev, q).0), PointsOf(rows + more, host))
  {
    PointsConcat(rows, more, host);
    SamplesConcat(rows, more, host);
    T.TraceSnoc(p, SamplesOf(rows, host), q);
  }

  lemma OwnRows(p: T.Pace, prev: Option<T.Prev>, host: int, win: Window, q: T.Sample)
    requires p.delta > 0
    ensures var points := T.Emit(p, prev, q).1;
            SamplesOf(RowsOf(host, win, points), host) == [q] && PointsOf(RowsOf(host, win, points), host) == points
  {
    var points := T.Emit(p, prev, q).1;
    EmitShape(p, prev, q);
    OwnPoints(host, win, points);
    OwnSamples(host, win, points, q);
  }

  lemma EmitHostTouches(cfg: Config, s: State, w: int, h: int, host: int)
    requires cfg.delta > 0 && h != host
    ensures PrevAt(EmitHost(cfg, s, w, h).0, host) == PrevAt(s, host)
    ensures forall r | r in EmitHost(cfg, s, w, h).1 :: r.host == h
  {
  }

  lemma OtherRowsKeep(p: T.Pace, prev: Option<T.Prev>, rows: seq<Row>, more: seq<Row>, host: int)
    requires p.delta > 0 && T.Trace(p, SamplesOf(rows, host)) == (prev, PointsOf(rows, host))
    requires forall r | r in more :: r.host != host
    ensures T.Trace(p, SamplesOf(rows + more, host)) == (prev, PointsOf(rows + more, host))
  {
    OthersRows(more, host);
    PointsConcat(rows, more, host);
    SamplesConcat(rows, more, host);
    assert SamplesOf(rows, host) + [] == SamplesOf(rows, host);
    assert PointsOf(rows, host) + [] == PointsOf(rows, host);
  }

  lemma EmitHostOnTimeline(cfg: Config, s: State, rows: seq<Row>, w: int, h: int, host: int)
    requires cfg.delta > 0 && OnTimeline(cfg, s, rows, host)
    ensures var e := EmitHost(cfg, s, w, h);
            OnTimeline(cfg, e.0, rows + e.1, host)
  {
    if h == host {
      var win := WindowOf(cfg, s, h, w);
      var q := T.Sample(w, Track(cfg, h, win));
      OwnRows(PaceOf(cfg), PrevAt(s, h), h, win, q);
      TimelineGrows(PaceOf(cfg), PrevAt(s, h), rows, EmitHost(cfg, s, w, h).1, q, host);
    } else {
      EmitHostTouches(cfg, s, w, h, host);
      OtherRowsKeep(PaceOf(cfg), PrevAt(s, host), rows, EmitHost(cfg, s, w, h).1, host);
    }
  }

  lemma {:induction false} EmitAllOnTimeline(cfg: Config, s: State, rows: seq<Row>, w: int, hosts: seq<int>, host: int)
    requires cfg.delta > 0 && OnTimeline(cfg, s, rows, host)
    ensures var e := EmitAll(cfg, s, w, hosts);
            OnTimeline(cfg, e.0, rows + e.1, host)
  {
    if hosts == [] {
      assert rows + [] == rows;
    } else {
      var init, h := hosts[..|hosts| - 1], hosts[|hosts| - 1];
      assert hosts == init + [h];
      EmitAllOnTimeline(cfg, s, rows, w, init, host);
      EmitAllSnoc(cfg, s, w, init, h);
      var a := EmitAll(cfg, s, w, init);
      var e := EmitHost(cfg, a.0, w, h);
      EmitHostOnTimeline(cfg, a.0, rows + a.1, w, h, host);
      T.Regroup(rows, a.1, e.1, a.1 + e.1);
    }
  }

  lemma TimelineReadsPrev(cfg: Config, s: State, s': State, rows: seq<Row>, host: int)
    requires cfg.delta > 0 && OnTimeline(cfg, s, rows, host) && s'.prev == s.prev
    ensures OnTimeline(cfg, s', rows, host)
  {
  }

  lemma CloseOnTimeline(cfg: Config, s: State, rows: seq<Row>, w: int, host: int)
    requires cfg.delta > 0 && OnTimeline(cfg, s, rows, host)
    ensures var c := CloseWindow(cfg, s, w);
            OnTimeline(cfg, c.0, rows + c.1, host)
  {
    var hosts := Orders.Ascend(HostsAt(s, w));
    EmitAllOnTimeline(cfg, s, rows, w, hosts, host);
    var e := EmitAll(cfg, s, w, hosts);
    TimelineReadsPrev(cfg, e.0, Discard(cfg, e.0, w, HostsAt(s, w)), rows + e.1, host);
  }

  lemma ClosingOnTimeline(cfg: Config, s: State, rows: seq<Row>, a: Action, host: int)
    requires cfg.delta > 0 && OnTimeline(cfg, s, rows, host)
    ensures var c := Closing(cfg, s, a);
            OnTimeline(cfg, c.0, rows + c.1, host)
  {
    assert rows + [] == rows;
    if s.current.Some? {
      CloseOnTimeline(cfg, s, rows, s.current.value.w, host);
    }
  }

  lemma StepOnTimeline(cfg: Config, s: State, rows: seq<Row>, a: Action, host: int)
    requires cfg.delta > 0 && OnTimeline(cfg, s, rows, host)
    ensures var e := Step(cfg, s, a);
            OnTimeline(cfg, e.0, rows + e.1, host)
  {
    OnlyClosingPublishes(cfg, s, a);
    ClosingOnTimeline(cfg, s, rows, a, host);
    var c := Closing(cfg, s, a);
    TimelineReadsPrev(cfg, c.0, Step(cfg, s, a).0, rows + c.1, host);
  }

  /** On every run, each host's rows are the timeline of the windows it was active in. */
  lemma {:induction false} RowsAreTimelines(cfg: Config, actions: seq<Action>, host: int)
    requires cfg.delta > 0
    ensures OnTimeline(cfg, Run(cfg, actions).0, Run(cfg, actions).1, host)
  {
    if actions != [] {
      var init := actions[..|actions| - 1];
      RowsAreTimelines(cfg, init, host);
      StepOnTimeline(cfg, Run(cfg, init).0, Run(cfg, init).1, actions[|actions| - 1], host);
    }
  }

  // --------------------------------------- the windows a host was active in

  function WindowsOf(es: seq<Entry>, host: int): seq<int> {
    if es == [] then []
    else WindowsOf(es[..|es| - 1], host) + if es[|es| - 1].host == host then [es[|es| - 1].ts] else []
  }

  function Times(samples: seq<T.Sample>): seq<int> {
    seq(|samples|, i requires 0 <= i < |samples| => samples[i].ts)
  }

  lemma {:induction false} WindowsConcat(a: seq<Entry>, b: seq<Entry>, host: int)
    ensures WindowsOf(a + b, host) == WindowsOf(a, host) + WindowsOf(b, host)
    decreases |b|
  {
    if b == [] {
      assert a + b == a;
    } else {
      assert (a + b)[..|a + b| - 1] == a + b[..|b| - 1];
      WindowsConcat(a, b[..|b| - 1], host);
    }
  }

  lemma TimesConcat(a: seq<T.Sample>, b: seq<T.Sample>)
    ensures Times(a + b) == Times(a) + Times(b)
  {
  }

  lemma EntryTimes(r: Row, host: int)
    requires r.window.Some? <==> r.point.cell.seen
    ensures Times(SampleOf(r, host)) == WindowsOf(EntryOf(r), host)
  {
  }

  lemma {:induction false} SampleTimes(rows: seq<Row>, host: int)
    requires SeenIffWindow(rows)
    ensures Times(SamplesOf(rows, host)) == WindowsOf(Entries(rows), host)
  {
    if rows != [] {
      var init, r := rows[..|rows| - 1], rows[|rows| - 1];
      SampleTimes(init, host);
      EntryTimes(r, host);
      TimesConcat(SamplesOf(init, host), SampleOf(r, host));
      WindowsConcat(Entries(init), EntryOf(r), host);
    }
  }

  lemma {:induction false} DistinctHostsWindows(es: seq<Entry>, host: int, w: int)
    requires forall i, j | 0 <= i < j < |es| :: es[i].host != es[j].host
    requires forall en | en in es :: en.ts == w
    ensures WindowsOf(es, host) == if exists en :: en in es && en.host == host then [w] else []
  {
    if es != [] {
      var init, last := es[..|es| - 1], es[|es| - 1];
      assert es == init + [last] && last in es;
      DistinctHostsWindows(init, host, w);
      assert forall en | en in init :: en.host != last.host;
    }
  }

  lemma SegmentWindows(delta: int, seg: Segment, host: int)
    requires delta > 0
    ensures WindowsOf(SegmentEntries(delta, seg), host)
         == if host in Sources(delta, seg.events, seg.w) then [seg.w] else []
  {
    var es := SegmentEntries(delta, seg);
    DistinctHostsWindows(es, host, seg.w);
    if host in Sources(delta, seg.events, seg.w) {
      assert (host, seg.w) in SegmentKeys(delta, seg);
      var en := KeyHasEntry(delta, seg, host);
    }
  }

  /** The closed windows in which the host was a source, in the order they closed. */
  function HostWindows(delta: int, closed: seq<Segment>, host: int): seq<int>
    requires delta > 0
  {
    if closed == [] then []
    else
      var seg := closed[|closed| - 1];
      HostWindows(delta, closed[..|closed| - 1], host)
      + if host in Sources(delta, seg.events, seg.w) then [seg.w] else []
  }

  predicate StrictlyIncreasing(ts: seq<int>) {
    forall i | 0 < i < |ts| :: ts[i - 1] < ts[i]
  }

  lemma {:induction false} ClosedEntryWindows(delta: int, closed: seq<Segment>, host: int)
    requires delta > 0
    ensures WindowsOf(ClosedEntries(delta, closed), host) == HostWindows(delta, closed, host)
  {
    if closed != [] {
      var init, seg := closed[..|closed| - 1], closed[|closed| - 1];
      ClosedEntryWindows(delta, init, host);
      WindowsConcat(ClosedEntries(delta, init), SegmentEntries(delta, seg), host);
      SegmentWindows(delta, seg, host);
    }
  }

  function Multiple(q: int, delta: int): int {
    q * delta
  }

  ghost predicate Aligned(delta: int, w: int)
    requires delta > 0
  {
    exists q: int :: Multiple(q, delta) == w
  }

  lemma AlignIsMultiple(ts: int, delta: int)
    requires delta > 0
    ensures Align(ts, delta) == Multiple(ts / delta, delta)
  {
  }

  lemma {:induction false} HostWindowsAligned(delta: int, closed: seq<Segment>, host: int)
    requires delta > 0
    ensures forall t | t in HostWindows(delta, closed, host) :: Aligned(delta, t)
  {
    if closed != [] {
      var seg := closed[|closed| - 1];
      HostWindowsAligned(delta, closed[..|closed| - 1], host);
      if host in Sources(delta, seg.events, seg.w) {
        var e :| e in seg.events && Align(e.ts, delta) == seg.w;
        AlignIsMultiple(e.ts, delta);
      }
    }
  }

  lemma AlignedApart(delta: int, a: int, b: int)
    requires delta > 0 && Aligned(delta, a) && Aligned(delta, b)
    ensures (b - a) % delta == 0
  {
    var q: int :| Multiple(q, delta) == a;
    var r: int :| Multiple(r, delta) == b;
    assert r * delta - q * delta == (r - q) * delta;
    MultipleRemainder(r - q, delta);
  }

  lemma {:induction false} RunSeenIffWindow(cfg: Config, actions: seq<Action>)
    requires cfg.delta > 0
    ensures SeenIffWindow(Run(cfg, actions).1)
  {
    if actions != [] {
      var init := actions[..|actions| - 1];
      RunSeenIffWindow(cfg, init);
      var s := Run(cfg, init).0;
      if s.current.Some? {
        EmitAllSeenIffWindow(cfg, s, s.current.value.w, Orders.Ascend(HostsAt(s, s.current.value.w)));
      }
    }
  }

  lemma {:induction false} EmitAllSeenIffWindow(cfg: Config, s: State, w: int, hosts: seq<int>)
    requires cfg.delta > 0
    ensures SeenIffWindow(EmitAll(cfg, s, w, hosts).1)
  {
    if hosts != [] {
      EmitAllSeenIffWindow(cfg, s, w, hosts[..|hosts| - 1]);
    }
  }

  lemma AlignedSamples(p: T.Pace, samples: seq<T.Sample>)
    requires p.delta > 0 && forall t | t in Times(samples) :: Aligned(p.delta, t)
    ensures T.OneGrid(p, samples)
  {
    forall i | 0 < i < |samples|
      ensures (samples[i].ts - samples[i - 1].ts) % p.delta == 0
    {
      assert Times(samples)[i] in Times(samples) && Times(samples)[i - 1] in Times(samples);
      AlignedApart(p.delta, samples[i - 1].ts, samples[i].ts);
    }
  }

  lemma SampleTimesAreHostWindows(cfg: Config, actions: seq<Action>, host: int)
    requires cfg.delta > 0
    ensures Times(SamplesOf(Run(cfg, actions).1, host)) == HostWindows(cfg.delta, LogOf(cfg, actions).closed, host)
  {
    RunSeenIffWindow(cfg, actions);
    SampleTimes(Run(cfg, actions).1, host);
    RunIsGroupBySegments(cfg, actions);
    ClosedEntryWindows(cfg.delta, LogOf(cfg, actions).closed, host);
  }

  /** The windows a host was active in, as the log has them. */
  lemma SamplesAreHostWindows(cfg: Config, actions: seq<Action>, host: int)
    requires cfg.delta > 0
    ensures Times(SamplesOf(Run(cfg, actions).1, host)) == HostWindows(cfg.delta, LogOf(cfg, actions).closed, host)
    ensures T.OneGrid(PaceOf(cfg), SamplesOf(Run(cfg, actions).1, host))
  {
    SampleTimesAreHostWindows(cfg, actions, host);
    HostWindowsAligned(cfg.delta, LogOf(cfg, actions).closed, host);
    AlignedSamples(PaceOf(cfg), SamplesOf(Run(cfg, actions).1, host));
  }

  /** This host never comes back to a window, or to one before it; what other hosts do is their own affair. */
  predicate HostForward(cfg: Config, actions: seq<Action>, host: int)
    requires cfg.delta > 0
  {
    StrictlyIncreasing(HostWindows(cfg.delta, LogOf(cfg, actions).closed, host))
  }

  lemma IncreasingIffForward(cfg: Config, actions: seq<Action>, host: int)
    requires cfg.delta > 0
    ensures T.Increasing(SamplesOf(Run(cfg, actions).1, host)) <==> HostForward(cfg, actions, host)
  {
    SamplesAreHostWindows(cfg, actions, host);
    var samples := SamplesOf(Run(cfg, actions).1, host);
    assert forall i | 0 <= i < |samples| :: Times(samples)[i] == samples[i].ts;
  }

  lemma {:induction false} ForwardHostWindows(delta: int, closed: seq<Segment>, host: int)
    requires delta > 0 && forall i, j | 0 <= i < j < |closed| :: closed[i].w < closed[j].w
    ensures StrictlyIncreasing(HostWindows(delta, closed, host))
    ensures forall t | t in HostWindows(delta, closed, host) :: t <= closed[|closed| - 1].w
  {
    if closed != [] {
      var init := closed[..|closed| - 1];
      ForwardHostWindows(delta, init, host);
      var ts := HostWindows(delta, init, host);
      if ts != [] {
        assert ts[|ts| - 1] in ts && init[|init| - 1].w < closed[|closed| - 1].w;
      }
      assert forall t | t in ts :: t <= closed[|closed| - 1].w;
    }
  }

  /** If the tenant's windows only move forward, so do every host's. */
  lemma ForwardIsHostForward(cfg: Config, actions: seq<Action>, host: int)
    requires cfg.delta > 0 && Forward(LogOf(cfg, actions))
    ensures HostForward(cfg, actions, host)
  {
    ForwardHostWindows(cfg.delta, LogOf(cfg, actions).closed, host);
  }

  // ------------------------------------------------------------ main results

  /**
   * While a host's windows move forward, its rows are the batch table of each stretch between
   * restarts, every active row with the batch differences and slopes.
   */
  lemma StreamingRefinesBatch(cfg: Config, actions: seq<Action>, host: int)
    requires cfg.delta > 0 && HostForward(cfg, actions, host)
    ensures var rows := Run(cfg, actions).1;
            PointsOf(rows, host) == T.Joined(PaceOf(cfg), T.Stretches(PaceOf(cfg), SamplesOf(rows, host)))
  {
    RowsAreTimelines(cfg, actions, host);
    IncreasingIffForward(cfg, actions, host);
    T.TraceIsOnlineBatch(PaceOf(cfg), SamplesOf(Run(cfg, actions).1, host));
  }

  predicate AllZero(xs: seq<real>) {
    forall i | 0 <= i < |xs| :: xs[i] == 0.0
  }

  /** One window length apart, or more than the maximum gap apart with nothing carried over. */
  predicate Spaced(delta: int, maxGap: int, a: T.Point, b: T.Point) {
    var step := b.cell.ts - a.cell.ts;
    step == delta || (step > (maxGap + 1) * delta && AllZero(b.deltas) && AllZero(b.slopes))
  }

  lemma UniformIsSpaced(p: T.Pace, points: seq<T.Point>, i: nat)
    requires T.Uniform(p, points) && 0 < i < |points|
    ensures Spaced(p.delta, p.maxGap, points[i - 1], points[i])
  {
    assert T.Neighbours(p, points[i - 1], points[i]);
  }

  /** While a host's windows move forward, its rows keep the pace the configuration sets. */
  lemma RowsAreSpaced(cfg: Config, actions: seq<Action>, host: int, i: nat)
    requires cfg.delta > 0 && cfg.maxGap >= 0 && HostForward(cfg, actions, host)
    requires 0 < i < |PointsOf(Run(cfg, actions).1, host)|
    ensures var points := PointsOf(Run(cfg, actions).1, host);
            Spaced(cfg.delta, cfg.maxGap, points[i - 1], points[i])
  {
    HostTimelineIsUniformIff(cfg, actions, host);
    UniformIsSpaced(PaceOf(cfg), PointsOf(Run(cfg, actions).1, host), i);
  }

  /** A host's time axis is uniform, restarts aside, exactly when its closed windows strictly increase. */
  lemma HostTimelineIsUniformIff(cfg: Config, actions: seq<Action>, host: int)
    requires cfg.delta > 0 && cfg.maxGap >= 0
    ensures T.Uniform(PaceOf(cfg), PointsOf(Run(cfg, actions).1, host)) <==> HostForward(cfg, actions, host)
  {
    RowsAreTimelines(cfg, actions, host);
    SamplesAreHostWindows(cfg, actions, host);
    IncreasingIffForward(cfg, actions, host);
    T.TimelineIsUniformIff(PaceOf(cfg), SamplesOf(Run(cfg, actions).1, host));
  }
}
