/**
 * The stream against a batch computed from events alone: group the published events
 * by window, build each window's graph, count each peer at its first window, and
 * gap-fill. Nothing here looks at what the worker published.
 */
module BatchTimelines {
  import opened Options
  import opened Events
  import opened Increments
  import opened EdgeSets
  import opened Features
  import opened WindowTotals
  import opened WindowGraphs
  import opened HostTimelines
  import T = Timeline
  import Orders

  // ------------------------------------------------------------- the batch

  function WindowSet(delta: int, events: seq<Event>, host: int): set<int>
    requires delta > 0
  {
    set e | e in events && e.src == Some(host) :: Align(e.ts, delta)
  }

  /** The windows the host sent anything in, in order. */
  function BatchWindows(delta: int, events: seq<Event>, host: int): seq<int>
    requires delta > 0
  {
    Orders.Ascend(WindowSet(delta, events, host))
  }

  function BatchPeers(delta: int, events: seq<Event>, host: int, w: int): set<int>
    requires delta > 0
  {
    Succ(EdgesAt(delta, events, w), host)
  }

  /** Everyone the host contacted in the given windows. */
  function PeersIn(delta: int, events: seq<Event>, host: int, ws: seq<int>): set<int>
    requires delta > 0
  {
    if ws == [] then {}
    else PeersIn(delta, events, host, ws[..|ws| - 1]) + BatchPeers(delta, events, host, ws[|ws| - 1])
  }

  function BatchWindow(delta: int, events: seq<Event>, host: int, earlier: seq<int>, w: int): Window
    requires delta > 0
  {
    Window(GroupBy(delta, events, host, w), EdgesAt(delta, events, w), EdgesAt(delta, events, w - delta),
           |BatchPeers(delta, events, host, w) - PeersIn(delta, events, host, earlier)|)
  }

  /** The tracked values of every window of a host, from the events alone. */
  function BatchSamples(cfg: Config, events: seq<Event>, host: int): seq<T.Sample>
    requires cfg.delta > 0
  {
    var ws := BatchWindows(cfg.delta, events, host);
    seq(|ws|, i requires 0 <= i < |ws| =>
      T.Sample(ws[i], Track(cfg, host, BatchWindow(cfg.delta, events, host, ws[..i], ws[i]))))
  }

  // ------------------------------------- active rows and what they were made of

  function ActiveRow(r: Row, host: int): seq<Row> {
    if r.host == host && r.window.Some? then [r] else []
  }

  function ActiveOf(rows: seq<Row>, host: int): (active: seq<Row>)
    ensures forall r | r in active :: r in rows && r.host == host && r.window.Some?
  {
    if rows == [] then [] else ActiveOf(rows[..|rows| - 1], host) + ActiveRow(rows[|rows| - 1], host)
  }

  function SampleFrom(r: Row): T.Sample {
    T.Sample(r.point.cell.ts, r.point.cell.x)
  }

  lemma {:induction false} SamplesFromActive(rows: seq<Row>, host: int)
    requires SeenIffWindow(rows)
    ensures |SamplesOf(rows, host)| == |ActiveOf(rows, host)|
    ensures forall i | 0 <= i < |ActiveOf(rows, host)| ::
              SamplesOf(rows, host)[i] == SampleFrom(ActiveOf(rows, host)[i])
  {
    if rows != [] {
      assert rows[|rows| - 1] in rows;
      SamplesFromActive(rows[..|rows| - 1], host);
    }
  }

  lemma {:induction false} WinsFromActive(rows: seq<Row>, host: int)
    ensures |WinsOf(rows, host)| == |ActiveOf(rows, host)|
    ensures forall i | 0 <= i < |ActiveOf(rows, host)| ::
              WinsOf(rows, host)[i] == ActiveOf(rows, host)[i].window.value
  {
    if rows != [] {
      WinsFromActive(rows[..|rows| - 1], host);
    }
  }

  /** Every active row's tracked values are computed from the window it records. */
  ghost predicate TracksWindow(cfg: Config, rows: seq<Row>) {
    forall r | r in rows && r.window.Some? :: r.point.cell.x == Track(cfg, r.host, r.window.value)
  }

  lemma EmitHostTracks(cfg: Config, s: State, w: int, h: int)
    requires cfg.delta > 0
    ensures TracksWindow(cfg, EmitHost(cfg, s, w, h).1)
  {
    EmitShape(PaceOf(cfg), PrevAt(s, h), T.Sample(w, Track(cfg, h, WindowOf(cfg, s, h, w))));
  }

  lemma {:induction false} EmitAllTracks(cfg: Config, s: State, w: int, hosts: seq<int>)
    requires cfg.delta > 0
    ensures TracksWindow(cfg, EmitAll(cfg, s, w, hosts).1)
  {
    if hosts != [] {
      var init, h := hosts[..|hosts| - 1], hosts[|hosts| - 1];
      assert hosts == init + [h];
      EmitAllTracks(cfg, s, w, init);
      EmitAllSnoc(cfg, s, w, init, h);
      EmitHostTracks(cfg, EmitAll(cfg, s, w, init).0, w, h);
    }
  }

  lemma ClosingTracks(cfg: Config, s: State, a: Action)
    requires cfg.delta > 0
    ensures TracksWindow(cfg, Closing(cfg, s, a).1)
  {
    if s.current.Some? {
      EmitAllTracks(cfg, s, s.current.value.w, Orders.Ascend(HostsAt(s, s.current.value.w)));
    }
  }

  lemma {:induction false} RunTracks(cfg: Config, actions: seq<Action>)
    requires cfg.delta > 0
    ensures TracksWindow(cfg, Run(cfg, actions).1)
  {
    if actions != [] {
      var init, a := actions[..|actions| - 1], actions[|actions| - 1];
      var s := Run(cfg, init).0;
      RunTracks(cfg, init);
      ClosingTracks(cfg, s, a);
      OnlyClosingPublishes(cfg, s, a);
    }
  }

  // ------------------------------------------------------ the same windows

  lemma {:induction false} LastIsAbove(a: seq<int>, i: nat)
    requires StrictlyIncreasing(a) && i < |a| - 1
    ensures a[i] < a[|a| - 1]
    decreases |a| - i
  {
    assert a[i + 1 - 1] < a[i + 1];
    if i + 1 < |a| - 1 {
      LastIsAbove(a, i + 1);
    }
  }

  lemma SomeElement(a: seq<int>) returns (t: int)
    requires a != []
    ensures t in a
  {
    t := a[0];
  }

  /** The elements before the last one are those below it. */
  lemma LastIsLargest(a: seq<int>, t: int)
    requires StrictlyIncreasing(a) && a != []
    ensures t in a ==> t <= a[|a| - 1]
    ensures t in a[..|a| - 1] <==> t in a && t < a[|a| - 1]
  {
    var last := |a| - 1;
    var init := a[..last];
    if t in a {
      var i :| 0 <= i < |a| && a[i] == t;
      if i < last {
        LastIsAbove(a, i);
        assert init[i] == t;
      }
    }
    if t in init {
      var i :| 0 <= i < last && init[i] == t;
      LastIsAbove(a, i);
    }
  }

  lemma SameLast(a: seq<int>, b: seq<int>)
    requires StrictlyIncreasing(a) && StrictlyIncreasing(b) && a != [] && b != []
    requires a[|a| - 1] in b && b[|b| - 1] in a
    ensures a[|a| - 1] == b[|b| - 1]
  {
    LastIsLargest(a, b[|b| - 1]);
    LastIsLargest(b, a[|a| - 1]);
  }

  lemma {:induction false} SameElements(a: seq<int>, b: seq<int>)
    requires StrictlyIncreasing(a) && StrictlyIncreasing(b) && forall t :: t in a <==> t in b
    ensures a == b
    decreases |a|
  {
    if a != [] && b != [] {
      var la, lb := a[|a| - 1], b[|b| - 1];
      assert la in a && lb in b;
      assert la in b && lb in a;
      SameLast(a, b);
      var a', b' := a[..|a| - 1], b[..|b| - 1];
      forall t
        ensures t in a' <==> t in b'
      {
        LastIsLargest(a, t);
        LastIsLargest(b, t);
      }
      assert StrictlyIncreasing(a') && StrictlyIncreasing(b');
      SameElements(a', b');
      assert a == a' + [a[|a| - 1]] && b == b' + [b[|b| - 1]];
    } else if a != [] {
      var _ := SomeElement(a);
    } else if b != [] {
      var _ := SomeElement(b);
    }
  }

  lemma {:induction false} HostWindowsAreSent(delta: int, closed: seq<Segment>, host: int, w: int)
    requires delta > 0 && WellCut(delta, closed)
    ensures w in HostWindows(delta, closed, host) <==> w in WindowSet(delta, ClosedEvents(closed), host)
  {
    if closed != [] {
      var init, seg := closed[..|closed| - 1], closed[|closed| - 1];
      assert seg in closed;
      HostWindowsAreSent(delta, init, host, w);
      WindowSetConcat(delta, ClosedEvents(init), seg.events, host);
      SegmentWindowSet(delta, seg, host);
    }
  }

  lemma WindowSetConcat(delta: int, a: seq<Event>, b: seq<Event>, host: int)
    requires delta > 0
    ensures WindowSet(delta, a + b, host) == WindowSet(delta, a, host) + WindowSet(delta, b, host)
  {
    assert forall e :: e in a + b <==> e in a || e in b;
  }

  lemma SegmentWindowSet(delta: int, seg: Segment, host: int)
    requires delta > 0 && AllIn(delta, seg.events, seg.w)
    ensures WindowSet(delta, seg.events, host) == if host in Sources(delta, seg.events, seg.w) then {seg.w} else {}
  {
    if host in Sources(delta, seg.events, seg.w) {
      var e :| e in seg.events && e.src.Some? && Align(e.ts, delta) == seg.w && e.src.value == host;
      assert e.src == Some(host);
    }
  }

  /** The windows published for a host are the windows it sent something in. */
  lemma SameWindows(cfg: Config, actions: seq<Action>, host: int)
    requires cfg.delta > 0 && HostForward(cfg, actions, host)
    ensures var closed := LogOf(cfg, actions).closed;
            Times(SamplesOf(Run(cfg, actions).1, host)) == BatchWindows(cfg.delta, ClosedEvents(closed), host)
  {
    var closed := LogOf(cfg, actions).closed;
    RunIsGroupBySegments(cfg, actions);
    SampleTimesAreHostWindows(cfg, actions, host);
    var ws := BatchWindows(cfg.delta, ClosedEvents(closed), host);
    forall t
      ensures t in HostWindows(cfg.delta, closed, host) <==> t in ws
    {
      HostWindowsAreSent(cfg.delta, closed, host, t);
    }
    SameElements(HostWindows(cfg.delta, closed, host), ws);
  }

  // --------------------------------------------- one segment for each of its windows

  lemma {:induction false} SegmentIsHostWindow(delta: int, closed: seq<Segment>, host: int, i: nat)
    requires delta > 0 && i < |closed| && host in Sources(delta, closed[i].events, closed[i].w)
    ensures closed[i].w in HostWindows(delta, closed, host)
  {
    if i < |closed| - 1 {
      SegmentIsHostWindow(delta, closed[..|closed| - 1], host, i);
    }
  }

  lemma IncreasingPrefix(a: seq<int>, b: seq<int>)
    requires StrictlyIncreasing(a + b)
    ensures StrictlyIncreasing(a)
  {
    forall i | 0 < i < |a|
      ensures a[i - 1] < a[i]
    {
      assert (a + b)[i - 1] < (a + b)[i];
    }
  }

  lemma {:induction false} LaterSegmentIsLater(delta: int, closed: seq<Segment>, host: int, i: nat, j: nat)
    requires delta > 0 && i < j < |closed| && StrictlyIncreasing(HostWindows(delta, closed, host))
    requires host in Sources(delta, closed[i].events, closed[i].w)
    requires host in Sources(delta, closed[j].events, closed[j].w)
    ensures closed[i].w < closed[j].w
  {
    var init, seg := closed[..|closed| - 1], closed[|closed| - 1];
    var before := HostWindows(delta, init, host);
    if j < |init| {
      IncreasingPrefix(before, if host in Sources(delta, seg.events, seg.w) then [seg.w] else []);
      LaterSegmentIsLater(delta, init, host, i, j);
    } else {
      SegmentIsHostWindow(delta, init, host, i);
      LastIsLargest(before + [seg.w], closed[i].w);
      assert (before + [seg.w])[..|before|] == before;
    }
  }

  /** No other segment has anything of the host in the window of this one. */
  lemma OnlySegment(delta: int, closed: seq<Segment>, host: int, i: nat)
    requires delta > 0 && i < |closed| && StrictlyIncreasing(HostWindows(delta, closed, host))
    requires host in Sources(delta, closed[i].events, closed[i].w)
    ensures forall j | 0 <= j < |closed| && j != i :: (host, closed[i].w) !in SegmentKeys(delta, closed[j])
  {
    forall j | 0 <= j < |closed| && j != i
      ensures (host, closed[i].w) !in SegmentKeys(delta, closed[j])
    {
      InSegmentKeys(delta, closed[j], host);
      if host in Sources(delta, closed[j].events, closed[j].w) {
        LaterSegmentIsLater(delta, closed, host, if i < j then i else j, if i < j then j else i);
      }
    }
  }

  // ---------------------------------------------------------- the same rows

  /** What the tracked values of a host read of a window, apart from the windows before it. */
  predicate OwnPart(delta: int, events: seq<Event>, host: int, win: Window, w: int)
    requires delta > 0
  {
    && win.acc == GroupBy(delta, events, host, w)
    && Succ(win.graph, host) == BatchPeers(delta, events, host, w)
    && Peers(win.acc) == BatchPeers(delta, events, host, w)
  }

  lemma HostGroupBy(delta: int, closed: seq<Segment>, en: Entry)
    requires delta > 0 && WellCut(delta, closed) && en in ClosedEntries(delta, closed)
    requires StrictlyIncreasing(HostWindows(delta, closed, en.host))
    ensures en.acc == GroupBy(delta, ClosedEvents(closed), en.host, en.ts)
  {
    var i := EntryHasSegment(delta, closed, en);
    SegmentEntryCounts(delta, closed[i], en);
    InSegmentKeys(delta, closed[i], en.host);
    OnlySegment(delta, closed, en.host, i);
    OnlyOneMatches(delta, closed, i, en.host, en.ts);
  }

  lemma RowAccOfHost(cfg: Config, actions: seq<Action>, r: Row)
    requires cfg.delta > 0 && HostForward(cfg, actions, r.host) && r in Run(cfg, actions).1 && r.window.Some?
    ensures r.window.value.acc
         == GroupBy(cfg.delta, ClosedEvents(LogOf(cfg, actions).closed), r.host, r.point.cell.ts)
  {
    RowHasEntry(Run(cfg, actions).1, r);
    RunIsGroupBySegments(cfg, actions);
    HostGroupBy(cfg.delta, LogOf(cfg, actions).closed, Entry(r.host, r.point.cell.ts, r.window.value.acc));
  }

  lemma {:induction false} RowHasInputs(rows: seq<Row>, r: Row)
    requires r in rows && r.window.Some?
    ensures Inputs(r.host, r.point.cell.ts, r.window.value.graph, r.window.value.previous) in InputsOf(rows)
  {
    if r != rows[|rows| - 1] {
      assert r in rows[..|rows| - 1];
      RowHasInputs(rows[..|rows| - 1], r);
    }
  }

  lemma {:induction false} InputsHaveSegment(delta: int, closed: seq<Segment>, x: Inputs) returns (i: nat)
    requires delta > 0 && x in ClosedInputs(delta, closed)
    ensures i < |closed| && x in SegmentInputs(delta, closed[..i], closed[i])
  {
    i := |closed| - 1;
    if x !in SegmentInputs(delta, closed[..i], closed[i]) {
      i := InputsHaveSegment(delta, closed[..i], x);
      assert closed[..|closed| - 1][..i] == closed[..i];
    }
  }

  lemma {:induction false} SinceHasNone(delta: int, closed: seq<Segment>, y: int, host: int, w: int)
    requires delta > 0 && WellCut(delta, closed)
    requires forall j | 0 <= j < |closed| :: (host, w) !in SegmentKeys(delta, closed[j])
    ensures GroupBy(delta, Since(closed, y), host, w) == map[]
  {
    if closed != [] && closed[|closed| - 1].w != y {
      var init, seg := closed[..|closed| - 1], closed[|closed| - 1];
      SinceHasNone(delta, init, y, host, w);
      NotAKey(delta, seg, host, w);
      GroupByConcat(delta, Since(init, y), seg.events, host, w);
      MergeEmpty(map[]);
    }
  }

  lemma HostGroupByKept(delta: int, closed: seq<Segment>, i: nat, y: int, host: int, w: int)
    requires delta > 0 && WellCut(delta, closed) && i < |closed| && closed[i].w == w
    requires forall j | 0 <= j < |closed| && j != i :: (host, w) !in SegmentKeys(delta, closed[j])
    ensures GroupBy(delta, Since(closed[..i], y) + closed[i].events, host, w)
         == GroupBy(delta, ClosedEvents(closed), host, w)
  {
    assert forall seg | seg in closed[..i] :: seg in closed;
    SinceHasNone(delta, closed[..i], y, host, w);
    GroupByConcat(delta, Since(closed[..i], y), closed[i].events, host, w);
    MergeEmpty(GroupBy(delta, closed[i].events, host, w));
    OnlyOneMatches(delta, closed, i, host, w);
  }

  lemma InputsRead(delta: int, before: seq<Segment>, seg: Segment, x: Inputs)
    requires delta > 0 && x in SegmentInputs(delta, before, seg)
    ensures x.ts == seg.w && x.host in Sources(delta, seg.events, seg.w)
    ensures x.graph == EdgesAt(delta, Since(before, seg.w + delta) + seg.events, seg.w)
  {
  }

  /** Whatever the shared graph still holds of earlier segments, none of it is this host's. */
  lemma SegmentSuccessors(delta: int, closed: seq<Segment>, host: int, i: nat, kept: seq<Event>)
    requires delta > 0 && WellCut(delta, closed) && i < |closed|
    requires StrictlyIncreasing(HostWindows(delta, closed, host))
    requires host in Sources(delta, closed[i].events, closed[i].w)
    requires kept == Since(closed[..i], closed[i].w + delta)
    ensures Succ(EdgesAt(delta, kept + closed[i].events, closed[i].w), host)
         == BatchPeers(delta, ClosedEvents(closed), host, closed[i].w)
  {
    var w := closed[i].w;
    assert GroupBy(delta, kept + closed[i].events, host, w) == GroupBy(delta, ClosedEvents(closed), host, w) by {
      OnlySegment(delta, closed, host, i);
      HostGroupByKept(delta, closed, i, w + delta, host, w);
    }
    PeersAreSuccessors(delta, kept + closed[i].events, host, w);
    PeersAreSuccessors(delta, ClosedEvents(closed), host, w);
  }

  lemma HostSuccessors(delta: int, closed: seq<Segment>, x: Inputs)
    requires delta > 0 && WellCut(delta, closed) && x in ClosedInputs(delta, closed)
    requires StrictlyIncreasing(HostWindows(delta, closed, x.host))
    ensures Succ(x.graph, x.host) == BatchPeers(delta, ClosedEvents(closed), x.host, x.ts)
  {
    var i := InputsHaveSegment(delta, closed, x);
    InputsRead(delta, closed[..i], closed[i], x);
    SegmentSuccessors(delta, closed, x.host, i, Since(closed[..i], closed[i].w + delta));
  }

  lemma RowSuccOfHost(cfg: Config, actions: seq<Action>, r: Row)
    requires cfg.delta > 0 && HostForward(cfg, actions, r.host) && r in Run(cfg, actions).1 && r.window.Some?
    ensures Succ(r.window.value.graph, r.host)
         == BatchPeers(cfg.delta, ClosedEvents(LogOf(cfg, actions).closed), r.host, r.point.cell.ts)
  {
    RowHasInputs(Run(cfg, actions).1, r);
    RunIsGroupBySegments(cfg, actions);
    RowsReadKeptGraphs(cfg, actions);
    HostSuccessors(cfg.delta, LogOf(cfg, actions).closed,
                   Inputs(r.host, r.point.cell.ts, r.window.value.graph, r.window.value.previous));
  }

  /** A row of a host that never comes back was computed from what the host sent in its window. */
  lemma RowIsBatchWindow(cfg: Config, actions: seq<Action>, r: Row)
    requires cfg.delta > 0 && HostForward(cfg, actions, r.host) && r in Run(cfg, actions).1 && r.window.Some?
    ensures OwnPart(cfg.delta, ClosedEvents(LogOf(cfg, actions).closed), r.host, r.window.value, r.point.cell.ts)
  {
    RowAccOfHost(cfg, actions, r);
    RowSuccOfHost(cfg, actions, r);
    PeersAreSuccessors(cfg.delta, ClosedEvents(LogOf(cfg, actions).closed), r.host, r.point.cell.ts);
  }

  lemma {:induction false} PeersAreFirstSeen(delta: int, events: seq<Event>, host: int, wins: seq<Window>, ws: seq<int>)
    requires delta > 0 && |wins| == |ws|
    requires forall i | 0 <= i < |ws| :: Peers(wins[i].acc) == BatchPeers(delta, events, host, ws[i])
    ensures AllPeers(wins) == PeersIn(delta, events, host, ws)
  {
    if wins != [] {
      PeersAreFirstSeen(delta, events, host, wins[..|wins| - 1], ws[..|ws| - 1]);
    }
  }

  lemma TrackIsBatch(cfg: Config, events: seq<Event>, host: int, wins: seq<Window>, ws: seq<int>, i: nat)
    requires cfg.delta > 0 && i < |wins| == |ws| && CountsNew(wins)
    requires forall j | 0 <= j < |ws| :: OwnPart(cfg.delta, events, host, wins[j], ws[j])
    ensures Track(cfg, host, wins[i]) == Track(cfg, host, BatchWindow(cfg.delta, events, host, ws[..i], ws[i]))
  {
    PeersAreFirstSeen(cfg.delta, events, host, wins[..i], ws[..i]);
  }

  lemma SamplesOfOwnParts(cfg: Config, events: seq<Event>, host: int, rows: seq<Row>)
    requires cfg.delta > 0 && SeenIffWindow(rows) && TracksWindow(cfg, rows) && CountsNew(WinsOf(rows, host))
    requires Times(SamplesOf(rows, host)) == BatchWindows(cfg.delta, events, host)
    requires forall r | r in ActiveOf(rows, host) ::
               OwnPart(cfg.delta, events, host, r.window.value, r.point.cell.ts)
    ensures SamplesOf(rows, host) == BatchSamples(cfg, events, host)
  {
    var samples, wins, active := SamplesOf(rows, host), WinsOf(rows, host), ActiveOf(rows, host);
    var ws, batch := BatchWindows(cfg.delta, events, host), BatchSamples(cfg, events, host);
    SamplesFromActive(rows, host);
    WinsFromActive(rows, host);
    forall i | 0 <= i < |wins|
      ensures wins[i] == active[i].window.value && ws[i] == samples[i].ts == active[i].point.cell.ts
      ensures OwnPart(cfg.delta, events, host, wins[i], ws[i])
    {
      assert Times(samples)[i] == samples[i].ts;
      assert active[i] in active;
    }
    forall i | 0 <= i < |samples|
      ensures samples[i] == batch[i]
    {
      assert active[i] in active;
      TrackIsBatch(cfg, events, host, wins, ws, i);
    }
  }

  /** The samples the stream publishes for a host are those of the batch over the published events. */
  lemma SamplesAreBatch(cfg: Config, actions: seq<Action>, host: int)
    requires cfg.delta > 0 && HostForward(cfg, actions, host)
    ensures SamplesOf(Run(cfg, actions).1, host) == BatchSamples(cfg, ClosedEvents(LogOf(cfg, actions).closed), host)
  {
    var rows, events := Run(cfg, actions).1, ClosedEvents(LogOf(cfg, actions).closed);
    SameWindows(cfg, actions, host);
    RunSeenIffWindow(cfg, actions);
    RunTracks(cfg, actions);
    PeersAreCountedOnce(cfg, actions, host);
    forall r | r in ActiveOf(rows, host)
      ensures OwnPart(cfg.delta, events, host, r.window.value, r.point.cell.ts)
    {
      RowIsBatchWindow(cfg, actions, r);
    }
    SamplesOfOwnParts(cfg, events, host, rows);
  }

  /** The gap-filled table of a host computed from events alone, stretch by stretch, silent rows blanked. */
  function BatchTable(cfg: Config, events: seq<Event>, host: int): seq<T.Point>
    requires cfg.delta > 0
  {
    T.Joined(PaceOf(cfg), T.Stretches(PaceOf(cfg), BatchSamples(cfg, events, host)))
  }

  lemma {:induction false} AlignedWindows(delta: int, events: seq<Event>, host: int, t: int)
    requires delta > 0 && t in BatchWindows(delta, events, host)
    ensures Aligned(delta, t)
  {
    var e :| e in events && e.src == Some(host) && Align(e.ts, delta) == t;
    AlignIsMultiple(e.ts, delta);
  }

  /** Whatever the run did, the batch table is uniform: its windows are sorted and on one grid. */
  lemma BatchTableIsUniform(cfg: Config, events: seq<Event>, host: int)
    requires cfg.delta > 0 && cfg.maxGap >= 0
    ensures T.Uniform(PaceOf(cfg), BatchTable(cfg, events, host))
  {
    var samples := BatchSamples(cfg, events, host);
    assert Times(samples) == BatchWindows(cfg.delta, events, host);
    forall t | t in Times(samples)
      ensures Aligned(cfg.delta, t)
    {
      AlignedWindows(cfg.delta, events, host, t);
    }
    AlignedSamples(PaceOf(cfg), samples);
    T.TimelineIsUniformIff(PaceOf(cfg), samples);
    T.TraceIsOnlineBatch(PaceOf(cfg), samples);
  }

  /**
   * End to end, and exactly: the rows published for a host are the batch table of the published
   * events if and only if the host never comes back to a window, or to one before it.
   */
  lemma StreamIsBatchIff(cfg: Config, actions: seq<Action>, host: int)
    requires cfg.delta > 0 && cfg.maxGap >= 0
    ensures PointsOf(Run(cfg, actions).1, host) == BatchTable(cfg, ClosedEvents(LogOf(cfg, actions).closed), host)
            <==> HostForward(cfg, actions, host)
  {
    if HostForward(cfg, actions, host) {
      StreamIsBatch(cfg, actions, host);
    }
    BatchTableIsUniform(cfg, ClosedEvents(LogOf(cfg, actions).closed), host);
    HostTimelineIsUniformIff(cfg, actions, host);
  }

  /** One way it needs nothing of the gap limit. */
  lemma StreamIsBatch(cfg: Config, actions: seq<Action>, host: int)
    requires cfg.delta > 0 && HostForward(cfg, actions, host)
    ensures PointsOf(Run(cfg, actions).1, host) == BatchTable(cfg, ClosedEvents(LogOf(cfg, actions).closed), host)
  {
    StreamingRefinesBatch(cfg, actions, host);
    SamplesAreBatch(cfg, actions, host);
  }
}
