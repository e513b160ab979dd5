/**
 * The graph and peer inputs of every published row: new peers are counted once
 * over a host's life, and while windows move forward each row was computed from
 * exactly the edges of its own window and of the one before.
 */
module WindowGraphs {
  import opened Events
  import opened Increments
  import opened EdgeSets
  import opened Features
  import opened WindowTotals
  import T = Timeline
  import Orders

  function WinOf(r: Row, host: int): seq<Window> {
    if r.host == host && r.window.Some? then [r.window.value] else []
  }

  function WinsOf(rows: seq<Row>, host: int): seq<Window> {
    if rows == [] then [] else WinsOf(rows[..|rows| - 1], host) + WinOf(rows[|rows| - 1], host)
  }

  lemma {:induction false} WinsConcat(a: seq<Row>, b: seq<Row>, host: int)
    ensures WinsOf(a + b, host) == WinsOf(a, host) + WinsOf(b, host)
    decreases |b|
  {
    if b == [] {
      assert a + b == a;
    } else {
      assert (a + b)[..|a + b| - 1] == a + b[..|b| - 1];
      WinsConcat(a, b[..|b| - 1], host);
    }
  }

  lemma {:induction false} NoWins(rows: seq<Row>, host: int)
    requires forall r | r in rows :: r.host != host || r.window.None?
    ensures WinsOf(rows, host) == []
  {
    if rows != [] {
      NoWins(rows[..|rows| - 1], host);
    }
  }

  lemma EmitHostWins(cfg: Config, s: State, w: int, h: int, host: int)
    requires cfg.delta > 0
    ensures WinsOf(EmitHost(cfg, s, w, h).1, host) == if h == host then [WindowOf(cfg, s, h, w)] else []
  {
    var win := WindowOf(cfg, s, h, w);
    var q := T.Sample(w, Track(cfg, h, win));
    var rows := EmitHost(cfg, s, w, h).1;
    EmitShape(PaceOf(cfg), PrevAt(s, h), q);
    NoWins(rows[..|rows| - 1], host);
  }

  // -------------------------------------------------------------- new peers

  function AllPeers(wins: seq<Window>): set<int> {
    if wins == [] then {} else AllPeers(wins[..|wins| - 1]) + Peers(wins[|wins| - 1].acc)
  }

  function TotalNew(wins: seq<Window>): nat {
    if wins == [] then 0 else TotalNew(wins[..|wins| - 1]) + wins[|wins| - 1].newPeers
  }

  /** Every window's count is of the peers no earlier window had. */
  predicate CountsNew(wins: seq<Window>) {
    forall i | 0 <= i < |wins| :: wins[i].newPeers == |Peers(wins[i].acc) - AllPeers(wins[..i])|
  }

  lemma UnionSize(a: set<int>, b: set<int>)
    ensures |a + b| == |a| + |b - a|
  {
    assert a + b == a + (b - a);
  }

  lemma {:induction false} NewPeersAddUp(wins: seq<Window>)
    requires CountsNew(wins)
    ensures TotalNew(wins) == |AllPeers(wins)|
  {
    if wins != [] {
      var init := wins[..|wins| - 1];
      assert forall i | 0 <= i < |init| :: init[..i] == wins[..i];
      NewPeersAddUp(init);
      UnionSize(AllPeers(init), Peers(wins[|wins| - 1].acc));
    }
  }

  ghost predicate PeersTied(s: State, rows: seq<Row>, host: int) {
    CountsNew(WinsOf(rows, host)) && PeersAt(s, host) == AllPeers(WinsOf(rows, host))
  }

  lemma PeersGrow(wins: seq<Window>, win: Window)
    requires CountsNew(wins) && win.newPeers == |Peers(win.acc) - AllPeers(wins)|
    ensures CountsNew(wins + [win]) && AllPeers(wins + [win]) == AllPeers(wins) + Peers(win.acc)
  {
    var more := wins + [win];
    assert more[..|wins|] == wins;
    assert forall i | 0 <= i < |wins| :: more[..i] == wins[..i];
  }

  lemma EmitHostPeers(cfg: Config, s: State, w: int, h: int, host: int)
    requires cfg.delta > 0
    ensures PeersAt(EmitHost(cfg, s, w, h).0, host) ==
              PeersAt(s, host) + if h == host then Peers(WindowOf(cfg, s, h, w).acc) else {}
  {
  }

  lemma EmitHostPeersTied(cfg: Config, s: State, rows: seq<Row>, w: int, h: int, host: int)
    requires cfg.delta > 0 && PeersTied(s, rows, host)
    ensures var e := EmitHost(cfg, s, w, h);
            PeersTied(e.0, rows + e.1, host)
  {
    var e := EmitHost(cfg, s, w, h);
    WinsConcat(rows, e.1, host);
    EmitHostWins(cfg, s, w, h, host);
    EmitHostPeers(cfg, s, w, h, host);
    if h == host {
      PeersGrow(WinsOf(rows, host), WindowOf(cfg, s, h, w));
    } else {
      assert WinsOf(rows, host) + [] == WinsOf(rows, host);
    }
  }

  lemma {:induction false} EmitAllPeersTied(cfg: Config, s: State, rows: seq<Row>, w: int, hosts: seq<int>, host: int)
    requires cfg.delta > 0 && PeersTied(s, rows, host)
    ensures var e := EmitAll(cfg, s, w, hosts);
            PeersTied(e.0, rows + e.1, host)
  {
    if hosts == [] {
      assert rows + [] == rows;
    } else {
      var init, h := hosts[..|hosts| - 1], hosts[|hosts| - 1];
      assert hosts == init + [h];
      EmitAllPeersTied(cfg, s, rows, w, init, host);
      EmitAllSnoc(cfg, s, w, init, h);
      var a := EmitAll(cfg, s, w, init);
      var e := EmitHost(cfg, a.0, w, h);
      EmitHostPeersTied(cfg, a.0, rows + a.1, w, h, host);
      T.Regroup(rows, a.1, e.1, a.1 + e.1);
    }
  }

  lemma PeersReadsPeers(s: State, s': State, rows: seq<Row>, host: int)
    requires PeersTied(s, rows, host) && s'.peers == s.peers
    ensures PeersTied(s', rows, host)
  {
  }

  lemma ClosePeersTied(cfg: Config, s: State, rows: seq<Row>, w: int, host: int)
    requires cfg.delta > 0 && PeersTied(s, rows, host)
    ensures var c := CloseWindow(cfg, s, w);
            PeersTied(c.0, rows + c.1, host)
  {
    var hosts := Orders.Ascend(HostsAt(s, w));
    EmitAllPeersTied(cfg, s, rows, w, hosts, host);
    var e := EmitAll(cfg, s, w, hosts);
    PeersReadsPeers(e.0, Discard(cfg, e.0, w, HostsAt(s, w)), rows + e.1, host);
  }

  lemma ClosingPeersTied(cfg: Config, s: State, rows: seq<Row>, a: Action, host: int)
    requires cfg.delta > 0 && PeersTied(s, rows, host)
    ensures var c := Closing(cfg, s, a);
            PeersTied(c.0, rows + c.1, host)
  {
    assert rows + [] == rows;
    if s.current.Some? {
      ClosePeersTied(cfg, s, rows, s.current.value.w, host);
    }
  }

  lemma StepPeersTied(cfg: Config, s: State, rows: seq<Row>, a: Action, host: int)
    requires cfg.delta > 0 && PeersTied(s, rows, host)
    ensures var e := Step(cfg, s, a);
            PeersTied(e.0, rows + e.1, host)
  {
    OnlyClosingPublishes(cfg, s, a);
    ClosingPeersTied(cfg, s, rows, a, host);
    var c := Closing(cfg, s, a);
    PeersReadsPeers(c.0, Step(cfg, s, a).0, rows + c.1, host);
  }

  /** Over a whole run the published new-peer counts of a host add up to its distinct peers. */
  lemma {:induction false} PeersAreCountedOnce(cfg: Config, actions: seq<Action>, host: int)
    requires cfg.delta > 0
    ensures var wins := WinsOf(Run(cfg, actions).1, host);
            && CountsNew(wins)
            && TotalNew(wins) == |AllPeers(wins)|
            && PeersAt(Run(cfg, actions).0, host) == AllPeers(wins)
  {
    if actions != [] {
      var init := actions[..|actions| - 1];
      PeersAreCountedOnce(cfg, init, host);
      StepPeersTied(cfg, Run(cfg, init).0, Run(cfg, init).1, actions[|actions| - 1], host);
    }
    NewPeersAddUp(WinsOf(Run(cfg, actions).1, host));
  }

  // ------------------------------------------------------------ exact graphs

  function EdgesAt(delta: int, events: seq<Event>, w: int): set<Edge>
    requires delta > 0
  {
    set e | e in events && e.src.Some? && e.dst.Some? && Align(e.ts, delta) == w :: (e.src.value, e.dst.value)
  }

  lemma EdgesConcat(delta: int, a: seq<Event>, b: seq<Event>, w: int)
    requires delta > 0
    ensures EdgesAt(delta, a + b, w) == EdgesAt(delta, a, w) + EdgesAt(delta, b, w)
  {
    assert forall e :: e in a + b <==> e in a || e in b;
  }

  /** The stored graph of every window whose successor is still to close is complete. */
  ghost predicate GraphsHeld(cfg: Config, s: State, log: Log)
    requires cfg.delta > 0
  {
    forall x | (forall seg | seg in log.closed :: seg.w != x + cfg.delta) ::
      GraphAt(s, x) == EdgesAt(cfg.delta, StreamOf(log), x)
  }

  predicate RowExact(delta: int, stream: seq<Event>, r: Row)
    requires delta > 0
  {
    r.window.Some? ==>
      && r.window.value.graph == EdgesAt(delta, stream, r.point.cell.ts)
      && r.window.value.previous == EdgesAt(delta, stream, r.point.cell.ts - delta)
  }

  ghost predicate RowsExact(cfg: Config, rows: seq<Row>, log: Log)
    requires cfg.delta > 0
  {
    forall r | r in rows ::
      RowExact(cfg.delta, StreamOf(log), r)
      && (r.window.Some? ==> exists seg :: seg in log.closed && seg.w == r.point.cell.ts)
  }

  /** Every active row is of window w and was computed from the stored graphs. */
  predicate ReadsGraphs(cfg: Config, s: State, w: int, rows: seq<Row>) {
    forall r | r in rows && r.window.Some? ::
      && r.point.cell.ts == w
      && r.window.value.graph == GraphAt(s, w) && r.window.value.previous == GraphAt(s, w - cfg.delta)
  }

  lemma EmitHostGraphs(cfg: Config, s: State, w: int, h: int)
    requires cfg.delta > 0
    ensures ReadsGraphs(cfg, s, w, EmitHost(cfg, s, w, h).1)
  {
    EmitShape(PaceOf(cfg), PrevAt(s, h), T.Sample(w, Track(cfg, h, WindowOf(cfg, s, h, w))));
  }

  lemma ReadsConcat(cfg: Config, s: State, s1: State, w: int, a: seq<Row>, b: seq<Row>)
    requires ReadsGraphs(cfg, s, w, a) && ReadsGraphs(cfg, s1, w, b) && s1.graph == s.graph
    ensures ReadsGraphs(cfg, s, w, a + b)
  {
  }

  lemma {:induction false} EmitAllGraphs(cfg: Config, s: State, w: int, hosts: seq<int>)
    requires cfg.delta > 0
    ensures ReadsGraphs(cfg, s, w, EmitAll(cfg, s, w, hosts).1)
  {
    if hosts != [] {
      var init, h := hosts[..|hosts| - 1], hosts[|hosts| - 1];
      assert hosts == init + [h];
      EmitAllGraphs(cfg, s, w, init);
      EmitAllSnoc(cfg, s, w, init, h);
      EmitAllEntries(cfg, s, w, init);
      var a := EmitAll(cfg, s, w, init);
      EmitHostGraphs(cfg, a.0, w, h);
      ReadsConcat(cfg, s, a.0, w, a.1, EmitHost(cfg, a.0, w, h).1);
    }
  }

  lemma GraphAtDiscard(cfg: Config, s: State, w: int, hosts: set<int>, x: int)
    ensures GraphAt(Discard(cfg, s, w, hosts), x) == if x == w - cfg.delta then {} else GraphAt(s, x)
  {
  }

  lemma GraphAtClose(cfg: Config, s: State, w: int, x: int)
    requires cfg.delta > 0
    ensures GraphAt(CloseWindow(cfg, s, w).0, x) == if x == w - cfg.delta then {} else GraphAt(s, x)
  {
    var hosts := Orders.Ascend(HostsAt(s, w));
    EmitAllEntries(cfg, s, w, hosts);
    GraphAtDiscard(cfg, EmitAll(cfg, s, w, hosts).0, w, HostsAt(s, w), x);
  }

  lemma CutCloses(log: Log)
    requires log.current.Some?
    ensures forall seg | seg in log.closed :: seg in Cut(log).closed
    ensures Segment(log.current.value.w, log.events) in Cut(log).closed
  {
  }

  lemma CloseHoldsGraphs(cfg: Config, s: State, log: Log)
    requires cfg.delta > 0 && GraphsHeld(cfg, s, log) && log.current.Some?
    ensures GraphsHeld(cfg, CloseWindow(cfg, s, log.current.value.w).0, Cut(log))
  {
    var w := log.current.value.w;
    CutKeepsStream(log, cfg.delta);
    CutCloses(log);
    forall x | forall seg | seg in Cut(log).closed :: seg.w != x + cfg.delta
      ensures GraphAt(CloseWindow(cfg, s, w).0, x) == EdgesAt(cfg.delta, StreamOf(log), x)
    {
      GraphAtClose(cfg, s, w, x);
    }
  }

  lemma CloseRowGraphs(cfg: Config, s: State, w: int)
    requires cfg.delta > 0
    ensures ReadsGraphs(cfg, s, w, CloseWindow(cfg, s, w).1)
  {
    EmitAllGraphs(cfg, s, w, Orders.Ascend(HostsAt(s, w)));
  }

  lemma RowsExactGrow(cfg: Config, s: State, rows: seq<Row>, more: seq<Row>, log: Log, log': Log, w: int)
    requires cfg.delta > 0 && RowsExact(cfg, rows, log) && StreamOf(log') == StreamOf(log)
    requires forall seg | seg in log.closed :: seg in log'.closed
    requires exists seg :: seg in log'.closed && seg.w == w
    requires ReadsGraphs(cfg, s, w, more)
    requires GraphAt(s, w) == EdgesAt(cfg.delta, StreamOf(log), w)
    requires GraphAt(s, w - cfg.delta) == EdgesAt(cfg.delta, StreamOf(log), w - cfg.delta)
    ensures RowsExact(cfg, rows + more, log')
  {
  }

  lemma CloseRowsExact(cfg: Config, s: State, rows: seq<Row>, log: Log)
    requires cfg.delta > 0 && GraphsHeld(cfg, s, log) && RowsExact(cfg, rows, log)
    requires log.current.Some? && Forward(log)
    ensures RowsExact(cfg, rows + CloseWindow(cfg, s, log.current.value.w).1, Cut(log))
  {
    var w := log.current.value.w;
    CutKeepsStream(log, cfg.delta);
    CutCloses(log);
    CloseRowGraphs(cfg, s, w);
    assert GraphAt(s, w) == EdgesAt(cfg.delta, StreamOf(log), w);
    assert GraphAt(s, w - cfg.delta) == EdgesAt(cfg.delta, StreamOf(log), w - cfg.delta);
    RowsExactGrow(cfg, s, rows, CloseWindow(cfg, s, w).1, log, Cut(log), w);
  }

  lemma StreamSnoc(log: Log, w: int, e: Event, now: real)
    ensures StreamOf(Join(log, w, e, now)) == StreamOf(log) + [e]
  {
  }

  lemma GraphAtAccumulate(s: State, e: Event, host: int, w: int, now: real, x: int)
    ensures GraphAt(Accumulate(s, e, host, w, now), x) ==
              GraphAt(s, x) + if x == w && e.dst.Some? then {(host, e.dst.value)} else {}
  {
  }

  lemma EdgesOfOne(delta: int, e: Event, x: int)
    requires delta > 0 && e.src.Some?
    ensures EdgesAt(delta, [e], x)
         == if x == Align(e.ts, delta) && e.dst.Some? then {(e.src.value, e.dst.value)} else {}
  {
    assert e in [e];
  }

  lemma JoinHoldsGraphs(cfg: Config, s: State, log: Log, e: Event, now: real)
    requires cfg.delta > 0 && GraphsHeld(cfg, s, log) && e.src.Some?
    ensures var w := Align(e.ts, cfg.delta);
            GraphsHeld(cfg, Accumulate(s, e, e.src.value, w, now), Join(log, w, e, now))
  {
    var w := Align(e.ts, cfg.delta);
    StreamSnoc(log, w, e, now);
    forall x | forall seg | seg in log.closed :: seg.w != x + cfg.delta
      ensures GraphAt(Accumulate(s, e, e.src.value, w, now), x) == EdgesAt(cfg.delta, StreamOf(log) + [e], x)
    {
      GraphAtAccumulate(s, e, e.src.value, w, now, x);
      EdgesConcat(cfg.delta, StreamOf(log), [e], x);
      EdgesOfOne(cfg.delta, e, x);
    }
  }

  lemma JoinRowsExact(cfg: Config, rows: seq<Row>, log: Log, e: Event, now: real)
    requires cfg.delta > 0 && RowsExact(cfg, rows, log) && Forward(Join(log, Align(e.ts, cfg.delta), e, now))
    ensures RowsExact(cfg, rows, Join(log, Align(e.ts, cfg.delta), e, now))
  {
    var w := Align(e.ts, cfg.delta);
    StreamSnoc(log, w, e, now);
    forall r | r in rows && r.window.Some?
      ensures RowExact(cfg.delta, StreamOf(log) + [e], r)
    {
      assert RowExact(cfg.delta, StreamOf(log), r);
      EdgesConcat(cfg.delta, StreamOf(log), [e], r.point.cell.ts);
      EdgesConcat(cfg.delta, StreamOf(log), [e], r.point.cell.ts - cfg.delta);
      assert r.point.cell.ts < w;
    }
  }

  ghost predicate GraphsTied(cfg: Config, s: State, rows: seq<Row>, log: Log)
    requires cfg.delta > 0
  {
    GraphsHeld(cfg, s, log) && (Forward(log) ==> RowsExact(cfg, rows, log))
  }

  lemma CloseGraphsTied(cfg: Config, s: State, rows: seq<Row>, log: Log)
    requires cfg.delta > 0 && GraphsTied(cfg, s, rows, log) && log.current.Some?
    ensures var c := CloseWindow(cfg, s, log.current.value.w);
            GraphsTied(cfg, c.0, rows + c.1, Cut(log))
  {
    CloseHoldsGraphs(cfg, s, log);
    if Forward(Cut(log)) {
      CutBack(log);
      CloseRowsExact(cfg, s, rows, log);
    }
  }

  lemma CutBack(log: Log)
    requires log.current.Some? && Forward(Cut(log))
    ensures Forward(log)
  {
    var closed := Cut(log).closed;
    assert forall i | 0 <= i < |log.closed| :: closed[i] == log.closed[i];
    assert closed[|log.closed|].w == log.current.value.w;
  }

  lemma JoinBack(log: Log, w: int, e: Event, now: real)
    requires Forward(Join(log, w, e, now)) && (log.current.Some? ==> log.current.value.w == w)
    ensures Forward(log)
  {
  }

  lemma JoinGraphsTied(cfg: Config, s: State, rows: seq<Row>, log: Log, e: Event, now: real)
    requires cfg.delta > 0 && GraphsTied(cfg, s, rows, log) && e.src.Some?
    requires log.current.Some? ==> log.current.value.w == Align(e.ts, cfg.delta)
    ensures var w := Align(e.ts, cfg.delta);
            GraphsTied(cfg, Accumulate(s, e, e.src.value, w, now), rows, Join(log, w, e, now))
  {
    var w := Align(e.ts, cfg.delta);
    JoinHoldsGraphs(cfg, s, log, e, now);
    if Forward(Join(log, w, e, now)) {
      JoinBack(log, w, e, now);
      JoinRowsExact(cfg, rows, log, e, now);
    }
  }

  lemma ClosingGraphsTied(cfg: Config, s: State, rows: seq<Row>, log: Log, a: Action)
    requires cfg.delta > 0 && GraphsTied(cfg, s, rows, log) && s.current == log.current
    ensures var c := Closing(cfg, s, a);
            GraphsTied(cfg, c.0, rows + c.1, LogClosing(cfg, log, a))
  {
    assert rows + [] == rows;
    if log.current.Some? {
      CloseGraphsTied(cfg, s, rows, log);
    }
  }

  lemma StepGraphsTied(cfg: Config, s: State, rows: seq<Row>, log: Log, a: Action)
    requires cfg.delta > 0 && GraphsTied(cfg, s, rows, log) && s.current == log.current
    ensures var e := Step(cfg, s, a);
            GraphsTied(cfg, e.0, rows + e.1, LogStep(cfg, log, a))
  {
    ClosingGraphsTied(cfg, s, rows, log, a);
    LogStepJoins(cfg, s, log, a);
    if a.Ingest? && Accepts(cfg, s, a.e) {
      var c := Closing(cfg, s, a);
      JoinGraphsTied(cfg, c.0, rows + c.1, LogClosing(cfg, log, a), a.e, a.now);
    }
  }

  lemma {:induction false} RunGraphsTied(cfg: Config, actions: seq<Action>)
    requires cfg.delta > 0
    ensures GraphsTied(cfg, Run(cfg, actions).0, Run(cfg, actions).1, LogOf(cfg, actions))
  {
    if actions != [] {
      var init := actions[..|actions| - 1];
      RunGraphsTied(cfg, init);
      RunIsGroupBySegments(cfg, init);
      StepGraphsTied(cfg, Run(cfg, init).0, Run(cfg, init).1, LogOf(cfg, init), actions[|actions| - 1]);
    }
  }

  /**
   * While windows only move forward, every active row was computed from exactly the accepted
   * edges of its window, and its prior from exactly those of the window before.
   */
  lemma GraphsAreExact(cfg: Config, actions: seq<Action>, r: Row)
    requires cfg.delta > 0 && Forward(LogOf(cfg, actions)) && r in Run(cfg, actions).1 && r.window.Some?
    ensures var edges := w => EdgesAt(cfg.delta, Accepted(cfg, actions), w);
            && r.window.value.graph == edges(r.point.cell.ts)
            && r.window.value.previous == edges(r.point.cell.ts - cfg.delta)
  {
    RunGraphsTied(cfg, actions);
    SegmentsAreTheAcceptedStream(cfg, actions);
    assert RowExact(cfg.delta, StreamOf(LogOf(cfg, actions)), r);
  }

  // ------------------------------------ graphs on every run, re-entry or not

  /** Events closed after the last close of window y: what discarding has left of the earlier ones. */
  function Since(closed: seq<Segment>, y: int): seq<Event> {
    if closed == [] || closed[|closed| - 1].w == y then []
    else Since(closed[..|closed| - 1], y) + closed[|closed| - 1].events
  }

  lemma SinceSnoc(closed: seq<Segment>, seg: Segment, y: int)
    ensures Since(closed + [seg], y) == if seg.w == y then [] else Since(closed, y) + seg.events
  {
    assert (closed + [seg])[..|closed|] == closed;
  }

  /** The stored graph of x holds the edges of x accepted since its successor last closed. */
  ghost predicate GraphsKept(cfg: Config, s: State, log: Log)
    requires cfg.delta > 0
  {
    forall x :: GraphAt(s, x) == EdgesAt(cfg.delta, Since(log.closed, x + cfg.delta) + log.events, x)
  }

  /** The graphs behind an active row. */
  datatype Inputs = Inputs(host: int, ts: int, graph: set<Edge>, previous: set<Edge>)

  function InputOf(r: Row): seq<Inputs> {
    if r.window.Some? then [Inputs(r.host, r.point.cell.ts, r.window.value.graph, r.window.value.previous)] else []
  }

  function InputsOf(rows: seq<Row>): seq<Inputs> {
    if rows == [] then [] else InputsOf(rows[..|rows| - 1]) + InputOf(rows[|rows| - 1])
  }

  /** What closing a segment reads for each of its hosts, after the segments before it. */
  function SegmentInputs(delta: int, before: seq<Segment>, seg: Segment): seq<Inputs>
    requires delta > 0
  {
    var hosts := Orders.Ascend(Sources(delta, seg.events, seg.w));
    seq(|hosts|, i requires 0 <= i < |hosts| =>
      Inputs(hosts[i], seg.w,
             EdgesAt(delta, Since(before, seg.w + delta) + seg.events, seg.w),
             EdgesAt(delta, Since(before, seg.w) + seg.events, seg.w - delta)))
  }

  function ClosedInputs(delta: int, closed: seq<Segment>): seq<Inputs>
    requires delta > 0
  {
    if closed == [] then []
    else
      var n := |closed| - 1;
      ClosedInputs(delta, closed[..n]) + SegmentInputs(delta, closed[..n], closed[n])
  }

  lemma {:induction false} InputsConcat(a: seq<Row>, b: seq<Row>)
    ensures InputsOf(a + b) == InputsOf(a) + InputsOf(b)
    decreases |b|
  {
    if b == [] {
      assert a + b == a;
    } else {
      assert (a + b)[..|a + b| - 1] == a + b[..|b| - 1];
      InputsConcat(a, b[..|b| - 1]);
    }
  }

  function WithGraphs(es: seq<Entry>, w: int, graph: set<Edge>, previous: set<Edge>): seq<Inputs> {
    seq(|es|, i requires 0 <= i < |es| => Inputs(es[i].host, w, graph, previous))
  }

  lemma {:induction false} ReadsAreInputs(cfg: Config, s: State, w: int, rows: seq<Row>)
    requires ReadsGraphs(cfg, s, w, rows)
    ensures InputsOf(rows) == WithGraphs(Entries(rows), w, GraphAt(s, w), GraphAt(s, w - cfg.delta))
  {
    if rows != [] {
      assert rows[|rows| - 1] in rows;
      ReadsAreInputs(cfg, s, w, rows[..|rows| - 1]);
    }
  }

  lemma SegmentInputsParts(delta: int, before: seq<Segment>, seg: Segment)
    requires delta > 0
    ensures SegmentInputs(delta, before, seg) ==
              WithGraphs(SegmentEntries(delta, seg), seg.w,
                         EdgesAt(delta, Since(before, seg.w + delta) + seg.events, seg.w),
                         EdgesAt(delta, Since(before, seg.w) + seg.events, seg.w - delta))
  {
  }

  lemma KeptAt(cfg: Config, s: State, log: Log, x: int, y: int)
    requires cfg.delta > 0 && GraphsKept(cfg, s, log) && y == x + cfg.delta
    ensures GraphAt(s, x) == EdgesAt(cfg.delta, Since(log.closed, y) + log.events, x)
  {
  }

  lemma InputsFromEntries(cfg: Config, s: State, log: Log, seg: Segment, rows: seq<Row>)
    requires cfg.delta > 0 && GraphsKept(cfg, s, log) && seg.events == log.events
    requires ReadsGraphs(cfg, s, seg.w, rows) && Entries(rows) == SegmentEntries(cfg.delta, seg)
    ensures InputsOf(rows) == SegmentInputs(cfg.delta, log.closed, seg)
  {
    ReadsAreInputs(cfg, s, seg.w, rows);
    KeptAt(cfg, s, log, seg.w, seg.w + cfg.delta);
    KeptAt(cfg, s, log, seg.w - cfg.delta, seg.w);
    SegmentInputsParts(cfg.delta, log.closed, seg);
  }

  lemma CloseInputs(cfg: Config, s: State, log: Log)
    requires cfg.delta > 0 && Tied(cfg, s, log) && GraphsKept(cfg, s, log) && log.current.Some?
    ensures var w := log.current.value.w;
            InputsOf(CloseWindow(cfg, s, w).1) == SegmentInputs(cfg.delta, log.closed, Segment(w, log.events))
  {
    var w := log.current.value.w;
    CloseRowGraphs(cfg, s, w);
    CloseEntries(cfg, s, log);
    InputsFromEntries(cfg, s, log, Segment(w, log.events), CloseWindow(cfg, s, w).1);
  }

  lemma ClosedInputsSnoc(delta: int, closed: seq<Segment>, seg: Segment)
    requires delta > 0
    ensures ClosedInputs(delta, closed + [seg]) == ClosedInputs(delta, closed) + SegmentInputs(delta, closed, seg)
  {
    assert (closed + [seg])[..|closed|] == closed;
  }

  lemma CloseKeepsGraphs(cfg: Config, s: State, log: Log)
    requires cfg.delta > 0 && GraphsKept(cfg, s, log) && log.current.Some?
    ensures GraphsKept(cfg, CloseWindow(cfg, s, log.current.value.w).0, Cut(log))
  {
    var w := log.current.value.w;
    forall x
      ensures GraphAt(CloseWindow(cfg, s, w).0, x)
           == EdgesAt(cfg.delta, Since(Cut(log).closed, x + cfg.delta) + [], x)
    {
      GraphAtClose(cfg, s, w, x);
      SinceSnoc(log.closed, Segment(w, log.events), x + cfg.delta);
      assert GraphAt(s, x) == EdgesAt(cfg.delta, Since(log.closed, x + cfg.delta) + log.events, x);
      var kept := Since(Cut(log).closed, x + cfg.delta);
      assert kept + [] == kept;
    }
  }

  lemma JoinKeepsGraphs(cfg: Config, s: State, log: Log, e: Event, now: real)
    requires cfg.delta > 0 && GraphsKept(cfg, s, log) && e.src.Some?
    ensures var w := Align(e.ts, cfg.delta);
            GraphsKept(cfg, Accumulate(s, e, e.src.value, w, now), Join(log, w, e, now))
  {
    var w := Align(e.ts, cfg.delta);
    forall x
      ensures GraphAt(Accumulate(s, e, e.src.value, w, now), x)
           == EdgesAt(cfg.delta, Since(log.closed, x + cfg.delta) + (log.events + [e]), x)
    {
      var kept := Since(log.closed, x + cfg.delta);
      assert GraphAt(s, x) == EdgesAt(cfg.delta, kept + log.events, x);
      T.Regroup(kept, log.events, [e], log.events + [e]);
      GraphAtAccumulate(s, e, e.src.value, w, now, x);
      EdgesConcat(cfg.delta, kept + log.events, [e], x);
      EdgesOfOne(cfg.delta, e, x);
    }
  }

  ghost predicate InputsTied(cfg: Config, s: State, rows: seq<Row>, log: Log)
    requires cfg.delta > 0
  {
    GraphsKept(cfg, s, log) && InputsOf(rows) == ClosedInputs(cfg.delta, log.closed)
  }

  lemma CloseInputsTied(cfg: Config, s: State, rows: seq<Row>, log: Log)
    requires cfg.delta > 0 && Tied(cfg, s, log) && InputsTied(cfg, s, rows, log) && log.current.Some?
    ensures var c := CloseWindow(cfg, s, log.current.value.w);
            InputsTied(cfg, c.0, rows + c.1, Cut(log))
  {
    var w := log.current.value.w;
    CloseInputs(cfg, s, log);
    CloseKeepsGraphs(cfg, s, log);
    InputsConcat(rows, CloseWindow(cfg, s, w).1);
    ClosedInputsSnoc(cfg.delta, log.closed, Segment(w, log.events));
  }

  lemma ClosingInputsTied(cfg: Config, s: State, rows: seq<Row>, log: Log, a: Action)
    requires cfg.delta > 0 && Tied(cfg, s, log) && InputsTied(cfg, s, rows, log)
    ensures var c := Closing(cfg, s, a);
            InputsTied(cfg, c.0, rows + c.1, LogClosing(cfg, log, a))
  {
    assert rows + [] == rows;
    if log.current.Some? {
      CloseInputsTied(cfg, s, rows, log);
    }
  }

  lemma StepInputsTied(cfg: Config, s: State, rows: seq<Row>, log: Log, a: Action)
    requires cfg.delta > 0 && Tied(cfg, s, log) && InputsTied(cfg, s, rows, log)
    ensures var e := Step(cfg, s, a);
            InputsTied(cfg, e.0, rows + e.1, LogStep(cfg, log, a))
  {
    ClosingInputsTied(cfg, s, rows, log, a);
    LogStepJoins(cfg, s, log, a);
    if a.Ingest? && Accepts(cfg, s, a.e) {
      JoinKeepsGraphs(cfg, Closing(cfg, s, a).0, LogClosing(cfg, log, a), a.e, a.now);
    }
  }

  /**
   * On every run, re-entry or not: a row's graph is the edges of its window accepted since the
   * window after it last closed, and its previous graph the edges of the window before accepted
   * since its own window last closed.
   */
  lemma {:induction false} RowsReadKeptGraphs(cfg: Config, actions: seq<Action>)
    requires cfg.delta > 0
    ensures InputsTied(cfg, Run(cfg, actions).0, Run(cfg, actions).1, LogOf(cfg, actions))
  {
    if actions != [] {
      var init := actions[..|actions| - 1];
      RowsReadKeptGraphs(cfg, init);
      RunIsGroupBySegments(cfg, init);
      StepInputsTied(cfg, Run(cfg, init).0, Run(cfg, init).1, LogOf(cfg, init), actions[|actions| - 1]);
    }
  }

  // ----------------------------------------------- peers are the successors

  lemma {:induction false} PeersAreSuccessors(delta: int, events: seq<Event>, host: int, w: int)
    requires delta > 0
    ensures Peers(GroupBy(delta, events, host, w)) == Succ(EdgesAt(delta, events, w), host)
  {
    if events != [] {
      var init, e := events[..|events| - 1], events[|events| - 1];
      assert events == init + [e];
      PeersAreSuccessors(delta, init, host, w);
      EdgesConcat(delta, init, [e], w);
      SuccUnion(EdgesAt(delta, init, w), EdgesAt(delta, [e], w), host);
      PeersMerge(GroupBy(delta, init, host, w), EventIncrements(e));
      EventCountsOnce(e);
      SuccOfOne(delta, e, host, w);
    }
  }

  lemma SuccOfOne(delta: int, e: Event, host: int, w: int)
    requires delta > 0
    ensures Succ(EdgesAt(delta, [e], w), host) ==
              if Matches(delta, e, host, w) && e.dst.Some? then {e.dst.value} else {}
  {
    var edges := EdgesAt(delta, [e], w);
    assert forall x :: x in [e] <==> x == e;
    if Matches(delta, e, host, w) && e.dst.Some? {
      assert e in [e];
      assert (host, e.dst.value) in edges;
    }
  }

  lemma SuccUnion(a: set<Edge>, b: set<Edge>, host: int)
    ensures Succ(a + b, host) == Succ(a, host) + Succ(b, host)
  {
    forall d: int
      ensures d in Succ(a + b, host) <==> d in Succ(a, host) + Succ(b, host)
    {
      InSucc(a + b, host, d);
      InSucc(a, host, d);
      InSucc(b, host, d);
    }
  }

  lemma {:induction false} RowHasEntry(rows: seq<Row>, r: Row)
    requires r in rows && r.window.Some?
    ensures Entry(r.host, r.point.cell.ts, r.window.value.acc) in Entries(rows)
  {
    if r != rows[|rows| - 1] {
      assert r in rows[..|rows| - 1];
      RowHasEntry(rows[..|rows| - 1], r);
    }
  }

  ghost predicate ClosedAt(closed: seq<Segment>, w: int) {
    exists seg :: seg in closed && seg.w == w
  }

  lemma OpenWindowIsLater(cfg: Config, s: State, log: Log, w: int, x: int)
    requires cfg.delta > 0 && Tied(cfg, s, log) && Forward(log) && ClosedAt(log.closed, w) && x <= w
    ensures EdgesAt(cfg.delta, log.events, x) == {}
  {
  }

  /** An active row's contacted peers, read from its own hash, are its successors in the tenant's graph. */
  lemma RowPeersAreSuccessors(cfg: Config, actions: seq<Action>, r: Row)
    requires cfg.delta > 0 && Forward(LogOf(cfg, actions)) && r in Run(cfg, actions).1 && r.window.Some?
    ensures Peers(r.window.value.acc) == Succ(r.window.value.graph, r.host)
  {
    var log, w := LogOf(cfg, actions), r.point.cell.ts;
    var en := Entry(r.host, w, r.window.value.acc);
    RowHasEntry(Run(cfg, actions).1, r);
    RunIsGroupBySegments(cfg, actions);
    ForwardIsNoReentry(cfg.delta, log);
    NoReentryGivesGroupBy(cfg.delta, log.closed, en);
    PeersAreSuccessors(cfg.delta, ClosedEvents(log.closed), r.host, w);
    RunGraphsTied(cfg, actions);
    assert RowExact(cfg.delta, StreamOf(log), r);
    OpenWindowIsLater(cfg, Run(cfg, actions).0, log, w, w);
    EdgesConcat(cfg.delta, ClosedEvents(log.closed), log.events, w);
  }
}
