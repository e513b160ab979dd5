/**
 * The features worker of one tenant as a state machine over events and watchdog
 * ticks, against a reference that only cuts the accepted stream into segments.
 */
module Features {
  import opened Options
  import opened Events
  import opened Increments
  import opened EdgeSets
  import Timeline
  import Orders

  /** `entropy` is the destination-port entropy, any function of the accumulator. */
  datatype Config = Config(delta: int, maxGap: int, floor: real, speed: real, entropy: Hash -> real)

  datatype Open = Open(w: int, lastSeen: real)

  datatype State = State(
    current: Option<Open>,
    hosts: map<int, set<int>>,
    wins: map<(int, int), Hash>,
    graph: map<int, set<Edge>>,
    peers: map<int, set<int>>,
    prev: map<int, Timeline.Prev>)

  /** What a published row was computed from, apart from the host's history. */
  datatype Window = Window(acc: Hash, graph: set<Edge>, previous: set<Edge>, newPeers: nat)

  /** A published vector; a backfilled silent row has no window behind it. */
  datatype Row = Row(host: int, window: Option<Window>, point: Timeline.Point)

  datatype Action = Ingest(e: Event, now: real) | Tick(now: real)

  const EMPTY: State := State(None, map[], map[], map[], map[], map[])

  // ---------------------------------------------------------- reading state

  function HostsAt(s: State, w: int): set<int> {
    if w in s.hosts then s.hosts[w] else {}
  }

  function WinAt(s: State, host: int, w: int): Hash {
    if (host, w) in s.wins then s.wins[(host, w)] else map[]
  }

  function GraphAt(s: State, w: int): set<Edge> {
    if w in s.graph then s.graph[w] else {}
  }

  function PeersAt(s: State, host: int): set<int> {
    if host in s.peers then s.peers[host] else {}
  }

  function PrevAt(s: State, host: int): Option<Timeline.Prev> {
    if host in s.prev then Some(s.prev[host]) else None
  }

  function PaceOf(cfg: Config): Timeline.Pace {
    Timeline.Pace(cfg.delta, cfg.maxGap)
  }

  /** Silence, in wall-clock seconds, after which the watchdog closes: 2 delta over the speed, at least the floor. */
  function Grace(cfg: Config): real {
    if cfg.speed <= 0.0 then cfg.floor
    else
      var two := 2.0 * cfg.delta as real / cfg.speed;
      if two > cfg.floor then two else cfg.floor
  }

  function Variance(total: real, totalSq: real, count: real): real {
    if count <= 0.0 then 0.0
    else
      var v := totalSq / count - (total / count) * (total / count);
      if v > 0.0 then v else 0.0
  }

  /** What the differences and slopes of a row are taken of. */
  function Track(cfg: Config, host: int, win: Window): Timeline.Tracked {
    [Timeline.SafeDiv(Get(win.acc, FlagCount(Syn)), Get(win.acc, PktCount)),
     cfg.entropy(win.acc),
     |Succ(win.graph, host)| as real,
     win.newPeers as real,
     Variance(Get(win.acc, IatSum), Get(win.acc, IatSq), Get(win.acc, NFlows)),
     Timeline.SafeDiv(Get(win.acc, RetransCount), Get(win.acc, NPackets))]
  }

  // ---------------------------------------------------------------- steps

  /** Fold increments into a host's window, record host and edge, and mark the window open. */
  function Fold(s: State, inc: Hash, dst: Option<int>, host: int, w: int, now: real): State {
    s.(wins := s.wins[(host, w) := Merge(WinAt(s, host, w), inc)],
       hosts := s.hosts[w := HostsAt(s, w) + {host}],
       graph := if dst.Some? then s.graph[w := GraphAt(s, w) + {(host, dst.value)}] else s.graph,
       current := Some(Open(w, now)))
  }

  function Accumulate(s: State, e: Event, host: int, w: int, now: real): State {
    Fold(s, EventIncrements(e), e.dst, host, w, now)
  }

  function WindowOf(cfg: Config, s: State, host: int, w: int): Window {
    var acc := WinAt(s, host, w);
    Window(acc, GraphAt(s, w), GraphAt(s, w - cfg.delta), |Peers(acc) - PeersAt(s, host)|)
  }

  function RowsOf(host: int, win: Window, points: seq<Timeline.Point>): seq<Row> {
    seq(|points|, i requires 0 <= i < |points| =>
      Row(host, if points[i].cell.seen then Some(win) else None, points[i]))
  }

  /** One emission: the rows of the host's gap and of window w, with its peers and history brought up to date. */
  function EmitHost(cfg: Config, s: State, w: int, host: int): (State, seq<Row>)
    requires cfg.delta > 0
  {
    var win := WindowOf(cfg, s, host, w);
    var (prev, points) := Timeline.Emit(PaceOf(cfg), PrevAt(s, host), Timeline.Sample(w, Track(cfg, host, win)));
    (s.(peers := s.peers[host := PeersAt(s, host) + Peers(win.acc)], prev := s.prev[host := prev]),
     RowsOf(host, win, points))
  }

  function EmitAll(cfg: Config, s: State, w: int, hosts: seq<int>): (State, seq<Row>)
    requires cfg.delta > 0
  {
    if hosts == [] then (s, [])
    else
      var (s1, rows) := EmitAll(cfg, s, w, hosts[..|hosts| - 1]);
      var (s2, more) := EmitHost(cfg, s1, w, hosts[|hosts| - 1]);
      (s2, rows + more)
  }

  function Discard(cfg: Config, s: State, w: int, hosts: set<int>): State {
    s.(wins := s.wins - (set h | h in hosts :: (h, w)),
       hosts := s.hosts - {w},
       graph := s.graph - {w - cfg.delta},
       current := if s.current.Some? && s.current.value.w == w then None else s.current)
  }

  /** Publish every host of window w, in ascending order, and drop its accumulators. */
  function CloseWindow(cfg: Config, s: State, w: int): (State, seq<Row>)
    requires cfg.delta > 0
  {
    var (s', rows) := EmitAll(cfg, s, w, Orders.Ascend(HostsAt(s, w)));
    (Discard(cfg, s', w, HostsAt(s, w)), rows)
  }

  /** Dropped: no source, or its window lies before the open one. */
  predicate Accepts(cfg: Config, s: State, e: Event)
    requires cfg.delta > 0
  {
    e.src.Some? && !(s.current.Some? && Align(e.ts, cfg.delta) < s.current.value.w)
  }

  predicate Expired(cfg: Config, o: Open, now: real) {
    now - o.lastSeen >= Grace(cfg)
  }

  /** What a step closes before anything else: the open window, or nothing. */
  function Closing(cfg: Config, s: State, a: Action): (State, seq<Row>)
    requires cfg.delta > 0
  {
    if s.current.Some? && (if a.Tick? then Expired(cfg, s.current.value, a.now)
                           else a.e.src.Some? && Align(a.e.ts, cfg.delta) > s.current.value.w)
    then CloseWindow(cfg, s, s.current.value.w)
    else (s, [])
  }

  function Step(cfg: Config, s: State, a: Action): (State, seq<Row>)
    requires cfg.delta > 0
  {
    var (s', rows) := Closing(cfg, s, a);
    if a.Ingest? && Accepts(cfg, s, a.e)
    then (Accumulate(s', a.e, a.e.src.value, Align(a.e.ts, cfg.delta), a.now), rows)
    else (s', rows)
  }

  lemma AccumulateKeepsHosts(s: State, e: Event, host: int, w: int, now: real)
    ensures var s' := Accumulate(s, e, host, w, now);
            s'.peers == s.peers && s'.prev == s.prev
  {
  }

  /** Only closing publishes, and only closing touches what is kept per host. */
  lemma OnlyClosingPublishes(cfg: Config, s: State, a: Action)
    requires cfg.delta > 0
    ensures var (s', rows) := Step(cfg, s, a);
            var (c, closed) := Closing(cfg, s, a);
            rows == closed && s'.peers == c.peers && s'.prev == c.prev
  {
    if a.Ingest? && a.e.src.Some? {
      AccumulateKeepsHosts(Closing(cfg, s, a).0, a.e, a.e.src.value, Align(a.e.ts, cfg.delta), a.now);
    }
  }

  function Run(cfg: Config, actions: seq<Action>): (State, seq<Row>)
    requires cfg.delta > 0
  {
    if actions == [] then (EMPTY, [])
    else
      var (s, rows) := Run(cfg, actions[..|actions| - 1]);
      var (s', more) := Step(cfg, s, actions[|actions| - 1]);
      (s', rows + more)
  }

  /** The events the worker folded in, in order. */
  function Accepted(cfg: Config, actions: seq<Action>): seq<Event>
    requires cfg.delta > 0
  {
    if actions == [] then []
    else
      var n := |actions| - 1;
      Accepted(cfg, actions[..n])
      + if actions[n].Ingest? && Accepts(cfg, Run(cfg, actions[..n]).0, actions[n].e) then [actions[n].e] else []
  }

  // ------------------------------------------------------------- reference

  /** One closed window: the accepted events between two closes. */
  datatype Segment = Segment(w: int, events: seq<Event>)

  /** The stream cut into closed segments and the events of the open window. */
  datatype Log = Log(closed: seq<Segment>, current: Option<Open>, events: seq<Event>)

  function Cut(log: Log): Log
    requires log.current.Some?
  {
    Log(log.closed + [Segment(log.current.value.w, log.events)], None, [])
  }

  function Join(log: Log, w: int, e: Event, now: real): Log {
    Log(log.closed, Some(Open(w, now)), log.events + [e])
  }

  function LogStep(cfg: Config, log: Log, a: Action): Log
    requires cfg.delta > 0
  {
    match a
    case Ingest(e, now) =>
      var w := Align(e.ts, cfg.delta);
      if e.src.None? || (log.current.Some? && w < log.current.value.w) then log
      else if log.current.Some? && w > log.current.value.w then Join(Cut(log), w, e, now)
      else Join(log, w, e, now)
    case Tick(now) =>
      if log.current.Some? && Expired(cfg, log.current.value, now) then Cut(log) else log
  }

  function LogOf(cfg: Config, actions: seq<Action>): Log
    requires cfg.delta > 0
  {
    if actions == [] then Log([], None, [])
    else LogStep(cfg, LogOf(cfg, actions[..|actions| - 1]), actions[|actions| - 1])
  }

  function ClosedEvents(closed: seq<Segment>): seq<Event> {
    if closed == [] then [] else ClosedEvents(closed[..|closed| - 1]) + closed[|closed| - 1].events
  }

  function Sources(delta: int, events: seq<Event>, w: int): set<int>
    requires delta > 0
  {
    set e | e in events && e.src.Some? && Align(e.ts, delta) == w :: e.src.value
  }

  predicate AllIn(delta: int, events: seq<Event>, w: int)
    requires delta > 0
  {
    forall e | e in events :: e.src.Some? && Align(e.ts, delta) == w
  }

  predicate WellCut(delta: int, closed: seq<Segment>)
    requires delta > 0
  {
    forall seg | seg in closed :: AllIn(delta, seg.events, seg.w)
  }

  /** An active row, reduced to its key and its accumulator. */
  datatype Entry = Entry(host: int, ts: int, acc: Hash)

  function EntryOf(r: Row): seq<Entry> {
    if r.window.Some? then [Entry(r.host, r.point.cell.ts, r.window.value.acc)] else []
  }

  function Entries(rows: seq<Row>): seq<Entry> {
    if rows == [] then [] else Entries(rows[..|rows| - 1]) + EntryOf(rows[|rows| - 1])
  }

  /** What closing a segment has to publish: one entry per source host, ascending. */
  function SegmentEntries(delta: int, seg: Segment): seq<Entry>
    requires delta > 0
  {
    var hosts := Orders.Ascend(Sources(delta, seg.events, seg.w));
    seq(|hosts|, i requires 0 <= i < |hosts| => Entry(hosts[i], seg.w, GroupBy(delta, seg.events, hosts[i], seg.w)))
  }

  function ClosedEntries(delta: int, closed: seq<Segment>): seq<Entry>
    requires delta > 0
  {
    if closed == [] then []
    else ClosedEntries(delta, closed[..|closed| - 1]) + SegmentEntries(delta, closed[|closed| - 1])
  }

  // ----------------------------------------------- the machine and the log

  /** The window state in Redis is exactly the group-by of the events since the last close. */
  ghost predicate Tied(cfg: Config, s: State, log: Log)
    requires cfg.delta > 0
  {
    && s.current == log.current
    && (log.current.None? <==> log.events == [])
    && (log.current.Some? ==> AllIn(cfg.delta, log.events, log.current.value.w))
    && (forall h, w :: WinAt(s, h, w) == GroupBy(cfg.delta, log.events, h, w))
    && (forall w :: HostsAt(s, w) == Sources(cfg.delta, log.events, w))
    && WellCut(cfg.delta, log.closed)
  }

  lemma {:induction false} EntriesConcat(a: seq<Row>, b: seq<Row>)
    ensures Entries(a + b) == Entries(a) + Entries(b)
    decreases |b|
  {
    if b == [] {
      assert a + b == a;
    } else {
      assert (a + b)[..|a + b| - 1] == a + b[..|b| - 1];
      EntriesConcat(a, b[..|b| - 1]);
    }
  }

  lemma {:induction false} SilentEntries(rows: seq<Row>)
    requires forall r | r in rows :: r.window.None?
    ensures Entries(rows) == []
  {
    if rows != [] {
      SilentEntries(rows[..|rows| - 1]);
    }
  }

  lemma EmitShape(p: Timeline.Pace, prev: Option<Timeline.Prev>, q: Timeline.Sample)
    requires p.delta > 0
    ensures var points := Timeline.Emit(p, prev, q).1;
            && |points| > 0 && points[|points| - 1].cell == Timeline.Cell(q.ts, true, q.x)
            && forall i | 0 <= i < |points| - 1 :: !points[i].cell.seen
  {
  }

  lemma RowsOfEntries(host: int, win: Window, points: seq<Timeline.Point>)
    requires |points| > 0 && points[|points| - 1].cell.seen
    requires forall i | 0 <= i < |points| - 1 :: !points[i].cell.seen
    ensures Entries(RowsOf(host, win, points)) == [Entry(host, points[|points| - 1].cell.ts, win.acc)]
  {
    var rows := RowsOf(host, win, points);
    SilentEntries(rows[..|rows| - 1]);
  }

  lemma EmitHostEntries(cfg: Config, s: State, w: int, host: int)
    requires cfg.delta > 0
    ensures Entries(EmitHost(cfg, s, w, host).1) == [Entry(host, w, WinAt(s, host, w))]
  {
    var win := WindowOf(cfg, s, host, w);
    var q := Timeline.Sample(w, Track(cfg, host, win));
    EmitShape(PaceOf(cfg), PrevAt(s, host), q);
    RowsOfEntries(host, win, Timeline.Emit(PaceOf(cfg), PrevAt(s, host), q).1);
  }

  function WindowPart(s: State): (Option<Open>, map<int, set<int>>, map<(int, int), Hash>, map<int, set<Edge>>) {
    (s.current, s.hosts, s.wins, s.graph)
  }

  function EntriesFrom(s: State, w: int, hosts: seq<int>): seq<Entry> {
    seq(|hosts|, i requires 0 <= i < |hosts| => Entry(hosts[i], w, WinAt(s, hosts[i], w)))
  }

  lemma EntriesFromSnoc(s: State, s1: State, w: int, hosts: seq<int>, host: int)
    requires WindowPart(s1) == WindowPart(s)
    ensures EntriesFrom(s, w, hosts + [host]) == EntriesFrom(s, w, hosts) + [Entry(host, w, WinAt(s1, host, w))]
  {
  }

  lemma EmitHostKeeps(cfg: Config, s: State, w: int, host: int)
    requires cfg.delta > 0
    ensures WindowPart(EmitHost(cfg, s, w, host).0) == WindowPart(s)
  {
  }

  lemma EmitAllSnoc(cfg: Config, s: State, w: int, hosts: seq<int>, host: int)
    requires cfg.delta > 0
    ensures var a := EmitAll(cfg, s, w, hosts);
            var b := EmitHost(cfg, a.0, w, host);
            EmitAll(cfg, s, w, hosts + [host]) == (b.0, a.1 + b.1)
  {
    assert (hosts + [host])[..|hosts|] == hosts;
  }

  lemma {:induction false} EmitAllEntries(cfg: Config, s: State, w: int, hosts: seq<int>)
    requires cfg.delta > 0
    ensures WindowPart(EmitAll(cfg, s, w, hosts).0) == WindowPart(s)
    ensures Entries(EmitAll(cfg, s, w, hosts).1) == EntriesFrom(s, w, hosts)
  {
    if hosts != [] {
      var init, host := hosts[..|hosts| - 1], hosts[|hosts| - 1];
      assert hosts == init + [host];
      EmitAllEntries(cfg, s, w, init);
      EmitAllSnoc(cfg, s, w, init, host);
      var a := EmitAll(cfg, s, w, init);
      EmitHostEntries(cfg, a.0, w, host);
      EmitHostKeeps(cfg, a.0, w, host);
      EntriesConcat(a.1, EmitHost(cfg, a.0, w, host).1);
      EntriesFromSnoc(s, a.0, w, init, host);
    }
  }

  lemma CloseEntries(cfg: Config, s: State, log: Log)
    requires cfg.delta > 0 && Tied(cfg, s, log) && log.current.Some?
    ensures Entries(CloseWindow(cfg, s, log.current.value.w).1)
         == SegmentEntries(cfg.delta, Segment(log.current.value.w, log.events))
  {
    var w := log.current.value.w;
    var hosts := Orders.Ascend(HostsAt(s, w));
    EmitAllEntries(cfg, s, w, hosts);
    assert HostsAt(s, w) == Sources(cfg.delta, log.events, w);
    assert EntriesFrom(s, w, hosts) == SegmentEntries(cfg.delta, Segment(w, log.events));
  }

  lemma NoSource(delta: int, events: seq<Event>, h: int, w: int)
    requires delta > 0 && h !in Sources(delta, events, w)
    ensures GroupBy(delta, events, h, w) == map[]
  {
    assert forall e | e in events && Matches(delta, e, h, w) :: e.src.value in Sources(delta, events, w);
    NothingMatches(delta, events, h, w);
  }

  lemma OtherWindow(delta: int, events: seq<Event>, h: int, open': int, w: int)
    requires delta > 0 && AllIn(delta, events, open') && w != open'
    ensures GroupBy(delta, events, h, w) == map[] && Matching(delta, events, h, w) == 0
    ensures Sources(delta, events, w) == {}
  {
    NothingMatches(delta, events, h, w);
  }

  lemma DiscardEmpties(cfg: Config, s: State, s': State, log: Log)
    requires cfg.delta > 0 && Tied(cfg, s, log) && log.current.Some? && WindowPart(s') == WindowPart(s)
    ensures var d := Discard(cfg, s', log.current.value.w, HostsAt(s, log.current.value.w));
            && d.current == None
            && (forall h, w :: WinAt(d, h, w) == map[])
            && (forall w :: HostsAt(d, w) == {})
  {
    var o := log.current.value.w;
    var hosts := HostsAt(s, o);
    var gone := set h | h in hosts :: (h, o);
    var d := Discard(cfg, s', o, hosts);
    forall w
      ensures HostsAt(d, w) == {}
    {
      if w != o {
        OtherWindow(cfg.delta, log.events, 0, o, w);
        assert HostsAt(s, w) == Sources(cfg.delta, log.events, w);
      }
    }
    forall h, w
      ensures WinAt(d, h, w) == map[]
    {
      assert WinAt(s, h, w) == GroupBy(cfg.delta, log.events, h, w);
      if w != o {
        OtherWindow(cfg.delta, log.events, h, o, w);
      } else if h in hosts {
        assert (h, w) in gone;
      } else {
        NoSource(cfg.delta, log.events, h, w);
      }
    }
  }

  lemma CloseKeepsTied(cfg: Config, s: State, log: Log)
    requires cfg.delta > 0 && Tied(cfg, s, log) && log.current.Some?
    ensures Tied(cfg, CloseWindow(cfg, s, log.current.value.w).0, Cut(log))
  {
    var w := log.current.value.w;
    var hosts := Orders.Ascend(HostsAt(s, w));
    EmitAllEntries(cfg, s, w, hosts);
    DiscardEmpties(cfg, s, EmitAll(cfg, s, w, hosts).0, log);
    assert forall v :: Sources(cfg.delta, [], v) == {};
  }

  lemma WinAtUpdated(s: State, s': State, host: int, w: int, h: Hash, x: int, v: int)
    requires s'.wins == s.wins[(host, w) := h]
    ensures WinAt(s', x, v) == if x == host && v == w then h else WinAt(s, x, v)
  {
  }

  lemma AccumulateWins(cfg: Config, s: State, log: Log, e: Event, now: real, h: int, v: int)
    requires cfg.delta > 0 && Tied(cfg, s, log) && e.src.Some?
    ensures WinAt(Accumulate(s, e, e.src.value, Align(e.ts, cfg.delta), now), h, v)
         == GroupBy(cfg.delta, log.events + [e], h, v)
  {
    var host, w := e.src.value, Align(e.ts, cfg.delta);
    var s' := Accumulate(s, e, host, w, now);
    WinAtUpdated(s, s', host, w, Merge(WinAt(s, host, w), EventIncrements(e)), h, v);
    assert WinAt(s, h, v) == GroupBy(cfg.delta, log.events, h, v);
    GroupBySnoc(cfg.delta, log.events, e, h, v);
  }

  lemma AccumulateHosts(cfg: Config, s: State, log: Log, e: Event, now: real, v: int)
    requires cfg.delta > 0 && Tied(cfg, s, log) && e.src.Some?
    ensures HostsAt(Accumulate(s, e, e.src.value, Align(e.ts, cfg.delta), now), v)
         == Sources(cfg.delta, log.events + [e], v)
  {
    assert HostsAt(s, v) == Sources(cfg.delta, log.events, v);
    SourcesSnoc(cfg.delta, log.events, e, v);
  }

  lemma TiedGrows(cfg: Config, s': State, log: Log, e: Event, now: real)
    requires cfg.delta > 0 && e.src.Some? && WellCut(cfg.delta, log.closed)
    requires AllIn(cfg.delta, log.events, Align(e.ts, cfg.delta))
    requires s'.current == Some(Open(Align(e.ts, cfg.delta), now))
    requires forall h, v :: WinAt(s', h, v) == GroupBy(cfg.delta, log.events + [e], h, v)
    requires forall v :: HostsAt(s', v) == Sources(cfg.delta, log.events + [e], v)
    ensures Tied(cfg, s', Join(log, Align(e.ts, cfg.delta), e, now))
  {
  }

  lemma AccumulateKeepsTied(cfg: Config, s: State, log: Log, e: Event, now: real)
    requires cfg.delta > 0 && Tied(cfg, s, log) && e.src.Some?
    requires log.current.Some? ==> log.current.value.w == Align(e.ts, cfg.delta)
    ensures var w := Align(e.ts, cfg.delta);
            Tied(cfg, Accumulate(s, e, e.src.value, w, now), Join(log, w, e, now))
  {
    var s' := Accumulate(s, e, e.src.value, Align(e.ts, cfg.delta), now);
    forall h, v
      ensures WinAt(s', h, v) == GroupBy(cfg.delta, log.events + [e], h, v)
    {
      AccumulateWins(cfg, s, log, e, now, h, v);
    }
    forall v
      ensures HostsAt(s', v) == Sources(cfg.delta, log.events + [e], v)
    {
      AccumulateHosts(cfg, s, log, e, now, v);
    }
    TiedGrows(cfg, s', log, e, now);
  }

  lemma SourcesSnoc(delta: int, events: seq<Event>, e: Event, w: int)
    requires delta > 0
    ensures Sources(delta, events + [e], w) ==
              Sources(delta, events, w) + if e.src.Some? && Align(e.ts, delta) == w then {e.src.value} else {}
  {
    assert forall x :: x in events + [e] <==> x in events || x == e;
  }

  lemma ClosedSnoc(delta: int, closed: seq<Segment>, seg: Segment)
    requires delta > 0
    ensures ClosedEntries(delta, closed + [seg]) == ClosedEntries(delta, closed) + SegmentEntries(delta, seg)
    ensures ClosedEvents(closed + [seg]) == ClosedEvents(closed) + seg.events
  {
    assert (closed + [seg])[..|closed|] == closed;
  }

  /** What a step does to machine and log alike. */
  ghost predicate Follows(cfg: Config, log: Log, s': State, rows: seq<Row>, log': Log)
    requires cfg.delta > 0
  {
    && Tied(cfg, s', log')
    && ClosedEntries(cfg.delta, log'.closed) == ClosedEntries(cfg.delta, log.closed) + Entries(rows)
  }

  /** The log's side of `Closing`. */
  function LogClosing(cfg: Config, log: Log, a: Action): Log
    requires cfg.delta > 0
  {
    if log.current.Some? && (if a.Tick? then Expired(cfg, log.current.value, a.now)
                             else a.e.src.Some? && Align(a.e.ts, cfg.delta) > log.current.value.w)
    then Cut(log)
    else log
  }

  lemma ClosingFollows(cfg: Config, s: State, log: Log, a: Action)
    requires cfg.delta > 0 && Tied(cfg, s, log)
    ensures var c := Closing(cfg, s, a);
            Follows(cfg, log, c.0, c.1, LogClosing(cfg, log, a))
  {
    if log.current.Some? {
      CloseKeepsTied(cfg, s, log);
      CloseEntries(cfg, s, log);
      ClosedSnoc(cfg.delta, log.closed, Segment(log.current.value.w, log.events));
    }
  }

  lemma LogStepJoins(cfg: Config, s: State, log: Log, a: Action)
    requires cfg.delta > 0 && s.current == log.current
    ensures var c := LogClosing(cfg, log, a);
            LogStep(cfg, log, a) ==
              if a.Ingest? && Accepts(cfg, s, a.e) then Join(c, Align(a.e.ts, cfg.delta), a.e, a.now) else c
    ensures a.Ingest? && Accepts(cfg, s, a.e) ==>
              var c := LogClosing(cfg, log, a);
              c.current.Some? ==> c.current.value.w == Align(a.e.ts, cfg.delta)
  {
  }

  /** One step: the rows are the entries of the segment the step closes, if it closes one. */
  lemma StepIsLogStep(cfg: Config, s: State, log: Log, a: Action)
    requires cfg.delta > 0 && Tied(cfg, s, log)
    ensures Follows(cfg, log, Step(cfg, s, a).0, Step(cfg, s, a).1, LogStep(cfg, log, a))
  {
    ClosingFollows(cfg, s, log, a);
    LogStepJoins(cfg, s, log, a);
    if a.Ingest? && Accepts(cfg, s, a.e) {
      AccumulateKeepsTied(cfg, Closing(cfg, s, a).0, LogClosing(cfg, log, a), a.e, a.now);
    }
  }

  /**
   * Over every run, the active rows published are, in order, the group-by of each closed
   * segment; and the open window holds the group-by of everything accepted since.
   */
  lemma {:induction false} RunIsGroupBySegments(cfg: Config, actions: seq<Action>)
    requires cfg.delta > 0
    ensures Tied(cfg, Run(cfg, actions).0, LogOf(cfg, actions))
    ensures Entries(Run(cfg, actions).1) == ClosedEntries(cfg.delta, LogOf(cfg, actions).closed)
  {
    if actions == [] {
      assert forall v :: Sources(cfg.delta, [], v) == {};
    } else {
      var init, a := actions[..|actions| - 1], actions[|actions| - 1];
      RunIsGroupBySegments(cfg, init);
      var (s, rows) := Run(cfg, init);
      StepIsLogStep(cfg, s, LogOf(cfg, init), a);
      EntriesConcat(rows, Step(cfg, s, a).1);
    }
  }

  function StreamOf(log: Log): seq<Event> {
    ClosedEvents(log.closed) + log.events
  }

  lemma CutKeepsStream(log: Log, delta: int)
    requires log.current.Some? && delta > 0
    ensures StreamOf(Cut(log)) == StreamOf(log)
  {
    ClosedSnoc(delta, log.closed, Segment(log.current.value.w, log.events));
  }

  lemma LogStepAppends(cfg: Config, s: State, log: Log, a: Action)
    requires cfg.delta > 0 && s.current == log.current
    ensures StreamOf(LogStep(cfg, log, a)) ==
              StreamOf(log) + if a.Ingest? && Accepts(cfg, s, a.e) then [a.e] else []
  {
    if log.current.Some? {
      CutKeepsStream(log, cfg.delta);
    }
  }

  /** No accepted event is lost or repeated: the segments and the open window are the accepted stream. */
  lemma {:induction false} SegmentsAreTheAcceptedStream(cfg: Config, actions: seq<Action>)
    requires cfg.delta > 0
    ensures StreamOf(LogOf(cfg, actions)) == Accepted(cfg, actions)
  {
    if actions != [] {
      var init, a := actions[..|actions| - 1], actions[|actions| - 1];
      SegmentsAreTheAcceptedStream(cfg, init);
      RunIsGroupBySegments(cfg, init);
      LogStepAppends(cfg, Run(cfg, init).0, LogOf(cfg, init), a);
    }
  }
}
