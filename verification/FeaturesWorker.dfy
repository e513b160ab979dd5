/**
 * The worker itself, updating its Redis state in place, proved against the
 * state machine of `Features`. One tenant; the per-tenant lock makes each
 * public method one atomic step.
 */
module FeatureService {
  import opened Options
  import opened Events
  import opened Increments
  import opened EdgeSets
  import opened Features
  import T = Timeline
  import Orders

  function SilentRows(host: int, points: seq<T.Point>): seq<Row> {
    seq(|points|, i requires 0 <= i < |points| => Row(host, None, points[i]))
  }

  lemma RowsOfSplit(host: int, win: Window, silent: seq<T.Point>, last: T.Point)
    requires last.cell.seen && forall q | q in silent :: !q.cell.seen
    ensures RowsOf(host, win, silent + [last]) == SilentRows(host, silent) + [Row(host, Some(win), last)]
  {
  }

  lemma FilledAreSilent(p: T.Pace, prev: Option<T.Prev>, ts: int)
    requires p.delta > 0
    ensures forall q | q in T.Resume(p, prev, ts).1 :: !q.cell.seen
  {
  }

  lemma SilencesSnoc(h: seq<T.Tracked>, n: nat)
    ensures T.LastN(T.LastN(h + T.Silences(n), T.HISTORY_LEN) + [T.SILENT], T.HISTORY_LEN)
         == T.LastN(h + T.Silences(n + 1), T.HISTORY_LEN)
  {
    T.LastNAbsorbs(h + T.Silences(n), [T.SILENT], T.HISTORY_LEN);
    assert h + T.Silences(n) + [T.SILENT] == h + T.Silences(n + 1);
  }

  /** The history carried over n silent windows. */
  function CarriedOver(carried: seq<T.Tracked>, n: nat): seq<T.Tracked> {
    if n == 0 then carried else T.LastN(carried + T.Silences(n), T.HISTORY_LEN)
  }

  lemma CarriedOverSnoc(carried: seq<T.Tracked>, n: nat)
    ensures T.LastN(CarriedOver(carried, n) + [T.SILENT], T.HISTORY_LEN) == CarriedOver(carried, n + 1)
  {
    SilencesSnoc(carried, n);
    assert carried + T.Silences(0) == carried;
    if n == 0 {
      T.LastNAbsorbs(carried, [T.SILENT], T.HISTORY_LEN);
    }
  }

  /** The first n rows of a gap. */
  function GapRows(p: T.Pace, host: int, lastTs: int, gap: nat, n: nat): seq<Row>
    requires p.delta > 0 && n <= gap
  {
    SilentRows(host, T.SilentPoints(p, lastTs, gap)[..n])
  }

  lemma GapRowsSnoc(p: T.Pace, host: int, lastTs: int, gap: nat, n: nat, ts: int)
    requires p.delta > 0 && n < gap && ts == lastTs + (n + 1) * p.delta
    ensures GapRows(p, host, lastTs, gap, n + 1)
         == GapRows(p, host, lastTs, gap, n) + [Row(host, None, T.SilentPoint(T.Cell(ts, false, T.SILENT)))]
  {
    var points := T.SilentPoints(p, lastTs, gap);
    T.SilentCellAt(p, lastTs, gap, n);
    assert points[n] == T.SilentPoint(T.Cell(ts, false, T.SILENT));
    assert points[..n + 1] == points[..n] + [points[n]];
  }

  /** Every field of inc but those in todo has been added to start. */
  ghost predicate PartlyMerged(start: Hash, inc: Hash, todo: set<Field>, h: Hash) {
    h == Merge(start, inc - todo)
  }

  lemma MergeStep(start: Hash, inc: Hash, todo: set<Field>, h: Hash, f: Field)
    requires PartlyMerged(start, inc, todo, h) && f in todo && f in inc
    ensures PartlyMerged(start, inc, todo - {f}, Bump(h, f, inc[f]))
  {
    var next := Bump(h, f, inc[f]);
    var goal := Merge(start, inc - (todo - {f}));
    assert goal.Keys == next.Keys;
    forall g | g in goal
      ensures goal[g] == next[g]
    {
      assert Get(inc - (todo - {f}), g) == if g == f then inc[f] else Get(inc - todo, g);
    }
  }

  /** One increment per field of the event, in whatever order the fields come. */
  method HashIncrBy(start: Hash, inc: Hash) returns (h: Hash)
    ensures h == Merge(start, inc)
  {
    h := start;
    var todo := inc.Keys;
    assert inc - todo == map[];
    MergeEmpty(start);
    while todo != {}
      invariant todo <= inc.Keys
      invariant PartlyMerged(start, inc, todo, h)
      decreases |todo|
    {
      var f :| f in todo;
      MergeStep(start, inc, todo, h, f);
      h := Bump(h, f, inc[f]);
      todo := todo - {f};
    }
    assert inc - {} == inc;
  }

  /** The state and rows of one emission, put together from its parts. */
  lemma EmitHostParts(cfg: Config, s: State, w: int, host: int, history: seq<T.Tracked>, silent: seq<T.Point>)
    requires cfg.delta > 0 && T.Resume(PaceOf(cfg), PrevAt(s, host), w) == (history, silent)
    ensures var win := WindowOf(cfg, s, host, w);
            var x := Track(cfg, host, win);
            var point := T.Point(T.Cell(w, true, x), T.Deltas(x, history), T.Slopes(x, history));
            Features.EmitHost(cfg, s, w, host) ==
              (s.(peers := s.peers[host := PeersAt(s, host) + Peers(win.acc)],
                  prev := s.prev[host := T.Prev(w, T.LastN(history + [x], T.HISTORY_LEN))]),
               SilentRows(host, silent) + [Row(host, Some(win), point)])
  {
    var win := WindowOf(cfg, s, host, w);
    var x := Track(cfg, host, win);
    var point := T.Point(T.Cell(w, true, x), T.Deltas(x, history), T.Slopes(x, history));
    FilledAreSilent(PaceOf(cfg), PrevAt(s, host), w);
    RowsOfSplit(host, win, silent, point);
  }

  lemma EmitAllNext(cfg: Config, before: State, w: int, init: seq<int>, host: int, s: State, rows: seq<Row>)
    requires cfg.delta > 0 && (s, rows) == EmitAll(cfg, before, w, init)
    ensures var e := Features.EmitHost(cfg, s, w, host);
            (e.0, rows + e.1) == EmitAll(cfg, before, w, init + [host])
  {
    EmitAllSnoc(cfg, before, w, init, host);
  }

  lemma PrefixSnoc(order: seq<int>, n: nat)
    requires n < |order|
    ensures order[..n + 1] == order[..n] + [order[n]]
  {
  }

  lemma EmitAllPrefix(cfg: Config, before: State, w: int, order: seq<int>, n: nat, s: State, rows: seq<Row>)
    requires cfg.delta > 0 && n < |order| && (s, rows) == EmitAll(cfg, before, w, order[..n])
    ensures var e := Features.EmitHost(cfg, s, w, order[n]);
            (e.0, rows + e.1) == EmitAll(cfg, before, w, order[..n + 1])
  {
    PrefixSnoc(order, n);
    EmitAllNext(cfg, before, w, order[..n], order[n], s, rows);
  }

  class FeaturesWorker {
    const cfg: Config
    var current: Option<Open>
    var hosts: map<int, set<int>>
    var wins: map<(int, int), Hash>
    var graph: map<int, set<Edge>>
    var peers: map<int, set<int>>
    var prev: map<int, T.Prev>
    var sent: seq<Row>

    ghost function Now(): State
      reads this
    {
      State(current, hosts, wins, graph, peers, prev)
    }

    constructor (cfg: Config)
      ensures this.cfg == cfg && Now() == EMPTY && sent == []
    {
      this.cfg := cfg;
      current, hosts, wins, graph, peers, prev, sent := None, map[], map[], map[], map[], map[], [];
    }

    method Publish(row: Row)
      modifies this`sent
      ensures sent == old(sent) + [row]
    {
      sent := sent + [row];
    }

    /** One zero row per window the host sat out, or a fresh start past the maximum gap. */
    method FillGap(host: int, lastTs: int, windowTs: int, carried: seq<T.Tracked>) returns (history: seq<T.Tracked>)
      requires cfg.delta > 0
      modifies this`sent
      ensures var (h, silent) := T.FillGap(PaceOf(cfg), T.Prev(lastTs, carried), windowTs);
              history == h && sent == old(sent) + SilentRows(host, silent)
    {
      var gap := (windowTs - lastTs) / cfg.delta - 1;
      T.GapIsFloorDivision(PaceOf(cfg), lastTs, windowTs);
      if gap <= 0 {
        assert sent == old(sent) + SilentRows(host, []);
        return carried;
      }
      if gap > cfg.maxGap {
        assert sent == old(sent) + SilentRows(host, []);
        return [];
      }
      assert GapRows(PaceOf(cfg), host, lastTs, gap, 0) == [];
      history := carried;
      var step := 1;
      while step <= gap
        invariant 1 <= step <= gap + 1
        invariant sent == old(sent) + GapRows(PaceOf(cfg), host, lastTs, gap, step - 1)
        invariant history == CarriedOver(carried, step - 1)
      {
        var silentTs := lastTs + step * cfg.delta;
        GapRowsSnoc(PaceOf(cfg), host, lastTs, gap, step - 1, silentTs);
        CarriedOverSnoc(carried, step - 1);
        Publish(Row(host, None, T.SilentPoint(T.Cell(silentTs, false, T.SILENT))));
        history := T.LastN(history + [T.SILENT], T.HISTORY_LEN);
        step := step + 1;
      }
      assert T.SilentPoints(PaceOf(cfg), lastTs, gap)[..gap] == T.SilentPoints(PaceOf(cfg), lastTs, gap);
    }

    /** The count is taken against the peers stored so far, and only then are the new ones stored. */
    method RecordPeers(host: int, found: set<int>) returns (fresh': nat)
      modifies this`peers
      ensures fresh' == |found - PeersAt(old(Now()), host)|
      ensures Now() == old(Now()).(peers := old(peers)[host := PeersAt(old(Now()), host) + found])
    {
      var known := if host in peers then peers[host] else {};
      fresh' := |found - known|;
      peers := peers[host := known + found];
    }

    /** `Resume`, published row by row. */
    method CatchUp(host: int, w: int) returns (history: seq<T.Tracked>)
      requires cfg.delta > 0
      modifies this`sent
      ensures var (h, silent) := T.Resume(PaceOf(cfg), PrevAt(old(Now()), host), w);
              history == h && sent == old(sent) + SilentRows(host, silent)
    {
      history := [];
      if host in prev {
        history := FillGap(host, prev[host].lastTs, w, prev[host].history);
      } else {
        assert sent == sent + SilentRows(host, []);
      }
    }

    method EmitHost(host: int, w: int)
      requires cfg.delta > 0
      modifies this`sent, this`peers, this`prev
      ensures var (s, rows) := Features.EmitHost(cfg, old(Now()), w, host);
              Now() == s && sent == old(sent) + rows
    {
      ghost var before, start := Now(), sent;
      ghost var silent := T.Resume(PaceOf(cfg), PrevAt(before, host), w).1;
      var history := CatchUp(host, w);
      EmitHostParts(cfg, before, w, host, history, silent);
      var row := EmitActive(host, w, history);
      T.Regroup(start, SilentRows(host, silent), [row], SilentRows(host, silent) + [row]);
    }

    /** The row of window w itself, from its accumulator, the graphs, the peers and the history. */
    method EmitActive(host: int, w: int, history: seq<T.Tracked>) returns (row: Row)
      modifies this`sent, this`peers, this`prev
      ensures var win := WindowOf(cfg, old(Now()), host, w);
              var x := Track(cfg, host, win);
              && row == Row(host, Some(win), T.Point(T.Cell(w, true, x), T.Deltas(x, history), T.Slopes(x, history)))
              && sent == old(sent) + [row]
              && Now() == old(Now()).(
                   peers := old(peers)[host := PeersAt(old(Now()), host) + Peers(win.acc)],
                   prev := old(prev)[host := T.Prev(w, T.LastN(history + [x], T.HISTORY_LEN))])
    {
      var acc := if (host, w) in wins then wins[(host, w)] else map[];
      var newPeers := RecordPeers(host, Peers(acc));
      var here := if w in graph then graph[w] else {};
      var previous := if w - cfg.delta in graph then graph[w - cfg.delta] else {};
      var win := Window(acc, here, previous, newPeers);
      var x := Track(cfg, host, win);
      row := Row(host, Some(win), T.Point(T.Cell(w, true, x), T.Deltas(x, history), T.Slopes(x, history)));
      Publish(row);
      prev := prev[host := T.Prev(w, T.LastN(history + [x], T.HISTORY_LEN))];
    }

    method EmitEach(order: seq<int>, w: int)
      requires cfg.delta > 0
      modifies this`sent, this`peers, this`prev
      ensures var (s, rows) := EmitAll(cfg, old(Now()), w, order);
              Now() == s && sent == old(sent) + rows
    {
      ghost var before, start := Now(), sent;
      ghost var s, rows := before, [];
      var n := 0;
      while n < |order|
        invariant 0 <= n <= |order|
        invariant (s, rows) == EmitAll(cfg, before, w, order[..n])
        invariant Now() == s && sent == start + rows
      {
        ghost var e := Features.EmitHost(cfg, s, w, order[n]);
        EmitAllPrefix(cfg, before, w, order, n, s, rows);
        EmitHost(order[n], w);
        T.Regroup(start, rows, e.1, rows + e.1);
        s, rows := e.0, rows + e.1;
        n := n + 1;
      }
      assert order[..n] == order;
    }

    method CloseWindow(w: int)
      requires cfg.delta > 0
      modifies this
      ensures var (s, rows) := Features.CloseWindow(cfg, old(Now()), w);
              Now() == s && sent == old(sent) + rows
    {
      var sources := if w in hosts then hosts[w] else {};
      EmitEach(Orders.Ascend(sources), w);
      wins := wins - (set h | h in sources :: (h, w));
      hosts := hosts - {w};
      graph := graph - {w - cfg.delta};
      ClearOpen(w);
    }

    /** Only the window just closed loses its marker. */
    method ClearOpen(w: int)
      modifies this`current
      ensures current == if old(current).Some? && old(current).value.w == w then None else old(current)
    {
      if current.Some? && current.value.w == w {
        current := None;
      }
    }

    method FoldIn(inc: Hash, dst: Option<int>, host: int, w: int, now: real)
      modifies this`wins, this`hosts, this`graph, this`current
      ensures Now() == Fold(old(Now()), inc, dst, host, w, now)
    {
      var h := HashIncrBy(if (host, w) in wins then wins[(host, w)] else map[], inc);
      wins := wins[(host, w) := h];
      hosts := hosts[w := (if w in hosts then hosts[w] else {}) + {host}];
      if dst.Some? {
        graph := graph[w := (if w in graph then graph[w] else {}) + {(host, dst.value)}];
      }
      current := Some(Open(w, now));
    }

    method Accumulate(e: Event, host: int, w: int, now: real)
      modifies this`wins, this`hosts, this`graph, this`current
      ensures Now() == Features.Accumulate(old(Now()), e, host, w, now)
    {
      FoldIn(EventIncrements(e), e.dst, host, w, now);
    }

    /** One `Ingest` step of the machine, in place. */
    method IngestEvent(e: Event, now: real)
      requires cfg.delta > 0
      modifies this
      ensures var (s, rows) := Step(cfg, old(Now()), Ingest(e, now));
              Now() == s && sent == old(sent) + rows
    {
      assert sent == sent + [];
      if e.src.None? {
        return;
      }
      var w := Align(e.ts, cfg.delta);
      if current.Some? && w < current.value.w {
        return;
      }
      if current.Some? && w > current.value.w {
        CloseWindow(current.value.w);
      }
      Accumulate(e, e.src.value, w, now);
    }

    /** One `Tick` step of the machine, in place. */
    method WatchdogTick(now: real)
      requires cfg.delta > 0
      modifies this
      ensures var (s, rows) := Step(cfg, old(Now()), Tick(now));
              Now() == s && sent == old(sent) + rows
    {
      assert sent == sent + [];
      if current.None? || now - current.value.lastSeen < Grace(cfg) {
        return;
      }
      CloseWindow(current.value.w);
    }
  }
}
