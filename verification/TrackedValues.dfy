/**
 * What the tracked values of every published row mean, said of the raw events behind the
 * row: ratios as products, counts of destinations, a mean squared deviation.
 */
module TrackedValues {
  import opened Options
  import opened Numbers
  import opened Events
  import opened Carried
  import opened Increments
  import opened EdgeSets
  import opened Features
  import opened WindowTotals
  import opened WindowGraphs
  import opened BatchTimelines
  import T = Timeline
  import Orders

  // --------------------------------------------------------- measurements

  /** x is the quotient, and zero when there is nothing to divide by. */
  predicate IsQuotient(x: real, numerator: real, denominator: real) {
    if denominator == 0.0 then x == 0.0 else x * denominator == numerator
  }

  /** The mean gap of each of the host's flows of the window. */
  function FlowGaps(delta: int, events: seq<Event>, host: int, w: int): seq<real>
    requires delta > 0
  {
    if events == [] then []
    else
      var e := events[|events| - 1];
      FlowGaps(delta, events[..|events| - 1], host, w)
      + if SentIn(delta, e, host, w) && e.kind == Flow then [Value(e, IatMean)] else []
  }

  function Deviations(xs: seq<real>, m: real): real {
    if xs == [] then 0.0 else Deviations(xs[..|xs| - 1], m) + Squared(xs[|xs| - 1] - m)
  }

  /** v is the mean squared deviation of the values from their mean, and zero when there are none. */
  ghost predicate IsVariance(v: real, xs: seq<real>) {
    if xs == [] then v == 0.0
    else exists m: real :: IsMean(m, xs) && v * |xs| as real == Deviations(xs, m)
  }

  predicate IsMean(m: real, xs: seq<real>) {
    m * |xs| as real == Sum(xs)
  }

  /** Everyone the host contacted. */
  function Contacted(events: seq<Event>, host: int): set<int> {
    set e | e in events && e.src == Some(host) && e.dst.Some? :: e.dst.value
  }

  function ContactedIn(delta: int, events: seq<Event>, host: int, w: int): set<int>
    requires delta > 0
  {
    set e | e in events && SentIn(delta, e, host, w) && e.dst.Some? :: e.dst.value
  }

  /**
   * The six tracked values of a host in the i-th closed segment: SYNs per packet; the entropy of the
   * accumulator, every field of which is a sum over the events; distinct destinations; those of them
   * new to the host; the variance of the flows' mean gaps; retransmissions per packet event.
   */
  ghost predicate Measured(cfg: Config, closed: seq<Segment>, i: nat, host: int, x: seq<real>, acc: Hash)
    requires cfg.delta > 0 && i < |closed| && |x| == 6
  {
    var w, events := closed[i].w, closed[i].events;
    && IsQuotient(x[0], CarriedSum(cfg.delta, events, host, w, FlagCount(Syn)),
                  CarriedSum(cfg.delta, events, host, w, PktCount))
    && x[1] == cfg.entropy(acc) && (forall f :: Get(acc, f) == CarriedSum(cfg.delta, events, host, w, f))
    && x[2] == |ContactedIn(cfg.delta, Since(closed[..i], w + cfg.delta) + events, host, w)| as real
    && x[3] == |Contacted(events, host) - Contacted(ClosedEvents(closed[..i]), host)| as real
    && IsVariance(x[4], FlowGaps(cfg.delta, events, host, w))
    && IsQuotient(x[5], CarriedSum(cfg.delta, events, host, w, RetransCount),
                  CarriedSum(cfg.delta, events, host, w, NPackets))
  }

  // ----------------------------------------------------------- arithmetic

  lemma SafeDivIs(n: real, d: real)
    ensures IsQuotient(T.SafeDiv(n, d), n, d)
  {
  }

  function SquareSum(xs: seq<real>): real {
    if xs == [] then 0.0 else SquareSum(xs[..|xs| - 1]) + Squared(xs[|xs| - 1])
  }

  lemma SquareIsNonNegative(y: real)
    ensures Squared(y) >= 0.0
  {
    if y < 0.0 {
      assert y * y == (-y) * (-y);
    }
  }

  /** The deviations in terms of the sums, the primed values being those with one x more. */
  lemma DeviationStep(dev: real, dev': real, squares: real, squares': real, sum: real, sum': real,
                      n: real, n': real, x: real, m: real)
    requires dev == squares - 2.0 * m * sum + n * (m * m)
    requires dev' == dev + Squared(x - m) && squares' == squares + Squared(x) && sum' == sum + x && n' == n + 1.0
    ensures dev' == squares' - 2.0 * m * sum' + n' * (m * m)
  {
    assert (x - m) * (x - m) == x * x - 2.0 * m * x + m * m;
    assert 2.0 * m * (sum + x) == 2.0 * m * sum + 2.0 * m * x;
    assert (n + 1.0) * (m * m) == n * (m * m) + m * m;
  }

  lemma NoDeviation(squares: real, sum: real, n: real, m: real)
    requires squares == sum == n == 0.0
    ensures squares - 2.0 * m * sum + n * (m * m) == 0.0
  {
  }

  /** The sums over one value more. */
  lemma SumsOver(xs: seq<real>, m: real)
    requires xs != []
    ensures var init, x := xs[..|xs| - 1], xs[|xs| - 1];
            && Deviations(xs, m) == Deviations(init, m) + Squared(x - m)
            && SquareSum(xs) == SquareSum(init) + Squared(x)
            && Sum(xs) == Sum(init) + x && |xs| as real == |init| as real + 1.0
  {
  }

  lemma {:induction false} DeviationsAre(xs: seq<real>, m: real, squares: real, sum: real, n: real)
    requires squares == SquareSum(xs) && sum == Sum(xs) && n == |xs| as real
    ensures Deviations(xs, m) == squares - 2.0 * m * sum + n * (m * m)
    decreases |xs|
  {
    if xs == [] {
      NoDeviation(squares, sum, n, m);
    } else {
      var init, x := xs[..|xs| - 1], xs[|xs| - 1];
      SumsOver(xs, m);
      var squares0, sum0, n0 := SquareSum(init), Sum(init), |init| as real;
      DeviationsAre(init, m, squares0, sum0, n0);
      DeviationStep(Deviations(init, m), Deviations(xs, m), squares0, squares, sum0, sum, n0, n, x, m);
    }
  }

  lemma {:induction false} DeviationsAreNonNegative(xs: seq<real>, m: real)
    ensures Deviations(xs, m) >= 0.0
  {
    if xs != [] {
      DeviationsAreNonNegative(xs[..|xs| - 1], m);
      SquareIsNonNegative(xs[|xs| - 1] - m);
    }
  }

  lemma QuotientProduct(a: real, n: real)
    requires n > 0.0
    ensures a / n * n == a
  {
  }

  lemma PositiveFactor(v: real, n: real)
    requires n > 0.0 && v * n >= 0.0
    ensures v >= 0.0
  {
  }

  /** The mean m, and the spread around it as the sums have it. */
  predicate IsSpread(m: real, spread: real, sum: real, squares: real, n: real) {
    m * n == sum && spread == squares - 2.0 * m * sum + n * (m * m)
  }

  lemma VarianceOf(sum: real, squares: real, n: real, m: real, spread: real)
    requires n > 0.0 && IsSpread(m, spread, sum, squares, n) && spread >= 0.0
    ensures Variance(sum, squares, n) * n == spread
  {
    QuotientProduct(sum, n);
    QuotientProduct(squares, n);
    assert (sum / n - m) * n == 0.0;
    assert sum / n == m;
    var q := squares / n;
    var v := q - m * m;
    assert m * sum == m * (m * n);
    assert n * (m * m) == m * (m * n);
    assert v * n == q * n - m * (m * n);
    PositiveFactor(v, n);
  }

  lemma SpreadIsDeviations(xs: seq<real>, m: real, spread: real, sum: real, squares: real, n: real)
    requires squares == SquareSum(xs) && sum == Sum(xs) && n == |xs| as real
    requires IsSpread(m, spread, sum, squares, n)
    ensures spread == Deviations(xs, m) >= 0.0 && IsMean(m, xs)
  {
    DeviationsAre(xs, m, squares, sum, n);
    DeviationsAreNonNegative(xs, m);
  }

  lemma VarianceWitness(v: real, xs: seq<real>, m: real, spread: real, n: real)
    requires xs != [] && IsMean(m, xs) && v * n == spread == Deviations(xs, m) && n == |xs| as real
    ensures IsVariance(v, xs)
  {
  }

  lemma SomeSpread(sum: real, squares: real, n: real) returns (m: real, spread: real)
    requires n > 0.0
    ensures IsSpread(m, spread, sum, squares, n)
  {
    m := sum / n;
    QuotientProduct(sum, n);
    spread := squares - 2.0 * m * sum + n * (m * m);
  }

  lemma VarianceIs(xs: seq<real>, sum: real, squares: real, n: real, v: real)
    requires sum == Sum(xs) && squares == SquareSum(xs) && n == |xs| as real
    requires v == Variance(sum, squares, n)
    ensures IsVariance(v, xs)
  {
    if xs != [] {
      var m, spread := SomeSpread(sum, squares, n);
      SpreadIsDeviations(xs, m, spread, sum, squares, n);
      VarianceOf(sum, squares, n, m, spread);
      VarianceWitness(v, xs, m, spread, n);
    }
  }

  lemma SumsSnoc(xs: seq<real>, x: real)
    ensures Sum(xs + [x]) == Sum(xs) + x && SquareSum(xs + [x]) == SquareSum(xs) + Squared(x)
  {
    assert (xs + [x])[..|xs|] == xs;
  }

  lemma CarriesGap(e: Event)
    ensures Carries(e, IatSum) == if e.kind == Flow then Value(e, IatMean) else 0.0
    ensures Carries(e, IatSq) == if e.kind == Flow then Squared(Value(e, IatMean)) else 0.0
    ensures Carries(e, NFlows) == if e.kind == Flow then 1.0 else 0.0
  {
  }

  lemma FlowGapStep(delta: int, init: seq<Event>, e: Event, host: int, w: int, x: real)
    requires delta > 0 && x == Value(e, IatMean)
    ensures var rest, xs := FlowGaps(delta, init, host, w), FlowGaps(delta, init + [e], host, w);
            if SentIn(delta, e, host, w) && e.kind == Flow
            then Sum(xs) == Sum(rest) + x && SquareSum(xs) == SquareSum(rest) + Squared(x) && |xs| == |rest| + 1
            else xs == rest
  {
    var rest := FlowGaps(delta, init, host, w);
    assert (init + [e])[..|init|] == init;
    SumsSnoc(rest, x);
    assert rest + [] == rest;
  }

  lemma {:induction false} FlowGapsAre(delta: int, events: seq<Event>, host: int, w: int)
    requires delta > 0
    ensures var xs := FlowGaps(delta, events, host, w);
            && CarriedSum(delta, events, host, w, IatSum) == Sum(xs)
            && CarriedSum(delta, events, host, w, IatSq) == SquareSum(xs)
            && CarriedSum(delta, events, host, w, NFlows) == |xs| as real
  {
    if events != [] {
      var init, e := events[..|events| - 1], events[|events| - 1];
      assert events == init + [e];
      FlowGapsAre(delta, init, host, w);
      FlowGapStep(delta, init, e, host, w, Value(e, IatMean));
      CarriesGap(e);
    }
  }

  // ------------------------------------------- which window a row was read from

  /** An active row read the window as it stood when the window closed. */
  ghost predicate ReadsWindow(cfg: Config, s: State, w: int, r: Row) {
    r.window.Some? ==> r.point.cell.ts == w && r.window.value == WindowOf(cfg, s, r.host, w)
  }

  lemma EmitHostReads(cfg: Config, s: State, w: int, h: int)
    requires cfg.delta > 0
    ensures forall r | r in EmitHost(cfg, s, w, h).1 :: r.host == h && ReadsWindow(cfg, s, w, r)
  {
    EmitShape(PaceOf(cfg), PrevAt(s, h), T.Sample(w, Track(cfg, h, WindowOf(cfg, s, h, w))));
  }

  lemma SameWindowOf(cfg: Config, s: State, s': State, h: int, w: int)
    requires WindowPart(s') == WindowPart(s) && PeersAt(s', h) == PeersAt(s, h)
    ensures WindowOf(cfg, s', h, w) == WindowOf(cfg, s, h, w)
  {
  }

  lemma SameWin(s: State, s': State, h: int, w: int)
    requires WindowPart(s') == WindowPart(s)
    ensures WinAt(s', h, w) == WinAt(s, h, w)
  {
  }

  lemma EmitNextPeers(cfg: Config, s: State, s': State, w: int, init: seq<int>, last: int, h: int, found: set<int>)
    requires cfg.delta > 0 && WinAt(s', last, w) == WinAt(s, last, w) && found == Peers(WinAt(s, h, w))
    requires PeersAt(s', h) == PeersAt(s, h) + if h in init then found else {}
    ensures PeersAt(EmitHost(cfg, s', w, last).0, h) == PeersAt(s, h) + if h in init + [last] then found else {}
  {
    EmitHostPeers(cfg, s', w, last, h);
  }

  lemma {:induction false} EmitAllPeers(cfg: Config, s: State, w: int, hosts: seq<int>, h: int)
    requires cfg.delta > 0
    ensures PeersAt(EmitAll(cfg, s, w, hosts).0, h)
         == PeersAt(s, h) + if h in hosts then Peers(WinAt(s, h, w)) else {}
  {
    if hosts != [] {
      var init, last := hosts[..|hosts| - 1], hosts[|hosts| - 1];
      assert hosts == init + [last];
      EmitAllPeers(cfg, s, w, init, h);
      EmitAllSnoc(cfg, s, w, init, last);
      EmitAllEntries(cfg, s, w, init);
      var s' := EmitAll(cfg, s, w, init).0;
      SameWin(s, s', last, w);
      EmitNextPeers(cfg, s, s', w, init, last, h, Peers(WinAt(s, h, w)));
    }
  }

  ghost predicate AllRead(cfg: Config, s: State, w: int, hosts: seq<int>, rows: seq<Row>) {
    forall r | r in rows :: r.host in hosts && ReadsWindow(cfg, s, w, r)
  }

  lemma AllReadJoin(cfg: Config, s: State, s': State, w: int, init: seq<int>, h: int, a: seq<Row>, b: seq<Row>)
    requires AllRead(cfg, s, w, init, a)
    requires forall r | r in b :: r.host == h && ReadsWindow(cfg, s', w, r)
    requires WindowOf(cfg, s', h, w) == WindowOf(cfg, s, h, w)
    ensures AllRead(cfg, s, w, init + [h], a + b)
  {
  }

  lemma EmitNextReads(cfg: Config, s: State, w: int, init: seq<int>, h: int, s': State, rows: seq<Row>)
    requires cfg.delta > 0 && AllRead(cfg, s, w, init, rows)
    requires WindowPart(s') == WindowPart(s) && PeersAt(s', h) == PeersAt(s, h)
    ensures AllRead(cfg, s, w, init + [h], rows + EmitHost(cfg, s', w, h).1)
  {
    SameWindowOf(cfg, s, s', h, w);
    EmitHostReads(cfg, s', w, h);
    AllReadJoin(cfg, s, s', w, init, h, rows, EmitHost(cfg, s', w, h).1);
  }

  lemma {:induction false} EmitAllReads(cfg: Config, s: State, w: int, hosts: seq<int>)
    requires cfg.delta > 0 && forall i, j | 0 <= i < j < |hosts| :: hosts[i] != hosts[j]
    ensures AllRead(cfg, s, w, hosts, EmitAll(cfg, s, w, hosts).1)
  {
    if hosts != [] {
      var init, h := hosts[..|hosts| - 1], hosts[|hosts| - 1];
      assert hosts == init + [h] && h !in init;
      EmitAllReads(cfg, s, w, init);
      EmitAllEntries(cfg, s, w, init);
      EmitAllPeers(cfg, s, w, init, h);
      var (s', rows) := EmitAll(cfg, s, w, init);
      EmitNextReads(cfg, s, w, init, h, s', rows);
      EmitAllSnoc(cfg, s, w, init, h);
    }
  }

  lemma CloseReads(cfg: Config, s: State, w: int)
    requires cfg.delta > 0
    ensures AllRead(cfg, s, w, Orders.Ascend(HostsAt(s, w)), CloseWindow(cfg, s, w).1)
  {
    EmitAllReads(cfg, s, w, Orders.Ascend(HostsAt(s, w)));
  }

  // ----------------------------------------------------- peers on every run

  ghost predicate PeersKept(s: State, closed: seq<Segment>) {
    forall h :: PeersAt(s, h) == Contacted(ClosedEvents(closed), h)
  }

  lemma ContactedConcat(a: seq<Event>, b: seq<Event>, h: int)
    ensures Contacted(a + b, h) == Contacted(a, h) + Contacted(b, h)
  {
    assert forall e :: e in a + b <==> e in a || e in b;
  }

  lemma ContactedIsSucc(delta: int, events: seq<Event>, h: int, w: int)
    requires delta > 0
    ensures ContactedIn(delta, events, h, w) == Succ(EdgesAt(delta, events, w), h)
  {
    var edges := EdgesAt(delta, events, w);
    forall d: int
      ensures d in ContactedIn(delta, events, h, w) <==> d in Succ(edges, h)
    {
      InSucc(edges, h, d);
      if d in ContactedIn(delta, events, h, w) {
        var e :| e in events && SentIn(delta, e, h, w) && e.dst == Some(d);
        AlignIs(e.ts, delta, w);
        assert (e.src.value, e.dst.value) in edges;
      }
      if (h, d) in edges {
        var e :| e in events && e.src == Some(h) && e.dst == Some(d) && Align(e.ts, delta) == w;
        AlignIs(e.ts, delta, w);
      }
    }
  }

  lemma ContactedOfSegment(delta: int, seg: Segment, h: int)
    requires delta > 0 && AllIn(delta, seg.events, seg.w)
    ensures Contacted(seg.events, h) == ContactedIn(delta, seg.events, h, seg.w)
  {
    forall e | e in seg.events
      ensures e.src == Some(h) <==> SentIn(delta, e, h, seg.w)
    {
      AlignIs(e.ts, delta, seg.w);
    }
  }

  /** The peers in a segment's accumulator are those the host contacted in it. */
  lemma SegmentPeers(delta: int, seg: Segment, h: int)
    requires delta > 0 && AllIn(delta, seg.events, seg.w)
    ensures Peers(GroupBy(delta, seg.events, h, seg.w)) == Contacted(seg.events, h)
  {
    PeersAreSuccessors(delta, seg.events, h, seg.w);
    ContactedIsSucc(delta, seg.events, h, seg.w);
    ContactedOfSegment(delta, seg, h);
  }

  /** The part of the row's window the tracked values read, from the events of the i-th segment and before. */
  ghost predicate RowFrom(cfg: Config, closed: seq<Segment>, i: nat, r: Row)
    requires cfg.delta > 0
  {
    i < |closed| && r.window.Some? && closed[i].w == r.point.cell.ts
    && r.host in Sources(cfg.delta, closed[i].events, closed[i].w)
    && WinFrom(cfg.delta, closed[..i], closed[i], r.host, r.window.value)
  }

  ghost predicate WinFrom(delta: int, before: seq<Segment>, seg: Segment, h: int, win: Window)
    requires delta > 0
  {
    && win.acc == GroupBy(delta, seg.events, h, seg.w)
    && Succ(win.graph, h) == ContactedIn(delta, Since(before, seg.w + delta) + seg.events, h, seg.w)
    && win.newPeers == |Contacted(seg.events, h) - Contacted(ClosedEvents(before), h)|
  }

  ghost predicate RowsFrom(cfg: Config, closed: seq<Segment>, rows: seq<Row>)
    requires cfg.delta > 0
  {
    forall r | r in rows && r.window.Some? :: exists i: nat :: RowFrom(cfg, closed, i, r)
  }

  lemma WindowIsFrom(cfg: Config, s: State, log: Log, h: int)
    requires cfg.delta > 0 && Tied(cfg, s, log) && GraphsKept(cfg, s, log) && PeersKept(s, log.closed)
    requires log.current.Some?
    ensures var w := log.current.value.w;
            WinFrom(cfg.delta, log.closed, Segment(w, log.events), h, WindowOf(cfg, s, h, w))
  {
    var w := log.current.value.w;
    var seg := Segment(w, log.events);
    assert WinAt(s, h, w) == GroupBy(cfg.delta, log.events, h, w);
    SegmentPeers(cfg.delta, seg, h);
    KeptAt(cfg, s, log, w, w + cfg.delta);
    ContactedIsSucc(cfg.delta, Since(log.closed, w + cfg.delta) + log.events, h, w);
  }

  lemma RowFromGrows(cfg: Config, closed: seq<Segment>, seg: Segment, i: nat, r: Row)
    requires cfg.delta > 0 && RowFrom(cfg, closed, i, r)
    ensures RowFrom(cfg, closed + [seg], i, r)
  {
    assert (closed + [seg])[..i] == closed[..i];
  }

  lemma NewRowFrom(cfg: Config, s: State, log: Log, r: Row)
    requires cfg.delta > 0 && Tied(cfg, s, log) && GraphsKept(cfg, s, log) && PeersKept(s, log.closed)
    requires log.current.Some? && r.window.Some? && ReadsWindow(cfg, s, log.current.value.w, r)
    requires r.host in HostsAt(s, log.current.value.w)
    ensures RowFrom(cfg, Cut(log).closed, |log.closed|, r)
  {
    WindowIsFrom(cfg, s, log, r.host);
    assert Cut(log).closed[..|log.closed|] == log.closed;
    assert HostsAt(s, log.current.value.w) == Sources(cfg.delta, log.events, log.current.value.w);
  }

  lemma JoinRowsFrom(cfg: Config, closed: seq<Segment>, seg: Segment, rows: seq<Row>, more: seq<Row>)
    requires cfg.delta > 0 && RowsFrom(cfg, closed, rows)
    requires forall r | r in more && r.window.Some? :: RowFrom(cfg, closed + [seg], |closed|, r)
    ensures RowsFrom(cfg, closed + [seg], rows + more)
  {
    forall r | r in rows + more && r.window.Some?
      ensures exists i: nat :: RowFrom(cfg, closed + [seg], i, r)
    {
      if r in rows {
        var i: nat :| RowFrom(cfg, closed, i, r);
        RowFromGrows(cfg, closed, seg, i, r);
      }
    }
  }

  lemma CloseRowsFrom(cfg: Config, s: State, rows: seq<Row>, log: Log)
    requires cfg.delta > 0 && Tied(cfg, s, log) && GraphsKept(cfg, s, log) && PeersKept(s, log.closed)
    requires log.current.Some? && RowsFrom(cfg, log.closed, rows)
    ensures RowsFrom(cfg, Cut(log).closed, rows + CloseWindow(cfg, s, log.current.value.w).1)
  {
    var w := log.current.value.w;
    var more := CloseWindow(cfg, s, w).1;
    forall r | r in more && r.window.Some?
      ensures RowFrom(cfg, log.closed + [Segment(w, log.events)], |log.closed|, r)
    {
      CloseReads(cfg, s, w);
      NewRowFrom(cfg, s, log, r);
    }
    JoinRowsFrom(cfg, log.closed, Segment(w, log.events), rows, more);
  }

  lemma ClosePeersKept(cfg: Config, s: State, log: Log)
    requires cfg.delta > 0 && Tied(cfg, s, log) && PeersKept(s, log.closed) && log.current.Some?
    ensures PeersKept(CloseWindow(cfg, s, log.current.value.w).0, Cut(log).closed)
  {
    var w := log.current.value.w;
    var seg := Segment(w, log.events);
    var hosts := Orders.Ascend(HostsAt(s, w));
    assert Cut(log).closed[..|log.closed|] == log.closed;
    forall h
      ensures PeersAt(CloseWindow(cfg, s, w).0, h) == Contacted(ClosedEvents(Cut(log).closed), h)
    {
      EmitAllPeers(cfg, s, w, hosts, h);
      assert WinAt(s, h, w) == GroupBy(cfg.delta, log.events, h, w);
      assert HostsAt(s, w) == Sources(cfg.delta, log.events, w);
      SegmentPeers(cfg.delta, seg, h);
      ContactedConcat(ClosedEvents(log.closed), log.events, h);
      if h !in hosts {
        NoSource(cfg.delta, log.events, h, w);
      }
    }
  }

  ghost predicate MeasuresTied(cfg: Config, s: State, rows: seq<Row>, log: Log)
    requires cfg.delta > 0
  {
    PeersKept(s, log.closed) && RowsFrom(cfg, log.closed, rows)
  }

  lemma ClosingMeasures(cfg: Config, s: State, rows: seq<Row>, log: Log, a: Action)
    requires cfg.delta > 0 && Tied(cfg, s, log) && GraphsKept(cfg, s, log) && MeasuresTied(cfg, s, rows, log)
    ensures var c := Closing(cfg, s, a);
            MeasuresTied(cfg, c.0, rows + c.1, LogClosing(cfg, log, a))
  {
    assert rows + [] == rows;
    if log.current.Some? {
      CloseRowsFrom(cfg, s, rows, log);
      ClosePeersKept(cfg, s, log);
    }
  }

  lemma StepMeasures(cfg: Config, s: State, rows: seq<Row>, log: Log, a: Action)
    requires cfg.delta > 0 && Tied(cfg, s, log) && GraphsKept(cfg, s, log) && MeasuresTied(cfg, s, rows, log)
    ensures var e := Step(cfg, s, a);
            MeasuresTied(cfg, e.0, rows + e.1, LogStep(cfg, log, a))
  {
    ClosingMeasures(cfg, s, rows, log, a);
    LogStepJoins(cfg, s, log, a);
    OnlyClosingPublishes(cfg, s, a);
    var c, s' := Closing(cfg, s, a).0, Step(cfg, s, a).0;
    assert forall h :: PeersAt(s', h) == PeersAt(c, h);
  }

  lemma {:induction false} RunMeasures(cfg: Config, actions: seq<Action>)
    requires cfg.delta > 0
    ensures MeasuresTied(cfg, Run(cfg, actions).0, Run(cfg, actions).1, LogOf(cfg, actions))
  {
    if actions == [] {
      assert forall h :: Contacted([], h) == {};
    } else {
      var init := actions[..|actions| - 1];
      RunMeasures(cfg, init);
      RunIsGroupBySegments(cfg, init);
      RowsReadKeptGraphs(cfg, init);
      StepMeasures(cfg, Run(cfg, init).0, Run(cfg, init).1, LogOf(cfg, init), actions[|actions| - 1]);
    }
  }

  // --------------------------------------------------------- main results

  lemma TrackIsMeasured(cfg: Config, closed: seq<Segment>, i: nat, h: int, win: Window)
    requires cfg.delta > 0 && i < |closed| && WinFrom(cfg.delta, closed[..i], closed[i], h, win)
    ensures Measured(cfg, closed, i, h, Track(cfg, h, win), win.acc)
  {
    var w, events := closed[i].w, closed[i].events;
    forall f
      ensures Get(win.acc, f) == CarriedSum(cfg.delta, events, h, w, f)
    {
      GroupByIsSum(cfg.delta, events, h, w, f);
    }
    SafeDivIs(Get(win.acc, FlagCount(Syn)), Get(win.acc, PktCount));
    SafeDivIs(Get(win.acc, RetransCount), Get(win.acc, NPackets));
    FlowGapsAre(cfg.delta, events, h, w);
    var sum, squares, n := Get(win.acc, IatSum), Get(win.acc, IatSq), Get(win.acc, NFlows);
    VarianceIs(FlowGaps(cfg.delta, events, h, w), sum, squares, n, Variance(sum, squares, n));
  }

  /**
   * On every run, re-entry or not: the tracked values of every active row are the measurements of
   * the events of the closed segment it was published for.
   */
  lemma RowsAreMeasured(cfg: Config, actions: seq<Action>, r: Row) returns (i: nat)
    requires cfg.delta > 0 && r in Run(cfg, actions).1 && r.window.Some?
    ensures var closed := LogOf(cfg, actions).closed;
            && i < |closed| && closed[i].w == r.point.cell.ts
            && r.host in Sources(cfg.delta, closed[i].events, closed[i].w)
            && Measured(cfg, closed, i, r.host, r.point.cell.x, r.window.value.acc)
  {
    RunMeasures(cfg, actions);
    RunTracks(cfg, actions);
    i :| RowFrom(cfg, LogOf(cfg, actions).closed, i, r);
    TrackIsMeasured(cfg, LogOf(cfg, actions).closed, i, r.host, r.window.value);
  }

  // ------------------------------------------------------------ silent rows

  /** A backfilled row is all zeros: values, differences and slopes. */
  predicate Zero(r: Row) {
    r.window.None? ==>
      && r.point.cell.x == [0.0, 0.0, 0.0, 0.0, 0.0, 0.0]
      && r.point.deltas == [0.0, 0.0, 0.0, 0.0, 0.0, 0.0] && r.point.slopes == [0.0, 0.0, 0.0, 0.0]
  }

  lemma SilentPointsAreZero(p: T.Pace, lastTs: int, n: nat)
    ensures forall q | q in T.SilentPoints(p, lastTs, n) ::
              q.cell.x == T.SILENT && q.deltas == T.SILENT && q.slopes == T.NO_SLOPES
  {
  }

  lemma EmitHostZero(cfg: Config, s: State, w: int, h: int)
    requires cfg.delta > 0
    ensures forall r | r in EmitHost(cfg, s, w, h).1 :: Zero(r)
  {
    var win := WindowOf(cfg, s, h, w);
    var q := T.Sample(w, Track(cfg, h, win));
    EmitShape(PaceOf(cfg), PrevAt(s, h), q);
    if PrevAt(s, h).Some? {
      var lastTs := PrevAt(s, h).value.lastTs;
      SilentPointsAreZero(PaceOf(cfg), lastTs, T.Gap(PaceOf(cfg), lastTs, w));
    }
  }

  lemma {:induction false} EmitAllZero(cfg: Config, s: State, w: int, hosts: seq<int>)
    requires cfg.delta > 0
    ensures forall r | r in EmitAll(cfg, s, w, hosts).1 :: Zero(r)
  {
    if hosts != [] {
      var init, h := hosts[..|hosts| - 1], hosts[|hosts| - 1];
      assert hosts == init + [h];
      EmitAllZero(cfg, s, w, init);
      EmitAllSnoc(cfg, s, w, init, h);
      EmitHostZero(cfg, EmitAll(cfg, s, w, init).0, w, h);
    }
  }

  /** On every run: each row without a window behind it is all zeros. */
  lemma {:induction false} BackfilledRowsAreZero(cfg: Config, actions: seq<Action>)
    requires cfg.delta > 0
    ensures forall r | r in Run(cfg, actions).1 :: Zero(r)
  {
    if actions != [] {
      var init, a := actions[..|actions| - 1], actions[|actions| - 1];
      var s := Run(cfg, init).0;
      BackfilledRowsAreZero(cfg, init);
      OnlyClosingPublishes(cfg, s, a);
      if s.current.Some? {
        EmitAllZero(cfg, s, s.current.value.w, Orders.Ascend(HostsAt(s, s.current.value.w)));
      }
    }
  }
}
