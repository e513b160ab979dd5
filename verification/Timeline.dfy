/**
 * One host's published rows: backfilled silent windows, the carried history,
 * and the backward-looking dynamics, against the batch table built offline.
 */
module Timeline {
  import opened Numbers
  import opened Options

  /** syn_ratio, dst_port_entropy, out_degree, new_peer_count, iat_var, retrans_rate. */
  type Tracked = x: seq<real> | |x| == 6 witness [0.0, 0.0, 0.0, 0.0, 0.0, 0.0]

  const SILENT: Tracked := [0.0, 0.0, 0.0, 0.0, 0.0, 0.0]
  const NO_SLOPES: seq<real> := [0.0, 0.0, 0.0, 0.0]

  /** The tracked values with a slope: syn_ratio, dst_port_entropy, out_degree, iat_var. */
  const SLOPE_SOURCES: seq<nat> := [0, 1, 2, 4]

  const HISTORY_LEN: nat := 3

  datatype Pace = Pace(delta: int, maxGap: int)

  datatype Sample = Sample(ts: int, x: Tracked)

  datatype Cell = Cell(ts: int, seen: bool, x: Tracked)

  datatype Point = Point(cell: Cell, deltas: seq<real>, slopes: seq<real>)

  datatype Prev = Prev(lastTs: int, history: seq<Tracked>)

  function LastN<T>(s: seq<T>, n: nat): seq<T> {
    if |s| <= n then s else s[|s| - n..]
  }

  // ---------------------------------------------------------------- slopes

  function SafeDiv(numerator: real, denominator: real): real {
    if denominator == 0.0 then 0.0 else numerator / denominator
  }

  function SquaredSteps(n: nat, meanX: real): real {
    if n == 0 then 0.0 else SquaredSteps(n - 1, meanX) + ((n - 1) as real - meanX) * ((n - 1) as real - meanX)
  }

  function CrossSteps(v: seq<real>, meanX: real, meanY: real): real {
    if v == [] then 0.0
    else CrossSteps(v[..|v| - 1], meanX, meanY) + ((|v| - 1) as real - meanX) * (v[|v| - 1] - meanY)
  }

  /** The slope of the line fitted to the points at 0, 1, 2, ...; zero below three points. */
  function OlsSlope(v: seq<real>): real {
    if |v| < 3 then 0.0
    else
      var meanX := (|v| - 1) as real / 2.0;
      SafeDiv(CrossSteps(v, meanX, Sum(v) / |v| as real), SquaredSteps(|v|, meanX))
  }

  lemma ThreePointSlope(a: real, b: real, c: real)
    ensures OlsSlope([a, b, c]) == (c - a) / 2.0
  {
    var v := [a, b, c];
    assert v[..2] == [a, b] && [a, b][..1] == [a] && [a][..0] == [];
    var m := Sum(v) / 3.0;
    assert CrossSteps([a], 1.0, m) == m - a;
    assert CrossSteps([a, b], 1.0, m) == m - a;
    assert CrossSteps(v, 1.0, m) == c - a;
    assert SquaredSteps(1, 1.0) == 1.0 && SquaredSteps(2, 1.0) == 1.0;
    assert SquaredSteps(3, 1.0) == 2.0;
  }

  /** The offline rolling slope fills its array from the third entry on. */
  method RollingSlope3(x: array<real>) returns (slopes: array<real>)
    ensures fresh(slopes) && slopes.Length == x.Length
    ensures forall i | 0 <= i < x.Length :: slopes[i] == if i < 2 then 0.0 else (x[i] - x[i - 2]) / 2.0
  {
    slopes := new real[x.Length](_ => 0.0);
    var mean := (0.0 + 1.0 + 2.0) / 3.0;
    var denom := (0.0 - mean) * (0.0 - mean) + (1.0 - mean) * (1.0 - mean) + (2.0 - mean) * (2.0 - mean);
    assert mean == 1.0 && denom == 2.0;
    var i := 2;
    while i < x.Length
      invariant 2 <= i
      invariant forall j | 0 <= j < x.Length && (j < 2 || i <= j) :: slopes[j] == 0.0
      invariant forall j | 2 <= j < x.Length && j < i :: slopes[j] == (x[j] - x[j - 2]) / 2.0
    {
      var yMean := (x[i - 2] + x[i - 1] + x[i]) / 3.0;
      var cross := (0.0 - mean) * (x[i - 2] - yMean) + (1.0 - mean) * (x[i - 1] - yMean)
                   + (2.0 - mean) * (x[i] - yMean);
      assert cross == x[i] - x[i - 2];
      slopes[i] := if denom > 0.0 then cross / denom else 0.0;
      i := i + 1;
    }
  }

  // ---------------------------------------------------------------- online

  function Column(h: seq<Tracked>, c: nat): (r: seq<real>)
    requires c < 6
    ensures |r| == |h|
  {
    seq(|h|, i requires 0 <= i < |h| => h[i][c])
  }

  /** Backward differences against the newest entry of the history. */
  function Deltas(current: Tracked, history: seq<Tracked>): seq<real> {
    if history == [] then SILENT
    else seq(6, c requires 0 <= c < 6 => current[c] - history[|history| - 1][c])
  }

  /** Slopes over the two newest entries of the history and the current one. */
  function Slopes(current: Tracked, history: seq<Tracked>): seq<real> {
    var tail := LastN(history, 2);
    seq(4, k requires 0 <= k < 4 => OlsSlope(Column(tail, SLOPE_SOURCES[k]) + [current[SLOPE_SOURCES[k]]]))
  }

  /**
   * The dynamics of a row by value: differences of all six against the window before; of the first
   * three and the fifth, half the difference over two windows; zeros as long as there are none.
   */
  lemma DynamicsAre(x: Tracked, h: seq<Tracked>)
    ensures |Deltas(x, h)| == 6 && |Slopes(x, h)| == 4
    ensures h == [] ==> Deltas(x, h) == [0.0, 0.0, 0.0, 0.0, 0.0, 0.0]
    ensures h != [] ==> forall c | 0 <= c < 6 :: Deltas(x, h)[c] == x[c] - h[|h| - 1][c]
    ensures |h| < 2 ==> Slopes(x, h) == [0.0, 0.0, 0.0, 0.0]
    ensures |h| >= 2 ==>
              var y := h[|h| - 2];
              Slopes(x, h) == [(x[0] - y[0]) / 2.0, (x[1] - y[1]) / 2.0, (x[2] - y[2]) / 2.0, (x[4] - y[4]) / 2.0]
  {
    var tail := LastN(h, 2);
    forall k | 0 <= k < 4
      ensures Slopes(x, h)[k]
           == if |h| < 2 then 0.0 else (x[SLOPE_SOURCES[k]] - h[|h| - 2][SLOPE_SOURCES[k]]) / 2.0
    {
      var c := SLOPE_SOURCES[k];
      if |h| >= 2 {
        ThreePointSlope(h[|h| - 2][c], h[|h| - 1][c], x[c]);
        assert Column(tail, c) + [x[c]] == [h[|h| - 2][c], h[|h| - 1][c], x[c]];
      }
    }
    assert SLOPE_SOURCES[0] == 0 && SLOPE_SOURCES[1] == 1 && SLOPE_SOURCES[2] == 2 && SLOPE_SOURCES[3] == 4;
  }

  /** Three windows are carried, the newest ones. */
  lemma HistoryKept(h: seq<Tracked>)
    ensures LastN(h, HISTORY_LEN) == if |h| <= 3 then h else h[|h| - 3..]
  {
  }

  function SilentCells(p: Pace, lastTs: int, n: nat): (r: seq<Cell>)
    ensures |r| == n && forall k | 0 <= k < n :: !r[k].seen && r[k].x == SILENT
    decreases n
  {
    if n == 0 then [] else [Cell(lastTs + p.delta, false, SILENT)] + SilentCells(p, lastTs + p.delta, n - 1)
  }

  lemma {:induction false} SilentCellAt(p: Pace, lastTs: int, n: nat, k: nat)
    requires k < n
    ensures SilentCells(p, lastTs, n)[k].ts == lastTs + (k + 1) * p.delta
    decreases n
  {
    if k > 0 {
      SilentCellAt(p, lastTs + p.delta, n - 1, k - 1);
      assert (k + 1) * p.delta == k * p.delta + p.delta;
    }
  }

  /** A backfilled row is all zeros, its dynamics included. */
  function SilentPoint(c: Cell): Point {
    Point(c, SILENT, NO_SLOPES)
  }

  function SilentPoints(p: Pace, lastTs: int, n: nat): seq<Point> {
    var cells := SilentCells(p, lastTs, n);
    seq(n, k requires 0 <= k < n => SilentPoint(cells[k]))
  }

  function Silences(n: nat): seq<Tracked> {
    seq(n, _ => SILENT)
  }

  /** The windows a host sat out between two of its windows, counted one by one. */
  function Gap(p: Pace, lastTs: int, ts: int): nat
    requires p.delta > 0
    decreases ts - lastTs
  {
    if ts - lastTs < 2 * p.delta then 0 else 1 + Gap(p, lastTs + p.delta, ts)
  }

  /** The worker's own arithmetic: floor division, then anything below one is no gap. */
  lemma {:induction false} GapIsFloorDivision(p: Pace, lastTs: int, ts: int)
    requires p.delta > 0
    ensures var gap := (ts - lastTs) / p.delta - 1;
            Gap(p, lastTs, ts) == if gap <= 0 then 0 else gap
    decreases ts - lastTs
  {
    if ts - lastTs >= 2 * p.delta {
      GapIsFloorDivision(p, lastTs + p.delta, ts);
      DivideStep(ts - lastTs, p.delta);
    } else {
      DivideSmall(ts - lastTs, p.delta);
    }
  }

  lemma DivideStep(x: int, d: int)
    requires d > 0
    ensures x / d == (x - d) / d + 1
    ensures x >= 2 * d ==> x / d >= 2
  {
    assert x == (x / d) * d + x % d && x - d == ((x - d) / d) * d + (x - d) % d;
    var e := x / d - (x - d) / d - 1;
    assert e * d == (x - d) % d - x % d;
    SmallMultiple(e, d);
    if x >= 2 * d { AtLeastTwo(x / d, d, x); }
  }

  lemma AtLeastTwo(q: int, d: int, x: int)
    requires d > 0 && x >= 2 * d && x < q * d + d
    ensures q >= 2
  {
    assert (q + 1) * d == q * d + d;
    if q + 1 <= 2 {
      MulGrows(q + 1, 2, d);
    }
  }

  lemma DivideSmall(x: int, d: int)
    requires d > 0 && x < 2 * d
    ensures x / d <= 1
  {
    var q := x / d;
    assert x == q * d + x % d;
    if q >= 2 {
      MulGrows(2, q, d);
    }
  }

  function FillGap(p: Pace, prev: Prev, ts: int): (seq<Tracked>, seq<Point>)
    requires p.delta > 0
  {
    var gap := Gap(p, prev.lastTs, ts);
    if gap == 0 then (prev.history, [])
    else if gap > p.maxGap then ([], [])
    else (LastN(prev.history + Silences(gap), HISTORY_LEN), SilentPoints(p, prev.lastTs, gap))
  }

  function Resume(p: Pace, prev: Option<Prev>, ts: int): (seq<Tracked>, seq<Point>)
    requires p.delta > 0
  {
    match prev
    case None => ([], [])
    case Some(q) => FillGap(p, q, ts)
  }

  /** One closed window of one host: the silent rows before it, its own row, the next history. */
  function Emit(p: Pace, prev: Option<Prev>, s: Sample): (Prev, seq<Point>)
    requires p.delta > 0
  {
    var (history, silent) := Resume(p, prev, s.ts);
    (Prev(s.ts, LastN(history + [s.x], HISTORY_LEN)),
     silent + [Point(Cell(s.ts, true, s.x), Deltas(s.x, history), Slopes(s.x, history))])
  }

  function Trace(p: Pace, samples: seq<Sample>): (Option<Prev>, seq<Point>)
    requires p.delta > 0
  {
    if samples == [] then (None, [])
    else
      var (prev, points) := Trace(p, samples[..|samples| - 1]);
      var (next, more) := Emit(p, prev, samples[|samples| - 1]);
      (Some(next), points + more)
  }

  // ---------------------------------------------------------------- batch

  predicate Increasing(samples: seq<Sample>) {
    forall i | 0 < i < |samples| :: samples[i - 1].ts < samples[i].ts
  }

  /** All windows lie on one grid of the window length. */
  predicate OneGrid(p: Pace, samples: seq<Sample>)
    requires p.delta > 0
  {
    forall i | 0 < i < |samples| :: (samples[i].ts - samples[i - 1].ts) % p.delta == 0
  }

  /** The same, in order, said by steps instead of remainders. */
  predicate Chained(p: Pace, samples: seq<Sample>)
    requires p.delta > 0
  {
    forall i | 0 < i < |samples| :: Lands(p, samples[i - 1].ts, samples[i].ts)
  }

  /** Whole windows, at least one, lead from a to b. */
  function Lands(p: Pace, a: int, b: int): (r: bool)
    requires p.delta > 0
    ensures r ==> a < b
    decreases b - a
  {
    if b <= a + p.delta then b == a + p.delta else Lands(p, a + p.delta, b)
  }

  lemma SameRemainder(x: int, d: int)
    requires d > 0
    ensures (x - d) % d == x % d
  {
    DivideStep(x, d);
    assert x == (x / d) * d + x % d && x - d == ((x - d) / d) * d + (x - d) % d;
    assert (x / d) * d == ((x - d) / d) * d + d;
  }

  lemma SmallRemainder(x: int, d: int)
    requires d > 0 && 0 < x <= d
    ensures x % d == 0 <==> x == d
  {
    if x < d {
      assert x == (x / d) * d + x % d;
      SmallMultiple(x / d, d);
    }
  }

  lemma {:induction false} LandsIff(p: Pace, a: int, b: int)
    requires p.delta > 0
    ensures Lands(p, a, b) <==> a < b && (b - a) % p.delta == 0
    decreases b - a
  {
    if b > a + p.delta {
      LandsIff(p, a + p.delta, b);
      SameRemainder(b - a, p.delta);
    } else if a < b {
      SmallRemainder(b - a, p.delta);
    }
  }

  lemma ChainedIff(p: Pace, samples: seq<Sample>)
    requires p.delta > 0 && OneGrid(p, samples)
    ensures Chained(p, samples) <==> Increasing(samples)
  {
    forall i | 0 < i < |samples|
      ensures Lands(p, samples[i - 1].ts, samples[i].ts) <==> samples[i - 1].ts < samples[i].ts
    {
      LandsIff(p, samples[i - 1].ts, samples[i].ts);
    }
  }

  predicate Restarts(p: Pace, lastTs: int, ts: int)
    requires p.delta > 0
  {
    Gap(p, lastTs, ts) > 0 && Gap(p, lastTs, ts) > p.maxGap
  }

  /** The samples cut wherever a silence is too long to be backfilled. */
  function Stretches(p: Pace, samples: seq<Sample>): (r: seq<seq<Sample>>)
    requires p.delta > 0
    ensures samples == [] <==> r == []
    ensures samples != [] ==> r[|r| - 1] != [] && r[|r| - 1][|r[|r| - 1]| - 1] == samples[|samples| - 1]
  {
    if samples == [] then []
    else
      var n := |samples| - 1;
      var rest := Stretches(p, samples[..n]);
      if n == 0 || Restarts(p, samples[n - 1].ts, samples[n].ts) then rest + [[samples[n]]]
      else rest[..|rest| - 1] + [rest[|rest| - 1] + [samples[n]]]
  }

  /** A table extended to the next sample: the missing windows as zero rows, then the sample. */
  function Extended(p: Pace, t: seq<Cell>, lastTs: int, s: Sample): seq<Cell>
    requires p.delta > 0
  {
    t + SilentCells(p, lastTs, Gap(p, lastTs, s.ts)) + [Cell(s.ts, true, s.x)]
  }

  /** The gap-filled table of one stretch. */
  function Filled(p: Pace, st: seq<Sample>): seq<Cell>
    requires p.delta > 0
  {
    if |st| == 0 then []
    else if |st| == 1 then [Cell(st[0].ts, true, st[0].x)]
    else Extended(p, Filled(p, st[..|st| - 1]), st[|st| - 2].ts, st[|st| - 1])
  }

  function BatchDelta(t: seq<Cell>, k: nat, c: nat): real
    requires k < |t| && c < 6
  {
    if k == 0 then 0.0 else t[k].x[c] - t[k - 1].x[c]
  }

  function BatchSlope(t: seq<Cell>, k: nat, c: nat): real
    requires k < |t| && c < 6
  {
    if k < 2 then 0.0 else (t[k].x[c] - t[k - 2].x[c]) / 2.0
  }

  /** Row k of the batch table with its differences and rolling slopes. */
  function BatchPoint(t: seq<Cell>, k: nat): Point
    requires k < |t|
  {
    Point(t[k],
          seq(6, c requires 0 <= c < 6 => BatchDelta(t, k, c)),
          seq(4, i requires 0 <= i < 4 => BatchSlope(t, k, SLOPE_SOURCES[i])))
  }

  /** What the stream publishes for that row: silent rows lose their dynamics. */
  function Blanked(q: Point): Point {
    if q.cell.seen then q else SilentPoint(q.cell)
  }

  function Online(t: seq<Cell>): seq<Point> {
    seq(|t|, k requires 0 <= k < |t| => Blanked(BatchPoint(t, k)))
  }

  function Joined(p: Pace, stretches: seq<seq<Sample>>): seq<Point>
    requires p.delta > 0
  {
    if stretches == [] then []
    else Joined(p, stretches[..|stretches| - 1]) + Online(Filled(p, stretches[|stretches| - 1]))
  }

  function Values(t: seq<Cell>): (r: seq<Tracked>)
    ensures |r| == |t|
  {
    seq(|t|, k requires 0 <= k < |t| => t[k].x)
  }

  // ------------------------------------------- stream equals blanked batch

  lemma BatchReadsOnlyThePast(t: seq<Cell>, more: seq<Cell>, k: nat)
    requires k < |t|
    ensures BatchPoint(t + more, k) == BatchPoint(t, k)
  {
  }

  lemma OnlineOfSilence(t: seq<Cell>, k: nat)
    requires k < |t| && t[k] == Cell(t[k].ts, false, SILENT)
    ensures Online(t)[k] == Point(t[k], SILENT, NO_SLOPES)
  {
  }

  /** Three carried rows are enough: the dynamics of the newest row read at most two before it. */
  lemma HistoryIsEnough(t: seq<Cell>, current: Cell)
    requires current.seen
    ensures var h := LastN(Values(t), HISTORY_LEN);
            Point(current, Deltas(current.x, h), Slopes(current.x, h)) == Online(t + [current])[|t|]
  {
    var h := LastN(Values(t), HISTORY_LEN);
    var q := BatchPoint(t + [current], |t|);
    if t != [] {
      assert h[|h| - 1] == t[|t| - 1].x;
    }
    assert Deltas(current.x, h) == q.deltas;
    var tail := LastN(h, 2);
    if |t| >= 2 {
      assert tail == [t[|t| - 2].x, t[|t| - 1].x];
      forall k | 0 <= k < 4
        ensures Slopes(current.x, h)[k] == q.slopes[k]
      {
        var c := SLOPE_SOURCES[k];
        assert Column(tail, c) + [current.x[c]] == [t[|t| - 2].x[c], t[|t| - 1].x[c], current.x[c]];
        ThreePointSlope(t[|t| - 2].x[c], t[|t| - 1].x[c], current.x[c]);
      }
    }
    assert Slopes(current.x, h) == q.slopes;
  }

  lemma OnlineAppends(t: seq<Cell>, lastTs: int, n: nat, p: Pace, current: Cell)
    requires current.seen
    ensures var u := t + SilentCells(p, lastTs, n);
            Online(u + [current]) == Online(t) + SilentPoints(p, lastTs, n) + [Online(u + [current])[|u|]]
  {
    var s := SilentCells(p, lastTs, n);
    var u := t + s;
    var full := u + [current];
    forall k | 0 <= k < |full|
      ensures Online(full)[k] == (Online(t) + SilentPoints(p, lastTs, n) + [Online(full)[|u|]])[k]
    {
      if k < |t| {
        assert full == t + (s + [current]);
        BatchReadsOnlyThePast(t, s + [current], k);
      } else if k < |u| {
        OnlineOfSilence(full, k);
      }
    }
  }

  lemma ValuesAppend(t: seq<Cell>, p: Pace, lastTs: int, n: nat)
    ensures Values(t + SilentCells(p, lastTs, n)) == Values(t) + Silences(n)
  {
  }

  lemma LastNAbsorbs<T>(s: seq<T>, more: seq<T>, n: nat)
    ensures LastN(LastN(s, n) + more, n) == LastN(s + more, n)
  {
  }

  lemma LastNSnoc(t: seq<Cell>, current: Cell)
    ensures LastN(LastN(Values(t), HISTORY_LEN) + [current.x], HISTORY_LEN) == LastN(Values(t + [current]), HISTORY_LEN)
  {
    LastNAbsorbs(Values(t), [current.x], HISTORY_LEN);
    assert Values(t + [current]) == Values(t) + [current.x];
  }

  /** The carried state after a stretch: its last window and the tail of its table. */
  function Carried(lastTs: int, t: seq<Cell>): Prev {
    Prev(lastTs, LastN(Values(t), HISTORY_LEN))
  }

  /** Continuing a stretch: the step from a history that is the tail of the table so far. */
  lemma EmitContinues(p: Pace, t: seq<Cell>, lastTs: int, s: Sample)
    requires p.delta > 0 && lastTs < s.ts && !Restarts(p, lastTs, s.ts)
    ensures var u := Extended(p, t, lastTs, s);
            var e := Emit(p, Some(Carried(lastTs, t)), s);
            e.0 == Carried(s.ts, u) && Online(t) + e.1 == Online(u)
  {
    var n := Gap(p, lastTs, s.ts);
    var current := Cell(s.ts, true, s.x);
    var v := t + SilentCells(p, lastTs, n);
    var prev := Prev(lastTs, LastN(Values(t), HISTORY_LEN));
    var (history, silent) := Resume(p, Some(prev), s.ts);
    assert silent == SilentPoints(p, lastTs, n);
    assert history == LastN(Values(v), HISTORY_LEN) by {
      ValuesAppend(t, p, lastTs, n);
      LastNAbsorbs(Values(t), Silences(n), HISTORY_LEN);
      assert Values(t) + Silences(0) == Values(t);
    }
    HistoryIsEnough(v, current);
    OnlineAppends(t, lastTs, n, p, current);
    LastNSnoc(v, current);
  }

  lemma EmitStarts(p: Pace, prev: Option<Prev>, s: Sample)
    requires p.delta > 0 && (prev.Some? ==> Restarts(p, prev.value.lastTs, s.ts))
    ensures var u := [Cell(s.ts, true, s.x)];
            Emit(p, prev, s) == (Carried(s.ts, u), Online(u))
  {
    var current := Cell(s.ts, true, s.x);
    var none: seq<Cell> := [];
    var h: seq<Tracked> := [];
    assert none + [current] == [current];
    assert LastN(Values(none), HISTORY_LEN) == h;
    HistoryIsEnough(none, current);
    assert Online([current]) == [Point(current, Deltas(s.x, h), Slopes(s.x, h))];
    assert Resume(p, prev, s.ts) == (h, []);
    assert Values([current]) == h + [s.x];
    assert Emit(p, prev, s).1 == [Point(current, Deltas(s.x, h), Slopes(s.x, h))];
  }

  lemma StretchesSnoc(p: Pace, init: seq<Sample>, s: Sample)
    requires p.delta > 0 && init != []
    ensures var ss := Stretches(p, init);
            Stretches(p, init + [s]) ==
              if Restarts(p, init[|init| - 1].ts, s.ts) then ss + [[s]] else ss[..|ss| - 1] + [ss[|ss| - 1] + [s]]
  {
    assert (init + [s])[..|init|] == init;
  }

  lemma JoinedSnoc(p: Pace, ss: seq<seq<Sample>>, st: seq<Sample>)
    requires p.delta > 0
    ensures Joined(p, ss + [st]) == Joined(p, ss) + Online(Filled(p, st))
  {
    assert (ss + [st])[..|ss|] == ss;
  }

  lemma TraceSnoc(p: Pace, init: seq<Sample>, s: Sample)
    requires p.delta > 0
    ensures var e := Emit(p, Trace(p, init).0, s);
            Trace(p, init + [s]) == (Some(e.0), Trace(p, init).1 + e.1)
  {
    assert (init + [s])[..|init|] == init;
  }

  lemma FilledSnoc(p: Pace, st: seq<Sample>, s: Sample)
    requires p.delta > 0 && st != []
    ensures Filled(p, st + [s]) == Extended(p, Filled(p, st), st[|st| - 1].ts, s)
  {
    var more := st + [s];
    assert more[..|more| - 1] == st;
    assert more[|more| - 2] == st[|st| - 1];
  }

  /** After any samples the rows are the blanked batch tables of the stretches. */
  ghost predicate IsOnlineBatch(p: Pace, samples: seq<Sample>)
    requires p.delta > 0
  {
    var ss := Stretches(p, samples);
    && Trace(p, samples).1 == Joined(p, ss)
    && Trace(p, samples).0 ==
       if samples == [] then None else Some(Carried(samples[|samples| - 1].ts, Filled(p, ss[|ss| - 1])))
  }

  lemma StepRestarts(p: Pace, init: seq<Sample>, s: Sample)
    requires p.delta > 0 && IsOnlineBatch(p, init)
    requires init != [] ==> Restarts(p, init[|init| - 1].ts, s.ts)
    ensures IsOnlineBatch(p, init + [s])
  {
    var ss := Stretches(p, init);
    EmitStarts(p, Trace(p, init).0, s);
    TraceSnoc(p, init, s);
    JoinedSnoc(p, ss, [s]);
    assert Filled(p, [s]) == [Cell(s.ts, true, s.x)];
    if init != [] {
      StretchesSnoc(p, init, s);
    } else {
      assert [] + [s] == [s];
      assert Stretches(p, [s]) == ss + [[s]];
    }
  }

  lemma StepContinues(p: Pace, init: seq<Sample>, s: Sample)
    requires p.delta > 0 && IsOnlineBatch(p, init) && init != []
    requires init[|init| - 1].ts < s.ts && !Restarts(p, init[|init| - 1].ts, s.ts)
    ensures IsOnlineBatch(p, init + [s])
  {
    var ss := Stretches(p, init);
    var before, last, lastTs := ss[..|ss| - 1], ss[|ss| - 1], init[|init| - 1].ts;
    assert ss == before + [last];
    var t := Filled(p, last);
    var e := Emit(p, Some(Carried(lastTs, t)), s);
    EmitContinues(p, t, lastTs, s);
    FilledSnoc(p, last, s);
    var t' := Filled(p, last + [s]);
    assert e.0 == Carried(s.ts, t') && Online(t) + e.1 == Online(t');
    StepJoins(p, before, last, s, e.1);
    StepAssembles(p, init, s, before, last, e);
  }

  lemma StepAssembles(p: Pace, init: seq<Sample>, s: Sample, before: seq<seq<Sample>>, last: seq<Sample>,
                      e: (Prev, seq<Point>))
    requires p.delta > 0 && init != [] && !Restarts(p, init[|init| - 1].ts, s.ts)
    requires Stretches(p, init) == before + [last]
    requires Trace(p, init).1 == Joined(p, before + [last])
    requires Emit(p, Trace(p, init).0, s) == e
    requires e.0 == Carried(s.ts, Filled(p, last + [s]))
    requires Joined(p, before + [last]) + e.1 == Joined(p, before + [last + [s]])
    ensures IsOnlineBatch(p, init + [s])
  {
    TraceSnoc(p, init, s);
    StretchesSnoc(p, init, s);
  }

  lemma StepJoins(p: Pace, before: seq<seq<Sample>>, last: seq<Sample>, s: Sample, more: seq<Point>)
    requires p.delta > 0 && Online(Filled(p, last)) + more == Online(Filled(p, last + [s]))
    ensures Joined(p, before + [last]) + more == Joined(p, before + [last + [s]])
  {
    JoinedSnoc(p, before, last);
    JoinedSnoc(p, before, last + [s]);
    Regroup(Joined(p, before), Online(Filled(p, last)), more, Online(Filled(p, last + [s])));
  }

  lemma Regroup<T>(a: seq<T>, b: seq<T>, c: seq<T>, bc: seq<T>)
    requires b + c == bc
    ensures (a + b) + c == a + bc
  {
  }

  /** The stream, with its three-deep history, publishes the batch table of every stretch, silent rows blanked. */
  lemma {:induction false} TraceIsOnlineBatch(p: Pace, samples: seq<Sample>)
    requires p.delta > 0 && Increasing(samples)
    ensures IsOnlineBatch(p, samples)
  {
    if samples != [] {
      var init, s := samples[..|samples| - 1], samples[|samples| - 1];
      TraceIsOnlineBatch(p, init);
      assert init + [s] == samples;
      if init == [] || Restarts(p, init[|init| - 1].ts, s.ts) {
        StepRestarts(p, init, s);
      } else {
        StepContinues(p, init, s);
      }
    }
  }

  // ------------------------------------------------ the table is a reindex

  predicate Steady(p: Pace, t: seq<Cell>) {
    forall k | 0 < k < |t| :: t[k].ts == t[k - 1].ts + p.delta
  }

  /** The table runs from the first to the last sample in single steps, and holds exactly the samples. */
  ghost predicate IsReindex(p: Pace, st: seq<Sample>, t: seq<Cell>) {
    && st != [] && t != []
    && t[0].ts == st[0].ts && t[|t| - 1].ts == st[|st| - 1].ts
    && Steady(p, t)
    && (forall k | 0 <= k < |t| && t[k].seen :: Sample(t[k].ts, t[k].x) in st)
    && (forall k | 0 <= k < |t| && !t[k].seen :: t[k].x == SILENT && forall s | s in st :: s.ts != t[k].ts)
    && (forall s | s in st :: Cell(s.ts, true, s.x) in t)
  }

  lemma GridBounds(p: Pace, st: seq<Sample>, i: nat)
    requires p.delta > 0 && Chained(p, st) && i < |st|
    ensures st[i].ts <= st[|st| - 1].ts
    decreases |st| - i
  {
    if i < |st| - 1 {
      GridBounds(p, st, i + 1);
      assert st[i + 1 - 1].ts < st[i + 1].ts;
    }
  }

  lemma {:induction false} GapSpans(p: Pace, lastTs: int, ts: int)
    requires p.delta > 0 && Lands(p, lastTs, ts)
    ensures lastTs + (Gap(p, lastTs, ts) + 1) * p.delta == ts
    decreases ts - lastTs
  {
    if ts - lastTs >= 2 * p.delta {
      GapSpans(p, lastTs + p.delta, ts);
      var g := Gap(p, lastTs + p.delta, ts);
      assert (g + 2) * p.delta == (g + 1) * p.delta + p.delta;
    }
  }

  lemma {:induction false} ChainIsReindex(p: Pace, st: seq<Sample>)
    requires p.delta > 0 && Chained(p, st) && st != []
    ensures IsReindex(p, st, Filled(p, st))
  {
    var init, s := st[..|st| - 1], st[|st| - 1];
    assert st == init + [s];
    if init == [] {
      ReindexOfOne(p, s);
    } else {
      ChainIsReindex(p, init);
      ReindexStep(p, init, s, Filled(p, init));
      FilledSnoc(p, init, s);
    }
  }

  lemma ReindexStep(p: Pace, st: seq<Sample>, s: Sample, t: seq<Cell>)
    requires p.delta > 0 && st != [] && Chained(p, st) && IsReindex(p, st, t)
    requires Lands(p, st[|st| - 1].ts, s.ts)
    ensures IsReindex(p, st + [s], Extended(p, t, st[|st| - 1].ts, s))
  {
    var lastTs := st[|st| - 1].ts;
    var silent, last := SilentCells(p, lastTs, Gap(p, lastTs, s.ts)), Cell(s.ts, true, s.x);
    SilentCellsSteady(p, t[|t| - 1], last);
    assert [t[|t| - 1]] + silent + [last] == [t[|t| - 1]] + (silent + [last]);
    SteadyJoins(p, t, silent + [last]);
    SilencesMissAll(p, st, t, s);
    ReindexGrows(p, st, t, silent, s);
  }

  /** For increasing windows on one grid the filled table is the reindex of the samples. */
  lemma FilledIsReindex(p: Pace, st: seq<Sample>)
    requires p.delta > 0 && OneGrid(p, st) && Increasing(st) && st != []
    ensures IsReindex(p, st, Filled(p, st))
  {
    ChainedIff(p, st);
    ChainIsReindex(p, st);
  }

  lemma ReindexOfOne(p: Pace, s: Sample)
    requires p.delta > 0
    ensures IsReindex(p, [s], Filled(p, [s]))
  {
    var t := [Cell(s.ts, true, s.x)];
    assert t == Filled(p, [s]);
    assert t[0] in t && [s][0] in [s];
  }

  lemma SteadyJoins(p: Pace, t: seq<Cell>, more: seq<Cell>)
    requires t != [] && Steady(p, t) && Steady(p, [t[|t| - 1]] + more)
    ensures Steady(p, t + more)
  {
    var c := [t[|t| - 1]] + more;
    forall k | |t| <= k < |t + more|
      ensures (t + more)[k].ts == (t + more)[k - 1].ts + p.delta
    {
      assert c[k - |t| + 1] == (t + more)[k] && c[k - |t|] == (t + more)[k - 1];
    }
  }

  lemma {:induction false} SilentCellsSteady(p: Pace, last: Cell, s: Cell)
    requires p.delta > 0 && Lands(p, last.ts, s.ts)
    ensures Steady(p, [last] + SilentCells(p, last.ts, Gap(p, last.ts, s.ts)) + [s])
    decreases s.ts - last.ts
  {
    if s.ts - last.ts >= 2 * p.delta {
      var first := Cell(last.ts + p.delta, false, SILENT);
      SilentCellsSteady(p, first, s);
      var rest := SilentCells(p, first.ts, Gap(p, first.ts, s.ts));
      assert SilentCells(p, last.ts, Gap(p, last.ts, s.ts)) == [first] + rest;
      SteadyPrepend(p, last, [first] + rest + [s]);
      assert [last] + ([first] + rest) + [s] == [last] + ([first] + rest + [s]);
    } else {
      assert [last] + [] + [s] == [last, s];
    }
  }

  lemma SteadyPrepend(p: Pace, last: Cell, t: seq<Cell>)
    requires t != [] && Steady(p, t) && t[0].ts == last.ts + p.delta
    ensures Steady(p, [last] + t)
  {
    assert forall k | 0 < k < |[last] + t| :: ([last] + t)[k] == t[k - 1];
  }

  lemma {:induction false} SilentCellsBetween(p: Pace, lastTs: int, ts: int)
    requires p.delta > 0
    ensures forall c | c in SilentCells(p, lastTs, Gap(p, lastTs, ts)) :: lastTs < c.ts < ts
    decreases ts - lastTs
  {
    if ts - lastTs >= 2 * p.delta {
      SilentCellsBetween(p, lastTs + p.delta, ts);
      var first := Cell(lastTs + p.delta, false, SILENT);
      assert SilentCells(p, lastTs, Gap(p, lastTs, ts))
          == [first] + SilentCells(p, lastTs + p.delta, Gap(p, lastTs + p.delta, ts));
    }
  }

  lemma ReindexGrows(p: Pace, st: seq<Sample>, t: seq<Cell>, silent: seq<Cell>, s: Sample)
    requires IsReindex(p, st, t)
    requires forall c | c in silent :: !c.seen && c.x == SILENT
    requires Steady(p, t + (silent + [Cell(s.ts, true, s.x)]))
    requires forall c | c in t && !c.seen :: c.ts != s.ts
    requires forall c, q | c in silent && q in st + [s] :: q.ts != c.ts
    ensures IsReindex(p, st + [s], t + silent + [Cell(s.ts, true, s.x)])
  {
    var last := Cell(s.ts, true, s.x);
    var u := t + silent + [last];
    assert u == t + (silent + [last]);
    forall k | 0 <= k < |u| && !u[k].seen
      ensures u[k].x == SILENT && forall q | q in st + [s] :: q.ts != u[k].ts
    {
      if k < |t| {
        assert u[k] in t;
      } else {
        assert u[k] in silent;
      }
    }
    forall q | q in st + [s]
      ensures Cell(q.ts, true, q.x) in u
    {
      if q in st {
        assert Cell(q.ts, true, q.x) in t;
      }
    }
  }

  lemma SilencesMissAll(p: Pace, st: seq<Sample>, t: seq<Cell>, s: Sample)
    requires p.delta > 0 && Chained(p, st) && IsReindex(p, st, t) && st[|st| - 1].ts < s.ts
    ensures forall c | c in t && !c.seen :: c.ts != s.ts
    ensures forall c, q | c in SilentCells(p, st[|st| - 1].ts, Gap(p, st[|st| - 1].ts, s.ts)) && q in st + [s] ::
              q.ts != c.ts
  {
    var lastTs := st[|st| - 1].ts;
    SilentCellsBetween(p, lastTs, s.ts);
    forall i | 0 <= i < |st|
      ensures st[i].ts <= lastTs
    {
      GridBounds(p, st, i);
    }
    forall k | 0 <= k < |t|
      ensures t[k].ts <= lastTs
    {
      TableBounds(p, st, t, k);
    }
  }

  lemma TableBounds(p: Pace, st: seq<Sample>, t: seq<Cell>, k: nat)
    requires p.delta > 0 && IsReindex(p, st, t) && k < |t|
    ensures t[k].ts <= st[|st| - 1].ts
    decreases |t| - k
  {
    if k < |t| - 1 {
      TableBounds(p, st, t, k + 1);
      assert t[k + 1].ts == t[k + 1 - 1].ts + p.delta;
    }
  }

  // ------------------------------------------------------- uniform timeline

  predicate NoDynamics(q: Point) {
    q.deltas == SILENT && q.slopes == NO_SLOPES
  }

  /** Neighbouring rows are one window apart, or a restart apart with nothing carried over. */
  predicate Neighbours(p: Pace, a: Point, b: Point) {
    || b.cell.ts == a.cell.ts + p.delta
    || (b.cell.ts - a.cell.ts > (p.maxGap + 1) * p.delta && NoDynamics(b))
  }

  predicate Uniform(p: Pace, points: seq<Point>) {
    forall i | 0 < i < |points| :: Neighbours(p, points[i - 1], points[i])
  }

  lemma RestartIsFar(p: Pace, lastTs: int, s: Sample, history: seq<Tracked>)
    requires p.delta > 0 && Lands(p, lastTs, s.ts) && Restarts(p, lastTs, s.ts)
    ensures s.ts - lastTs > (p.maxGap + 1) * p.delta
    ensures NoDynamics(Emit(p, Some(Prev(lastTs, history)), s).1[0])
  {
    var gap := Gap(p, lastTs, s.ts);
    GapSpans(p, lastTs, s.ts);
    MulGrows(p.maxGap + 2, gap + 1, p.delta);
    assert (p.maxGap + 2) * p.delta == (p.maxGap + 1) * p.delta + p.delta;
    assert Slopes(s.x, []) == NO_SLOPES;
  }

  lemma SteadyIsUniform(p: Pace, points: seq<Point>, t: seq<Cell>)
    requires Steady(p, t) && |points| == |t| && forall k | 0 <= k < |t| :: points[k].cell == t[k]
    ensures Uniform(p, points)
  {
  }

  lemma EmitIsUniform(p: Pace, q: Prev, s: Sample, last: Point)
    requires p.delta > 0 && Lands(p, q.lastTs, s.ts) && last.cell.ts == q.lastTs
    ensures Uniform(p, [last] + Emit(p, Some(q), s).1)
  {
    if Restarts(p, q.lastTs, s.ts) {
      RestartIsFar(p, q.lastTs, s, q.history);
    } else {
      var gap := Gap(p, q.lastTs, s.ts);
      var current := Cell(s.ts, true, s.x);
      SilentCellsSteady(p, last.cell, current);
      SteadyIsUniform(p, [last] + Emit(p, Some(q), s).1, [last.cell] + SilentCells(p, q.lastTs, gap) + [current]);
    }
  }

  lemma UniformJoins(p: Pace, a: seq<Point>, b: seq<Point>)
    requires a != [] && Uniform(p, a) && Uniform(p, [a[|a| - 1]] + b)
    ensures Uniform(p, a + b)
  {
    var c := [a[|a| - 1]] + b;
    forall i | 0 < i < |a + b|
      ensures Neighbours(p, (a + b)[i - 1], (a + b)[i])
    {
      if i >= |a| {
        assert (a + b)[i] == c[i - |a| + 1];
        assert (a + b)[i - 1] == c[i - |a|];
      }
    }
  }

  /** Over a host's whole life the time axis is uniform, except where the sequence restarts. */
  lemma {:induction false} ChainIsUniform(p: Pace, samples: seq<Sample>)
    requires p.delta > 0 && Chained(p, samples)
    ensures Uniform(p, Trace(p, samples).1)
    ensures samples != [] ==>
              && Trace(p, samples).0.Some? && Trace(p, samples).1 != []
              && Trace(p, samples).0.value.lastTs == samples[|samples| - 1].ts
              && Trace(p, samples).1[|Trace(p, samples).1| - 1].cell.ts == samples[|samples| - 1].ts
  {
    if samples != [] {
      var n := |samples| - 1;
      ChainIsUniform(p, samples[..n]);
      var (prev, points) := Trace(p, samples[..n]);
      if n > 0 {
        EmitIsUniform(p, prev.value, samples[n], points[|points| - 1]);
        UniformJoins(p, points, Emit(p, prev, samples[n]).1);
      }
    }
  }

  /** A window that is not later than the last one is published right after it. */
  lemma BackwardIsNotUniform(p: Pace, q: Prev, s: Sample, points: seq<Point>)
    requires p.delta > 0 && p.maxGap >= 0 && s.ts <= q.lastTs
    requires points != [] && points[|points| - 1].cell.ts == q.lastTs
    ensures !Uniform(p, points + Emit(p, Some(q), s).1)
  {
    var all := points + Emit(p, Some(q), s).1;
    assert Gap(p, q.lastTs, s.ts) == 0;
    assert all[|points|].cell.ts == s.ts && all[|points| - 1].cell.ts == q.lastTs;
    MulGrows(0, p.maxGap + 1, p.delta);
    assert !Neighbours(p, all[|points| - 1], all[|points|]);
  }

  lemma UniformPrefix(p: Pace, a: seq<Point>, b: seq<Point>)
    requires Uniform(p, a + b)
    ensures Uniform(p, a)
  {
    assert forall i | 0 <= i < |a| :: (a + b)[i] == a[i];
  }

  lemma UniformSnoc(p: Pace, init: seq<Sample>, s: Sample)
    requires p.delta > 0 && p.maxGap >= 0 && Chained(p, init)
    requires Uniform(p, Trace(p, init + [s]).1)
    ensures init != [] ==> init[|init| - 1].ts < s.ts
  {
    TraceSnoc(p, init, s);
    ChainIsUniform(p, init);
    if init != [] && s.ts <= init[|init| - 1].ts {
      BackwardIsNotUniform(p, Trace(p, init).0.value, s, Trace(p, init).1);
      assert false;
    }
  }

  lemma GridSnoc(p: Pace, init: seq<Sample>, s: Sample)
    requires p.delta > 0 && OneGrid(p, init + [s])
    ensures OneGrid(p, init)
    ensures init != [] ==> (s.ts - init[|init| - 1].ts) % p.delta == 0
  {
    var samples := init + [s];
    assert forall i | 0 <= i < |init| :: samples[i] == init[i];
    assert samples[|init|] == s;
  }

  lemma ChainSnoc(p: Pace, init: seq<Sample>, s: Sample)
    requires p.delta > 0 && Chained(p, init) && (init != [] ==> Lands(p, init[|init| - 1].ts, s.ts))
    ensures Chained(p, init + [s])
  {
  }

  lemma {:induction false} UniformIsChained(p: Pace, samples: seq<Sample>)
    requires p.delta > 0 && p.maxGap >= 0 && OneGrid(p, samples) && Uniform(p, Trace(p, samples).1)
    ensures Chained(p, samples)
  {
    if samples != [] {
      var init, s := samples[..|samples| - 1], samples[|samples| - 1];
      assert samples == init + [s];
      GridSnoc(p, init, s);
      TraceSnoc(p, init, s);
      var t := Trace(p, init);
      UniformPrefix(p, t.1, Emit(p, t.0, s).1);
      UniformIsChained(p, init);
      UniformSnoc(p, init, s);
      if init != [] {
        LandsIff(p, init[|init| - 1].ts, s.ts);
      }
      ChainSnoc(p, init, s);
    }
  }

  /**
   * Over a host's whole life the time axis is uniform, restarts aside, exactly when its windows
   * come in strictly increasing order.
   */
  lemma TimelineIsUniformIff(p: Pace, samples: seq<Sample>)
    requires p.delta > 0 && p.maxGap >= 0 && OneGrid(p, samples)
    ensures Uniform(p, Trace(p, samples).1) <==> Increasing(samples)
  {
    if Increasing(samples) {
      ChainedIff(p, samples);
      ChainIsUniform(p, samples);
    }
    if Uniform(p, Trace(p, samples).1) {
      UniformIsChained(p, samples);
      ChainedIff(p, samples);
    }
  }

  // --------------------------------------------------------- silent rows

  /**
   * A backfilled row agrees with the batch table exactly when the window before it was
   * all zeros and, for the slopes, so was the one before that.
   */
  lemma SilentRowAgreesIff(t: seq<Cell>, k: nat)
    requires 0 < k < |t| && !t[k].seen && t[k].x == SILENT
    ensures Online(t)[k] == BatchPoint(t, k) <==>
              t[k - 1].x == SILENT && (k >= 2 ==> forall i | 0 <= i < 4 :: t[k - 2].x[SLOPE_SOURCES[i]] == 0.0)
  {
    var q := BatchPoint(t, k);
    assert q.deltas == SILENT <==> t[k - 1].x == SILENT by {
      if t[k - 1].x != SILENT {
        var c :| 0 <= c < 6 && t[k - 1].x[c] != SILENT[c];
        assert q.deltas[c] != 0.0;
      }
    }
    if q.slopes == NO_SLOPES && k >= 2 {
      forall i | 0 <= i < 4
        ensures t[k - 2].x[SLOPE_SOURCES[i]] == 0.0
      {
        assert q.slopes[i] == NO_SLOPES[i];
      }
    }
  }

  /** A host that goes quiet: offline the fall shows in the row of the silence, online it does not. */
  lemma SilentRowExample()
    ensures var p := Pace(30, 40);
            var busy := [1.0, 0.0, 0.0, 0.0, 0.0, 0.0];
            var points := Trace(p, [Sample(0, busy), Sample(60, SILENT)]).1;
            var table := Filled(p, [Sample(0, busy), Sample(60, SILENT)]);
            && |points| == 3 == |table|
            && points[1].cell == table[1]
            && points[1].deltas == SILENT && BatchDelta(table, 1, 0) == -1.0
  {
    var p := Pace(30, 40);
    var busy: Tracked := [1.0, 0.0, 0.0, 0.0, 0.0, 0.0];
    var a, b := Sample(0, busy), Sample(60, SILENT);
    EmitStarts(p, None, a);
    assert [] + [a] == [a] && [a] + [b] == [a, b];
    TraceSnoc(p, [], a);
    TraceSnoc(p, [a], b);
    assert Filled(p, [a]) == [Cell(0, true, busy)];
    FilledSnoc(p, [a], b);
    assert Gap(p, 0, 60) == 1;
    EmitContinues(p, Filled(p, [a]), 0, b);
  }
}
