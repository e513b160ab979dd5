/**
Attack episodes from labelled windows: `find_episodes` of ml/nidra/data/splits.py
and `merge_episodes` of ml/nidra/data/audit.py. A table is sorted first, so every
result holds for rows in any order.
*/
module Runs {
  import opened Options
  import opened Numbers
  import opened Tables

  datatype Episode = Episode(host: string, startTs: int, endTs: int)

  /** First and last position of a run of rows. */
  type Span = (nat, nat)

  // ---------------------------------------------------------------------------- the scan

  datatype Scan = Scan(spans: seq<Span>, start: Option<nat>)

  predicate NewHost(rows: seq<Window>, i: nat)
    requires i < |rows|
  {
    i == 0 || rows[i].host != rows[i - 1].host
  }

  function Close(s: Scan, last: int): Scan
    requires s.start.Some? ==> 0 <= last
  {
    if s.start.Some? then Scan(s.spans + [(s.start.value, last)], None) else s
  }

  function ScanRow(rows: seq<Window>, i: nat, s: Scan): Scan
    requires i < |rows| && (i == 0 ==> s.start.None?)
  {
    var s1 := if NewHost(rows, i) then Close(s, i - 1) else s;
    if !rows[i].attack then Close(s1, i - 1)
    else if s1.start.None? then Scan(s1.spans, Some(i))
    else s1
  }

  function ScanRows(rows: seq<Window>, n: nat): (s: Scan)
    requires n <= |rows|
    ensures n == 0 ==> s.start.None?
  {
    if n == 0 then Scan([], None) else ScanRow(rows, n - 1, ScanRows(rows, n - 1))
  }

  function Spans(rows: seq<Window>): seq<Span> {
    if rows == [] then [] else Close(ScanRows(rows, |rows|), |rows| - 1).spans
  }

  /** Rows i and i + 1 belong to one episode. */
  ghost predicate Joined(rows: seq<Window>, i: nat) {
    i + 1 < |rows| && rows[i].attack && rows[i + 1].attack && rows[i].host == rows[i + 1].host
  }

  ghost predicate AllAttack(rows: seq<Window>, a: nat, b: nat) {
    a <= b < |rows| && (forall k | a <= k <= b :: rows[k].attack && rows[k].host == rows[a].host)
  }

  /** A run of attack rows of one host that neither neighbour could join. */
  ghost predicate MaximalRun(rows: seq<Window>, a: nat, b: nat) {
    AllAttack(rows, a, b) && (a > 0 ==> !Joined(rows, a - 1)) && !Joined(rows, b)
  }

  ghost predicate InOrder(spans: seq<Span>) {
    forall i, j | 0 <= i < j < |spans| :: spans[i].1 < spans[j].0
  }

  ghost predicate CoveredBy(spans: seq<Span>, k: nat) {
    exists s | s in spans :: s.0 <= k <= s.1
  }

  ghost predicate AllCovered(rows: seq<Window>, spans: seq<Span>, n: nat)
    requires n <= |rows|
  {
    forall k {:trigger CoveredBy(spans, k)} | 0 <= k < n && rows[k].attack :: CoveredBy(spans, k)
  }

  ghost predicate ScanOk(rows: seq<Window>, n: nat, s: Scan)
    requires n <= |rows|
  {
    && (forall x | x in s.spans :: MaximalRun(rows, x.0, x.1) && x.1 < n)
    && InOrder(s.spans)
    && (match s.start
        case None =>
          AllCovered(rows, s.spans, n)
          && (n > 0 && rows[n - 1].attack ==> n < |rows| ==> !Joined(rows, n - 1))
        case Some(a) =>
          a < n && AllAttack(rows, a, n - 1) && (a > 0 ==> !Joined(rows, a - 1))
          && (forall x | x in s.spans :: x.1 < a)
          && AllCovered(rows, s.spans, a))
  }

  lemma InOrderSnoc(spans: seq<Span>, last: Span)
    requires InOrder(spans) && forall x | x in spans :: x.1 < last.0
    ensures InOrder(spans + [last])
  {
    assert forall i | 0 <= i < |spans| :: spans[i] in spans;
  }

  lemma CoverSnoc(rows: seq<Window>, spans: seq<Span>, last: Span)
    requires last.0 <= last.1 < |rows| && AllCovered(rows, spans, last.0)
    ensures AllCovered(rows, spans + [last], last.1 + 1)
  {
    var more := spans + [last];
    assert last in more;
    forall k | 0 <= k <= last.1 && rows[k].attack ensures CoveredBy(more, k) {
      if k < last.0 {
        assert CoveredBy(spans, k);
        var x :| x in spans && x.0 <= k <= x.1;
        assert x in more;
      }
    }
  }

  lemma CloseKeepsOk(rows: seq<Window>, n: nat, s: Scan)
    requires 0 < n <= |rows| && ScanOk(rows, n, s) && (s.start.Some? ==> !Joined(rows, n - 1))
    ensures ScanOk(rows, n, Close(s, n - 1)) && Close(s, n - 1).start.None?
  {
    if s.start.Some? {
      InOrderSnoc(s.spans, (s.start.value, n - 1));
      CoverSnoc(rows, s.spans, (s.start.value, n - 1));
    }
  }

  lemma {:induction false} ScanRowsOk(rows: seq<Window>, n: nat)
    requires n <= |rows|
    ensures ScanOk(rows, n, ScanRows(rows, n))
  {
    if n > 0 {
      ScanRowsOk(rows, n - 1);
      ScanRowKeepsOk(rows, n - 1, ScanRows(rows, n - 1));
    }
  }

  lemma ScanRowKeepsOk(rows: seq<Window>, i: nat, s: Scan)
    requires i < |rows| && ScanOk(rows, i, s)
    ensures ScanOk(rows, i + 1, ScanRow(rows, i, s))
  {
    var s1 := s;
    if i > 0 && (NewHost(rows, i) || !rows[i].attack) {
      CloseKeepsOk(rows, i, s);
      s1 := Close(s, i - 1);
    }
    if !rows[i].attack {
      PassQuiet(rows, i, s1);
    } else if s1.start.None? {
      StartAt(rows, i, s1);
    } else {
      ExtendTo(rows, i, s1);
    }
  }

  lemma PassQuiet(rows: seq<Window>, i: nat, s: Scan)
    requires i < |rows| && ScanOk(rows, i, s) && s.start.None? && !rows[i].attack
    ensures ScanOk(rows, i + 1, s)
  {
  }

  lemma StartAt(rows: seq<Window>, i: nat, s: Scan)
    requires i < |rows| && ScanOk(rows, i, s) && s.start.None? && rows[i].attack
    ensures ScanOk(rows, i + 1, Scan(s.spans, Some(i)))
  {
  }

  lemma ExtendTo(rows: seq<Window>, i: nat, s: Scan)
    requires i < |rows| && ScanOk(rows, i, s) && s.start.Some? && rows[i].attack && !NewHost(rows, i)
    ensures ScanOk(rows, i + 1, s)
  {
  }

  lemma FinishScan(rows: seq<Window>, s: Scan, spans: seq<Span>)
    requires rows != [] && ScanOk(rows, |rows|, s) && spans == Close(s, |rows| - 1).spans
    ensures InOrder(spans) && AllCovered(rows, spans, |rows|)
    ensures forall x | x in spans :: MaximalRun(rows, x.0, x.1)
  {
    CloseKeepsOk(rows, |rows|, s);
  }

  lemma FinalScan(rows: seq<Window>)
    requires rows != []
    ensures InOrder(Spans(rows)) && AllCovered(rows, Spans(rows), |rows|)
    ensures forall x | x in Spans(rows) :: MaximalRun(rows, x.0, x.1)
  {
    ScanRowsOk(rows, |rows|);
    FinishScan(rows, ScanRows(rows, |rows|), Spans(rows));
  }

  /** `find_episodes` returns exactly the maximal runs, in order. */
  lemma SpansAreMaximalRuns(rows: seq<Window>, a: nat, b: nat)
    ensures (a, b) in Spans(rows) <==> MaximalRun(rows, a, b)
    ensures InOrder(Spans(rows))
  {
    if rows != [] {
      FinalScan(rows);
      if MaximalRun(rows, a, b) {
        assert CoveredBy(Spans(rows), a);
        var x :| x in Spans(rows) && x.0 <= a <= x.1;
        SameRun(rows, x.0, x.1, a, b);
      }
    }
  }

  /** Maximal runs that share a row are the same run. */
  lemma SameRun(rows: seq<Window>, a: nat, b: nat, a': nat, b': nat)
    requires MaximalRun(rows, a, b) && MaximalRun(rows, a', b') && a <= a' <= b
    ensures a == a' && b == b'
  {
    assert forall k | a <= k < b :: Joined(rows, k);
    assert forall k | a' <= k < b' :: Joined(rows, k);
  }

  function EpisodeOf(rows: seq<Window>, s: Span): Episode
    requires s.0 < |rows| && s.1 < |rows|
  {
    Episode(rows[s.0].host, rows[s.0].ts, rows[s.1].ts)
  }

  lemma SpansInRange(rows: seq<Window>)
    ensures forall i | 0 <= i < |Spans(rows)| :: Spans(rows)[i].0 <= Spans(rows)[i].1 < |rows|
  {
    forall i | 0 <= i < |Spans(rows)| ensures Spans(rows)[i].0 <= Spans(rows)[i].1 < |rows| {
      SpansAreMaximalRuns(rows, Spans(rows)[i].0, Spans(rows)[i].1);
      assert Spans(rows)[i] in Spans(rows);
    }
  }

  function EpisodesOf(rows: seq<Window>): seq<Episode> {
    SpansInRange(rows);
    seq(|Spans(rows)|, i requires 0 <= i < |Spans(rows)| => EpisodeOf(rows, Spans(rows)[i]))
  }

  /** The episodes of a table, whatever order its rows are in. */
  function TableEpisodes(table: seq<Window>): seq<Episode> {
    EpisodesOf(SortRows(table))
  }

  ghost predicate EpisodesInOrder(episodes: seq<Episode>) {
    && (forall i | 0 <= i < |episodes| :: episodes[i].startTs <= episodes[i].endTs)
    && (forall i, j | 0 <= i < j < |episodes| && episodes[i].host == episodes[j].host ::
          episodes[i].endTs <= episodes[j].startTs)
  }

  lemma EpisodesOfInOrder(rows: seq<Window>)
    requires SortedRows(rows)
    ensures EpisodesInOrder(EpisodesOf(rows))
  {
    var spans, episodes := Spans(rows), EpisodesOf(rows);
    SpansInRange(rows);
    SpansAreMaximalRuns(rows, 0, 0);
    forall i | 0 <= i < |episodes|
      ensures episodes[i].startTs <= episodes[i].endTs && rows[spans[i].1].host == rows[spans[i].0].host
    {
      SpansAreMaximalRuns(rows, spans[i].0, spans[i].1);
      assert spans[i] in spans;
    }
  }

  method FindEpisodes(table: seq<Window>) returns (episodes: seq<Episode>)
    ensures episodes == TableEpisodes(table)
  {
    var rows := SortRows(table);
    episodes := [];
    var start: Option<nat> := None;
    ghost var s := Scan([], None);
    SpansInRange(rows);
    for i := 0 to |rows|
      invariant s == ScanRows(rows, i) && start == s.start && (start.Some? ==> start.value < i)
      invariant |episodes| == |s.spans|
      invariant forall k | 0 <= k < |episodes| ::
                  s.spans[k].0 < |rows| && s.spans[k].1 < |rows| && episodes[k] == EpisodeOf(rows, s.spans[k])
      invariant i > 0 && start.Some? ==> rows[start.value].host == rows[i - 1].host
    {
      ScanRowsOk(rows, i);
      s := ScanRow(rows, i, s);
      var newHost := i == 0 || rows[i].host != rows[i - 1].host;
      if newHost && start.Some? {
        episodes := episodes + [Episode(rows[i - 1].host, rows[start.value].ts, rows[i - 1].ts)];
        start := None;
      }
      if rows[i].attack {
        if start.None? { start := Some(i); }
      } else if start.Some? {
        episodes := episodes + [Episode(rows[i - 1].host, rows[start.value].ts, rows[i - 1].ts)];
        start := None;
      }
    }
    if start.Some? {
      episodes := episodes + [Episode(rows[|rows| - 1].host, rows[start.value].ts, rows[|rows| - 1].ts)];
    }
  }

  // --------------------------------------------------------------------------- gap merging

  /** An episode of one host. */
  datatype Interval = Interval(start: int, end: int)

  datatype MergeRule = MergeRule(windowSeconds: int, maxGap: nat)

  /** At most `maxGap` whole windows lie between them; `//` floors and windowSeconds is positive. */
  predicate Near(rule: MergeRule, end: int, start: int)
    requires rule.windowSeconds > 0
  {
    (start - end) / rule.windowSeconds - 1 <= rule.maxGap
  }

  /** Merged just while the pause is shorter than the gap's windows and the two steps around them. */
  lemma NearIff(rule: MergeRule, end: int, start: int)
    requires rule.windowSeconds > 0
    ensures Near(rule, end, start) <==> start - end < (rule.maxGap + 2) * rule.windowSeconds
  {
    var w, k, x := rule.windowSeconds, rule.maxGap + 2, start - end;
    assert x == x / w * w + x % w;
    if x / w < k {
      MulGrows(x / w + 1, k, w);
    } else {
      MulGrows(k, x / w, w);
    }
  }

  function Max(a: int, b: int): int { if b > a then b else a }

  /** The running interval and those finished before it, after n > 0 raw intervals. */
  function MergeScan(rule: MergeRule, raw: seq<Interval>, n: nat): (seq<Interval>, Interval)
    requires rule.windowSeconds > 0 && 0 < n <= |raw|
  {
    if n == 1 then ([], raw[0])
    else
      var (done, cur) := MergeScan(rule, raw, n - 1);
      var r := raw[n - 1];
      if Near(rule, cur.end, r.start) then (done, Interval(cur.start, Max(cur.end, r.end)))
      else (done + [cur], r)
  }

  function Merged(rule: MergeRule, raw: seq<Interval>): seq<Interval>
    requires rule.windowSeconds > 0
  {
    if raw == [] then []
    else
      var (done, cur) := MergeScan(rule, raw, |raw|);
      done + [cur]
  }

  method MergeHost(rule: MergeRule, raw: seq<Interval>) returns (merged: seq<Interval>)
    requires rule.windowSeconds > 0
    ensures merged == Merged(rule, raw)
  {
    merged := [];
    if raw == [] { return; }
    var start, end := raw[0].start, raw[0].end;
    for i := 1 to |raw|
      invariant (merged, Interval(start, end)) == MergeScan(rule, raw, i)
    {
      if (raw[i].start - end) / rule.windowSeconds - 1 <= rule.maxGap {
        end := Max(end, raw[i].end);
      } else {
        merged := merged + [Interval(start, end)];
        start, end := raw[i].start, raw[i].end;
      }
    }
    merged := merged + [Interval(start, end)];
  }

  ghost predicate Sorted(xs: seq<Interval>) {
    (forall i | 0 <= i < |xs| :: xs[i].start <= xs[i].end)
    && forall i, j | 0 <= i < j < |xs| :: xs[i].start <= xs[j].start
  }

  /** Every later interval starts more than the merge gap after every earlier one ends. */
  ghost predicate Apart(rule: MergeRule, xs: seq<Interval>)
    requires rule.windowSeconds > 0
  {
    forall i, j | 0 <= i < j < |xs| :: !Near(rule, xs[i].end, xs[j].start)
  }

  ghost predicate Inside(x: Interval, t: int) { x.start <= t <= x.end }

  ghost predicate Within(x: Interval, outer: Interval) { outer.start <= x.start && x.end <= outer.end }

  ghost predicate Covered(x: Interval, out: seq<Interval>) {
    exists k | 0 <= k < |out| :: Within(x, out[k])
  }

  ghost predicate InSome(xs: seq<Interval>, t: int) {
    exists i | 0 <= i < |xs| :: Inside(xs[i], t)
  }

  ghost predicate IsStart(xs: seq<Interval>, t: int) {
    exists i | 0 <= i < |xs| :: xs[i].start == t
  }

  ghost predicate IsEnd(xs: seq<Interval>, t: int) {
    exists i | 0 <= i < |xs| :: xs[i].end == t
  }

  /** t lies strictly between two raw intervals that are near enough to merge. */
  ghost predicate InShortGap(rule: MergeRule, xs: seq<Interval>, t: int)
    requires rule.windowSeconds > 0
  {
    exists e, s | IsEnd(xs, e) && IsStart(xs, s) :: e < t < s && Near(rule, e, s)
  }

  /** What merging is for: nothing lost, nothing invented but short gaps, and what is left is apart. */
  ghost predicate IsMergeOf(rule: MergeRule, raw: seq<Interval>, out: seq<Interval>)
    requires rule.windowSeconds > 0
  {
    && Sorted(out) && Apart(rule, out)
    && (forall x | x in raw :: Covered(x, out))
    && (forall y | y in out :: IsStart(raw, y.start) && IsEnd(raw, y.end))
    && (forall t | InSome(out, t) :: InSome(raw, t) || InShortGap(rule, raw, t))
  }

  lemma NearGrows(rule: MergeRule, e: int, e': int, s: int, s': int)
    requires rule.windowSeconds > 0 && e <= e' && s' <= s && Near(rule, e, s)
    ensures Near(rule, e', s')
  {
    DivGrows(s' - e', s - e, rule.windowSeconds);
  }

  lemma AnyIndex<T>(xs: seq<T>, more: seq<T>, i: nat)
    requires i < |xs|
    ensures (xs + more)[i] == xs[i]
  {
  }

  lemma MoreRaw(rule: MergeRule, xs: seq<Interval>, more: seq<Interval>, t: int)
    requires rule.windowSeconds > 0
    ensures InSome(xs, t) ==> InSome(xs + more, t)
    ensures IsStart(xs, t) ==> IsStart(xs + more, t)
    ensures IsEnd(xs, t) ==> IsEnd(xs + more, t)
  {
    forall i: nat | i < |xs| ensures (xs + more)[i] == xs[i] { AnyIndex(xs, more, i); }
    if InSome(xs, t) {
      var i :| 0 <= i < |xs| && Inside(xs[i], t);
      assert Inside((xs + more)[i], t);
    }
    if IsStart(xs, t) {
      var i :| 0 <= i < |xs| && xs[i].start == t;
      assert (xs + more)[i].start == t;
    }
    if IsEnd(xs, t) {
      var i :| 0 <= i < |xs| && xs[i].end == t;
      assert (xs + more)[i].end == t;
    }
  }

  lemma MoreGap(rule: MergeRule, xs: seq<Interval>, more: seq<Interval>, t: int)
    requires rule.windowSeconds > 0 && InShortGap(rule, xs, t)
    ensures InShortGap(rule, xs + more, t)
  {
    var e, s :| IsEnd(xs, e) && IsStart(xs, s) && e < t < s && Near(rule, e, s);
    MoreRaw(rule, xs, more, e);
    MoreRaw(rule, xs, more, s);
  }

  lemma JoinCovers(raw: seq<Interval>, done: seq<Interval>, cur: Interval, r: Interval, x: Interval)
    requires x in raw + [r] && (forall y | y in raw :: Covered(y, done + [cur])) && cur.start <= r.start
    ensures Covered(x, done + [Interval(cur.start, Max(cur.end, r.end))])
  {
    var out, out' := done + [cur], done + [Interval(cur.start, Max(cur.end, r.end))];
    if x in raw {
      var k :| 0 <= k < |out| && Within(x, out[k]);
      assert Within(x, out'[k]);
    } else {
      assert Within(r, out'[|done|]);
    }
  }

  lemma JoinTight(rule: MergeRule, raw: seq<Interval>, done: seq<Interval>, cur: Interval, r: Interval, t: int)
    requires rule.windowSeconds > 0 && Near(rule, cur.end, r.start) && IsEnd(raw, cur.end)
    requires InSome(done + [cur], t) ==> InSome(raw, t) || InShortGap(rule, raw, t)
    requires InSome(done + [Interval(cur.start, Max(cur.end, r.end))], t)
    ensures InSome(raw + [r], t) || InShortGap(rule, raw + [r], t)
  {
    var out, out' := done + [cur], done + [Interval(cur.start, Max(cur.end, r.end))];
    var k :| 0 <= k < |out'| && Inside(out'[k], t);
    MoreRaw(rule, raw, [r], t);
    MoreRaw(rule, raw, [r], cur.end);
    assert (raw + [r])[|raw|] == r;
    if k < |done| || t <= cur.end {
      assert Inside(out[k], t);
      if InShortGap(rule, raw, t) { MoreGap(rule, raw, [r], t); }
    } else if r.start <= t {
      assert Inside((raw + [r])[|raw|], t);
    } else {
      assert IsStart(raw + [r], r.start);
    }
  }

  /** One raw interval joining the running one. */
  lemma JoinStep(rule: MergeRule, raw: seq<Interval>, done: seq<Interval>, cur: Interval, r: Interval)
    requires rule.windowSeconds > 0 && IsMergeOf(rule, raw, done + [cur])
    requires cur.start <= r.start <= r.end && Near(rule, cur.end, r.start)
    ensures IsMergeOf(rule, raw + [r], done + [Interval(cur.start, Max(cur.end, r.end))])
  {
    var out, cur' := done + [cur], Interval(cur.start, Max(cur.end, r.end));
    var out' := done + [cur'];
    assert out[|done|] == cur;
    forall x | x in raw + [r] ensures Covered(x, out') {
      JoinCovers(raw, done, cur, r, x);
    }
    forall y | y in out' ensures IsStart(raw + [r], y.start) && IsEnd(raw + [r], y.end) {
      var y0 := if y in done then y else cur;
      assert y0 in out;
      MoreRaw(rule, raw, [r], y0.start);
      MoreRaw(rule, raw, [r], y0.end);
      assert (raw + [r])[|raw|] == r;
    }
    forall t | InSome(out', t) ensures InSome(raw + [r], t) || InShortGap(rule, raw + [r], t) {
      JoinTight(rule, raw, done, cur, r, t);
    }
    SameShape(rule, out, out');
  }

  /** Stretching the last interval keeps the list sorted and apart. */
  lemma SameShape(rule: MergeRule, out: seq<Interval>, out': seq<Interval>)
    requires rule.windowSeconds > 0 && Sorted(out) && Apart(rule, out) && |out| == |out'| > 0
    requires out'[..|out| - 1] == out[..|out| - 1]
    requires out'[|out| - 1].start == out[|out| - 1].start && out'[|out| - 1].end >= out[|out| - 1].end
    ensures Sorted(out') && Apart(rule, out')
  {
    forall i | 0 <= i < |out| - 1 ensures out'[i] == out[i] {
      assert out'[..|out| - 1][i] == out[..|out| - 1][i];
    }
  }

  lemma NewIsApart(rule: MergeRule, raw: seq<Interval>, done: seq<Interval>, cur: Interval, r: Interval)
    requires rule.windowSeconds > 0 && IsMergeOf(rule, raw, done + [cur])
    requires cur.start <= r.start <= r.end && !Near(rule, cur.end, r.start)
    ensures Sorted(done + [cur, r]) && Apart(rule, done + [cur, r])
  {
    var out := done + [cur];
    assert done + [cur, r] == out + [r];
    forall i | 0 <= i < |out| ensures !Near(rule, out[i].end, r.start) && out[i].start <= r.start {
      if i < |done| {
        assert !Near(rule, out[i].end, out[|done|].start);
        if Near(rule, out[i].end, r.start) { NearGrows(rule, out[i].end, out[i].end, r.start, cur.start); }
      }
    }
  }

  lemma NewIsCovered(raw: seq<Interval>, out: seq<Interval>, r: Interval)
    requires r.start <= r.end && forall x | x in raw :: Covered(x, out)
    ensures forall x | x in raw + [r] :: Covered(x, out + [r])
  {
    var out' := out + [r];
    forall x | x in raw + [r] ensures Covered(x, out') {
      if x == r {
        assert Within(r, out'[|out|]);
      } else {
        var k :| 0 <= k < |out| && Within(x, out[k]);
        assert Within(x, out'[k]);
      }
    }
  }

  /** One raw interval far enough away to start anew. */
  lemma NewStep(rule: MergeRule, raw: seq<Interval>, done: seq<Interval>, cur: Interval, r: Interval)
    requires rule.windowSeconds > 0 && IsMergeOf(rule, raw, done + [cur])
    requires cur.start <= r.start <= r.end && !Near(rule, cur.end, r.start)
    ensures IsMergeOf(rule, raw + [r], done + [cur, r])
  {
    var out := done + [cur];
    var out' := done + [cur, r];
    NewIsApart(rule, raw, done, cur, r);
    NewIsCovered(raw, out, r);
    assert out' == out + [r] && (raw + [r])[|raw|] == r && out'[|out|] == r;
    forall y | y in out' ensures IsStart(raw + [r], y.start) && IsEnd(raw + [r], y.end) {
      if y in out {
        MoreRaw(rule, raw, [r], y.start);
        MoreRaw(rule, raw, [r], y.end);
      }
    }
    forall t | InSome(out', t) ensures InSome(raw + [r], t) || InShortGap(rule, raw + [r], t) {
      var k :| 0 <= k < |out'| && Inside(out'[k], t);
      if k < |out| {
        assert Inside(out[k], t);
        MoreRaw(rule, raw, [r], t);
        if InShortGap(rule, raw, t) { MoreGap(rule, raw, [r], t); }
      } else {
        assert Inside((raw + [r])[|raw|], t);
      }
    }
  }

  lemma SingleMerge(rule: MergeRule, r: Interval)
    requires rule.windowSeconds > 0 && r.start <= r.end
    ensures IsMergeOf(rule, [r], [r])
  {
    assert Within([r][0], [r][0]);
  }

  lemma {:induction false} MergeScanOk(rule: MergeRule, raw: seq<Interval>, n: nat)
    requires rule.windowSeconds > 0 && Sorted(raw) && 0 < n <= |raw|
    ensures var (done, cur) := MergeScan(rule, raw, n);
            IsMergeOf(rule, raw[..n], done + [cur]) && cur.start <= raw[n - 1].start
  {
    if n == 1 {
      SingleMerge(rule, raw[0]);
      assert raw[..1] == [raw[0]] && [] + [raw[0]] == [raw[0]];
    } else {
      MergeScanOk(rule, raw, n - 1);
      var (done, cur) := MergeScan(rule, raw, n - 1);
      assert raw[..n] == raw[..n - 1] + [raw[n - 1]] && raw[n - 2].start <= raw[n - 1].start;
      MergeStep(rule, raw[..n - 1], done, cur, raw[n - 1]);
    }
  }

  lemma MergeStep(rule: MergeRule, raw: seq<Interval>, done: seq<Interval>, cur: Interval, r: Interval)
    requires rule.windowSeconds > 0 && IsMergeOf(rule, raw, done + [cur])
    requires cur.start <= r.start <= r.end
    ensures IsMergeOf(rule, raw + [r],
              if Near(rule, cur.end, r.start) then done + [Interval(cur.start, Max(cur.end, r.end))]
              else (done + [cur]) + [r])
  {
    if Near(rule, cur.end, r.start) {
      JoinStep(rule, raw, done, cur, r);
    } else {
      NewStep(rule, raw, done, cur, r);
      assert done + [cur] + [r] == done + [cur, r];
    }
  }

  /** The loop's result is a merge: sorted, apart, covering, and tight. */
  lemma MergedIsMerge(rule: MergeRule, raw: seq<Interval>)
    requires rule.windowSeconds > 0 && Sorted(raw)
    ensures IsMergeOf(rule, raw, Merged(rule, raw))
  {
    if raw != [] {
      MergeScanOk(rule, raw, |raw|);
      assert raw[..|raw|] == raw;
    }
  }

  lemma {:induction false} ApartIsFixed(rule: MergeRule, xs: seq<Interval>, n: nat)
    requires rule.windowSeconds > 0 && Apart(rule, xs) && 0 < n <= |xs|
    ensures MergeScan(rule, xs, n) == (xs[..n - 1], xs[n - 1])
  {
    if n > 1 {
      ApartIsFixed(rule, xs, n - 1);
      assert xs[..n - 2] + [xs[n - 2]] == xs[..n - 1];
    }
  }

  /** Merging again changes nothing. */
  lemma MergeIsIdempotent(rule: MergeRule, raw: seq<Interval>)
    requires rule.windowSeconds > 0 && Sorted(raw)
    ensures Merged(rule, Merged(rule, raw)) == Merged(rule, raw)
  {
    var out := Merged(rule, raw);
    MergedIsMerge(rule, raw);
    if out != [] {
      ApartIsFixed(rule, out, |out|);
      assert out[..|out| - 1] + [out[|out| - 1]] == out;
    }
  }
}
