/**
Where each forecast origin sits relative to the attack episodes of its host:
`episode_geometry` of ml/nidra/data/onset.py, on the merged episodes of `Runs`.
*/
module Geometry {
  import opened Numbers
  import opened Options
  import opened Runs
  import opened Tables

  // ------------------------------------------------------------ one host's merged episodes

  /** The `groupby("host_id")` of the raw episodes, one host's group. */
  function HostIntervals(episodes: seq<Episode>, host: string): seq<Interval> {
    if episodes == [] then []
    else
      var last := episodes[|episodes| - 1];
      HostIntervals(episodes[..|episodes| - 1], host)
      + if last.host == host then [Interval(last.startTs, last.endTs)] else []
  }

  function MergedEpisodes(rule: MergeRule, table: seq<Window>, host: string): seq<Interval>
    requires rule.windowSeconds > 0
  {
    Merged(rule, HostIntervals(TableEpisodes(table), host))
  }

  lemma {:induction false} HostIntervalsFrom(episodes: seq<Episode>, host: string)
    ensures forall x | x in HostIntervals(episodes, host) :: Episode(host, x.start, x.end) in episodes
  {
    if episodes != [] {
      HostIntervalsFrom(episodes[..|episodes| - 1], host);
    }
  }

  lemma {:induction false} HostIntervalsSorted(episodes: seq<Episode>, host: string)
    requires EpisodesInOrder(episodes)
    ensures Sorted(HostIntervals(episodes, host))
  {
    if episodes != [] {
      var init := episodes[..|episodes| - 1];
      HostIntervalsSorted(init, host);
      HostIntervalsFrom(init, host);
      var xs := HostIntervals(init, host);
      var last := episodes[|episodes| - 1];
      forall i | 0 <= i < |xs| && last.host == host ensures xs[i].start <= last.startTs {
        assert xs[i] in xs;
        var k :| 0 <= k < |init| && init[k] == Episode(host, xs[i].start, xs[i].end);
        assert episodes[k] == init[k];
      }
    }
  }

  /** Host by host, in the order of their names. */
  ghost predicate ByHost(episodes: seq<Episode>) {
    forall i, j | 0 <= i < j < |episodes| :: NameLeq(episodes[i].host, episodes[j].host)
  }

  lemma {:induction false} NameReflexive(a: string)
    ensures NameLeq(a, a)
  {
    NameTotal(a, a);
  }

  lemma TableEpisodesByHost(table: seq<Window>)
    ensures ByHost(TableEpisodes(table))
  {
    var rows := SortRows(table);
    var spans, episodes := Spans(rows), TableEpisodes(table);
    SortRowsSorts(table);
    SpansInRange(rows);
    SpansAreMaximalRuns(rows, 0, 0);
    forall i, j | 0 <= i < j < |episodes|
      ensures NameLeq(episodes[i].host, episodes[j].host)
    {
      NameReflexive(episodes[i].host);
      assert RowLeq(rows[spans[i].0], rows[spans[j].0]);
    }
  }

  /** On any table the merged episodes of a host are a merge of that host's maximal runs. */
  lemma MergedEpisodesAreMerge(rule: MergeRule, table: seq<Window>, host: string)
    requires rule.windowSeconds > 0
    ensures IsMergeOf(rule, HostIntervals(TableEpisodes(table), host), MergedEpisodes(rule, table, host))
  {
    SortRowsSorts(table);
    EpisodesOfInOrder(SortRows(table));
    HostIntervalsSorted(TableEpisodes(table), host);
    MergedIsMerge(rule, HostIntervals(TableEpisodes(table), host));
  }

  // -------------------------------------------------------------------------- one origin

  /** The three output cells of one origin; `None` minutes is infinity, `None` key the empty string. */
  datatype Cell = Cell(inside: bool, toOnset: Option<real>, key: Option<int>)

  const BLANK := Cell(false, None, None)

  function Minutes(seconds: int): real { seconds as real / 60.0 }

  /** One episode visited: a row inside is keyed to it, a row before it only if inside none so far. */
  function Visit(c: Cell, t: int, x: Interval): Cell {
    var inEpisode := x.start <= t <= x.end;
    var d := Minutes(x.start - t);
    var before := d > 0.0 && (c.toOnset.None? || d < c.toOnset.value);
    var c1 := if inEpisode then c.(inside := true, key := Some(x.start)) else c;
    var c2 := if before then c1.(toOnset := Some(d)) else c1;
    if before && !c2.inside then c2.(key := Some(x.start)) else c2
  }

  function VisitAll(xs: seq<Interval>, t: int, n: nat): Cell
    requires n <= |xs|
  {
    if n == 0 then BLANK else Visit(VisitAll(xs, t, n - 1), t, xs[n - 1])
  }

  ghost predicate Disjoint(xs: seq<Interval>) {
    (forall i | 0 <= i < |xs| :: xs[i].start <= xs[i].end)
    && forall i, j | 0 <= i < j < |xs| :: xs[i].end < xs[j].start
  }

  /** k is the first of the first n episodes that starts strictly after t. */
  ghost predicate IsNext(xs: seq<Interval>, t: int, n: nat, k: nat)
    requires n <= |xs|
  {
    k < n && xs[k].start > t && forall j | 0 <= j < k :: xs[j].start <= t
  }

  ghost predicate NoneLater(xs: seq<Interval>, t: int, n: nat)
    requires n <= |xs|
  {
    forall j | 0 <= j < n :: xs[j].start <= t
  }

  ghost predicate InFirst(xs: seq<Interval>, t: int, n: nat, k: nat)
    requires n <= |xs|
  {
    k < n && Inside(xs[k], t)
  }

  ghost predicate Outside(xs: seq<Interval>, t: int, n: nat)
    requires n <= |xs|
  {
    forall j | 0 <= j < n :: !Inside(xs[j], t)
  }

  /** What the cell must say, by position of t alone. */
  ghost predicate Pointwise(xs: seq<Interval>, t: int, n: nat, c: Cell)
    requires n <= |xs|
  {
    && (c.inside <==> !Outside(xs, t, n))
    && OnsetIs(xs, t, n, c.toOnset)
    && (match c.key
        case None => Outside(xs, t, n) && NoneLater(xs, t, n)
        case Some(s) => KeyIs(xs, t, n, s))
  }

  ghost predicate OnsetIs(xs: seq<Interval>, t: int, n: nat, onset: Option<real>)
    requires n <= |xs|
  {
    match onset
    case None => NoneLater(xs, t, n)
    case Some(d) => exists k: nat :: IsNext(xs, t, n, k) && d * 60.0 == (xs[k].start - t) as real
  }

  ghost predicate KeyIs(xs: seq<Interval>, t: int, n: nat, s: int)
    requires n <= |xs|
  {
    (exists k: nat :: InFirst(xs, t, n, k) && s == xs[k].start)
    || (Outside(xs, t, n) && exists k: nat :: IsNext(xs, t, n, k) && s == xs[k].start)
  }

  lemma OnsetStep(xs: seq<Interval>, t: int, n: nat, c: Cell)
    requires n < |xs| && Disjoint(xs) && OnsetIs(xs, t, n, c.toOnset)
    ensures OnsetIs(xs, t, n + 1, Visit(c, t, xs[n]).toOnset)
    ensures var d := Minutes(xs[n].start - t);
            (d > 0.0 && (c.toOnset.None? || d < c.toOnset.value)) <==> IsNext(xs, t, n + 1, n)
  {
    var x := xs[n];
    assert Minutes(x.start - t) > 0.0 <==> x.start > t;
    if c.toOnset.Some? {
      var k: nat :| IsNext(xs, t, n, k) && c.toOnset.value == Minutes(xs[k].start - t);
      assert IsNext(xs, t, n + 1, k) && xs[k].start <= xs[k].end < x.start;
      assert Minutes(xs[k].start - t) < Minutes(x.start - t);
    } else if x.start > t {
      assert IsNext(xs, t, n + 1, n);
    }
  }

  lemma KeyStep(xs: seq<Interval>, t: int, n: nat, c: Cell)
    requires n < |xs| && Disjoint(xs) && Pointwise(xs, t, n, c)
    ensures var c' := Visit(c, t, xs[n]);
            (c'.inside <==> !Outside(xs, t, n + 1))
            && (c'.key.None? ==> Outside(xs, t, n + 1) && NoneLater(xs, t, n + 1))
            && (c'.key.Some? ==> KeyIs(xs, t, n + 1, c'.key.value))
  {
    OnsetStep(xs, t, n, c);
    var x := xs[n];
    if Inside(x, t) {
      assert InFirst(xs, t, n + 1, n);
    } else if c.key.Some? {
      if k: nat :| InFirst(xs, t, n, k) && c.key.value == xs[k].start {
        assert InFirst(xs, t, n + 1, k);
      } else {
        var k: nat :| IsNext(xs, t, n, k) && c.key.value == xs[k].start;
        assert IsNext(xs, t, n + 1, k);
      }
    }
  }

  lemma PointwiseStep(xs: seq<Interval>, t: int, n: nat, c: Cell, next: Cell)
    requires n < |xs| && Disjoint(xs) && Pointwise(xs, t, n, c) && next == Visit(c, t, xs[n])
    ensures Pointwise(xs, t, n + 1, next)
  {
    OnsetStep(xs, t, n, c);
    KeyStep(xs, t, n, c);
  }

  /**
  On sorted disjoint episodes the loop is pointwise: inside is membership in some
  episode, to_onset the distance to the nearest strictly later onset, and the key
  the containing episode, else the next one, else none.
  */
  lemma {:induction false} GeometryIsPointwise(xs: seq<Interval>, t: int, n: nat)
    requires Disjoint(xs) && n <= |xs|
    ensures Pointwise(xs, t, n, VisitAll(xs, t, n))
  {
    if n > 0 {
      var c, next := VisitAll(xs, t, n - 1), VisitAll(xs, t, n);
      assert next == Visit(c, t, xs[n - 1]);
      GeometryIsPointwise(xs, t, n - 1);
      PointwiseStep(xs, t, n - 1, c, next);
    }
  }

  /** Merged episodes are disjoint, so the pointwise reading applies to them. */
  lemma ApartIsDisjoint(rule: MergeRule, xs: seq<Interval>)
    requires rule.windowSeconds > 0 && Sorted(xs) && Apart(rule, xs)
    ensures Disjoint(xs)
  {
    forall i, j | 0 <= i < j < |xs| ensures xs[i].end < xs[j].start {
      if xs[j].start <= xs[i].end {
        DivGrows(xs[j].start - xs[i].end, 0, rule.windowSeconds);
        assert false;
      }
    }
  }

  lemma GeometryOfTable(rule: MergeRule, table: seq<Window>, host: string, t: int)
    requires rule.windowSeconds > 0
    ensures var xs := MergedEpisodes(rule, table, host);
            Pointwise(xs, t, |xs|, VisitAll(xs, t, |xs|))
  {
    MergedEpisodesAreMerge(rule, table, host);
    ApartIsDisjoint(rule, MergedEpisodes(rule, table, host));
    GeometryIsPointwise(MergedEpisodes(rule, table, host), t, |MergedEpisodes(rule, table, host)|);
  }

  // ------------------------------------------------------------------------------ the loops

  /** One host's group of episodes. */
  datatype Group = Group(host: string, episodes: seq<Interval>)

  ghost predicate DistinctHosts(groups: seq<Group>) {
    forall i, j | 0 <= i < j < |groups| :: groups[i].host != groups[j].host
  }

  /** Position of a host's group among the first n, or n. */
  function FindGroup(groups: seq<Group>, host: string, n: nat): (k: nat)
    requires n <= |groups|
    ensures k <= n && (k < n ==> groups[k].host == host)
  {
    if n == 0 then 0
    else
      var k := FindGroup(groups, host, n - 1);
      if k < n - 1 then k else if groups[n - 1].host == host then n - 1 else n
  }

  function CellAfter(groups: seq<Group>, host: string, t: int, n: nat): Cell
    requires n <= |groups|
  {
    var k := FindGroup(groups, host, n);
    if k == n then BLANK else VisitAll(groups[k].episodes, t, |groups[k].episodes|)
  }

  /**
  The nested loops over hosts and episodes. Boolean masks are read row by row, so
  the loop over rows is innermost.
  */
  method EpisodeGeometry(groups: seq<Group>, hosts: seq<string>, ts: seq<int>) returns (cells: array<Cell>)
    requires DistinctHosts(groups) && |hosts| == |ts|
    ensures fresh(cells) && cells.Length == |ts|
    ensures forall i | 0 <= i < |ts| :: cells[i] == CellAfter(groups, hosts[i], ts[i], |groups|)
  {
    var n := |ts|;
    cells := new Cell[n](_ => BLANK);
    for g := 0 to |groups|
      invariant forall i | 0 <= i < n :: cells[i] == CellAfter(groups, hosts[i], ts[i], g)
    {
      VisitGroup(groups[g], hosts, ts, cells);
    }
  }

  method VisitGroup(group: Group, hosts: seq<string>, ts: seq<int>, cells: array<Cell>)
    requires |hosts| == |ts| == cells.Length
    requires forall i | 0 <= i < |ts| && hosts[i] == group.host :: cells[i] == BLANK
    modifies cells
    ensures forall i | 0 <= i < |ts| :: cells[i] ==
              if hosts[i] == group.host then VisitAll(group.episodes, ts[i], |group.episodes|) else old(cells[i])
  {
    for e := 0 to |group.episodes|
      invariant forall i | 0 <= i < |ts| :: cells[i] ==
                  if hosts[i] == group.host then VisitAll(group.episodes, ts[i], e) else old(cells[i])
    {
      var x := group.episodes[e];
      for i := 0 to |ts|
        invariant forall k | 0 <= k < |ts| :: cells[k] ==
                    if hosts[k] == group.host then VisitAll(group.episodes, ts[k], if k < i then e + 1 else e)
                    else old(cells[k])
      {
        if hosts[i] == group.host {
          cells[i] := Visit(cells[i], ts[i], x);
        }
      }
    }
  }

  // ------------------------------------------------------------- the whole computation

  ghost predicate HostsAscend(groups: seq<Group>) {
    forall i, j | 0 <= i < j < |groups| :: NameLeq(groups[i].host, groups[j].host)
  }

  /** One group per host that has episodes, in the order of the names, each with that host's merged episodes. */
  ghost predicate IsGrouping(rule: MergeRule, table: seq<Window>, groups: seq<Group>)
    requires rule.windowSeconds > 0
  {
    && DistinctHosts(groups) && HostsAscend(groups)
    && (forall g | g in groups :: g.episodes != [] && g.episodes == MergedEpisodes(rule, table, g.host))
    && (forall e | e in TableEpisodes(table) :: exists g :: g in groups && g.host == e.host)
  }

  lemma {:induction false} NoIntervals(episodes: seq<Episode>, host: string)
    requires forall e | e in episodes :: e.host != host
    ensures HostIntervals(episodes, host) == []
  {
    if episodes != [] {
      NoIntervals(episodes[..|episodes| - 1], host);
    }
  }

  lemma {:induction false} FindsHost(groups: seq<Group>, host: string, n: nat)
    requires n <= |groups|
    ensures FindGroup(groups, host, n) == n <==> forall k | 0 <= k < n :: groups[k].host != host
  {
    if n > 0 {
      FindsHost(groups, host, n - 1);
    }
  }

  /** A host without a group has no episodes, so its origins keep the blank cell. */
  lemma CellOfTable(rule: MergeRule, table: seq<Window>, groups: seq<Group>, host: string, t: int)
    requires rule.windowSeconds > 0 && IsGrouping(rule, table, groups)
    ensures var xs := MergedEpisodes(rule, table, host);
            CellAfter(groups, host, t, |groups|) == VisitAll(xs, t, |xs|)
  {
    var k := FindGroup(groups, host, |groups|);
    FindsHost(groups, host, |groups|);
    if k < |groups| {
      assert groups[k] in groups;
    } else {
      NoIntervals(TableEpisodes(table), host);
    }
  }

  lemma {:induction false} HasInterval(episodes: seq<Episode>, i: nat)
    requires i < |episodes|
    ensures Interval(episodes[i].startTs, episodes[i].endTs) in HostIntervals(episodes, episodes[i].host)
  {
    if i < |episodes| - 1 {
      HasInterval(episodes[..|episodes| - 1], i);
    }
  }

  /** Merging leaves a host that has an episode with one. */
  lemma MergedIsNotEmpty(rule: MergeRule, table: seq<Window>, i: nat)
    requires rule.windowSeconds > 0 && i < |TableEpisodes(table)|
    ensures MergedEpisodes(rule, table, TableEpisodes(table)[i].host) != []
  {
    var e := TableEpisodes(table)[i];
    HasInterval(TableEpisodes(table), i);
    MergedEpisodesAreMerge(rule, table, e.host);
    assert Covered(Interval(e.startTs, e.endTs), MergedEpisodes(rule, table, e.host));
  }

  lemma GroupsGrow(groups: seq<Group>, g: Group)
    requires DistinctHosts(groups) && HostsAscend(groups)
    requires forall x | x in groups :: x.host != g.host && NameLeq(x.host, g.host)
    ensures DistinctHosts(groups + [g]) && HostsAscend(groups + [g])
  {
    assert forall k | 0 <= k < |groups| :: groups[k] in groups && (groups + [g])[k] == groups[k];
  }

  /** `merge_episodes`: the runs of each host in turn, merged. */
  method MergeEpisodes(rule: MergeRule, table: seq<Window>) returns (groups: seq<Group>)
    requires rule.windowSeconds > 0
    ensures IsGrouping(rule, table, groups)
  {
    var raw := FindEpisodes(table);
    TableEpisodesByHost(table);
    groups := [];
    var seen: set<string> := {};
    for i := 0 to |raw|
      invariant forall h :: h in seen <==> exists g :: g in groups && g.host == h
      invariant forall k | 0 <= k < i :: raw[k].host in seen
      invariant forall g | g in groups :: exists k | 0 <= k < i :: raw[k].host == g.host
      invariant DistinctHosts(groups) && HostsAscend(groups)
      invariant forall g | g in groups :: g.episodes != [] && g.episodes == MergedEpisodes(rule, table, g.host)
    {
      if raw[i].host !in seen {
        var merged := MergeHost(rule, HostIntervals(raw, raw[i].host));
        var g := Group(raw[i].host, merged);
        MergedIsNotEmpty(rule, table, i);
        GroupsGrow(groups, g);
        groups := groups + [g];
        assert g in groups;
        seen := seen + {raw[i].host};
      }
    }
  }

  /** From the table to the cells: every origin reads its own host's merged episodes, pointwise. */
  method TableGeometry(rule: MergeRule, table: seq<Window>, hosts: seq<string>, ts: seq<int>)
    returns (cells: array<Cell>)
    requires rule.windowSeconds > 0 && |hosts| == |ts|
    ensures fresh(cells) && cells.Length == |ts|
    ensures forall i | 0 <= i < |ts| ::
              var xs := MergedEpisodes(rule, table, hosts[i]);
              Pointwise(xs, ts[i], |xs|, cells[i])
  {
    var groups := MergeEpisodes(rule, table);
    cells := EpisodeGeometry(groups, hosts, ts);
    forall i | 0 <= i < |ts|
      ensures var xs := MergedEpisodes(rule, table, hosts[i]);
              Pointwise(xs, ts[i], |xs|, cells[i])
    {
      CellOfTable(rule, table, groups, hosts[i], ts[i]);
      GeometryOfTable(rule, table, hosts[i], ts[i]);
    }
  }
}
