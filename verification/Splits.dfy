/**
The trailing validation block: `_trailing_block_cutoff` and
`temporal_train_val_split` of ml/nidra/data/splits.py.

The cutoff is nudged once, so an episode that ended before the old cutoff can
straddle the new one, or start within the margin after it. The theorems say
exactly when either happens, for a cutoff and for the whole split.
*/
module Splits {
  import opened Orders
  import opened Runs
  import opened Tables

  function Times(rows: seq<Window>): set<int> { set r | r in rows :: r.ts }

  /** `int(n * (1 - val_fraction))`, kept within the positions there are. */
  function CutoffIndex(n: nat, valFraction: real): nat
    requires n > 0
    ensures CutoffIndex(n, valFraction) < n
  {
    var index := (n as real * (1.0 - valFraction)).Floor;
    if index < 0 then 0 else if index > n - 1 then n - 1 else index
  }

  /** The fraction-based cutoff, before any nudge. */
  function PlainCutoff(rows: seq<Window>, valFraction: real): int
    requires rows != []
  {
    UniqueTimes(rows)[CutoffIndex(|UniqueTimes(rows)|, valFraction)]
  }

  function UniqueTimes(rows: seq<Window>): (unique: seq<int>)
    requires rows != []
    ensures |unique| > 0 && forall r | r in rows :: unique[0] <= r.ts
    ensures forall t :: t in unique <==> t in Times(rows)
  {
    var unique := Ascend(Times(rows));
    assert rows[0].ts in unique;
    assert forall r | r in rows :: exists j | 0 <= j < |unique| :: unique[j] == r.ts by {
      forall r | r in rows ensures exists j | 0 <= j < |unique| :: unique[j] == r.ts {
        assert r.ts in unique;
      }
    }
    unique
  }

  /** Episodes the cutoff would cut, or that start within the margin after it. */
  function Near(episodes: seq<Episode>, cutoff: int, margin: int): set<int> {
    set e | e in episodes && e.startTs - margin < cutoff && e.endTs >= cutoff :: e.startTs
  }

  function Nudge(episodes: seq<Episode>, cutoff: int, margin: int, first: int): int {
    var near := Near(episodes, cutoff, margin);
    if near == {} then cutoff else Max(Min(near) - margin, first)
  }

  function Cutoff(rows: seq<Window>, valFraction: real, margin: int): int
    requires rows != []
  {
    Nudge(TableEpisodes(rows), PlainCutoff(rows, valFraction), margin, UniqueTimes(rows)[0])
  }

  method TrailingBlockCutoff(rows: seq<Window>, valFraction: real, margin: int) returns (cutoff: int)
    requires rows != []
    ensures cutoff == Cutoff(rows, valFraction, margin)
  {
    var unique := UniqueTimes(rows);
    var plain := unique[CutoffIndex(|unique|, valFraction)];
    var episodes := FindEpisodes(rows);
    cutoff := NudgeOnce(episodes, plain, margin, unique[0]);
  }

  method NudgeOnce(episodes: seq<Episode>, plain: int, margin: int, first: int) returns (cutoff: int)
    ensures cutoff == Nudge(episodes, plain, margin, first)
  {
    cutoff := plain;
    if episodes != [] {
      var near := Near(episodes, cutoff, margin);
      if near != {} {
        cutoff := Max(Min(near) - margin, first);
      }
    }
  }

  /** Part of the episode lands in train and part in validation. */
  ghost predicate Straddles(e: Episode, cutoff: int) {
    e.startTs < cutoff <= e.endTs
  }

  ghost predicate StartsAfter(episodes: seq<Episode>, first: int) {
    forall e | e in episodes :: first <= e.startTs
  }

  /**
  After the single nudge an episode straddles the cutoff exactly when one that
  ended before the original cutoff reaches the new one: no other can.
  */
  lemma StraddlersEndedEarlier(episodes: seq<Episode>, cutoff: int, margin: int, first: int, e: Episode)
    requires margin >= 0 && first <= cutoff && StartsAfter(episodes, first) && e in episodes
    ensures var nudged := Nudge(episodes, cutoff, margin, first);
            Straddles(e, nudged) <==> e.startTs < nudged <= e.endTs < cutoff
    ensures Nudge(episodes, cutoff, margin, first) <= cutoff
  {
    var near := Near(episodes, cutoff, margin);
    if e.endTs >= cutoff && e.startTs - margin < cutoff {
      assert e.startTs in near;
    }
  }

  /** Unless clipped at the first window, nothing live at the old cutoff starts within the margin of the new one. */
  lemma MarginIsKept(episodes: seq<Episode>, cutoff: int, margin: int, first: int, e: Episode)
    requires margin >= 0 && first <= cutoff && StartsAfter(episodes, first) && e in episodes && e.endTs >= cutoff
    ensures var nudged := Nudge(episodes, cutoff, margin, first);
            nudged == first || nudged + margin <= e.startTs
  {
    var near := Near(episodes, cutoff, margin);
    if e.startTs - margin < cutoff {
      assert e.startTs in near;
    } else if near != {} {
      assert exists x | x in episodes :: x.startTs == Min(near) && x.startTs - margin < cutoff;
    }
  }

  /** Some episode starts at the cutoff or less than a margin after it: its run-up is not on its side. */
  ghost predicate LosesRunUp(episodes: seq<Episode>, cutoff: int, margin: int) {
    exists e | e in episodes :: cutoff <= e.startTs < cutoff + margin
  }

  /**
  Seen from the episodes alone: the run-up of the earliest onset near the plain cutoff is cut
  short by the start of the table, or an earlier episode that ended before the plain cutoff
  starts inside it.
  */
  ghost predicate RunUpShared(episodes: seq<Episode>, plain: int, margin: int, first: int) {
    var near := Near(episodes, plain, margin);
    near != {} && (Min(near) - margin < first
                   || exists e | e in episodes :: Min(near) - margin <= e.startTs < Min(near) && e.endTs < plain)
  }

  lemma NearHas(episodes: seq<Episode>, plain: int, margin: int, e: Episode)
    requires e in episodes && e.startTs - margin < plain && e.endTs >= plain
    ensures e.startTs in Near(episodes, plain, margin)
  {
  }

  lemma EarliestNear(episodes: seq<Episode>, plain: int, margin: int) returns (e: Episode)
    requires Near(episodes, plain, margin) != {}
    ensures e in episodes && e.startTs == Min(Near(episodes, plain, margin))
    ensures e.startTs - margin < plain
  {
    e :| e in episodes && e.startTs == Min(Near(episodes, plain, margin)) && e.startTs - margin < plain;
  }

  /** The second half of the promise: the nudged cutoff leaves no episode within a margin of it. */
  lemma NudgedRunUpIff(episodes: seq<Episode>, plain: int, margin: int, first: int)
    requires margin >= 0 && first <= plain && StartsAfter(episodes, first)
    requires forall e | e in episodes :: e.startTs <= e.endTs
    ensures LosesRunUp(episodes, Nudge(episodes, plain, margin, first), margin)
            <==> RunUpShared(episodes, plain, margin, first)
  {
    var near, nudged := Near(episodes, plain, margin), Nudge(episodes, plain, margin, first);
    if e :| e in episodes && nudged <= e.startTs < nudged + margin {
      if e.startTs - margin < plain && e.endTs >= plain {
        NearHas(episodes, plain, margin, e);
      }
      if near != {} {
        var x := EarliestNear(episodes, plain, margin);
      }
    }
    if RunUpShared(episodes, plain, margin, first) {
      var x := EarliestNear(episodes, plain, margin);
      if Min(near) - margin < first {
        assert nudged <= x.startTs < nudged + margin;
      } else {
        var e :| e in episodes && Min(near) - margin <= e.startTs < Min(near) && e.endTs < plain;
        assert nudged <= e.startTs < nudged + margin;
      }
    }
  }

  /** The nudge for one episode lands just ahead of another, and nothing moves the cutoff again. */
  lemma LostRunUpExample()
    ensures var early, late := Episode("h", 35, 40), Episode("h", 50, 100);
            var nudged := Nudge([early, late], 60, 20, -1000);
            nudged == 30 && LosesRunUp([early, late], nudged, 20) && !RunUpCrossed([early, late], 60, 20)
  {
    var early, late := Episode("h", 35, 40), Episode("h", 50, 100);
    assert Near([early, late], 60, 20) == {50} by {
      assert late in [early, late];
    }
    assert early in [early, late];
  }

  /** The promise fails: the nudge for one episode lands inside an earlier one. */
  lemma StraddlerExample()
    ensures var early, late := Episode("h", 0, 40), Episode("h", 50, 100);
            var nudged := Nudge([early, late], 60, 20, 0);
            nudged == 30 && Straddles(early, nudged) && !Straddles(early, 60)
  {
    var early, late := Episode("h", 0, 40), Episode("h", 50, 100);
    assert Near([early, late], 60, 20) == {50} by {
      assert late in [early, late];
    }
  }

  lemma PlainCutoffInRange(rows: seq<Window>, valFraction: real)
    requires rows != []
    ensures UniqueTimes(rows)[0] <= PlainCutoff(rows, valFraction)
  {
    var unique := UniqueTimes(rows);
    var k := CutoffIndex(|unique|, valFraction);
    assert unique[k] in unique;
    var r :| r in rows && r.ts == unique[k];
  }

  lemma EpisodesStartInTable(rows: seq<Window>)
    requires rows != []
    ensures StartsAfter(TableEpisodes(rows), UniqueTimes(rows)[0])
  {
    var sorted := SortRows(rows);
    SpansInRange(sorted);
    forall e | e in TableEpisodes(rows) ensures UniqueTimes(rows)[0] <= e.startTs {
      var k :| 0 <= k < |Spans(sorted)| && e == EpisodeOf(sorted, Spans(sorted)[k]);
      SortRowsMembers(rows, sorted[Spans(sorted)[k].0]);
    }
  }

  // ------------------------------------------------------------- where the plain cutoff is

  /** The distinct times of the block before t. */
  function TimesBefore(rows: seq<Window>, t: int): set<int> {
    set x | x in Times(rows) && x < t
  }

  function Firsts(xs: seq<int>, k: nat): set<int>
    requires k <= |xs|
  {
    set j | 0 <= j < k :: xs[j]
  }

  lemma {:induction false} FirstsSize(xs: seq<int>, k: nat)
    requires k <= |xs| && forall i, j | 0 <= i < j < |xs| :: xs[i] < xs[j]
    ensures |Firsts(xs, k)| == k
  {
    if k == 0 {
      assert Firsts(xs, 0) == {};
    } else {
      FirstsSize(xs, k - 1);
      assert Firsts(xs, k) == Firsts(xs, k - 1) + {xs[k - 1]};
      assert xs[k - 1] !in Firsts(xs, k - 1);
    }
  }

  /** As many distinct times lie before the plain cutoff as its index says, of as many as there are. */
  lemma TimesAroundIndex(rows: seq<Window>, k: nat)
    requires rows != [] && k < |UniqueTimes(rows)|
    ensures |Times(rows)| == |UniqueTimes(rows)| && |TimesBefore(rows, UniqueTimes(rows)[k])| == k
  {
    var unique := UniqueTimes(rows);
    FirstsSize(unique, k);
    FirstsSize(unique, |unique|);
    forall x
      ensures x in Firsts(unique, |unique|) <==> x in Times(rows)
      ensures x in Firsts(unique, k) <==> x in TimesBefore(rows, unique[k])
    {
      if x in Times(rows) {
        assert x in unique;
        var j :| 0 <= j < |unique| && unique[j] == x;
        assert j < k <==> x < unique[k];
      }
      if x in Firsts(unique, |unique|) {
        assert x in unique;
      }
    }
    assert Firsts(unique, |unique|) == Times(rows) && Firsts(unique, k) == TimesBefore(rows, unique[k]);
  }

  lemma PlainIndex(rows: seq<Window>, valFraction: real)
    requires rows != []
    ensures PlainCutoff(rows, valFraction) in Times(rows) && |Times(rows)| > 0
    ensures |TimesBefore(rows, PlainCutoff(rows, valFraction))| == CutoffIndex(|Times(rows)|, valFraction)
  {
    var unique := UniqueTimes(rows);
    TimesAroundIndex(rows, CutoffIndex(|unique|, valFraction));
    assert unique[CutoffIndex(|unique|, valFraction)] in unique;
  }

  lemma ProductBounds(n: real, g: real, x: real)
    requires n > 0.0 && x == n * g
    ensures g >= 1.0 ==> x >= n
    ensures g < 0.0 ==> x < 0.0
    ensures 0.0 <= g < 1.0 ==> 0.0 <= x < n
  {
    assert x - n == n * (g - 1.0);
  }

  lemma IndexPosition(n: nat, valFraction: real)
    requires n > 0
    ensures var k := CutoffIndex(n, valFraction);
            && (0.0 < valFraction <= 1.0 ==> k as real <= n as real * (1.0 - valFraction) < k as real + 1.0)
            && (valFraction <= 0.0 ==> k == n - 1)
            && (valFraction > 1.0 ==> k == 0)
  {
    ProductBounds(n as real, 1.0 - valFraction, n as real * (1.0 - valFraction));
  }

  /**
  The plain cutoff leaves val_fraction of the distinct times at or after it, rounded up to whole
  times; a fraction of nothing or less leaves the last one, a fraction beyond one leaves them all.
  */
  lemma PlainCutoffPosition(rows: seq<Window>, valFraction: real)
    requires rows != []
    ensures var n, before := |Times(rows)|, |TimesBefore(rows, PlainCutoff(rows, valFraction))|;
            && PlainCutoff(rows, valFraction) in Times(rows)
            && (0.0 < valFraction <= 1.0 ==> before as real <= n as real * (1.0 - valFraction) < before as real + 1.0)
            && (valFraction <= 0.0 ==> before == n - 1)
            && (valFraction > 1.0 ==> before == 0)
  {
    PlainIndex(rows, valFraction);
    IndexPosition(|Times(rows)|, valFraction);
  }

  ghost predicate SplitsRun(rows: seq<Window>, a: nat, b: nat, cutoff: int)
    requires a <= b < |rows|
  {
    (exists k | a <= k <= b :: rows[k].ts < cutoff) && (exists k | a <= k <= b :: rows[k].ts >= cutoff)
  }

  lemma EpisodeIffRun(rows: seq<Window>, e: Episode)
    ensures e in EpisodesOf(rows) <==> exists a: nat, b: nat | MaximalRun(rows, a, b) :: e == EpisodeOf(rows, (a, b))
  {
    SpansInRange(rows);
    if e in EpisodesOf(rows) {
      var i :| 0 <= i < |Spans(rows)| && e == EpisodeOf(rows, Spans(rows)[i]);
      assert Spans(rows)[i] in Spans(rows);
      SpansAreMaximalRuns(rows, Spans(rows)[i].0, Spans(rows)[i].1);
    }
    if a: nat, b: nat :| MaximalRun(rows, a, b) && e == EpisodeOf(rows, (a, b)) {
      SpansAreMaximalRuns(rows, a, b);
      var i :| 0 <= i < |Spans(rows)| && Spans(rows)[i] == (a, b);
      assert EpisodesOf(rows)[i] == e;
    }
  }

  /** In a sorted table a run is cut just when its episode straddles. */
  lemma CutIffStraddles(rows: seq<Window>, a: nat, b: nat, cutoff: int)
    requires SortedRows(rows) && AllAttack(rows, a, b)
    ensures SplitsRun(rows, a, b, cutoff) <==> Straddles(EpisodeOf(rows, (a, b)), cutoff)
  {
    forall k | a <= k <= b
      ensures rows[a].ts <= rows[k].ts <= rows[b].ts
    {
      HostRowsInOrder(rows, a, k);
      HostRowsInOrder(rows, k, b);
    }
    if Straddles(EpisodeOf(rows, (a, b)), cutoff) {
      assert rows[a].ts < cutoff && rows[b].ts >= cutoff;
    }
  }

  /** Some attack run of the block has rows on both sides of the cutoff. */
  ghost predicate CutsARun(rows: seq<Window>, cutoff: int) {
    var sorted := SortRows(rows);
    exists a: nat, b: nat | MaximalRun(sorted, a, b) :: SplitsRun(sorted, a, b, cutoff)
  }

  lemma CutsARunIff(rows: seq<Window>, cutoff: int)
    ensures CutsARun(rows, cutoff) <==> exists e | e in TableEpisodes(rows) :: Straddles(e, cutoff)
  {
    var sorted := SortRows(rows);
    SortRowsSorts(rows);
    if CutsARun(rows, cutoff) {
      var a: nat, b: nat :| MaximalRun(sorted, a, b) && SplitsRun(sorted, a, b, cutoff);
      EpisodeIffRun(sorted, EpisodeOf(sorted, (a, b)));
      CutIffStraddles(sorted, a, b, cutoff);
    }
    if e :| e in TableEpisodes(rows) && Straddles(e, cutoff) {
      EpisodeIffRun(sorted, e);
      var a: nat, b: nat :| MaximalRun(sorted, a, b) && e == EpisodeOf(sorted, (a, b));
      CutIffStraddles(sorted, a, b, cutoff);
    }
  }

  /**
  Seen from the episodes alone: one that ended before the plain cutoff lies across the point
  one margin ahead of the earliest onset the nudge is for.
  */
  ghost predicate RunUpCrossed(episodes: seq<Episode>, plain: int, margin: int) {
    var near := Near(episodes, plain, margin);
    near != {} && exists e | e in episodes :: e.startTs < Min(near) - margin <= e.endTs < plain
  }

  lemma NudgedStraddlersIff(episodes: seq<Episode>, plain: int, margin: int, first: int)
    requires margin >= 0 && first <= plain && StartsAfter(episodes, first)
    ensures (exists e | e in episodes :: Straddles(e, Nudge(episodes, plain, margin, first)))
            <==> RunUpCrossed(episodes, plain, margin)
  {
    var nudged := Nudge(episodes, plain, margin, first);
    if e :| e in episodes && Straddles(e, nudged) {
      StraddlersEndedEarlier(episodes, plain, margin, first, e);
    }
    if RunUpCrossed(episodes, plain, margin) {
      var e :| e in episodes && e.startTs < Min(Near(episodes, plain, margin)) - margin <= e.endTs < plain;
      assert Straddles(e, nudged);
    }
  }

  /** Train and validation share an attack run of a block exactly when the run-up point was crossed. */
  lemma SplitKeepsEpisodesWhole(rows: seq<Window>, valFraction: real, margin: int)
    requires rows != [] && margin >= 0
    ensures CutsARun(rows, Cutoff(rows, valFraction, margin))
            <==> RunUpCrossed(TableEpisodes(rows), PlainCutoff(rows, valFraction), margin)
  {
    CutsARunIff(rows, Cutoff(rows, valFraction, margin));
    PlainCutoffInRange(rows, valFraction);
    EpisodesStartInTable(rows);
    NudgedStraddlersIff(TableEpisodes(rows), PlainCutoff(rows, valFraction), margin, UniqueTimes(rows)[0]);
  }

  /** Some attack run of the block starts at the cutoff or less than a margin after it. */
  ghost predicate StartsInMargin(rows: seq<Window>, cutoff: int, margin: int) {
    var sorted := SortRows(rows);
    exists a: nat, b: nat | MaximalRun(sorted, a, b) :: cutoff <= sorted[a].ts < cutoff + margin
  }

  lemma StartsInMarginIff(rows: seq<Window>, cutoff: int, margin: int)
    ensures StartsInMargin(rows, cutoff, margin) <==> LosesRunUp(TableEpisodes(rows), cutoff, margin)
  {
    var sorted := SortRows(rows);
    if StartsInMargin(rows, cutoff, margin) {
      var a: nat, b: nat :| MaximalRun(sorted, a, b) && cutoff <= sorted[a].ts < cutoff + margin;
      EpisodeIffRun(sorted, EpisodeOf(sorted, (a, b)));
    }
    if e :| e in TableEpisodes(rows) && cutoff <= e.startTs < cutoff + margin {
      EpisodeIffRun(sorted, e);
    }
  }

  /** And some run of the block starts within the margin exactly when its run-up was cut short or shared. */
  lemma SplitKeepsRunUps(rows: seq<Window>, valFraction: real, margin: int)
    requires rows != [] && margin >= 0
    ensures StartsInMargin(rows, Cutoff(rows, valFraction, margin), margin)
            <==> RunUpShared(TableEpisodes(rows), PlainCutoff(rows, valFraction), margin, UniqueTimes(rows)[0])
  {
    StartsInMarginIff(rows, Cutoff(rows, valFraction, margin), margin);
    PlainCutoffInRange(rows, valFraction);
    EpisodesStartInTable(rows);
    SortRowsSorts(rows);
    EpisodesOfInOrder(SortRows(rows));
    NudgedRunUpIff(TableEpisodes(rows), PlainCutoff(rows, valFraction), margin, UniqueTimes(rows)[0]);
  }

  // ------------------------------------------------------------------------ the whole split

  /** The rows of one capture, in table order. */
  function Block(rows: seq<Window>, days: seq<string>, day: string, n: nat): seq<Window>
    requires n <= |rows| == |days|
  {
    if n == 0 then []
    else Block(rows, days, day, n - 1) + if days[n - 1] == day then [rows[n - 1]] else []
  }

  lemma {:induction false} BlockHas(rows: seq<Window>, days: seq<string>, i: nat, n: nat)
    requires i < n <= |rows| == |days|
    ensures rows[i] in Block(rows, days, days[i], n)
  {
    if i < n - 1 {
      BlockHas(rows, days, i, n - 1);
    }
  }

  predicate GoesToVal(rows: seq<Window>, days: seq<string>, valFraction: real, margin: int, i: nat)
    requires i < |rows| == |days|
  {
    BlockHas(rows, days, i, |rows|);
    rows[i].ts >= Cutoff(Block(rows, days, days[i], |rows|), valFraction, margin)
  }

  function Select(rows: seq<Window>, mask: seq<bool>, keep: bool, n: nat): seq<Window>
    requires n <= |rows| == |mask|
  {
    if n == 0 then []
    else Select(rows, mask, keep, n - 1) + if mask[n - 1] == keep then [rows[n - 1]] else []
  }

  /** Every row goes to exactly one side. */
  lemma {:induction false} SelectPartitions(rows: seq<Window>, mask: seq<bool>, n: nat)
    requires n <= |rows| == |mask|
    ensures |Select(rows, mask, true, n)| + |Select(rows, mask, false, n)| == n
    ensures forall i | 0 <= i < n :: rows[i] in Select(rows, mask, mask[i], n)
  {
    if n > 0 {
      SelectPartitions(rows, mask, n - 1);
    }
  }

  /** One block, or one per capture: validation is what lies at or after its own block's cutoff. */
  predicate Validates(rows: seq<Window>, days: seq<string>, perDay: bool, valFraction: real, margin: int, i: nat)
    requires i < |rows| == |days|
  {
    if perDay then GoesToVal(rows, days, valFraction, margin, i)
    else rows[i].ts >= Cutoff(rows, valFraction, margin)
  }

  /** What one cutoff is for: the rows of a capture, or the whole table. */
  function PartOf(rows: seq<Window>, days: seq<string>, perDay: bool, day: string): seq<Window>
    requires |rows| == |days|
  {
    if perDay then Block(rows, days, day, |rows|) else rows
  }

  predicate InPart(days: seq<string>, perDay: bool, day: string, i: nat)
    requires i < |days|
  {
    perDay ==> days[i] == day
  }

  lemma {:induction false} BlockRow(rows: seq<Window>, days: seq<string>, day: string, n: nat, x: Window)
    returns (i: nat)
    requires n <= |rows| == |days| && x in Block(rows, days, day, n)
    ensures i < n && days[i] == day && rows[i] == x
  {
    i := n - 1;
    if !(days[i] == day && rows[i] == x) {
      i := BlockRow(rows, days, day, n - 1, x);
    }
  }

  lemma PartRow(rows: seq<Window>, days: seq<string>, perDay: bool, day: string, x: Window) returns (i: nat)
    requires |rows| == |days| && x in PartOf(rows, days, perDay, day)
    ensures i < |rows| && InPart(days, perDay, day, i) && rows[i] == x
  {
    if perDay {
      i := BlockRow(rows, days, day, |rows|, x);
    } else {
      i :| 0 <= i < |rows| && rows[i] == x;
    }
  }

  /** The mask puts rows of one attack run of the part on both sides. */
  ghost predicate SharesRun(rows: seq<Window>, days: seq<string>, perDay: bool, day: string, isVal: seq<bool>)
    requires |rows| == |days| == |isVal|
  {
    var sorted := SortRows(PartOf(rows, days, perDay, day));
    exists a: nat, b: nat | MaximalRun(sorted, a, b) :: OnBothSides(rows, days, perDay, day, isVal, sorted[a..b + 1])
  }

  ghost predicate OnBothSides(rows: seq<Window>, days: seq<string>, perDay: bool, day: string, isVal: seq<bool>,
                              run: seq<Window>)
    requires |rows| == |days| == |isVal|
  {
    && (exists i | 0 <= i < |rows| && InPart(days, perDay, day, i) :: !isVal[i] && rows[i] in run)
    && (exists j | 0 <= j < |rows| && InPart(days, perDay, day, j) :: isVal[j] && rows[j] in run)
  }

  /** The mask of the split, on the rows of one part, is its cutoff. */
  ghost predicate CutAt(rows: seq<Window>, days: seq<string>, perDay: bool, day: string, isVal: seq<bool>, cutoff: int)
    requires |rows| == |days| == |isVal|
  {
    forall i | 0 <= i < |rows| && InPart(days, perDay, day, i) :: isVal[i] <==> rows[i].ts >= cutoff
  }

  lemma BothSidesSplit(rows: seq<Window>, days: seq<string>, perDay: bool, day: string, isVal: seq<bool>,
                       cutoff: int, sorted: seq<Window>, a: nat, b: nat)
    requires |rows| == |days| == |isVal| && CutAt(rows, days, perDay, day, isVal, cutoff) && a <= b < |sorted|
    requires OnBothSides(rows, days, perDay, day, isVal, sorted[a..b + 1])
    ensures SplitsRun(sorted, a, b, cutoff)
  {
    var run := sorted[a..b + 1];
    var i :| 0 <= i < |rows| && InPart(days, perDay, day, i) && !isVal[i] && rows[i] in run;
    var j :| 0 <= j < |rows| && InPart(days, perDay, day, j) && isVal[j] && rows[j] in run;
    var k :| 0 <= k < |run| && run[k] == rows[i];
    var l :| 0 <= l < |run| && run[l] == rows[j];
    assert sorted[a + k].ts < cutoff && sorted[a + l].ts >= cutoff;
  }

  /** The part has a row for every row of the run. */
  lemma RunRow(rows: seq<Window>, days: seq<string>, perDay: bool, day: string, a: nat, b: nat, k: nat)
    returns (i: nat)
    requires |rows| == |days| && a <= k <= b < |SortRows(PartOf(rows, days, perDay, day))|
    ensures i < |rows| && InPart(days, perDay, day, i)
    ensures var sorted := SortRows(PartOf(rows, days, perDay, day));
            rows[i] == sorted[k] && rows[i] in sorted[a..b + 1]
  {
    var block := PartOf(rows, days, perDay, day);
    var sorted := SortRows(block);
    SortRowsMembers(block, sorted[k]);
    i := PartRow(rows, days, perDay, day, sorted[k]);
    assert sorted[a..b + 1][k - a] == rows[i];
  }

  lemma BothSidesIffSplits(rows: seq<Window>, days: seq<string>, perDay: bool, day: string, isVal: seq<bool>,
                           cutoff: int, a: nat, b: nat)
    requires |rows| == |days| == |isVal| && CutAt(rows, days, perDay, day, isVal, cutoff)
    requires a <= b < |SortRows(PartOf(rows, days, perDay, day))|
    ensures var sorted := SortRows(PartOf(rows, days, perDay, day));
            OnBothSides(rows, days, perDay, day, isVal, sorted[a..b + 1]) <==> SplitsRun(sorted, a, b, cutoff)
  {
    var sorted := SortRows(PartOf(rows, days, perDay, day));
    if OnBothSides(rows, days, perDay, day, isVal, sorted[a..b + 1]) {
      BothSidesSplit(rows, days, perDay, day, isVal, cutoff, sorted, a, b);
    }
    if SplitsRun(sorted, a, b, cutoff) {
      var k :| a <= k <= b && sorted[k].ts < cutoff;
      var l :| a <= l <= b && sorted[l].ts >= cutoff;
      var i := RunRow(rows, days, perDay, day, a, b, k);
      var j := RunRow(rows, days, perDay, day, a, b, l);
    }
  }

  /**
  Over the whole split, per capture or not: train and validation share an attack run of a part
  exactly when an episode of it that ended before its plain cutoff crosses the run-up point.
  */
  lemma SplitSharesRunIff(rows: seq<Window>, days: seq<string>, perDay: bool, valFraction: real, margin: int,
                          isVal: seq<bool>, day: string)
    requires |rows| == |days| == |isVal| && rows != [] && margin >= 0
    requires forall i | 0 <= i < |rows| :: isVal[i] <==> Validates(rows, days, perDay, valFraction, margin, i)
    requires perDay ==> day in days
    ensures var part := PartOf(rows, days, perDay, day);
            part != [] && (SharesRun(rows, days, perDay, day, isVal)
                           <==> RunUpCrossed(TableEpisodes(part), PlainCutoff(part, valFraction), margin))
  {
    var part := PartOf(rows, days, perDay, day);
    if perDay {
      var d :| 0 <= d < |days| && days[d] == day;
      BlockHas(rows, days, d, |rows|);
    }
    var cutoff := Cutoff(part, valFraction, margin);
    assert CutAt(rows, days, perDay, day, isVal, cutoff);
    var sorted := SortRows(part);
    forall a: nat, b: nat | MaximalRun(sorted, a, b)
      ensures OnBothSides(rows, days, perDay, day, isVal, sorted[a..b + 1]) <==> SplitsRun(sorted, a, b, cutoff)
    {
      BothSidesIffSplits(rows, days, perDay, day, isVal, cutoff, a, b);
    }
    SplitKeepsEpisodesWhole(part, valFraction, margin);
  }

  /** The distinct times of the part's validation rows. */
  ghost function ValTimes(rows: seq<Window>, days: seq<string>, perDay: bool, day: string, isVal: seq<bool>): set<int>
    requires |rows| == |days| == |isVal|
  {
    set i | 0 <= i < |rows| && InPart(days, perDay, day, i) && isVal[i] :: rows[i].ts
  }

  lemma ValTimesAre(rows: seq<Window>, days: seq<string>, perDay: bool, day: string, isVal: seq<bool>, cutoff: int)
    requires |rows| == |days| == |isVal| && CutAt(rows, days, perDay, day, isVal, cutoff)
    ensures var part := PartOf(rows, days, perDay, day);
            ValTimes(rows, days, perDay, day, isVal) == Times(part) - TimesBefore(part, cutoff)
  {
    var part := PartOf(rows, days, perDay, day);
    forall x
      ensures x in ValTimes(rows, days, perDay, day, isVal) <==> x in Times(part) && x >= cutoff
    {
      if x in Times(part) {
        var r :| r in part && r.ts == x;
        var i := PartRow(rows, days, perDay, day, r);
      }
      if x in ValTimes(rows, days, perDay, day, isVal) {
        var i :| 0 <= i < |rows| && InPart(days, perDay, day, i) && isVal[i] && rows[i].ts == x;
        if perDay { BlockHas(rows, days, i, |rows|); }
        assert rows[i] in part;
      }
    }
  }

  lemma NudgeOnlyLowers(episodes: seq<Episode>, plain: int, margin: int, first: int)
    requires margin >= 0 && first <= plain && StartsAfter(episodes, first)
    ensures Nudge(episodes, plain, margin, first) <= plain
    ensures Near(episodes, plain, margin) == {} ==> Nudge(episodes, plain, margin, first) == plain
  {
    if Near(episodes, plain, margin) != {} {
      var e := EarliestNear(episodes, plain, margin);
    }
  }

  lemma SharesOf(times: set<int>, before: set<int>, beforePlain: set<int>)
    requires before <= beforePlain <= times
    ensures |times - before| >= |times| - |beforePlain|
    ensures before == beforePlain ==> |times - before| == |times| - |beforePlain|
  {
    assert times == (times - beforePlain) + beforePlain;
    assert |times| == |times - beforePlain| + |beforePlain|;
    SubsetSize(times - beforePlain, times - before);
  }

  /**
  The validation share of a part: at least the distinct times from its plain cutoff on, and exactly
  those when no episode is near it.
  */
  lemma ValidationShare(rows: seq<Window>, days: seq<string>, perDay: bool, valFraction: real, margin: int,
                        isVal: seq<bool>, day: string)
    requires |rows| == |days| == |isVal| && rows != [] && margin >= 0
    requires forall i | 0 <= i < |rows| :: isVal[i] <==> Validates(rows, days, perDay, valFraction, margin, i)
    requires perDay ==> day in days
    ensures var part := PartOf(rows, days, perDay, day);
            part != []
            && (var n, before := |Times(part)|, |TimesBefore(part, PlainCutoff(part, valFraction))|;
                var share := |ValTimes(rows, days, perDay, day, isVal)|;
                && share >= n - before
                && (Near(TableEpisodes(part), PlainCutoff(part, valFraction), margin) == {} ==> share == n - before))
  {
    var part := PartOf(rows, days, perDay, day);
    if perDay {
      var d :| 0 <= d < |days| && days[d] == day;
      BlockHas(rows, days, d, |rows|);
    }
    var plain, cutoff := PlainCutoff(part, valFraction), Cutoff(part, valFraction, margin);
    assert CutAt(rows, days, perDay, day, isVal, cutoff);
    ValTimesAre(rows, days, perDay, day, isVal, cutoff);
    PlainCutoffInRange(part, valFraction);
    EpisodesStartInTable(part);
    NudgeOnlyLowers(TableEpisodes(part), plain, margin, UniqueTimes(part)[0]);
    SharesOf(Times(part), TimesBefore(part, cutoff), TimesBefore(part, plain));
  }

  /** An empty table is returned twice; otherwise every row goes to exactly one side. */
  method TemporalSplit(rows: seq<Window>, days: seq<string>, perDay: bool, valFraction: real, margin: int)
    returns (train: seq<Window>, val: seq<Window>, isVal: seq<bool>)
    requires |rows| == |days|
    ensures |isVal| == |rows|
    ensures forall i | 0 <= i < |rows| :: isVal[i] <==> Validates(rows, days, perDay, valFraction, margin, i)
    ensures train == Select(rows, isVal, false, |rows|) && val == Select(rows, isVal, true, |rows|)
    ensures |train| + |val| == |rows| && forall i | 0 <= i < |rows| :: rows[i] in (if isVal[i] then val else train)
  {
    if rows == [] {
      return rows, rows, [];
    }
    if perDay {
      isVal := MarkDays(rows, days, valFraction, margin);
    } else {
      var cutoff := TrailingBlockCutoff(rows, valFraction, margin);
      isVal := seq(|rows|, i requires 0 <= i < |rows| => rows[i].ts >= cutoff);
    }
    train, val := Take(rows, isVal);
    SelectPartitions(rows, isVal, |rows|);
  }

  /** Rows of the captures seen so far are marked, the others are not. */
  ghost predicate MarkedSo(rows: seq<Window>, days: seq<string>, valFraction: real, margin: int,
                           seen: set<string>, isVal: seq<bool>)
    requires |rows| == |days|
  {
    |isVal| == |rows|
    && forall i | 0 <= i < |rows| :: isVal[i] <==> days[i] in seen && GoesToVal(rows, days, valFraction, margin, i)
  }

  lemma AllMarked(rows: seq<Window>, days: seq<string>, valFraction: real, margin: int,
                  seen: set<string>, isVal: seq<bool>)
    requires |rows| == |days| && MarkedSo(rows, days, valFraction, margin, seen, isVal)
    requires forall k | 0 <= k < |days| :: days[k] in seen
    ensures forall i | 0 <= i < |rows| :: isVal[i] <==> GoesToVal(rows, days, valFraction, margin, i)
  {
  }

  /** `per_day=True`: one cutoff per capture. */
  method MarkDays(rows: seq<Window>, days: seq<string>, valFraction: real, margin: int) returns (isVal: seq<bool>)
    requires |rows| == |days|
    ensures |isVal| == |rows|
    ensures forall i | 0 <= i < |rows| :: isVal[i] <==> GoesToVal(rows, days, valFraction, margin, i)
  {
    isVal := seq(|rows|, _ => false);
    var seen: set<string> := {};
    for d := 0 to |rows|
      invariant forall k | 0 <= k < d :: days[k] in seen
      invariant MarkedSo(rows, days, valFraction, margin, seen, isVal)
    {
      if days[d] !in seen {
        isVal := MarkDay(rows, days, days[d], seen, valFraction, margin, isVal);
        seen := seen + {days[d]};
      }
    }
    AllMarked(rows, days, valFraction, margin, seen, isVal);
  }

  /** `is_val |= mask & (window_ts >= cutoff)` for one capture. */
  method MarkDay(rows: seq<Window>, days: seq<string>, day: string, ghost seen: set<string>, valFraction: real,
                 margin: int, isVal: seq<bool>) returns (marked: seq<bool>)
    requires |rows| == |days| && day in days && day !in seen
    requires MarkedSo(rows, days, valFraction, margin, seen, isVal)
    ensures MarkedSo(rows, days, valFraction, margin, seen + {day}, marked)
  {
    var d :| 0 <= d < |days| && days[d] == day;
    BlockHas(rows, days, d, |rows|);
    var cutoff := TrailingBlockCutoff(Block(rows, days, day, |rows|), valFraction, margin);
    marked := seq(|rows|, i requires 0 <= i < |rows| == |days| == |isVal| =>
                            isVal[i] || (days[i] == day && rows[i].ts >= cutoff));
  }

  method Take(rows: seq<Window>, mask: seq<bool>) returns (out: seq<Window>, kept: seq<Window>)
    requires |rows| == |mask|
    ensures out == Select(rows, mask, false, |rows|) && kept == Select(rows, mask, true, |rows|)
  {
    out, kept := [], [];
    for i := 0 to |rows|
      invariant out == Select(rows, mask, false, i) && kept == Select(rows, mask, true, i)
    {
      if mask[i] { kept := kept + [rows[i]]; } else { out := out + [rows[i]]; }
    }
  }
}
