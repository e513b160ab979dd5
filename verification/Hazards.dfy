/**
Onset and discrete-hazard targets: `onset_targets`, `discrete_hazard_targets` and
`survival_to_cumulative` of ml/nidra/data/onset.py. `None` minutes is infinity.
*/
module Hazards {
  import opened Options

  type Minutes = Option<real>

  predicate AtMost(m: Minutes, h: real) { m.Some? && m.value <= h }

  predicate Above(m: Minutes, h: real) { m.None? || m.value > h }

  // ---------------------------------------------------------------------------- one row

  function OnsetRow(inside: bool, m: Minutes, horizons: seq<real>): seq<int> {
    seq(|horizons|, j requires 0 <= j < |horizons| => if !inside && AtMost(m, horizons[j]) then 1 else 0)
  }

  /** The lower edge of bucket j: 0, then the horizons. */
  function Edge(horizons: seq<real>, j: nat): real
    requires j <= |horizons|
  {
    if j == 0 then 0.0 else horizons[j - 1]
  }

  function EventCell(inside: bool, m: Minutes, lo: real, hi: real): int {
    if !inside && Above(m, lo) && AtMost(m, hi) then 1 else 0
  }

  function EventRow(inside: bool, m: Minutes, horizons: seq<real>): seq<int> {
    seq(|horizons|, j requires 0 <= j < |horizons| => EventCell(inside, m, Edge(horizons, j), horizons[j]))
  }

  function AtRiskRow(inside: bool, m: Minutes, horizons: seq<real>): seq<bool> {
    seq(|horizons|, j requires 0 <= j < |horizons| => !inside && Above(m, Edge(horizons, j)))
  }

  function Clip(x: real): real { if x < 0.0 then 0.0 else if x > 1.0 then 1.0 else x }

  /** The running product of survival over the first n buckets. */
  function Survival(hazards: seq<real>, n: nat): real
    requires n <= |hazards|
  {
    if n == 0 then 1.0 else Survival(hazards, n - 1) * (1.0 - Clip(hazards[n - 1]))
  }

  function Cumulative(hazards: seq<real>): seq<real> {
    seq(|hazards|, j requires 0 <= j < |hazards| => 1.0 - Survival(hazards, j + 1))
  }

  ghost predicate Increasing(horizons: seq<real>) {
    (forall j | 0 <= j < |horizons| :: horizons[j] > 0.0)
    && forall i, j | 0 <= i < j < |horizons| :: horizons[i] < horizons[j]
  }

  ghost predicate PositiveMinutes(m: Minutes) { m.Some? ==> m.value > 0.0 }

  function AsReals(xs: seq<int>): seq<real> { seq(|xs|, j requires 0 <= j < |xs| => xs[j] as real) }

  /** The half-open buckets: an onset exactly at a horizon falls in the bucket that ends there. */
  lemma BucketsAre(inside: bool, m: Minutes, horizons: seq<real>, j: nat)
    requires j < |horizons|
    ensures var lo := if j == 0 then 0.0 else horizons[j - 1];
            && (OnsetRow(inside, m, horizons)[j] == 1 <==> !inside && m.Some? && m.value <= horizons[j])
            && (EventRow(inside, m, horizons)[j] == 1 <==> !inside && m.Some? && lo < m.value <= horizons[j])
            && (AtRiskRow(inside, m, horizons)[j] <==> !inside && (m.Some? ==> lo < m.value))
    ensures OnsetRow(inside, m, horizons)[j] in {0, 1} && EventRow(inside, m, horizons)[j] in {0, 1}
  {
  }

  /**
  The cumulative probability grows by the hazard's share of what has survived; a hazard out of
  range counts as the nearer bound.
  */
  lemma CumulativeGrows(hazards: seq<real>, j: nat)
    requires j < |hazards|
    ensures var before := if j == 0 then 0.0 else Cumulative(hazards)[j - 1];
            && (0.0 <= hazards[j] <= 1.0 ==> Cumulative(hazards)[j] == before + (1.0 - before) * hazards[j])
            && (hazards[j] < 0.0 ==> Cumulative(hazards)[j] == before)
            && (hazards[j] > 1.0 ==> Cumulative(hazards)[j] == 1.0)
  {
    var s := Survival(hazards, j);
    assert Survival(hazards, j + 1) == s * (1.0 - Clip(hazards[j]));
  }

  // -------------------------------------------------------------------------- coherence

  /** At most one event, events only where at risk, and at risk is a prefix of the buckets. */
  lemma EventsAreCoherent(inside: bool, m: Minutes, horizons: seq<real>, i: nat, j: nat)
    requires Increasing(horizons) && i < j < |horizons|
    ensures var event, atRisk := EventRow(inside, m, horizons), AtRiskRow(inside, m, horizons);
            !(event[i] == 1 && event[j] == 1)
            && (event[i] == 1 ==> atRisk[i] && !atRisk[j])
            && (event[j] == 1 ==> atRisk[j])
            && (atRisk[j] ==> atRisk[i])
  {
    assert Edge(horizons, i) < Edge(horizons, j) && horizons[i] <= Edge(horizons, j);
  }

  /** Censored rows stay at risk throughout; rows inside an episode never are. */
  lemma CensoringIsHonest(inside: bool, m: Minutes, horizons: seq<real>, j: nat)
    requires Increasing(horizons) && PositiveMinutes(m) && j < |horizons|
    ensures inside ==> !AtRiskRow(inside, m, horizons)[j]
    ensures !inside && Above(m, horizons[|horizons| - 1]) ==>
              AtRiskRow(inside, m, horizons)[j] && EventRow(inside, m, horizons)[j] == 0
  {
    assert horizons[j] <= horizons[|horizons| - 1];
    assert j > 0 ==> horizons[j - 1] < horizons[|horizons| - 1];
  }

  /** None of the first n hazards is certain. */
  predicate Spared(hazards: seq<real>, n: nat)
    requires n <= |hazards|
  {
    n == 0 || (hazards[n - 1] == 0.0 && Spared(hazards, n - 1))
  }

  /** Survival under hazards that are all zero or one. */
  lemma {:induction false} SurvivalIsSpared(hazards: seq<real>, n: nat)
    requires n <= |hazards| && forall j | 0 <= j < |hazards| :: hazards[j] == 0.0 || hazards[j] == 1.0
    ensures Survival(hazards, n) == if Spared(hazards, n) then 1.0 else 0.0
  {
    if n > 0 {
      SurvivalIsSpared(hazards, n - 1);
      assert 1.0 - Clip(hazards[n - 1]) == if hazards[n - 1] == 1.0 then 0.0 else 1.0;
    }
  }

  /** The hazard the event row of this origin puts on bucket j. */
  predicate EventHazards(hazards: seq<real>, inside: bool, m: Minutes, horizons: seq<real>) {
    |hazards| == |horizons|
    && forall j | 0 <= j < |hazards| ::
         hazards[j] == if !inside && Above(m, Edge(horizons, j)) && AtMost(m, horizons[j]) then 1.0 else 0.0
  }

  lemma {:induction false} SparedByEvents(hazards: seq<real>, inside: bool, m: Minutes, horizons: seq<real>, n: nat)
    requires Increasing(horizons) && PositiveMinutes(m) && n <= |horizons|
    requires EventHazards(hazards, inside, m, horizons)
    ensures Spared(hazards, n) <==> !(n > 0 && !inside && AtMost(m, horizons[n - 1]))
  {
    if n > 0 {
      SparedByEvents(hazards, inside, m, horizons, n - 1);
      assert n > 1 ==> horizons[n - 2] < horizons[n - 1];
    }
  }

  /** Surviving n buckets of events means no onset within horizon n. */
  lemma SurvivalOfEvents(inside: bool, m: Minutes, horizons: seq<real>, n: nat)
    requires Increasing(horizons) && PositiveMinutes(m) && n <= |horizons|
    ensures Survival(AsReals(EventRow(inside, m, horizons)), n)
         == if n > 0 && !inside && AtMost(m, horizons[n - 1]) then 0.0 else 1.0
  {
    var hazards := AsReals(EventRow(inside, m, horizons));
    assert EventHazards(hazards, inside, m, horizons);
    SurvivalIsSpared(hazards, n);
    SparedByEvents(hazards, inside, m, horizons, n);
  }

  lemma CumulativeOfEvents(inside: bool, m: Minutes, horizons: seq<real>, j: nat)
    requires Increasing(horizons) && PositiveMinutes(m) && j < |horizons|
    ensures Cumulative(AsReals(EventRow(inside, m, horizons)))[j] == OnsetRow(inside, m, horizons)[j] as real
  {
    SurvivalOfEvents(inside, m, horizons, j + 1);
  }

  lemma SameReals(a: seq<real>, xs: seq<int>)
    requires |a| == |xs| && forall j | 0 <= j < |a| :: a[j] == xs[j] as real
    ensures a == AsReals(xs)
  {
  }

  /** The round trip: the event row, read as hazards, gives back exactly the onset targets. */
  lemma EventsGiveBackOnsets(inside: bool, m: Minutes, horizons: seq<real>)
    requires Increasing(horizons) && PositiveMinutes(m)
    ensures Cumulative(AsReals(EventRow(inside, m, horizons))) == AsReals(OnsetRow(inside, m, horizons))
  {
    forall j | 0 <= j < |horizons|
      ensures Cumulative(AsReals(EventRow(inside, m, horizons)))[j] == OnsetRow(inside, m, horizons)[j] as real
    {
      CumulativeOfEvents(inside, m, horizons, j);
    }
    SameReals(Cumulative(AsReals(EventRow(inside, m, horizons))), OnsetRow(inside, m, horizons));
  }

  lemma SurvivalShrinks(hazards: seq<real>, n: nat, s: real)
    requires 0 < n <= |hazards| && s == Survival(hazards, n - 1) && 0.0 <= s
    ensures 0.0 <= Survival(hazards, n) <= s
  {
    Shrinks(s, 1.0 - Clip(hazards[n - 1]));
  }

  lemma {:induction false} SurvivalFalls(hazards: seq<real>, i: nat, n: nat)
    requires i <= n <= |hazards|
    ensures 0.0 <= Survival(hazards, n) <= Survival(hazards, i) <= 1.0
    decreases n
  {
    if i < n {
      SurvivalFalls(hazards, i, n - 1);
      SurvivalShrinks(hazards, n, Survival(hazards, n - 1));
    } else if n > 0 {
      SurvivalFalls(hazards, n - 1, n - 1);
      SurvivalShrinks(hazards, n, Survival(hazards, n - 1));
    }
  }

  lemma Shrinks(s: real, f: real)
    requires 0.0 <= s && 0.0 <= f <= 1.0
    ensures 0.0 <= s * f <= s
  {
  }

  /** Any hazards whatever give probabilities that never fall with the horizon. */
  lemma CumulativeIsMonotone(hazards: seq<real>, i: nat, j: nat)
    requires i <= j < |hazards|
    ensures 0.0 <= Cumulative(hazards)[i] <= Cumulative(hazards)[j] <= 1.0
  {
    SurvivalFalls(hazards, i + 1, j + 1);
    SurvivalFalls(hazards, 0, i + 1);
  }

  // ------------------------------------------------------------------------- the arrays

  method OnsetTargets(inside: seq<bool>, minutes: seq<Minutes>, horizons: seq<real>) returns (out: array2<int>)
    requires |inside| == |minutes|
    ensures out.Length0 == |inside| && out.Length1 == |horizons|
    ensures forall i, j | 0 <= i < |inside| && 0 <= j < |horizons| ::
              out[i, j] == OnsetRow(inside[i], minutes[i], horizons)[j]
  {
    out := new int[|inside|, |horizons|]((_, _) => 0);
    for j := 0 to |horizons|
      invariant forall i, k | 0 <= i < |inside| && 0 <= k < j ::
                  out[i, k] == OnsetRow(inside[i], minutes[i], horizons)[k]
    {
      forall i | 0 <= i < |inside| {
        out[i, j] := if !inside[i] && AtMost(minutes[i], horizons[j]) then 1 else 0;
      }
    }
  }

  method DiscreteHazardTargets(inside: seq<bool>, minutes: seq<Minutes>, horizons: seq<real>)
    returns (event: array2<int>, atRisk: array2<bool>)
    requires |inside| == |minutes|
    ensures event.Length0 == atRisk.Length0 == |inside| && event.Length1 == atRisk.Length1 == |horizons|
    ensures forall i, j | 0 <= i < |inside| && 0 <= j < |horizons| ::
              event[i, j] == EventRow(inside[i], minutes[i], horizons)[j]
              && atRisk[i, j] == AtRiskRow(inside[i], minutes[i], horizons)[j]
  {
    event := new int[|inside|, |horizons|]((_, _) => 0);
    atRisk := new bool[|inside|, |horizons|]((_, _) => false);
    var edges := [0.0] + horizons;
    for j := 0 to |horizons|
      invariant forall i, k | 0 <= i < |inside| && 0 <= k < j ::
                  event[i, k] == EventCell(inside[i], minutes[i], Edge(horizons, k), horizons[k])
      invariant forall i, k | 0 <= i < |inside| && 0 <= k < j ::
                  atRisk[i, k] == (!inside[i] && Above(minutes[i], Edge(horizons, k)))
    {
      var lo, hi := edges[j], edges[j + 1];
      assert lo == Edge(horizons, j) && hi == horizons[j];
      forall i | 0 <= i < |inside| {
        event[i, j] := EventCell(inside[i], minutes[i], lo, hi);
      }
      forall i | 0 <= i < |inside| {
        atRisk[i, j] := !inside[i] && Above(minutes[i], lo);
      }
    }
    assert forall i, j | 0 <= i < |inside| && 0 <= j < |horizons| ::
        EventRow(inside[i], minutes[i], horizons)[j]
        == EventCell(inside[i], minutes[i], Edge(horizons, j), horizons[j]);
  }
}
