/**
The Mann-Whitney AUC by tie-averaged ranks: `_rank_auc` of
ml/nidra/data/dataset_shift.py.

The loop over tied groups is proved to leave each value its average rank; the
rank sum is then proved to count pairs. Reals stand for floats, and the result
of `argsort` is any order that sorts, so no theorem leans on its stability.
*/
module RankAuc {
  import opened Numbers
  import opened Options

  // ----------------------------------------------------------------------------- counting

  function Below(s: seq<real>, v: real): nat {
    if s == [] then 0 else Below(s[..|s| - 1], v) + if s[|s| - 1] < v then 1 else 0
  }

  function UpTo(s: seq<real>, v: real): nat {
    if s == [] then 0 else UpTo(s[..|s| - 1], v) + if s[|s| - 1] <= v then 1 else 0
  }

  /** Pairs (x in a, y in b) with x < y. */
  function PairsBelow(a: seq<real>, b: seq<real>): nat {
    if b == [] then 0 else PairsBelow(a, b[..|b| - 1]) + Below(a, b[|b| - 1])
  }

  /** Pairs (x in a, y in b) with x <= y. */
  function PairsUpTo(a: seq<real>, b: seq<real>): nat {
    if b == [] then 0 else PairsUpTo(a, b[..|b| - 1]) + UpTo(a, b[|b| - 1])
  }

  lemma {:induction false} CountConcat(s: seq<real>, t: seq<real>, v: real)
    ensures Below(s + t, v) == Below(s, v) + Below(t, v)
    ensures UpTo(s + t, v) == UpTo(s, v) + UpTo(t, v)
  {
    if t == [] {
      assert s + t == s;
    } else {
      assert (s + t)[..|s + t| - 1] == s + t[..|t| - 1];
      CountConcat(s, t[..|t| - 1], v);
    }
  }

  /** The two ways of adding one value on the left of the pairs. */
  lemma {:induction false} PairsSnocLeft(a: seq<real>, x: real, b: seq<real>)
    ensures PairsBelow(a + [x], b) == PairsBelow(a, b) + (|b| - UpTo(b, x))
    ensures PairsUpTo(a + [x], b) == PairsUpTo(a, b) + (|b| - Below(b, x))
    decreases |b|
  {
    if b != [] {
      PairsSnocLeft(a, x, b[..|b| - 1]);
      assert (a + [x])[..|a|] == a;
    }
  }

  /** Of x < y, x == y, x > y exactly one holds of each pair. */
  lemma {:induction false} Trichotomy(a: seq<real>, b: seq<real>)
    ensures PairsBelow(a, b) + PairsUpTo(b, a) == |a| * |b|
    decreases |a|
  {
    if a == [] {
      EmptyPairs(b);
    } else {
      var init, x := a[..|a| - 1], a[|a| - 1];
      assert a == init + [x];
      Trichotomy(init, b);
      PairsSnocLeft(init, x, b);
      assert |a| * |b| == |init| * |b| + |b|;
    }
  }

  lemma {:induction false} EmptyPairs(b: seq<real>)
    ensures PairsBelow([], b) == 0 && PairsUpTo([], b) == 0
  {
    if b != [] {
      EmptyPairs(b[..|b| - 1]);
    }
  }

  lemma {:induction false} BelowIsUpTo(a: seq<real>, b: seq<real>)
    ensures PairsBelow(a, b) <= PairsUpTo(a, b)
  {
    if b != [] {
      BelowIsUpTo(a, b[..|b| - 1]);
      BelowLeUpTo(a, b[|b| - 1]);
    }
  }

  lemma {:induction false} BelowLeUpTo(s: seq<real>, v: real)
    ensures Below(s, v) <= UpTo(s, v) <= |s|
  {
    if s != [] {
      BelowLeUpTo(s[..|s| - 1], v);
    }
  }

  // -------------------------------------------------------------------------- average ranks

  /** The mean of the positions, counted from one, that values equal to v take in sorted order. */
  function AverageRank(all: seq<real>, v: real): real {
    (Below(all, v) + UpTo(all, v) + 1) as real / 2.0
  }

  function SumRanks(all: seq<real>, vs: seq<real>): real {
    if vs == [] then 0.0 else SumRanks(all, vs[..|vs| - 1]) + AverageRank(all, vs[|vs| - 1])
  }

  /** The rank sum of b in a + b, doubled, in terms of pairs. */
  lemma {:induction false} SumRanksCountsPairs(a: seq<real>, b: seq<real>, vs: seq<real>)
    ensures 2.0 * SumRanks(a + b, vs)
         == (PairsBelow(a, vs) + PairsUpTo(a, vs) + PairsBelow(b, vs) + PairsUpTo(b, vs) + |vs|) as real
    decreases |vs|
  {
    if vs != [] {
      SumRanksCountsPairs(a, b, vs[..|vs| - 1]);
      CountConcat(a, b, vs[|vs| - 1]);
    }
  }

  function U(a: seq<real>, b: seq<real>): real {
    SumRanks(a + b, b) - (|b| * (|b| + 1)) as real / 2.0
  }

  /** The rank sum less its least possible value is the pairs a < b plus half the pairs a == b. */
  lemma RankSumIsPairCount(a: seq<real>, b: seq<real>)
    ensures U(a, b) == PairsBelow(a, b) as real + (PairsUpTo(a, b) - PairsBelow(a, b)) as real / 2.0
  {
    SumRanksCountsPairs(a, b, b);
    Trichotomy(b, b);
    assert |b| * (|b| + 1) == |b| * |b| + |b|;
  }

  /** NaN for an empty side is `None`. */
  function Auc(a: seq<real>, b: seq<real>): real
    requires a != [] && b != []
  {
    U(a, b) / (|a| * |b|) as real
  }

  lemma QuotientTimes(u: real, n: real, q: real)
    requires n > 0.0 && q == u / n
    ensures q * n == u
  {
  }

  lemma PairsPositive(a: seq<real>, b: seq<real>)
    requires a != [] && b != []
    ensures |a| * |b| > 0
  {
  }

  lemma UIs(a: seq<real>, b: seq<real>, u: real, below: nat, upTo: nat)
    requires u == U(a, b) && below == PairsBelow(a, b) && upTo == PairsUpTo(a, b)
    ensures u == below as real + (upTo - below) as real / 2.0
  {
    RankSumIsPairCount(a, b);
  }

  /** The AUC is the share of pairs the right way round, a tie counting half. */
  lemma AucIsShare(a: seq<real>, b: seq<real>, below: nat, upTo: nat, pairs: real)
    requires a != [] && b != [] && below == PairsBelow(a, b) && upTo == PairsUpTo(a, b)
    requires pairs == (|a| * |b|) as real
    ensures pairs > 0.0 && Auc(a, b) * pairs == below as real + (upTo - below) as real / 2.0
  {
    PairsPositive(a, b);
    var u: real :| u == U(a, b);
    AucTimesPairs(a, b, u, pairs);
    UIs(a, b, u, below, upTo);
  }

  lemma AucTimesPairs(a: seq<real>, b: seq<real>, u: real, n: real)
    requires a != [] && b != [] && u == U(a, b) && n == (|a| * |b|) as real > 0.0
    ensures Auc(a, b) * n == u
  {
    QuotientTimes(u, n, Auc(a, b));
  }

  function PositionsBelow(s: seq<real>, v: real): set<nat> {
    set i: nat | i < |s| && s[i] < v
  }

  function PositionsUpTo(s: seq<real>, v: real): set<nat> {
    set i: nat | i < |s| && s[i] <= v
  }

  lemma PositionsSnoc(s: seq<real>, v: real)
    requires s != []
    ensures var n, init := |s| - 1, s[..|s| - 1];
            && PositionsBelow(s, v) == PositionsBelow(init, v) + (if s[n] < v then {n} else {})
            && PositionsUpTo(s, v) == PositionsUpTo(init, v) + (if s[n] <= v then {n} else {})
            && n !in PositionsBelow(init, v) && n !in PositionsUpTo(init, v)
  {
  }

  /** The two counts are counts of positions, below the value and not above it. */
  lemma {:induction false} CountsArePositions(s: seq<real>, v: real)
    ensures Below(s, v) == |PositionsBelow(s, v)| && UpTo(s, v) == |PositionsUpTo(s, v)|
  {
    if s != [] {
      CountsArePositions(s[..|s| - 1], v);
      PositionsSnoc(s, v);
    }
  }

  function Fold(x: real): real { if 1.0 - x > x then 1.0 - x else x }

  /** Of the value and its mirror image, the one that is not below a half. */
  lemma FoldIsLarger(x: real)
    ensures (Fold(x) == x || Fold(x) == 1.0 - x) && Fold(x) >= x && Fold(x) >= 1.0 - x
    ensures Fold(x) == Fold(1.0 - x) >= 0.5
  {
  }

  lemma AucRange(a: seq<real>, b: seq<real>)
    requires a != [] && b != []
    ensures 0.0 <= Auc(a, b) <= 1.0 && 0.5 <= Fold(Auc(a, b)) <= 1.0
  {
    RankSumIsPairCount(a, b);
    Trichotomy(a, b);
    Trichotomy(b, a);
    BelowIsUpTo(a, b);
    BelowIsUpTo(b, a);
    var n := |a| * |b|;
    assert n == |b| * |a| && n >= 1;
    assert 0.0 <= U(a, b) <= n as real;
    DivideRange(U(a, b), n as real);
  }

  lemma DivideRange(x: real, n: real)
    requires 0.0 <= x <= n && n > 0.0
    ensures 0.0 <= x / n <= 1.0
  {
  }

  lemma UsSum(a: seq<real>, b: seq<real>)
    ensures U(a, b) + U(b, a) == (|a| * |b|) as real
  {
    RankSumIsPairCount(a, b);
    RankSumIsPairCount(b, a);
    Trichotomy(a, b);
    Trichotomy(b, a);
    Mirror(U(a, b), U(b, a), PairsBelow(a, b), PairsUpTo(a, b), PairsBelow(b, a), PairsUpTo(b, a), |a|, |b|);
  }

  lemma Mirror(u: real, u': real, below: nat, upTo: nat, below': nat, upTo': nat, m: nat, n: nat)
    requires u == below as real + (upTo - below) as real / 2.0
    requires u' == below' as real + (upTo' - below') as real / 2.0
    requires below + upTo' == m * n && below' + upTo == n * m
    ensures u + u' == (m * n) as real
  {
    assert m * n == n * m;
    var k := m * n;
    assert 2.0 * u == (below + upTo) as real && 2.0 * u' == (below' + upTo') as real;
  }

  lemma SharesOfOne(x: real, y: real, n: real)
    requires x + y == n && n > 0.0
    ensures x / n + y / n == 1.0
  {
    assert x / n + y / n == (x + y) / n;
  }

  /** Swapping the two populations mirrors the value, so folding at one half forgets which was which. */
  lemma AucIsSymmetric(a: seq<real>, b: seq<real>)
    requires a != [] && b != []
    ensures Auc(a, b) + Auc(b, a) == 1.0
    ensures Fold(Auc(a, b)) == Fold(Auc(b, a))
  {
    UsSum(a, b);
    var x, y := U(a, b), U(b, a);
    assert |b| * |a| == |a| * |b| >= 1;
    SharesOfOne(x, y, (|a| * |b|) as real);
  }

  lemma {:induction false} ConstantCounts(s: seq<real>, v: real)
    requires forall i | 0 <= i < |s| :: s[i] == v
    ensures Below(s, v) == 0 && UpTo(s, v) == |s|
  {
    if s != [] {
      ConstantCounts(s[..|s| - 1], v);
    }
  }

  lemma {:induction false} ConstantPairs(a: seq<real>, b: seq<real>, v: real)
    requires forall i | 0 <= i < |a| :: a[i] == v
    requires forall i | 0 <= i < |b| :: b[i] == v
    ensures PairsBelow(a, b) == 0 && PairsUpTo(a, b) == |a| * |b|
    decreases |b|
  {
    if b != [] {
      ConstantPairs(a, b[..|b| - 1], v);
      ConstantCounts(a, v);
      assert |a| * |b| == |a| * (|b| - 1) + |a|;
    }
  }

  /** A feature constant over both populations scores exactly one half. */
  lemma ConstantScoresHalf(a: seq<real>, b: seq<real>, v: real)
    requires a != [] && b != []
    requires forall i | 0 <= i < |a| :: a[i] == v
    requires forall i | 0 <= i < |b| :: b[i] == v
    ensures Fold(Auc(a, b)) == 0.5
  {
    ConstantPairs(a, b, v);
    ConstantPairs(b, a, v);
    RankSumIsPairCount(a, b);
    RankSumIsPairCount(b, a);
    assert |b| * |a| == |a| * |b|;
    var x, y := U(a, b), U(b, a);
    assert x == y;
    AucIsSymmetric(a, b);
  }

  // ------------------------------------------------------------------------------- sorting

  function Identity(n: nat): seq<nat> { seq(n, i requires 0 <= i < n => i) }

  /** order is a permutation of the positions of vs that lists the values in ascending order. */
  ghost predicate Sorts(vs: seq<real>, order: seq<nat>) {
    && |order| == |vs| && multiset(order) == multiset(Identity(|vs|))
    && (forall p | 0 <= p < |order| :: order[p] < |vs|)
    && (forall p, q | 0 <= p < q < |order| :: order[p] != order[q])
    && (forall p, q | 0 <= p < q < |order| :: vs[order[p]] <= vs[order[q]])
  }

  function Gather(vs: seq<real>, order: seq<nat>): seq<real>
    requires forall p | 0 <= p < |order| :: order[p] < |vs|
  {
    seq(|order|, p requires 0 <= p < |order| => vs[order[p]])
  }

  /** Dropping one position of a sequence drops its share of the counts. */
  lemma {:induction false} CountRemove(s: seq<real>, k: nat, v: real)
    requires k < |s|
    ensures Below(s, v) == Below(s[..k] + s[k + 1..], v) + if s[k] < v then 1 else 0
    ensures UpTo(s, v) == UpTo(s[..k] + s[k + 1..], v) + if s[k] <= v then 1 else 0
  {
    assert s == s[..k] + ([s[k]] + s[k + 1..]);
    CountConcat(s[..k], [s[k]] + s[k + 1..], v);
    CountConcat([s[k]], s[k + 1..], v);
    CountConcat(s[..k], s[k + 1..], v);
    assert [s[k]][..0] == [];
  }

  lemma RemoveOne<T>(s: seq<T>, t: seq<T>, k: nat)
    requires multiset(s) == multiset(t) && s != [] && k < |t| && t[k] == s[|s| - 1]
    ensures multiset(s[..|s| - 1]) == multiset(t[..k] + t[k + 1..])
  {
    var n := |s| - 1;
    SplitAt(s, n);
    SplitAt(t, k);
    assert s[..n] + s[n + 1..] == s[..n];
    Cancel(multiset(s[..n]), multiset(t[..k] + t[k + 1..]), multiset{t[k]});
  }

  lemma SplitAt<T>(s: seq<T>, k: nat)
    requires k < |s|
    ensures multiset(s) == multiset(s[..k] + s[k + 1..]) + multiset{s[k]}
  {
    assert s == s[..k] + [s[k]] + s[k + 1..];
  }

  lemma Cancel<T>(a: multiset<T>, b: multiset<T>, c: multiset<T>)
    requires a + c == b + c
    ensures a == b
  {
    assert a == (a + c) - c && b == (b + c) - c;
  }

  /** Counts do not depend on the order of the values. */
  lemma {:induction false} CountPermuted(s: seq<real>, t: seq<real>, v: real)
    requires multiset(s) == multiset(t)
    ensures Below(s, v) == Below(t, v) && UpTo(s, v) == UpTo(t, v)
    decreases |s|
  {
    if s != [] {
      var n := |s| - 1;
      assert s == s[..n] + [s[n]];
      assert s[n] in multiset(t);
      var k :| 0 <= k < |t| && t[k] == s[n];
      var rest := t[..k] + t[k + 1..];
      RemoveOne(s, t, k);
      CountPermuted(s[..n], rest, v);
      CountRemove(t, k, v);
    } else {
      assert |multiset(t)| == 0;
    }
  }

  /** In ascending order, the tied group [lo, hi) has lo values below it and hi up to it. */
  lemma {:induction false} TiedGroupCounts(sorted: seq<real>, lo: nat, hi: nat)
    requires lo < hi <= |sorted|
    requires forall p, q | 0 <= p < q < |sorted| :: sorted[p] <= sorted[q]
    requires forall p | lo <= p < hi :: sorted[p] == sorted[lo]
    requires lo > 0 ==> sorted[lo - 1] < sorted[lo]
    requires hi < |sorted| ==> sorted[lo] < sorted[hi]
    ensures Below(sorted, sorted[lo]) == lo && UpTo(sorted, sorted[lo]) == hi
  {
    var low, mid, high := sorted[..lo], sorted[lo..hi], sorted[hi..];
    assert sorted == low + mid + high;
    forall i | 0 <= i < |low| ensures low[i] < sorted[lo] { assert sorted[i] <= sorted[lo - 1]; }
    forall i | 0 <= i < |mid| ensures mid[i] == sorted[lo] { assert sorted[lo + i] == sorted[lo]; }
    forall i | 0 <= i < |high| ensures high[i] > sorted[lo] { assert sorted[hi] <= sorted[hi + i]; }
    ThreeWayCounts(low, mid, high, sorted[lo]);
  }

  lemma ThreeWayCounts(low: seq<real>, mid: seq<real>, high: seq<real>, v: real)
    requires forall i | 0 <= i < |low| :: low[i] < v
    requires forall i | 0 <= i < |mid| :: mid[i] == v
    requires forall i | 0 <= i < |high| :: high[i] > v
    ensures Below(low + mid + high, v) == |low| && UpTo(low + mid + high, v) == |low| + |mid|
  {
    CountConcat(low + mid, high, v);
    CountConcat(low, mid, v);
    AllBelow(low, v);
    ConstantCounts(mid, v);
    NoneUpTo(high, v);
  }

  lemma {:induction false} AllBelow(s: seq<real>, v: real)
    requires forall i | 0 <= i < |s| :: s[i] < v
    ensures Below(s, v) == |s| == UpTo(s, v)
  {
    if s != [] {
      AllBelow(s[..|s| - 1], v);
    }
  }

  lemma {:induction false} NoneUpTo(s: seq<real>, v: real)
    requires forall i | 0 <= i < |s| :: s[i] > v
    ensures Below(s, v) == 0 == UpTo(s, v)
  {
    if s != [] {
      NoneUpTo(s[..|s| - 1], v);
    }
  }

  lemma GatherConcat(vs: seq<real>, s: seq<nat>, t: seq<nat>)
    requires forall p | 0 <= p < |s| :: s[p] < |vs|
    requires forall p | 0 <= p < |t| :: t[p] < |vs|
    ensures Gather(vs, s + t) == Gather(vs, s) + Gather(vs, t)
  {
  }

  /** Listing values by two arrangements of the same positions gives the same values. */
  lemma {:induction false} GatherPermuted(vs: seq<real>, s: seq<nat>, t: seq<nat>)
    requires multiset(s) == multiset(t)
    requires forall p | 0 <= p < |s| :: s[p] < |vs|
    requires forall p | 0 <= p < |t| :: t[p] < |vs|
    ensures multiset(Gather(vs, s)) == multiset(Gather(vs, t))
    decreases |s|
  {
    if s != [] {
      var n := |s| - 1;
      assert s[n] in multiset(t);
      var k :| 0 <= k < |t| && t[k] == s[n];
      RemoveOne(s, t, k);
      GatherPermuted(vs, s[..n], t[..k] + t[k + 1..]);
      GatherWithout(vs, s, n);
      GatherWithout(vs, t, k);
      assert s[..n] + s[n + 1..] == s[..n];
    } else {
      assert |multiset(t)| == 0;
    }
  }

  lemma GatherWithout(vs: seq<real>, t: seq<nat>, k: nat)
    requires k < |t| && forall p | 0 <= p < |t| :: t[p] < |vs|
    ensures multiset(Gather(vs, t)) == multiset(Gather(vs, t[..k] + t[k + 1..])) + multiset{vs[t[k]]}
  {
    GatherConcat(vs, t[..k], t[k + 1..]);
    var g := Gather(vs, t);
    assert g[..k] == Gather(vs, t[..k]) && g[k + 1..] == Gather(vs, t[k + 1..]);
    SplitAt(g, k);
  }

  /** Stable insertion: after every value that is not larger. */
  function Insert(vs: seq<real>, order: seq<nat>, k: nat): seq<nat>
    requires k < |vs| && forall p | 0 <= p < |order| :: order[p] < |vs|
  {
    if order == [] || vs[order[|order| - 1]] <= vs[k] then order + [k]
    else Insert(vs, order[..|order| - 1], k) + [order[|order| - 1]]
  }

  lemma {:induction false} InsertAdds(vs: seq<real>, order: seq<nat>, k: nat)
    requires k < |vs| && forall p | 0 <= p < |order| :: order[p] < |vs|
    ensures multiset(Insert(vs, order, k)) == multiset(order) + multiset{k}
    ensures |Insert(vs, order, k)| == |order| + 1
  {
    if order != [] && !(vs[order[|order| - 1]] <= vs[k]) {
      var n := |order| - 1;
      assert order == order[..n] + [order[n]];
      InsertAdds(vs, order[..n], k);
    }
  }

  ghost predicate Ascending(vs: seq<real>, order: seq<nat>) {
    (forall p | 0 <= p < |order| :: order[p] < |vs|)
    && forall p, q | 0 <= p < q < |order| :: vs[order[p]] <= vs[order[q]]
  }

  lemma AscendingSnoc(vs: seq<real>, r: seq<nat>, x: nat)
    requires Ascending(vs, r) && x < |vs| && forall p | 0 <= p < |r| :: vs[r[p]] <= vs[x]
    ensures Ascending(vs, r + [x])
  {
  }

  lemma EarlierIsLower(vs: seq<real>, order: seq<nat>, x: nat)
    requires Ascending(vs, order) && order != [] && x in order[..|order| - 1]
    ensures x < |vs| && vs[x] <= vs[order[|order| - 1]]
  {
    var q :| 0 <= q < |order| - 1 && order[q] == x;
  }

  lemma {:induction false} InsertSorts(vs: seq<real>, order: seq<nat>, k: nat)
    requires k < |vs| && Ascending(vs, order)
    ensures Ascending(vs, Insert(vs, order, k))
  {
    InsertAdds(vs, order, k);
    if order != [] && !(vs[order[|order| - 1]] <= vs[k]) {
      var n := |order| - 1;
      InsertSorts(vs, order[..n], k);
      InsertAdds(vs, order[..n], k);
      var r := Insert(vs, order[..n], k);
      forall p | 0 <= p < |r| ensures vs[r[p]] <= vs[order[n]] {
        assert r[p] in multiset(r);
        if r[p] != k {
          EarlierIsLower(vs, order, r[p]);
        }
      }
      AscendingSnoc(vs, r, order[n]);
    }
  }

  /** A sequence with each of 0..n-1 once has no repeats. */
  lemma {:induction false} PermutationIsDistinct(order: seq<nat>, n: nat)
    requires multiset(order) == multiset(Identity(n))
    ensures forall p | 0 <= p < |order| :: order[p] < n
    ensures forall p, q | 0 <= p < q < |order| :: order[p] != order[q]
  {
    forall p | 0 <= p < |order| ensures order[p] < n {
      assert order[p] in multiset(order);
      assert order[p] in Identity(n);
    }
    forall p, q | 0 <= p < q < |order| ensures order[p] != order[q] {
      var x := order[p];
      assert order == order[..p] + [order[p]] + order[p + 1..q] + [order[q]] + order[q + 1..];
      if order[p] == order[q] {
        assert multiset(order)[x] >= 2;
        IdentityOnce(n, x);
      }
    }
  }

  lemma {:induction false} IdentityOnce(n: nat, x: nat)
    ensures multiset(Identity(n))[x] <= 1
    ensures x >= n ==> multiset(Identity(n))[x] == 0
  {
    if n > 0 {
      IdentityOnce(n - 1, x);
      assert Identity(n) == Identity(n - 1) + [n - 1];
    }
  }

  /** numpy's argsort with kind="mergesort". */
  method Argsort(vs: seq<real>) returns (order: seq<nat>)
    ensures Sorts(vs, order)
  {
    order := [];
    assert Identity(0) == [];
    for k := 0 to |vs|
      invariant |order| == k && multiset(order) == multiset(Identity(k)) && Ascending(vs, order)
    {
      InsertSorts(vs, order, k);
      InsertAdds(vs, order, k);
      order := Insert(vs, order, k);
      assert Identity(k + 1) == Identity(k) + [k];
    }
    PermutationIsDistinct(order, |vs|);
  }

  // ------------------------------------------------------------------------------ the loop

  /** Positions before `start` carry their average rank; the rest still carry plain ranks. */
  ghost predicate RankedUpTo(vs: seq<real>, order: seq<nat>, ranks: seq<real>, start: nat)
    requires Sorts(vs, order) && |ranks| == |vs| && start <= |vs|
  {
    && (forall p | 0 <= p < start :: ranks[order[p]] == AverageRank(vs, vs[order[p]]))
    && (forall p | start <= p < |vs| :: ranks[order[p]] == (p + 1) as real)
  }

  lemma {:induction false} SumOfPlainRanks(xs: seq<real>, start: nat)
    requires forall j | 0 <= j < |xs| :: xs[j] == (start + j + 1) as real
    ensures 2.0 * Sum(xs) == (|xs| * (2 * start + |xs| + 1)) as real
  {
    if xs != [] {
      SumOfPlainRanks(xs[..|xs| - 1], start);
      var n := |xs| - 1;
      assert (n + 1) * (2 * start + (n + 1) + 1) == n * (2 * start + n + 1) + 2 * start + 2 * n + 2;
    }
  }

  /** Mean rank of a tied group, and the average-rank formula for its value. */
  lemma TiedGroupRank(vs: seq<real>, order: seq<nat>, start: nat, i: nat, xs: seq<real>)
    requires Sorts(vs, order) && start < i <= |vs|
    requires forall p | start <= p < i :: vs[order[p]] == vs[order[start]]
    requires start > 0 ==> vs[order[start - 1]] != vs[order[start]]
    requires i < |vs| ==> vs[order[i]] != vs[order[start]]
    requires |xs| == i - start && forall j | 0 <= j < |xs| :: xs[j] == (start + j + 1) as real
    ensures AverageRank(vs, vs[order[start]]) == (start + i + 1) as real / 2.0 == Sum(xs) / (i - start) as real
  {
    var sorted := Gather(vs, order);
    TiedGroupCounts(sorted, start, i);
    GatherPermuted(vs, order, Identity(|vs|));
    assert Gather(vs, Identity(|vs|)) == vs;
    CountPermuted(sorted, vs, vs[order[start]]);
    MeanOfPlainRanks(xs, start);
  }

  lemma MeanOfPlainRanks(xs: seq<real>, start: nat)
    requires xs != [] && forall j | 0 <= j < |xs| :: xs[j] == (start + j + 1) as real
    ensures Sum(xs) / |xs| as real == (2 * start + |xs| + 1) as real / 2.0
  {
    SumOfPlainRanks(xs, start);
    ProductMean(Sum(xs), |xs|, 2 * start + |xs| + 1);
  }

  lemma ProductMean(x: real, n: nat, m: nat)
    requires n > 0 && 2.0 * x == (n * m) as real
    ensures x / n as real == m as real / 2.0
  {
    assert x == n as real * (m as real / 2.0);
    assert (n as real * (m as real / 2.0)) / n as real == m as real / 2.0;
  }

  /** Sum of the ranks held by the positions of b, as `ranks[n_a:].sum()`. */
  lemma {:induction false} TailSum(all: seq<real>, ranks: seq<real>, b: seq<real>)
    requires |ranks| == |b|
    requires forall j | 0 <= j < |b| :: ranks[j] == AverageRank(all, b[j])
    ensures Sum(ranks) == SumRanks(all, b)
  {
    if b != [] {
      TailSum(all, ranks[..|b| - 1], b[..|b| - 1]);
    }
  }

  /** The tie-averaged ranks: plain ranks first, then one pass over the tied groups. */
  method AverageRanks(vs: seq<real>) returns (ranks: array<real>)
    ensures fresh(ranks) && ranks.Length == |vs|
    ensures forall k | 0 <= k < |vs| :: ranks[k] == AverageRank(vs, vs[k])
  {
    var n := |vs|;
    var order := Argsort(vs);
    ranks := new real[n];
    for p := 0 to n
      invariant forall q | 0 <= q < p :: ranks[order[q]] == (q + 1) as real
    {
      ranks[order[p]] := (p + 1) as real;
    }
    var start, i := 0, 1;
    while i <= n
      invariant 1 <= i <= n + 1 && start <= n && start < i
      invariant i <= n ==> start < n
      invariant i == n + 1 ==> start == n
      invariant RankedUpTo(vs, order, ranks[..], start)
      invariant i <= n ==> forall p | start <= p < i :: vs[order[p]] == vs[order[start]]
      invariant 0 < start < n ==> vs[order[start - 1]] != vs[order[start]]
    {
      if i == n || vs[order[i]] != vs[order[start]] {
        AverageGroup(vs, order, ranks, start, i);
        start := i;
      }
      i := i + 1;
    }
    OrderCovers(vs, order, ranks[..]);
  }

  /** A tied group of more than one takes its mean rank; the other positions keep theirs. */
  method AverageGroup(vs: seq<real>, order: seq<nat>, ranks: array<real>, start: nat, i: nat)
    requires Sorts(vs, order) && ranks.Length == |vs| && start < i <= |vs|
    requires RankedUpTo(vs, order, ranks[..], start)
    requires forall p | start <= p < i :: vs[order[p]] == vs[order[start]]
    requires start > 0 ==> vs[order[start - 1]] != vs[order[start]]
    requires i < |vs| ==> vs[order[i]] != vs[order[start]]
    modifies ranks
    ensures RankedUpTo(vs, order, ranks[..], i)
  {
    var plain := ranks[..];
    var group := seq(i - start, j requires 0 <= j < i - start => plain[order[start + j]]);
    TiedGroupRank(vs, order, start, i, group);
    if i - start > 1 {
      var mean := Sum(group) / (i - start) as real;
      Assign(order, ranks, start, i, mean);
    }
  }

  method Assign(order: seq<nat>, ranks: array<real>, start: nat, i: nat, x: real)
    requires |order| == ranks.Length && start <= i <= |order|
    requires forall p | 0 <= p < |order| :: order[p] < ranks.Length
    requires forall p, q | 0 <= p < q < |order| :: order[p] != order[q]
    modifies ranks
    ensures forall p | start <= p < i :: ranks[order[p]] == x
    ensures forall p | 0 <= p < start || i <= p < |order| :: ranks[order[p]] == old(ranks[order[p]])
  {
    for p := start to i
      invariant forall q | start <= q < p :: ranks[order[q]] == x
      invariant forall q | 0 <= q < start || p <= q < |order| :: ranks[order[q]] == old(ranks[order[q]])
    {
      ranks[order[p]] := x;
    }
  }

  /** A permutation of positions leaves no position without its rank. */
  lemma OrderCovers(vs: seq<real>, order: seq<nat>, ranks: seq<real>)
    requires Sorts(vs, order) && |ranks| == |vs| && RankedUpTo(vs, order, ranks, |vs|)
    ensures forall k | 0 <= k < |vs| :: ranks[k] == AverageRank(vs, vs[k])
  {
    forall k | 0 <= k < |vs| ensures ranks[k] == AverageRank(vs, vs[k]) {
      assert Identity(|vs|)[k] == k;
      assert k in multiset(order);
      var p :| 0 <= p < |order| && order[p] == k;
    }
  }

  method RankAuc(a: seq<real>, b: seq<real>) returns (auc: Option<real>)
    ensures auc.None? <==> a == [] || b == []
    ensures auc.Some? ==> auc.value == Fold(Auc(a, b)) && 0.5 <= auc.value <= 1.0
  {
    if a == [] || b == [] { return None; }
    var ranks := AverageRanks(a + b);
    var tail := ranks[|a|..];
    TailSum(a + b, tail, b);
    var u := Sum(tail) - (|b| * (|b| + 1)) as real / 2.0;
    AucRange(a, b);
    assert |a| * |b| >= 1;
    auc := Some(Fold(u / (|a| * |b|) as real));
  }
}
