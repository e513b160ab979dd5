/**
 * The two window-graph builders, `WindowGraph` (services/features/compute.py) and
 * `compute_window_graph` (ml/nidra/data/graph_features.py), against the plain
 * edge relation.
 */
module Graphs {
  import opened EdgeSets
  import Orders

  /** Neighbours with the direction ignored. */
  function Adjacent(edges: set<Edge>, h: int): set<int> {
    Succ(edges, h) + Pred(edges, h)
  }

  function EdgeSet(edges: seq<Edge>): set<Edge> {
    set e | e in edges
  }

  function Ends(edges: set<Edge>): set<int> {
    (set e | e in edges :: e.0) + (set e | e in edges :: e.1)
  }

  lemma SuccGrows(edges: set<Edge>, s: int, d: int, h: int)
    ensures Succ(edges + {(s, d)}, h) == Succ(edges, h) + if h == s then {d} else {}
  {
    forall x: int
      ensures x in Succ(edges + {(s, d)}, h) <==> x in Succ(edges, h) + if h == s then {d} else {}
    {
      InSucc(edges + {(s, d)}, h, x);
      InSucc(edges, h, x);
    }
  }

  lemma PredGrows(edges: set<Edge>, s: int, d: int, h: int)
    ensures Pred(edges + {(s, d)}, h) == Pred(edges, h) + if h == d then {s} else {}
  {
    forall x: int
      ensures x in Pred(edges + {(s, d)}, h) <==> x in Pred(edges, h) + if h == d then {s} else {}
    {
      InPred(edges + {(s, d)}, h, x);
      InPred(edges, h, x);
    }
  }

  lemma EdgeSetSnoc(edges: seq<Edge>, n: nat)
    requires n < |edges|
    ensures EdgeSet(edges[..n + 1]) == EdgeSet(edges[..n]) + {edges[n]}
  {
    assert edges[..n + 1] == edges[..n] + [edges[n]];
  }

  lemma EndsGrow(edges: set<Edge>, s: int, d: int)
    ensures Ends(edges + {(s, d)}) == Ends(edges) + {s, d}
  {
    var more := edges + {(s, d)};
    assert (s, d) in more;
    forall x: int
      ensures x in Ends(more) <==> x in Ends(edges) + {s, d}
    {
      if x in Ends(edges) {
        var e :| e in edges && (e.0 == x || e.1 == x);
        assert e in more;
      }
    }
  }

  // ------------------------------------------------------------ the builders

  type Peers = map<int, set<int>>

  function At(m: Peers, h: int): set<int> {
    if h in m then m[h] else {}
  }

  /** Every endpoint is a key, with the full set of its peers on that side. */
  ghost predicate IsOut(out: Peers, edges: set<Edge>) {
    out.Keys == Ends(edges) && forall h :: At(out, h) == Succ(edges, h)
  }

  ghost predicate IsIn(inn: Peers, edges: set<Edge>) {
    inn.Keys == Ends(edges) && forall h :: At(inn, h) == Pred(edges, h)
  }

  lemma OutGrows(out: Peers, edges: set<Edge>, s: int, d: int)
    requires IsOut(out, edges)
    ensures var out' := out[s := At(out, s) + {d}];
            IsOut(out'[d := At(out', d)], edges + {(s, d)})
  {
    EndsGrow(edges, s, d);
    forall h: int
      ensures Succ(edges + {(s, d)}, h) == Succ(edges, h) + if h == s then {d} else {}
    {
      SuccGrows(edges, s, d, h);
    }
  }

  lemma InGrows(inn: Peers, edges: set<Edge>, s: int, d: int)
    requires IsIn(inn, edges)
    ensures var inn' := inn[d := At(inn, d) + {s}];
            IsIn(inn'[s := At(inn', s)], edges + {(s, d)})
  {
    EndsGrow(edges, s, d);
    forall h: int
      ensures Pred(edges + {(s, d)}, h) == Pred(edges, h) + if h == d then {s} else {}
    {
      PredGrows(edges, s, d, h);
    }
  }

  /** Online: both peer maps, every endpoint present in both. */
  method FromEdges(edges: seq<Edge>) returns (out: Peers, inn: Peers)
    ensures IsOut(out, EdgeSet(edges)) && IsIn(inn, EdgeSet(edges))
  {
    out, inn := map[], map[];
    for n := 0 to |edges|
      invariant IsOut(out, EdgeSet(edges[..n])) && IsIn(inn, EdgeSet(edges[..n]))
    {
      var (s, d) := edges[n];
      EdgeSetSnoc(edges, n);
      OutGrows(out, EdgeSet(edges[..n]), s, d);
      InGrows(inn, EdgeSet(edges[..n]), s, d);
      out := out[s := At(out, s) + {d}];
      inn := inn[d := At(inn, d) + {s}];
      out := out[d := At(out, d)];
      inn := inn[s := At(inn, s)];
    }
    assert edges[..|edges|] == edges;
  }

  type Counter = map<int, nat>

  function CountOf(m: map<int, Counter>, h: int): Counter {
    if h in m then m[h] else map[]
  }

  /** Offline: only sources are keys, each with a counter over its destinations. */
  ghost predicate IsOutCounts(out: map<int, Counter>, edges: seq<Edge>) {
    && (forall h :: CountOf(out, h).Keys == Succ(EdgeSet(edges), h))
    && (forall h | h in out :: Succ(EdgeSet(edges), h) != {})
    && (forall h, d | h in out && d in out[h] :: out[h][d] == multiset(edges)[(h, d)])
  }

  ghost predicate IsInSets(inn: Peers, edges: seq<Edge>) {
    (forall h :: At(inn, h) == Pred(EdgeSet(edges), h)) && forall h | h in inn :: inn[h] != {}
  }

  lemma CountsGrow(out: map<int, Counter>, edges: seq<Edge>, n: nat, k: nat)
    requires n < |edges| && IsOutCounts(out, edges[..n])
    requires var c := CountOf(out, edges[n].0);
             k == (if edges[n].1 in c then c[edges[n].1] else 0) + 1
    ensures IsOutCounts(out[edges[n].0 := CountOf(out, edges[n].0)[edges[n].1 := k]], edges[..n + 1])
  {
    var (s, d) := edges[n];
    var before, after := edges[..n], edges[..n + 1];
    var out' := out[s := CountOf(out, s)[d := k]];
    EdgeSetSnoc(edges, n);
    assert EdgeSet(after) == EdgeSet(before) + {(s, d)};
    forall h: int
      ensures CountOf(out', h).Keys == Succ(EdgeSet(after), h)
    {
      SuccGrows(EdgeSet(before), s, d, h);
      assert CountOf(out, h).Keys == Succ(EdgeSet(before), h);
    }
    assert after == before + [(s, d)];
    assert multiset(after) == multiset(before) + multiset{(s, d)};
    InSucc(EdgeSet(before), s, d);
    assert d !in CountOf(out, s) ==> (s, d) !in before;
    assert d in Succ(EdgeSet(after), s) by { InSucc(EdgeSet(after), s, d); }
  }

  lemma InSetsGrow(inn: Peers, edges: seq<Edge>, n: nat)
    requires n < |edges| && IsInSets(inn, edges[..n])
    ensures IsInSets(inn[edges[n].1 := At(inn, edges[n].1) + {edges[n].0}], edges[..n + 1])
  {
    var (s, d) := edges[n];
    var before, after := EdgeSet(edges[..n]), EdgeSet(edges[..n + 1]);
    EdgeSetSnoc(edges, n);
    assert after == before + {(s, d)};
    var inn' := inn[d := At(inn, d) + {s}];
    forall h: int
      ensures At(inn', h) == Pred(after, h)
    {
      PredGrows(before, s, d, h);
      assert At(inn, h) == Pred(before, h);
    }
    assert s in inn'[d];
  }

  method ComputeEdges(edges: seq<Edge>) returns (out: map<int, Counter>, inn: Peers)
    ensures IsOutCounts(out, edges) && IsInSets(inn, edges)
  {
    out, inn := map[], map[];
    for n := 0 to |edges|
      invariant IsOutCounts(out, edges[..n]) && IsInSets(inn, edges[..n])
    {
      var (s, d) := edges[n];
      var c := CountOf(out, s);
      var k := (if d in c then c[d] else 0) + 1;
      CountsGrow(out, edges, n, k);
      InSetsGrow(inn, edges, n);
      out := out[s := c[d := k]];
      inn := inn[d := At(inn, d) + {s}];
    }
    assert edges[..|edges|] == edges;
  }

  // ---------------------------------------------------------------- degrees

  /** For every edge list the two builders give every host the same degrees. */
  lemma DegreesAgree(edges: seq<Edge>, out: Peers, inn: Peers, outCounts: map<int, Counter>, inSets: Peers, h: int)
    requires IsOut(out, EdgeSet(edges)) && IsIn(inn, EdgeSet(edges))
    requires IsOutCounts(outCounts, edges) && IsInSets(inSets, edges)
    ensures |At(out, h)| == |CountOf(outCounts, h)| && |At(inn, h)| == |At(inSets, h)|
    ensures h in out <==> h in outCounts || h in inSets
    ensures h in inn <==> h in outCounts || h in inSets
  {
    MapSize(CountOf(outCounts, h));
    HostsAgree(edges, outCounts, inSets, h);
  }

  lemma MapSize<K, V>(m: map<K, V>)
    ensures |m| == |m.Keys|
  {
  }

  lemma HostsAgree(edges: seq<Edge>, outCounts: map<int, Counter>, inSets: Peers, h: int)
    requires IsOutCounts(outCounts, edges) && IsInSets(inSets, edges)
    ensures h in Ends(EdgeSet(edges)) <==> h in outCounts || h in inSets
  {
    HasEdge(EdgeSet(edges), h);
    assert CountOf(outCounts, h).Keys == Succ(EdgeSet(edges), h);
    assert At(inSets, h) == Pred(EdgeSet(edges), h);
  }

  lemma HasEdge(edges: set<Edge>, x: int)
    ensures x in Ends(edges) <==> Succ(edges, x) != {} || Pred(edges, x) != {}
  {
    if x in Ends(edges) {
      var e :| e in edges && (e.0 == x || e.1 == x);
      if e.0 == x { InSucc(edges, x, e.1); } else { InPred(edges, x, e.0); }
    }
  }

  function OutTotal(edges: set<Edge>, hosts: seq<int>): nat {
    if hosts == [] then 0 else OutTotal(edges, hosts[..|hosts| - 1]) + |Succ(edges, hosts[|hosts| - 1])|
  }

  function InTotal(edges: set<Edge>, hosts: seq<int>): nat {
    if hosts == [] then 0 else InTotal(edges, hosts[..|hosts| - 1]) + |Pred(edges, hosts[|hosts| - 1])|
  }

  lemma {:induction false} SameSource(edges: set<Edge>, h: int)
    requires forall e | e in edges :: e.0 == h
    ensures |Succ(edges, h)| == |edges|
    decreases |edges|
  {
    if edges != {} {
      var e := Orders.Pick(edges);
      SameSource(edges - {e}, h);
      assert edges == edges - {e} + {(h, e.1)};
      SuccGrows(edges - {e}, h, e.1, h);
      InSucc(edges - {e}, h, e.1);
    }
  }

  lemma {:induction false} SameTarget(edges: set<Edge>, h: int)
    requires forall e | e in edges :: e.1 == h
    ensures |Pred(edges, h)| == |edges|
    decreases |edges|
  {
    if edges != {} {
      var e := Orders.Pick(edges);
      SameTarget(edges - {e}, h);
      assert edges == edges - {e} + {(e.0, h)};
      PredGrows(edges - {e}, e.0, h, h);
      InPred(edges - {e}, h, e.0);
    }
  }

  predicate Distinct(hosts: seq<int>) {
    forall i, j | 0 <= i < j < |hosts| :: hosts[i] != hosts[j]
  }

  function FromHosts(edges: set<Edge>, hosts: seq<int>): set<Edge> {
    set e | e in edges && e.0 in hosts
  }

  function ToHosts(edges: set<Edge>, hosts: seq<int>): set<Edge> {
    set e | e in edges && e.1 in hosts
  }

  lemma {:induction false} OutTotalCounts(edges: set<Edge>, hosts: seq<int>)
    requires Distinct(hosts)
    ensures OutTotal(edges, hosts) == |FromHosts(edges, hosts)|
  {
    if hosts != [] {
      var init, h := hosts[..|hosts| - 1], hosts[|hosts| - 1];
      assert hosts == init + [h];
      OutTotalCounts(edges, init);
      var own := set e | e in edges && e.0 == h;
      SameSource(own, h);
      assert Succ(own, h) == Succ(edges, h);
      assert FromHosts(edges, hosts) == FromHosts(edges, init) + own;
      assert FromHosts(edges, init) !! own;
    }
  }

  lemma {:induction false} InTotalCounts(edges: set<Edge>, hosts: seq<int>)
    requires Distinct(hosts)
    ensures InTotal(edges, hosts) == |ToHosts(edges, hosts)|
  {
    if hosts != [] {
      var init, h := hosts[..|hosts| - 1], hosts[|hosts| - 1];
      assert hosts == init + [h];
      InTotalCounts(edges, init);
      var own := set e | e in edges && e.1 == h;
      SameTarget(own, h);
      assert Pred(own, h) == Pred(edges, h);
      assert ToHosts(edges, hosts) == ToHosts(edges, init) + own;
      assert ToHosts(edges, init) !! own;
    }
  }

  /** Summed over all hosts, out-degrees and in-degrees both count the distinct edges. */
  lemma DegreesAddUp(edges: set<Edge>, hosts: seq<int>)
    requires Distinct(hosts) && Elements(hosts) == Ends(edges)
    ensures OutTotal(edges, hosts) == |edges| == InTotal(edges, hosts)
  {
    OutTotalCounts(edges, hosts);
    InTotalCounts(edges, hosts);
    AllHosts(edges, hosts);
  }

  lemma AllHosts(edges: set<Edge>, hosts: seq<int>)
    requires Elements(hosts) == Ends(edges)
    ensures FromHosts(edges, hosts) == edges == ToHosts(edges, hosts)
  {
    forall e | e in edges
      ensures e.0 in hosts && e.1 in hosts
    {
      assert e.0 in Elements(hosts) && e.1 in Elements(hosts);
    }
  }

  // ------------------------------------------------------------- clustering

  function Linked(edges: set<Edge>, ns: seq<int>, v: int): nat {
    if ns == [] then 0
    else Linked(edges, ns[..|ns| - 1], v) + if v in Adjacent(edges, ns[|ns| - 1]) then 1 else 0
  }

  /** Pairs i < j of neighbours that are themselves adjacent. */
  function Links(edges: set<Edge>, ns: seq<int>): nat {
    if ns == [] then 0 else Links(edges, ns[..|ns| - 1]) + Linked(edges, ns[..|ns| - 1], ns[|ns| - 1])
  }

  function Share(links: nat, k: nat): real {
    if k < 2 then 0.0 else links as real / (k as real * (k - 1) as real / 2.0)
  }

  function Coefficient(edges: set<Edge>, ns: seq<int>): real {
    Share(Links(edges, ns), |ns|)
  }

  function Elements(ns: seq<int>): set<int> {
    set n | n in ns
  }

  /** Adjacent pairs of different members, in both directions. */
  function OrderedPairs(edges: set<Edge>, s: set<int>): set<(int, int)> {
    set u, v | u in s && v in s && u != v && v in Adjacent(edges, u) :: (u, v)
  }

  lemma AdjacentIsSymmetric(edges: set<Edge>, u: int, v: int)
    ensures v in Adjacent(edges, u) <==> u in Adjacent(edges, v)
  {
    InSucc(edges, u, v);
    InPred(edges, u, v);
    InSucc(edges, v, u);
    InPred(edges, v, u);
  }

  function To(edges: set<Edge>, s: set<int>, v: int): set<(int, int)> {
    set u | u in s && v in Adjacent(edges, u) :: (u, v)
  }

  function From(edges: set<Edge>, s: set<int>, v: int): set<(int, int)> {
    set u | u in s && v in Adjacent(edges, u) :: (v, u)
  }

  lemma ElementsSnoc(init: seq<int>, u: int)
    ensures Elements(init + [u]) == Elements(init) + {u}
    ensures Distinct(init + [u]) ==> Distinct(init) && u !in Elements(init)
  {
    var ns := init + [u];
    assert forall i | 0 <= i < |init| :: ns[i] == init[i];
    assert ns[|init|] == u;
  }

  lemma ToGrows(edges: set<Edge>, s: set<int>, u: int, v: int)
    requires u !in s
    ensures |To(edges, s + {u}, v)| == |To(edges, s, v)| + if v in Adjacent(edges, u) then 1 else 0
  {
    assert To(edges, s + {u}, v) == To(edges, s, v) + if v in Adjacent(edges, u) then {(u, v)} else {};
    assert (u, v) !in To(edges, s, v);
  }

  lemma FromGrows(edges: set<Edge>, s: set<int>, u: int, v: int)
    requires u !in s
    ensures |From(edges, s + {u}, v)| == |From(edges, s, v)| + if v in Adjacent(edges, u) then 1 else 0
  {
    assert From(edges, s + {u}, v) == From(edges, s, v) + if v in Adjacent(edges, u) then {(v, u)} else {};
    assert (v, u) !in From(edges, s, v);
  }

  lemma {:induction false} LinkedCounts(edges: set<Edge>, ns: seq<int>, v: int)
    requires Distinct(ns)
    ensures |To(edges, Elements(ns), v)| == Linked(edges, ns, v) == |From(edges, Elements(ns), v)|
    ensures Linked(edges, ns, v) <= |ns|
  {
    if ns == [] {
      assert To(edges, Elements(ns), v) == {} == From(edges, Elements(ns), v);
    } else {
      var init, u := ns[..|ns| - 1], ns[|ns| - 1];
      assert ns == init + [u];
      ElementsSnoc(init, u);
      LinkedCounts(edges, init, v);
      ToGrows(edges, Elements(init), u, v);
      FromGrows(edges, Elements(init), u, v);
    }
  }

  lemma PairsGrow(edges: set<Edge>, s: set<int>, v: int)
    requires v !in s
    ensures OrderedPairs(edges, s + {v}) == OrderedPairs(edges, s) + To(edges, s, v) + From(edges, s, v)
    ensures |OrderedPairs(edges, s + {v})| == |OrderedPairs(edges, s)| + |To(edges, s, v)| + |From(edges, s, v)|
  {
    var all := OrderedPairs(edges, s + {v});
    var parts := OrderedPairs(edges, s) + To(edges, s, v) + From(edges, s, v);
    forall a, b | (a, b) in all
      ensures (a, b) in parts
    {
      AdjacentIsSymmetric(edges, a, b);
    }
    forall a, b | (a, b) in parts
      ensures (a, b) in all
    {
      AdjacentIsSymmetric(edges, a, b);
    }
    assert all == parts;
    assert OrderedPairs(edges, s) !! To(edges, s, v);
    assert OrderedPairs(edges, s) + To(edges, s, v) !! From(edges, s, v);
  }

  lemma LinksSnoc(edges: set<Edge>, init: seq<int>, v: int)
    ensures Links(edges, init + [v]) == Links(edges, init) + Linked(edges, init, v)
  {
    assert (init + [v])[..|init|] == init;
  }

  /** The count depends on the set of neighbours only: it is half the ordered adjacent pairs. */
  lemma {:induction false} LinksCountPairs(edges: set<Edge>, ns: seq<int>)
    requires Distinct(ns)
    ensures 2 * Links(edges, ns) == |OrderedPairs(edges, Elements(ns))|
  {
    if ns == [] {
      assert OrderedPairs(edges, Elements(ns)) == {};
    } else {
      var init, v := ns[..|ns| - 1], ns[|ns| - 1];
      assert ns == init + [v];
      ElementsSnoc(init, v);
      LinksCountPairs(edges, init);
      LinkedCounts(edges, init, v);
      LinksSnoc(edges, init, v);
      PairsGrow(edges, Elements(init), v);
    }
  }

  lemma {:induction false} LinksAtMostAllPairs(edges: set<Edge>, ns: seq<int>)
    requires Distinct(ns)
    ensures 2 * Links(edges, ns) <= |ns| * (|ns| - 1)
  {
    if ns != [] {
      var init, v := ns[..|ns| - 1], ns[|ns| - 1];
      assert ns == init + [v];
      LinksAtMostAllPairs(edges, init);
      LinkedCounts(edges, init, v);
      LinksSnoc(edges, init, v);
      NextTriangle(|init|);
    }
  }

  lemma NextTriangle(k: int)
    ensures (k + 1) * k == k * (k - 1) + 2 * k
  {
  }

  lemma {:induction false} DistinctSize(ns: seq<int>)
    requires Distinct(ns)
    ensures |Elements(ns)| == |ns|
  {
    if ns != [] {
      var init, v := ns[..|ns| - 1], ns[|ns| - 1];
      assert ns == init + [v];
      DistinctSize(init);
      ElementsSnoc(init, v);
    }
  }

  /** Whatever order the neighbours are listed in, the coefficient is the same. */
  lemma ClusteringIgnoresOrder(edges: set<Edge>, ns: seq<int>, ms: seq<int>)
    requires Distinct(ns) && Distinct(ms) && Elements(ns) == Elements(ms)
    ensures Coefficient(edges, ns) == Coefficient(edges, ms)
  {
    LinksCountPairs(edges, ns);
    LinksCountPairs(edges, ms);
    DistinctSize(ns);
    DistinctSize(ms);
  }

  lemma ClusteringInRange(edges: set<Edge>, ns: seq<int>)
    requires Distinct(ns)
    ensures 0.0 <= Coefficient(edges, ns) <= 1.0
  {
    LinksAtMostAllPairs(edges, ns);
    if |ns| >= 2 {
      RatioInRange(Links(edges, ns), |ns|);
    }
  }

  lemma RatioInRange(links: nat, k: nat)
    requires k >= 2 && 2 * links <= k * (k - 1)
    ensures 0.0 <= Share(links, k) <= 1.0
  {
    var all := k * (k - 1);
    assert k as real * (k - 1) as real == all as real;
    PairsPositive(k);
    PartOfWhole(links as real, all as real / 2.0);
  }

  lemma PairsPositive(k: int)
    requires k >= 2
    ensures k * (k - 1) >= 2
  {
  }

  lemma PartOfWhole(x: real, y: real)
    requires 0.0 <= x <= y && y > 0.0
    ensures 0.0 <= x / y <= 1.0
  {
  }

  function Capped(ns: seq<int>, cap: nat): seq<int> {
    if |ns| > cap then ns[..cap] else ns
  }

  /** Twice the links are the ordered adjacent pairs, so this is the share of pairs that are adjacent. */
  lemma CoefficientIsShare(edges: set<Edge>, ns: seq<int>)
    requires Distinct(ns)
    ensures |ns| < 2 ==> Coefficient(edges, ns) == 0.0
    ensures |ns| >= 2 ==> Coefficient(edges, ns) * (|ns| * (|ns| - 1)) as real
                          == |OrderedPairs(edges, Elements(ns))| as real
  {
    LinksCountPairs(edges, ns);
    if |ns| >= 2 {
      ShareTimes(Links(edges, ns), |ns|);
    }
  }

  lemma ShareTimes(links: nat, k: nat)
    requires k >= 2
    ensures Share(links, k) * (k * (k - 1)) as real == 2.0 * links as real
  {
    var pairs := k as real * (k - 1) as real;
    assert pairs == (k * (k - 1)) as real && pairs > 0.0;
    HalfQuotient(links as real, pairs, Share(links, k));
  }

  lemma HalfQuotient(l: real, p: real, q: real)
    requires p > 0.0 && q == l / (p / 2.0)
    ensures q * p == 2.0 * l
  {
    assert q * (p / 2.0) == l;
  }

  /** The neighbours taken are the cap smallest. */
  lemma CappedTakesSmallest(s: set<int>, cap: nat)
    ensures var ns := Capped(Orders.Ascend(s), cap);
            && |ns| == (if |s| < cap then |s| else cap)
            && (forall x | x in ns :: x in s)
            && (forall x, y | x in ns && y in s && y !in ns :: x < y)
  {
    var all := Orders.Ascend(s);
    var ns := Capped(all, cap);
    AscendSize(s);
    assert forall i | 0 <= i < |ns| :: ns[i] == all[i] && all[i] in ns;
    forall x, y | x in ns && y in s && y !in ns
      ensures x < y
    {
      var i :| 0 <= i < |ns| && ns[i] == x;
      assert y in all;
      var j :| 0 <= j < |all| && all[j] == y;
    }
  }

  lemma AscendSize(s: set<int>)
    ensures |Orders.Ascend(s)| == |s|
    decreases |s|
  {
    if s != {} {
      AscendSize(s - {Orders.Min(s)});
    }
  }

  /** How many later neighbours are reachable from position index. */
  method CountAhead(out: Peers, inn: Peers, ghost edges: set<Edge>, neighbours: seq<int>, index: nat)
    returns (found: nat)
    requires IsOut(out, edges) && IsIn(inn, edges) && index < |neighbours|
    ensures found == Ahead(edges, neighbours, index, |neighbours|)
  {
    var present := set n | n in neighbours;
    var reachable := (At(out, neighbours[index]) + At(inn, neighbours[index])) * present;
    found := 0;
    for j := index + 1 to |neighbours|
      invariant found == Ahead(edges, neighbours, index, j)
    {
      if neighbours[j] in reachable {
        found := found + 1;
      }
    }
  }

  method CountLinks(out: Peers, inn: Peers, ghost edges: set<Edge>, neighbours: seq<int>) returns (links: nat)
    requires IsOut(out, edges) && IsIn(inn, edges)
    ensures links == Links(edges, neighbours)
  {
    links := 0;
    for index := 0 to |neighbours|
      invariant links == Forward(edges, neighbours, index)
    {
      var found := CountAhead(out, inn, edges, neighbours, index);
      links := links + found;
    }
    ForwardIsLinks(edges, neighbours, |neighbours|);
  }

  /** Online: the first cap neighbours in sorted order, pairs counted from the front. */
  method Clustering(out: Peers, inn: Peers, ghost edges: set<Edge>, host: int, cap: nat) returns (c: real)
    requires IsOut(out, edges) && IsIn(inn, edges)
    ensures c == Coefficient(edges, Capped(Orders.Ascend(Adjacent(edges, host)), cap))
  {
    var neighbours := Orders.Ascend(At(out, host) + At(inn, host));
    if |neighbours| > cap {
      neighbours := neighbours[..cap];
    }
    if |neighbours| < 2 {
      return 0.0;
    }
    var links := CountLinks(out, inn, edges, neighbours);
    c := Share(links, |neighbours|);
  }

  /** Offline: over whichever neighbours were taken, in whatever order. */
  method LocalClustering(out: map<int, Counter>, inn: Peers, edges: seq<Edge>, neighbours: seq<int>) returns (c: real)
    requires IsOutCounts(out, edges) && IsInSets(inn, edges)
    ensures c == Coefficient(EdgeSet(edges), neighbours)
  {
    var k := |neighbours|;
    if k < 2 {
      return 0.0;
    }
    var links := 0;
    for i := 0 to k
      invariant links == Forward(EdgeSet(edges), neighbours, i)
    {
      var ni := CountOf(out, neighbours[i]).Keys + At(inn, neighbours[i]);
      ghost var start := links;
      for j := i + 1 to k
        invariant links == start + Ahead(EdgeSet(edges), neighbours, i, j)
      {
        if neighbours[j] in ni {
          links := links + 1;
        }
      }
    }
    ForwardIsLinks(EdgeSet(edges), neighbours, k);
    c := Share(links, k);
  }

  /** Neighbours after position i and before j that position i is adjacent to. */
  function Ahead(edges: set<Edge>, ns: seq<int>, i: nat, j: nat): nat
    requires i < j <= |ns|
  {
    if j == i + 1 then 0
    else Ahead(edges, ns, i, j - 1) + if ns[j - 1] in Adjacent(edges, ns[i]) then 1 else 0
  }

  function Forward(edges: set<Edge>, ns: seq<int>, i: nat): nat
    requires i <= |ns|
  {
    if i == 0 then 0 else Forward(edges, ns, i - 1) + Ahead(edges, ns, i - 1, |ns|)
  }

  lemma {:induction false} AheadOfPrefix(edges: set<Edge>, ns: seq<int>, i: nat, j: nat)
    requires i < j < |ns|
    ensures Ahead(edges, ns, i, j) == Ahead(edges, ns[..|ns| - 1], i, j)
  {
    if j > i + 1 {
      AheadOfPrefix(edges, ns, i, j - 1);
    }
  }

  lemma {:induction false} ForwardSnoc(edges: set<Edge>, ns: seq<int>, i: nat)
    requires i < |ns|
    ensures Forward(edges, ns, i)
         == Forward(edges, ns[..|ns| - 1], i) + Linked(edges, ns[..|ns| - 1][..i], ns[|ns| - 1])
  {
    if i > 0 {
      var init := ns[..|ns| - 1];
      ForwardSnoc(edges, ns, i - 1);
      AheadOfPrefix(edges, ns, i - 1, |ns| - 1);
      assert init[..i][..i - 1] == init[..i - 1];
    }
  }

  /** Counting forward from each neighbour counts every pair once. */
  lemma {:induction false} ForwardIsLinks(edges: set<Edge>, ns: seq<int>, k: nat)
    requires k == |ns|
    ensures Forward(edges, ns, k) == Links(edges, ns)
  {
    if k > 0 {
      var init := ns[..k - 1];
      ForwardIsLinks(edges, init, k - 1);
      ForwardSnoc(edges, ns, k - 1);
      assert init[..k - 1] == init;
    }
  }

  /** Up to the cap, the sorted online neighbours and any offline listing give one coefficient. */
  lemma ClusteringsAgree(edges: set<Edge>, host: int, cap: nat, listed: seq<int>)
    requires Distinct(listed) && Elements(listed) == Adjacent(edges, host) && |Adjacent(edges, host)| <= cap
    ensures Coefficient(edges, Capped(Orders.Ascend(Adjacent(edges, host)), cap)) == Coefficient(edges, listed)
  {
    var sorted := Orders.Ascend(Adjacent(edges, host));
    assert Elements(sorted) == Adjacent(edges, host);
    DistinctSize(sorted);
    ClusteringIgnoresOrder(edges, sorted, listed);
  }

  // ------------------------------------------------------------ reciprocity

  function Ratio(a: nat, b: nat): real {
    if b == 0 then 0.0 else a as real / b as real
  }

  /** Online: successors that are predecessors too, over successors. */
  function Reciprocity(edges: set<Edge>, h: int): real {
    Ratio(|Succ(edges, h) * Pred(edges, h)|, |Succ(edges, h)|)
  }

  /** Offline: the share of destinations the host is recorded as having sent to. */
  function OfflineReciprocity(edges: set<Edge>, h: int): real {
    Ratio(|set p | p in Succ(edges, h) && h in Pred(edges, p)|, |Succ(edges, h)|)
  }

  /** The value as a share of the destinations, for every host that has any. */
  lemma ReciprocityIsShare(edges: set<Edge>, h: int)
    ensures Reciprocity(edges, h) * |Succ(edges, h)| as real == |Succ(edges, h) * Pred(edges, h)| as real
    ensures Succ(edges, h) == {} ==> Reciprocity(edges, h) == 0.0
  {
    Orders.SubsetSize(Succ(edges, h) * Pred(edges, h), Succ(edges, h));
    if Succ(edges, h) != {} {
      RatioTimes(|Succ(edges, h) * Pred(edges, h)|, |Succ(edges, h)|);
    }
  }

  lemma RatioTimes(a: nat, b: nat)
    requires b > 0
    ensures Ratio(a, b) * b as real == a as real
  {
  }

  /** The offline test asks the edge about itself: it is one for every host that sent anything. */
  lemma OfflineReciprocityIsOne(edges: set<Edge>, h: int)
    ensures OfflineReciprocity(edges, h) == if Succ(edges, h) == {} then 0.0 else 1.0
  {
    var mutual := set p | p in Succ(edges, h) && h in Pred(edges, p);
    forall p | p in Succ(edges, h)
      ensures h in Pred(edges, p)
    {
      InSucc(edges, h, p);
      InPred(edges, p, h);
    }
    assert mutual == Succ(edges, h);
  }

  /** So the two values agree exactly for hosts whose every destination answered. */
  lemma ReciprocityAgreesIff(edges: set<Edge>, h: int)
    ensures Reciprocity(edges, h) == OfflineReciprocity(edges, h) <==> Succ(edges, h) <= Pred(edges, h)
    ensures 0.0 <= Reciprocity(edges, h) <= 1.0
  {
    OfflineReciprocityIsOne(edges, h);
    var out := Succ(edges, h);
    var both := out * Pred(edges, h);
    Orders.SubsetSize(both, out);
    if out != {} {
      RatioIsOneIff(|both|, |out|);
    }
  }

  /** One unanswered packet: offline the sender is fully reciprocated, online not at all. */
  lemma ReciprocityExample()
    ensures Reciprocity({(1, 2)}, 1) == 0.0 && OfflineReciprocity({(1, 2)}, 1) == 1.0
  {
    var edges: set<Edge> := {(1, 2)};
    InSucc(edges, 1, 2);
    OfflineReciprocityIsOne(edges, 1);
    forall s: int
      ensures s !in Pred(edges, 1)
    {
      InPred(edges, 1, s);
    }
    assert Succ(edges, 1) * Pred(edges, 1) == {};
  }

  lemma RatioIsOneIff(a: nat, b: nat)
    requires a <= b && b > 0
    ensures Ratio(a, b) == 1.0 <==> a == b
    ensures 0.0 <= Ratio(a, b) <= 1.0
  {
    var r := Ratio(a, b);
    assert r * b as real == a as real;
  }
}
