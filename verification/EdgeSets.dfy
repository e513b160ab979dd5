/** A window's communication graph: the set of (source, destination) pairs. */
module EdgeSets {
  type Edge = (int, int)

  function Succ(edges: set<Edge>, h: int): set<int> {
    set e | e in edges && e.0 == h :: e.1
  }

  function Pred(edges: set<Edge>, h: int): set<int> {
    set e | e in edges && e.1 == h :: e.0
  }

  lemma InSucc(edges: set<Edge>, h: int, d: int)
    ensures d in Succ(edges, h) <==> (h, d) in edges
  {
    if (h, d) in edges {
      assert (h, d).1 in Succ(edges, h);
    }
  }

  lemma InPred(edges: set<Edge>, h: int, s: int)
    ensures s in Pred(edges, h) <==> (s, h) in edges
  {
    if (s, h) in edges {
      assert (s, h).0 in Pred(edges, h);
    }
  }
}
