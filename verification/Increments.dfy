/** The group-by the window accumulators have to equal, and what it is of the raw events. */
module Increments {
  import opened Options
  import opened Events
  import opened Carried
  import opened Numbers

  /** Whatever it carries, an event counts for exactly one, and names its destination if it has one. */
  lemma EventCountsOnce(e: Event)
    ensures EventCount(EventIncrements(e)) == 1.0
    ensures Peers(EventIncrements(e)) == if e.dst.Some? then {e.dst.value} else {}
  {
    var inc := EventIncrements(e);
    EventCarries(e, NFlows);
    EventCarries(e, NPackets);
    forall ip: int
      ensures ip in Peers(inc) <==> e.dst == Some(ip)
    {
      EventCarries(e, Peer(ip));
      InPeers(inc, ip);
    }
  }

  lemma InPeers(a: Hash, ip: int)
    ensures ip in Peers(a) <==> Peer(ip) in a
  {
    if Peer(ip) in a {
      assert Peer(ip).ip in Peers(a);
    }
  }

  // ---------------------------------------------------------------- group-by

  /** Field-wise sum: what incrementing every field of b on top of a leaves. */
  function Merge(a: Hash, b: Hash): Hash {
    map f | f in a.Keys + b.Keys :: Get(a, f) + Get(b, f)
  }

  /** Epoch seconds floored to a multiple of the window length. */
  function Align(ts: int, delta: int): (w: int)
    requires delta > 0
  {
    ts / delta * delta
  }

  predicate Matches(delta: int, e: Event, host: int, w: int)
    requires delta > 0
  {
    e.src == Some(host) && Align(e.ts, delta) == w
  }

  /** The accumulated hash of every event of one host in one aligned window. */
  function GroupBy(delta: int, events: seq<Event>, host: int, w: int): Hash
    requires delta > 0
  {
    if events == [] then map[]
    else
      var rest := GroupBy(delta, events[..|events| - 1], host, w);
      var e := events[|events| - 1];
      if Matches(delta, e, host, w) then Merge(rest, EventIncrements(e)) else rest
  }

  function Matching(delta: int, events: seq<Event>, host: int, w: int): nat
    requires delta > 0
  {
    if events == [] then 0
    else
      Matching(delta, events[..|events| - 1], host, w)
      + if Matches(delta, events[|events| - 1], host, w) then 1 else 0
  }

  lemma MergeEmpty(a: Hash)
    ensures Merge(a, map[]) == a == Merge(map[], a)
  {
  }

  lemma MergeAssociates(a: Hash, b: Hash, c: Hash)
    ensures Merge(Merge(a, b), c) == Merge(a, Merge(b, c))
  {
    var left, right := Merge(Merge(a, b), c), Merge(a, Merge(b, c));
    assert left.Keys == a.Keys + b.Keys + c.Keys == right.Keys;
    forall f | f in left
      ensures left[f] == right[f]
    {
      assert Get(Merge(a, b), f) == Get(a, f) + Get(b, f);
      assert Get(Merge(b, c), f) == Get(b, f) + Get(c, f);
    }
  }

  lemma MergeCommutes(a: Hash, b: Hash)
    ensures Merge(a, b) == Merge(b, a)
  {
  }

  lemma GetMerge(a: Hash, b: Hash, f: Field)
    ensures Get(Merge(a, b), f) == Get(a, f) + Get(b, f)
  {
  }

  lemma PeersMerge(a: Hash, b: Hash)
    ensures Peers(Merge(a, b)) == Peers(a) + Peers(b)
  {
    forall ip: int
      ensures ip in Peers(Merge(a, b)) <==> ip in Peers(a) + Peers(b)
    {
      InPeers(Merge(a, b), ip);
      InPeers(a, ip);
      InPeers(b, ip);
    }
  }

  lemma GroupBySnoc(delta: int, events: seq<Event>, e: Event, host: int, w: int)
    requires delta > 0
    ensures var g := GroupBy(delta, events, host, w);
            GroupBy(delta, events + [e], host, w) ==
              if Matches(delta, e, host, w) then Merge(g, EventIncrements(e)) else g
  {
    assert (events + [e])[..|events|] == events;
  }

  lemma {:induction false} GroupByConcat(delta: int, a: seq<Event>, b: seq<Event>, host: int, w: int)
    requires delta > 0
    ensures GroupBy(delta, a + b, host, w) == Merge(GroupBy(delta, a, host, w), GroupBy(delta, b, host, w))
    decreases |b|
  {
    var ga, gb := GroupBy(delta, a, host, w), GroupBy(delta, b, host, w);
    if b == [] {
      assert a + b == a;
      MergeEmpty(ga);
    } else {
      var init, e := b[..|b| - 1], b[|b| - 1];
      assert a + b == (a + init) + [e];
      GroupByConcat(delta, a, init, host, w);
      GroupBySnoc(delta, a + init, e, host, w);
      MergeAssociates(ga, GroupBy(delta, init, host, w), EventIncrements(e));
    }
  }

  /** The accumulator of a window does not depend on the order its events came in. */
  lemma {:induction false} GroupByIgnoresOrder(delta: int, p: seq<Event>, q: seq<Event>, host: int, w: int)
    requires delta > 0 && multiset(p) == multiset(q)
    ensures GroupBy(delta, p, host, w) == GroupBy(delta, q, host, w)
    decreases |p|
  {
    assert |multiset(p)| == |p| && |multiset(q)| == |q|;
    if p != [] {
      var init, e := p[..|p| - 1], p[|p| - 1];
      assert p == init + [e];
      assert e in multiset(q);
      var i :| 0 <= i < |q| && q[i] == e;
      var before, after := q[..i], q[i + 1..];
      assert q == before + [e] + after;
      WithoutOne(init, e, before, after);
      GroupByIgnoresOrder(delta, init, before + after, host, w);
      GroupByMoves(delta, before, e, after, host, w);
    }
  }

  lemma WithoutOne(init: seq<Event>, e: Event, before: seq<Event>, after: seq<Event>)
    requires multiset(init + [e]) == multiset(before + [e] + after)
    ensures multiset(init) == multiset(before + after)
  {
    assert multiset(init + [e]) == multiset(init) + multiset{e};
    assert multiset(before + [e] + after) == multiset(before) + multiset{e} + multiset(after);
    assert multiset(before + after) == multiset(before) + multiset(after);
    assert multiset(init) == multiset(init) + multiset{e} - multiset{e};
    assert multiset(before) + multiset(after) == multiset(before) + multiset{e} + multiset(after) - multiset{e};
  }

  lemma GroupByMoves(delta: int, before: seq<Event>, e: Event, after: seq<Event>, host: int, w: int)
    requires delta > 0
    ensures GroupBy(delta, before + [e] + after, host, w) == GroupBy(delta, before + after + [e], host, w)
  {
    var gb, ge, ga := GroupBy(delta, before, host, w), GroupBy(delta, [e], host, w), GroupBy(delta, after, host, w);
    GroupByConcat(delta, before + [e], after, host, w);
    GroupByConcat(delta, before, [e], host, w);
    GroupByConcat(delta, before + after, [e], host, w);
    GroupByConcat(delta, before, after, host, w);
    MergeAssociates(gb, ge, ga);
    MergeAssociates(gb, ga, ge);
    MergeCommutes(ge, ga);
  }

  /** The event count of an accumulator is the number of events folded into it. */
  lemma {:induction false} CountIsNumber(delta: int, events: seq<Event>, host: int, w: int)
    requires delta > 0
    ensures EventCount(GroupBy(delta, events, host, w)) == Matching(delta, events, host, w) as real
  {
    if events != [] {
      var init, e := events[..|events| - 1], events[|events| - 1];
      CountIsNumber(delta, init, host, w);
      EventCountsOnce(e);
      GetMerge(GroupBy(delta, init, host, w), EventIncrements(e), NFlows);
      GetMerge(GroupBy(delta, init, host, w), EventIncrements(e), NPackets);
    }
  }

  lemma {:induction false} MatchingConcat(delta: int, a: seq<Event>, b: seq<Event>, host: int, w: int)
    requires delta > 0
    ensures Matching(delta, a + b, host, w) == Matching(delta, a, host, w) + Matching(delta, b, host, w)
    decreases |b|
  {
    if b == [] {
      assert a + b == a;
    } else {
      assert (a + b)[..|a + b| - 1] == a + b[..|b| - 1];
      MatchingConcat(delta, a, b[..|b| - 1], host, w);
    }
  }

  lemma {:induction false} NothingMatches(delta: int, events: seq<Event>, host: int, w: int)
    requires delta > 0 && forall e | e in events :: !Matches(delta, e, host, w)
    ensures GroupBy(delta, events, host, w) == map[]
    ensures Matching(delta, events, host, w) == 0
  {
    if events != [] {
      NothingMatches(delta, events[..|events| - 1], host, w);
    }
  }

  lemma {:induction false} SomethingMatches(delta: int, events: seq<Event>, host: int, w: int, e: Event)
    requires delta > 0 && e in events && Matches(delta, e, host, w)
    ensures Matching(delta, events, host, w) > 0
  {
    if events[|events| - 1] != e {
      assert e in events[..|events| - 1];
      SomethingMatches(delta, events[..|events| - 1], host, w, e);
    }
  }

  // ------------------------------------------------ what the group-by is of

  /** Sent by the host in the window that starts at w. */
  predicate SentIn(delta: int, e: Event, host: int, w: int)
    requires delta > 0
  {
    e.src == Some(host) && w % delta == 0 && w <= e.ts < w + delta
  }

  /** The sum, over the host's events of the window, of what each carries of the field. */
  ghost function CarriedSum(delta: int, events: seq<Event>, host: int, w: int, f: Field): real
    requires delta > 0
  {
    if events == [] then 0.0
    else
      var e := events[|events| - 1];
      CarriedSum(delta, events[..|events| - 1], host, w, f) + if SentIn(delta, e, host, w) then Carries(e, f) else 0.0
  }

  lemma AlignIs(ts: int, delta: int, w: int)
    requires delta > 0
    ensures Align(ts, delta) == w <==> w % delta == 0 && w <= ts < w + delta
  {
    var q := ts / delta;
    assert ts == q * delta + ts % delta;
    MultipleRemainder(q, delta);
    if w % delta == 0 && w <= ts < w + delta {
      assert w == w / delta * delta;
      SmallMultiple(w / delta - q, delta);
    }
  }

  /** For every event list, host, window and field: the accumulator holds the sum of what the events carry. */
  lemma {:induction false} GroupByIsSum(delta: int, events: seq<Event>, host: int, w: int, f: Field)
    requires delta > 0
    ensures Get(GroupBy(delta, events, host, w), f) == CarriedSum(delta, events, host, w, f)
  {
    if events != [] {
      var init, e := events[..|events| - 1], events[|events| - 1];
      GroupByIsSum(delta, init, host, w, f);
      AlignIs(e.ts, delta, w);
      EventCarries(e, f);
      GetMerge(GroupBy(delta, init, host, w), EventIncrements(e), f);
    }
  }
}
