/** Inside a window the order of events does not matter, to the state or to any row published later. */
module Reordering {
  import opened Options
  import opened Events
  import opened Increments
  import opened Features
  import Timeline

  lemma MergeSwaps(x: Hash, a: Hash, b: Hash)
    ensures Merge(Merge(x, a), b) == Merge(Merge(x, b), a)
  {
    MergeAssociates(x, a, b);
    MergeAssociates(x, b, a);
    MergeCommutes(a, b);
  }

  lemma PutTwice<K, V>(m: map<K, V>, k: K, a: V, l: K, b: V)
    requires k != l
    ensures m[k := a][l := b] == m[l := b][k := a]
  {
  }

  lemma PutOver<K, V>(m: map<K, V>, k: K, a: V, b: V)
    ensures m[k := a][k := b] == m[k := b]
  {
  }

  lemma WinsSwap(s: State, w: int, ia: Hash, da: Option<int>, ha: int, ib: Hash, db: Option<int>, hb: int,
                 t1: real, t2: real)
    ensures Fold(Fold(s, ia, da, ha, w, t1), ib, db, hb, w, t2).wins
         == Fold(Fold(s, ib, db, hb, w, t1), ia, da, ha, w, t2).wins
  {
    var x, y := WinAt(s, ha, w), WinAt(s, hb, w);
    if ha == hb {
      PutOver(s.wins, (ha, w), Merge(x, ia), Merge(Merge(x, ia), ib));
      PutOver(s.wins, (ha, w), Merge(x, ib), Merge(Merge(x, ib), ia));
      MergeSwaps(x, ia, ib);
    } else {
      PutTwice(s.wins, (ha, w), Merge(x, ia), (hb, w), Merge(y, ib));
    }
  }

  lemma HostsSwap(s: State, w: int, ia: Hash, da: Option<int>, ha: int, ib: Hash, db: Option<int>, hb: int,
                  t1: real, t2: real)
    ensures Fold(Fold(s, ia, da, ha, w, t1), ib, db, hb, w, t2).hosts
         == Fold(Fold(s, ib, db, hb, w, t1), ia, da, ha, w, t2).hosts
  {
    var x := HostsAt(s, w);
    PutOver(s.hosts, w, x + {ha}, x + {ha} + {hb});
    PutOver(s.hosts, w, x + {hb}, x + {hb} + {ha});
    assert x + {ha} + {hb} == x + {hb} + {ha};
  }

  lemma GraphSwap(s: State, w: int, ia: Hash, da: Option<int>, ha: int, ib: Hash, db: Option<int>, hb: int,
                  t1: real, t2: real)
    ensures Fold(Fold(s, ia, da, ha, w, t1), ib, db, hb, w, t2).graph
         == Fold(Fold(s, ib, db, hb, w, t1), ia, da, ha, w, t2).graph
  {
    if da.Some? && db.Some? {
      var x := GraphAt(s, w);
      var a, b := {(ha, da.value)}, {(hb, db.value)};
      PutOver(s.graph, w, x + a, x + a + b);
      PutOver(s.graph, w, x + b, x + b + a);
      assert x + a + b == x + b + a;
    }
  }

  lemma FoldSwaps(s: State, w: int, ia: Hash, da: Option<int>, ha: int, ib: Hash, db: Option<int>, hb: int,
                  t1: real, t2: real)
    ensures Fold(Fold(s, ia, da, ha, w, t1), ib, db, hb, w, t2)
         == Fold(Fold(s, ib, db, hb, w, t1), ia, da, ha, w, t2)
  {
    WinsSwap(s, w, ia, da, ha, ib, db, hb, t1, t2);
    HostsSwap(s, w, ia, da, ha, ib, db, hb, t1, t2);
    GraphSwap(s, w, ia, da, ha, ib, db, hb, t1, t2);
  }

  /** Two events of one window, taken in either order at the same two instants. */
  predicate Swappable(cfg: Config, a: Event, b: Event)
    requires cfg.delta > 0
  {
    a.src.Some? && b.src.Some? && Align(a.ts, cfg.delta) == Align(b.ts, cfg.delta)
  }

  function Both(cfg: Config, s: State, a: Event, b: Event, t1: real, t2: real): (State, seq<Row>)
    requires cfg.delta > 0
  {
    var (s1, r1) := Step(cfg, s, Ingest(a, t1));
    var (s2, r2) := Step(cfg, s1, Ingest(b, t2));
    (s2, r1 + r2)
  }

  lemma SecondJoins(cfg: Config, s: State, a: Event, b: Event, t1: real, t2: real)
    requires cfg.delta > 0 && Swappable(cfg, a, b)
    ensures var c := Closing(cfg, s, Ingest(a, t1));
            var w := Align(a.ts, cfg.delta);
            Both(cfg, s, a, b, t1, t2) ==
              if Accepts(cfg, s, a)
              then (Accumulate(Accumulate(c.0, a, a.src.value, w, t1), b, b.src.value, w, t2), c.1)
              else (s, [])
  {
    var c := Closing(cfg, s, Ingest(a, t1));
    assert c.1 + [] == c.1;
    if Accepts(cfg, s, a) {
      var s1 := Accumulate(c.0, a, a.src.value, Align(a.ts, cfg.delta), t1);
      assert s1.current == Some(Open(Align(a.ts, cfg.delta), t1));
      assert Accepts(cfg, s1, b) && Closing(cfg, s1, Ingest(b, t2)) == (s1, []);
    }
  }

  lemma BothSwap(cfg: Config, s: State, a: Event, b: Event, t1: real, t2: real)
    requires cfg.delta > 0 && Swappable(cfg, a, b)
    ensures Both(cfg, s, a, b, t1, t2) == Both(cfg, s, b, a, t1, t2)
  {
    SecondJoins(cfg, s, a, b, t1, t2);
    SecondJoins(cfg, s, b, a, t1, t2);
    var c := Closing(cfg, s, Ingest(a, t1));
    assert c == Closing(cfg, s, Ingest(b, t1));
    FoldSwaps(c.0, Align(a.ts, cfg.delta), EventIncrements(a), a.dst, a.src.value,
              EventIncrements(b), b.dst, b.src.value, t1, t2);
  }

  lemma RunSnoc(cfg: Config, init: seq<Action>, a: Action)
    requires cfg.delta > 0
    ensures var e := Step(cfg, Run(cfg, init).0, a);
            Run(cfg, init + [a]) == (e.0, Run(cfg, init).1 + e.1)
  {
    assert (init + [a])[..|init|] == init;
  }

  lemma RunBoth(cfg: Config, init: seq<Action>, a: Event, b: Event, t1: real, t2: real)
    requires cfg.delta > 0
    ensures var e := Both(cfg, Run(cfg, init).0, a, b, t1, t2);
            Run(cfg, init + [Ingest(a, t1)] + [Ingest(b, t2)]) == (e.0, Run(cfg, init).1 + e.1)
  {
    RunSnoc(cfg, init, Ingest(a, t1));
    RunSnoc(cfg, init + [Ingest(a, t1)], Ingest(b, t2));
    var (s, rows) := Run(cfg, init);
    var (s1, r1) := Step(cfg, s, Ingest(a, t1));
    var r2 := Step(cfg, s1, Ingest(b, t2)).1;
    Timeline.Regroup(rows, r1, r2, r1 + r2);
  }

  function Continue(cfg: Config, r: (State, seq<Row>), a: Action): (State, seq<Row>)
    requires cfg.delta > 0
  {
    var e := Step(cfg, r.0, a);
    (e.0, r.1 + e.1)
  }

  function RunOn(cfg: Config, r: (State, seq<Row>), tail: seq<Action>): (State, seq<Row>)
    requires cfg.delta > 0
    decreases |tail|
  {
    if tail == [] then r else RunOn(cfg, Continue(cfg, r, tail[0]), tail[1..])
  }

  lemma {:induction false} RunSplits(cfg: Config, p: seq<Action>, tail: seq<Action>)
    requires cfg.delta > 0
    ensures Run(cfg, p + tail) == RunOn(cfg, Run(cfg, p), tail)
    decreases |tail|
  {
    if tail == [] {
      assert p + tail == p;
    } else {
      RunSnoc(cfg, p, tail[0]);
      RunSplits(cfg, p + [tail[0]], tail[1..]);
      assert p + [tail[0]] + tail[1..] == p + tail;
    }
  }

  /** Exchanging two neighbouring events of one window changes no state and no row of the run. */
  lemma OrderInsideWindowIsIrrelevant(cfg: Config, before: seq<Action>, a: Event, b: Event, t1: real, t2: real,
                                      after: seq<Action>)
    requires cfg.delta > 0 && Swappable(cfg, a, b)
    ensures Run(cfg, before + [Ingest(a, t1)] + [Ingest(b, t2)] + after)
         == Run(cfg, before + [Ingest(b, t1)] + [Ingest(a, t2)] + after)
  {
    RunBoth(cfg, before, a, b, t1, t2);
    RunBoth(cfg, before, b, a, t1, t2);
    BothSwap(cfg, Run(cfg, before).0, a, b, t1, t2);
    RunSplits(cfg, before + [Ingest(a, t1)] + [Ingest(b, t2)], after);
    RunSplits(cfg, before + [Ingest(b, t1)] + [Ingest(a, t2)], after);
  }
}
