/**
 * Re-entry said about events: which incoming event makes the published rows stop
 * being the group-by of what was published.
 */
module Reentry {
  import opened Options
  import opened Events
  import opened Increments
  import opened Features
  import opened WindowTotals

  function ClosedKeys(delta: int, closed: seq<Segment>): set<(int, int)>
    requires delta > 0
  {
    KeysIn(ClosedEntries(delta, closed))
  }

  function KeysOf(delta: int, events: seq<Event>): set<(int, int)>
    requires delta > 0
  {
    set e | e in events && e.src.Some? :: KeyOf(delta, e)
  }

  /** The n-th action brings an accepted event for a host and window that already has a row. */
  predicate Reenters(cfg: Config, actions: seq<Action>, n: nat)
    requires cfg.delta > 0 && n < |actions|
  {
    var a := actions[n];
    && a.Ingest? && Accepts(cfg, Run(cfg, actions[..n]).0, a.e)
    && KeyOf(cfg.delta, a.e) in ClosedKeys(cfg.delta, LogOf(cfg, actions[..n]).closed)
  }

  /** The window the n-th action left open has been closed since. */
  predicate ClosedSince(cfg: Config, actions: seq<Action>, n: nat)
    requires cfg.delta > 0 && n < |actions|
  {
    |LogOf(cfg, actions[..n + 1]).closed| < |LogOf(cfg, actions).closed|
  }

  function ReenterFlags(cfg: Config, actions: seq<Action>): seq<bool>
    requires cfg.delta > 0
  {
    seq(|actions|, n requires 0 <= n < |actions| => Reenters(cfg, actions, n))
  }

  function ClosedFlags(cfg: Config, actions: seq<Action>): seq<bool>
    requires cfg.delta > 0
  {
    seq(|actions|, n requires 0 <= n < |actions| => ClosedSince(cfg, actions, n))
  }

  predicate NoneBoth(r: seq<bool>, c: seq<bool>) {
    |r| == |c| && forall n | 0 <= n < |r| && r[n] :: !c[n]
  }

  predicate SomeFirstOnly(r: seq<bool>, c: seq<bool>) {
    |r| == |c| && exists n | 0 <= n < |r| :: r[n] && !c[n]
  }

  /** No event came back to a published host and window, except into a window that is still open. */
  predicate NoPublishedReentry(cfg: Config, actions: seq<Action>)
    requires cfg.delta > 0
  {
    NoneBoth(ReenterFlags(cfg, actions), ClosedFlags(cfg, actions))
  }

  /** Some event of the open window has a key that already has a row. */
  predicate OpenReentry(cfg: Config, actions: seq<Action>)
    requires cfg.delta > 0
  {
    SomeFirstOnly(ReenterFlags(cfg, actions), ClosedFlags(cfg, actions))
  }

  lemma LogSnoc(cfg: Config, init: seq<Action>, a: Action)
    requires cfg.delta > 0
    ensures LogOf(cfg, init + [a]) == LogStep(cfg, LogOf(cfg, init), a)
  {
    assert (init + [a])[..|init|] == init;
  }

  lemma {:induction false} ClosedGrows(cfg: Config, actions: seq<Action>, n: nat)
    requires cfg.delta > 0 && n <= |actions|
    ensures |LogOf(cfg, actions[..n]).closed| <= |LogOf(cfg, actions).closed|
  {
    if n == |actions| {
      assert actions[..n] == actions;
    } else {
      var init := actions[..|actions| - 1];
      assert actions[..n] == init[..n];
      ClosedGrows(cfg, init, n);
    }
  }

  lemma SamePast(cfg: Config, init: seq<Action>, a: Action, n: nat)
    requires cfg.delta > 0 && n < |init|
    ensures Reenters(cfg, init + [a], n) == Reenters(cfg, init, n)
    ensures LogOf(cfg, (init + [a])[..n + 1]) == LogOf(cfg, init[..n + 1])
  {
    assert (init + [a])[..n] == init[..n] && (init + [a])[..n + 1] == init[..n + 1];
  }

  lemma LastAction(cfg: Config, init: seq<Action>, a: Action)
    requires cfg.delta > 0
    ensures var actions := init + [a];
            && !ClosedSince(cfg, actions, |init|)
            && (Reenters(cfg, actions, |init|) <==>
                  a.Ingest? && Accepts(cfg, Run(cfg, init).0, a.e)
                  && KeyOf(cfg.delta, a.e) in ClosedKeys(cfg.delta, LogOf(cfg, init).closed))
  {
    var actions := init + [a];
    assert actions[..|init|] == init && actions[..|init| + 1] == actions;
  }

  lemma FlagsSnoc(cfg: Config, init: seq<Action>, a: Action)
    requires cfg.delta > 0
    ensures ReenterFlags(cfg, init + [a]) == ReenterFlags(cfg, init) + [Reenters(cfg, init + [a], |init|)]
  {
    forall n: nat | n < |init|
      ensures Reenters(cfg, init + [a], n) == Reenters(cfg, init, n)
    {
      SamePast(cfg, init, a, n);
    }
  }

  lemma ClosedFlagsQuiet(cfg: Config, init: seq<Action>, a: Action)
    requires cfg.delta > 0 && |LogOf(cfg, init + [a]).closed| == |LogOf(cfg, init).closed|
    ensures ClosedFlags(cfg, init + [a]) == ClosedFlags(cfg, init) + [false]
  {
    LastAction(cfg, init, a);
    forall n: nat | n < |init|
      ensures ClosedSince(cfg, init + [a], n) == ClosedSince(cfg, init, n)
    {
      SamePast(cfg, init, a, n);
    }
  }

  lemma ClosedFlagsClosing(cfg: Config, init: seq<Action>, a: Action)
    requires cfg.delta > 0 && |LogOf(cfg, init + [a]).closed| > |LogOf(cfg, init).closed|
    ensures ClosedFlags(cfg, init + [a]) == seq(|init|, _ => true) + [false]
  {
    LastAction(cfg, init, a);
    forall n: nat | n < |init|
      ensures ClosedSince(cfg, init + [a], n)
    {
      SamePast(cfg, init, a, n);
      ClosedGrows(cfg, init, n + 1);
    }
  }

  lemma FlagsJoin(r: seq<bool>, c: seq<bool>, last: bool)
    requires |r| == |c|
    ensures NoneBoth(r + [last], c + [false]) <==> NoneBoth(r, c)
    ensures SomeFirstOnly(r + [last], c + [false]) <==> SomeFirstOnly(r, c) || last
  {
    var r', c' := r + [last], c + [false];
    assert r'[|r|] == last && c'[|r|] == false;
    assert forall n | 0 <= n < |r| :: r'[n] == r[n] && c'[n] == c[n];
  }

  lemma AllClosed(r: seq<bool>, c: seq<bool>)
    requires |r| == |c|
    ensures NoneBoth(r, seq(|r|, _ => true)) <==> NoneBoth(r, c) && !SomeFirstOnly(r, c)
    ensures !SomeFirstOnly(r, seq(|r|, _ => true))
  {
    var all := seq(|r|, _ => true);
    if NoneBoth(r, all) {
      assert forall n | 0 <= n < |r| :: all[n] && !r[n];
    }
  }

  /** Nothing closes: what was open stays open, and the last event joins it. */
  lemma QuietStep(cfg: Config, init: seq<Action>, a: Action)
    requires cfg.delta > 0 && |LogOf(cfg, init + [a]).closed| == |LogOf(cfg, init).closed|
    ensures NoPublishedReentry(cfg, init + [a]) <==> NoPublishedReentry(cfg, init)
    ensures OpenReentry(cfg, init + [a]) <==> OpenReentry(cfg, init) || Reenters(cfg, init + [a], |init|)
  {
    FlagsSnoc(cfg, init, a);
    ClosedFlagsQuiet(cfg, init, a);
    FlagsJoin(ReenterFlags(cfg, init), ClosedFlags(cfg, init), Reenters(cfg, init + [a], |init|));
  }

  /** A window closes: every earlier event is published, so every earlier re-entry counts. */
  lemma ClosingStep(cfg: Config, init: seq<Action>, a: Action)
    requires cfg.delta > 0 && |LogOf(cfg, init + [a]).closed| > |LogOf(cfg, init).closed|
    ensures NoPublishedReentry(cfg, init + [a]) <==> NoPublishedReentry(cfg, init) && !OpenReentry(cfg, init)
    ensures OpenReentry(cfg, init + [a]) <==> Reenters(cfg, init + [a], |init|)
  {
    FlagsSnoc(cfg, init, a);
    ClosedFlagsClosing(cfg, init, a);
    var r := ReenterFlags(cfg, init);
    FlagsJoin(r, seq(|init|, _ => true), Reenters(cfg, init + [a], |init|));
    assert seq(|r|, _ => true) == seq(|init|, _ => true);
    AllClosed(r, ClosedFlags(cfg, init));
  }

  // ------------------------------------------------------ the log's side

  lemma KeysSnoc(delta: int, events: seq<Event>, e: Event)
    requires delta > 0 && e.src.Some?
    ensures KeysOf(delta, events + [e]) == KeysOf(delta, events) + {KeyOf(delta, e)}
  {
    assert forall x :: x in events + [e] <==> x in events || x == e;
  }

  lemma OpenKeysAreSegmentKeys(delta: int, events: seq<Event>, w: int)
    requires delta > 0 && AllIn(delta, events, w)
    ensures KeysOf(delta, events) == SegmentKeys(delta, Segment(w, events))
    ensures forall k | k in KeysOf(delta, events) :: k.1 == w
  {
    var seg := Segment(w, events);
    forall k | k in KeysOf(delta, events)
      ensures k in SegmentKeys(delta, seg)
    {
      var e :| e in events && e.src.Some? && KeyOf(delta, e) == k;
      EventIsKeyed(delta, seg, e);
    }
    forall k | k in SegmentKeys(delta, seg)
      ensures k in KeysOf(delta, events)
    {
      var e :| e in events && e.src.Some? && Align(e.ts, delta) == w && e.src.value == k.0;
      assert KeyOf(delta, e) == k;
    }
  }

  lemma ClosedKeysSnoc(delta: int, closed: seq<Segment>, seg: Segment)
    requires delta > 0
    ensures ClosedKeys(delta, closed + [seg]) == ClosedKeys(delta, closed) + SegmentKeys(delta, seg)
  {
    ClosedSnoc(delta, closed, seg);
    SegmentEntriesKeys(delta, seg);
    KeysConcat(ClosedEntries(delta, closed), SegmentEntries(delta, seg));
  }

  /** What the two event-level predicates are on the log. */
  ghost predicate Tracks(cfg: Config, log: Log, published: bool, stillOpen: bool)
    requires cfg.delta > 0
  {
    && (published <==> NoReentry(cfg.delta, log.closed))
    && (stillOpen <==> KeysOf(cfg.delta, log.events) * ClosedKeys(cfg.delta, log.closed) != {})
  }

  lemma DisjointIff<T>(a: set<T>, b: set<T>)
    ensures a !! b <==> b * a == {}
  {
    if x :| x in a && x in b {
      assert x in b * a;
    }
  }

  lemma CutTracks(cfg: Config, s: State, log: Log, published: bool, stillOpen: bool)
    requires cfg.delta > 0 && Tied(cfg, s, log) && log.current.Some? && Tracks(cfg, log, published, stillOpen)
    ensures Tracks(cfg, Cut(log), published && !stillOpen, false)
  {
    var w := log.current.value.w;
    OpenKeysAreSegmentKeys(cfg.delta, log.events, w);
    NoReentrySnoc(cfg.delta, log.closed, Segment(w, log.events));
    var open', closed := SegmentKeys(cfg.delta, Segment(w, log.events)), ClosedKeys(cfg.delta, log.closed);
    DisjointIff(closed, open');
    assert KeysOf(cfg.delta, []) == {};
  }

  lemma JoinTracks(cfg: Config, log: Log, e: Event, now: real, published: bool, stillOpen: bool)
    requires cfg.delta > 0 && e.src.Some? && Tracks(cfg, log, published, stillOpen)
    ensures Tracks(cfg, Join(log, Align(e.ts, cfg.delta), e, now), published,
                   stillOpen || KeyOf(cfg.delta, e) in ClosedKeys(cfg.delta, log.closed))
  {
    KeysSnoc(cfg.delta, log.events, e);
    var keys, closed, k := KeysOf(cfg.delta, log.events), ClosedKeys(cfg.delta, log.closed), KeyOf(cfg.delta, e);
    if k in closed {
      assert k in (keys + {k}) * closed;
    } else {
      assert (keys + {k}) * closed == keys * closed;
    }
    if keys * closed != {} {
      var x :| x in keys * closed;
      assert x in (keys + {k}) * closed;
    }
  }

  /** Closing an earlier window does not make the key of a later event a published one. */
  lemma LaterKeyIsNew(cfg: Config, s: State, log: Log, e: Event)
    requires cfg.delta > 0 && Tied(cfg, s, log) && log.current.Some? && e.src.Some?
    requires Align(e.ts, cfg.delta) > log.current.value.w
    ensures KeyOf(cfg.delta, e) in ClosedKeys(cfg.delta, Cut(log).closed)
            <==> KeyOf(cfg.delta, e) in ClosedKeys(cfg.delta, log.closed)
  {
    ClosedKeysSnoc(cfg.delta, log.closed, Segment(log.current.value.w, log.events));
  }

  lemma StepTracks(cfg: Config, init: seq<Action>, a: Action)
    requires cfg.delta > 0
    requires Tracks(cfg, LogOf(cfg, init), NoPublishedReentry(cfg, init), OpenReentry(cfg, init))
    ensures Tracks(cfg, LogOf(cfg, init + [a]), NoPublishedReentry(cfg, init + [a]), OpenReentry(cfg, init + [a]))
  {
    var log, s := LogOf(cfg, init), Run(cfg, init).0;
    var published, stillOpen := NoPublishedReentry(cfg, init), OpenReentry(cfg, init);
    RunIsGroupBySegments(cfg, init);
    LogSnoc(cfg, init, a);
    LogStepJoins(cfg, s, log, a);
    LastAction(cfg, init, a);
    var joins := a.Ingest? && Accepts(cfg, s, a.e);
    if LogClosing(cfg, log, a) == log {
      QuietStep(cfg, init, a);
      if joins {
        JoinTracks(cfg, log, a.e, a.now, published, stillOpen);
      }
    } else {
      ClosingStep(cfg, init, a);
      CutTracks(cfg, s, log, published, stillOpen);
      if joins {
        LaterKeyIsNew(cfg, s, log, a.e);
        JoinTracks(cfg, Cut(log), a.e, a.now, published && !stillOpen, false);
      }
    }
  }

  lemma {:induction false} ReentryIsOnTheLog(cfg: Config, actions: seq<Action>)
    requires cfg.delta > 0
    ensures Tracks(cfg, LogOf(cfg, actions), NoPublishedReentry(cfg, actions), OpenReentry(cfg, actions))
  {
    if actions == [] {
      assert KeysOf(cfg.delta, []) == {};
    } else {
      var init, a := actions[..|actions| - 1], actions[|actions| - 1];
      assert actions == init + [a];
      ReentryIsOnTheLog(cfg, init);
      StepTracks(cfg, init, a);
    }
  }

  /**
   * On every run: the rows published are the group-by table of the events published if and only
   * if no event came back to a published host and window and was itself published.
   */
  lemma PublishedTableIff(cfg: Config, actions: seq<Action>)
    requires cfg.delta > 0
    ensures IsGroupByTable(cfg.delta, Entries(Run(cfg, actions).1), ClosedEvents(LogOf(cfg, actions).closed))
            <==> NoPublishedReentry(cfg, actions)
  {
    ReentryIsOnTheLog(cfg, actions);
    RowsAreGroupByIff(cfg, actions);
  }
}
