/**
 * What the published rows add up to: conservation on every run, and the exact
 * condition under which the rows are the group-by of the accepted stream.
 */
module WindowTotals {
  import opened Options
  import opened Events
  import opened Increments
  import opened Features
  import Orders

  // ----------------------------------------------------------- conservation

  function Part(en: Entry, host: int, w: int, f: Field): real {
    if en.host == host && en.ts == w then Get(en.acc, f) else 0.0
  }

  /** The published total of one field over the rows of one key. */
  function Total(es: seq<Entry>, host: int, w: int, f: Field): real {
    if es == [] then 0.0 else Total(es[..|es| - 1], host, w, f) + Part(es[|es| - 1], host, w, f)
  }

  lemma {:induction false} TotalConcat(a: seq<Entry>, b: seq<Entry>, host: int, w: int, f: Field)
    ensures Total(a + b, host, w, f) == Total(a, host, w, f) + Total(b, host, w, f)
    decreases |b|
  {
    if b == [] {
      assert a + b == a;
    } else {
      assert (a + b)[..|a + b| - 1] == a + b[..|b| - 1];
      TotalConcat(a, b[..|b| - 1], host, w, f);
    }
  }

  lemma {:induction false} TotalOfDistinctHosts(es: seq<Entry>, host: int, w: int, f: Field)
    requires forall i, j | 0 <= i < j < |es| :: es[i].host != es[j].host
    ensures (forall en | en in es :: en.host != host || en.ts != w) ==> Total(es, host, w, f) == 0.0
    ensures forall en | en in es && en.host == host && en.ts == w :: Total(es, host, w, f) == Get(en.acc, f)
  {
    if es != [] {
      var init, last := es[..|es| - 1], es[|es| - 1];
      TotalOfDistinctHosts(init, host, w, f);
      assert es == init + [last];
      assert forall en | en in init :: en.host != last.host;
    }
  }

  lemma SegmentTotal(delta: int, seg: Segment, host: int, w: int, f: Field)
    requires delta > 0 && AllIn(delta, seg.events, seg.w)
    ensures Total(SegmentEntries(delta, seg), host, w, f) == Get(GroupBy(delta, seg.events, host, w), f)
  {
    var es := SegmentEntries(delta, seg);
    var hosts := Orders.Ascend(Sources(delta, seg.events, seg.w));
    TotalOfDistinctHosts(es, host, w, f);
    if w != seg.w {
      OtherWindow(delta, seg.events, host, seg.w, w);
    } else if host in hosts {
      var i :| 0 <= i < |hosts| && hosts[i] == host;
      assert es[i] in es && es[i].host == host;
    } else {
      NoSource(delta, seg.events, host, w);
    }
  }

  lemma {:induction false} ClosedTotal(delta: int, closed: seq<Segment>, host: int, w: int, f: Field)
    requires delta > 0 && WellCut(delta, closed)
    ensures Total(ClosedEntries(delta, closed), host, w, f) == Get(GroupBy(delta, ClosedEvents(closed), host, w), f)
  {
    if closed != [] {
      var init, seg := closed[..|closed| - 1], closed[|closed| - 1];
      ClosedTotal(delta, init, host, w, f);
      SegmentTotal(delta, seg, host, w, f);
      TotalConcat(ClosedEntries(delta, init), SegmentEntries(delta, seg), host, w, f);
      GroupByConcat(delta, ClosedEvents(init), seg.events, host, w);
      GetMerge(GroupBy(delta, ClosedEvents(init), host, w), GroupBy(delta, seg.events, host, w), f);
    }
  }

  /**
   * On every run, whatever the watchdog did: for each host, window and field, what was
   * published plus what the open window still holds is what the accepted events carried.
   */
  lemma Conservation(cfg: Config, actions: seq<Action>, host: int, w: int, f: Field)
    requires cfg.delta > 0
    ensures Total(Entries(Run(cfg, actions).1), host, w, f) + Get(WinAt(Run(cfg, actions).0, host, w), f)
         == Get(GroupBy(cfg.delta, Accepted(cfg, actions), host, w), f)
  {
    var log := LogOf(cfg, actions);
    var s := Run(cfg, actions).0;
    RunIsGroupBySegments(cfg, actions);
    SegmentsAreTheAcceptedStream(cfg, actions);
    ClosedTotal(cfg.delta, log.closed, host, w, f);
    assert WinAt(s, host, w) == GroupBy(cfg.delta, log.events, host, w);
    GroupByConcat(cfg.delta, ClosedEvents(log.closed), log.events, host, w);
    GetMerge(GroupBy(cfg.delta, ClosedEvents(log.closed), host, w), GroupBy(cfg.delta, log.events, host, w), f);
  }

  /** In events rather than fields: each accepted event is counted once, published or still open. */
  lemma EveryEventCountedOnce(cfg: Config, actions: seq<Action>, host: int, w: int)
    requires cfg.delta > 0
    ensures var es := Entries(Run(cfg, actions).1);
            var published := Total(es, host, w, NFlows) + Total(es, host, w, NPackets);
            published + EventCount(WinAt(Run(cfg, actions).0, host, w))
              == Matching(cfg.delta, Accepted(cfg, actions), host, w) as real
  {
    Conservation(cfg, actions, host, w, NFlows);
    Conservation(cfg, actions, host, w, NPackets);
    CountIsNumber(cfg.delta, Accepted(cfg, actions), host, w);
  }

  /** A published row with a window behind it always counts at least one event. */
  lemma ActiveRowsSawEvents(cfg: Config, actions: seq<Action>, en: Entry)
    requires cfg.delta > 0 && en in Entries(Run(cfg, actions).1)
    ensures EventCount(en.acc) >= 1.0
  {
    RunIsGroupBySegments(cfg, actions);
    ClosedEntriesCount(cfg.delta, LogOf(cfg, actions).closed, en);
  }

  lemma SegmentEntryCounts(delta: int, seg: Segment, en: Entry)
    requires delta > 0 && en in SegmentEntries(delta, seg)
    ensures en.ts == seg.w && en.host in Sources(delta, seg.events, seg.w)
    ensures en.acc == GroupBy(delta, seg.events, en.host, en.ts)
    ensures EventCount(en.acc) >= 1.0
  {
    assert en.host in Sources(delta, seg.events, seg.w);
    var e :| e in seg.events && Matches(delta, e, en.host, seg.w);
    SomethingMatches(delta, seg.events, en.host, seg.w, e);
    CountIsNumber(delta, seg.events, en.host, seg.w);
  }

  lemma {:induction false} ClosedEntriesCount(delta: int, closed: seq<Segment>, en: Entry)
    requires delta > 0 && en in ClosedEntries(delta, closed)
    ensures EventCount(en.acc) >= 1.0
  {
    if en in SegmentEntries(delta, closed[|closed| - 1]) {
      SegmentEntryCounts(delta, closed[|closed| - 1], en);
    } else {
      ClosedEntriesCount(delta, closed[..|closed| - 1], en);
    }
  }

  // ------------------------------------------------- re-entry, exactly

  function SegmentKeys(delta: int, seg: Segment): set<(int, int)>
    requires delta > 0
  {
    set h | h in Sources(delta, seg.events, seg.w) :: (h, seg.w)
  }

  lemma InSegmentKeys(delta: int, seg: Segment, host: int)
    requires delta > 0
    ensures (host, seg.w) in SegmentKeys(delta, seg) <==> host in Sources(delta, seg.events, seg.w)
  {
  }

  /** No host comes back to a window it already had a row for. */
  predicate NoReentry(delta: int, closed: seq<Segment>)
    requires delta > 0
  {
    forall i, j | 0 <= i < j < |closed| :: SegmentKeys(delta, closed[i]) !! SegmentKeys(delta, closed[j])
  }

  function KeysIn(es: seq<Entry>): set<(int, int)> {
    set en | en in es :: (en.host, en.ts)
  }

  predicate UniqueKeys(es: seq<Entry>) {
    forall i, j | 0 <= i < j < |es| :: (es[i].host, es[i].ts) != (es[j].host, es[j].ts)
  }

  lemma UniqueConcat(a: seq<Entry>, b: seq<Entry>)
    ensures UniqueKeys(a + b) <==> UniqueKeys(a) && UniqueKeys(b) && KeysIn(a) !! KeysIn(b)
  {
    var c := a + b;
    if UniqueKeys(c) {
      assert forall i | 0 <= i < |a| :: c[i] == a[i];
      assert forall i | 0 <= i < |b| :: c[|a| + i] == b[i];
    }
    if UniqueKeys(a) && UniqueKeys(b) && KeysIn(a) !! KeysIn(b) {
      forall i, j | 0 <= i < j < |c|
        ensures (c[i].host, c[i].ts) != (c[j].host, c[j].ts)
      {
        if i < |a| <= j {
          assert a[i] in a && b[j - |a|] in b;
          assert (a[i].host, a[i].ts) in KeysIn(a) && (b[j - |a|].host, b[j - |a|].ts) in KeysIn(b);
        }
      }
    }
  }

  lemma SegmentEntriesKeys(delta: int, seg: Segment)
    requires delta > 0
    ensures UniqueKeys(SegmentEntries(delta, seg))
    ensures KeysIn(SegmentEntries(delta, seg)) == SegmentKeys(delta, seg)
  {
    var es := SegmentEntries(delta, seg);
    var hosts := Orders.Ascend(Sources(delta, seg.events, seg.w));
    forall k | k in SegmentKeys(delta, seg)
      ensures k in KeysIn(es)
    {
      var i :| 0 <= i < |hosts| && hosts[i] == k.0;
      assert es[i] in es;
    }
  }

  lemma {:induction false} ClosedEntriesKeys(delta: int, closed: seq<Segment>, k: (int, int))
    requires delta > 0
    ensures k in KeysIn(ClosedEntries(delta, closed)) <==>
              exists i :: 0 <= i < |closed| && k in SegmentKeys(delta, closed[i])
  {
    if closed != [] {
      var init, seg := closed[..|closed| - 1], closed[|closed| - 1];
      ClosedEntriesKeys(delta, init, k);
      SegmentEntriesKeys(delta, seg);
      KeysConcat(ClosedEntries(delta, init), SegmentEntries(delta, seg));
      assert forall i | 0 <= i < |init| :: closed[i] == init[i];
    }
  }

  lemma KeysConcat(a: seq<Entry>, b: seq<Entry>)
    ensures KeysIn(a + b) == KeysIn(a) + KeysIn(b)
  {
    assert forall en :: en in a + b <==> en in a || en in b;
  }

  lemma NoReentrySnoc(delta: int, init: seq<Segment>, seg: Segment)
    requires delta > 0
    ensures NoReentry(delta, init + [seg]) <==>
              NoReentry(delta, init) && KeysIn(ClosedEntries(delta, init)) !! SegmentKeys(delta, seg)
  {
    var closed := init + [seg];
    assert forall i | 0 <= i < |init| :: closed[i] == init[i];
    assert closed[|init|] == seg;
    forall k: (int, int)
      ensures k in KeysIn(ClosedEntries(delta, init)) <==>
                exists i :: 0 <= i < |init| && k in SegmentKeys(delta, init[i])
    {
      ClosedEntriesKeys(delta, init, k);
    }
    if NoReentry(delta, init) && KeysIn(ClosedEntries(delta, init)) !! SegmentKeys(delta, seg) {
      forall i, j | 0 <= i < j < |closed|
        ensures SegmentKeys(delta, closed[i]) !! SegmentKeys(delta, closed[j])
      {
        if j == |init| {
          assert forall k | k in SegmentKeys(delta, init[i]) :: k in KeysIn(ClosedEntries(delta, init));
        }
      }
    }
  }

  /** One active row per host and window, exactly when no host re-enters a closed window. */
  lemma {:induction false} KeysAreUniqueIff(delta: int, closed: seq<Segment>)
    requires delta > 0
    ensures UniqueKeys(ClosedEntries(delta, closed)) <==> NoReentry(delta, closed)
  {
    if closed != [] {
      var init, seg := closed[..|closed| - 1], closed[|closed| - 1];
      assert closed == init + [seg];
      KeysAreUniqueIff(delta, init);
      SegmentEntriesKeys(delta, seg);
      UniqueConcat(ClosedEntries(delta, init), SegmentEntries(delta, seg));
      NoReentrySnoc(delta, init, seg);
    }
  }

  lemma RowKeysAreUniqueIff(cfg: Config, actions: seq<Action>)
    requires cfg.delta > 0
    ensures UniqueKeys(Entries(Run(cfg, actions).1)) <==> NoReentry(cfg.delta, LogOf(cfg, actions).closed)
  {
    RunIsGroupBySegments(cfg, actions);
    KeysAreUniqueIff(cfg.delta, LogOf(cfg, actions).closed);
  }

  /** Every active row holds the group-by of all published events of its key. */
  predicate IsGroupBy(delta: int, es: seq<Entry>, events: seq<Event>)
    requires delta > 0
  {
    forall en | en in es :: en.acc == GroupBy(delta, events, en.host, en.ts)
  }

  lemma {:induction false} MatchesElsewhere(delta: int, closed: seq<Segment>, i: nat, host: int, w: int)
    requires delta > 0 && i < |closed|
    ensures Matching(delta, ClosedEvents(closed), host, w) >= Matching(delta, closed[i].events, host, w)
    ensures forall j | 0 <= j < |closed| && j != i ::
              Matching(delta, ClosedEvents(closed), host, w)
              >= Matching(delta, closed[i].events, host, w) + Matching(delta, closed[j].events, host, w)
  {
    var init, seg := closed[..|closed| - 1], closed[|closed| - 1];
    MatchingConcat(delta, ClosedEvents(init), seg.events, host, w);
    if i < |init| {
      MatchesElsewhere(delta, init, i, host, w);
    } else {
      forall j | 0 <= j < |init|
        ensures Matching(delta, ClosedEvents(init), host, w) >= Matching(delta, closed[j].events, host, w)
      {
        MatchesElsewhere(delta, init, j, host, w);
      }
    }
  }

  lemma {:induction false} OnlyOneMatches(delta: int, closed: seq<Segment>, i: nat, host: int, w: int)
    requires delta > 0 && WellCut(delta, closed) && i < |closed| && closed[i].w == w
    requires forall j | 0 <= j < |closed| && j != i :: (host, w) !in SegmentKeys(delta, closed[j])
    ensures GroupBy(delta, ClosedEvents(closed), host, w) == GroupBy(delta, closed[i].events, host, w)
  {
    var init, seg := closed[..|closed| - 1], closed[|closed| - 1];
    GroupByConcat(delta, ClosedEvents(init), seg.events, host, w);
    if i < |init| {
      OnlyOneMatches(delta, init, i, host, w);
      NotAKey(delta, seg, host, w);
      MergeEmpty(GroupBy(delta, init[i].events, host, w));
    } else {
      NoneMatches(delta, init, host, w);
      MergeEmpty(GroupBy(delta, seg.events, host, w));
    }
  }

  lemma NotAKey(delta: int, seg: Segment, host: int, w: int)
    requires delta > 0 && AllIn(delta, seg.events, seg.w) && (host, w) !in SegmentKeys(delta, seg)
    ensures GroupBy(delta, seg.events, host, w) == map[]
  {
    if w == seg.w {
      assert host !in Sources(delta, seg.events, w) by {
        assert forall h | h in Sources(delta, seg.events, seg.w) :: (h, seg.w) in SegmentKeys(delta, seg);
      }
      NoSource(delta, seg.events, host, w);
    } else {
      OtherWindow(delta, seg.events, host, seg.w, w);
    }
  }

  lemma {:induction false} NoneMatches(delta: int, closed: seq<Segment>, host: int, w: int)
    requires delta > 0 && WellCut(delta, closed)
    requires forall j | 0 <= j < |closed| :: (host, w) !in SegmentKeys(delta, closed[j])
    ensures GroupBy(delta, ClosedEvents(closed), host, w) == map[]
  {
    if closed != [] {
      var init, seg := closed[..|closed| - 1], closed[|closed| - 1];
      NoneMatches(delta, init, host, w);
      NotAKey(delta, seg, host, w);
      GroupByConcat(delta, ClosedEvents(init), seg.events, host, w);
      MergeEmpty(map[]);
    }
  }

  lemma {:induction false} EntryHasSegment(delta: int, closed: seq<Segment>, en: Entry) returns (i: nat)
    requires delta > 0 && en in ClosedEntries(delta, closed)
    ensures i < |closed| && en in SegmentEntries(delta, closed[i])
  {
    i := |closed| - 1;
    if en !in SegmentEntries(delta, closed[i]) {
      i := EntryHasSegment(delta, closed[..i], en);
    }
  }

  lemma {:induction false} SegmentEntryIsClosed(delta: int, closed: seq<Segment>, i: nat, en: Entry)
    requires delta > 0 && i < |closed| && en in SegmentEntries(delta, closed[i])
    ensures en in ClosedEntries(delta, closed)
  {
    if i < |closed| - 1 {
      SegmentEntryIsClosed(delta, closed[..|closed| - 1], i, en);
    }
  }

  lemma NoReentryGivesGroupBy(delta: int, closed: seq<Segment>, en: Entry)
    requires delta > 0 && WellCut(delta, closed) && NoReentry(delta, closed) && en in ClosedEntries(delta, closed)
    ensures en.acc == GroupBy(delta, ClosedEvents(closed), en.host, en.ts)
  {
    var i := EntryHasSegment(delta, closed, en);
    SegmentEntryCounts(delta, closed[i], en);
    var k := (en.host, en.ts);
    assert k in SegmentKeys(delta, closed[i]);
    forall j | 0 <= j < |closed| && j != i
      ensures k !in SegmentKeys(delta, closed[j])
    {
      if j < i {
        assert SegmentKeys(delta, closed[j]) !! SegmentKeys(delta, closed[i]);
      } else {
        assert SegmentKeys(delta, closed[i]) !! SegmentKeys(delta, closed[j]);
      }
    }
    OnlyOneMatches(delta, closed, i, en.host, en.ts);
  }

  lemma KeyHasEntry(delta: int, seg: Segment, host: int) returns (en: Entry)
    requires delta > 0 && (host, seg.w) in SegmentKeys(delta, seg)
    ensures en in SegmentEntries(delta, seg) && en.host == host && en.ts == seg.w
  {
    SegmentEntriesKeys(delta, seg);
    en :| en in SegmentEntries(delta, seg) && (en.host, en.ts) == (host, seg.w);
  }

  lemma KeyMatches(delta: int, seg: Segment, host: int)
    requires delta > 0 && (host, seg.w) in SegmentKeys(delta, seg)
    ensures Matching(delta, seg.events, host, seg.w) > 0
  {
    var e :| e in seg.events && Matches(delta, e, host, seg.w);
    SomethingMatches(delta, seg.events, host, seg.w, e);
  }

  /** A re-entered window has a row that misses some of its events. */
  lemma ReentryBreaksGroupBy(delta: int, closed: seq<Segment>, i: nat, j: nat, k: (int, int))
    requires delta > 0 && i < j < |closed|
    requires k in SegmentKeys(delta, closed[i]) && k in SegmentKeys(delta, closed[j])
    ensures !IsGroupBy(delta, ClosedEntries(delta, closed), ClosedEvents(closed))
  {
    var en := KeyHasEntry(delta, closed[i], k.0);
    SegmentEntryIsClosed(delta, closed, i, en);
    SegmentEntryCounts(delta, closed[i], en);
    KeyMatches(delta, closed[j], k.0);
    MatchesElsewhere(delta, closed, i, k.0, k.1);
    CountIsNumber(delta, closed[i].events, k.0, k.1);
    CountIsNumber(delta, ClosedEvents(closed), k.0, k.1);
  }

  lemma GroupByIff(delta: int, closed: seq<Segment>)
    requires delta > 0 && WellCut(delta, closed)
    ensures IsGroupBy(delta, ClosedEntries(delta, closed), ClosedEvents(closed)) <==> NoReentry(delta, closed)
  {
    if NoReentry(delta, closed) {
      forall en | en in ClosedEntries(delta, closed)
        ensures en.acc == GroupBy(delta, ClosedEvents(closed), en.host, en.ts)
      {
        NoReentryGivesGroupBy(delta, closed, en);
      }
    } else {
      var i, j :| 0 <= i < j < |closed| && !(SegmentKeys(delta, closed[i]) !! SegmentKeys(delta, closed[j]));
      var k :| k in SegmentKeys(delta, closed[i]) && k in SegmentKeys(delta, closed[j]);
      ReentryBreaksGroupBy(delta, closed, i, j, k);
    }
  }

  function KeyOf(delta: int, e: Event): (int, int)
    requires delta > 0 && e.src.Some?
  {
    (e.src.value, Align(e.ts, delta))
  }

  /** No published event is without a row for its host and window. */
  predicate Complete(delta: int, es: seq<Entry>, events: seq<Event>)
    requires delta > 0
  {
    forall e | e in events && e.src.Some? :: KeyOf(delta, e) in KeysIn(es)
  }

  /** The rows are the group-by table: one row per key, every key of the events, each with its group. */
  predicate IsGroupByTable(delta: int, es: seq<Entry>, events: seq<Event>)
    requires delta > 0
  {
    UniqueKeys(es) && Complete(delta, es, events) && IsGroupBy(delta, es, events)
  }

  lemma {:induction false} EventHasSegment(closed: seq<Segment>, e: Event) returns (i: nat)
    requires e in ClosedEvents(closed)
    ensures i < |closed| && e in closed[i].events
  {
    i := |closed| - 1;
    if e !in closed[i].events {
      i := EventHasSegment(closed[..i], e);
    }
  }

  lemma EventIsKeyed(delta: int, seg: Segment, e: Event)
    requires delta > 0 && AllIn(delta, seg.events, seg.w) && e in seg.events
    ensures KeyOf(delta, e) in SegmentKeys(delta, seg)
  {
    assert e.src.value in Sources(delta, seg.events, seg.w);
    InSegmentKeys(delta, seg, e.src.value);
  }

  lemma ClosedEventsAreComplete(delta: int, closed: seq<Segment>)
    requires delta > 0 && WellCut(delta, closed)
    ensures Complete(delta, ClosedEntries(delta, closed), ClosedEvents(closed))
  {
    forall e | e in ClosedEvents(closed) && e.src.Some?
      ensures KeyOf(delta, e) in KeysIn(ClosedEntries(delta, closed))
    {
      var i := EventHasSegment(closed, e);
      assert closed[i] in closed;
      EventIsKeyed(delta, closed[i], e);
      ClosedEntriesKeys(delta, closed, KeyOf(delta, e));
    }
  }

  /** The published rows are the group-by table of the published events exactly when no window is re-entered. */
  lemma RowsAreGroupByIff(cfg: Config, actions: seq<Action>)
    requires cfg.delta > 0
    ensures var log := LogOf(cfg, actions);
            IsGroupByTable(cfg.delta, Entries(Run(cfg, actions).1), ClosedEvents(log.closed))
            <==> NoReentry(cfg.delta, log.closed)
  {
    RunIsGroupBySegments(cfg, actions);
    GroupByIff(cfg.delta, LogOf(cfg, actions).closed);
    KeysAreUniqueIff(cfg.delta, LogOf(cfg, actions).closed);
    ClosedEventsAreComplete(cfg.delta, LogOf(cfg, actions).closed);
  }

  // ---------------------------------------------------- who can cause it

  /** Windows close in strictly increasing order, and the open one is later than all of them. */
  predicate Forward(log: Log) {
    && (forall i, j | 0 <= i < j < |log.closed| :: log.closed[i].w < log.closed[j].w)
    && (log.current.Some? ==> forall seg | seg in log.closed :: seg.w < log.current.value.w)
  }

  /** An event that reopens a window at or before one already closed. */
  predicate Reopens(cfg: Config, log: Log, a: Action)
    requires cfg.delta > 0
  {
    a.Ingest? && a.e.src.Some? && log.current.None?
    && exists seg | seg in log.closed :: Align(a.e.ts, cfg.delta) <= seg.w
  }

  lemma CutIsForward(log: Log)
    requires Forward(log) && log.current.Some?
    ensures Forward(Cut(log))
  {
    var closed := Cut(log).closed;
    forall i, j | 0 <= i < j < |closed|
      ensures closed[i].w < closed[j].w
    {
      assert closed[i] in log.closed;
    }
  }

  lemma StepIsForwardIff(cfg: Config, log: Log, a: Action)
    requires cfg.delta > 0 && Forward(log)
    ensures Forward(LogStep(cfg, log, a)) <==> !Reopens(cfg, log, a)
  {
    if log.current.Some? {
      CutIsForward(log);
    }
  }

  lemma ForwardIsNoReentry(delta: int, log: Log)
    requires delta > 0 && Forward(log)
    ensures NoReentry(delta, log.closed)
  {
  }

  predicate WatchdogSilent(cfg: Config, actions: seq<Action>)
    requires cfg.delta > 0
  {
    forall n | 0 <= n < |actions| && actions[n].Tick? ::
      var current := LogOf(cfg, actions[..n]).current;
      current.Some? ==> !Expired(cfg, current.value, actions[n].now)
  }

  /** Only a watchdog close can be followed by a re-entry: without one, late events are all dropped. */
  lemma {:induction false} WithoutWatchdogForward(cfg: Config, actions: seq<Action>)
    requires cfg.delta > 0 && WatchdogSilent(cfg, actions)
    ensures Forward(LogOf(cfg, actions))
    ensures LogOf(cfg, actions).current.None? ==> LogOf(cfg, actions).closed == []
  {
    if actions != [] {
      var init := actions[..|actions| - 1];
      assert forall n | 0 <= n < |init| :: init[..n] == actions[..n];
      WithoutWatchdogForward(cfg, init);
      StepIsForwardIff(cfg, LogOf(cfg, init), actions[|actions| - 1]);
    }
  }

  /** A capture that stalls past the grace and resumes inside the same window. */
  lemma ReentryExample(entropy: Hash -> real)
    ensures var cfg := Config(30, 40, 2.0, 1.0, entropy);
            var e := Event(Some(7), None, None, 5, Packet, map[]);
            var actions := [Ingest(e, 0.0), Tick(100.0), Ingest(e, 100.0), Tick(200.0)];
            && !UniqueKeys(Entries(Run(cfg, actions).1))
            && !IsGroupBy(30, Entries(Run(cfg, actions).1), Accepted(cfg, actions))
  {
    var cfg := Config(30, 40, 2.0, 1.0, entropy);
    var e := Event(Some(7), None, None, 5, Packet, map[]);
    var a1, a2, a3, a4 := Ingest(e, 0.0), Tick(100.0), Ingest(e, 100.0), Tick(200.0);
    var actions := [a1, a2, a3, a4];
    assert [a1][..0] == [] && [a1, a2][..1] == [a1] && [a1, a2, a3][..2] == [a1, a2] && actions[..3] == [a1, a2, a3];
    assert Align(5, 30) == 0;
    var seg := Segment(0, [e]);
    assert LogOf(cfg, [a1]) == Log([], Some(Open(0, 0.0)), [e]);
    assert LogOf(cfg, [a1, a2]) == Log([seg], None, []);
    assert LogOf(cfg, [a1, a2, a3]) == Log([seg], Some(Open(0, 100.0)), [e]);
    var log := LogOf(cfg, actions);
    assert log == Log([seg, seg], None, []);
    assert e in seg.events;
    assert 7 in Sources(30, seg.events, 0);
    assert (7, 0) in SegmentKeys(30, seg);
    assert log.closed[0] == seg == log.closed[1];
    assert !(SegmentKeys(30, log.closed[0]) !! SegmentKeys(30, log.closed[1]));
    ReentryIsSeen(cfg, actions, log);
  }

  lemma ReentryIsSeen(cfg: Config, actions: seq<Action>, log: Log)
    requires cfg.delta > 0 && log == LogOf(cfg, actions) && log.events == [] && !NoReentry(cfg.delta, log.closed)
    ensures !UniqueKeys(Entries(Run(cfg, actions).1))
    ensures !IsGroupBy(cfg.delta, Entries(Run(cfg, actions).1), Accepted(cfg, actions))
  {
    RunIsGroupBySegments(cfg, actions);
    SegmentsAreTheAcceptedStream(cfg, actions);
    assert StreamOf(log) == ClosedEvents(log.closed);
    KeysAreUniqueIff(cfg.delta, log.closed);
    GroupByIff(cfg.delta, log.closed);
  }
}
