/**
 * When the features worker closes a window and publishes: services/features/worker.py:150-216,
 * said of times and timestamps alone.
 */
module Watchdog {
  import opened Options
  import opened Events
  import opened Numbers
  import opened Increments
  import opened Features
  import opened WindowTotals
  import Orders

  /** The open window and when its last event arrived. */
  datatype Front = Front(w: int, seen: real)

  /** Silent for the floor, and for two windows of replayed time when there is a replay speed. */
  predicate Waited(cfg: Config, seen: real, now: real) {
    && now - seen >= cfg.floor
    && (cfg.speed > 0.0 ==> (now - seen) * cfg.speed >= 2.0 * cfg.delta as real)
  }

  /**
   * An event opens its own window unless it has no source or lies before the open one; a tick
   * closes the open one once it has been silent for long enough.
   */
  function FrontAfter(cfg: Config, front: Option<Front>, a: Action): Option<Front>
    requires cfg.delta > 0
  {
    match a
    case Ingest(e, now) =>
      if e.src.None? || (front.Some? && e.ts < front.value.w) then front
      else Some(Front(e.ts - e.ts % cfg.delta, now))
    case Tick(now) =>
      if front.Some? && Waited(cfg, front.value.seen, now) then None else front
  }

  function FrontOf(cfg: Config, actions: seq<Action>): Option<Front>
    requires cfg.delta > 0
  {
    if actions == [] then None
    else FrontAfter(cfg, FrontOf(cfg, actions[..|actions| - 1]), actions[|actions| - 1])
  }

  function OpenOf(front: Option<Front>): Option<Open> {
    if front.None? then None else Some(Open(front.value.w, front.value.seen))
  }

  /** The window is one of the grid. */
  predicate OnGrid(cfg: Config, front: Option<Front>)
    requires cfg.delta > 0
  {
    front.Some? ==> front.value.w % cfg.delta == 0
  }

  lemma QuotientBound(x: real, a: real, speed: real)
    requires speed > 0.0
    ensures x >= a / speed <==> x * speed >= a
  {
    var q := a / speed;
    assert q * speed == a;
    if x >= q {
      assert (x - q) * speed >= 0.0;
    } else {
      assert (q - x) * speed > 0.0;
    }
  }

  lemma ExpiredIff(cfg: Config, o: Open, now: real)
    ensures Expired(cfg, o, now) <==> Waited(cfg, o.lastSeen, now)
  {
    if cfg.speed > 0.0 {
      QuotientBound(now - o.lastSeen, 2.0 * cfg.delta as real, cfg.speed);
    }
  }

  lemma AlignIsStart(ts: int, delta: int)
    requires delta > 0
    ensures Align(ts, delta) == ts - ts % delta && Align(ts, delta) % delta == 0
    ensures Align(ts, delta) <= ts < Align(ts, delta) + delta
  {
    AlignIs(ts, delta, Align(ts, delta));
  }

  /** Before or beyond a window of the grid. */
  lemma AlignAgainst(ts: int, delta: int, w: int)
    requires delta > 0 && w % delta == 0
    ensures Align(ts, delta) < w <==> ts < w
    ensures Align(ts, delta) > w <==> ts >= w + delta
  {
    var q, r := ts / delta, w / delta;
    assert ts == q * delta + ts % delta && w == r * delta;
    if q < r { MulStep(q, r, delta); }
    if q > r { MulStep(r, q, delta); }
  }

  lemma MulStep(q: int, r: int, d: int)
    requires q < r && d > 0
    ensures q * d + d <= r * d
  {
    MulGrows(q + 1, r, d);
    assert (q + 1) * d == q * d + d;
  }

  lemma TickFront(cfg: Config, s: State, front: Option<Front>, now: real)
    requires cfg.delta > 0 && s.current == OpenOf(front)
    ensures Step(cfg, s, Tick(now)).0.current == OpenOf(FrontAfter(cfg, front, Tick(now)))
  {
    if front.Some? {
      ExpiredIff(cfg, s.current.value, now);
      CloseEnds(cfg, s, s.current.value.w);
    }
  }

  lemma FoldOpens(s: State, e: Event, host: int, w: int, now: real)
    ensures Accumulate(s, e, host, w, now).current == Some(Open(w, now))
  {
  }

  lemma IngestOpens(cfg: Config, s: State, e: Event, now: real)
    requires cfg.delta > 0
    ensures Step(cfg, s, Ingest(e, now)).0.current
         == if Accepts(cfg, s, e) then Some(Open(Align(e.ts, cfg.delta), now)) else s.current
  {
    if Accepts(cfg, s, e) {
      FoldOpens(Closing(cfg, s, Ingest(e, now)).0, e, e.src.value, Align(e.ts, cfg.delta), now);
    } else {
      assert Closing(cfg, s, Ingest(e, now)) == (s, []);
    }
  }

  lemma IngestFront(cfg: Config, s: State, front: Option<Front>, e: Event, now: real)
    requires cfg.delta > 0 && s.current == OpenOf(front) && OnGrid(cfg, front)
    ensures Step(cfg, s, Ingest(e, now)).0.current == OpenOf(FrontAfter(cfg, front, Ingest(e, now)))
  {
    IngestOpens(cfg, s, e, now);
    AlignIsStart(e.ts, cfg.delta);
    if front.Some? {
      AlignAgainst(e.ts, cfg.delta, front.value.w);
    }
  }

  lemma StepFront(cfg: Config, s: State, front: Option<Front>, a: Action)
    requires cfg.delta > 0 && s.current == OpenOf(front) && OnGrid(cfg, front)
    ensures Step(cfg, s, a).0.current == OpenOf(FrontAfter(cfg, front, a)) && OnGrid(cfg, FrontAfter(cfg, front, a))
  {
    match a
    case Tick(now) => TickFront(cfg, s, front, now);
    case Ingest(e, now) =>
      IngestFront(cfg, s, front, e, now);
      AlignIsStart(e.ts, cfg.delta);
  }

  lemma CloseEnds(cfg: Config, s: State, w: int)
    requires cfg.delta > 0 && s.current.Some? && s.current.value.w == w
    ensures CloseWindow(cfg, s, w).0.current == None
  {
    EmitAllEntries(cfg, s, w, Orders.Ascend(HostsAt(s, w)));
  }

  /** On every run: the open window is the one of the last event accepted, until the silence is long enough. */
  lemma {:induction false} OpenWindowIsFront(cfg: Config, actions: seq<Action>)
    requires cfg.delta > 0
    ensures Run(cfg, actions).0.current == OpenOf(FrontOf(cfg, actions)) && OnGrid(cfg, FrontOf(cfg, actions))
  {
    if actions != [] {
      var init := actions[..|actions| - 1];
      OpenWindowIsFront(cfg, init);
      StepFront(cfg, Run(cfg, init).0, FrontOf(cfg, init), actions[|actions| - 1]);
    }
  }

  /** What ends a window: a silence, or an event at or past its end. */
  predicate Ends(cfg: Config, front: Front, a: Action) {
    match a
    case Tick(now) => Waited(cfg, front.seen, now)
    case Ingest(e, _) => e.src.Some? && e.ts >= front.w + cfg.delta
  }

  lemma ClosePublishes(cfg: Config, s: State, log: Log)
    requires cfg.delta > 0 && Tied(cfg, s, log) && log.current.Some?
    ensures CloseWindow(cfg, s, log.current.value.w).1 != []
  {
    var w := log.current.value.w;
    CloseEntries(cfg, s, log);
    var hosts := Orders.Ascend(Sources(cfg.delta, log.events, w));
    var e := log.events[0];
    assert e in log.events && e.src.value in Sources(cfg.delta, log.events, w);
    assert e.src.value in hosts;
    assert Entries([]) == [];
  }

  /** On every run: the next action publishes rows if and only if a window is open and the action ends it. */
  lemma PublishesIff(cfg: Config, actions: seq<Action>, a: Action)
    requires cfg.delta > 0
    ensures var front := FrontOf(cfg, actions);
            Step(cfg, Run(cfg, actions).0, a).1 != [] <==> front.Some? && Ends(cfg, front.value, a)
  {
    var s, front := Run(cfg, actions).0, FrontOf(cfg, actions);
    OpenWindowIsFront(cfg, actions);
    RunIsGroupBySegments(cfg, actions);
    OnlyClosingPublishes(cfg, s, a);
    if front.Some? {
      ClosePublishes(cfg, s, LogOf(cfg, actions));
      match a
      case Tick(now) => ExpiredIff(cfg, s.current.value, now);
      case Ingest(e, _) => AlignAgainst(e.ts, cfg.delta, front.value.w);
    }
  }
}
