/**
The mutable side of delivery: the broker's state, one consumer's `Bus`, and the
consumer loop. Each operation is tied to the group functions of `Delivery`.
*/
module Consumers {
  import opened Delivery

  /** The Redis server, as far as streams go. */
  class Broker {
    var entries: seq<string>
    var groups: map<string, Group>

    constructor ()
      ensures View() == EMPTY
    {
      entries, groups := [], map[];
    }

    ghost function View(): State
      reads this
    {
      State(entries, groups, map[])
    }
  }

  /** The pending ids nobody has touched for minIdle. */
  function Idle(g: Group, minIdle: int, now: int): set<nat> {
    set m | m in g.pending && now - g.pending[m].since >= minIdle
  }

  /** An entry read is idle from minIdle after the read on, and not before. */
  lemma ReadIsIdleIff(g: Group, total: nat, count: nat, c: string, now: int, minIdle: int, later: int, m: nat)
    requires g.cursor <= m < g.cursor + Available(g, total, count)
    ensures m in Idle(ReadGroup(g, total, count, c, now), minIdle, later) <==> later >= now + minIdle
  {
    var taken := Range(g.cursor, Available(g, total, count));
    assert taken[m - g.cursor] == m;
  }

  /** Claiming an id starts its time over, and only its own. */
  lemma ClaimedIsIdleIff(g: Group, ms: set<nat>, c: string, now: int, minIdle: int, later: int, m: nat)
    requires m in g.pending
    ensures m in Idle(ClaimGroup(g, ms, c, now), minIdle, later)
       <==> if m in ms then later >= now + minIdle else m in Idle(g, minIdle, later)
  {
  }

  ghost predicate Ascending(ids: seq<nat>) {
    forall i, j | 0 <= i < j < |ids| :: ids[i] < ids[j]
  }

  lemma ClaimTwice(g: Group, a: set<nat>, b: set<nat>, c: string, now: int)
    ensures ClaimGroup(ClaimGroup(g, a, c, now), b, c, now) == ClaimGroup(g, a + b, c, now)
  {
  }

  lemma AscendingConcat(a: seq<nat>, b: seq<nat>, mid: nat)
    requires Ascending(a) && Ascending(b)
    requires (forall m | m in a :: m < mid) && (forall m | m in b :: mid <= m)
    ensures Ascending(a + b)
  {
    forall i | 0 <= i < |a| ensures a[i] < mid { assert a[i] in a; }
    forall i | 0 <= i < |b| ensures mid <= b[i] { assert b[i] in b; }
  }

  /** The bus calls of one consumer; its stream, its group and its name never change. */
  class Bus {
    const broker: Broker
    const group: string
    const consumer: string

    constructor (broker: Broker, group: string, consumer: string)
      ensures this.broker == broker && this.group == group && this.consumer == consumer
    {
      this.broker, this.group, this.consumer := broker, group, consumer;
    }

    ghost predicate Ready()
      reads broker
    {
      group in broker.groups && GroupOk(broker.groups[group], |broker.entries|)
    }

    method EnsureGroup()
      modifies broker`groups
      ensures broker.View() == Step(old(broker.View()), Delivery.EnsureGroup(group))
    {
      if group !in broker.groups {
        broker.groups := broker.groups[group := NEW_GROUP];
      }
    }

    method Publish(payload: string) returns (id: nat)
      modifies broker`entries
      ensures broker.View() == Step(old(broker.View()), Delivery.Publish(payload))
      ensures id == |old(broker.entries)| && broker.entries[id] == payload
    {
      id := |broker.entries|;
      broker.entries := broker.entries + [payload];
    }

    method Read(count: nat, now: int) returns (ids: seq<nat>)
      requires group in broker.groups
      modifies broker`groups
      ensures broker.View() == Step(old(broker.View()), Delivery.Read(group, consumer, count, now)).(memory := map[])
      ensures ids
           == Step(old(broker.View()), Delivery.Read(group, consumer, count, now)).memory[(group, consumer)].batch
    {
      var g := broker.groups[group];
      ids := Range(g.cursor, Available(g, |broker.entries|, count));
      broker.groups := broker.groups[group := ReadGroup(g, |broker.entries|, count, consumer, now)];
    }

    method Ack(id: nat)
      requires group in broker.groups
      modifies broker`groups
      ensures broker.groups == old(broker.groups)[group := AckGroup(old(broker.groups)[group], id)]
    {
      broker.groups := broker.groups[group := AckGroup(broker.groups[group], id)];
    }

    /** XAUTOCLAIM: scan from `start`, take at most `count` idle ids; a next cursor of 0 is the end. */
    method AutoClaim(minIdle: int, start: nat, count: nat, now: int) returns (next: nat, claimed: seq<nat>)
      requires group in broker.groups && count > 0
      modifies broker`groups
      ensures var g := old(broker.groups)[group];
              var stop := if next == 0 then g.cursor else next;
              Ascending(claimed) && (forall m :: m in claimed <==> m in Idle(g, minIdle, now) && start <= m < stop)
              && (next != 0 ==> start < next <= g.cursor)
      ensures broker.groups
           == old(broker.groups)[group := ClaimGroup(old(broker.groups)[group], Ids(claimed), consumer, now)]
    {
      var g := broker.groups[group];
      claimed := [];
      var m := start;
      while m < g.cursor && |claimed| < count
        invariant start <= m && (m > start ==> m <= g.cursor)
        invariant Ascending(claimed) && forall i | 0 <= i < |claimed| :: claimed[i] < m
        invariant forall x :: x in claimed <==> x in Idle(g, minIdle, now) && start <= x < m
        invariant m == start ==> claimed == []
      {
        if m in g.pending && now - g.pending[m].since >= minIdle {
          claimed := claimed + [m];
        }
        m := m + 1;
      }
      next := if m < g.cursor then m else 0;
      if next == 0 {
        forall x | x in claimed ensures x < g.cursor {
          assert start <= x < m;
        }
      }
      broker.groups := broker.groups[group := ClaimGroup(g, Ids(claimed), consumer, now)];
    }

    /** The whole sweep: every idle pending id, once and in order, reassigned to the caller. */
    method Reclaim(minIdle: int, count: nat, now: int) returns (ids: seq<nat>)
      requires Ready() && count > 0
      modifies broker`groups
      ensures Ascending(ids) && (forall m :: m in ids <==> m in Idle(old(broker.groups)[group], minIdle, now))
      ensures broker.View()
           == Step(old(broker.View()), Delivery.Reclaim(group, consumer, ids, now)).(memory := map[])
    {
      ghost var g0 := broker.groups[group];
      var cursor, claimed := AutoClaim(minIdle, 0, count, now);
      ids := claimed;
      while cursor != 0
        invariant cursor <= g0.cursor
        invariant var stop := if cursor == 0 then g0.cursor else cursor;
                  Ascending(ids) && forall m :: m in ids <==> m in Idle(g0, minIdle, now) && m < stop
        invariant broker.groups
               == old(broker.groups)[group := ClaimGroup(g0, Ids(ids), consumer, now)]
        decreases if cursor == 0 then 0 else 1 + g0.cursor - cursor
      {
        ghost var before := Ids(ids);
        ghost var g := broker.groups[group];
        ghost var start := cursor;
        ghost var mid := broker.groups;
        cursor, claimed := AutoClaim(minIdle, cursor, count, now);
        forall m | m >= start ensures m in Idle(g, minIdle, now) <==> m in Idle(g0, minIdle, now) {
          assert m !in before;
        }
        AscendingConcat(ids, claimed, start);
        assert g == ClaimGroup(g0, before, consumer, now);
        ClaimTwice(g0, before, Ids(claimed), consumer, now);
        ids := ids + claimed;
        assert Ids(ids) == before + Ids(claimed);
        ghost var g' := ClaimGroup(g0, Ids(ids), consumer, now);
        assert broker.groups == mid[group := g'] == old(broker.groups)[group := g'];
      }
      assert forall m | m in ids :: m in g0.pending;
    }
  }

  /**
  What the loop is given from outside: how the k-th handler ends, what the k-th look at the stop
  event sees, and what the k-th clock reading says.
  */
  datatype Script = Script(succeeds: nat -> bool, stops: nat -> bool, clock: nat -> int)

  /** The ids of the first n entries of a batch whose handlers finished, the k-th dispatch being the first. */
  ghost function Finished(batch: seq<nat>, n: nat, script: Script, k: nat): set<nat>
    requires n <= |batch|
  {
    set i | 0 <= i < n && script.succeeds(k + i) :: batch[i]
  }

  /** Processing some ids: each is done, and acked if it was pending; nothing else moves. */
  ghost predicate Processed(g: Group, g': Group, ids: set<nat>) {
    && g'.cursor == g.cursor
    && g'.done == g.done + ids
    && g'.acked == g.acked + ids * g.pending.Keys
    && g'.pending == g.pending - ids
  }

  lemma FinishedSnoc(batch: seq<nat>, n: nat, script: Script, k: nat)
    requires n < |batch|
    ensures Finished(batch, n + 1, script, k)
         == Finished(batch, n, script, k) + if script.succeeds(k + n) then {batch[n]} else {}
  {
  }

  lemma ProcessedTwice(g0: Group, g1: Group, g2: Group, a: set<nat>, b: set<nat>)
    requires Processed(g0, g1, a) && Processed(g1, g2, b)
    ensures Processed(g0, g2, a + b)
  {
  }

  lemma FinishedInBatch(batch: seq<nat>, n: nat, script: Script, k: nat)
    requires n <= |batch|
    ensures Finished(batch, n, script, k) <= Ids(batch)
  {
  }

  lemma ClaimKeepsOk(g: Group, total: nat, ms: set<nat>, c: string, now: int)
    requires GroupOk(g, total)
    ensures GroupOk(ClaimGroup(g, ms, c, now), total)
  {
    assert ClaimGroup(g, ms, c, now).pending.Keys == g.pending.Keys;
  }

  /** `run_consumer`: reclaim when due, read, dispatch, ack only what a handler finished. */
  class Worker {
    const bus: Bus
    const script: Script
    var dispatched: nat
    var looks: nat
    var readings: nat
    ghost var stopSeen: bool

    constructor (bus: Bus, script: Script)
      ensures this.bus == bus && this.script == script && !stopSeen
      ensures dispatched == looks == readings == 0
    {
      this.bus, this.script, dispatched, looks, readings, stopSeen := bus, script, 0, 0, 0, false;
    }

    /** The clock never runs backwards. */
    ghost predicate Steady() {
      forall i: nat, j: nat | i <= j :: script.clock(i) <= script.clock(j)
    }

    method Look() returns (b: bool)
      modifies this`looks, this`stopSeen
      ensures looks == old(looks) + 1 && b == script.stops(old(looks)) && (stopSeen <==> old(stopSeen) || b)
    {
      b := script.stops(looks);
      looks := looks + 1;
      stopSeen := stopSeen || b;
    }

    method Tick() returns (t: int)
      modifies this`readings
      ensures readings == old(readings) + 1 && t == script.clock(old(readings))
    {
      t := script.clock(readings);
      readings := readings + 1;
    }

    /** Acked exactly when the handler finished; otherwise nothing at the broker moves. */
    method Dispatch(m: nat)
      requires bus.Ready()
      modifies this`dispatched, bus.broker`groups
      ensures dispatched == old(dispatched) + 1
      ensures bus.Ready() && bus.broker.groups == old(bus.broker.groups)[bus.group := bus.broker.groups[bus.group]]
      ensures Processed(old(bus.broker.groups)[bus.group], bus.broker.groups[bus.group],
                        if script.succeeds(old(dispatched)) then {m} else {})
    {
      var ok := script.succeeds(dispatched);
      dispatched := dispatched + 1;
      if ok {
        var g := bus.broker.groups[bus.group];
        bus.broker.groups := bus.broker.groups[bus.group := FinishGroup(g, m)];
        bus.Ack(m);
      }
    }

    /** A batch, abandoned as soon as a look after a dispatch sees the stop event. */
    method DispatchBatch(batch: seq<nat>) returns (n: nat, stop: bool)
      requires bus.Ready()
      modifies this`dispatched, this`looks, this`stopSeen, bus.broker`groups
      ensures n <= |batch| && dispatched == old(dispatched) + n && looks == old(looks) + n
      ensures n < |batch| ==> stop
      ensures old(stopSeen) || stop <==> stopSeen
      ensures bus.Ready() && bus.broker.groups == old(bus.broker.groups)[bus.group := bus.broker.groups[bus.group]]
      ensures Processed(old(bus.broker.groups)[bus.group], bus.broker.groups[bus.group],
                        Finished(batch, n, script, old(dispatched)))
    {
      n, stop := 0, false;
      while n < |batch|
        invariant n <= |batch| && dispatched == old(dispatched) + n && looks == old(looks) + n
        invariant !stop && (old(stopSeen) <==> stopSeen)
        invariant bus.Ready()
        invariant bus.broker.groups == old(bus.broker.groups)[bus.group := bus.broker.groups[bus.group]]
        invariant Processed(old(bus.broker.groups)[bus.group], bus.broker.groups[bus.group],
                            Finished(batch, n, script, old(dispatched)))
      {
        ghost var g := bus.broker.groups[bus.group];
        Dispatch(batch[n]);
        FinishedSnoc(batch, n, script, old(dispatched));
        ProcessedTwice(old(bus.broker.groups)[bus.group], g, bus.broker.groups[bus.group],
                       Finished(batch, n, script, old(dispatched)),
                       if script.succeeds(old(dispatched) + n) then {batch[n]} else {});
        n := n + 1;
        stop := Look();
        if stop { return; }
      }
    }

    /** The entry is pending in this consumer's name, claimed or read at `since` or later. */
    predicate Holds(g: Group, m: nat, since: int) {
      m in g.pending && g.pending[m].consumer == bus.consumer && g.pending[m].since >= since
    }

    /** Done, or taken over. */
    predicate Taken(g: Group, m: nat, since: int) {
      m in g.done || Holds(g, m, since)
    }

    /** What a sweep has achieved up to cursor c, and left alone from there on. */
    ghost predicate SweptTo(g0: Group, g: Group, c: nat, minIdle: int, since: int) {
      && g.cursor == g0.cursor && g0.acked <= g.acked && g0.done <= g.done
      && (forall m | m in Idle(g0, minIdle, since) && m < c :: Taken(g, m, since))
      && (forall m | m >= c :: (m in g.pending <==> m in g0.pending)
                               && (m in g.pending ==> g.pending[m] == g0.pending[m]))
    }

    /** One page: what was idle at the start of the sweep is still idle, so it is claimed. */
    lemma PageSweeps(g0: Group, g: Group, g': Group, c: nat, stop: nat, minIdle: int, since: int, now: int,
                     claimed: seq<nat>, finished: set<nat>)
      requires SweptTo(g0, g, c, minIdle, since) && since <= now && c <= stop
      requires forall m :: m in claimed <==> m in Idle(g, minIdle, now) && c <= m < stop
      requires finished <= Ids(claimed)
      requires Processed(ClaimGroup(g, Ids(claimed), bus.consumer, now), g', finished)
      ensures SweptTo(g0, g', stop, minIdle, since)
    {
      forall m | m in Idle(g0, minIdle, since) && m < stop
        ensures Taken(g', m, since)
      {
        if m >= c {
          assert m in Idle(g, minIdle, now);
          assert m in claimed;
        }
      }
    }

    /** Take over what others left pending, page by page, dispatching each page before the next. */
    method Sweep(minIdle: int, count: nat)
      requires bus.Ready() && count > 0 && Steady()
      modifies this, bus.broker`groups
      ensures bus.Ready() && OnlyAdvances(old(bus.broker.groups)) && readings > old(readings)
      ensures bus.broker.groups[bus.group].cursor == old(bus.broker.groups)[bus.group].cursor
      ensures old(stopSeen) ==> stopSeen
      ensures !stopSeen ==>
                forall m | m in Idle(old(bus.broker.groups)[bus.group], minIdle, script.clock(old(readings))) ::
                Taken(bus.broker.groups[bus.group], m, script.clock(old(readings)))
    {
      ghost var g0, since := bus.broker.groups[bus.group], script.clock(readings);
      var cursor, more := 0, true;
      while more
        invariant cursor <= g0.cursor && readings >= old(readings) && (more ==> stopSeen == old(stopSeen))
        invariant (readings == old(readings) ==> more) && (old(stopSeen) ==> stopSeen)
        invariant bus.Ready() && bus.broker.groups == old(bus.broker.groups)[bus.group := bus.broker.groups[bus.group]]
        invariant SweptTo(g0, bus.broker.groups[bus.group], if more then cursor else g0.cursor, minIdle, since)
        decreases if more then 1 + g0.cursor - cursor else 0
      {
        ghost var g := bus.broker.groups[bus.group];
        var now := Tick();
        var next, claimed := bus.AutoClaim(minIdle, cursor, count, now);
        ClaimKeepsOk(g, |bus.broker.entries|, Ids(claimed), bus.consumer, now);
        ghost var k := dispatched;
        var n, stop := DispatchBatch(claimed);
        ghost var end := if next == 0 then g0.cursor else next;
        FinishedInBatch(claimed, n, script, k);
        PageSweeps(g0, g, bus.broker.groups[bus.group], cursor, end, minIdle, since, now, claimed,
                   Finished(claimed, n, script, k));
        if stop { return; }
        cursor := next;
        more := next != 0;
      }
    }

    /** Read the next entries, and dispatch them. */
    method ReadOnce(count: nat)
      requires bus.Ready()
      modifies this, bus.broker`groups
      ensures bus.Ready() && OnlyAdvances(old(bus.broker.groups)) && readings == old(readings) + 1
      ensures old(stopSeen) ==> stopSeen
      ensures var g, g' := old(bus.broker.groups)[bus.group], bus.broker.groups[bus.group];
              && g'.cursor == g.cursor + Available(g, |bus.broker.entries|, count)
              && (forall m | g.cursor <= m < g'.cursor :: Taken(g', m, script.clock(old(readings))))
              && (forall m: nat, t: int | Taken(g, m, t) :: Taken(g', m, t))
    {
      ghost var g := bus.broker.groups[bus.group];
      var now := Tick();
      ReadKeepsOk(g, |bus.broker.entries|, count, bus.consumer, now);
      var batch := bus.Read(count, now);
      ghost var k := dispatched;
      var n, stop := DispatchBatch(batch);
      FinishedInBatch(batch, n, script, k);
      ReadTakes(g, bus.broker.groups[bus.group], |bus.broker.entries|, count, now, Finished(batch, n, script, k));
    }

    lemma ReadTakes(g: Group, g': Group, total: nat, count: nat, now: int, finished: set<nat>)
      requires GroupOk(g, total) && Processed(ReadGroup(g, total, count, bus.consumer, now), g', finished)
      ensures forall m | g.cursor <= m < g'.cursor :: Taken(g', m, now)
      ensures forall m: nat, t: int | Taken(g, m, t) :: Taken(g', m, t)
    {
      var n := Available(g, total, count);
      forall m | g.cursor <= m < g.cursor + n
        ensures Taken(g', m, now)
      {
        assert Range(g.cursor, n)[m - g.cursor] == m;
      }
      forall m: nat, t: int | Taken(g, m, t)
        ensures Taken(g', m, t)
      {
        assert m in g.pending ==> m < g.cursor;
      }
    }

    /**
    One turn of the loop: the reclaim sweep when it is due, then, unless stopped, one read. While
    no look has seen the stop event, everything unread up to the count and, when due, everything
    idle at the start of the sweep is done or in this consumer's hands.
    */
    method Round(due: int, interval: int, minIdle: int, count: nat) returns (due': int, stop: bool)
      requires bus.Ready() && count > 0 && Steady()
      modifies this, bus.broker`groups
      ensures bus.Ready() && OnlyAdvances(old(bus.broker.groups))
      ensures old(stopSeen) || stop ==> stopSeen
      ensures script.clock(old(readings)) < due ==> due' == due
      ensures script.clock(old(readings)) >= due ==>
                && due' >= script.clock(old(readings)) + interval
                && exists k: nat :: old(readings) < k < readings && due' == script.clock(k) + interval
      ensures var g, g' := old(bus.broker.groups)[bus.group], bus.broker.groups[bus.group];
              var now := script.clock(old(readings));
              !stopSeen ==>
                && g'.cursor == g.cursor + Available(g, |bus.broker.entries|, count)
                && (forall m | g.cursor <= m < g'.cursor :: Taken(g', m, now))
                && (now >= due ==> forall m | m in Idle(g, minIdle, now) :: Taken(g', m, now))
    {
      due', stop := due, false;
      ghost var g := bus.broker.groups[bus.group];
      var now := Tick();
      ghost var since := script.clock(readings);
      if now >= due {
        Sweep(minIdle, count);
        ghost var k := readings;
        var after := Tick();
        due' := after + interval;
        assert old(readings) < k < readings && due' == script.clock(k) + interval;
        stop := Look();
        if stop { return; }
      }
      ghost var g1, at := bus.broker.groups[bus.group], script.clock(readings);
      ReadOnce(count);
      if !stopSeen {
        RoundTakes(g, g1, bus.broker.groups[bus.group], now, since, at, due, minIdle);
      }
    }

    lemma RoundTakes(g: Group, g1: Group, g2: Group, now: int, since: int, at: int, due: int, minIdle: int)
      requires now <= since && now <= at && g1.cursor == g.cursor
      requires now >= due ==> forall m | m in Idle(g, minIdle, since) :: Taken(g1, m, since)
      requires forall m | g1.cursor <= m < g2.cursor :: Taken(g2, m, at)
      requires forall m: nat, t: int | Taken(g1, m, t) :: Taken(g2, m, t)
      ensures forall m | g.cursor <= m < g2.cursor :: Taken(g2, m, now)
      ensures now >= due ==> forall m | m in Idle(g, minIdle, now) :: Taken(g2, m, now)
    {
      forall m | g.cursor <= m < g2.cursor
        ensures Taken(g2, m, now)
      {
        assert Taken(g2, m, at);
      }
      if now >= due {
        forall m | m in Idle(g, minIdle, now)
          ensures Taken(g2, m, now)
        {
          assert m in Idle(g, minIdle, since);
          assert Taken(g1, m, since) && Taken(g2, m, since);
        }
      }
    }

    /** Other groups are untouched; this one's cursor and acks only grow. */
    ghost predicate OnlyAdvances(before: map<string, Group>)
      requires bus.group in before && bus.group in bus.broker.groups
      reads bus.broker
    {
      var g := bus.broker.groups[bus.group];
      bus.broker.groups == before[bus.group := g] && before[bus.group].cursor <= g.cursor
      && before[bus.group].acked <= g.acked && before[bus.group].done <= g.done
    }

    /**
    The loop, for at most so many rounds. However the handlers end and whenever a look sees the
    stop event, every id stays undelivered, pending or acked, acks only what was done, and takes
    back no ack; and without a stop, as many rounds as there are entries read them all.
    */
    method RunConsumer(rounds: nat, interval: int, minIdle: int, count: nat)
      requires count > 0 && Steady()
      requires bus.group in bus.broker.groups ==> bus.Ready()
      modifies this, bus.broker`groups
      ensures bus.Ready()
      ensures OnlyAdvances(if bus.group in old(bus.broker.groups) then old(bus.broker.groups)
                           else old(bus.broker.groups)[bus.group := NEW_GROUP])
      ensures !stopSeen && rounds >= |bus.broker.entries| ==>
                bus.broker.groups[bus.group].cursor == |bus.broker.entries|
    {
      bus.EnsureGroup();
      ghost var start := bus.broker.groups;
      var due := Tick();
      var i, stop := 0, false;
      while i < rounds && !stop
        invariant 0 <= i <= rounds && (stop ==> stopSeen)
        invariant bus.Ready() && OnlyAdvances(start)
        invariant !stopSeen ==> bus.broker.groups[bus.group].cursor == |bus.broker.entries|
                                || bus.broker.groups[bus.group].cursor >= i
      {
        stop := Look();
        if stop { return; }
        due, stop := Round(due, interval, minIdle, count);
        i := i + 1;
      }
    }
  }
}
