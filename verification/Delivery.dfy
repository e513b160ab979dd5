/**
At-least-once delivery: nidra_common/bus.py and nidra_common/worker.py.

A Redis stream is a sequence of payloads, a consumer group a cursor and a
pending list. `Step` interleaves publishing, reading, handlers that finish or
raise, acks, reclaims and processes that vanish with a batch in memory; `Broker`,
`Bus` and `Worker` are the same operations on mutable state, with the loops of
the source. Trimming is taken never to fire.
*/
module Delivery {
  datatype Claim = Claim(consumer: string, since: int)

  /** `acked` and `done` record history: ids acked, and ids some handler finished. */
  datatype Group = Group(cursor: nat, pending: map<nat, Claim>, acked: set<nat>, done: set<nat>)

  const NEW_GROUP := Group(0, map[], {}, {})

  // ------------------------------------------------------- what Redis does to one group

  function Range(lo: nat, n: nat): (r: seq<nat>)
    ensures |r| == n && forall i | 0 <= i < n :: r[i] == lo + i
  {
    seq(n, i requires 0 <= i => lo + i)
  }

  function Available(g: Group, total: nat, count: nat): nat {
    if total < g.cursor then 0 else if total - g.cursor < count then total - g.cursor else count
  }

  /** As many of the entries past the cursor as the count allows. */
  lemma AvailableIs(g: Group, total: nat, count: nat)
    ensures var n := Available(g, total, count);
            && n <= count && (g.cursor <= total ==> g.cursor + n <= total)
            && (n < count ==> g.cursor + n >= total)
  {
  }

  /** XREADGROUP with ">": the next entries become pending for this consumer. */
  function ReadGroup(g: Group, total: nat, count: nat, c: string, now: int): Group {
    var n := Available(g, total, count);
    g.(cursor := g.cursor + n, pending := g.pending + map m | m in Range(g.cursor, n) :: Claim(c, now))
  }

  /** XACK: no effect on an id that is not pending. */
  function AckGroup(g: Group, m: nat): Group {
    if m in g.pending then g.(pending := g.pending - {m}, acked := g.acked + {m}) else g
  }

  function ClaimGroup(g: Group, ms: set<nat>, c: string, now: int): Group {
    g.(pending := map m | m in g.pending :: if m in ms then Claim(c, now) else g.pending[m])
  }

  function Ids(ms: seq<nat>): set<nat> { set m | m in ms }

  function FinishGroup(g: Group, m: nat): Group { g.(done := g.done + {m}) }

  ghost predicate GroupOk(g: Group, total: nat) {
    && g.cursor <= total
    && (forall m: nat :: m < g.cursor <==> m in g.pending || m in g.acked)
    && g.pending.Keys !! g.acked
    && g.acked <= g.done
  }

  lemma ReadKeepsOk(g: Group, total: nat, count: nat, c: string, now: int)
    requires GroupOk(g, total)
    ensures GroupOk(ReadGroup(g, total, count, c, now), total)
  {
    var n := Available(g, total, count);
    forall m: nat | g.cursor <= m < g.cursor + n ensures m in Range(g.cursor, n) {
      assert Range(g.cursor, n)[m - g.cursor] == m;
    }
  }

  lemma AckKeepsOk(g: Group, total: nat, m: nat)
    requires GroupOk(g, total) && (m in g.pending ==> m in g.done)
    ensures GroupOk(AckGroup(g, m), total)
  {
  }

  // ------------------------------------------------------------------- the interleavings

  /** One process's memory: ids taken and not dispatched, and whether the head's handler returned. */
  datatype Memory = Memory(batch: seq<nat>, finished: bool)

  const NOTHING := Memory([], false)

  type Seat = (string, string)

  datatype State = State(stream: seq<string>, groups: map<string, Group>, memory: map<Seat, Memory>)

  const EMPTY := State([], map[], map[])

  datatype Action =
    | Publish(payload: string)
    | EnsureGroup(group: string)
    | Read(group: string, consumer: string, count: nat, now: int)
    | Succeed(group: string, consumer: string)
    | Ack(group: string, consumer: string)
    | Fail(group: string, consumer: string)
    | Reclaim(group: string, consumer: string, ids: seq<nat>, now: int)
    | Vanish(group: string, consumer: string)

  function MemoryOf(s: State, seat: Seat): Memory {
    if seat in s.memory then s.memory[seat] else NOTHING
  }

  predicate Touches(a: Action, group: string) {
    !a.Publish? && a.group == group
  }

  /** `Vanish` is a crash, or a cooperative stop with the batch half dispatched. */
  function Step(s: State, a: Action): State {
    match a
    case Publish(p) => s.(stream := s.stream + [p])
    case EnsureGroup(g) => if g in s.groups then s else s.(groups := s.groups[g := NEW_GROUP])
    case Read(g, c, count, now) =>
      if g in s.groups && MemoryOf(s, (g, c)).batch == [] then
        var grp := s.groups[g];
        s.(groups := s.groups[g := ReadGroup(grp, |s.stream|, count, c, now)],
           memory := s.memory[(g, c) := Memory(Range(grp.cursor, Available(grp, |s.stream|, count)), false)])
      else s
    case Succeed(g, c) =>
      var mem := MemoryOf(s, (g, c));
      if g in s.groups && mem.batch != [] && !mem.finished then
        s.(groups := s.groups[g := FinishGroup(s.groups[g], mem.batch[0])],
           memory := s.memory[(g, c) := mem.(finished := true)])
      else s
    case Ack(g, c) =>
      var mem := MemoryOf(s, (g, c));
      if g in s.groups && mem.batch != [] && mem.finished then
        s.(groups := s.groups[g := AckGroup(s.groups[g], mem.batch[0])],
           memory := s.memory[(g, c) := Memory(mem.batch[1..], false)])
      else s
    case Fail(g, c) =>
      var mem := MemoryOf(s, (g, c));
      if mem.batch != [] && !mem.finished then s.(memory := s.memory[(g, c) := Memory(mem.batch[1..], false)]) else s
    case Reclaim(g, c, ids, now) =>
      if g in s.groups && MemoryOf(s, (g, c)).batch == [] && (forall m | m in ids :: m in s.groups[g].pending) then
        s.(groups := s.groups[g := ClaimGroup(s.groups[g], Ids(ids), c, now)],
           memory := s.memory[(g, c) := Memory(ids, false)])
      else s
    case Vanish(g, c) => s.(memory := s.memory - {(g, c)})
  }

  function Run(s: State, acts: seq<Action>): State
    decreases |acts|
  {
    if acts == [] then s else Run(Step(s, acts[0]), acts[1..])
  }

  ghost predicate Inv(s: State) {
    && (forall g | g in s.groups :: GroupOk(s.groups[g], |s.stream|))
    && (forall seat | seat in s.memory :: MemoryOk(s, seat))
  }

  ghost predicate MemoryOk(s: State, seat: Seat)
    requires seat in s.memory
  {
    var mem := s.memory[seat];
    && (mem.batch != [] ==> seat.0 in s.groups)
    && (forall m | m in mem.batch :: seat.0 in s.groups && m < s.groups[seat.0].cursor)
    && (mem.finished ==> mem.batch != [] && mem.batch[0] in s.groups[seat.0].done)
  }

  lemma StepKeepsInv(s: State, a: Action)
    requires Inv(s)
    ensures Inv(Step(s, a))
  {
    var s' := Step(s, a);
    match a {
      case Read(g, c, count, now) =>
        if g in s.groups { ReadKeepsOk(s.groups[g], |s.stream|, count, c, now); }
      case Ack(g, c) =>
        var mem := MemoryOf(s, (g, c));
        if g in s.groups && mem.batch != [] && mem.finished {
          AckKeepsOk(s.groups[g], |s.stream|, mem.batch[0]);
        }
      case _ =>
    }
    forall seat | seat in s'.memory ensures MemoryOk(s', seat) {
      StepKeepsMemory(s, a, seat);
    }
  }

  lemma StepKeepsMemory(s: State, a: Action, seat: Seat)
    requires Inv(s) && seat in Step(s, a).memory
    ensures MemoryOk(Step(s, a), seat)
  {
    var s' := Step(s, a);
    var batch := s'.memory[seat].batch;
    assert seat in s.memory ==> MemoryOk(s, seat);
    if batch != [] {
      assert seat.0 in s.groups;
      var grp := s.groups[seat.0];
      assert GroupOk(grp, |s.stream|);
      forall m | m in batch ensures m < s'.groups[seat.0].cursor {
        if MemoryOf(s, seat).batch == [] || m !in MemoryOf(s, seat).batch {
          assert a.Read? || a.Reclaim?;
          assert a.Reclaim? ==> m in grp.pending;
        }
      }
    }
  }

  lemma {:induction false} RunKeepsInv(s: State, acts: seq<Action>)
    requires Inv(s)
    ensures Inv(Run(s, acts))
    decreases |acts|
  {
    if acts != [] {
      StepKeepsInv(s, acts[0]);
      RunKeepsInv(Step(s, acts[0]), acts[1..]);
    }
  }

  /**
  After any interleaving every published message is, for each group, exactly one
  of undelivered, pending and acked; and an acked one had a handler finish it.
  */
  lemma AtLeastOnce(acts: seq<Action>, g: string, m: nat)
    requires var s := Run(EMPTY, acts); g in s.groups && m < |s.stream|
    ensures var grp := Run(EMPTY, acts).groups[g];
            var undelivered, pending, acked := m >= grp.cursor, m in grp.pending, m in grp.acked;
            (undelivered || pending || acked)
            && !(undelivered && pending) && !(undelivered && acked) && !(pending && acked)
            && (acked ==> m in grp.done)
  {
    RunKeepsInv(EMPTY, acts);
  }

  /** No step of one group is visible to another: each sees the whole stream for itself. */
  lemma GroupsAreIndependent(s: State, a: Action, g: string)
    requires !Touches(a, g)
    ensures var s' := Step(s, a);
            (g in s'.groups <==> g in s.groups) && (g in s.groups ==> s'.groups[g] == s.groups[g])
            && (forall c: string :: MemoryOf(s', (g, c)) == MemoryOf(s, (g, c)))
            && s.stream <= s'.stream
  {
  }

  lemma {:induction false} RunConcat(s: State, a: seq<Action>, b: seq<Action>)
    ensures Run(s, a + b) == Run(Run(s, a), b)
    decreases |a|
  {
    if a == [] {
      assert a + b == b;
    } else {
      assert (a + b)[1..] == a[1..] + b;
      RunConcat(Step(s, a[0]), a[1..], b);
    }
  }

  /** A consumer that lost its memory takes over one pending message and finishes it. */
  lemma RecoverPending(s: State, g: string, c: string, m: nat)
    requires Inv(s) && g in s.groups && m in s.groups[g].pending
    ensures var acts := [Vanish(g, c), Reclaim(g, c, [m], 0), Succeed(g, c), Ack(g, c)];
            var s' := Run(s, acts);
            s'.stream == s.stream && g in s'.groups && s'.groups[g].cursor == s.groups[g].cursor
            && s'.groups[g].pending.Keys == s.groups[g].pending.Keys - {m}
            && s'.groups[g].acked == s.groups[g].acked + {m}
  {
    var a1, a2, a3, a4 := Vanish(g, c), Reclaim(g, c, [m], 0), Succeed(g, c), Ack(g, c);
    var s1 := Step(s, a1);
    var s2 := Step(s1, a2);
    var s3 := Step(s2, a3);
    assert [a1, a2, a3, a4][1..] == [a2, a3, a4] && [a2, a3, a4][1..] == [a3, a4] && [a3, a4][1..] == [a4];
    assert Run(s3, [a4]) == Run(Step(s3, a4), [a4][1..]) == Step(s3, a4);
    assert Run(s2, [a3, a4]) == Run(s3, [a4]);
    assert Run(s1, [a2, a3, a4]) == Run(s2, [a3, a4]);
    assert s2.memory[(g, c)] == Memory([m], false);
  }

  lemma ReadOne(s: State, g: string, c: string)
    requires Inv(s) && g in s.groups && s.groups[g].cursor < |s.stream|
    ensures var s' := Run(s, [Vanish(g, c), Read(g, c, 1, 0)]);
            s'.stream == s.stream && g in s'.groups && s'.groups[g].cursor == s.groups[g].cursor + 1
  {
    var a1, a2 := Vanish(g, c), Read(g, c, 1, 0);
    var s1 := Step(s, a1);
    assert [a1, a2][1..] == [a2] && [a2][1..] == [];
    assert Run(s1, [a2]) == Run(Step(s1, a2), []) == Step(s1, a2);
    assert Run(s, [a1, a2]) == Run(s1, [a2]);
  }

  ghost predicate Drained(s: State, g: string) {
    g in s.groups && forall m: nat :: m in s.groups[g].acked <==> m < |s.stream|
  }

  lemma {:induction false} DrainSchedule(s: State, g: string, c: string) returns (acts: seq<Action>)
    requires Inv(s) && g in s.groups
    ensures Run(s, acts).stream == s.stream && Drained(Run(s, acts), g)
    decreases |s.stream| - s.groups[g].cursor, |s.groups[g].pending.Keys|
  {
    var grp := s.groups[g];
    if grp.pending.Keys != {} {
      var m :| m in grp.pending;
      acts := [Vanish(g, c), Reclaim(g, c, [m], 0), Succeed(g, c), Ack(g, c)];
      RecoverPending(s, g, c, m);
    } else if grp.cursor < |s.stream| {
      acts := [Vanish(g, c), Read(g, c, 1, 0)];
      ReadOne(s, g, c);
    } else {
      return [];
    }
    RunKeepsInv(s, acts);
    var rest := DrainSchedule(Run(s, acts), g, c);
    RunConcat(s, acts, rest);
    acts := acts + rest;
  }

  /**
  No message is ever lost: from every reachable state one consumer, however often
  it or others died, can bring the group to have acked exactly the whole stream.
  */
  lemma CanAlwaysDrain(before: seq<Action>, g: string, c: string)
    requires g in Run(EMPTY, before).groups
    ensures exists more: seq<Action> :: Run(EMPTY, before + more).stream == Run(EMPTY, before).stream
                           && Drained(Run(EMPTY, before + more), g)
  {
    RunKeepsInv(EMPTY, before);
    var more := DrainSchedule(Run(EMPTY, before), g, c);
    RunConcat(EMPTY, before, more);
  }
}
