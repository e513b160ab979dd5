/**
The `forecasts` consumer: services/persister/worker.py and the Redis hash of
services/persister/episodes.py.

One forecast is handled in ordered steps: read and advance, commit the rows,
write the hash, ack. `Step` is that protocol with a crash possible between any
two steps; `PersisterWorker` is the worker whose `Handle` runs the steps without
a crash. The theorems quantify over every sequence of actions.
*/
module Persister {
  import opened Options
  import opened Episodes

  // --------------------------------------------------------------------- the Redis hash

  datatype Field = LastTs | Id | StartedAt | PeakRisk | Stages | FirstAlertAt | Above | Below

  /** Field values; the text codecs of the standard library are taken as exact. */
  datatype Cell = Time(ts: int) | Uuid(id: nat) | Number(x: real) | List(items: seq<string>) | Count(n: int)

  type Hash = map<Field, Cell>

  const OPEN_FIELDS: set<Field> := {Id, StartedAt, PeakRisk, Stages, FirstAlertAt, Above, Below}

  /** `None` is the exception raised on a hash this code did not write. */
  function ReadState(h: Hash): Option<HostState> {
    if LastTs in h && !h[LastTs].Time? then None
    else
      var lastTs := if LastTs in h then Some(h[LastTs].ts) else None;
      if Id !in h then Some(HostState(lastTs, None))
      else if !(StartedAt in h && PeakRisk in h && Stages in h && Above in h && Below in h) then None
      else if !(h[Id].Uuid? && h[StartedAt].Time? && h[PeakRisk].Number? && h[Stages].List?
                && h[Above].Count? && h[Below].Count?) then None
      else if FirstAlertAt in h && !h[FirstAlertAt].Time? then None
      else
        var alert := if FirstAlertAt in h then Some(h[FirstAlertAt].ts) else None;
        Some(HostState(lastTs, Some(OpenEpisode(h[Id].id, h[StartedAt].ts, h[PeakRisk].x,
                                                h[Stages].items, alert, h[Above].n, h[Below].n))))
  }

  function Encode(s: HostState): Hash {
    (if s.lastTs.Some? then map[LastTs := Time(s.lastTs.value)] else map[])
    + match s.episode
      case None => map[]
      case Some(e) =>
        map[Id := Uuid(e.id), StartedAt := Time(e.startedAt), PeakRisk := Number(e.peakRisk),
            Stages := List(e.stages), Above := Count(e.above), Below := Count(e.below)]
        + if e.firstAlertAt.Some? then map[FirstAlertAt := Time(e.firstAlertAt.value)] else map[]
  }

  /** Fields are deleted first, then set, in one transaction. */
  function WriteState(h: Hash, s: HostState): Hash {
    var kept := if s.episode.None? then h - OPEN_FIELDS
                else if s.episode.value.firstAlertAt.None? then h - {FirstAlertAt}
                else h;
    kept + Encode(s)
  }

  lemma OpenRoundTrip(h: Hash, s: HostState)
    requires s.episode.Some?
    ensures var r := ReadState(WriteState(h, s));
            s.lastTs.Some? || LastTs !in h || h[LastTs].Time? ==> r.Some? && r.value.episode == s.episode
  {
    var e, w := s.episode.value, WriteState(h, s);
    assert FirstAlertAt in w <==> e.firstAlertAt.Some?;
    assert w[Id] == Uuid(e.id) && w[StartedAt] == Time(e.startedAt) && w[PeakRisk] == Number(e.peakRisk);
    assert w[Stages] == List(e.stages) && w[Above] == Count(e.above) && w[Below] == Count(e.below);
  }

  /**
  Whatever the key held before, reading back gives the state written, exactly
  when a watermark is written or none was there.
  */
  lemma HashRoundTrip(h: Hash, s: HostState)
    ensures ReadState(WriteState(h, s)) == Some(s) <==> s.lastTs.Some? || LastTs !in h
  {
    var w := WriteState(h, s);
    assert LastTs in w <==> s.lastTs.Some? || LastTs in h;
    assert s.lastTs.Some? ==> w[LastTs] == Time(s.lastTs.value);
    assert s.lastTs.None? && LastTs in h ==> w[LastTs] == h[LastTs];
    if s.episode.None? {
      assert Id !in w;
    } else {
      OpenRoundTrip(h, s);
    }
  }

  // -------------------------------------------------------------------- rows and messages

  datatype HostKey = HostKey(tenant: string, host: string)

  datatype Horizon = Horizon(ts: int, p: real)

  datatype Forecast = Forecast(key: HostKey, originTs: int, horizons: seq<Horizon>, stage: string, payload: string)

  datatype RowKey = RowKey(tenant: nat, host: string, originTs: int)

  datatype Row = Row(key: RowKey, maxP: real, stage: string, payload: string)

  datatype EpisodeRow = EpisodeRow(
    tenant: nat, host: string, startedAt: int, endedAt: Option<int>,
    peakRisk: real, stages: seq<string>, firstAlertAt: Option<int>)

  /** The stream, the rules, and which tenant strings parse as which UUID. */
  datatype Env = Env(stream: seq<Forecast>, rules: Rules, tenants: map<string, nat>)

  /** Horizons strictly after the origin, at least one of them, and a UUID tenant; else it raises. */
  predicate Accepts(env: Env, f: Forecast) {
    && f.horizons != []
    && (forall i | 0 <= i < |f.horizons| :: f.horizons[i].ts > f.originTs)
    && f.key.tenant in env.tenants
  }

  function MaxP(horizons: seq<Horizon>): real
    requires horizons != []
  {
    var last := horizons[|horizons| - 1].p;
    if |horizons| == 1 then last
    else
      var m := MaxP(horizons[..|horizons| - 1]);
      if last > m then last else m
  }

  function Summarise(f: Forecast): Summary
    requires f.horizons != []
  {
    Summary(f.originTs, MaxP(f.horizons), f.stage)
  }

  /** The largest of the horizons' probabilities. */
  ghost predicate IsPeakOf(p: real, horizons: seq<Horizon>) {
    && (exists i | 0 <= i < |horizons| :: horizons[i].p == p)
    && (forall i | 0 <= i < |horizons| :: horizons[i].p <= p)
  }

  ghost predicate Reaches(horizons: seq<Horizon>, threshold: real) {
    exists i | 0 <= i < |horizons| :: horizons[i].p >= threshold
  }

  lemma {:induction false} MaxPIsPeak(horizons: seq<Horizon>)
    requires horizons != []
    ensures IsPeakOf(MaxP(horizons), horizons)
  {
    var n := |horizons| - 1;
    assert horizons[n].p == horizons[n].p;
    if n > 0 {
      var init := horizons[..n];
      MaxPIsPeak(init);
      var i :| 0 <= i < n && init[i].p == MaxP(init);
      assert horizons[i].p == MaxP(init);
      assert forall j | 0 <= j < n :: horizons[j] == init[j];
    }
  }

  /** What the lifecycle is told of a forecast: its origin, its peak, and its stage. */
  lemma SummaryIs(f: Forecast, threshold: real)
    requires f.horizons != []
    ensures Summarise(f).originTs == f.originTs && Summarise(f).stage == f.stage
    ensures IsPeakOf(Summarise(f).maxP, f.horizons)
    ensures Summarise(f).maxP >= threshold <==> Reaches(f.horizons, threshold)
  {
    MaxPIsPeak(f.horizons);
    if Summarise(f).maxP >= threshold {
      var i :| 0 <= i < |f.horizons| && f.horizons[i].p == Summarise(f).maxP;
      assert f.horizons[i].p >= threshold;
    }
  }

  function KeyOf(env: Env, f: Forecast): RowKey
    requires Accepts(env, f)
  {
    RowKey(env.tenants[f.key.tenant], f.key.host, f.originTs)
  }

  function RowOf(env: Env, f: Forecast): Row
    requires Accepts(env, f)
  {
    Row(KeyOf(env, f), MaxP(f.horizons), f.stage, f.payload)
  }

  predicate HasKey(rows: seq<Row>, key: RowKey) {
    exists i | 0 <= i < |rows| :: rows[i].key == key
  }

  /** INSERT ... ON CONFLICT DO NOTHING. */
  function InsertRow(rows: seq<Row>, row: Row): seq<Row> {
    if HasKey(rows, row.key) then rows else rows + [row]
  }

  /** The table after one transition: a row inserted, or updated when the tenant filter finds it. */
  function WriteEpisode(episodes: map<nat, EpisodeRow>, tenant: nat, host: string, t: Option<Transition>)
    : map<nat, EpisodeRow>
  {
    if t.None? || t.value.episode.None? then episodes
    else
      var e := t.value.episode.value;
      if t.value.opens then
        episodes[e.id := EpisodeRow(tenant, host, e.startedAt, t.value.endedAt, e.peakRisk, e.stages, e.firstAlertAt)]
      else if e.id in episodes && episodes[e.id].tenant == tenant then
        episodes[e.id := episodes[e.id].(endedAt := t.value.endedAt, peakRisk := e.peakRisk,
                                         stages := e.stages, firstAlertAt := e.firstAlertAt)]
      else episodes
  }

  function HashAt(hashes: map<HostKey, Hash>, k: HostKey): Hash {
    if k in hashes then hashes[k] else map[]
  }

  function WriteHash(hashes: map<HostKey, Hash>, k: HostKey, t: Option<Transition>): map<HostKey, Hash> {
    if t.None? then hashes else hashes[k := WriteState(HashAt(hashes, k), t.value.state)]
  }

  // ------------------------------------------------------------------------- the protocol

  datatype Phase =
    | Idle
    | Advanced(msg: nat, uuid: nat, transition: Option<Transition>)
    | Committed(msg: nat, uuid: nat, transition: Option<Transition>)
    | Written(msg: nat)

  datatype State = State(
    forecasts: seq<Row>, episodes: map<nat, EpisodeRow>, hashes: map<HostKey, Hash>,
    acked: set<nat>, minted: set<nat>, phase: Phase)

  const EMPTY := State([], map[], map[], {}, {}, Idle)

  datatype Action = Begin(msg: nat, uuid: nat) | Commit | WriteRedis | Ack | Crash

  /** An action that is not enabled changes nothing; a minted uuid is never minted again. */
  function Step(env: Env, s: State, a: Action): State {
    match a
    case Begin(m, uuid) =>
      if s.phase.Idle? && m < |env.stream| && uuid !in s.minted && Accepts(env, env.stream[m]) then
        var f := env.stream[m];
        match ReadState(HashAt(s.hashes, f.key))
        case None => s
        case Some(state) =>
          s.(phase := Advanced(m, uuid, Advance(state, Summarise(f), env.rules, uuid)), minted := s.minted + {uuid})
      else s
    case Commit =>
      if s.phase.Advanced? && s.phase.msg < |env.stream| && Accepts(env, env.stream[s.phase.msg]) then
        var f := env.stream[s.phase.msg];
        s.(forecasts := InsertRow(s.forecasts, RowOf(env, f)),
           episodes := WriteEpisode(s.episodes, env.tenants[f.key.tenant], f.key.host, s.phase.transition),
           phase := Committed(s.phase.msg, s.phase.uuid, s.phase.transition))
      else s
    case WriteRedis =>
      if s.phase.Committed? && s.phase.msg < |env.stream| then
        s.(hashes := WriteHash(s.hashes, env.stream[s.phase.msg].key, s.phase.transition),
           phase := Written(s.phase.msg))
      else s
    case Ack =>
      if s.phase.Written? then s.(acked := s.acked + {s.phase.msg}, phase := Idle) else s
    case Crash => s.(phase := Idle)
  }

  function Run(env: Env, acts: seq<Action>): State {
    if acts == [] then EMPTY
    else Step(env, Run(env, acts[..|acts| - 1]), acts[|acts| - 1])
  }

  // --------------------------------------------------------------------- what runs do

  /** The commits that ran: the keys the table must hold. */
  function CommittedKeys(env: Env, acts: seq<Action>): set<RowKey> {
    if acts == [] then {}
    else
      var before := acts[..|acts| - 1];
      var s := Run(env, before);
      CommittedKeys(env, before)
      + if acts[|acts| - 1].Commit? && s.phase.Advanced? && s.phase.msg < |env.stream|
           && Accepts(env, env.stream[s.phase.msg])
        then {KeyOf(env, env.stream[s.phase.msg])} else {}
  }

  predicate Opening(p: Phase) {
    p.Committed? && p.transition.Some? && p.transition.value.opens
  }

  /** Crashes between the commit and the hash write of an opening forecast. */
  function LostOpenings(env: Env, acts: seq<Action>): nat {
    if acts == [] then 0
    else
      var before := acts[..|acts| - 1];
      LostOpenings(env, before)
      + if acts[|acts| - 1].Crash? && Opening(Run(env, before).phase) then 1 else 0
  }

  /** What a step adds to one host's completed forecasts: the hash write, when it runs. */
  function Completes(env: Env, s: State, a: Action, k: HostKey): seq<(Summary, nat)> {
    if a.WriteRedis? && s.phase.Committed? && s.phase.msg < |env.stream| && env.stream[s.phase.msg].key == k
       && env.stream[s.phase.msg].horizons != []
    then [(Summarise(env.stream[s.phase.msg]), s.phase.uuid)] else []
  }

  /** The forecasts of one host whose hash write ran, in the order it ran, with the uuids offered. */
  function Completed(env: Env, acts: seq<Action>, k: HostKey): seq<(Summary, nat)> {
    if acts == [] then []
    else
      var before := acts[..|acts| - 1];
      Completed(env, before, k) + Completes(env, Run(env, before), acts[|acts| - 1], k)
  }

  function Summaries(c: seq<(Summary, nat)>): seq<Summary> { seq(|c|, i requires 0 <= i < |c| => c[i].0) }

  function Uuids(c: seq<(Summary, nat)>): seq<nat> { seq(|c|, i requires 0 <= i < |c| => c[i].1) }

  ghost predicate OpenIn(hashes: map<HostKey, Hash>, k: HostKey, id: nat) {
    k in hashes
    && var r := ReadState(hashes[k]);
       r.Some? && r.value.episode.Some? && r.value.episode.value.id == id
  }

  /** A row that will never be closed: no host's open aggregate has its id. */
  ghost predicate IsOrphan(s: State, id: nat) {
    id in s.episodes && s.episodes[id].endedAt.None? && forall k | k in s.hashes :: !OpenIn(s.hashes, k, id)
  }

  ghost function Orphans(s: State): set<nat> {
    set id | id in s.episodes && IsOrphan(s, id)
  }

  ghost predicate DistinctKeys(rows: seq<Row>) {
    forall i, j | 0 <= i < j < |rows| :: rows[i].key != rows[j].key
  }

  // ------------------------------------------------------------------------ the invariant

  /** Row written, and the lifecycle has seen this forecast or a later one. */
  ghost predicate Durable(env: Env, s: State, m: nat) {
    m < |env.stream| && Accepts(env, env.stream[m])
    && HasKey(s.forecasts, KeyOf(env, env.stream[m]))
    && var r := ReadState(HashAt(s.hashes, env.stream[m].key));
       r.Some? && r.value.lastTs.Some? && r.value.lastTs.value >= env.stream[m].originTs
  }

  ghost predicate FromStream(env: Env, row: Row) {
    exists m | 0 <= m < |env.stream| && Accepts(env, env.stream[m]) :: row == RowOf(env, env.stream[m])
  }

  ghost predicate HashesOk(env: Env, s: State) {
    && (forall k | k in s.hashes ::
          ReadState(s.hashes[k]).Some? && ReadState(s.hashes[k]).value.lastTs.Some? && k.tenant in env.tenants)
    && (forall k, id | OpenIn(s.hashes, k, id) ::
          id in s.episodes && s.episodes[id].tenant == env.tenants[k.tenant])
    && (forall k, k', id | OpenIn(s.hashes, k, id) && OpenIn(s.hashes, k', id) :: k == k')
    && s.episodes.Keys <= s.minted
  }

  /** What an in-flight forecast knows: the hash it read is still the hash. */
  ghost predicate InFlight(env: Env, s: State, m: nat, uuid: nat, t: Option<Transition>) {
    m < |env.stream| && Accepts(env, env.stream[m])
    && var r := ReadState(HashAt(s.hashes, env.stream[m].key));
       r.Some? && t == Advance(r.value, Summarise(env.stream[m]), env.rules, uuid)
  }

  ghost predicate PhaseOk(env: Env, s: State) {
    match s.phase
    case Idle => true
    case Advanced(m, uuid, t) => InFlight(env, s, m, uuid, t) && uuid in s.minted && uuid !in s.episodes
    case Committed(m, uuid, t) =>
      && InFlight(env, s, m, uuid, t)
      && HasKey(s.forecasts, KeyOf(env, env.stream[m]))
      && (t.Some? && t.value.episode.Some? ==>
            var id := t.value.episode.value.id;
            id in s.episodes && s.episodes[id].tenant == env.tenants[env.stream[m].key.tenant]
            && s.episodes[id].endedAt == t.value.endedAt)
      && (t.Some? && t.value.opens ==> forall k | k in s.hashes :: !OpenIn(s.hashes, k, uuid))
    case Written(m) => Durable(env, s, m)
  }

  ghost predicate RowsOk(env: Env, rows: seq<Row>) {
    DistinctKeys(rows) && forall i | 0 <= i < |rows| :: FromStream(env, rows[i])
  }

  ghost predicate AckedOk(env: Env, s: State) {
    forall m | m in s.acked :: Durable(env, s, m)
  }

  ghost predicate Inv(env: Env, s: State) {
    && RowsOk(env, s.forecasts)
    && AckedOk(env, s)
    && HashesOk(env, s)
    && PhaseOk(env, s)
  }

  lemma InsertKeepsKeys(rows: seq<Row>, row: Row)
    ensures HasKey(InsertRow(rows, row), row.key)
    ensures DistinctKeys(rows) ==> DistinctKeys(InsertRow(rows, row))
    ensures forall k | HasKey(rows, k) :: HasKey(InsertRow(rows, row), k)
    ensures forall k | HasKey(InsertRow(rows, row), k) :: HasKey(rows, k) || k == row.key
  {
    var rows' := InsertRow(rows, row);
    if !HasKey(rows, row.key) {
      assert rows'[|rows|].key == row.key;
    }
    forall k | HasKey(rows, k) ensures HasKey(rows', k) {
      var i :| 0 <= i < |rows| && rows[i].key == k;
      assert rows'[i].key == k;
    }
  }

  /** h' is h with one host's hash replaced by one that reads back as the given state. */
  ghost predicate Replaces(h: map<HostKey, Hash>, h': map<HostKey, Hash>, k0: HostKey, state: HostState) {
    && k0 in h' && ReadState(h'[k0]) == Some(state)
    && (forall k | k != k0 :: (k in h' <==> k in h))
    && (forall k | k in h && k != k0 :: h'[k] == h[k])
  }

  lemma WriteHashReplaces(h: map<HostKey, Hash>, k: HostKey, t: Transition)
    requires t.state.lastTs.Some?
    ensures Replaces(h, WriteHash(h, k, Some(t)), k, t.state)
  {
    HashRoundTrip(HashAt(h, k), t.state);
  }

  lemma InsertKeepsRowsOk(env: Env, rows: seq<Row>, f: Forecast)
    requires RowsOk(env, rows) && f in env.stream && Accepts(env, f)
    ensures RowsOk(env, InsertRow(rows, RowOf(env, f)))
  {
    var rows' := InsertRow(rows, RowOf(env, f));
    InsertKeepsKeys(rows, RowOf(env, f));
    var m :| 0 <= m < |env.stream| && env.stream[m] == f;
    assert FromStream(env, RowOf(env, f));
    assert forall i | 0 <= i < |rows| :: rows'[i] == rows[i];
  }

  /** What a commit does to the episode rows when it changes any. */
  ghost predicate EpisodesGrow(before: map<nat, EpisodeRow>, after: map<nat, EpisodeRow>, id: nat) {
    && after.Keys == before.Keys + {id}
    && (forall i | i in before && i != id :: after[i] == before[i])
    && (id in before ==> after[id].tenant == before[id].tenant)
  }

  lemma CommitWritesOwn(env: Env, s: State)
    requires Inv(env, s) && s.phase.Advanced?
    ensures var t, after := s.phase.transition, Step(env, s, Commit).episodes;
            if t.None? || t.value.episode.None? then after == s.episodes
            else
              var id := t.value.episode.value.id;
              && EpisodesGrow(s.episodes, after, id)
              && after[id].tenant == env.tenants[env.stream[s.phase.msg].key.tenant]
              && after[id].endedAt == t.value.endedAt
              && (t.value.opens ==> id == s.phase.uuid && id !in s.episodes)
              && (!t.value.opens ==> OpenIn(s.hashes, env.stream[s.phase.msg].key, id) && id in s.episodes)
  {
    var t, f := s.phase.transition, env.stream[s.phase.msg];
    if t.Some? && t.value.episode.Some? && !t.value.opens {
      assert OpenIn(s.hashes, f.key, t.value.episode.value.id);
    }
  }

  lemma GrowKeepsHashesOk(env: Env, s: State, after: map<nat, EpisodeRow>, id: nat)
    requires HashesOk(env, s) && EpisodesGrow(s.episodes, after, id) && id in s.minted
    ensures HashesOk(env, s.(episodes := after))
  {
  }

  lemma CommitKeepsHashes(env: Env, s: State)
    requires Inv(env, s) && s.phase.Advanced?
    ensures HashesOk(env, Step(env, s, Commit))
  {
    var t, s' := s.phase.transition, Step(env, s, Commit);
    CommitWritesOwn(env, s);
    if t.Some? && t.value.episode.Some? {
      GrowKeepsHashesOk(env, s, s'.episodes, t.value.episode.value.id);
    }
  }

  lemma CommitKeepsPhase(env: Env, s: State)
    requires Inv(env, s) && s.phase.Advanced?
    ensures PhaseOk(env, Step(env, s, Commit))
  {
    CommitWritesOwn(env, s);
    InsertKeepsKeys(s.forecasts, RowOf(env, env.stream[s.phase.msg]));
  }

  lemma CommitKeepsInv(env: Env, s: State)
    requires Inv(env, s) && s.phase.Advanced?
    ensures Inv(env, Step(env, s, Commit))
  {
    var f := env.stream[s.phase.msg];
    InsertKeepsRowsOk(env, s.forecasts, f);
    InsertKeepsKeys(s.forecasts, RowOf(env, f));
    CommitKeepsHashes(env, s);
    CommitKeepsPhase(env, s);
  }

  lemma ReplaceKeepsHashesOk(env: Env, s: State, h': map<HostKey, Hash>, k0: HostKey, state: HostState)
    requires HashesOk(env, s) && Replaces(s.hashes, h', k0, state)
    requires state.lastTs.Some? && k0.tenant in env.tenants
    requires state.episode.Some? ==>
               var id := state.episode.value.id;
               id in s.episodes && s.episodes[id].tenant == env.tenants[k0.tenant]
               && forall k | k != k0 :: !OpenIn(s.hashes, k, id)
    ensures HashesOk(env, s.(hashes := h'))
  {
    forall k, id | OpenIn(h', k, id)
      ensures if k == k0 then state.episode.Some? && state.episode.value.id == id else OpenIn(s.hashes, k, id)
    {
    }
  }

  lemma ReplaceKeepsDurable(env: Env, s: State, h': map<HostKey, Hash>, k0: HostKey, state: HostState, m: nat)
    requires Replaces(s.hashes, h', k0, state) && Durable(env, s, m)
    requires state.lastTs.Some? && ReadState(HashAt(s.hashes, k0)).Some?
    requires var before := ReadState(HashAt(s.hashes, k0)).value.lastTs;
             before.Some? ==> before.value <= state.lastTs.value
    ensures Durable(env, s.(hashes := h'), m)
  {
  }

  /** The state after the hash write of a transition. */
  function Finished(s: State, h': map<HostKey, Hash>): State
    requires s.phase.Committed?
  {
    s.(hashes := h', phase := Written(s.phase.msg))
  }

  lemma ReplaceKeepsAcked(env: Env, s: State, h': map<HostKey, Hash>, k0: HostKey, state: HostState)
    requires Replaces(s.hashes, h', k0, state) && AckedOk(env, s)
    requires state.lastTs.Some? && ReadState(HashAt(s.hashes, k0)).Some?
    requires var before := ReadState(HashAt(s.hashes, k0)).value.lastTs;
             before.Some? ==> before.value <= state.lastTs.value
    ensures AckedOk(env, s.(hashes := h'))
  {
    forall m | m in s.acked
      ensures Durable(env, s.(hashes := h'), m)
    {
      ReplaceKeepsDurable(env, s, h', k0, state, m);
    }
  }

  /** What a committed transition says of the hash it was computed from. */
  lemma PendingTransition(env: Env, s: State, t: Transition)
    requires PhaseOk(env, s) && s.phase.Committed? && s.phase.transition == Some(t)
    ensures t.state.lastTs == Some(env.stream[s.phase.msg].originTs)
    ensures var r := ReadState(HashAt(s.hashes, env.stream[s.phase.msg].key));
            r.Some? && (r.value.lastTs.Some? ==> r.value.lastTs.value <= t.state.lastTs.value)
    ensures t.state.episode.Some? ==> t.episode == t.state.episode
    ensures t.opens ==> t.state.episode.Some? && t.state.episode.value.id == s.phase.uuid
    ensures t.episode.Some? && !t.opens ==>
              OpenIn(s.hashes, env.stream[s.phase.msg].key, t.episode.value.id)
  {
  }

  lemma FinishKeepsAcked(env: Env, s: State, h': map<HostKey, Hash>, t: Transition)
    requires Inv(env, s) && s.phase.Committed? && s.phase.transition == Some(t)
    requires Replaces(s.hashes, h', env.stream[s.phase.msg].key, t.state)
    ensures AckedOk(env, Finished(s, h'))
  {
    PendingTransition(env, s, t);
    ReplaceKeepsAcked(env, s, h', env.stream[s.phase.msg].key, t.state);
  }

  lemma FinishKeepsPhase(env: Env, s: State, h': map<HostKey, Hash>, t: Transition)
    requires PhaseOk(env, s) && s.phase.Committed? && s.phase.transition == Some(t)
    requires Replaces(s.hashes, h', env.stream[s.phase.msg].key, t.state)
    ensures PhaseOk(env, Finished(s, h'))
  {
    PendingTransition(env, s, t);
  }

  lemma FinishKeepsHashes(env: Env, s: State, h': map<HostKey, Hash>, t: Transition)
    requires Inv(env, s) && s.phase.Committed? && s.phase.transition == Some(t)
    requires Replaces(s.hashes, h', env.stream[s.phase.msg].key, t.state)
    ensures HashesOk(env, Finished(s, h'))
  {
    PendingTransition(env, s, t);
    ReplaceKeepsHashesOk(env, s, h', env.stream[s.phase.msg].key, t.state);
  }

  lemma WriteKeepsInv(env: Env, s: State)
    requires Inv(env, s) && s.phase.Committed?
    ensures Inv(env, Step(env, s, WriteRedis))
  {
    if s.phase.transition.Some? {
      var h' := WriteHash(s.hashes, env.stream[s.phase.msg].key, s.phase.transition);
      WriteHashReplaces(s.hashes, env.stream[s.phase.msg].key, s.phase.transition.value);
      assert Step(env, s, WriteRedis) == Finished(s, h');
      FinishKeepsAcked(env, s, h', s.phase.transition.value);
      FinishKeepsPhase(env, s, h', s.phase.transition.value);
      FinishKeepsHashes(env, s, h', s.phase.transition.value);
    }
  }

  lemma StepKeepsInv(env: Env, s: State, a: Action)
    requires Inv(env, s)
    ensures Inv(env, Step(env, s, a))
  {
    match a
    case Begin(_, _) =>
    case Commit => if s.phase.Advanced? { CommitKeepsInv(env, s); }
    case WriteRedis => if s.phase.Committed? { WriteKeepsInv(env, s); }
    case Ack =>
    case Crash =>
  }

  lemma {:induction false} RunKeepsInv(env: Env, acts: seq<Action>)
    ensures Inv(env, Run(env, acts))
  {
    if acts != [] {
      RunKeepsInv(env, acts[..|acts| - 1]);
      StepKeepsInv(env, Run(env, acts[..|acts| - 1]), acts[|acts| - 1]);
    }
  }

  // ------------------------------------------------------------------------- the theorems

  /** The episode row an opening commit has added and its hash write has not adopted yet. */
  ghost function Unadopted(s: State): set<nat> {
    if Opening(s.phase) then {s.phase.uuid} else {}
  }

  lemma CommitOrphans(env: Env, s: State)
    requires Inv(env, s) && s.phase.Advanced?
    ensures var s' := Step(env, s, Commit);
            Orphans(s') == Orphans(s) + Unadopted(s') && Orphans(s) !! Unadopted(s')
  {
    var s' := Step(env, s, Commit);
    var f, t := env.stream[s.phase.msg], s.phase.transition;
    if t.Some? && t.value.episode.Some? && !t.value.opens {
      assert OpenIn(s.hashes, f.key, t.value.episode.value.id);
    }
    forall id ensures id in Orphans(s') <==> id in Orphans(s) + Unadopted(s') {
      if Opening(s'.phase) && id == s.phase.uuid {
        assert forall k | k in s.hashes :: !OpenIn(s.hashes, k, id);
      }
    }
  }

  /** Replacing one host's hash moves its open id, and touches no other host's. */
  lemma ReplaceMovesOpen(h: map<HostKey, Hash>, h': map<HostKey, Hash>, k0: HostKey, state: HostState,
                         k: HostKey, id: nat)
    requires Replaces(h, h', k0, state)
    ensures OpenIn(h', k, id)
       <==> if k == k0 then state.episode.Some? && state.episode.value.id == id else OpenIn(h, k, id)
  {
  }

  lemma FinishOrphan(env: Env, s: State, h': map<HostKey, Hash>, t: Transition, id: nat)
    requires Inv(env, s) && s.phase.Committed? && s.phase.transition == Some(t)
    requires Replaces(s.hashes, h', env.stream[s.phase.msg].key, t.state)
    requires id in s.episodes && s.episodes[id].endedAt.None?
    ensures IsOrphan(Finished(s, h'), id) <==> IsOrphan(s, id) && !(t.opens && id == s.phase.uuid)
  {
    var k0 := env.stream[s.phase.msg].key;
    PendingTransition(env, s, t);
    forall k
      ensures OpenIn(h', k, id)
         <==> if k == k0 then t.state.episode.Some? && t.state.episode.value.id == id else OpenIn(s.hashes, k, id)
    {
      ReplaceMovesOpen(s.hashes, h', k0, t.state, k, id);
    }
    if OpenIn(s.hashes, k0, id) {
      OpenIsNotClosed(env, s, t, id);
    }
  }

  /** The row an in-flight close has already closed is the one its host holds open. */
  lemma OpenIsNotClosed(env: Env, s: State, t: Transition, id: nat)
    requires PhaseOk(env, s) && s.phase.Committed? && s.phase.transition == Some(t)
    requires id in s.episodes && s.episodes[id].endedAt.None?
    requires OpenIn(s.hashes, env.stream[s.phase.msg].key, id)
    ensures t.state.episode.Some? && t.state.episode.value.id == id
  {
  }

  lemma FinishOrphans(env: Env, s: State, h': map<HostKey, Hash>, t: Transition)
    requires Inv(env, s) && s.phase.Committed? && s.phase.transition == Some(t)
    requires Replaces(s.hashes, h', env.stream[s.phase.msg].key, t.state)
    ensures Orphans(Finished(s, h')) == Orphans(s) - Unadopted(s)
  {
    forall id | id in s.episodes && s.episodes[id].endedAt.None?
      ensures IsOrphan(Finished(s, h'), id) <==> IsOrphan(s, id) && !(t.opens && id == s.phase.uuid)
    {
      FinishOrphan(env, s, h', t, id);
    }
  }

  lemma UnadoptedIsOrphan(env: Env, s: State)
    requires PhaseOk(env, s)
    ensures Unadopted(s) <= Orphans(s)
  {
  }

  lemma WriteOrphans(env: Env, s: State)
    requires Inv(env, s) && s.phase.Committed?
    ensures Orphans(Step(env, s, WriteRedis)) == Orphans(s) - Unadopted(s) && Unadopted(s) <= Orphans(s)
  {
    UnadoptedIsOrphan(env, s);
    if s.phase.transition.Some? {
      var t := s.phase.transition.value;
      var h' := WriteHash(s.hashes, env.stream[s.phase.msg].key, s.phase.transition);
      WriteHashReplaces(s.hashes, env.stream[s.phase.msg].key, t);
      FinishOrphans(env, s, h', t);
      assert Step(env, s, WriteRedis) == Finished(s, h');
    } else {
      SameRowsSameOrphans(s, Step(env, s, WriteRedis));
    }
  }

  lemma SameRowsSameOrphans(s: State, s': State)
    requires s'.episodes == s.episodes && s'.hashes == s.hashes
    ensures Orphans(s') == Orphans(s)
  {
    assert forall id | id in s.episodes :: IsOrphan(s', id) <==> IsOrphan(s, id);
  }

  lemma StepOrphans(env: Env, s: State, a: Action)
    requires Inv(env, s)
    ensures var s' := Step(env, s, a);
            |Orphans(s')| - |Unadopted(s')|
            == |Orphans(s)| - |Unadopted(s)| + if a.Crash? && Opening(s.phase) then 1 else 0
  {
    if a.Commit? && s.phase.Advanced? {
      CommitOrphans(env, s);
    } else if a.WriteRedis? && s.phase.Committed? {
      WriteOrphans(env, s);
    } else {
      SameRowsSameOrphans(s, Step(env, s, a));
    }
  }

  /**
  Over every run the orphan rows are exactly the crashes between the commit and
  the hash write of an opening forecast (plus the one such forecast in flight).
  */
  lemma {:induction false} OrphansAreLostOpenings(env: Env, acts: seq<Action>)
    ensures |Orphans(Run(env, acts))| == LostOpenings(env, acts) + |Unadopted(Run(env, acts))|
  {
    if acts == [] {
      assert Orphans(EMPTY) == {};
    } else {
      var before := acts[..|acts| - 1];
      OrphansAreLostOpenings(env, before);
      RunKeepsInv(env, before);
      StepOrphans(env, Run(env, before), acts[|acts| - 1]);
    }
  }

  lemma {:induction false} NoCrashNoOrphan(env: Env, acts: seq<Action>)
    requires Crash !in acts && Run(env, acts).phase.Idle?
    ensures Orphans(Run(env, acts)) == {}
  {
    OrphansAreLostOpenings(env, acts);
    NoCrashNoLoss(env, acts);
  }

  lemma {:induction false} NoCrashNoLoss(env: Env, acts: seq<Action>)
    requires Crash !in acts
    ensures LostOpenings(env, acts) == 0
  {
    if acts != [] {
      NoCrashNoLoss(env, acts[..|acts| - 1]);
    }
  }

  /** The table holds one row per committed key and no other row. */
  lemma {:induction false} OneRowPerCommit(env: Env, acts: seq<Action>)
    ensures DistinctKeys(Run(env, acts).forecasts)
    ensures forall k :: HasKey(Run(env, acts).forecasts, k) <==> k in CommittedKeys(env, acts)
  {
    RunKeepsInv(env, acts);
    if acts != [] {
      var before := acts[..|acts| - 1];
      OneRowPerCommit(env, before);
      var s := Run(env, before);
      if acts[|acts| - 1].Commit? && s.phase.Advanced? {
        RunKeepsInv(env, before);
        InsertKeepsKeys(s.forecasts, RowOf(env, env.stream[s.phase.msg]));
      }
    }
  }

  /** A row says what its message says: no look-ahead in it, its key, its peak, and the rest as it came. */
  ghost predicate Stores(env: Env, row: Row, f: Forecast) {
    && f.horizons != [] && (forall i | 0 <= i < |f.horizons| :: f.horizons[i].ts > f.originTs)
    && f.key.tenant in env.tenants && row.key == RowKey(env.tenants[f.key.tenant], f.key.host, f.originTs)
    && IsPeakOf(row.maxP, f.horizons) && row.stage == f.stage && row.payload == f.payload
  }

  /** On every run: each row of the forecasts table stores a message of the stream. */
  lemma RowsStoreMessages(env: Env, acts: seq<Action>, i: nat) returns (m: nat)
    requires i < |Run(env, acts).forecasts|
    ensures m < |env.stream| && Stores(env, Run(env, acts).forecasts[i], env.stream[m])
  {
    RunKeepsInv(env, acts);
    assert FromStream(env, Run(env, acts).forecasts[i]);
    m :| 0 <= m < |env.stream| && Accepts(env, env.stream[m])
         && Run(env, acts).forecasts[i] == RowOf(env, env.stream[m]);
    MaxPIsPeak(env.stream[m].horizons);
  }

  /** A stored row is never changed or dropped: a later message with its key leaves it as it is. */
  lemma {:induction false} RowsAreForGood(env: Env, acts: seq<Action>, all: seq<Action>)
    requires acts <= all
    ensures Run(env, acts).forecasts <= Run(env, all).forecasts
    decreases |all|
  {
    if acts != all {
      RowsAreForGood(env, acts, all[..|all| - 1]);
    }
  }

  /** On every run: an idle host opens an episode at an advancing forecast just when a horizon reaches the threshold. */
  lemma OpensIff(env: Env, acts: seq<Action>, f: Forecast, uuid: nat)
    requires f.horizons != []
    ensures var r := ReadState(HashAt(Run(env, acts).hashes, f.key));
            r.Some? && (r.value.episode.None? ==>
                          var t := Advance(r.value, Summarise(f), env.rules, uuid);
                          t.Some? ==> (t.value.opens <==> Reaches(f.horizons, env.rules.riskThreshold)))
  {
    HashIsFold(env, acts, f.key);
    SummaryIs(f, env.rules.riskThreshold);
  }

  /** An acked forecast is in the table, as itself or an equal key, and the watermark has passed it. */
  lemma AckedIsDurable(env: Env, acts: seq<Action>, m: nat)
    requires m in Run(env, acts).acked
    ensures Durable(env, Run(env, acts), m)
    ensures exists i | 0 <= i < |Run(env, acts).forecasts| ::
              Run(env, acts).forecasts[i].key == KeyOf(env, env.stream[m])
              && FromStream(env, Run(env, acts).forecasts[i])
  {
    RunKeepsInv(env, acts);
    var s := Run(env, acts);
    var i :| 0 <= i < |s.forecasts| && s.forecasts[i].key == KeyOf(env, env.stream[m]);
    assert FromStream(env, s.forecasts[i]);
  }

  lemma SplitCompleted(c: seq<(Summary, nat)>, x: (Summary, nat))
    ensures Summaries(c + [x]) == Summaries(c) + [x.0]
    ensures Uuids(c + [x]) == Uuids(c) + [x.1]
  {
  }

  /** The fold over one more completed forecast is one more `Advance`. */
  lemma FoldSnoc(c: seq<(Summary, nat)>, x: (Summary, nat), rules: Rules)
    ensures var before := Deliver(Summaries(c), Uuids(c), rules, |c|).state;
            var t := Advance(before, x.0, rules, x.1);
            Deliver(Summaries(c + [x]), Uuids(c + [x]), rules, |c| + 1).state
            == if t.Some? then t.value.state else before
    ensures Deliver(Summaries(c + [x]), Uuids(c + [x]), rules, |c| + 1)
         == Append(Deliver(Summaries(c), Uuids(c), rules, |c|), x.0, rules, x.1)
  {
    SplitCompleted(c, x);
    DeliverPrefix(Summaries(c), Uuids(c), [x.0], [x.1], rules, |c|);
  }

  /** What a step does to one host's hash, as it reads back. */
  lemma StepRead(env: Env, s: State, a: Action, k: HostKey)
    requires Inv(env, s)
    ensures ReadState(HashAt(Step(env, s, a).hashes, k))
         == if a.WriteRedis? && s.phase.Committed? && env.stream[s.phase.msg].key == k && s.phase.transition.Some?
            then Some(s.phase.transition.value.state)
            else ReadState(HashAt(s.hashes, k))
  {
    if a.WriteRedis? && s.phase.Committed? && s.phase.transition.Some? {
      WriteHashReplaces(s.hashes, env.stream[s.phase.msg].key, s.phase.transition.value);
    }
  }

  /** r' is what a step leaves in one host's hash: the fold has taken the same step. */
  lemma ReadFolds(env: Env, s: State, a: Action, k: HostKey, c: seq<(Summary, nat)>, r': Option<HostState>)
    requires PhaseOk(env, s)
    requires ReadState(HashAt(s.hashes, k)) == Some(Deliver(Summaries(c), Uuids(c), env.rules, |c|).state)
    requires r' == if a.WriteRedis? && s.phase.Committed? && env.stream[s.phase.msg].key == k
                      && s.phase.transition.Some?
                   then Some(s.phase.transition.value.state)
                   else ReadState(HashAt(s.hashes, k))
    ensures var c' := c + Completes(env, s, a, k);
            r' == Some(Deliver(Summaries(c'), Uuids(c'), env.rules, |c'|).state)
  {
    if a.WriteRedis? && s.phase.Committed? && env.stream[s.phase.msg].key == k {
      FoldSnoc(c, (Summarise(env.stream[s.phase.msg]), s.phase.uuid), env.rules);
    } else {
      assert c + Completes(env, s, a, k) == c;
    }
  }

  /**
  Crashes never bend the lifecycle: a host's hash always reads back as the fold of
  `Advance` over that host's completed forecasts, in completion order.
  */
  lemma {:induction false} HashIsFold(env: Env, acts: seq<Action>, k: HostKey)
    ensures var c := Completed(env, acts, k);
            ReadState(HashAt(Run(env, acts).hashes, k))
            == Some(Deliver(Summaries(c), Uuids(c), env.rules, |c|).state)
  {
    if acts != [] {
      var before := acts[..|acts| - 1];
      HashIsFold(env, before, k);
      RunKeepsInv(env, before);
      var s, a := Run(env, before), acts[|acts| - 1];
      StepRead(env, s, a, k);
      ReadFolds(env, s, a, k, Completed(env, before, k), ReadState(HashAt(Step(env, s, a).hashes, k)));
    }
  }

  /** So any crashes, redeliveries and reorderings leave the closed form of the records. */
  lemma CrashesKeepClosedForm(env: Env, acts: seq<Action>, k: HostKey)
    ensures var c := Summaries(Completed(env, acts, k));
            var r := ReadState(HashAt(Run(env, acts).hashes, k));
            r.Some? && exists e :: EraseEpisode(e) == EraseEpisode(r.value.episode)
                                   && ClosedForm(Records(c, |c|), env.rules, |Records(c, |c|)|, e)
  {
    var c := Completed(env, acts, k);
    HashIsFold(env, acts, k);
    AnyDeliveryHasClosedForm(Summaries(c), Uuids(c), env.rules);
  }

  /** An orphan whose opening is no longer in flight stays one. */
  lemma StepKeepsOrphan(env: Env, s: State, a: Action, id: nat)
    requires Inv(env, s) && id in Orphans(s) && id !in Unadopted(s)
    ensures id in Orphans(Step(env, s, a)) && id !in Unadopted(Step(env, s, a))
  {
    if a.Commit? && s.phase.Advanced? {
      CommitOrphans(env, s);
    } else if a.WriteRedis? && s.phase.Committed? {
      WriteOrphans(env, s);
    } else {
      SameRowsSameOrphans(s, Step(env, s, a));
    }
  }

  /** The rows lost for good: orphans whose opening is not in flight. */
  ghost function LostRows(s: State): set<nat> {
    Orphans(s) - Unadopted(s)
  }

  lemma StepKeepsLost(env: Env, s: State, a: Action)
    requires Inv(env, s)
    ensures LostRows(s) <= LostRows(Step(env, s, a))
  {
    forall id | id in LostRows(s)
      ensures id in LostRows(Step(env, s, a))
    {
      StepKeepsOrphan(env, s, a, id);
    }
  }

  lemma {:induction false} LostRowsGrow(env: Env, acts: seq<Action>, all: seq<Action>)
    requires acts <= all
    ensures LostRows(Run(env, acts)) <= LostRows(Run(env, all))
    decreases |all|
  {
    if acts != all {
      var init := all[..|all| - 1];
      LostRowsGrow(env, acts, init);
      RunKeepsInv(env, init);
      StepKeepsLost(env, Run(env, init), all[|all| - 1]);
    }
  }

  /** Whatever happens next, every row orphaned so far stays an orphan. */
  lemma OrphansAreForGood(env: Env, acts: seq<Action>, more: seq<Action>)
    ensures var s, s' := Run(env, acts), Run(env, acts + more);
            Orphans(s) - Unadopted(s) <= Orphans(s') - Unadopted(s')
            && (s.phase.Idle? ==> Orphans(s) <= Orphans(s'))
  {
    LostRowsGrow(env, acts, acts + more);
    var s := Run(env, acts);
    assert s.phase.Idle? ==> LostRows(s) == Orphans(s);
  }

  /** The unconditional claim is false: one badly timed crash on the very first forecast is enough. */
  lemma OrphanExample()
    ensures var f := Forecast(HostKey("t", "h"), 0, [Horizon(1, 1.0)], "", "");
            var env := Env([f], Rules(0.5, 1, 1), map["t" := 7]);
            |Orphans(Run(env, [Begin(0, 1), Commit, Crash]))| == 1
  {
    var f := Forecast(HostKey("t", "h"), 0, [Horizon(1, 1.0)], "", "");
    var env := Env([f], Rules(0.5, 1, 1), map["t" := 7]);
    assert Accepts(env, f) && env.stream[0] == f && Summarise(f).maxP == 1.0;
    var a1, a2, a3 := [Begin(0, 1)], [Begin(0, 1), Commit], [Begin(0, 1), Commit, Crash];
    assert a1[..0] == [] && a2[..1] == a1 && a3[..2] == a2;
    assert Run(env, []) == EMPTY && LostOpenings(env, []) == 0;
    var t := Advance(FRESH_HOST, Summarise(f), env.rules, 1);
    assert ReadState(HashAt(EMPTY.hashes, f.key)) == Some(FRESH_HOST);
    assert Run(env, a1) == EMPTY.(phase := Advanced(0, 1, t), minted := {1});
    assert Opening(Run(env, a2).phase);
    assert LostOpenings(env, a1) == 0 && LostOpenings(env, a2) == 0 && LostOpenings(env, a3) == 1;
    assert Run(env, a3).phase.Idle?;
    OrphansAreLostOpenings(env, a3);
  }

  // --------------------------------------------------------------------------- the worker

  /** One delivery with no crash in it. */
  function Handled(env: Env, s: State, m: nat, uuid: nat): State {
    Step(env, Step(env, Step(env, Step(env, s, Begin(m, uuid)), Commit), WriteRedis), Ack)
  }

  lemma HandledIs(env: Env, s: State, m: nat, uuid: nat, state: HostState)
    requires s.phase.Idle? && m < |env.stream| && uuid !in s.minted && Accepts(env, env.stream[m])
    requires ReadState(HashAt(s.hashes, env.stream[m].key)) == Some(state)
    ensures var f := env.stream[m];
            var t := Advance(state, Summarise(f), env.rules, uuid);
            Handled(env, s, m, uuid) == State(
              InsertRow(s.forecasts, RowOf(env, f)), WriteEpisode(s.episodes, env.tenants[f.key.tenant], f.key.host, t),
              WriteHash(s.hashes, f.key, t), s.acked + {m}, s.minted + {uuid}, Idle)
  {
  }

  datatype PersistOutcome = Raised | Persisted(inserted: bool, transition: Option<Transition>)

  /** The worker over its two stores; its `Handle` is one crash-free delivery of the machine above. */
  class PersisterWorker {
    const env: Env
    var forecasts: seq<Row>
    var episodes: map<nat, EpisodeRow>
    var hashes: map<HostKey, Hash>
    var acked: set<nat>
    ghost var minted: set<nat>

    constructor (env: Env)
      ensures this.env == env && View() == EMPTY
    {
      this.env := env;
      forecasts, episodes, hashes, acked, minted := [], map[], map[], {}, {};
    }

    ghost function View(): State
      reads this
    {
      State(forecasts, episodes, hashes, acked, minted, Idle)
    }

    method InsertForecast(row: Row) returns (inserted: bool)
      modifies this`forecasts
      ensures inserted <==> !HasKey(old(forecasts), row.key)
      ensures forecasts == InsertRow(old(forecasts), row)
    {
      inserted := !HasKey(forecasts, row.key);
      if inserted {
        forecasts := forecasts + [row];
      }
    }

    method WriteEpisodeRow(tenant: nat, host: string, t: Transition)
      modifies this`episodes
      ensures episodes == WriteEpisode(old(episodes), tenant, host, Some(t))
    {
      if t.episode.None? { return; }
      var e := t.episode.value;
      if t.opens {
        episodes := episodes[e.id := EpisodeRow(tenant, host, e.startedAt, t.endedAt, e.peakRisk,
                                                e.stages, e.firstAlertAt)];
        return;
      }
      if e.id in episodes && episodes[e.id].tenant == tenant {
        var row := episodes[e.id];
        episodes := episodes[e.id := row.(endedAt := t.endedAt, peakRisk := e.peakRisk,
                                          stages := e.stages, firstAlertAt := e.firstAlertAt)];
      }
    }

    /** The pipeline of `write_state`: delete what must go, then set what is there. */
    method WriteHostState(k: HostKey, state: HostState)
      modifies this`hashes
      ensures hashes == old(hashes)[k := WriteState(HashAt(old(hashes), k), state)]
    {
      var h := HashAt(hashes, k);
      var mapping := if state.lastTs.Some? then map[LastTs := Time(state.lastTs.value)] else map[];
      match state.episode {
        case None =>
          h := h - OPEN_FIELDS;
        case Some(e) =>
          mapping := mapping + map[Id := Uuid(e.id), StartedAt := Time(e.startedAt), PeakRisk := Number(e.peakRisk),
                                   Stages := List(e.stages), Above := Count(e.above), Below := Count(e.below)];
          if e.firstAlertAt.Some? {
            mapping := mapping[FirstAlertAt := Time(e.firstAlertAt.value)];
          } else {
            h := h - {FirstAlertAt};
          }
      }
      assert mapping == Encode(state);
      hashes := hashes[k := h + mapping];
    }

    /** One message off the stream: the rows, then the hash, then the ack; raising leaves it pending. */
    method Handle(m: nat, uuid: nat) returns (r: PersistOutcome)
      requires m < |env.stream| && uuid !in minted
      modifies this
      ensures r.Raised? <==>
                var f := env.stream[m];
                || f.horizons == [] || (exists i | 0 <= i < |f.horizons| :: f.horizons[i].ts <= f.originTs)
                || f.key.tenant !in env.tenants || ReadState(HashAt(old(hashes), f.key)).None?
      ensures r.Raised? ==> View() == old(View())
      ensures r.Persisted? ==> View() == Handled(env, old(View()), m, uuid)
      ensures r.Persisted? ==> (r.inserted <==> !HasKey(old(forecasts), KeyOf(env, env.stream[m])))
      ensures r.Persisted? ==>
                var f := env.stream[m];
                r.transition == Advance(ReadState(HashAt(old(hashes), f.key)).value, Summarise(f), env.rules, uuid)
    {
      var f := env.stream[m];
      if !Accepts(env, f) { return Raised; }
      var state := ReadState(HashAt(hashes, f.key));
      if state.None? { return Raised; }
      HandledIs(env, View(), m, uuid, state.value);
      minted := minted + {uuid};
      var transition := Advance(state.value, Summarise(f), env.rules, uuid);
      var inserted := InsertForecast(RowOf(env, f));
      if transition.Some? {
        WriteEpisodeRow(env.tenants[f.key.tenant], f.key.host, transition.value);
      }
      // Rows before hash: the order `Step` has between Commit and WriteRedis.
      if transition.Some? {
        WriteHostState(f.key, transition.value.state);
      }
      acked := acked + {m};
      r := Persisted(inserted, transition);
    }
  }
}
