/**
The episodes table under crashes: services/persister/worker.py:154-196 run over
every sequence of protocol steps.

A host's completed forecasts make transitions; an episode's row should be what the
last of them that concerned the episode wrote. A crash between the commit and the
hash write of an update leaves the row ahead of the hash until the host's next
completed forecast; nothing else ever separates the two.
*/
module EpisodeRows {
  import opened Options
  import opened Episodes
  import opened Persister

  /** The last transition that concerned an episode. */
  function LastFor(ts: seq<Transition>, id: nat): Option<Transition> {
    if ts == [] then None
    else
      var t := ts[|ts| - 1];
      if t.episode.Some? && t.episode.value.id == id then Some(t) else LastFor(ts[..|ts| - 1], id)
  }

  function RowFrom(tenant: nat, host: string, t: Transition): EpisodeRow
    requires t.episode.Some?
  {
    var e := t.episode.value;
    EpisodeRow(tenant, host, e.startedAt, t.endedAt, e.peakRisk, e.stages, e.firstAlertAt)
  }

  /** The transitions of a host's completed forecasts. */
  function Made(env: Env, acts: seq<Action>, k: HostKey): seq<Transition> {
    var c := Completed(env, acts, k);
    Deliver(Summaries(c), Uuids(c), env.rules, |c|).transitions
  }

  /** A transition of the host is committed and its hash write is still to come. */
  predicate Writing(env: Env, s: State, k: HostKey) {
    s.phase.Committed? && s.phase.msg < |env.stream| && env.stream[s.phase.msg].key == k && s.phase.transition.Some?
  }

  predicate Updating(env: Env, s: State, k: HostKey) {
    Writing(env, s, k) && s.phase.transition.value.episode.Some? && !s.phase.transition.value.opens
  }

  /** The host's last committed update lost its hash write to a crash. */
  predicate Torn(env: Env, acts: seq<Action>, k: HostKey) {
    acts != []
    && var before, a := acts[..|acts| - 1], acts[|acts| - 1];
       var s := Run(env, before);
       if a.WriteRedis? && Writing(env, s, k) then false
       else (a.Crash? && Updating(env, s, k)) || Torn(env, before, k)
  }

  function Publishes(env: Env, s: State, a: Action, k: HostKey): seq<Transition> {
    if a.WriteRedis? && Writing(env, s, k) then [s.phase.transition.value] else []
  }

  lemma LastForSnoc(ts: seq<Transition>, t: Transition, id: nat)
    ensures LastFor(ts + [t], id)
         == if t.episode.Some? && t.episode.value.id == id then Some(t) else LastFor(ts, id)
  {
    assert (ts + [t])[..|ts|] == ts;
  }

  lemma OneMoreMade(env: Env, s: State, a: Action, k: HostKey, c: seq<(Summary, nat)>)
    requires PhaseOk(env, s)
    requires ReadState(HashAt(s.hashes, k)) == Some(Deliver(Summaries(c), Uuids(c), env.rules, |c|).state)
    ensures var c' := c + Completes(env, s, a, k);
            Deliver(Summaries(c'), Uuids(c'), env.rules, |c'|).transitions
            == Deliver(Summaries(c), Uuids(c), env.rules, |c|).transitions + Publishes(env, s, a, k)
  {
    if a.WriteRedis? && s.phase.Committed? && env.stream[s.phase.msg].key == k {
      FoldSnoc(c, (Summarise(env.stream[s.phase.msg]), s.phase.uuid), env.rules);
    } else {
      assert c + Completes(env, s, a, k) == c;
    }
  }

  lemma MadeStep(env: Env, acts: seq<Action>, k: HostKey)
    requires acts != []
    ensures var before := acts[..|acts| - 1];
            Made(env, acts, k) == Made(env, before, k) + Publishes(env, Run(env, before), acts[|acts| - 1], k)
  {
    var before := acts[..|acts| - 1];
    RunKeepsInv(env, before);
    HashIsFold(env, before, k);
    OneMoreMade(env, Run(env, before), acts[|acts| - 1], k, Completed(env, before, k));
  }

  // -------------------------------------------------- the open aggregate is the last transition

  predicate WellEnded(t: Transition) {
    && (t.closes <==> t.endedAt.Some?)
    && (t.episode.Some? ==> (t.closes <==> t.state.episode.None?))
  }

  lemma {:induction false} LastIsIn(ts: seq<Transition>, id: nat)
    requires LastFor(ts, id).Some?
    ensures LastFor(ts, id).value.episode.Some? && LastFor(ts, id).value.episode.value.id == id
    ensures exists i | 0 <= i < |ts| :: ts[i] == LastFor(ts, id).value
  {
    var t := ts[|ts| - 1];
    if !(t.episode.Some? && t.episode.value.id == id) {
      LastIsIn(ts[..|ts| - 1], id);
      var i :| 0 <= i < |ts| - 1 && ts[..|ts| - 1][i] == LastFor(ts, id).value;
      assert ts[i] == LastFor(ts, id).value;
    }
  }

  lemma {:induction false} DeliverEnds(fs: seq<Summary>, ids: seq<nat>, rules: Rules, n: nat)
    requires n <= |fs| == |ids|
    ensures var o := Deliver(fs, ids, rules, n);
            && (forall i | 0 <= i < |o.transitions| :: WellEnded(o.transitions[i]))
            && (o.state.episode.Some? ==>
                  var l := LastFor(o.transitions, o.state.episode.value.id);
                  l.Some? && l.value.episode == o.state.episode && l.value.state.episode == o.state.episode)
  {
    if n > 0 {
      DeliverEnds(fs, ids, rules, n - 1);
      var o := Deliver(fs, ids, rules, n - 1);
      var a := Advance(o.state, fs[n - 1], rules, ids[n - 1]);
      if a.Some? && a.value.state.episode.Some? {
        LastForSnoc(o.transitions, a.value, a.value.state.episode.value.id);
      }
    }
  }

  ghost predicate Owns(env: Env, acts: seq<Action>, k: HostKey, id: nat) {
    LastFor(Made(env, acts, k), id).Some?
  }

  lemma OpenIsOwned(env: Env, acts: seq<Action>, k: HostKey, id: nat)
    requires OpenIn(Run(env, acts).hashes, k, id)
    ensures Owns(env, acts, k, id)
    ensures var l := LastFor(Made(env, acts, k), id).value;
            && l.episode == ReadState(Run(env, acts).hashes[k]).value.episode
            && l.state.episode == l.episode
  {
    var c := Completed(env, acts, k);
    HashIsFold(env, acts, k);
    DeliverEnds(Summaries(c), Uuids(c), env.rules, |c|);
  }

  // ------------------------------------------------------------------ who owns a row

  lemma OwnsStep(env: Env, acts: seq<Action>, k: HostKey, id: nat)
    requires acts != []
    ensures var before := acts[..|acts| - 1];
            var p := Publishes(env, Run(env, before), acts[|acts| - 1], k);
            LastFor(Made(env, acts, k), id)
            == if p != [] && p[0].episode.Some? && p[0].episode.value.id == id then Some(p[0])
               else LastFor(Made(env, before, k), id)
  {
    var before := acts[..|acts| - 1];
    var p := Publishes(env, Run(env, before), acts[|acts| - 1], k);
    MadeStep(env, acts, k);
    if p != [] {
      LastForSnoc(Made(env, before, k), p[0], id);
      assert p == [p[0]];
    } else {
      assert Made(env, acts, k) == Made(env, before, k);
    }
  }

  ghost predicate OwnersOk(env: Env, acts: seq<Action>) {
    && (forall k, id | Owns(env, acts, k, id) :: id in Run(env, acts).episodes)
    && (forall k, k', id | Owns(env, acts, k, id) && Owns(env, acts, k', id) :: k == k')
    && (Opening(Run(env, acts).phase) ==> forall k :: !Owns(env, acts, k, Run(env, acts).phase.uuid))
  }

  lemma StepKeepsRows(env: Env, s: State, a: Action)
    ensures s.episodes.Keys <= Step(env, s, a).episodes.Keys
  {
  }

  /** Who owns a row changes only when a hash write adopts the one just opened. */
  lemma OwnersStep(env: Env, acts: seq<Action>, k: HostKey, id: nat)
    requires acts != [] && OwnersOk(env, acts[..|acts| - 1])
    ensures var before := acts[..|acts| - 1];
            var s := Run(env, before);
            Owns(env, acts, k, id)
            <==> Owns(env, before, k, id)
                 || (acts[|acts| - 1].WriteRedis? && Writing(env, s, k) && Opening(s.phase) && id == s.phase.uuid)
    ensures Owns(env, acts, k, id) ==> id in Run(env, acts[..|acts| - 1]).episodes
  {
    var before := acts[..|acts| - 1];
    var s := Run(env, before);
    OwnsStep(env, acts, k, id);
    RunKeepsInv(env, before);
    if acts[|acts| - 1].WriteRedis? && Writing(env, s, k) {
      var t := s.phase.transition.value;
      PendingTransition(env, s, t);
      if t.episode.Some? && !t.opens {
        OpenIsOwned(env, before, k, t.episode.value.id);
      }
    }
  }

  lemma OwnerStaysUnique(env: Env, acts: seq<Action>, k: HostKey, k': HostKey, id: nat)
    requires acts != [] && OwnersOk(env, acts[..|acts| - 1]) && Owns(env, acts, k, id) && Owns(env, acts, k', id)
    ensures k == k'
  {
    OwnersStep(env, acts, k, id);
    OwnersStep(env, acts, k', id);
  }

  lemma OpeningComesFrom(env: Env, s: State, a: Action)
    requires PhaseOk(env, s) && Opening(Step(env, s, a).phase)
    ensures var uuid := Step(env, s, a).phase.uuid;
            uuid !in s.episodes || (Opening(s.phase) && uuid == s.phase.uuid && !a.WriteRedis?)
  {
  }

  /** The id of an opening in flight is nobody's. */
  lemma OpeningIsFresh(env: Env, acts: seq<Action>, k: HostKey, uuid: nat)
    requires acts != [] && OwnersOk(env, acts[..|acts| - 1])
    requires var s, a := Run(env, acts[..|acts| - 1]), acts[|acts| - 1];
             uuid !in s.episodes || (Opening(s.phase) && uuid == s.phase.uuid && !a.WriteRedis?)
    ensures !Owns(env, acts, k, uuid)
  {
    OwnersStep(env, acts, k, uuid);
  }

  lemma {:induction false} RunOwnersOk(env: Env, acts: seq<Action>)
    ensures OwnersOk(env, acts)
  {
    if acts != [] {
      var before := acts[..|acts| - 1];
      RunOwnersOk(env, before);
      forall k, id | Owns(env, acts, k, id)
        ensures id in Run(env, acts).episodes
      {
        OwnersStep(env, acts, k, id);
        StepKeepsRows(env, Run(env, before), acts[|acts| - 1]);
      }
      forall k, k', id | Owns(env, acts, k, id) && Owns(env, acts, k', id)
        ensures k == k'
      {
        OwnerStaysUnique(env, acts, k, k', id);
      }
      if Opening(Run(env, acts).phase) {
        RunKeepsInv(env, before);
        OpeningComesFrom(env, Run(env, before), acts[|acts| - 1]);
        forall k
          ensures !Owns(env, acts, k, Run(env, acts).phase.uuid)
        {
          OpeningIsFresh(env, acts, k, Run(env, acts).phase.uuid);
        }
      }
    }
  }

  // ------------------------------------------------------------- what the rows hold

  /** The row has its transition's values, unless an update of it is still on its way to the hash. */
  ghost predicate RowTied(env: Env, s: State, k: HostKey, id: nat, t: Transition, torn: bool) {
    && k.tenant in env.tenants && t.episode.Some? && id in s.episodes
    && s.episodes[id].tenant == env.tenants[k.tenant] && s.episodes[id].host == k.host
    && s.episodes[id].startedAt == t.episode.value.startedAt
    && (s.episodes[id] == RowFrom(env.tenants[k.tenant], k.host, t)
        || ((torn || Updating(env, s, k)) && OpenIn(s.hashes, k, id)))
  }

  ghost predicate PendingRow(env: Env, s: State) {
    s.phase.Committed? && s.phase.msg < |env.stream| && s.phase.transition.Some?
    && s.phase.transition.value.episode.Some? ==>
      var t, k := s.phase.transition.value, env.stream[s.phase.msg].key;
      && k.tenant in env.tenants && t.episode.value.id in s.episodes
      && s.episodes[t.episode.value.id] == RowFrom(env.tenants[k.tenant], k.host, t)
  }

  ghost predicate RowsTied(env: Env, acts: seq<Action>) {
    && PendingRow(env, Run(env, acts))
    && forall k, id | Owns(env, acts, k, id) ::
         RowTied(env, Run(env, acts), k, id, LastFor(Made(env, acts, k), id).value, Torn(env, acts, k))
  }

  /** The row an update is applied to, before and after the commit. */
  lemma CommitRow(env: Env, s: State, t: Transition)
    requires Inv(env, s) && s.phase.Advanced? && s.phase.transition == Some(t) && t.episode.Some?
    ensures env.stream[s.phase.msg].key.tenant in env.tenants
    ensures t.opens ==>
              var k, e := env.stream[s.phase.msg].key, t.episode.value;
              && e.id !in s.episodes
              && Step(env, s, Commit).episodes == s.episodes[e.id := RowFrom(env.tenants[k.tenant], k.host, t)]
    ensures !t.opens ==>
              var k, e := env.stream[s.phase.msg].key, t.episode.value;
              && OpenIn(s.hashes, k, e.id) && e.id in s.episodes
              && e.startedAt == ReadState(s.hashes[k]).value.episode.value.startedAt
              && Step(env, s, Commit).episodes
                 == s.episodes[e.id := s.episodes[e.id].(endedAt := t.endedAt, peakRisk := e.peakRisk,
                                                         stages := e.stages, firstAlertAt := e.firstAlertAt)]
  {
    CommitWritesOwn(env, s);
  }

  /** The state after a commit, seen from one owned row. */
  lemma CommitKeepsTied(env: Env, acts: seq<Action>, t: Transition, k: HostKey, id: nat)
    requires RowsTied(env, acts) && OwnersOk(env, acts) && Owns(env, acts, k, id)
    requires Run(env, acts).phase.Advanced? && Run(env, acts).phase.transition == Some(t) && t.episode.Some?
    ensures RowTied(env, Step(env, Run(env, acts), Commit), k, id,
                    LastFor(Made(env, acts, k), id).value, Torn(env, acts, k))
  {
    var s := Run(env, acts);
    RunKeepsInv(env, acts);
    CommitRow(env, s, t);
    if !t.opens {
      OpenIsOwned(env, acts, env.stream[s.phase.msg].key, t.episode.value.id);
    }
  }

  lemma CommitLeavesPending(env: Env, acts: seq<Action>, t: Transition)
    requires RowsTied(env, acts)
    requires Run(env, acts).phase.Advanced? && Run(env, acts).phase.transition == Some(t) && t.episode.Some?
    ensures PendingRow(env, Step(env, Run(env, acts), Commit))
  {
    var s := Run(env, acts);
    RunKeepsInv(env, acts);
    CommitRow(env, s, t);
    if !t.opens {
      OpenIsOwned(env, acts, env.stream[s.phase.msg].key, t.episode.value.id);
    }
  }

  /** What a hash write says of the host it writes: no other row of it was waiting. */
  lemma OnlyItsOwnWaits(env: Env, s: State, k: HostKey, t: Transition, id: nat)
    requires Inv(env, s) && Writing(env, s, k) && s.phase.transition == Some(t) && OpenIn(s.hashes, k, id)
    ensures t.episode.Some? && t.episode.value.id == id
  {
  }

  lemma WriteKeepsTied(env: Env, acts: seq<Action>, k: HostKey, id: nat)
    requires acts != [] && acts[|acts| - 1].WriteRedis? && Owns(env, acts, k, id)
    requires RowsTied(env, acts[..|acts| - 1]) && Writing(env, Run(env, acts[..|acts| - 1]), k)
    ensures RowTied(env, Run(env, acts), k, id, LastFor(Made(env, acts, k), id).value, Torn(env, acts, k))
  {
    var before := acts[..|acts| - 1];
    var s := Run(env, before);
    var t := s.phase.transition.value;
    RunKeepsInv(env, before);
    OwnsStep(env, acts, k, id);
    if !(t.episode.Some? && t.episode.value.id == id) {
      assert Owns(env, before, k, id);
      if OpenIn(s.hashes, k, id) {
        OnlyItsOwnWaits(env, s, k, t, id);
      }
    }
  }

  /** Any step that neither commits a row nor writes this host's hash. */
  lemma OtherKeepsTied(env: Env, acts: seq<Action>, k: HostKey, id: nat)
    requires acts != [] && Owns(env, acts, k, id)
    requires RowsTied(env, acts[..|acts| - 1])
    requires var s, a := Run(env, acts[..|acts| - 1]), acts[|acts| - 1];
             !(a.WriteRedis? && Writing(env, s, k)) && Run(env, acts).episodes == s.episodes
    ensures RowTied(env, Run(env, acts), k, id, LastFor(Made(env, acts, k), id).value, Torn(env, acts, k))
  {
    var before, a := acts[..|acts| - 1], acts[|acts| - 1];
    var s := Run(env, before);
    RunKeepsInv(env, before);
    OwnsStep(env, acts, k, id);
    assert Owns(env, before, k, id);
    OtherOpenStays(env, s, a, k, id);
  }

  lemma OtherOpenStays(env: Env, s: State, a: Action, k: HostKey, id: nat)
    requires Inv(env, s) && !(a.WriteRedis? && Writing(env, s, k))
    ensures OpenIn(Step(env, s, a).hashes, k, id) <==> OpenIn(s.hashes, k, id)
  {
    if a.WriteRedis? && s.phase.Committed? && s.phase.transition.Some? {
      WriteHashReplaces(s.hashes, env.stream[s.phase.msg].key, s.phase.transition.value);
    }
  }

  predicate CommitsRow(s: State, a: Action) {
    a.Commit? && s.phase.Advanced? && s.phase.transition.Some? && s.phase.transition.value.episode.Some?
  }

  lemma OnlyCommitsChangeRows(env: Env, s: State, a: Action)
    requires !CommitsRow(s, a)
    ensures Step(env, s, a).episodes == s.episodes
    ensures PendingRow(env, s) ==> PendingRow(env, Step(env, s, a))
  {
  }

  lemma StepKeepsTied(env: Env, acts: seq<Action>, k: HostKey, id: nat)
    requires acts != [] && Owns(env, acts, k, id)
    requires RowsTied(env, acts[..|acts| - 1]) && OwnersOk(env, acts[..|acts| - 1])
    ensures RowTied(env, Run(env, acts), k, id, LastFor(Made(env, acts, k), id).value, Torn(env, acts, k))
  {
    var before, a := acts[..|acts| - 1], acts[|acts| - 1];
    var s := Run(env, before);
    if a.WriteRedis? && Writing(env, s, k) {
      WriteKeepsTied(env, acts, k, id);
    } else if CommitsRow(s, a) {
      OwnsStep(env, acts, k, id);
      assert Owns(env, before, k, id);
      CommitKeepsTied(env, before, s.phase.transition.value, k, id);
    } else {
      OnlyCommitsChangeRows(env, s, a);
      OtherKeepsTied(env, acts, k, id);
    }
  }

  lemma {:induction false} RunRowsTied(env: Env, acts: seq<Action>)
    ensures RowsTied(env, acts)
  {
    if acts != [] {
      var before, a := acts[..|acts| - 1], acts[|acts| - 1];
      var s := Run(env, before);
      RunRowsTied(env, before);
      RunOwnersOk(env, before);
      forall k, id | Owns(env, acts, k, id)
        ensures RowTied(env, Run(env, acts), k, id, LastFor(Made(env, acts, k), id).value, Torn(env, acts, k))
      {
        StepKeepsTied(env, acts, k, id);
      }
      if CommitsRow(s, a) {
        CommitLeavesPending(env, before, s.phase.transition.value);
      } else {
        OnlyCommitsChangeRows(env, s, a);
      }
    }
  }

  // ------------------------------------------------------------------------ the theorems

  /**
  Whatever crashes happen, every row of a host has the values of the last transition
  that concerned its episode, except the open one while an update of it is torn or in flight.
  */
  lemma RowIsLastTransition(env: Env, acts: seq<Action>, k: HostKey, id: nat)
    requires Owns(env, acts, k, id)
    ensures var s, t := Run(env, acts), LastFor(Made(env, acts, k), id).value;
            && k.tenant in env.tenants && t.episode.Some? && id in s.episodes
            && s.episodes[id].startedAt == t.episode.value.startedAt
            && (!(Torn(env, acts, k) || Updating(env, s, k)) || !OpenIn(s.hashes, k, id) ==>
                  s.episodes[id] == RowFrom(env.tenants[k.tenant], k.host, t))
  {
    RunRowsTied(env, acts);
    LastIsIn(Made(env, acts, k), id);
  }

  /** With no update torn or in flight, the row of a host's open aggregate is that aggregate's. */
  lemma OpenRowIsAggregate(env: Env, acts: seq<Action>, k: HostKey, id: nat)
    requires OpenIn(Run(env, acts).hashes, k, id)
    requires !Torn(env, acts, k) && !Updating(env, Run(env, acts), k)
    ensures var s := Run(env, acts);
            var e := ReadState(s.hashes[k]).value.episode.value;
            k.tenant in env.tenants && id in s.episodes
            && s.episodes[id] == EpisodeRow(env.tenants[k.tenant], k.host, e.startedAt, None,
                                            e.peakRisk, e.stages, e.firstAlertAt)
  {
    var c := Completed(env, acts, k);
    OpenIsOwned(env, acts, k, id);
    RowIsLastTransition(env, acts, k, id);
    DeliverEnds(Summaries(c), Uuids(c), env.rules, |c|);
    LastIsIn(Made(env, acts, k), id);
  }

  /** A crash that tears an update leaves the row one forecast ahead of the hash. */
  lemma TornRowIsAhead(env: Env, acts: seq<Action>, k: HostKey)
    requires Updating(env, Run(env, acts), k)
    ensures var s, s' := Run(env, acts), Run(env, acts + [Crash]);
            var t := s.phase.transition.value;
            && k.tenant in env.tenants && t.episode.value.id in s'.episodes
            && s'.episodes[t.episode.value.id] == RowFrom(env.tenants[k.tenant], k.host, t)
            && OpenIn(s'.hashes, k, t.episode.value.id)
            && Torn(env, acts + [Crash], k)
            && env.stream[s.phase.msg].horizons != []
            && Some(t) == Advance(ReadState(s'.hashes[k]).value, Summarise(env.stream[s.phase.msg]),
                                  env.rules, s.phase.uuid)
  {
    RunKeepsInv(env, acts);
    RunRowsTied(env, acts);
    assert (acts + [Crash])[..|acts|] == acts;
    PendingTransition(env, Run(env, acts), Run(env, acts).phase.transition.value);
  }

  /**
  Once the hash write of a close has completed, its row stays as the close left it, through any
  crash and in every phase. A close that lost its hash write may be undone: see `Replay`.
  */
  lemma ClosedRowStands(env: Env, acts: seq<Action>, k: HostKey, id: nat)
    requires Owns(env, acts, k, id) && LastFor(Made(env, acts, k), id).value.closes
    ensures var s, t := Run(env, acts), LastFor(Made(env, acts, k), id).value;
            && k.tenant in env.tenants && t.episode.Some? && id in s.episodes
            && s.episodes[id] == RowFrom(env.tenants[k.tenant], k.host, t)
            && s.episodes[id].endedAt.Some?
  {
    var c := Completed(env, acts, k);
    RowIsLastTransition(env, acts, k, id);
    DeliverEnds(Summaries(c), Uuids(c), env.rules, |c|);
    LastIsIn(Made(env, acts, k), id);
    if OpenIn(Run(env, acts).hashes, k, id) {
      OpenIsOwned(env, acts, k, id);
    }
  }

  ghost predicate HasForm(records: seq<Summary>, rules: Rules, t: Transition) {
    exists n: nat | 0 < n <= |records| :: RowForm(records, rules, n, t)
  }

  /** And that transition is one the closed form of the host's records describes. */
  lemma LastTransitionHasForm(env: Env, acts: seq<Action>, k: HostKey, id: nat)
    requires Owns(env, acts, k, id)
    ensures var c := Summaries(Completed(env, acts, k));
            HasForm(Records(c, |c|), env.rules, LastFor(Made(env, acts, k), id).value)
  {
    var c, t := Completed(env, acts, k), LastFor(Made(env, acts, k), id).value;
    var fs := Summaries(c);
    LastIsIn(Made(env, acts, k), id);
    var i: nat :| i < |Made(env, acts, k)| && Made(env, acts, k)[i] == t;
    EveryRowHasForm(fs, Uuids(c), env.rules, i);
    assert HasForm(Records(fs, |fs|), env.rules, t);
  }

  /** Only the hash write that adopts it takes a row off the orphans. */
  lemma KeepsOrphan(env: Env, s: State, a: Action, id: nat)
    requires Inv(env, s) && id in Orphans(s) && !(a.WriteRedis? && Opening(s.phase) && id == s.phase.uuid)
    ensures id in Orphans(Step(env, s, a))
  {
    if a.WriteRedis? && s.phase.Committed? {
      WriteOrphans(env, s);
    } else if a.Commit? && s.phase.Advanced? {
      CommitOrphans(env, s);
    } else {
      SameRowsSameOrphans(s, Step(env, s, a));
    }
  }

  /** No row comes from nowhere: each is some host's, or an orphan. */
  lemma {:induction false} EveryRowIsOwnedOrOrphan(env: Env, acts: seq<Action>, id: nat)
    requires id in Run(env, acts).episodes
    ensures id in Orphans(Run(env, acts)) || exists k :: Owns(env, acts, k, id)
  {
    var before, a := acts[..|acts| - 1], acts[|acts| - 1];
    var s := Run(env, before);
    RunKeepsInv(env, before);
    if a.WriteRedis? && Opening(s.phase) && id == s.phase.uuid {
      RunOwnersOk(env, before);
      OwnersStep(env, acts, env.stream[s.phase.msg].key, id);
    } else if id !in s.episodes {
      CommitOrphans(env, s);
    } else {
      EveryRowIsOwnedOrOrphan(env, before, id);
      if k :| Owns(env, before, k, id) {
        RunOwnersOk(env, before);
        OwnersStep(env, acts, k, id);
      } else {
        KeepsOrphan(env, s, a, id);
      }
    }
  }
}
