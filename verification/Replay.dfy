/**
What a crash between commit and hash write leaves to the retry:
services/persister/episodes.py:209-214 over every continuation of every run.

The retry advances the lifecycle exactly when no forecast of the host with the same or a
later origin has completed since. With nothing made since, it makes the lost transition
again; after a later forecast it makes none, ever, and what the lost one had written to
the episodes table is overwritten.
*/
module Replay {
  import opened Options
  import opened Episodes
  import opened Persister
  import opened EpisodeRows

  // ------------------------------------------------------------- when a forecast advances

  /** On every run: a forecast advances its host's lifecycle just when it is later than all completed ones. */
  lemma AdvancesIff(env: Env, acts: seq<Action>, f: Forecast, uuid: nat)
    requires f.horizons != []
    ensures var r := ReadState(HashAt(Run(env, acts).hashes, f.key));
            r.Some? && (Advance(r.value, Summarise(f), env.rules, uuid).Some?
                        <==> forall x | x in Completed(env, acts, f.key) :: x.0.originTs < f.originTs)
  {
    var c := Completed(env, acts, f.key);
    HashIsFold(env, acts, f.key);
    WatermarkIsMax(Summaries(c), Uuids(c), env.rules, |c|);
    forall j | 0 <= j < |c|
      ensures Summaries(c)[j] == c[j].0 && c[j] in c
    {
    }
  }

  lemma {:induction false} CompletedGrows(env: Env, acts: seq<Action>, all: seq<Action>, k: HostKey)
    requires acts <= all
    ensures Completed(env, acts, k) <= Completed(env, all, k)
    decreases |all|
  {
    if acts != all {
      assert acts <= all[..|all| - 1];
      CompletedGrows(env, acts, all[..|all| - 1], k);
    }
  }

  /** The host's forecasts completed after acts, in a run that goes on from it. */
  function CompletedSince(env: Env, acts: seq<Action>, all: seq<Action>, k: HostKey): seq<(Summary, nat)>
    requires acts <= all
  {
    CompletedGrows(env, acts, all, k);
    Completed(env, all, k)[|Completed(env, acts, k)|..]
  }

  lemma CrashCompletesNothing(env: Env, acts: seq<Action>, k: HostKey)
    ensures Completed(env, acts + [Crash], k) == Completed(env, acts, k)
    ensures Run(env, acts + [Crash]) == Run(env, acts).(phase := Idle)
  {
    assert (acts + [Crash])[..|acts|] == acts;
  }

  /** The message a crash would leave to be retried, and what its handling had committed. */
  ghost predicate Lost(env: Env, acts: seq<Action>, m: nat, t: Transition) {
    var s := Run(env, acts);
    s.phase.Committed? && s.phase.msg == m < |env.stream| && s.phase.transition == Some(t)
  }

  lemma LostIsAccepted(env: Env, acts: seq<Action>, m: nat, t: Transition)
    requires Lost(env, acts, m, t)
    ensures Accepts(env, env.stream[m])
    ensures var r := ReadState(HashAt(Run(env, acts).hashes, env.stream[m].key));
            r.Some? && Some(t) == Advance(r.value, Summarise(env.stream[m]), env.rules, Run(env, acts).phase.uuid)
  {
    RunKeepsInv(env, acts);
  }

  /** Whatever happens between the crash and the retry decides it by origins alone. */
  lemma RetryAdvancesIff(env: Env, acts: seq<Action>, all: seq<Action>, m: nat, t: Transition, uuid: nat)
    requires Lost(env, acts, m, t) && acts + [Crash] <= all
    ensures env.stream[m].horizons != []
    ensures var f := env.stream[m];
            var r := ReadState(HashAt(Run(env, all).hashes, f.key));
            r.Some? && (Advance(r.value, Summarise(f), env.rules, uuid).Some?
                        <==> forall x | x in CompletedSince(env, acts + [Crash], all, f.key) ::
                               x.0.originTs < f.originTs)
  {
    var f := env.stream[m];
    LostIsAccepted(env, acts, m, t);
    AdvancesIff(env, acts, f, Run(env, acts).phase.uuid);
    CrashCompletesNothing(env, acts, f.key);
    CompletedParts(env, acts + [Crash], all, f.key);
    AdvancesIff(env, all, f, uuid);
  }

  // ---------------------------------------------------------------- what the retry then makes

  /** Deliveries that make no transition leave the state alone. */
  lemma {:induction false} NothingMadeNothingMoved(fs: seq<Summary>, ids: seq<nat>, rules: Rules, n: nat, m: nat)
    requires n <= m <= |fs| == |ids|
    requires Deliver(fs, ids, rules, m).transitions == Deliver(fs, ids, rules, n).transitions
    ensures Deliver(fs, ids, rules, m).state == Deliver(fs, ids, rules, n).state
  {
    if n < m {
      TransitionsStay(fs, ids, rules, n, m - 1);
      NothingMadeNothingMoved(fs, ids, rules, n, m - 1);
    }
  }

  function Folded(c: seq<(Summary, nat)>, rules: Rules): Outcome {
    Deliver(Summaries(c), Uuids(c), rules, |c|)
  }

  lemma SplitsConcat(c: seq<(Summary, nat)>, d: seq<(Summary, nat)>)
    ensures Summaries(c + d) == Summaries(c) + Summaries(d) && Uuids(c + d) == Uuids(c) + Uuids(d)
  {
  }

  lemma SameMadeSameState(c: seq<(Summary, nat)>, d: seq<(Summary, nat)>, rules: Rules)
    requires Folded(c + d, rules).transitions == Folded(c, rules).transitions
    ensures Folded(c + d, rules).state == Folded(c, rules).state
  {
    SplitsConcat(c, d);
    DeliverPrefix(Summaries(c), Uuids(c), Summaries(d), Uuids(d), rules, |c|);
    NothingMadeNothingMoved(Summaries(c + d), Uuids(c + d), rules, |c|, |c + d|);
  }

  lemma HashIsFolded(env: Env, acts: seq<Action>, k: HostKey, c: seq<(Summary, nat)>)
    requires c == Completed(env, acts, k)
    ensures ReadState(HashAt(Run(env, acts).hashes, k)) == Some(Folded(c, env.rules).state)
    ensures Made(env, acts, k) == Folded(c, env.rules).transitions
  {
    HashIsFold(env, acts, k);
  }

  lemma CompletedParts(env: Env, acts: seq<Action>, all: seq<Action>, k: HostKey)
    requires acts <= all
    ensures Completed(env, all, k) == Completed(env, acts, k) + CompletedSince(env, acts, all, k)
  {
    CompletedGrows(env, acts, all, k);
  }

  lemma SamePartsSameHash(env: Env, acts: seq<Action>, all: seq<Action>, k: HostKey,
                          c: seq<(Summary, nat)>, d: seq<(Summary, nat)>)
    requires Completed(env, acts, k) == c && Completed(env, all, k) == c + d
    requires Made(env, all, k) == Made(env, acts, k)
    ensures ReadState(HashAt(Run(env, all).hashes, k)) == ReadState(HashAt(Run(env, acts).hashes, k))
  {
    HashIsFolded(env, acts, k, c);
    HashIsFolded(env, all, k, c + d);
    SameMadeSameState(c, d, env.rules);
  }

  lemma SameMadeSameHash(env: Env, acts: seq<Action>, all: seq<Action>, k: HostKey)
    requires acts <= all && Made(env, all, k) == Made(env, acts, k)
    ensures ReadState(HashAt(Run(env, all).hashes, k)) == ReadState(HashAt(Run(env, acts).hashes, k))
  {
    CompletedParts(env, acts, all, k);
    SamePartsSameHash(env, acts, all, k, Completed(env, acts, k), CompletedSince(env, acts, all, k));
  }

  lemma OnlyOpeningsUseTheId(state: HostState, f: Summary, rules: Rules, id: nat, id': nat)
    ensures var t := Advance(state, f, rules, id);
            t.Some? && !t.value.opens ==> Advance(state, f, rules, id') == t
  {
  }

  /** With no transition of the host made since, the retry makes the lost one, a fresh id apart if it opened. */
  lemma RetryMakesTheSame(env: Env, acts: seq<Action>, all: seq<Action>, m: nat, t: Transition, uuid: nat)
    requires Lost(env, acts, m, t) && acts + [Crash] <= all
    requires Made(env, all, env.stream[m].key) == Made(env, acts, env.stream[m].key)
    ensures env.stream[m].horizons != []
    ensures var f := env.stream[m];
            var r := ReadState(HashAt(Run(env, all).hashes, f.key));
            && r.Some? && Advance(r.value, Summarise(f), env.rules, uuid).Some?
            && EraseTransition(Advance(r.value, Summarise(f), env.rules, uuid).value) == EraseTransition(t)
            && (!t.opens ==> Advance(r.value, Summarise(f), env.rules, uuid) == Some(t))
  {
    var f, s := env.stream[m], Run(env, acts);
    LostIsAccepted(env, acts, m, t);
    CrashCompletesNothing(env, acts, f.key);
    SameMadeSameHash(env, acts, all, f.key);
    var state := ReadState(HashAt(s.hashes, f.key)).value;
    AdvanceIgnoresId(state, state, Summarise(f), env.rules, s.phase.uuid, uuid);
    OnlyOpeningsUseTheId(state, Summarise(f), env.rules, s.phase.uuid, uuid);
  }

  lemma RunOneMore(env: Env, acts: seq<Action>, a: Action)
    ensures Run(env, acts + [a]) == Step(env, Run(env, acts), a)
  {
    assert (acts + [a])[..|acts|] == acts;
  }

  lemma RetryBegins(env: Env, s: State, m: nat, t: Transition, uuid: nat)
    requires m < |env.stream| && Accepts(env, env.stream[m]) && s.phase.Idle? && uuid !in s.minted
    requires var r := ReadState(HashAt(s.hashes, env.stream[m].key));
             r.Some? && Advance(r.value, Summarise(env.stream[m]), env.rules, uuid) == Some(t)
    ensures Step(env, s, Begin(m, uuid)) == s.(phase := Advanced(m, uuid, Some(t)), minted := s.minted + {uuid})
  {
  }

  /** From the commit of a transition on: the row, and then the hash, are what it says. */
  lemma CommitAndWrite(env: Env, acts: seq<Action>, m: nat, t: Transition, uuid: nat)
    requires Run(env, acts).phase == Advanced(m, uuid, Some(t)) && t.episode.Some?
    requires m < |env.stream| && Accepts(env, env.stream[m])
    ensures var s, k := Run(env, acts + [Commit] + [WriteRedis]), env.stream[m].key;
            && t.episode.value.id in s.episodes
            && s.episodes[t.episode.value.id] == RowFrom(env.tenants[k.tenant], k.host, t)
            && ReadState(HashAt(s.hashes, k)) == Some(t.state) && s.phase == Written(m)
  {
    RunOneMore(env, acts, Commit);
    RunOneMore(env, acts + [Commit], WriteRedis);
    RunRowsTied(env, acts);
    CommitLeavesPending(env, acts, t);
    RunKeepsInv(env, acts + [Commit]);
    StepRead(env, Run(env, acts + [Commit]), WriteRedis, env.stream[m].key);
  }

  /** The retry of an update, as far as its commit and its hash write. */
  lemma RetryRestores(env: Env, acts: seq<Action>, m: nat, t: Transition, uuid: nat)
    requires m < |env.stream| && Accepts(env, env.stream[m]) && Run(env, acts).phase.Idle?
    requires uuid !in Run(env, acts).minted && t.episode.Some?
    requires var r := ReadState(HashAt(Run(env, acts).hashes, env.stream[m].key));
             r.Some? && Advance(r.value, Summarise(env.stream[m]), env.rules, uuid) == Some(t)
    ensures var s, k := Run(env, acts + [Begin(m, uuid)] + [Commit] + [WriteRedis]), env.stream[m].key;
            && t.episode.value.id in s.episodes
            && s.episodes[t.episode.value.id] == RowFrom(env.tenants[k.tenant], k.host, t)
            && ReadState(HashAt(s.hashes, k)) == Some(t.state) && s.phase == Written(m)
  {
    RetryBegins(env, Run(env, acts), m, t, uuid);
    RunOneMore(env, acts, Begin(m, uuid));
    CommitAndWrite(env, acts + [Begin(m, uuid)], m, t, uuid);
  }

  /**
  So the crash is harmless to its host when it hit an update and no transition of the host was
  made before the retry: row and hash are those of the handling that did not crash.
  */
  lemma UpdateIsReplayed(env: Env, acts: seq<Action>, all: seq<Action>, m: nat, t: Transition, uuid: nat)
    requires Lost(env, acts, m, t) && t.episode.Some? && !t.opens && acts + [Crash] <= all
    requires Made(env, all, env.stream[m].key) == Made(env, acts, env.stream[m].key)
    requires Run(env, all).phase.Idle? && uuid !in Run(env, all).minted
    ensures var s, s' := Run(env, acts + [WriteRedis]), Run(env, all + [Begin(m, uuid)] + [Commit] + [WriteRedis]);
            var k, id := env.stream[m].key, t.episode.value.id;
            && id in s.episodes && id in s'.episodes && s'.episodes[id] == s.episodes[id]
            && ReadState(HashAt(s'.hashes, k)) == ReadState(HashAt(s.hashes, k)) == Some(t.state)
  {
    LostIsAccepted(env, acts, m, t);
    RetryMakesTheSame(env, acts, all, m, t, uuid);
    RetryRestores(env, all, m, t, uuid);
    RunOneMore(env, acts, WriteRedis);
    RunKeepsInv(env, acts);
    RunRowsTied(env, acts);
    StepRead(env, Run(env, acts), WriteRedis, env.stream[m].key);
  }

  /** Once a forecast of the host with the same or a later origin has completed, no retry ever advances. */
  lemma LostForGood(env: Env, acts: seq<Action>, all: seq<Action>, later: seq<Action>, m: nat, t: Transition,
                    x: (Summary, nat), uuid: nat)
    requires Lost(env, acts, m, t) && acts + [Crash] <= all <= later
    requires x in CompletedSince(env, acts + [Crash], all, env.stream[m].key)
    requires x.0.originTs >= env.stream[m].originTs
    ensures env.stream[m].horizons != []
    ensures var f := env.stream[m];
            var r := ReadState(HashAt(Run(env, later).hashes, f.key));
            r.Some? && Advance(r.value, Summarise(f), env.rules, uuid).None?
  {
    var k := env.stream[m].key;
    assert x in CompletedSince(env, acts + [Crash], later, k) by {
      CompletedGrows(env, all, later, k);
    }
    RetryAdvancesIff(env, acts, later, m, t, uuid);
  }

  // --------------------------------------------------------------------------- an example

  function HandleActs(m: nat, uuid: nat): seq<Action> {
    [Begin(m, uuid)] + [Commit] + [WriteRedis] + [Ack]
  }

  lemma RunHandle(env: Env, acts: seq<Action>, m: nat, uuid: nat)
    ensures Run(env, acts + HandleActs(m, uuid)) == Handled(env, Run(env, acts), m, uuid)
  {
    var a1 := acts + [Begin(m, uuid)];
    var a2 := a1 + [Commit];
    var a3 := a2 + [WriteRedis];
    RunOneMore(env, acts, Begin(m, uuid));
    RunOneMore(env, a1, Commit);
    RunOneMore(env, a2, WriteRedis);
    RunOneMore(env, a3, Ack);
    assert acts + HandleActs(m, uuid) == a3 + [Ack];
  }

  /** One crash-free handling, as the example needs it. */
  lemma HandleReads(env: Env, acts: seq<Action>, m: nat, uuid: nat, state: HostState, t: Option<Transition>)
    requires m < |env.stream| && Accepts(env, env.stream[m])
    requires Run(env, acts).phase.Idle? && uuid !in Run(env, acts).minted
    requires ReadState(HashAt(Run(env, acts).hashes, env.stream[m].key)) == Some(state)
    requires t == Advance(state, Summarise(env.stream[m]), env.rules, uuid)
    ensures var s, s', f := Run(env, acts), Run(env, acts + HandleActs(m, uuid)), env.stream[m];
            && s'.phase.Idle? && s'.minted == s.minted + {uuid} && s'.acked == s.acked + {m}
            && s'.episodes == WriteEpisode(s.episodes, env.tenants[f.key.tenant], f.key.host, t)
            && ReadState(HashAt(s'.hashes, f.key)) == Some(if t.Some? then t.value.state else state)
  {
    RunHandle(env, acts, m, uuid);
    HandledIs(env, Run(env, acts), m, uuid, state);
    if t.Some? {
      WriteHashReplaces(Run(env, acts).hashes, env.stream[m].key, t.value);
    }
  }

  /** A handling that dies after its commit: the rows have moved, the hash has not. */
  lemma TornHandling(env: Env, acts: seq<Action>, m: nat, uuid: nat, t: Transition)
    requires m < |env.stream| && Accepts(env, env.stream[m])
    requires Run(env, acts).phase.Idle? && uuid !in Run(env, acts).minted
    requires var r := ReadState(HashAt(Run(env, acts).hashes, env.stream[m].key));
             r.Some? && Advance(r.value, Summarise(env.stream[m]), env.rules, uuid) == Some(t)
    ensures var s, s', k := Run(env, acts), Run(env, acts + [Begin(m, uuid)] + [Commit] + [Crash]), env.stream[m].key;
            && s'.phase.Idle? && s'.minted == s.minted + {uuid} && s'.acked == s.acked && s'.hashes == s.hashes
            && s'.episodes == WriteEpisode(s.episodes, env.tenants[k.tenant], k.host, Some(t))
  {
    var a1 := acts + [Begin(m, uuid)];
    RetryBegins(env, Run(env, acts), m, t, uuid);
    RunOneMore(env, acts, Begin(m, uuid));
    RunOneMore(env, a1, Commit);
    RunOneMore(env, a1 + [Commit], Crash);
  }

  function At(ts: int, p: real): Forecast {
    Forecast(HostKey("t", "h"), ts, [Horizon(ts + 1, p)], "", "")
  }

  const THREE: Env := Env([At(0, 1.0), At(1, 0.0), At(2, 1.0)], Rules(0.5, 1, 1), map["t" := 7])

  const TORN_CLOSE: seq<Action> := HandleActs(0, 1) + [Begin(1, 2)] + [Commit] + [Crash]

  const AFTERWARDS: seq<Action> := TORN_CLOSE + HandleActs(2, 3) + HandleActs(1, 4)

  lemma Summaries3()
    ensures forall m: nat | m < 3 :: Accepts(THREE, THREE.stream[m]) && THREE.stream[m].key == HostKey("t", "h")
    ensures Summarise(THREE.stream[0]) == Summary(0, 1.0, "")
    ensures Summarise(THREE.stream[1]) == Summary(1, 0.0, "")
    ensures Summarise(THREE.stream[2]) == Summary(2, 1.0, "")
  {
  }

  const OPENED := OpenEpisode(1, 0, 1.0, [], Some(0), 1, 0)

  lemma ExampleOpens()
    ensures var s := Run(THREE, HandleActs(0, 1));
            && s.phase.Idle? && s.minted == {1} && s.acked == {0}
            && s.episodes == map[1 := EpisodeRow(7, "h", 0, None, 1.0, [], Some(0))]
            && ReadState(HashAt(s.hashes, HostKey("t", "h"))) == Some(HostState(Some(0), Some(OPENED)))
  {
    Summaries3();
    var t := Transition(HostState(Some(0), Some(OPENED)), Some(OPENED), true, false, None);
    assert Advance(FRESH_HOST, Summary(0, 1.0, ""), THREE.rules, 1) == Some(t);
    assert ReadState(HashAt(EMPTY.hashes, HostKey("t", "h"))) == Some(FRESH_HOST);
    HandleReads(THREE, [], 0, 1, FRESH_HOST, Some(t));
    assert [] + HandleActs(0, 1) == HandleActs(0, 1);
  }

  /** The second forecast closes the episode, and its hash write is lost. */
  lemma ExampleTears()
    ensures var before, s := Run(THREE, HandleActs(0, 1)), Run(THREE, TORN_CLOSE);
            && s.phase.Idle? && s.minted == {1, 2} && s.acked == {0} && s.hashes == before.hashes
            && s.episodes == map[1 := EpisodeRow(7, "h", 0, Some(1), 1.0, [], Some(0))]
  {
    Summaries3();
    ExampleOpens();
    var e := OPENED.(above := 0, below := 1);
    var t := Transition(HostState(Some(1), None), Some(e), false, true, Some(1));
    assert Advance(HostState(Some(0), Some(OPENED)), Summary(1, 0.0, ""), THREE.rules, 2) == Some(t);
    TornHandling(THREE, HandleActs(0, 1), 1, 2, t);
  }

  /** A later forecast keeps the episode open: its row loses the end the lost one had committed. */
  lemma ExampleGoesOn()
    ensures var s := Run(THREE, TORN_CLOSE + HandleActs(2, 3));
            && s.phase.Idle? && s.minted == {1, 2, 3} && s.acked == {0, 2}
            && 1 in s.episodes && s.episodes[1].endedAt == None
            && ReadState(HashAt(s.hashes, HostKey("t", "h")))
               == Some(HostState(Some(2), Some(OPENED.(above := 2))))
  {
    Summaries3();
    ExampleOpens();
    ExampleTears();
    var e := OPENED.(above := 2);
    var t := Transition(HostState(Some(2), Some(e)), Some(e), false, false, None);
    assert Advance(HostState(Some(0), Some(OPENED)), Summary(2, 1.0, ""), THREE.rules, 3) == Some(t);
    HandleReads(THREE, TORN_CLOSE, 2, 3, HostState(Some(0), Some(OPENED)), Some(t));
  }

  /**
  The unconditional claim is false of updates too: a close loses its hash write, a later forecast
  is handled before the retry, and the retry makes nothing. Everything is acked, no row is an
  orphan, and an episode that was closed in the table is open again.
  */
  lemma LateCloseExample()
    ensures var torn, end := Run(THREE, TORN_CLOSE), Run(THREE, AFTERWARDS);
            && 1 in torn.episodes && torn.episodes[1].endedAt == Some(1)
            && end.phase.Idle? && end.acked == {0, 1, 2}
            && 1 in end.episodes && end.episodes[1].endedAt == None && OpenIn(end.hashes, HostKey("t", "h"), 1)
  {
    Summaries3();
    ExampleTears();
    ExampleGoesOn();
    var state := HostState(Some(2), Some(OPENED.(above := 2)));
    assert Advance(state, Summary(1, 0.0, ""), THREE.rules, 4) == None;
    HandleReads(THREE, TORN_CLOSE + HandleActs(2, 3), 1, 4, state, None);
  }
}
