/**
The sliding-window log: api/ratelimit.py.

A bucket is a sorted set: each member's score is when it arrived, in milliseconds. `Step`
interleaves the atomic trim-add-count of any number of requests with the later
removal of refused entries and the expiry of the key; `Hit` is one request on
its own, and `Bucket` and `RateLimiter` are the code on mutable state.
*/
module RateLimit {
  import opened Options
  import opened Orders

  type Log = map<nat, int>

  /** `windowMs` is at least 1 by construction in the source. */
  datatype Limit = Limit(limit: int, windowMs: int) {
    predicate Valid() { windowMs >= 1 }
  }

  const MILLISECONDS := 1000

  /** zremrangebyscore 0 (at - window), then zadd. */
  function TrimAndAdd(log: Log, lim: Limit, at: int, member: nat): Log {
    (map m | m in log && !(0 <= log[m] <= at - lim.windowMs) :: log[m])[member := at]
  }

  // ----------------------------------------------------------- any number of requests

  datatype Entry = Entry(member: nat, at: int)

  datatype State = State(log: Log, accepted: seq<Entry>, refused: set<nat>, used: set<nat>, now: int)

  const EMPTY := State(map[], [], {}, {}, 0)

  /** `Expire` is pexpire: the key lapses a window after the last hit. */
  datatype Action = Arrive(at: int, member: nat) | Remove(member: nat) | Expire(at: int)

  /** Hits execute at nondecreasing times with fresh members; anything else changes nothing. */
  function Step(lim: Limit, s: State, a: Action): State {
    match a
    case Arrive(at, m) =>
      if at < s.now || m in s.used then s
      else
        var log := TrimAndAdd(s.log, lim, at, m);
        var s' := s.(log := log, used := s.used + {m}, now := at);
        if |log| <= lim.limit then s'.(accepted := s.accepted + [Entry(m, at)])
        else s'.(refused := s.refused + {m})
    case Remove(m) =>
      if m in s.refused then s.(log := s.log - {m}, refused := s.refused - {m}) else s
    case Expire(at) =>
      if at >= s.now + lim.windowMs then s.(log := map[], now := at) else s
  }

  function Run(lim: Limit, acts: seq<Action>): State {
    if acts == [] then EMPTY
    else Step(lim, Run(lim, acts[..|acts| - 1]), acts[|acts| - 1])
  }

  /** Accepted hits up to position j in the window that ends with hit j. */
  ghost function WindowAt(accepted: seq<Entry>, windowMs: int, j: nat): set<nat>
    requires j < |accepted|
  {
    set i: nat | i <= j && accepted[i].at > accepted[j].at - windowMs
  }

  ghost predicate Inv(lim: Limit, s: State) {
    && (forall i, j | 0 <= i < j < |s.accepted| ::
          s.accepted[i].at <= s.accepted[j].at && s.accepted[i].member != s.accepted[j].member)
    && (forall i | 0 <= i < |s.accepted| ::
          s.accepted[i].at <= s.now && s.accepted[i].member in s.used && s.accepted[i].member !in s.refused)
    && (forall i | 0 <= i < |s.accepted| && s.accepted[i].at > s.now - lim.windowMs ::
          s.accepted[i].member in s.log && s.log[s.accepted[i].member] == s.accepted[i].at)
    && s.log.Keys <= s.used && s.refused <= s.used
    && (forall j | 0 <= j < |s.accepted| :: |WindowAt(s.accepted, lim.windowMs, j)| <= lim.limit)
  }

  /** Positions holding distinct members of a set are no more than the set. */
  lemma {:induction false} Pigeonhole(accepted: seq<Entry>, positions: set<nat>, members: set<nat>)
    requires forall i | i in positions :: i < |accepted| && accepted[i].member in members
    requires forall i, j | i in positions && j in positions && i != j :: accepted[i].member != accepted[j].member
    ensures |positions| <= |members|
    decreases |positions|
  {
    if positions != {} {
      var i :| i in positions;
      Pigeonhole(accepted, positions - {i}, members - {accepted[i].member});
    }
  }

  lemma ArriveKeepsInv(lim: Limit, s: State, at: int, m: nat)
    requires lim.Valid() && Inv(lim, s) && at >= s.now && m !in s.used
    requires |TrimAndAdd(s.log, lim, at, m)| <= lim.limit
    ensures Inv(lim, Step(lim, s, Arrive(at, m)))
  {
    var s' := Step(lim, s, Arrive(at, m));
    var n := |s.accepted|;
    forall j | 0 <= j < |s'.accepted| ensures |WindowAt(s'.accepted, lim.windowMs, j)| <= lim.limit {
      if j < n {
        assert WindowAt(s'.accepted, lim.windowMs, j) == WindowAt(s.accepted, lim.windowMs, j);
      } else {
        Pigeonhole(s'.accepted, WindowAt(s'.accepted, lim.windowMs, n), s'.log.Keys);
      }
    }
  }

  lemma {:induction false} RunKeepsInv(lim: Limit, acts: seq<Action>)
    requires lim.Valid()
    ensures Inv(lim, Run(lim, acts))
  {
    if acts != [] {
      var s, a := Run(lim, acts[..|acts| - 1]), acts[|acts| - 1];
      RunKeepsInv(lim, acts[..|acts| - 1]);
      if a.Arrive? && a.at >= s.now && a.member !in s.used && |TrimAndAdd(s.log, lim, a.at, a.member)| <= lim.limit {
        ArriveKeepsInv(lim, s, a.at, a.member);
      }
    }
  }

  ghost function AcceptedWithin(accepted: seq<Entry>, lo: int, hi: int): set<nat> {
    set i: nat | i < |accepted| && lo < accepted[i].at <= hi
  }

  /**
  However requests interleave and however late refused entries are removed, no
  half-open window of the configured length ever holds more accepted hits than the limit.
  */
  lemma NeverOverTheLimit(lim: Limit, acts: seq<Action>, t: int)
    requires lim.Valid()
    ensures var within := AcceptedWithin(Run(lim, acts).accepted, t - lim.windowMs, t);
            within == {} || |within| <= lim.limit
  {
    RunKeepsInv(lim, acts);
    var accepted := Run(lim, acts).accepted;
    var within := AcceptedWithin(accepted, t - lim.windowMs, t);
    if within != {} {
      var j := Greatest(within);
      SubsetSize(within, WindowAt(accepted, lim.windowMs, j));
    }
  }

  lemma {:induction false} Greatest(s: set<nat>) returns (g: nat)
    requires s != {}
    ensures g in s && forall x | x in s :: x <= g
    decreases |s|
  {
    var x :| x in s;
    if s == {x} {
      g := x;
    } else {
      var rest := Greatest(s - {x});
      g := if rest > x then rest else x;
      assert forall y | y in s :: y in s - {x} || y == x;
    }
  }

  // --------------------------------------------------------------- one request at a time

  datatype Decision = Decision(allowed: bool, remaining: int, retryAfter: int)

  /** zrange 0 0 withscores: the least score. */
  function Oldest(log: Log): (t: int)
    requires |log| > 0
    ensures (exists m | m in log :: log[m] == t) && forall m | m in log :: t <= log[m]
  {
    assert |log.Keys| > 0;
    ghost var m :| m in log.Keys;
    assert log[m] in log.Values;
    assert forall k | k in log :: log[k] in log.Values;
    Min(log.Values)
  }

  function CeilSeconds(ms: int): int { (ms + MILLISECONDS - 1) / MILLISECONDS }

  function AtLeastOne(n: int): int { if n < 1 then 1 else n }

  /** The emptied-window branch of the source rounds the window itself up to seconds. */
  function RetryAfter(log: Log, lim: Limit, at: int): int {
    AtLeastOne(CeilSeconds(if |log| > 0 then Oldest(log) + lim.windowMs - at else lim.windowMs))
  }

  /** One whole `hit` with nothing in between: the log it leaves and the answer. */
  function Hit(log: Log, lim: Limit, at: int, member: nat): (Log, Decision) {
    var added := TrimAndAdd(log, lim, at, member);
    if |added| <= lim.limit then (added, Decision(true, lim.limit - |added|, 0))
    else (added - {member}, Decision(false, 0, RetryAfter(added - {member}, lim, at)))
  }

  lemma HitIs(log: Log, lim: Limit, at: int, member: nat, added: Log)
    requires added == TrimAndAdd(log, lim, at, member)
    ensures Hit(log, lim, at, member)
         == if |added| <= lim.limit then (added, Decision(true, lim.limit - |added|, 0))
            else (added - {member}, Decision(false, 0, RetryAfter(added - {member}, lim, at)))
  {
  }

  /** A log that sequential hits can leave: in the past, and within the limit. */
  ghost predicate SequentialLog(log: Log, lim: Limit, at: int) {
    |log| <= lim.limit && forall m | m in log :: 0 <= log[m] <= at
  }

  lemma HitKeepsSequential(log: Log, lim: Limit, at: int, member: nat, last: int)
    requires lim.Valid() && lim.limit >= 0 && SequentialLog(log, lim, last) && 0 <= last <= at && member !in log
    ensures SequentialLog(Hit(log, lim, at, member).0, lim, at)
    ensures Hit(log, lim, at, member).1.allowed <==> member in Hit(log, lim, at, member).0
  {
    var kept := TrimAndAdd(log, lim, at, member) - {member};
    SubsetSize(kept.Keys, log.Keys);
    assert |kept| == |kept.Keys| && |log| == |log.Keys|;
  }

  lemma AddedSize(log: Log, lim: Limit, at: int, member: nat)
    requires member !in log
    ensures var added := TrimAndAdd(log, lim, at, member);
            |added| == |added - {member}| + 1 && (added - {member}).Keys <= log.Keys
  {
    var added := TrimAndAdd(log, lim, at, member);
    assert added.Keys == (added - {member}).Keys + {member};
    assert |added.Keys| == |(added - {member}).Keys| + 1;
  }

  lemma NothingTrimmed(log: Log, lim: Limit, at: int, member: nat)
    requires member !in log && forall m | m in log :: log[m] > at - lim.windowMs
    ensures TrimAndAdd(log, lim, at, member) - {member} == log
  {
  }

  lemma SomethingTrimmed(log: Log, lim: Limit, at: int, member: nat, m: nat)
    requires member !in log && m in log && 0 <= log[m] <= at - lim.windowMs
    ensures |TrimAndAdd(log, lim, at, member) - {member}| < |log|
  {
    var kept := TrimAndAdd(log, lim, at, member) - {member};
    SubsetSize(kept.Keys, log.Keys - {m});
  }

  /** A full log admits again just when its oldest entry has left the window. */
  lemma LaterHit(log: Log, lim: Limit, at: int, member: nat)
    requires lim.limit >= 1 && |log| == lim.limit && member !in log && forall m | m in log :: 0 <= log[m]
    ensures Hit(log, lim, at, member).1.allowed <==> Oldest(log) <= at - lim.windowMs
  {
    AddedSize(log, lim, at, member);
    if Oldest(log) <= at - lim.windowMs {
      var m :| m in log && log[m] == Oldest(log);
      SomethingTrimmed(log, lim, at, member, m);
    } else {
      NothingTrimmed(log, lim, at, member);
    }
  }

  /**
  The Retry-After of a refusal is exact: with no hit in between, a retry k whole
  seconds later is admitted just when k is at least the number returned.
  */
  lemma RetryAfterIsExact(log: Log, lim: Limit, at: int, last: int, member: nat, member': nat, k: int)
    requires lim.Valid() && lim.limit >= 1
    requires SequentialLog(log, lim, last) && 0 <= last <= at && member !in log && member' !in log
    requires !Hit(log, lim, at, member).1.allowed && k >= 1
    ensures var (after, refusal) := Hit(log, lim, at, member);
            refusal.retryAfter >= 1
            && (Hit(after, lim, at + 1000 * k, member').1.allowed <==> k >= refusal.retryAfter)
  {
    var added := TrimAndAdd(log, lim, at, member);
    var after := added - {member};
    HitKeepsSequential(log, lim, at, member, last);
    AddedSize(log, lim, at, member);
    LaterHit(after, lim, at + 1000 * k, member');
  }

  /** An arrival of the interleaved machine is accepted just when one whole hit would be, and leaves its log. */
  lemma ArriveIsHit(lim: Limit, s: State, at: int, member: nat)
    requires at >= s.now && member !in s.used
    ensures var s', hit := Step(lim, s, Arrive(at, member)), Hit(s.log, lim, at, member);
            && s'.accepted == (if hit.1.allowed then s.accepted + [Entry(member, at)] else s.accepted)
            && s'.log - (if hit.1.allowed then {} else {member}) == hit.0
            && (member in s'.refused <==> !hit.1.allowed || member in s.refused)
  {
    assert forall m: Log :: m - {} == m;
  }

  /** A refusal that finds the window empty asks for the whole of it, in seconds rounded up. */
  lemma EmptyWindowRetry(log: Log, lim: Limit, at: int, member: nat)
    requires lim.Valid() && Timed(log) && member !in log && Recent(log, lim, at) == {}
    requires !Hit(log, lim, at, member).1.allowed
    ensures var retry := Hit(log, lim, at, member).1.retryAfter;
            retry >= 1 && 1000 * (retry - 1) < lim.windowMs <= 1000 * retry
  {
    HitAllowsIff(log, lim, at, member);
    var after := Hit(log, lim, at, member).0;
    assert after.Keys == {} && |after| == |after.Keys|;
    HitIs(log, lim, at, member, TrimAndAdd(log, lim, at, member));
  }

  /** A ceiling of zero admits nothing, whenever it is retried. */
  lemma ZeroLimitNeverAdmits(log: Log, lim: Limit, at: int, member: nat)
    requires lim.limit <= 0
    ensures !Hit(log, lim, at, member).1.allowed
  {
    assert member in TrimAndAdd(log, lim, at, member).Keys;
  }

  // ---------------------------------------------------- two ceilings, and Redis failing

  /**
  What Redis does for one hit: it answers; it is unreachable; the pipeline runs but its answer,
  or the removal after it, is lost; or a refused entry is removed and the oldest cannot be read.
  */
  datatype Reply = Answers | Unreachable | NoAnswer | NoOldest

  /** `None` is the exception raised on a lost reply. */
  function HitUnder(log: Log, lim: Limit, at: int, member: nat, reply: Reply): (Log, Option<Decision>) {
    var added := TrimAndAdd(log, lim, at, member);
    var (after, d) := Hit(log, lim, at, member);
    match reply
    case Answers => (after, Some(d))
    case Unreachable => (log, None)
    case NoAnswer => (added, None)
    case NoOldest => (after, if |added| <= lim.limit then Some(d) else None)
  }

  datatype Request = Request(upload: bool, at: int, m1: nat, m2: nat, r1: Reply, r2: Reply)

  /** Both logs and the refusal, if any: a lost reply lets the request through. */
  function Checked(general: Log, gl: Limit, ingest: Log, il: Limit, r: Request): (Log, Log, Option<Decision>) {
    var (g, first) := HitUnder(general, gl, r.at, r.m1, r.r1);
    if first.None? then (g, ingest, None)
    else if !first.value.allowed then (g, ingest, first)
    else if !r.upload then (g, ingest, None)
    else
      var (i, second) := HitUnder(ingest, il, r.at, r.m2, r.r2);
      (g, i, if second.Some? && !second.value.allowed then second else None)
  }

  /** The entries of a log that lie in the window that ends now. */
  function Recent(log: Log, lim: Limit, at: int): set<nat> {
    set m | m in log && log[m] > at - lim.windowMs
  }

  ghost predicate Timed(log: Log) {
    forall m | m in log :: log[m] >= 0
  }

  /** One hit with a fresh member: it is let in just when the window has room for it, and says how much is left. */
  lemma HitAllowsIff(log: Log, lim: Limit, at: int, member: nat)
    requires Timed(log) && member !in log
    ensures var (after, d) := Hit(log, lim, at, member);
            && (d.allowed <==> |Recent(log, lim, at)| < lim.limit)
            && d.remaining == (if d.allowed then lim.limit - |Recent(log, lim, at)| - 1 else 0)
            && after.Keys == Recent(log, lim, at) + (if d.allowed then {member} else {})
            && (forall m | m in after :: after[m] == if m == member then at else log[m])
  {
    var added := TrimAndAdd(log, lim, at, member);
    assert added.Keys == Recent(log, lim, at) + {member};
    assert |added.Keys| == |Recent(log, lim, at)| + 1;
    assert (added - {member}).Keys == Recent(log, lim, at);
  }

  lemma CheckedIs(general: Log, gl: Limit, ingest: Log, il: Limit, r: Request)
    requires r.r1 == r.r2 == Answers
    ensures var (g, first) := Hit(general, gl, r.at, r.m1);
            var (i, second) := Hit(ingest, il, r.at, r.m2);
            Checked(general, gl, ingest, il, r)
            == if !first.allowed then (g, ingest, Some(first))
               else if !r.upload then (g, ingest, None)
               else (g, i, if second.allowed then None else Some(second))
  {
  }

  /** No room for one more in the window. */
  predicate Full(log: Log, lim: Limit, at: int) {
    |Recent(log, lim, at)| >= lim.limit
  }

  /**
  With Redis answering and fresh members: a request is let through if and only if the general window
  has room, and, for an upload, the ingest window too. The general ceiling speaks first, and what it
  refuses never reaches the ingest log.
  */
  lemma LetsThroughIff(general: Log, gl: Limit, ingest: Log, il: Limit, r: Request)
    requires r.r1 == r.r2 == Answers && Timed(general) && Timed(ingest) && r.m1 !in general && r.m2 !in ingest
    ensures var (g, i, refusal) := Checked(general, gl, ingest, il, r);
            var full, fullIngest := Full(general, gl, r.at), Full(ingest, il, r.at);
            && (refusal.None? <==> !full && !(r.upload && fullIngest))
            && (full ==> refusal == Some(Hit(general, gl, r.at, r.m1).1) && i == ingest)
            && (!full && r.upload && fullIngest ==> refusal == Some(Hit(ingest, il, r.at, r.m2).1))
            && g.Keys == Recent(general, gl, r.at) + (if full then {} else {r.m1})
            && (!full && r.upload ==> i.Keys == Recent(ingest, il, r.at) + if fullIngest then {} else {r.m2})
            && (!r.upload ==> i == ingest)
  {
    CheckedIs(general, gl, ingest, il, r);
    var (g, first) := Hit(general, gl, r.at, r.m1);
    var (i, second) := Hit(ingest, il, r.at, r.m2);
    assert (first.allowed <==> !Full(general, gl, r.at))
           && g.Keys == Recent(general, gl, r.at) + (if first.allowed then {r.m1} else {}) by {
      HitAllowsIff(general, gl, r.at, r.m1);
    }
    assert (second.allowed <==> !Full(ingest, il, r.at))
           && i.Keys == Recent(ingest, il, r.at) + (if second.allowed then {r.m2} else {}) by {
      HitAllowsIff(ingest, il, r.at, r.m2);
    }
  }

  /** While Redis fails nobody is refused on its account. */
  lemma FailsOpen(general: Log, gl: Limit, ingest: Log, il: Limit, r: Request)
    requires Checked(general, gl, ingest, il, r).2.Some?
    ensures !Hit(general, gl, r.at, r.m1).1.allowed || (r.upload && !Hit(ingest, il, r.at, r.m2).1.allowed)
    ensures r.r1 == Answers || (r.r1 == NoOldest && r.upload)
  {
  }

  /** Requests served so far: the two logs, the requests let through and the uploads the second ceiling refused. */
  datatype Traffic = Traffic(general: Log, ingest: Log, admitted: set<nat>, refusedUploads: set<nat>)

  const QUIET := Traffic(map[], map[], {}, {})

  function Serve(gl: Limit, il: Limit, t: Traffic, r: Request): Traffic {
    var (g, i, refusal) := Checked(t.general, gl, t.ingest, il, r);
    Traffic(g, i,
            if refusal.None? then t.admitted + {r.m1} else t.admitted,
            if refusal.Some? && r.m1 in g then t.refusedUploads + {r.m1} else t.refusedUploads)
  }

  function ServeAll(gl: Limit, il: Limit, rs: seq<Request>): Traffic {
    if rs == [] then QUIET else Serve(gl, il, ServeAll(gl, il, rs[..|rs| - 1]), rs[|rs| - 1])
  }

  /** One request after the other, at nondecreasing times, with fresh members and Redis answering. */
  ghost predicate Sequential(rs: seq<Request>) {
    && (forall i | 0 <= i < |rs| :: rs[i].at >= 0 && rs[i].r1 == Answers && rs[i].r2 == Answers)
    && (forall i, j | 0 <= i < j < |rs| :: rs[i].at <= rs[j].at && rs[i].m1 != rs[j].m1)
  }

  function Members(rs: seq<Request>): set<nat> { set r | r in rs :: r.m1 }

  function LastAt(rs: seq<Request>): int { if rs == [] then 0 else rs[|rs| - 1].at }

  /** Every entry of the general log is a request let through or an upload refused behind it. */
  ghost predicate Accounted(gl: Limit, rs: seq<Request>, t: Traffic) {
    && t.admitted !! t.refusedUploads
    && t.general.Keys <= t.admitted + t.refusedUploads <= Members(rs)
    && SequentialLog(t.general, gl, LastAt(rs))
  }

  lemma SequentialSnoc(rs: seq<Request>, r: Request)
    requires Sequential(rs + [r])
    ensures Sequential(rs) && r.m1 !in Members(rs) && 0 <= LastAt(rs) <= r.at && r.r1 == r.r2 == Answers
    ensures Members(rs + [r]) == Members(rs) + {r.m1}
  {
    var all := rs + [r];
    assert all[|rs|] == r && forall i | 0 <= i < |rs| :: all[i] == rs[i];
    assert forall x :: x in all <==> x in rs || x == r;
  }

  lemma HitAdds(log: Log, lim: Limit, at: int, member: nat)
    ensures Hit(log, lim, at, member).0.Keys <= log.Keys + {member}
  {
  }

  /** One request's bookkeeping, on the key sets alone. */
  lemma KeysAccount(before: set<nat>, after: set<nat>, admitted: set<nat>, refused: set<nat>, m: nat, through: bool)
    requires before <= admitted + refused && admitted !! refused && m !in admitted + refused
    requires after <= before + {m}
    ensures var admitted' := if through then admitted + {m} else admitted;
            var refused' := if !through && m in after then refused + {m} else refused;
            && admitted' !! refused' && after <= admitted' + refused' <= admitted + refused + {m}
  {
  }

  lemma ServeParts(gl: Limit, il: Limit, t: Traffic, r: Request)
    requires r.r1 == Answers
    ensures var t' := Serve(gl, il, t, r);
            var through := Checked(t.general, gl, t.ingest, il, r).2.None?;
            && t'.general == Hit(t.general, gl, r.at, r.m1).0
            && t'.admitted == (if through then t.admitted + {r.m1} else t.admitted)
            && t'.refusedUploads
               == (if !through && r.m1 in t'.general.Keys then t.refusedUploads + {r.m1} else t.refusedUploads)
  {
  }

  lemma ServeAccounts(gl: Limit, il: Limit, rs: seq<Request>, r: Request, t: Traffic, t': Traffic)
    requires gl.Valid() && gl.limit >= 0 && Sequential(rs + [r]) && Accounted(gl, rs, t)
    requires t' == Serve(gl, il, t, r)
    ensures Accounted(gl, rs + [r], t')
  {
    SequentialSnoc(rs, r);
    ServeParts(gl, il, t, r);
    HitKeepsSequential(t.general, gl, r.at, r.m1, LastAt(rs));
    HitAdds(t.general, gl, r.at, r.m1);
    KeysAccount(t.general.Keys, t'.general.Keys, t.admitted, t.refusedUploads, r.m1,
                Checked(t.general, gl, t.ingest, il, r).2.None?);
  }

  lemma {:induction false} AllAccounted(gl: Limit, il: Limit, rs: seq<Request>)
    requires gl.Valid() && gl.limit >= 0 && Sequential(rs)
    ensures Accounted(gl, rs, ServeAll(gl, il, rs))
  {
    if rs != [] {
      var init, r := rs[..|rs| - 1], rs[|rs| - 1];
      assert rs == init + [r];
      SequentialSnoc(init, r);
      AllAccounted(gl, il, init);
      ServeAccounts(gl, il, init, r, ServeAll(gl, il, init), ServeAll(gl, il, rs));
    }
  }

  /** The entries a hit finds in the window, its own aside. */
  function InWindow(log: Log, lim: Limit, at: int, member: nat): set<nat> {
    (TrimAndAdd(log, lim, at, member) - {member}).Keys
  }

  lemma RefusedWindowIsFull(log: Log, lim: Limit, at: int, member: nat)
    requires member !in log && |log| <= lim.limit && !Hit(log, lim, at, member).1.allowed
    ensures |InWindow(log, lim, at, member)| == lim.limit && InWindow(log, lim, at, member) <= log.Keys
  {
    AddedSize(log, lim, at, member);
    SubsetSize(InWindow(log, lim, at, member), log.Keys);
    assert |TrimAndAdd(log, lim, at, member) - {member}| == |InWindow(log, lim, at, member)|;
    assert |log.Keys| == |log|;
  }

  lemma PartIsSmaller(window: set<nat>, admitted: set<nat>, refused: set<nat>)
    requires window <= admitted + refused && admitted !! refused
    ensures |window * admitted| < |window| <==> window * refused != {}
  {
    SubsetSize(window * admitted, window);
    if window * refused == {} {
      assert window * admitted == window;
    } else {
      var x :| x in window * refused;
      assert x in window && x !in window * admitted;
    }
  }

  /**
  The general ceiling counts attempts: a refusal comes with the ceiling's worth of entries in the
  window, and fewer than that many of them were let through exactly when one is a refused upload.
  */
  lemma RefusedBelowTheCeilingIff(gl: Limit, il: Limit, rs: seq<Request>, r: Request)
    requires gl.Valid() && gl.limit >= 0 && Sequential(rs + [r])
    requires !Hit(ServeAll(gl, il, rs).general, gl, r.at, r.m1).1.allowed
    ensures var t := ServeAll(gl, il, rs);
            var window := InWindow(t.general, gl, r.at, r.m1);
            |window| == gl.limit && (|window * t.admitted| < gl.limit <==> window * t.refusedUploads != {})
  {
    var t := ServeAll(gl, il, rs);
    SequentialSnoc(rs, r);
    AllAccounted(gl, il, rs);
    RefusedWindowIsFull(t.general, gl, r.at, r.m1);
    PartIsSmaller(InWindow(t.general, gl, r.at, r.m1), t.admitted, t.refusedUploads);
  }

  /** One refused upload uses up a general ceiling of one: the next request is refused with none let through. */
  lemma RefusedUploadsUseUpTheCeiling()
    ensures var gl, il := Limit(1, 60000), Limit(0, 60000);
            var t := ServeAll(gl, il, [Request(true, 0, 1, 1, Answers, Answers)]);
            t.admitted == {} && Checked(t.general, gl, t.ingest, il, Request(false, 1, 2, 2, Answers, Answers)).2.Some?
  {
    var gl, il := Limit(1, 60000), Limit(0, 60000);
    var r := Request(true, 0, 1, 1, Answers, Answers);
    assert [r][..0] == [] && ServeAll(gl, il, []) == QUIET;
    assert TrimAndAdd(map[], gl, 0, 1) == map[1 := 0];
    assert 1 in TrimAndAdd(map[], il, 0, 1).Keys;
    var t := Serve(gl, il, QUIET, r);
    assert t == ServeAll(gl, il, [r]) && t.general == map[1 := 0];
    assert TrimAndAdd(t.general, gl, 1, 2) == map[1 := 0, 2 := 1];
    assert map[1 := 0, 2 := 1].Keys == {1, 2};
  }

  // ------------------------------------------------------------------------- the classes

  class Bucket {
    const lim: Limit
    var entries: Log

    constructor (lim: Limit)
      ensures this.lim == lim && entries == map[]
    {
      this.lim, entries := lim, map[];
    }

    /** The pipeline: trim, add, count. */
    method Arrive(at: int, member: nat) returns (used: nat)
      modifies this
      ensures entries == TrimAndAdd(old(entries), lim, at, member) && used == |entries|
    {
      entries := map m | m in entries && !(0 <= entries[m] <= at - lim.windowMs) :: entries[m];
      entries := entries[member := at];
      used := |entries|;
    }

    method WaitFor(at: int) returns (seconds: int)
      ensures seconds == RetryAfter(entries, lim, at)
    {
      var wait := lim.windowMs;
      if |entries| > 0 {
        wait := Oldest(entries) + lim.windowMs - at;
      }
      seconds := AtLeastOne(CeilSeconds(wait));
    }

    method Record(at: int, member: nat, reply: Reply) returns (d: Option<Decision>)
      modifies this
      ensures (entries, d) == HitUnder(old(entries), lim, at, member, reply)
    {
      ghost var log, added := entries, TrimAndAdd(entries, lim, at, member);
      HitIs(log, lim, at, member, added);
      if reply == Unreachable { return None; }
      var used := Arrive(at, member);
      if reply == NoAnswer { return None; }
      if used <= lim.limit {
        return Some(Decision(true, lim.limit - used, 0));
      }
      entries := entries - {member};
      if reply == NoOldest { return None; }
      var seconds := WaitFor(at);
      d := Some(Decision(false, 0, seconds));
    }
  }

  /** Both ceilings of one tenant: an upload must pass the general one, then its own. */
  class RateLimiter {
    const general: Bucket
    const ingest: Bucket

    constructor (general: Limit, ingest: Limit)
      ensures this.general.lim == general && this.ingest.lim == ingest && this.general != this.ingest
      ensures this.general.entries == map[] && this.ingest.entries == map[]
    {
      this.general := new Bucket(general);
      this.ingest := new Bucket(ingest);
    }

    /** An ingest refusal keeps its entry in the general bucket. */
    method Check(r: Request) returns (refusal: Option<Decision>)
      requires general != ingest
      modifies general, ingest
      ensures (general.entries, ingest.entries, refusal)
           == Checked(old(general.entries), general.lim, old(ingest.entries), ingest.lim, r)
    {
      var d := general.Record(r.at, r.m1, r.r1);
      if d.None? { return None; }
      if !d.value.allowed { return d; }
      if r.upload {
        d := ingest.Record(r.at, r.m2, r.r2);
        if d.Some? && !d.value.allowed { return d; }
      }
      refusal := None;
    }
  }
}
