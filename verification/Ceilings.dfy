/**
Both ceilings over whole runs of requests: api/ratelimit.py:208-230.

Each bucket sees its own subsequence of the run, a lane of hits. No window of a lane ever holds
more hits that passed than its limit, so no window holds more requests let through than the
general limit, nor more uploads than the ingest limit.
*/
module Ceilings {
  import opened Options
  import opened Orders
  import opened RateLimit

  // ----------------------------------------------------------------- one bucket

  /** What a request does to one bucket: a hit, or nothing. */
  datatype Turn = Turn(at: int, member: nat, hit: bool)

  function LaneLog(lim: Limit, ts: seq<Turn>): Log {
    if ts == [] then map[]
    else
      var log, t := LaneLog(lim, ts[..|ts| - 1]), ts[|ts| - 1];
      if t.hit then Hit(log, lim, t.at, t.member).0 else log
  }

  predicate Passes(lim: Limit, ts: seq<Turn>, i: nat)
    requires i < |ts|
  {
    ts[i].hit && Hit(LaneLog(lim, ts[..i]), lim, ts[i].at, ts[i].member).1.allowed
  }

  /** Nondecreasing times, and no member hits twice. */
  ghost predicate InTurn(ts: seq<Turn>) {
    && (forall i | 0 <= i < |ts| :: ts[i].at >= 0)
    && (forall i, j | 0 <= i < j < |ts| :: ts[i].at <= ts[j].at)
    && (forall i, j | 0 <= i < j < |ts| && ts[i].hit && ts[j].hit :: ts[i].member != ts[j].member)
  }

  function LastTurn(ts: seq<Turn>): int { if ts == [] then 0 else ts[|ts| - 1].at }

  /** The log is within the limit, holds only members that hit, and all that passed in the last window. */
  ghost predicate LaneOk(lim: Limit, ts: seq<Turn>) {
    var log := LaneLog(lim, ts);
    && SequentialLog(log, lim, LastTurn(ts))
    && (forall m | m in log :: exists i | 0 <= i < |ts| :: ts[i].hit && ts[i].member == m)
    && (forall i | 0 <= i < |ts| && Passes(lim, ts, i) && ts[i].at > LastTurn(ts) - lim.windowMs ::
          ts[i].member in log && log[ts[i].member] == ts[i].at)
  }

  lemma TurnPrefix(lim: Limit, ts: seq<Turn>, t: Turn, i: nat)
    requires i < |ts|
    ensures (ts + [t])[..i] == ts[..i] && (ts + [t])[i] == ts[i]
    ensures Passes(lim, ts + [t], i) <==> Passes(lim, ts, i)
  {
  }

  lemma FreshTurn(lim: Limit, ts: seq<Turn>, t: Turn)
    requires InTurn(ts + [t]) && LaneOk(lim, ts)
    ensures InTurn(ts) && t.at >= LastTurn(ts) && (t.hit ==> t.member !in LaneLog(lim, ts))
  {
    var all := ts + [t];
    assert all[|ts|] == t && forall i | 0 <= i < |ts| :: all[i] == ts[i];
    assert forall i | 0 <= i < |ts| && all[i].hit && all[|ts|].hit :: all[i].member != all[|ts|].member;
  }

  lemma LaneSnoc(lim: Limit, ts: seq<Turn>, t: Turn)
    ensures LaneLog(lim, ts + [t])
         == if t.hit then Hit(LaneLog(lim, ts), lim, t.at, t.member).0 else LaneLog(lim, ts)
  {
    assert (ts + [t])[..|ts|] == ts;
  }

  lemma LaneMembers(lim: Limit, ts: seq<Turn>, t: Turn, m: nat)
    requires t.hit && LaneOk(lim, ts) && m in LaneLog(lim, ts + [t])
    requires LaneLog(lim, ts + [t]).Keys <= LaneLog(lim, ts).Keys + {t.member}
    ensures exists i | 0 <= i < |ts + [t]| :: (ts + [t])[i].hit && (ts + [t])[i].member == m
  {
    var all := ts + [t];
    if m in LaneLog(lim, ts) {
      var i :| 0 <= i < |ts| && ts[i].hit && ts[i].member == m;
      assert all[i] == ts[i];
    } else {
      assert all[|ts|] == t;
    }
  }

  lemma LanePassed(lim: Limit, ts: seq<Turn>, t: Turn, i: nat)
    requires t.hit && LaneOk(lim, ts) && Timed(LaneLog(lim, ts)) && t.member !in LaneLog(lim, ts)
    requires t.at >= LastTurn(ts) && i <= |ts| && Passes(lim, ts + [t], i)
    requires (ts + [t])[i].at > t.at - lim.windowMs
    ensures (ts + [t])[i].member in LaneLog(lim, ts + [t])
    ensures LaneLog(lim, ts + [t])[(ts + [t])[i].member] == (ts + [t])[i].at
  {
    LaneSnoc(lim, ts, t);
    HitAllowsIff(LaneLog(lim, ts), lim, t.at, t.member);
    if i < |ts| {
      TurnPrefix(lim, ts, t, i);
    } else {
      assert (ts + [t])[..|ts|] == ts;
    }
  }

  /** One more turn. */
  lemma LaneStepHit(lim: Limit, ts: seq<Turn>, t: Turn)
    requires lim.Valid() && lim.limit >= 0 && t.hit && InTurn(ts + [t]) && LaneOk(lim, ts)
    ensures LaneOk(lim, ts + [t])
  {
    var log, all := LaneLog(lim, ts), ts + [t];
    FreshTurn(lim, ts, t);
    LaneSnoc(lim, ts, t);
    HitKeepsSequential(log, lim, t.at, t.member, LastTurn(ts));
    HitAdds(log, lim, t.at, t.member);
    forall m | m in LaneLog(lim, all)
      ensures exists i | 0 <= i < |all| :: all[i].hit && all[i].member == m
    {
      LaneMembers(lim, ts, t, m);
    }
    forall i | 0 <= i < |all| && Passes(lim, all, i) && all[i].at > t.at - lim.windowMs
      ensures all[i].member in LaneLog(lim, all) && LaneLog(lim, all)[all[i].member] == all[i].at
    {
      LanePassed(lim, ts, t, i);
    }
  }

  lemma LaneStepIdle(lim: Limit, ts: seq<Turn>, t: Turn)
    requires lim.Valid() && !t.hit && InTurn(ts + [t]) && LaneOk(lim, ts)
    ensures LaneOk(lim, ts + [t])
  {
    var all := ts + [t];
    FreshTurn(lim, ts, t);
    LaneSnoc(lim, ts, t);
    assert forall i | 0 <= i < |ts| :: all[i] == ts[i];
    forall i | 0 <= i < |all| && Passes(lim, all, i) && all[i].at > t.at - lim.windowMs
      ensures all[i].member in LaneLog(lim, all) && LaneLog(lim, all)[all[i].member] == all[i].at
    {
      assert i < |ts|;
      TurnPrefix(lim, ts, t, i);
    }
  }

  lemma {:induction false} LaneIsOk(lim: Limit, ts: seq<Turn>)
    requires lim.Valid() && lim.limit >= 0 && InTurn(ts)
    ensures LaneOk(lim, ts)
  {
    if ts != [] {
      var init, t := ts[..|ts| - 1], ts[|ts| - 1];
      assert ts == init + [t];
      assert InTurn(init) by {
        assert forall i | 0 <= i < |init| :: ts[i] == init[i];
      }
      LaneIsOk(lim, init);
      if t.hit { LaneStepHit(lim, init, t); } else { LaneStepIdle(lim, init, t); }
    }
  }

  /** The positions that passed in the window of the limit that ends at t. */
  ghost function PassedWithin(lim: Limit, ts: seq<Turn>, t: int): set<nat> {
    set i: nat | i < |ts| && Passes(lim, ts, i) && t - lim.windowMs < ts[i].at <= t
  }

  lemma {:induction false} MemberPigeonhole(ts: seq<Turn>, positions: set<nat>, members: set<nat>)
    requires forall i | i in positions :: i < |ts| && ts[i].member in members
    requires forall i, j | i in positions && j in positions && i != j :: ts[i].member != ts[j].member
    ensures |positions| <= |members|
    decreases |positions|
  {
    if positions != {} {
      var i :| i in positions;
      MemberPigeonhole(ts, positions - {i}, members - {ts[i].member});
    }
  }

  lemma PrefixInTurn(ts: seq<Turn>, n: nat)
    requires InTurn(ts) && n <= |ts|
    ensures InTurn(ts[..n])
  {
    assert forall i | 0 <= i < n :: ts[..n][i] == ts[i];
  }

  lemma PrefixPasses(lim: Limit, ts: seq<Turn>, n: nat, i: nat)
    requires i < n <= |ts|
    ensures Passes(lim, ts[..n], i) <==> Passes(lim, ts, i)
  {
    assert ts[..n][..i] == ts[..i];
  }

  /** One bucket, whoever hits it: no window ever holds more that passed than the limit. */
  lemma LaneNeverOver(lim: Limit, ts: seq<Turn>, t: int)
    requires lim.Valid() && InTurn(ts)
    ensures PassedWithin(lim, ts, t) == {} || |PassedWithin(lim, ts, t)| <= lim.limit
  {
    var within := PassedWithin(lim, ts, t);
    if within != {} {
      var j := Greatest(within);
      if lim.limit < 0 {
        ZeroLimitNeverAdmits(LaneLog(lim, ts[..j]), lim, ts[j].at, ts[j].member);
      } else {
        LaneWindow(lim, ts, within, j);
      }
    }
  }

  lemma LaneWindow(lim: Limit, ts: seq<Turn>, within: set<nat>, j: nat)
    requires lim.Valid() && lim.limit >= 0 && InTurn(ts) && j < |ts| && ts[j].hit
    requires forall i | i in within ::
               i <= j && Passes(lim, ts, i) && ts[i].at > ts[j].at - lim.windowMs
    ensures |within| <= lim.limit
  {
    var upTo := ts[..j + 1];
    PrefixInTurn(ts, j + 1);
    LaneIsOk(lim, upTo);
    var log := LaneLog(lim, upTo);
    forall i | i in within
      ensures upTo[i].member in log && ts[i].hit && upTo[i] == ts[i]
    {
      PrefixPasses(lim, ts, j + 1, i);
    }
    MemberPigeonhole(upTo, within, log.Keys);
    assert |log.Keys| == |log|;
  }

  // ---------------------------------------------------------------- two ceilings

  /** The requests of a run as hits on the general bucket: every one of them. */
  function GeneralTurns(rs: seq<Request>): (ts: seq<Turn>)
    ensures |ts| == |rs|
  {
    seq(|rs|, i requires 0 <= i < |rs| => Turn(rs[i].at, rs[i].m1, true))
  }

  /** And on the ingest bucket: the uploads the general ceiling let pass. */
  function IngestTurns(gl: Limit, rs: seq<Request>): (ts: seq<Turn>)
    ensures |ts| == |rs|
  {
    seq(|rs|, i requires 0 <= i < |rs| =>
      Turn(rs[i].at, rs[i].m2, rs[i].upload && Passes(gl, GeneralTurns(rs), i)))
  }

  predicate LetThrough(gl: Limit, il: Limit, rs: seq<Request>, i: nat)
    requires i < |rs|
  {
    var t := ServeAll(gl, il, rs[..i]);
    Checked(t.general, gl, t.ingest, il, rs[i]).2.None?
  }

  ghost predicate FreshUploads(rs: seq<Request>) {
    forall i, j | 0 <= i < j < |rs| && rs[i].upload && rs[j].upload :: rs[i].m2 != rs[j].m2
  }

  lemma GeneralPrefix(rs: seq<Request>, r: Request)
    ensures GeneralTurns(rs + [r]) == GeneralTurns(rs) + [Turn(r.at, r.m1, true)]
  {
  }

  lemma IngestPrefix(gl: Limit, rs: seq<Request>, r: Request)
    ensures IngestTurns(gl, rs + [r])
         == IngestTurns(gl, rs)
            + [Turn(r.at, r.m2, r.upload && Hit(LaneLog(gl, GeneralTurns(rs)), gl, r.at, r.m1).1.allowed)]
  {
    var all := rs + [r];
    GeneralPrefix(rs, r);
    assert GeneralTurns(all)[..|rs|] == GeneralTurns(rs);
    forall i | 0 <= i < |rs|
      ensures IngestTurns(gl, all)[i] == IngestTurns(gl, rs)[i]
    {
      TurnPrefix(gl, GeneralTurns(rs), Turn(r.at, r.m1, true), i);
    }
  }

  /** The logs of the run are those of the two lanes. */
  lemma {:induction false} LogsAreLanes(gl: Limit, il: Limit, rs: seq<Request>)
    requires Sequential(rs)
    ensures ServeAll(gl, il, rs).general == LaneLog(gl, GeneralTurns(rs))
    ensures ServeAll(gl, il, rs).ingest == LaneLog(il, IngestTurns(gl, rs))
  {
    if rs != [] {
      var init, r := rs[..|rs| - 1], rs[|rs| - 1];
      assert rs == init + [r];
      SequentialSnoc(init, r);
      LogsAreLanes(gl, il, init);
      var t := ServeAll(gl, il, init);
      CheckedIs(t.general, gl, t.ingest, il, r);
      GeneralPrefix(init, r);
      LaneSnoc(gl, GeneralTurns(init), Turn(r.at, r.m1, true));
      IngestPrefix(gl, init, r);
      LaneSnoc(il, IngestTurns(gl, init), Turn(r.at, r.m2, r.upload && Hit(t.general, gl, r.at, r.m1).1.allowed));
    }
  }

  lemma GeneralUpTo(rs: seq<Request>, i: nat)
    requires i < |rs|
    ensures GeneralTurns(rs)[..i] == GeneralTurns(rs[..i])
  {
  }

  lemma GeneralUpToUpTo(gl: Limit, rs: seq<Request>, i: nat, k: nat)
    requires k < i < |rs|
    ensures Passes(gl, GeneralTurns(rs[..i]), k) <==> Passes(gl, GeneralTurns(rs), k)
  {
    GeneralUpTo(rs, i);
    PrefixPasses(gl, GeneralTurns(rs), i, k);
  }

  lemma IngestUpTo(gl: Limit, rs: seq<Request>, i: nat)
    requires i < |rs|
    ensures IngestTurns(gl, rs)[..i] == IngestTurns(gl, rs[..i])
  {
    forall k | 0 <= k < i
      ensures IngestTurns(gl, rs)[k] == IngestTurns(gl, rs[..i])[k]
    {
      GeneralUpToUpTo(gl, rs, i, k);
    }
  }

  lemma PrefixSequential(rs: seq<Request>, i: nat)
    requires Sequential(rs) && i <= |rs|
    ensures Sequential(rs[..i])
  {
    assert forall k | 0 <= k < i :: rs[..i][k] == rs[k];
  }

  /** What is let through passed the general bucket, and an upload its own as well. */
  lemma LetThroughPasses(gl: Limit, il: Limit, rs: seq<Request>, i: nat)
    requires Sequential(rs) && i < |rs| && LetThrough(gl, il, rs, i)
    ensures Passes(gl, GeneralTurns(rs), i)
    ensures rs[i].upload ==> Passes(il, IngestTurns(gl, rs), i)
  {
    PrefixSequential(rs, i);
    LogsAreLanes(gl, il, rs[..i]);
    GeneralUpTo(rs, i);
    IngestUpTo(gl, rs, i);
    var t := ServeAll(gl, il, rs[..i]);
    CheckedIs(t.general, gl, t.ingest, il, rs[i]);
  }

  ghost function LetThroughWithin(gl: Limit, il: Limit, rs: seq<Request>, t: int): set<nat> {
    set i: nat | i < |rs| && LetThrough(gl, il, rs, i) && t - gl.windowMs < rs[i].at <= t
  }

  ghost function UploadsWithin(gl: Limit, il: Limit, rs: seq<Request>, t: int): set<nat> {
    set i: nat | i < |rs| && rs[i].upload && LetThrough(gl, il, rs, i) && t - il.windowMs < rs[i].at <= t
  }

  lemma GeneralInTurn(rs: seq<Request>)
    requires Sequential(rs)
    ensures InTurn(GeneralTurns(rs))
  {
  }

  lemma IngestInTurn(gl: Limit, rs: seq<Request>)
    requires Sequential(rs) && FreshUploads(rs)
    ensures InTurn(IngestTurns(gl, rs))
  {
  }

  /** Over every sequential run: no window of the general limit holds more requests let through than it allows. */
  lemma RequestsWithinTheCeiling(gl: Limit, il: Limit, rs: seq<Request>, t: int)
    requires gl.Valid() && Sequential(rs)
    ensures LetThroughWithin(gl, il, rs, t) == {} || |LetThroughWithin(gl, il, rs, t)| <= gl.limit
  {
    var ts, within := GeneralTurns(rs), LetThroughWithin(gl, il, rs, t);
    forall i | i in within
      ensures i in PassedWithin(gl, ts, t)
    {
      LetThroughPasses(gl, il, rs, i);
    }
    GeneralInTurn(rs);
    LaneNeverOver(gl, ts, t);
    SubsetSize(within, PassedWithin(gl, ts, t));
  }

  /** And no window of the ingest limit holds more uploads let through than that one allows. */
  lemma UploadsWithinTheCeiling(gl: Limit, il: Limit, rs: seq<Request>, t: int)
    requires il.Valid() && Sequential(rs) && FreshUploads(rs)
    ensures UploadsWithin(gl, il, rs, t) == {} || |UploadsWithin(gl, il, rs, t)| <= il.limit
  {
    var ts, within := IngestTurns(gl, rs), UploadsWithin(gl, il, rs, t);
    forall i | i in within
      ensures i in PassedWithin(il, ts, t)
    {
      LetThroughPasses(gl, il, rs, i);
    }
    IngestInTurn(gl, rs);
    LaneNeverOver(il, ts, t);
    SubsetSize(within, PassedWithin(il, ts, t));
  }
}
