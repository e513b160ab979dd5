/**
 * The inference worker's context of the last L windows of a host, fed by
 * at-least-once deliveries that may crash between any two steps.
 */
module ContextRing {
  datatype Vector = Vector(ts: int, features: seq<real>)

  datatype Forecast = Forecast(originTs: int, context: seq<Vector>)

  /** Where a delivery's handling stops, if it does; an exception of the predictor is `BeforePublish`. */
  datatype Crash = Never | BeforePush | BeforePublish | BeforeAck

  datatype Delivery = Delivery(vector: Vector, crash: Crash)

  datatype Host = Host(buffer: seq<Vector>, published: seq<Forecast>)

  /** `LTRIM key -l -1`; with l = 0 that keeps the whole list. */
  function Trim<T>(s: seq<T>, l: nat): seq<T> {
    if l == 0 || |s| <= l then s else s[|s| - l..]
  }

  predicate IsDuplicate(buffer: seq<Vector>, v: Vector) {
    buffer != [] && buffer[|buffer| - 1].ts == v.ts
  }

  function Deliver(l: nat, h: Host, d: Delivery): Host {
    if IsDuplicate(h.buffer, d.vector) || d.crash == BeforePush then h
    else
      var buffer := Trim(h.buffer + [d.vector], l);
      if |buffer| < l || d.crash == BeforePublish then h.(buffer := buffer)
      else Host(buffer, h.published + [Forecast(d.vector.ts, buffer)])
  }

  function Run(l: nat, ds: seq<Delivery>): Host {
    if ds == [] then Host([], []) else Deliver(l, Run(l, ds[..|ds| - 1]), ds[|ds| - 1])
  }

  // -------------------------------------------------------------- reference

  /** Deliveries that reached the push, every run of one window reduced to its first. */
  function Collapsed(ds: seq<Delivery>): seq<Delivery> {
    if ds == [] then []
    else
      var rest, d := Collapsed(ds[..|ds| - 1]), ds[|ds| - 1];
      if d.crash == BeforePush || (rest != [] && rest[|rest| - 1].vector.ts == d.vector.ts) then rest
      else rest + [d]
  }

  function Vectors(c: seq<Delivery>): (r: seq<Vector>)
    ensures |r| == |c|
  {
    seq(|c|, i requires 0 <= i < |c| => c[i].vector)
  }

  /** The forecasts of a deduplicated stream: from the l-th window on, unless the handling died first. */
  function Expected(l: nat, c: seq<Delivery>): seq<Forecast> {
    if c == [] then []
    else
      var d := c[|c| - 1];
      Expected(l, c[..|c| - 1])
      + if |c| >= l && d.crash != BeforePublish then [Forecast(d.vector.ts, Trim(Vectors(c), l))] else []
  }

  lemma TrimAppends<T>(s: seq<T>, x: T, l: nat)
    ensures Trim(Trim(s, l) + [x], l) == Trim(s + [x], l)
    ensures |Trim(s, l)| == if l == 0 || |s| <= l then |s| else l
  {
  }

  lemma TrimLast<T>(s: seq<T>, l: nat)
    requires s != []
    ensures Trim(s, l) != [] && Trim(s, l)[|Trim(s, l)| - 1] == s[|s| - 1]
  {
  }

  /** What is kept is the end of the list, as many entries as fit. */
  lemma TrimIsTail<T>(s: seq<T>, l: nat)
    requires l > 0
    ensures |Trim(s, l)| == (if |s| < l then |s| else l) && s == s[..|s| - |Trim(s, l)|] + Trim(s, l)
  {
  }

  lemma ExpectedSnoc(l: nat, c: seq<Delivery>, d: Delivery)
    ensures Vectors(c + [d]) == Vectors(c) + [d.vector]
    ensures Expected(l, c + [d]) == Expected(l, c)
              + if |c| + 1 >= l && d.crash != BeforePublish
                then [Forecast(d.vector.ts, Trim(Vectors(c) + [d.vector], l))] else []
  {
    assert (c + [d])[..|c|] == c;
    assert Vectors(c + [d]) == Vectors(c) + [d.vector];
  }

  lemma DeliverPushes(l: nat, h: Host, c: seq<Delivery>, d: Delivery)
    requires h == Host(Trim(Vectors(c), l), Expected(l, c))
    requires d.crash != BeforePush && !IsDuplicate(h.buffer, d.vector)
    ensures Deliver(l, h, d) == Host(Trim(Vectors(c + [d]), l), Expected(l, c + [d]))
  {
    ExpectedSnoc(l, c, d);
    TrimAppends(Vectors(c), d.vector, l);
    TrimAppends(Vectors(c) + [d.vector], d.vector, l);
  }

  lemma RunSnoc(l: nat, ds: seq<Delivery>, d: Delivery)
    ensures Run(l, ds + [d]) == Deliver(l, Run(l, ds), d)
  {
    assert (ds + [d])[..|ds|] == ds;
  }

  predicate Skipped(c: seq<Delivery>, d: Delivery) {
    d.crash == BeforePush || (c != [] && c[|c| - 1].vector.ts == d.vector.ts)
  }

  lemma CollapsedSnoc(ds: seq<Delivery>, d: Delivery)
    ensures Collapsed(ds + [d]) == if Skipped(Collapsed(ds), d) then Collapsed(ds) else Collapsed(ds) + [d]
  {
    assert (ds + [d])[..|ds|] == ds;
  }

  lemma TailDecides(l: nat, c: seq<Delivery>, d: Delivery)
    ensures IsDuplicate(Trim(Vectors(c), l), d.vector) <==> c != [] && c[|c| - 1].vector.ts == d.vector.ts
  {
    if c != [] {
      TrimLast(Vectors(c), l);
    }
  }

  /** For any deliveries, repeats and crashes: the context is the tail of the collapsed stream. */
  lemma {:induction false} RingIsTheTail(l: nat, ds: seq<Delivery>)
    ensures Run(l, ds) == Host(Trim(Vectors(Collapsed(ds)), l), Expected(l, Collapsed(ds)))
  {
    if ds != [] {
      var init, d := ds[..|ds| - 1], ds[|ds| - 1];
      assert ds == init + [d];
      RingIsTheTail(l, init);
      var c := Collapsed(init);
      RunSnoc(l, init, d);
      CollapsedSnoc(init, d);
      TailDecides(l, c, d);
      if !Skipped(c, d) {
        DeliverPushes(l, Run(l, init), c, d);
      }
    }
  }

  // ------------------------------------------------- which repeats are safe

  function Pushable(ds: seq<Delivery>): seq<Delivery> {
    if ds == [] then []
    else Pushable(ds[..|ds| - 1]) + if ds[|ds| - 1].crash == BeforePush then [] else [ds[|ds| - 1]]
  }

  /** A window is only ever delivered again while it is still the host's latest. */
  predicate RepeatsOnlyLatest(p: seq<Delivery>) {
    forall i, j | 0 <= i < j < |p| && p[i].vector.ts == p[j].vector.ts :: p[j - 1].vector.ts == p[j].vector.ts
  }

  predicate DistinctWindows(c: seq<Delivery>) {
    forall i, j | 0 <= i < j < |c| :: c[i].vector.ts != c[j].vector.ts
  }

  function Windows(p: seq<Delivery>): set<int> {
    set d | d in p :: d.vector.ts
  }

  lemma {:induction false} CollapsedKeepsWindows(ds: seq<Delivery>)
    ensures Windows(Collapsed(ds)) == Windows(Pushable(ds))
    ensures Collapsed(ds) == [] <==> Pushable(ds) == []
    ensures var c, p := Collapsed(ds), Pushable(ds);
            c != [] ==> c[|c| - 1].vector.ts == p[|p| - 1].vector.ts
  {
    if ds != [] {
      var init, d := ds[..|ds| - 1], ds[|ds| - 1];
      CollapsedKeepsWindows(init);
      var c := Collapsed(init);
      WindowsSnoc(Pushable(init), d);
      WindowsSnoc(c, d);
      if c != [] {
        assert c[|c| - 1] in c;
      }
    }
  }

  lemma WindowsSnoc(p: seq<Delivery>, d: Delivery)
    ensures Windows(p + [d]) == Windows(p) + {d.vector.ts}
  {
    assert forall x :: x in p + [d] <==> x in p || x == d;
  }

  lemma RepeatsSnocOnly(p: seq<Delivery>, d: Delivery)
    requires RepeatsOnlyLatest(p + [d])
    ensures RepeatsOnlyLatest(p)
    ensures d.vector.ts in Windows(p) ==> p[|p| - 1].vector.ts == d.vector.ts
  {
    var q := p + [d];
    assert forall i | 0 <= i < |p| :: q[i] == p[i];
    assert q[|p|] == d;
    if d.vector.ts in Windows(p) {
      var i :| 0 <= i < |p| && p[i].vector.ts == d.vector.ts;
      assert q[i].vector.ts == q[|p|].vector.ts;
    }
  }

  lemma RepeatsSnocIf(p: seq<Delivery>, d: Delivery)
    requires RepeatsOnlyLatest(p)
    requires d.vector.ts in Windows(p) ==> p[|p| - 1].vector.ts == d.vector.ts
    ensures RepeatsOnlyLatest(p + [d])
  {
    var q := p + [d];
    forall i, j | 0 <= i < j < |q| && q[i].vector.ts == q[j].vector.ts
      ensures q[j - 1].vector.ts == q[j].vector.ts
    {
      if j < |p| {
        assert q[i] == p[i] && q[j] == p[j] && q[j - 1] == p[j - 1];
      } else {
        assert q[i] == p[i] && p[i] in p;
      }
    }
  }

  lemma RepeatsSnoc(p: seq<Delivery>, d: Delivery)
    ensures RepeatsOnlyLatest(p + [d]) <==>
              RepeatsOnlyLatest(p) && (d.vector.ts in Windows(p) ==> p[|p| - 1].vector.ts == d.vector.ts)
  {
    if RepeatsOnlyLatest(p + [d]) {
      RepeatsSnocOnly(p, d);
    } else if RepeatsOnlyLatest(p) && (d.vector.ts in Windows(p) ==> p[|p| - 1].vector.ts == d.vector.ts) {
      RepeatsSnocIf(p, d);
      assert false;
    }
  }

  lemma DistinctSnoc(c: seq<Delivery>, d: Delivery)
    ensures DistinctWindows(c + [d]) <==> DistinctWindows(c) && d.vector.ts !in Windows(c)
  {
    var q := c + [d];
    assert forall i | 0 <= i < |c| :: q[i] == c[i];
    assert DistinctWindows(q) ==> forall i | 0 <= i < |c| :: q[i].vector.ts != q[|c|].vector.ts;
    if DistinctWindows(c) && d.vector.ts !in Windows(c) {
      assert forall i | 0 <= i < |c| :: c[i] in c;
    }
  }

  lemma PushableSnoc(ds: seq<Delivery>, d: Delivery)
    ensures Pushable(ds + [d]) == if d.crash == BeforePush then Pushable(ds) else Pushable(ds) + [d]
  {
    assert (ds + [d])[..|ds|] == ds;
    assert Pushable(ds) + [] == Pushable(ds);
  }

  lemma DistinctStep(c: seq<Delivery>, p: seq<Delivery>, d: Delivery)
    requires d.crash != BeforePush && Windows(c) == Windows(p) && (c == [] <==> p == [])
    requires c != [] ==> c[|c| - 1].vector.ts == p[|p| - 1].vector.ts
    requires DistinctWindows(c) <==> RepeatsOnlyLatest(p)
    ensures DistinctWindows(if Skipped(c, d) then c else c + [d]) <==> RepeatsOnlyLatest(p + [d])
  {
    RepeatsSnoc(p, d);
    if !Skipped(c, d) {
      DistinctSnoc(c, d);
    }
  }

  /** The collapsed stream has no window twice exactly when only the latest is ever repeated. */
  lemma {:induction false} DistinctIff(ds: seq<Delivery>)
    ensures DistinctWindows(Collapsed(ds)) <==> RepeatsOnlyLatest(Pushable(ds))
  {
    if ds != [] {
      var init, d := ds[..|ds| - 1], ds[|ds| - 1];
      assert ds == init + [d];
      DistinctIff(init);
      CollapsedSnoc(init, d);
      PushableSnoc(init, d);
      if d.crash != BeforePush {
        CollapsedKeepsWindows(init);
        DistinctStep(Collapsed(init), Pushable(init), d);
      }
    }
  }

  // ------------------------------------- when the context is what was pushed

  /** The stream as it was pushed: every window at the first delivery that reached the push. */
  function FirstSeen(ds: seq<Delivery>): seq<Delivery> {
    if ds == [] then []
    else
      var rest, d := FirstSeen(ds[..|ds| - 1]), ds[|ds| - 1];
      if d.crash == BeforePush || d.vector.ts in Windows(rest) then rest else rest + [d]
  }

  /** After every delivery the buffer is the last l windows of the stream as it was pushed. */
  ghost predicate AlwaysHistory(l: nat, ds: seq<Delivery>) {
    forall n | 0 <= n <= |ds| :: IsHistory(l, ds[..n])
  }

  predicate IsHistory(l: nat, ds: seq<Delivery>) {
    Run(l, ds).buffer == Trim(Vectors(FirstSeen(ds)), l)
  }

  lemma FirstSeenSnoc(ds: seq<Delivery>, d: Delivery)
    ensures FirstSeen(ds + [d]) ==
              if d.crash == BeforePush || d.vector.ts in Windows(FirstSeen(ds)) then FirstSeen(ds)
              else FirstSeen(ds) + [d]
  {
    assert (ds + [d])[..|ds|] == ds;
  }

  lemma {:induction false} FirstSeenWindows(ds: seq<Delivery>)
    ensures Windows(FirstSeen(ds)) == Windows(Pushable(ds))
  {
    if ds != [] {
      var init, d := ds[..|ds| - 1], ds[|ds| - 1];
      assert ds == init + [d];
      FirstSeenWindows(init);
      FirstSeenSnoc(init, d);
      PushableSnoc(init, d);
      WindowsSnoc(Pushable(init), d);
      WindowsSnoc(FirstSeen(init), d);
    }
  }

  lemma PushFirstSeen(c: seq<Delivery>, p: seq<Delivery>, d: Delivery)
    requires d.crash != BeforePush && Windows(c) == Windows(p) && (c == [] <==> p == [])
    requires c != [] ==> c[|c| - 1].vector.ts == p[|p| - 1].vector.ts
    requires d.vector.ts in Windows(p) ==> p[|p| - 1].vector.ts == d.vector.ts
    ensures Skipped(c, d) <==> d.vector.ts in Windows(c)
  {
    if c != [] {
      assert c[|c| - 1] in c;
    }
  }

  lemma FirstSeenStep(init: seq<Delivery>, d: Delivery)
    requires RepeatsOnlyLatest(Pushable(init + [d])) && Collapsed(init) == FirstSeen(init)
    ensures Collapsed(init + [d]) == FirstSeen(init + [d])
  {
    CollapsedSnoc(init, d);
    FirstSeenSnoc(init, d);
    if d.crash != BeforePush {
      PushableSnoc(init, d);
      RepeatsSnocOnly(Pushable(init), d);
      CollapsedKeepsWindows(init);
      PushFirstSeen(Collapsed(init), Pushable(init), d);
    }
  }

  /** While only the latest window repeats, collapsing runs is keeping first pushes. */
  lemma {:induction false} CollapsedIsFirstSeen(ds: seq<Delivery>)
    requires RepeatsOnlyLatest(Pushable(ds))
    ensures Collapsed(ds) == FirstSeen(ds)
  {
    if ds != [] {
      var init, d := ds[..|ds| - 1], ds[|ds| - 1];
      assert ds == init + [d];
      RepeatsPrefix(ds, |init|);
      CollapsedIsFirstSeen(init);
      FirstSeenStep(init, d);
    }
  }

  lemma TailsDiffer(l: nat, c: seq<Delivery>, d: Delivery)
    requires c != [] && c[|c| - 1].vector.ts != d.vector.ts
    ensures Trim(Vectors(c + [d]), l) != Trim(Vectors(c), l)
  {
    TrimLast(Vectors(c + [d]), l);
    TrimLast(Vectors(c), l);
    assert Vectors(c + [d])[|c|] == d.vector && Vectors(c)[|c| - 1] == c[|c| - 1].vector;
  }

  lemma OlderRepeat(p: seq<Delivery>, d: Delivery)
    requires RepeatsOnlyLatest(p) && !RepeatsOnlyLatest(p + [d])
    ensures d.vector.ts in Windows(p) && p != [] && p[|p| - 1].vector.ts != d.vector.ts
  {
    RepeatsSnoc(p, d);
  }

  lemma SeenButPushed(init: seq<Delivery>, d: Delivery, c: seq<Delivery>)
    requires d.crash != BeforePush && Collapsed(init) == c && FirstSeen(init) == c
    requires c != [] && c[|c| - 1].vector.ts != d.vector.ts && d.vector.ts in Windows(c)
    ensures Collapsed(init + [d]) == c + [d] && FirstSeen(init + [d]) == c
  {
    CollapsedSnoc(init, d);
    FirstSeenSnoc(init, d);
  }

  lemma OlderRepeatFacts(init: seq<Delivery>, d: Delivery)
    requires RepeatsOnlyLatest(Pushable(init)) && !RepeatsOnlyLatest(Pushable(init + [d]))
    ensures d.crash != BeforePush
    ensures var p := Pushable(init);
            d.vector.ts in Windows(p) && p != [] && p[|p| - 1].vector.ts != d.vector.ts
  {
    PushableSnoc(init, d);
    OlderRepeat(Pushable(init), d);
  }

  lemma FirstSeenEnds(init: seq<Delivery>)
    requires RepeatsOnlyLatest(Pushable(init))
    ensures var c, p := FirstSeen(init), Pushable(init);
            && Collapsed(init) == c && Windows(c) == Windows(p) && (c == [] <==> p == [])
            && (c != [] ==> c[|c| - 1].vector.ts == p[|p| - 1].vector.ts)
  {
    CollapsedIsFirstSeen(init);
    CollapsedKeepsWindows(init);
  }

  /** Where the first repeat of an older window is pushed though it was seen. */
  lemma OlderRepeatPushed(init: seq<Delivery>, d: Delivery)
    requires RepeatsOnlyLatest(Pushable(init)) && !RepeatsOnlyLatest(Pushable(init + [d]))
    ensures var c := FirstSeen(init);
            && c != [] && c[|c| - 1].vector.ts != d.vector.ts
            && Collapsed(init + [d]) == c + [d] && FirstSeen(init + [d]) == c
  {
    OlderRepeatFacts(init, d);
    FirstSeenEnds(init);
    SeenButPushed(init, d, FirstSeen(init));
  }

  /** It puts that window, not the newest one, at the tail. */
  lemma OlderRepeatShows(l: nat, init: seq<Delivery>, d: Delivery)
    requires RepeatsOnlyLatest(Pushable(init)) && !RepeatsOnlyLatest(Pushable(init + [d]))
    ensures !IsHistory(l, init + [d])
  {
    OlderRepeatPushed(init, d);
    RingIsTheTail(l, init + [d]);
    TailsDiffer(l, FirstSeen(init), d);
  }

  lemma {:induction false} OlderRepeatBreaks(l: nat, ds: seq<Delivery>)
    requires !RepeatsOnlyLatest(Pushable(ds))
    ensures !AlwaysHistory(l, ds)
  {
    if ds != [] {
      var init, d := ds[..|ds| - 1], ds[|ds| - 1];
      assert ds == init + [d];
      if RepeatsOnlyLatest(Pushable(init)) {
        OlderRepeatShows(l, init, d);
        assert ds[..|ds|] == ds;
      } else {
        OlderRepeatBreaks(l, init);
        var n :| 0 <= n <= |init| && !IsHistory(l, init[..n]);
        assert ds[..n] == init[..n];
      }
    }
  }

  lemma {:induction false} PushablePrefix(ds: seq<Delivery>, n: nat)
    requires n <= |ds|
    ensures Pushable(ds[..n]) <= Pushable(ds)
  {
    if n == |ds| {
      assert ds[..n] == ds;
    } else {
      var init := ds[..|ds| - 1];
      assert ds[..n] == init[..n];
      PushablePrefix(init, n);
    }
  }

  lemma RepeatsPrefix(ds: seq<Delivery>, n: nat)
    requires n <= |ds| && RepeatsOnlyLatest(Pushable(ds))
    ensures RepeatsOnlyLatest(Pushable(ds[..n]))
  {
    PushablePrefix(ds, n);
    var p, q := Pushable(ds[..n]), Pushable(ds);
    assert forall i | 0 <= i < |p| :: p[i] == q[i];
  }

  /**
   * For every length: the context is always the last windows in the order of their first pushes,
   * each once, if and only if no window is pushed again after a later push of another.
   */
  lemma ContextIsHistoryIff(l: nat, ds: seq<Delivery>)
    ensures AlwaysHistory(l, ds) <==> RepeatsOnlyLatest(Pushable(ds))
  {
    if RepeatsOnlyLatest(Pushable(ds)) {
      forall n | 0 <= n <= |ds|
        ensures IsHistory(l, ds[..n])
      {
        RepeatsPrefix(ds, n);
        CollapsedIsFirstSeen(ds[..n]);
        RingIsTheTail(l, ds[..n]);
      }
    } else {
      OlderRepeatBreaks(l, ds);
    }
  }

  // ---------------------------------------- when the context is real history

  /** Into its place by time; a window already there stays as it is. */
  function InsertByTime(s: seq<Vector>, v: Vector): seq<Vector> {
    if s == [] || s[|s| - 1].ts < v.ts then s + [v]
    else if s[|s| - 1].ts == v.ts then s
    else InsertByTime(s[..|s| - 1], v) + [s[|s| - 1]]
  }

  /** The history of the host: the windows that reached the push, by time, each once. */
  function InTime(ds: seq<Delivery>): seq<Vector> {
    if ds == [] then []
    else
      var rest, d := InTime(ds[..|ds| - 1]), ds[|ds| - 1];
      if d.crash == BeforePush then rest else InsertByTime(rest, d.vector)
  }

  predicate ByTime(s: seq<Vector>) {
    forall i | 0 < i < |s| :: s[i - 1].ts < s[i].ts
  }

  function Stamps(s: seq<Vector>): set<int> {
    set v | v in s :: v.ts
  }

  lemma StampsSnoc(s: seq<Vector>, v: Vector)
    ensures Stamps(s + [v]) == Stamps(s) + {v.ts}
  {
    assert forall x :: x in s + [v] <==> x in s || x == v;
  }

  lemma ByTimeSnoc(s: seq<Vector>, v: Vector)
    requires ByTime(s) && (s != [] ==> s[|s| - 1].ts < v.ts)
    ensures ByTime(s + [v])
  {
  }

  lemma {:induction false} InsertByTimeSorts(s: seq<Vector>, v: Vector)
    requires ByTime(s)
    ensures var out := InsertByTime(s, v);
            && ByTime(out) && out != []
            && out[|out| - 1].ts == if s == [] || s[|s| - 1].ts < v.ts then v.ts else s[|s| - 1].ts
  {
    if s == [] || s[|s| - 1].ts < v.ts {
      ByTimeSnoc(s, v);
    } else if s[|s| - 1].ts > v.ts {
      var init := s[..|s| - 1];
      InsertByTimeSorts(init, v);
      ByTimeSnoc(InsertByTime(init, v), s[|s| - 1]);
    }
  }

  lemma {:induction false} InsertByTimeStamps(s: seq<Vector>, v: Vector)
    ensures Stamps(InsertByTime(s, v)) == Stamps(s) + {v.ts}
  {
    if s == [] || s[|s| - 1].ts < v.ts {
      StampsSnoc(s, v);
    } else {
      var init, last := s[..|s| - 1], s[|s| - 1];
      assert s == init + [last];
      StampsSnoc(init, last);
      if last.ts != v.ts {
        InsertByTimeStamps(init, v);
        StampsSnoc(InsertByTime(init, v), last);
      }
    }
  }

  /** The history is ascending and holds exactly the windows pushed. */
  lemma {:induction false} InTimeIsHistory(ds: seq<Delivery>)
    ensures ByTime(InTime(ds)) && Stamps(InTime(ds)) == Windows(Pushable(ds))
  {
    if ds != [] {
      var init, d := ds[..|ds| - 1], ds[|ds| - 1];
      assert ds == init + [d];
      InTimeIsHistory(init);
      PushableSnoc(init, d);
      WindowsSnoc(Pushable(init), d);
      if d.crash != BeforePush {
        InsertByTimeSorts(InTime(init), d.vector);
        InsertByTimeStamps(InTime(init), d.vector);
      }
    }
  }

  /** No window is pushed after a later one. */
  predicate NeverBack(p: seq<Delivery>) {
    forall i | 0 < i < |p| :: p[i - 1].vector.ts <= p[i].vector.ts
  }

  ghost predicate AlwaysInTime(l: nat, ds: seq<Delivery>) {
    forall n | 0 <= n <= |ds| :: IsInTime(l, ds[..n])
  }

  predicate IsInTime(l: nat, ds: seq<Delivery>) {
    Run(l, ds).buffer == Trim(InTime(ds), l)
  }

  lemma InTimeSnoc(ds: seq<Delivery>, d: Delivery)
    ensures InTime(ds + [d]) == if d.crash == BeforePush then InTime(ds) else InsertByTime(InTime(ds), d.vector)
  {
    assert (ds + [d])[..|ds|] == ds;
  }

  lemma NeverBackSnoc(p: seq<Delivery>, d: Delivery)
    ensures NeverBack(p + [d]) <==> NeverBack(p) && (p != [] ==> p[|p| - 1].vector.ts <= d.vector.ts)
  {
    var q := p + [d];
    assert forall i | 0 <= i < |p| :: q[i] == p[i];
    if NeverBack(q) {
      forall i | 0 < i < |p|
        ensures p[i - 1].vector.ts <= p[i].vector.ts
      {
        assert q[i - 1].vector.ts <= q[i].vector.ts;
      }
      assert p != [] ==> q[|p| - 1].vector.ts <= q[|p|].vector.ts;
    }
  }

  lemma VectorsSnoc(c: seq<Delivery>, d: Delivery)
    ensures Vectors(c + [d]) == Vectors(c) + [d.vector]
  {
  }

  lemma PushInTime(c: seq<Delivery>, d: Delivery)
    requires d.crash != BeforePush && (c != [] ==> c[|c| - 1].vector.ts <= d.vector.ts)
    ensures Vectors(if Skipped(c, d) then c else c + [d]) == InsertByTime(Vectors(c), d.vector)
  {
    VectorsSnoc(c, d);
    assert c != [] ==> Vectors(c)[|c| - 1] == c[|c| - 1].vector;
  }

  /** While pushes never go back, collapsing runs is sorting by time. */
  lemma {:induction false} CollapsedIsInTime(ds: seq<Delivery>)
    requires NeverBack(Pushable(ds))
    ensures Vectors(Collapsed(ds)) == InTime(ds)
  {
    if ds != [] {
      var init, d := ds[..|ds| - 1], ds[|ds| - 1];
      assert ds == init + [d];
      PushableSnoc(init, d);
      NeverBackSnoc(Pushable(init), d);
      CollapsedIsInTime(init);
      CollapsedSnoc(init, d);
      if d.crash != BeforePush {
        CollapsedKeepsWindows(init);
        PushInTime(Collapsed(init), d);
      }
    }
  }

  lemma InsertKeepsLast(s: seq<Vector>, v: Vector)
    requires s != [] && v.ts < s[|s| - 1].ts
    ensures var t := InsertByTime(s, v);
            t != [] && t[|t| - 1] == s[|s| - 1]
  {
  }

  /** Where the first push goes back. */
  lemma BackwardPush(init: seq<Delivery>, d: Delivery)
    requires NeverBack(Pushable(init)) && !NeverBack(Pushable(init + [d]))
    ensures var c := Collapsed(init);
            && c != [] && d.vector.ts < c[|c| - 1].vector.ts
            && Collapsed(init + [d]) == c + [d] && InTime(init + [d]) == InsertByTime(Vectors(c), d.vector)
  {
    assert d.crash != BeforePush && Pushable(init) != []
           && d.vector.ts < Pushable(init)[|Pushable(init)| - 1].vector.ts by {
      PushableSnoc(init, d);
      NeverBackSnoc(Pushable(init), d);
    }
    CollapsedKeepsWindows(init);
    CollapsedIsInTime(init);
    CollapsedSnoc(init, d);
    InTimeSnoc(init, d);
  }

  lemma DifferentTails(s: seq<Vector>, t: seq<Vector>, l: nat)
    requires s != [] && t != [] && s[|s| - 1] != t[|t| - 1]
    ensures Trim(s, l) != Trim(t, l)
  {
    TrimLast(s, l);
    TrimLast(t, l);
  }

  /** It puts an earlier window at the tail. */
  lemma BackwardPushShows(l: nat, init: seq<Delivery>, d: Delivery)
    requires NeverBack(Pushable(init)) && !NeverBack(Pushable(init + [d]))
    ensures !IsInTime(l, init + [d])
  {
    var c := Collapsed(init);
    BackwardPush(init, d);
    RingIsTheTail(l, init + [d]);
    VectorsSnoc(c, d);
    InsertKeepsLast(Vectors(c), d.vector);
    DifferentTails(Vectors(c + [d]), InTime(init + [d]), l);
  }

  lemma {:induction false} BackwardPushBreaks(l: nat, ds: seq<Delivery>)
    requires !NeverBack(Pushable(ds))
    ensures !AlwaysInTime(l, ds)
  {
    if ds != [] {
      var init, d := ds[..|ds| - 1], ds[|ds| - 1];
      assert ds == init + [d];
      if NeverBack(Pushable(init)) {
        BackwardPushShows(l, init, d);
        assert ds[..|ds|] == ds;
      } else {
        BackwardPushBreaks(l, init);
        var n :| 0 <= n <= |init| && !IsInTime(l, init[..n]);
        assert ds[..n] == init[..n];
      }
    }
  }

  /**
   * For every length: the context is always the host's last windows in time order, each once, if
   * and only if no window reaches the push after a later one.
   */
  lemma ContextIsInTimeIff(l: nat, ds: seq<Delivery>)
    ensures AlwaysInTime(l, ds) <==> NeverBack(Pushable(ds))
  {
    if NeverBack(Pushable(ds)) {
      forall n | 0 <= n <= |ds|
        ensures IsInTime(l, ds[..n])
      {
        PushablePrefix(ds, n);
        var p, q := Pushable(ds[..n]), Pushable(ds);
        assert forall i | 0 <= i < |p| :: p[i] == q[i];
        CollapsedIsInTime(ds[..n]);
        RingIsTheTail(l, ds[..n]);
      }
    } else {
      BackwardPushBreaks(l, ds);
    }
  }

  // ------------------------------------------------------- forecasts, once

  function ForecastAt(l: nat, c: seq<Delivery>, k: nat): Forecast
    requires k < |c|
  {
    Forecast(c[k].vector.ts, Trim(Vectors(c[..k + 1]), l))
  }

  predicate Survives(l: nat, c: seq<Delivery>, k: nat)
    requires k < |c|
  {
    k + 1 >= l && c[k].crash != BeforePublish
  }

  lemma {:induction false} MemberIsForecast(l: nat, c: seq<Delivery>, f: Forecast) returns (k: nat)
    requires f in Expected(l, c)
    ensures k < |c| && Survives(l, c, k) && f == ForecastAt(l, c, k)
  {
    var init := c[..|c| - 1];
    if f in Expected(l, init) {
      k := MemberIsForecast(l, init, f);
      assert init[..k + 1] == c[..k + 1];
    } else {
      k := |c| - 1;
      assert c[..|c|] == c;
    }
  }

  lemma {:induction false} ForecastIsMember(l: nat, c: seq<Delivery>, k: nat)
    requires k < |c| && Survives(l, c, k)
    ensures ForecastAt(l, c, k) in Expected(l, c)
  {
    var init := c[..|c| - 1];
    if k < |init| {
      ForecastIsMember(l, init, k);
      assert init[..k + 1] == c[..k + 1];
    } else {
      assert c[..|c|] == c;
    }
  }

  predicate OriginsDistinct(fs: seq<Forecast>) {
    forall i, j | 0 <= i < j < |fs| :: fs[i].originTs != fs[j].originTs
  }

  lemma {:induction false} ExpectedOrigins(l: nat, c: seq<Delivery>)
    requires DistinctWindows(c)
    ensures OriginsDistinct(Expected(l, c))
    ensures forall f | f in Expected(l, c) :: f.originTs in Windows(c)
  {
    if c != [] {
      var init, d := c[..|c| - 1], c[|c| - 1];
      assert c == init + [d];
      ExpectedOrigins(l, init);
      DistinctSnoc(init, d);
      WindowsSnoc(init, d);
      var fs := Expected(l, init);
      assert forall i | 0 <= i < |fs| :: fs[i] in fs;
    }
  }

  /** While only the latest window is redelivered, no window is forecast twice. */
  lemma AtMostOneForecast(l: nat, ds: seq<Delivery>)
    requires RepeatsOnlyLatest(Pushable(ds))
    ensures OriginsDistinct(Run(l, ds).published)
  {
    RingIsTheTail(l, ds);
    DistinctIff(ds);
    ExpectedOrigins(l, Collapsed(ds));
  }

  /**
   * And a window of the stream is forecast, with the l windows ending at it as context, exactly
   * when it is at least the l-th and its first handling did not die between push and publish.
   */
  lemma ForecastIff(l: nat, ds: seq<Delivery>, k: nat)
    requires RepeatsOnlyLatest(Pushable(ds)) && k < |Collapsed(ds)|
    ensures var c := Collapsed(ds);
            var published := Run(l, ds).published;
            && (ForecastAt(l, c, k) in published <==> Survives(l, c, k))
            && forall f | f in published && f.originTs == c[k].vector.ts :: f == ForecastAt(l, c, k)
  {
    var c := Collapsed(ds);
    RingIsTheTail(l, ds);
    DistinctIff(ds);
    forall f | f in Expected(l, c) && f.originTs == c[k].vector.ts
      ensures f == ForecastAt(l, c, k) && Survives(l, c, k)
    {
      var n := MemberIsForecast(l, c, f);
      SameWindow(c, n, k);
    }
    if Survives(l, c, k) {
      ForecastIsMember(l, c, k);
    }
  }

  lemma SameWindow(c: seq<Delivery>, n: nat, k: nat)
    requires DistinctWindows(c) && n < |c| && k < |c| && c[n].vector.ts == c[k].vector.ts
    ensures n == k
  {
  }

  // --------------------------------------------------------- the false cases

  lemma RunOfThree(l: nat, d1: Delivery, d2: Delivery, d3: Delivery)
    ensures Run(l, [d1, d2, d3]) == Deliver(l, Deliver(l, Deliver(l, Host([], []), d1), d2), d3)
  {
    RunSnoc(l, [], d1);
    RunSnoc(l, [d1], d2);
    RunSnoc(l, [d1, d2], d3);
    assert [] + [d1] == [d1] && [d1] + [d2] == [d1, d2] && [d1, d2] + [d3] == [d1, d2, d3];
  }

  /** With a context of one, every window that is not the last one again is forecast alone. */
  lemma ContextOfOne(buffer: seq<Vector>, fs: seq<Forecast>, d: Delivery)
    requires |buffer| <= 1 && !IsDuplicate(buffer, d.vector) && (d.crash == Never || d.crash == BeforeAck)
    ensures Deliver(1, Host(buffer, fs), d) == Host([d.vector], fs + [Forecast(d.vector.ts, [d.vector])])
  {
    assert Trim(buffer + [d.vector], 1) == [d.vector];
  }

  lemma ShortContext(buffer: seq<Vector>, d: Delivery)
    requires |buffer| < 2 && !IsDuplicate(buffer, d.vector) && d.crash != BeforePush
    ensures Deliver(3, Host(buffer, []), d) == Host(buffer + [d.vector], [])
  {
  }

  lemma LateRetryRuns(a: Vector, b: Vector)
    requires a.ts < b.ts
    ensures Run(2, [Delivery(a, BeforePush), Delivery(b, Never), Delivery(a, Never)])
         == Host([b, a], [Forecast(a.ts, [b, a])])
  {
    RunOfThree(2, Delivery(a, BeforePush), Delivery(b, Never), Delivery(a, Never));
    assert Deliver(2, Host([], []), Delivery(b, Never)) == Host([b], []);
    assert [b] + [a] == [b, a];
  }

  lemma LateRetryPushes(d1: Delivery, d2: Delivery, d3: Delivery)
    requires d1.crash == BeforePush && d2.crash == d3.crash == Never
    ensures Pushable([d1, d2, d3]) == [d2, d3]
  {
    PushableSnoc([], d1);
    PushableSnoc([d1], d2);
    PushableSnoc([d1, d2], d3);
    assert [] + [d1] == [d1] && [d1] + [d2] == [d1, d2] && [d1, d2] + [d3] == [d1, d2, d3];
  }

  lemma LateRetryInTime(d1: Delivery, d2: Delivery, d3: Delivery)
    requires d1.crash == BeforePush && d2.crash == d3.crash == Never
    ensures InTime([d1, d2, d3]) == InsertByTime(InsertByTime([], d2.vector), d3.vector)
  {
    InTimeSnoc([], d1);
    InTimeSnoc([d1], d2);
    InTimeSnoc([d1, d2], d3);
    assert [] + [d1] == [d1] && [d1] + [d2] == [d1, d2] && [d1, d2] + [d3] == [d1, d2, d3];
  }

  lemma InsertBelow(s: seq<Vector>, last: Vector, v: Vector)
    requires v.ts < last.ts
    ensures InsertByTime(s + [last], v) == InsertByTime(s, v) + [last]
  {
    assert (s + [last])[..|s|] == s;
  }

  lemma InsertIntoEmpty(v: Vector)
    ensures InsertByTime([], v) == [v]
  {
  }

  lemma InsertEarlier(a: Vector, b: Vector)
    requires a.ts < b.ts
    ensures InsertByTime(InsertByTime([], b), a) == [a, b]
  {
    InsertIntoEmpty(a);
    InsertIntoEmpty(b);
    InsertBelow([], b, a);
    assert [] + [b] == [b] && [a] + [b] == [a, b];
  }

  /**
   * A first handling that died before the push, retried after the next window: nothing is pushed
   * twice, yet a later window stands in the context of an earlier forecast.
   */
  lemma LateRetryExample(a: Vector, b: Vector)
    requires a.ts < b.ts
    ensures var ds := [Delivery(a, BeforePush), Delivery(b, Never), Delivery(a, Never)];
            && RepeatsOnlyLatest(Pushable(ds)) && !NeverBack(Pushable(ds)) && InTime(ds) == [a, b]
            && Run(2, ds) == Host([b, a], [Forecast(a.ts, [b, a])])
  {
    LateRetryRuns(a, b);
    LateRetryPushes(Delivery(a, BeforePush), Delivery(b, Never), Delivery(a, Never));
    LateRetryInTime(Delivery(a, BeforePush), Delivery(b, Never), Delivery(a, Never));
    InsertEarlier(a, b);
    var p := [Delivery(b, Never), Delivery(a, Never)];
    assert p[1 - 1].vector.ts > p[1].vector.ts;
  }

  lemma OlderReenters(a: Vector, b: Vector)
    requires a.ts != b.ts
    ensures Run(3, [Delivery(a, BeforeAck), Delivery(b, Never), Delivery(a, Never)]).buffer == [a, b, a]
  {
    var d1, d2, d3 := Delivery(a, BeforeAck), Delivery(b, Never), Delivery(a, Never);
    RunOfThree(3, d1, d2, d3);
    ShortContext([], d1);
    ShortContext([a], d2);
    assert [] + [a] == [a] && [a] + [b] == [a, b] && [a, b] + [a] == [a, b, a];
  }

  /** An older window redelivered enters the context again, and is forecast again. */
  lemma OlderRedeliveryExample(a: Vector, b: Vector)
    requires a.ts != b.ts
    ensures var ds := [Delivery(a, BeforeAck), Delivery(b, Never), Delivery(a, Never)];
            && Run(3, ds).buffer == [a, b, a]
            && Run(1, ds).published == [Forecast(a.ts, [a]), Forecast(b.ts, [b]), Forecast(a.ts, [a])]
  {
    var d1, d2, d3 := Delivery(a, BeforeAck), Delivery(b, Never), Delivery(a, Never);
    var f, g := Forecast(a.ts, [a]), Forecast(b.ts, [b]);
    OlderReenters(a, b);
    RunOfThree(1, d1, d2, d3);
    ContextOfOne([], [], d1);
    ContextOfOne([a], [f], d2);
    ContextOfOne([b], [f, g], d3);
    assert [] + [f] == [f] && [f] + [g] == [f, g] && [f, g] + [f] == [f, g, f];
  }

  /** A crash after the push loses the forecast: the redelivery is taken for a repeat. */
  lemma LostForecastExample(retries: nat)
    ensures var a := Vector(0, []);
            Run(1, [Delivery(a, BeforePublish)] + seq(retries, _ => Delivery(a, Never))) == Host([a], [])
    decreases retries
  {
    var a := Vector(0, []);
    var first := Delivery(a, BeforePublish);
    if retries == 0 {
      assert [first] + seq(0, _ => Delivery(a, Never)) == [first];
      assert [first][..0] == [];
    } else {
      LostForecastExample(retries - 1);
      var ds := [first] + seq(retries, _ => Delivery(a, Never));
      assert ds[..|ds| - 1] == [first] + seq(retries - 1, _ => Delivery(a, Never));
    }
  }

  // -------------------------------------------------------------- the worker

  /** The worker over every host's buffer; `Process` is one crash-free delivery of the machine above. */
  class InferenceWorker {
    const contextL: nat
    var seqs: map<(string, string), seq<Vector>>
    var sent: seq<((string, string), Forecast)>

    constructor (contextL: nat)
      ensures this.contextL == contextL && seqs == map[] && sent == []
    {
      this.contextL := contextL;
      seqs, sent := map[], [];
    }

    function Buffer(key: (string, string)): seq<Vector>
      reads this`seqs
    {
      if key in seqs then seqs[key] else []
    }

    /** The key's buffer becomes its last L windows with v after them; the result is that buffer. */
    method Push(key: (string, string), v: Vector) returns (buffered: seq<Vector>)
      modifies this`seqs
      ensures buffered == Trim(old(Buffer(key)) + [v], contextL)
      ensures seqs == old(seqs)[key := buffered]
    {
      var list := (if key in seqs then seqs[key] else []) + [v];
      buffered := Trim(list, contextL);
      seqs := seqs[key := buffered];
    }

    /** The result holds what this delivery published, one forecast at most. */
    method Process(key: (string, string), v: Vector) returns (out: seq<Forecast>)
      modifies this
      ensures Deliver(contextL, Host(old(Buffer(key)), []), Delivery(v, Never)) == Host(Buffer(key), out)
      ensures seqs - {key} == old(seqs) - {key}
      ensures sent == old(sent) + seq(|out|, i requires 0 <= i < |out| => (key, out[i]))
    {
      out := [];
      if IsDuplicate(Buffer(key), v) {
        return;
      }
      var buffered := Push(key, v);
      if |buffered| < contextL {
        return;
      }
      var forecast := Forecast(v.ts, buffered);
      sent := sent + [(key, forecast)];
      out := [forecast];
    }
  }
}
