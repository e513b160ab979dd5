/** Dropping duplicate features while the scaler is fitted (ml/nidra/data/normalize.py). */
module Duplicates {
  datatype Kind = Log1p | Asinh | ZScore | Unit | Drop

  const DUPLICATE_ABS_CORR: real := 0.999

  /** Correlations of the kept features, by position. */
  type Matrix = seq<seq<real>>

  predicate Square(corr: Matrix, n: nat) {
    |corr| == n && forall a | 0 <= a < n :: |corr[a]| == n
  }

  predicate Duplicate(corr: Matrix, a: nat, b: nat)
    requires Square(corr, |corr|) && a < |corr| && b < |corr|
  {
    corr[a][b] > DUPLICATE_ABS_CORR || -corr[a][b] > DUPLICATE_ABS_CORR
  }

  function Magnitude(x: real): real {
    if x < 0.0 then -x else x
  }

  /** Strong correlation of either sign; at the bound itself the two are still apart. */
  lemma DuplicateIff(corr: Matrix, a: nat, b: nat)
    requires Square(corr, |corr|) && a < |corr| && b < |corr|
    ensures Duplicate(corr, a, b) <==> 1000.0 * Magnitude(corr[a][b]) > 999.0
  {
  }

  predicate Symmetric(corr: Matrix)
    requires Square(corr, |corr|)
  {
    forall a: nat, b: nat | a < |corr| && b < |corr| :: corr[a][b] == corr[b][a]
  }

  /** Position a duplicates a position before limit that survives. */
  ghost predicate Shadowed(corr: Matrix, alive: set<nat>, a: nat, limit: nat)
    requires Square(corr, |corr|) && a < |corr| && limit <= |corr|
  {
    exists b: nat :: b < limit && b in alive && Duplicate(corr, a, b)
  }

  /** The outcome of the greedy pass: a position survives unless an earlier survivor duplicates it. */
  ghost predicate IsGreedy(corr: Matrix, alive: set<nat>)
    requires Square(corr, |corr|)
  {
    && (forall a | a in alive :: a < |corr|)
    && forall a: nat | a < |corr| :: a in alive <==> !Shadowed(corr, alive, a, a)
  }

  ghost predicate Independent(corr: Matrix, alive: set<nat>)
    requires Square(corr, |corr|) && forall a | a in alive :: a < |corr|
  {
    forall a, b | a in alive && b in alive && a != b :: !Duplicate(corr, a, b)
  }

  /** No survivors duplicate each other, and nothing dropped could be put back. */
  lemma GreedyIsMaximalIndependent(corr: Matrix, alive: set<nat>, extra: nat)
    requires Square(corr, |corr|) && Symmetric(corr) && IsGreedy(corr, alive)
    requires extra < |corr|
    ensures Independent(corr, alive)
    ensures extra !in alive ==> !Independent(corr, alive + {extra})
  {
    forall a, b | a in alive && b in alive && a != b
      ensures !Duplicate(corr, a, b)
    {
      assert Duplicate(corr, a, b) == Duplicate(corr, b, a);
      assert !Shadowed(corr, alive, a, a) && !Shadowed(corr, alive, b, b);
    }
    if extra !in alive {
      assert Shadowed(corr, alive, extra, extra);
      var b: nat :| b < extra && b in alive && Duplicate(corr, extra, b);
      var more := alive + {extra};
      assert extra in more && b in more;
    }
  }

  lemma {:induction false} SameUpTo(corr: Matrix, s: set<nat>, t: set<nat>, n: nat)
    requires Square(corr, |corr|) && IsGreedy(corr, s) && IsGreedy(corr, t) && n <= |corr|
    ensures forall a: nat | a < n :: a in s <==> a in t
  {
    if n > 0 {
      SameUpTo(corr, s, t, n - 1);
      var a := n - 1;
      assert Shadowed(corr, s, a, a) <==> Shadowed(corr, t, a, a);
    }
  }

  /** The correlations alone decide the survivors. */
  lemma GreedyIsUnique(corr: Matrix, s: set<nat>, t: set<nat>)
    requires Square(corr, |corr|) && IsGreedy(corr, s) && IsGreedy(corr, t)
    ensures s == t
  {
    SameUpTo(corr, s, t, |corr|);
  }

  predicate InRange(kept: seq<nat>, n: nat) {
    forall a | 0 <= a < |kept| :: kept[a] < n
  }

  /** The positions of kept whose feature is still in use. */
  ghost function Alive(kinds: seq<Kind>, kept: seq<nat>): (r: set<nat>)
    requires InRange(kept, |kinds|)
    ensures forall a: nat :: a in r <==> a < |kept| && kinds[kept[a]] != Drop
  {
    set a: nat | a < |kept| && kinds[kept[a]] != Drop
  }

  predicate Kept(kinds: seq<Kind>, kept: seq<nat>) {
    && InRange(kept, |kinds|)
    && (forall a | 0 <= a < |kept| :: kinds[kept[a]] != Drop)
    && forall a, b | 0 <= a < b < |kept| :: kept[a] != kept[b]
  }

  /** One candidate against every earlier kept feature, stopping at the first survivor it duplicates. */
  method Compare(kinds: array<Kind>, center: array<real>, scale: array<real>, kept: seq<nat>, corr: Matrix, a: nat)
    requires center != scale
    requires center.Length == kinds.Length == scale.Length
    requires Square(corr, |corr|) && |corr| == |kept| && a < |kept|
    requires InRange(kept, kinds.Length) && kinds[kept[a]] != Drop
    modifies kinds, center, scale
    ensures var hit := Shadowed(corr, old(Alive(kinds[..], kept)), a, a);
            var i := kept[a];
            && kinds[..] == (if hit then old(kinds[..])[i := Drop] else old(kinds[..]))
            && center[..] == (if hit then old(center[..])[i := 0.0] else old(center[..]))
            && scale[..] == (if hit then old(scale[..])[i := 1.0] else old(scale[..]))
  {
    ghost var alive := Alive(kinds[..], kept);
    for b := 0 to a
      invariant kinds[..] == old(kinds[..]) && center[..] == old(center[..]) && scale[..] == old(scale[..])
      invariant !Shadowed(corr, alive, a, b)
    {
      if kinds[kept[a]] == Drop || kinds[kept[b]] == Drop {
        continue;
      }
      if Duplicate(corr, a, b) {
        assert b in alive;
        kinds[kept[a]] := Drop;
        center[kept[a]], scale[kept[a]] := 0.0, 1.0;
        break;
      }
    }
  }

  /** The fate of the first a candidates is settled, the others are untouched. */
  ghost predicate Settled(corr: Matrix, start: seq<Kind>, kinds: seq<Kind>, kept: seq<nat>, a: nat)
    requires Square(corr, |corr|) && |corr| == |kept| && |kinds| == |start| && InRange(kept, |kinds|) && a <= |kept|
  {
    var alive := Alive(kinds, kept);
    && (forall c: nat | c < a :: c in alive <==> !Shadowed(corr, alive, c, c))
    && (forall c: nat | a <= c < |kept| :: kinds[kept[c]] == start[kept[c]])
  }

  lemma SettledStep(corr: Matrix, start: seq<Kind>, kinds: seq<Kind>, kept: seq<nat>, a: nat)
    requires Square(corr, |corr|) && |corr| == |kept| && |kinds| == |start| && Kept(start, kept) && a < |kept|
    requires Settled(corr, start, kinds, kept, a)
    ensures var hit := Shadowed(corr, Alive(kinds, kept), a, a);
            Settled(corr, start, if hit then kinds[kept[a] := Drop] else kinds, kept, a + 1)
  {
    var before := Alive(kinds, kept);
    var kinds' := if Shadowed(corr, before, a, a) then kinds[kept[a] := Drop] else kinds;
    var after := Alive(kinds', kept);
    assert kinds[kept[a]] != Drop;
    assert forall c: nat | c < |kept| && c != a :: kinds'[kept[c]] == kinds[kept[c]];
    forall c: nat | c <= a
      ensures Shadowed(corr, after, c, c) <==> Shadowed(corr, before, c, c)
    {
      assert forall b: nat | b < c :: b in after <==> b in before;
    }
  }

  /** A feature is as it was, or it is a kept one now dropped with its scaling reset. */
  predicate OnlyDropped(was: seq<Kind>, now: seq<Kind>, kept: seq<nat>, c0: seq<real>, c: seq<real>,
                        s0: seq<real>, s: seq<real>)
    requires |was| == |now| == |c0| == |c| == |s0| == |s|
  {
    forall i | 0 <= i < |now| ::
      || (now[i] == was[i] && c[i] == c0[i] && s[i] == s0[i])
      || (i in kept && now[i] == Drop && c[i] == 0.0 && s[i] == 1.0)
  }

  lemma OnlyDroppedStep(was: seq<Kind>, now: seq<Kind>, kept: seq<nat>, c0: seq<real>, c: seq<real>,
                        s0: seq<real>, s: seq<real>, i: nat)
    requires |was| == |now| == |c0| == |c| == |s0| == |s| && i < |now| && i in kept
    requires OnlyDropped(was, now, kept, c0, c, s0, s)
    ensures OnlyDropped(was, now[i := Drop], kept, c0, c[i := 0.0], s0, s[i := 1.0])
  {
  }

  /** Every feature but the later duplicates is left exactly as it was. */
  method DropDuplicates(kinds: array<Kind>, center: array<real>, scale: array<real>, kept: seq<nat>, corr: Matrix)
    requires center != scale
    requires center.Length == kinds.Length == scale.Length
    requires Square(corr, |corr|) && |corr| == |kept| && Kept(kinds[..], kept)
    modifies kinds, center, scale
    ensures IsGreedy(corr, Alive(kinds[..], kept))
    ensures OnlyDropped(old(kinds[..]), kinds[..], kept, old(center[..]), center[..], old(scale[..]), scale[..])
  {
    ghost var k0, c0, s0 := kinds[..], center[..], scale[..];
    ghost var k, c, s := k0, c0, s0;
    for a := 0 to |kept|
      invariant kinds[..] == k && center[..] == c && scale[..] == s
      invariant Settled(corr, k0, k, kept, a)
      invariant OnlyDropped(k0, k, kept, c0, c, s0, s)
    {
      SettledStep(corr, k0, k, kept, a);
      OnlyDroppedStep(k0, k, kept, c0, c, s0, s, kept[a]);
      Compare(kinds, center, scale, kept, corr, a);
      k, c, s := kinds[..], center[..], scale[..];
    }
  }
}
