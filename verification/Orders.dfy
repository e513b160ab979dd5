/** Python's `sorted` on a set of integers. */
module Orders {
  lemma Pick<T>(s: set<T>) returns (x: T)
    requires |s| > 0
    ensures x in s
  {
    x :| x in s;
  }

  lemma {:induction false} MinExists(s: set<int>)
    requires s != {}
    ensures exists m :: m in s && forall x | x in s :: m <= x
    decreases |s|
  {
    var a := Pick(s);
    var rest := s - {a};
    assert s == rest + {a};
    if rest != {} {
      MinExists(rest);
      var b :| b in rest && forall x | x in rest :: b <= x;
      var m := if a < b then a else b;
      assert m in s && forall x | x in s :: m <= x;
    } else {
      assert a in s && forall x | x in s :: a <= x;
    }
  }

  function Min(s: set<int>): (m: int)
    requires s != {}
    ensures m in s && forall x | x in s :: m <= x
  {
    MinExists(s);
    var m :| m in s && forall x | x in s :: m <= x;
    m
  }

  /** The elements of s, each once, in ascending order. */
  function Ascend(s: set<int>): (r: seq<int>)
    ensures forall x :: x in r <==> x in s
    ensures forall i, j | 0 <= i < j < |r| :: r[i] < r[j]
    decreases |s|
  {
    if s == {} then []
    else
      var m := Min(s);
      var rest := Ascend(s - {m});
      assert forall i | 0 <= i < |rest| :: rest[i] in s - {m};
      [m] + rest
  }

  lemma SubsetSize<T>(a: set<T>, b: set<T>)
    requires a <= b
    ensures |a| <= |b| && (|a| == |b| <==> a == b)
  {
    assert b == a + (b - a);
    assert a !! (b - a);
    if |a| == |b| {
      assert b - a == {};
    }
  }
}
