/** Sums, and the few facts about products and quotients the other modules share. */
module Numbers {
  function Sum(xs: seq<real>): real {
    if xs == [] then 0.0 else Sum(xs[..|xs| - 1]) + xs[|xs| - 1]
  }

  lemma MulGrows(a: int, b: int, d: int)
    requires a <= b && d >= 0
    ensures a * d <= b * d
  {
  }

  lemma DivGrows(x: int, y: int, d: int)
    requires x <= y && d > 0
    ensures x / d <= y / d
  {
    if y / d + 1 <= x / d {
      MulGrows(y / d + 1, x / d, d);
      assert false;
    }
  }

  lemma SmallMultiple(e: int, d: int)
    requires d > 0 && -d < e * d < d
    ensures e == 0
  {
  }

  lemma MultipleRemainder(k: int, d: int)
    requires d > 0
    ensures (k * d) % d == 0
  {
    var x := k * d;
    assert x == (x / d) * d + x % d;
    assert (k - x / d) * d == x % d;
    SmallMultiple(k - x / d, d);
  }
}
