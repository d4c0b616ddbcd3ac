/** Powers of two, and sums over lists of numbers. */
module Numbers {

  function Pow2(k: nat): (p: nat)
    ensures p > 0
  {
    if k == 0 then 1 else 2 * Pow2(k - 1)
  }

  lemma MulMono(a: int, b: int, d: nat)
    requires a <= b
    ensures a * d <= b * d
  {
    var c: nat := b - a;
    assert b * d == a * d + c * d;
  }

  lemma Quotient(x: nat, d: nat, q: nat, r: nat)
    requires d > 0 && x == q * d + r && r < d
    ensures x / d == q
  {
    var p, m := x / d, x % d;
    assert x == p * d + m;
    if p < q {
      MulMono(p + 1, q, d);
    } else if p > q {
      MulMono(q + 1, p, d);
    }
  }

  lemma Halve(x: nat, d: nat)
    requires d > 0
    ensures x / (2 * d) == x / d / 2
  {
    var p, m := x / d, x % d;
    Parts(d, p / 2, p % 2, m);
    Quotient(x, 2 * d, p / 2, (p % 2) * d + m);
  }

  lemma Parts(d: nat, q: nat, b: nat, m: nat)
    requires b < 2 && m < d
    ensures (2 * q + b) * d + m == q * (2 * d) + (b * d + m) && 0 <= b * d + m < 2 * d
  {
    if b == 0 {
      assert b * d == 0;
    } else {
      assert b * d == d;
    }
  }

  lemma HalveBoth(x: nat, d: nat, y: nat, e: nat)
    requires d > 0 && e > 0 && x / d == y / e
    ensures x / (2 * d) == y / (2 * e)
  {
    Halve(x, d);
    Halve(y, e);
  }

  /** Numbers that agree above the lowest `j` bits agree above more of them. */
  lemma {:induction false} DivideTwice(x: nat, y: nat, j: nat, k: nat)
    requires x / Pow2(j) == y / Pow2(j)
    ensures x / Pow2(j + k) == y / Pow2(j + k)
  {
    if k > 0 {
      DivideTwice(x, y, j, k - 1);
      HalveBoth(x, Pow2(j + k - 1), y, Pow2(j + k - 1));
    }
  }

  lemma {:induction false} DivideInTwo(x: nat, j: nat, k: nat)
    ensures x / Pow2(j + k) == x / Pow2(j) / Pow2(k)
  {
    if k > 0 {
      DivideInTwo(x, j, k - 1);
      assert Pow2(j + k) == 2 * Pow2(j + k - 1) && Pow2(k) == 2 * Pow2(k - 1);
      hide Pow2;
      HalveBoth(x, Pow2(j + k - 1), x / Pow2(j), Pow2(k - 1));
    } else {
      assert Pow2(k) == 1;
    }
  }

  function Sum(xs: seq<int>): int {
    if xs == [] then 0 else xs[0] + Sum(xs[1..])
  }

  lemma {:induction false} SumSnoc(xs: seq<int>, x: int)
    ensures Sum(xs + [x]) == Sum(xs) + x
  {
    if xs != [] {
      SumSnoc(xs[1..], x);
      assert (xs + [x])[1..] == xs[1..] + [x];
    } else {
      assert xs + [x] == [x];
    }
  }

  lemma {:induction false} SumUpdate(xs: seq<int>, k: nat, x: int)
    requires k < |xs|
    ensures Sum(xs[k := x]) == Sum(xs) - xs[k] + x
  {
    if k > 0 {
      SumUpdate(xs[1..], k - 1, x);
      assert xs[k := x][1..] == xs[1..][k - 1 := x];
    } else {
      assert xs[0 := x][1..] == xs[1..];
    }
  }
}
