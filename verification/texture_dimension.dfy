/** Size of the square texture that holds one texel per property-table row. */
module TextureDimensions {

  /** Integer floor square root (the model of `glm::sqrt` on an integer). */
  function FloorSqrt(n: nat): (s: nat)
    ensures s * s <= n < (s + 1) * (s + 1)
    decreases n
  {
    if n == 0 then 0
    else
      var h := FloorSqrt(n / 4);
      SqrtDoubling(n, h);
      if (2 * h + 1) * (2 * h + 1) <= n then 2 * h + 1 else 2 * h
  }

  /** The root of `n / 4`, doubled, is within one of the root of `n`. */
  lemma SqrtDoubling(n: nat, h: nat)
    requires h * h <= n / 4 < (h + 1) * (h + 1)
    ensures (2 * h) * (2 * h) <= n < (2 * h + 2) * (2 * h + 2)
  {
    var q := n / 4;
    assert n >= 4 * q && n < 4 * q + 4;
    assert (2 * h) * (2 * h) == 4 * (h * h);
    assert (2 * h + 2) * (2 * h + 2) == 4 * ((h + 1) * (h + 1));
  }

  /** The side length for `count` rows: the floor square root, plus one unless
      `count` is a perfect square. It is the smallest side whose square holds
      every row. */
  function TextureDimension(count: nat): (d: nat)
    ensures d * d >= count
    ensures count > 0 ==> (d - 1) * (d - 1) < count
    ensures count == 0 <==> d == 0
  {
    var s := FloorSqrt(count);
    if s * s == count then
      SquareSteps(s);
      s
    else
      s + 1
  }

  /** Squares of naturals: zero only for zero, and each below the next. */
  lemma SquareSteps(s: nat)
    ensures s * s == 0 <==> s == 0
    ensures s > 0 ==> (s - 1) * (s - 1) < s * s
  {
    if s > 0 {
      assert (s - 1) * (s - 1) == s * s - 2 * s + 1;
      assert s * s >= s;
    }
  }

  /** No smaller square holds all rows. */
  lemma TextureDimensionMinimal(count: nat, e: nat)
    requires e * e >= count
    ensures TextureDimension(count) <= e
  {
    var d := TextureDimension(count);
    if e < d {
      assert e <= d - 1;
      assert e * e <= (d - 1) * (d - 1) by {
        MulMonotone(e, d - 1);
      }
    }
  }

  lemma MulMonotone(a: nat, b: nat)
    requires a <= b
    ensures a * a <= b * b
  {
    assert a * a <= a * b;
    assert a * b <= b * b;
  }

  /** A `d` x `d` buffer of `pixelSize`-byte texels has a texel for every row. */
  lemma BufferHoldsEveryRow(count: nat, pixelSize: nat)
    ensures TextureDimension(count) * TextureDimension(count) * pixelSize >= count * pixelSize
  {
    var d := TextureDimension(count);
    assert d * d >= count;
    assert (d * d) * pixelSize >= count * pixelSize;
  }

  /** The floor square root is the only `s` with `s * s <= n < (s + 1) * (s + 1)`. */
  lemma FloorSqrtUnique(n: nat, s: nat)
    requires s * s <= n < (s + 1) * (s + 1)
    ensures FloorSqrt(n) == s
  {
    var t := FloorSqrt(n);
    if t < s {
      MulMonotone(t + 1, s);
    } else if t > s {
      MulMonotone(s + 1, t);
    }
  }
}
