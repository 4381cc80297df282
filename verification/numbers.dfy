/** Exact arithmetic helpers: the engine's numbers are modelled as `real`,
    with JavaScript's `Math.round` written out explicitly. */
module Numbers {

  /** `Math.round`: nearest integer, halves rounded towards +infinity. */
  function Round(x: real): (r: int)
    ensures x - 0.5 < r as real <= x + 0.5
  {
    (x + 0.5).Floor
  }

  /** Smallest integer not below `x`. */
  function Ceil(x: real): (r: int)
    ensures x <= r as real < x + 1.0
  {
    -((-x).Floor)
  }

  predicate Whole(x: real) {
    x == x.Floor as real
  }

  function Max(a: real, b: real): real {
    if a >= b then a else b
  }

  function Min(a: real, b: real): real {
    if a <= b then a else b
  }

  /** Shifting by a whole number shifts the ceiling by the same amount. */
  lemma CeilShift(x: real, n: int)
    ensures Ceil(x - n as real) == Ceil(x) - n
  {
    var c := Ceil(x);
    assert x - n as real <= (c - n) as real < x - n as real + 1.0;
  }

  /** Taking one off shifts the floor down by one. */
  lemma FloorShift(x: real)
    ensures (x - 1.0).Floor == x.Floor - 1
  {
    var f := x.Floor;
    assert (f - 1) as real <= x - 1.0 < (f - 1) as real + 1.0;
  }

  /** Rounding a whole number is the identity. */
  lemma RoundWhole(x: real)
    requires Whole(x)
    ensures Round(x) as real == x
  {
    var n := x.Floor;
    var r := Round(x);
    assert x - 0.5 < r as real <= x + 0.5;
    assert r == n;
  }

  lemma WholeInt(n: int)
    ensures Whole(n as real)
  {
  }

  lemma WholeProduct(x: real, y: real)
    requires Whole(x) && Whole(y)
    ensures Whole(x * y)
  {
    var a, b := x.Floor, y.Floor;
    assert x * y == (a * b) as real;
  }

  lemma WholeDiff(x: real, n: int)
    requires Whole(x)
    ensures Whole(x - n as real)
  {
    var k := x.Floor;
    assert x - n as real == (k - n) as real;
  }

  /** The quotient of `t` by a larger `d` lies strictly inside (0, 1). */
  lemma FractionInside(t: real, d: real)
    requires 0.0 < t < d
    ensures 0.0 < t / d < 1.0
  {
    var f := t / d;
    assert f * d == t;
    if f >= 1.0 {
      assert false;
    }
  }

  /** The quotient of `t` by a positive `d` not below it lies in [0, 1]. */
  lemma FractionWithin(t: real, d: real)
    requires 0.0 <= t <= d && d > 0.0
    ensures 0.0 <= t / d <= 1.0
  {
    if t > 0.0 && t < d {
      FractionInside(t, d);
    }
  }

  lemma ScaleWithin(g: real, f: real)
    requires g >= 0.0 && 0.0 <= f <= 1.0
    ensures 0.0 <= g * f <= g
  {
    assert g * (1.0 - f) >= 0.0;
  }

  lemma ScaleStrictlyWithin(g: real, f: real)
    requires g > 0.0 && 0.0 < f < 1.0
    ensures 0.0 < g * f < g
  {
    assert g * (1.0 - f) > 0.0;
  }
}
