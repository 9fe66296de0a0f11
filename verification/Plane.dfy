/** Lengths and unit vectors in the plane, over the reals. */
module Plane {
  function Sq(k: real): real {
    k * k
  }

  predicate UnitVector(x: real, y: real) {
    Sq(x) + Sq(y) == 1.0
  }

  predicate IsLength(len: real, x: real, y: real) {
    len >= 0.0 && Sq(len) == Sq(x) + Sq(y)
  }

  lemma SqProduct(x: real, k: real, xk: real)
    requires xk == x * k
    ensures Sq(xk) == Sq(x) * Sq(k)
  {
    assert x * k * (x * k) == x * x * (k * k);
  }

  lemma SqPositive(len: real)
    requires len > 0.0
    ensures Sq(len) > 0.0
  {
    ProductPositive(len, len, Sq(len));
  }

  lemma ProductPositive(a: real, b: real, product: real)
    requires a > 0.0 && b > 0.0 && product == a * b
    ensures product > 0.0
  {
  }

  lemma Quotient(x: real, len: real, a: real)
    requires len != 0.0 && a == x / len
    ensures a * len == x
  {
  }

  lemma Cancel(p: real, q: real, l: real, pl: real, ql: real)
    requires l > 0.0 && pl == p * l && ql == q * l && pl + ql == l
    ensures p + q == 1.0
  {
    assert (p + q - 1.0) * l == 0.0;
  }

  lemma Normalised(x: real, y: real, len: real, a: real, b: real)
    requires len > 0.0 && IsLength(len, x, y) && a == x / len && b == y / len
    ensures UnitVector(a, b)
  {
    hide Sq;
    Quotient(x, len, a);
    Quotient(y, len, b);
    SqProduct(a, len, x);
    SqProduct(b, len, y);
    SqPositive(len);
    Cancel(Sq(a), Sq(b), Sq(len), Sq(x), Sq(y));
  }

  lemma ScaledUnit(x: real, y: real, k: real, xk: real, yk: real)
    requires UnitVector(x, y) && xk == x * k && yk == y * k
    ensures Sq(xk) + Sq(yk) == Sq(k)
  {
    hide Sq;
    SqProduct(x, k, xk);
    SqProduct(y, k, yk);
    Factor(Sq(x), Sq(y), Sq(k));
  }

  lemma Factor(p: real, q: real, k: real)
    requires p + q == 1.0
    ensures p * k + q * k == k
  {
    assert p * k + q * k == (p + q) * k;
  }

  lemma Stretched(x: real, len: real, speed: real, a: real, v: real)
    requires len > 0.0 && speed > 0.0 && a == x / len && v == a * speed
    ensures v * len == x * speed
    ensures (x > 0.0 ==> v > 0.0) && (x < 0.0 ==> v < 0.0)
  {
    Quotient(x, len, a);
    assert a * speed * len == a * len * speed;
    if x > 0.0 {
      ProductPositive(a, speed, v);
    } else if x < 0.0 {
      ProductPositive(-a, speed, -v);
    }
  }

  /** A multiple of a unit vector points along it and is as long as the factor. */
  lemma Along(x: real, y: real, k: real, vx: real, vy: real)
    requires UnitVector(x, y) && vx == x * k && vy == y * k
    ensures vx * y == vy * x && vx * x + vy * y == k
  {
    assert vx * y == x * y * k == vy * x;
    assert vx * x + vy * y == k * (x * x + y * y);
  }
}
