/** Coordinates: the headset pose sent to the app, the transform attached to the trackers that come back,
    the orientation read from a matrix, and the stick direction that follows the waist. Over the reals;
    an angle is the cosine and sine of its half. */
module Pose {
  import opened Wire
  import opened Plane

  datatype Vec = Vec(x: real, y: real, z: real)

  datatype Quat = Quat(w: real, x: real, y: real, z: real) {
    predicate Unit() {
      Sq(w) + Sq(x) + Sq(y) + Sq(z) == 1.0
    }
  }

  /** The product of two numbers, named so that a proof can treat it as a symbol. */
  function Times(x: real, y: real): real {
    x * y
  }

  function Mul(a: Quat, b: Quat): Quat {
    Quat(Times(a.w, b.w) - Times(a.x, b.x) - Times(a.y, b.y) - Times(a.z, b.z),
         Times(a.w, b.x) + Times(a.x, b.w) + Times(a.y, b.z) - Times(a.z, b.y),
         Times(a.w, b.y) - Times(a.x, b.z) + Times(a.y, b.w) + Times(a.z, b.x),
         Times(a.w, b.z) + Times(a.x, b.y) - Times(a.y, b.x) + Times(a.z, b.w))
  }

  function Conj(a: Quat): Quat {
    Quat(a.w, -a.x, -a.y, -a.z)
  }

  function Negated(a: Quat): Quat {
    Quat(-a.w, -a.x, -a.y, -a.z)
  }

  function Pure(v: Vec): Quat {
    Quat(0.0, v.x, v.y, v.z)
  }

  function Imaginary(a: Quat): Vec {
    Vec(a.x, a.y, a.z)
  }

  function Conjugated(q: Quat, p: Quat): Quat {
    Mul(Mul(q, p), Conj(q))
  }

  /** The vector turned by the quaternion. */
  function Rotate(q: Quat, v: Vec): Vec {
    Imaginary(Conjugated(q, Pure(v)))
  }

  /** The play space: a translation and the yaw angle. */
  datatype Universe = Universe(x: real, y: real, z: real, halfCos: real, halfSin: real) {
    predicate Valid() {
      Sq(halfCos) + Sq(halfSin) == 1.0
    }

    function Cos(): real {
      Sq(halfCos) - Sq(halfSin)
    }

    function Sin(): real {
      2.0 * halfSin * halfCos
    }
  }

  // Raw tracking space to standing universe: translate, then rotate by -yaw about Y.

  function Turned(u: Universe, v: Vec): Vec {
    var c, s := u.Cos(), -u.Sin();
    Vec(v.x * c + v.z * s, v.y, -v.x * s + v.z * c)
  }

  function SentPosition(u: Universe, p: Vec): Vec {
    Turned(u, Vec(p.x + u.x, p.y + u.y, p.z + u.z))
  }

  function SentOrientation(u: Universe, q: Quat): Quat {
    var rw, ry := u.halfCos, -u.halfSin;
    Quat(Times(rw, q.w) - Times(ry, q.y), Times(rw, q.x) + Times(ry, q.z),
         Times(rw, q.y) + Times(ry, q.w), Times(rw, q.z) - Times(ry, q.x))
  }

  // What is attached to a tracker pose: a translation and a rotation from the driver's space to the world's.

  function WorldRotation(u: Universe): Quat {
    Quat(u.halfCos, 0.0, u.halfSin, 0.0)
  }

  function WorldPosition(u: Universe, p: Vec): Vec {
    var r := Rotate(WorldRotation(u), p);
    Vec(r.x + -u.x, r.y + -u.y, r.z + -u.z)
  }

  function WorldOrientation(u: Universe, q: Quat): Quat {
    Mul(WorldRotation(u), q)
  }

  // The laws of the product, from those of Times.

  lemma TimesLaws()
    ensures forall x, y {:trigger Times(x, y)} :: Times(x, y) == Times(y, x)
    ensures forall x, y {:trigger Times(-x, y)} :: Times(-x, y) == -Times(x, y)
    ensures forall x, y {:trigger Times(x, -y)} :: Times(x, -y) == -Times(x, y)
    ensures forall x {:trigger Times(0.0, x)} :: Times(0.0, x) == 0.0
    ensures forall x {:trigger Times(1.0, x)} :: Times(1.0, x) == x
  {
  }

  lemma TimesAssociates(k: real, a: real, e: Quat)
    ensures Times(Times(k, a), e.w) == Times(k, Times(a, e.w))
    ensures Times(Times(k, a), e.x) == Times(k, Times(a, e.x))
    ensures Times(Times(k, a), e.y) == Times(k, Times(a, e.y))
    ensures Times(Times(k, a), e.z) == Times(k, Times(a, e.z))
  {
    assert k * a * e.w == k * (a * e.w);
    assert k * a * e.x == k * (a * e.x);
    assert k * a * e.y == k * (a * e.y);
    assert k * a * e.z == k * (a * e.z);
  }

  lemma TimesOverSum(k: real, sum: real, p: real, q: real, r: real, s: real)
    requires sum == p + q + r + s
    ensures Times(k, sum) == Times(k, p) + Times(k, q) + Times(k, r) + Times(k, s)
  {
    assert k * (p + q + r + s) == k * p + k * q + k * r + k * s;
  }

  lemma TimesOverDifference(k: real, sum: real, p: real, q: real, r: real, s: real)
    requires sum == p + q + r - s
    ensures Times(k, sum) == Times(k, p) + Times(k, q) + Times(k, r) - Times(k, s)
  {
    assert k * (p + q + r - s) == k * p + k * q + k * r - k * s;
  }

  lemma TimesOverDifferences(k: real, sum: real, p: real, q: real, r: real, s: real)
    requires sum == p - q - r - s
    ensures Times(k, sum) == Times(k, p) - Times(k, q) - Times(k, r) - Times(k, s)
  {
    assert k * (p - q - r - s) == k * p - k * q - k * r - k * s;
  }

  // The product of quaternions is associative: it is for each of the four units, and it is linear on the left.

  function Scale(k: real, a: Quat): Quat {
    Quat(Times(k, a.w), Times(k, a.x), Times(k, a.y), Times(k, a.z))
  }

  function Sum(a: Quat, b: Quat, c: Quat, d: Quat): Quat {
    Quat(a.w + b.w + c.w + d.w, a.x + b.x + c.x + d.x, a.y + b.y + c.y + d.y, a.z + b.z + c.z + d.z)
  }

  const ONE := Quat(1.0, 0.0, 0.0, 0.0)
  const I := Quat(0.0, 1.0, 0.0, 0.0)
  const J := Quat(0.0, 0.0, 1.0, 0.0)
  const K := Quat(0.0, 0.0, 0.0, 1.0)

  lemma InUnits(a: Quat)
    ensures a == Sum(Scale(a.w, ONE), Scale(a.x, I), Scale(a.y, J), Scale(a.z, K))
  {
    hide Times;
    TimesLaws();
  }

  lemma SumTimes(sum: real, p: real, q: real, r: real, s: real, e: Quat)
    requires sum == p + q + r + s
    ensures Times(sum, e.w) == Times(p, e.w) + Times(q, e.w) + Times(r, e.w) + Times(s, e.w)
    ensures Times(sum, e.x) == Times(p, e.x) + Times(q, e.x) + Times(r, e.x) + Times(s, e.x)
    ensures Times(sum, e.y) == Times(p, e.y) + Times(q, e.y) + Times(r, e.y) + Times(s, e.y)
    ensures Times(sum, e.z) == Times(p, e.z) + Times(q, e.z) + Times(r, e.z) + Times(s, e.z)
  {
    hide Times;
    TimesLaws();
    TimesOverSum(e.w, sum, p, q, r, s);
    TimesOverSum(e.x, sum, p, q, r, s);
    TimesOverSum(e.y, sum, p, q, r, s);
    TimesOverSum(e.z, sum, p, q, r, s);
  }

  lemma MulSum(a: Quat, b: Quat, c: Quat, d: Quat, e: Quat)
    ensures Mul(Sum(a, b, c, d), e) == Sum(Mul(a, e), Mul(b, e), Mul(c, e), Mul(d, e))
  {
    hide Times;
    var t := Sum(a, b, c, d);
    SumTimes(t.w, a.w, b.w, c.w, d.w, e);
    SumTimes(t.x, a.x, b.x, c.x, d.x, e);
    SumTimes(t.y, a.y, b.y, c.y, d.y, e);
    SumTimes(t.z, a.z, b.z, c.z, d.z, e);
  }

  lemma MulScale(k: real, a: Quat, e: Quat)
    ensures Mul(Scale(k, a), e) == Scale(k, Mul(a, e))
  {
    hide Times;
    TimesAssociates(k, a.w, e);
    TimesAssociates(k, a.x, e);
    TimesAssociates(k, a.y, e);
    TimesAssociates(k, a.z, e);
    var m := Mul(a, e);
    TimesOverDifferences(k, m.w, Times(a.w, e.w), Times(a.x, e.x), Times(a.y, e.y), Times(a.z, e.z));
    TimesOverDifference(k, m.x, Times(a.w, e.x), Times(a.x, e.w), Times(a.y, e.z), Times(a.z, e.y));
    TimesOverDifference(k, m.y, Times(a.w, e.y), Times(a.y, e.w), Times(a.z, e.x), Times(a.x, e.z));
    TimesOverDifference(k, m.z, Times(a.w, e.z), Times(a.x, e.y), Times(a.z, e.w), Times(a.y, e.x));
  }

  lemma TimesUnits(b: Quat)
    ensures Mul(ONE, b) == b
    ensures Mul(I, b) == Quat(-b.x, b.w, -b.z, b.y)
    ensures Mul(J, b) == Quat(-b.y, b.z, b.w, -b.x)
    ensures Mul(K, b) == Quat(-b.z, -b.y, b.x, b.w)
  {
    hide Times;
    TimesLaws();
  }

  lemma AssociativeOnUnits(b: Quat, c: Quat)
    ensures Mul(Mul(ONE, b), c) == Mul(ONE, Mul(b, c))
    ensures Mul(Mul(I, b), c) == Mul(I, Mul(b, c))
    ensures Mul(Mul(J, b), c) == Mul(J, Mul(b, c))
    ensures Mul(Mul(K, b), c) == Mul(K, Mul(b, c))
  {
    hide Times;
    TimesUnits(b);
    TimesUnits(Mul(b, c));
    TimesLaws();
  }

  lemma AssociativeOnScaled(k: real, e: Quat, b: Quat, c: Quat)
    requires Mul(Mul(e, b), c) == Mul(e, Mul(b, c))
    ensures Mul(Mul(Scale(k, e), b), c) == Mul(Scale(k, e), Mul(b, c))
  {
    hide Mul, Scale;
    MulScale(k, e, b);
    MulScale(k, Mul(e, b), c);
    MulScale(k, e, Mul(b, c));
  }

  lemma MulAssociative(a: Quat, b: Quat, c: Quat)
    ensures Mul(Mul(a, b), c) == Mul(a, Mul(b, c))
  {
    hide Mul, Scale, Sum;
    InUnits(a);
    var p, q, r, s := Scale(a.w, ONE), Scale(a.x, I), Scale(a.y, J), Scale(a.z, K);
    MulSum(p, q, r, s, b);
    MulSum(Mul(p, b), Mul(q, b), Mul(r, b), Mul(s, b), c);
    MulSum(p, q, r, s, Mul(b, c));
    AssociativeOnUnits(b, c);
    AssociativeOnScaled(a.w, ONE, b, c);
    AssociativeOnScaled(a.x, I, b, c);
    AssociativeOnScaled(a.y, J, b, c);
    AssociativeOnScaled(a.z, K, b, c);
  }

  lemma ConjOfMul(a: Quat, b: Quat)
    ensures Conj(Mul(a, b)) == Mul(Conj(b), Conj(a))
  {
    hide Times;
    TimesLaws();
  }

  lemma ConjugatedMul(a: Quat, b: Quat, p: Quat)
    ensures Conjugated(Mul(a, b), p) == Conjugated(a, Conjugated(b, p))
  {
    hide Mul, Conj;
    ConjOfMul(a, b);
    MulAssociative(a, b, p);
    MulAssociative(Mul(a, Mul(b, p)), Conj(b), Conj(a));
    MulAssociative(a, Mul(b, p), Conj(b));
  }

  /** A turn about Y, written out. */
  lemma AboutY(c: real, s: real, p: Quat)
    requires Sq(c) + Sq(s) == 1.0
    ensures Conjugated(Quat(c, 0.0, s, 0.0), p) ==
            Quat(p.w, (Sq(c) - Sq(s)) * p.x + 2.0 * s * c * p.z, p.y, -(2.0 * s * c) * p.x + (Sq(c) - Sq(s)) * p.z)
  {
    hide Times, Sq;
    TimesLaws();
    var r := Quat(c, 0.0, s, 0.0);
    var m := Mul(r, p);
    assert m == Quat(Times(c, p.w) - Times(s, p.y), Times(c, p.x) + Times(s, p.z),
                     Times(c, p.y) + Times(s, p.w), Times(c, p.z) - Times(s, p.x));
    assert Mul(m, Conj(r)) == Quat(Times(m.w, c) + Times(m.y, s), Times(m.x, c) + Times(m.z, s),
                                   Times(m.y, c) - Times(m.w, s), Times(m.z, c) - Times(m.x, s));
    TurnTwice(c, s, p.x, p.z, m.x, m.z);
    TurnCancels(c, s, p.w, p.y, m.w, m.y);
  }

  lemma TurnTwice(c: real, s: real, x: real, z: real, mx: real, mz: real)
    requires mx == Times(c, x) + Times(s, z) && mz == Times(c, z) - Times(s, x)
    ensures Times(mx, c) + Times(mz, s) == (Sq(c) - Sq(s)) * x + 2.0 * s * c * z
    ensures Times(mz, c) - Times(mx, s) == -(2.0 * s * c) * x + (Sq(c) - Sq(s)) * z
  {
    assert (c * x + s * z) * c + (c * z - s * x) * s == (c * c - s * s) * x + 2.0 * s * c * z;
    assert (c * z - s * x) * c - (c * x + s * z) * s == -(2.0 * s * c) * x + (c * c - s * s) * z;
  }

  lemma TurnCancels(c: real, s: real, w: real, y: real, mw: real, my: real)
    requires Sq(c) + Sq(s) == 1.0
    requires mw == Times(c, w) - Times(s, y) && my == Times(c, y) + Times(s, w)
    ensures Times(mw, c) + Times(my, s) == w
    ensures Times(my, c) - Times(mw, s) == y
  {
    assert (c * w - s * y) * c + (c * y + s * w) * s == (c * c + s * s) * w;
    assert (c * y + s * w) * c - (c * w - s * y) * s == (c * c + s * s) * y;
  }

  lemma DoubleAngle(u: Universe)
    requires u.Valid()
    ensures u.Cos() * u.Cos() + u.Sin() * u.Sin() == 1.0
  {
    DoubleAngleOf(Sq(u.halfCos), Sq(u.halfSin), u.halfCos, u.halfSin);
  }

  lemma DoubleAngleOf(hh: real, kk: real, h: real, k: real)
    requires hh + kk == 1.0 && hh == h * h && kk == k * k
    ensures (hh - kk) * (hh - kk) + 2.0 * k * h * (2.0 * k * h) == 1.0
  {
    assert 2.0 * k * h * (2.0 * k * h) == 4.0 * (k * k) * (h * h);
    assert (hh - kk) * (hh - kk) + 4.0 * kk * hh == (hh + kk) * (hh + kk);
  }

  /** Turning by an angle and back. */
  lemma TurnBack(c: real, s: real, a: real, b: real)
    requires c * c + s * s == 1.0
    ensures c * (a * c - b * s) + s * (a * s + b * c) == a
    ensures -s * (a * c - b * s) + c * (a * s + b * c) == b
  {
    assert c * (a * c - b * s) + s * (a * s + b * c) == a * (c * c + s * s);
    assert -s * (a * c - b * s) + c * (a * s + b * c) == b * (c * c + s * s);
  }

  /** A tracker sitting at the headset comes back to the headset: the transform attached to tracker poses
      inverts the one applied to the headset pose, for every play space, position and orientation. */
  lemma PoseRoundTrip(u: Universe, p: Vec, q: Quat)
    requires u.Valid()
    ensures WorldPosition(u, SentPosition(u, p)) == p
    ensures WorldOrientation(u, SentOrientation(u, q)) == q
  {
    PositionBack(u, p);
    OrientationBack(u, q);
  }

  lemma PositionBack(u: Universe, p: Vec)
    requires u.Valid()
    ensures WorldPosition(u, SentPosition(u, p)) == p
  {
    hide Conjugated;
    var v := Vec(p.x + u.x, p.y + u.y, p.z + u.z);
    var c, s := u.Cos(), u.Sin();
    DoubleAngle(u);
    var t := Turned(u, v);
    assert t == Vec(v.x * c - v.z * s, v.y, v.x * s + v.z * c);
    AboutY(u.halfCos, u.halfSin, Pure(t));
    TurnBack(c, s, v.x, v.z);
  }

  lemma OrientationBack(u: Universe, q: Quat)
    requires u.Valid()
    ensures WorldOrientation(u, SentOrientation(u, q)) == q
  {
    hide Mul;
    SentIsTurn(u, q);
    MulAssociative(WorldRotation(u), Conj(WorldRotation(u)), q);
    InverseOfUnit(u.halfCos, u.halfSin, q);
  }

  lemma SentIsTurn(u: Universe, q: Quat)
    ensures SentOrientation(u, q) == Mul(Conj(WorldRotation(u)), q)
  {
    hide Times;
    TimesLaws();
  }

  lemma InverseOfUnit(c: real, s: real, q: Quat)
    requires Sq(c) + Sq(s) == 1.0
    ensures var r := Quat(c, 0.0, s, 0.0); Mul(Mul(r, Conj(r)), q) == q
  {
    hide Times;
    TimesLaws();
    assert Times(c, c) == Sq(c) && Times(s, s) == Sq(s) by { SqIsTimes(c); SqIsTimes(s); }
    var r := Quat(c, 0.0, s, 0.0);
    assert Mul(r, Conj(r)) == ONE;
  }

  lemma MinusOne()
    ensures forall x :: Times(x, -1.0) == -x
  {
  }

  lemma SqIsTimes(k: real)
    ensures Times(k, k) == Sq(k)
  {
  }

  /** Position and orientation undergo the same rotation: what the sent orientation does to a vector
      is what the real one does to it, turned like the position. */
  lemma SameRotation(u: Universe, q: Quat, v: Vec)
    requires u.Valid()
    ensures Rotate(SentOrientation(u, q), v) == Turned(u, Rotate(q, v))
  {
    hide Conjugated, Mul;
    SentIsTurn(u, q);
    ConjugatedMul(Conj(WorldRotation(u)), q, Pure(v));
    assert Sq(-u.halfSin) == Sq(u.halfSin);
    AboutY(u.halfCos, -u.halfSin, Conjugated(q, Pure(v)));
  }

  /** Which way is which: the origin of the standing frame is at -t in raw tracking space, and its forward axis there
      is -Z turned by yaw about Y. */
  lemma FrameOrigin(u: Universe)
    requires u.Valid()
    ensures SentPosition(u, Vec(-u.x, -u.y, -u.z)) == Vec(0.0, 0.0, 0.0)
    ensures WorldPosition(u, Vec(0.0, 0.0, 0.0)) == Vec(-u.x, -u.y, -u.z)
    ensures var sin, cos := 2.0 * u.halfSin * u.halfCos, Sq(u.halfCos) - Sq(u.halfSin);
            && Turned(u, Vec(-sin, 0.0, -cos)) == Vec(0.0, 0.0, -1.0)
            && Rotate(WorldRotation(u), Vec(0.0, 0.0, -1.0)) == Vec(-sin, 0.0, -cos)
  {
    hide Conjugated;
    DoubleAngle(u);
    AboutY(u.halfCos, u.halfSin, Pure(Vec(0.0, 0.0, 0.0)));
    AboutY(u.halfCos, u.halfSin, Pure(Vec(0.0, 0.0, -1.0)));
  }

  // The orientation read from the headset's matrix.

  /** The rotation part of a 3x4 pose matrix, row by row. */
  datatype Matrix = Matrix(m00: real, m01: real, m02: real, m10: real, m11: real, m12: real, m20: real, m21: real,
                           m22: real)

  function MatrixOf(q: Quat): Matrix {
    Matrix(1.0 - 2.0 * (Sq(q.y) + Sq(q.z)), 2.0 * (q.x * q.y - q.w * q.z), 2.0 * (q.x * q.z + q.w * q.y),
           2.0 * (q.x * q.y + q.w * q.z), 1.0 - 2.0 * (Sq(q.x) + Sq(q.z)), 2.0 * (q.y * q.z - q.w * q.x),
           2.0 * (q.x * q.z - q.w * q.y), 2.0 * (q.y * q.z + q.w * q.x), 1.0 - 2.0 * (Sq(q.x) + Sq(q.y)))
  }

  /** It is the rotation: its columns are the axes turned by the quaternion. */
  lemma MatrixIsRotation(q: Quat)
    requires q.Unit()
    ensures var m := MatrixOf(q);
            && Rotate(q, Vec(1.0, 0.0, 0.0)) == Vec(m.m00, m.m10, m.m20)
            && Rotate(q, Vec(0.0, 1.0, 0.0)) == Vec(m.m01, m.m11, m.m21)
            && Rotate(q, Vec(0.0, 0.0, 1.0)) == Vec(m.m02, m.m12, m.m22)
  {
    hide Sq, Rotate, Times, MatrixOf;
    Entries(q);
    AxesTurned(q);
  }

  lemma Entries(q: Quat)
    ensures var m := MatrixOf(q);
            && m.m00 == 1.0 - 2.0 * (Sq(q.y) + Sq(q.z))
            && m.m11 == 1.0 - 2.0 * (Sq(q.x) + Sq(q.z))
            && m.m22 == 1.0 - 2.0 * (Sq(q.x) + Sq(q.y))
            && m.m10 == 2.0 * (Times(q.x, q.y) + Times(q.w, q.z)) && m.m01 == 2.0 * (Times(q.x, q.y) - Times(q.w, q.z))
            && m.m02 == 2.0 * (Times(q.x, q.z) + Times(q.w, q.y)) && m.m20 == 2.0 * (Times(q.x, q.z) - Times(q.w, q.y))
            && m.m21 == 2.0 * (Times(q.y, q.z) + Times(q.w, q.x)) && m.m12 == 2.0 * (Times(q.y, q.z) - Times(q.w, q.x))
  {
    hide Sq;
  }

  lemma AxesTurned(q: Quat)
    ensures Rotate(q, Vec(1.0, 0.0, 0.0)) ==
            Vec(Sq(q.w) + Sq(q.x) - Sq(q.y) - Sq(q.z),
                2.0 * (Times(q.x, q.y) + Times(q.w, q.z)), 2.0 * (Times(q.x, q.z) - Times(q.w, q.y)))
    ensures Rotate(q, Vec(0.0, 1.0, 0.0)) ==
            Vec(2.0 * (Times(q.x, q.y) - Times(q.w, q.z)),
                Sq(q.w) - Sq(q.x) + Sq(q.y) - Sq(q.z), 2.0 * (Times(q.y, q.z) + Times(q.w, q.x)))
    ensures Rotate(q, Vec(0.0, 0.0, 1.0)) ==
            Vec(2.0 * (Times(q.x, q.z) + Times(q.w, q.y)), 2.0 * (Times(q.y, q.z) - Times(q.w, q.x)),
                Sq(q.w) - Sq(q.x) - Sq(q.y) + Sq(q.z))
  {
    hide Times, Sq;
    TimesLaws();
    assert Mul(q, I) == Quat(-q.x, q.w, q.z, -q.y);
    assert Mul(q, J) == Quat(-q.y, -q.z, q.w, q.x);
    assert Mul(q, K) == Quat(-q.z, q.y, -q.x, q.w);
    SqIsTimes(q.w);
    SqIsTimes(q.x);
    SqIsTimes(q.y);
    SqIsTimes(q.z);
  }

  function NotNegative(a: real): real {
    if a < 0.0 then 0.0 else a
  }

  function CopySign(magnitude: real, sign: real): real {
    if sign < 0.0 then -magnitude else magnitude
  }

  function Abs(a: real): real {
    if a < 0.0 then -a else a
  }

  /** `root` is the square root. */
  ghost predicate IsRoot(root: real -> real) {
    forall a :: a >= 0.0 ==> root(a) >= 0.0 && root(a) * root(a) == a
  }

  function QuatOf(m: Matrix, root: real -> real): Quat {
    Quat(root(NotNegative(1.0 + m.m00 + m.m11 + m.m22)) / 2.0,
         CopySign(root(NotNegative(1.0 + m.m00 - m.m11 - m.m22)) / 2.0, m.m21 - m.m12),
         CopySign(root(NotNegative(1.0 - m.m00 + m.m11 - m.m22)) / 2.0, m.m02 - m.m20),
         CopySign(root(NotNegative(1.0 - m.m00 - m.m11 + m.m22)) / 2.0, m.m10 - m.m01))
  }

  /** No two of the three have opposite signs. */
  predicate SameSign(x: real, y: real, z: real) {
    (x >= 0.0 && y >= 0.0 && z >= 0.0) || (x <= 0.0 && y <= 0.0 && z <= 0.0)
  }

  lemma HalfRoot(root: real -> real, k: real, v: real)
    requires IsRoot(root) && v == 4.0 * Sq(k)
    ensures root(NotNegative(v)) / 2.0 == Abs(k)
  {
    var r := root(NotNegative(v));
    SquareNotNegative(k);
    EqualSquares(r, 2.0 * Abs(k), v);
  }

  lemma SquareNotNegative(k: real)
    ensures k * k >= 0.0
  {
  }

  lemma EqualSquares(a: real, b: real, v: real)
    requires a >= 0.0 && b >= 0.0 && a * a == v && b * b == v
    ensures a == b
  {
    if a < b {
      ProductPositive(b - a, b + a, (b - a) * (b + a));
    } else if b < a {
      ProductPositive(a - b, a + b, (a - b) * (a + b));
    }
  }

  /** The magnitude of `x` with the sign of the product. */
  function Signed(w: real, x: real): real {
    CopySign(Abs(x), 4.0 * (w * x))
  }

  /** What the conversion gives for the matrix of a unit quaternion: the magnitudes, with the signs of w*x, w*y, w*z. */
  lemma QuatOfMatrix(q: Quat, root: real -> real)
    requires q.Unit() && IsRoot(root)
    ensures QuatOf(MatrixOf(q), root) ==
            Quat(Abs(q.w), Signed(q.w, q.x), Signed(q.w, q.y), Signed(q.w, q.z))
  {
    hide IsRoot, MatrixOf, NotNegative, Abs, Sq, Signed;
    var m := MatrixOf(q);
    Diagonals(q);
    OffDiagonals(q);
    HalfRoot(root, q.w, 1.0 + m.m00 + m.m11 + m.m22);
    HalfRoot(root, q.x, 1.0 + m.m00 - m.m11 - m.m22);
    HalfRoot(root, q.y, 1.0 - m.m00 + m.m11 - m.m22);
    HalfRoot(root, q.z, 1.0 - m.m00 - m.m11 + m.m22);
    var r := QuatOf(m, root);
    SignedIs(Abs(q.x), m.m21 - m.m12, q.w, q.x);
    SignedIs(Abs(q.y), m.m02 - m.m20, q.w, q.y);
    SignedIs(Abs(q.z), m.m10 - m.m01, q.w, q.z);
    assert r.x == Signed(q.w, q.x);
    assert r.y == Signed(q.w, q.y);
    assert r.z == Signed(q.w, q.z);
  }

  lemma SignedIs(magnitude: real, sign: real, w: real, x: real)
    requires magnitude == Abs(x) && sign == 4.0 * (w * x)
    ensures CopySign(magnitude, sign) == Signed(w, x)
  {
  }

  lemma Diagonals(q: Quat)
    requires q.Unit()
    ensures var m := MatrixOf(q);
            && 1.0 + m.m00 + m.m11 + m.m22 == 4.0 * Sq(q.w)
            && 1.0 + m.m00 - m.m11 - m.m22 == 4.0 * Sq(q.x)
            && 1.0 - m.m00 + m.m11 - m.m22 == 4.0 * Sq(q.y)
            && 1.0 - m.m00 - m.m11 + m.m22 == 4.0 * Sq(q.z)
  {
    hide Sq;
    OfSquares(Sq(q.w), Sq(q.x), Sq(q.y), Sq(q.z));
  }

  lemma OfSquares(ww: real, xx: real, yy: real, zz: real)
    requires ww + xx + yy + zz == 1.0
    ensures var a, b, c := 1.0 - 2.0 * (yy + zz), 1.0 - 2.0 * (xx + zz), 1.0 - 2.0 * (xx + yy);
            && 1.0 + a + b + c == 4.0 * ww && 1.0 + a - b - c == 4.0 * xx
            && 1.0 - a + b - c == 4.0 * yy && 1.0 - a - b + c == 4.0 * zz
            && -c == xx + yy - (ww + zz)
  {
  }

  lemma OffDiagonals(q: Quat)
    ensures var m := MatrixOf(q);
            && m.m21 - m.m12 == 4.0 * (q.w * q.x)
            && m.m02 - m.m20 == 4.0 * (q.w * q.y)
            && m.m10 - m.m01 == 4.0 * (q.w * q.z)
  {
  }

  lemma SignOfProduct(w: real, x: real)
    ensures w > 0.0 ==> Signed(w, x) == x
    ensures w < 0.0 ==> Signed(w, x) == -x
    ensures w == 0.0 ==> Signed(w, x) == Abs(x)
  {
    if w != 0.0 && x != 0.0 {
      ProductPositive(Abs(w), Abs(x), Abs(w) * Abs(x));
    }
  }

  /** The conversion recovers the orientation, up to the sign that does not matter, exactly when the
      turn is not a half turn (w = 0) or the axis has no two components of opposite sign. */
  lemma OrientationRecoveredIff(q: Quat, root: real -> real)
    requires q.Unit() && IsRoot(root)
    ensures var r := QuatOf(MatrixOf(q), root);
            r == q || r == Negated(q) <==> q.w != 0.0 || SameSign(q.x, q.y, q.z)
  {
    hide IsRoot, QuatOf, MatrixOf, Signed, Sq;
    QuatOfMatrix(q, root);
    SignOfProduct(q.w, q.x);
    SignOfProduct(q.w, q.y);
    SignOfProduct(q.w, q.z);
    var r := QuatOf(MatrixOf(q), root);
    if q.w > 0.0 {
      assert r == q;
    } else if q.w < 0.0 {
      assert r == Negated(q);
    } else {
      assert r == Quat(0.0, Abs(q.x), Abs(q.y), Abs(q.z));
    }
  }

  /** A half turn for which it fails. */
  lemma HalfTurnMisread(root: real -> real)
    requires IsRoot(root)
    ensures var q := Quat(0.0, 0.6, -0.8, 0.0);
            q.Unit() && QuatOf(MatrixOf(q), root) == Quat(0.0, 0.6, 0.8, 0.0)
  {
    hide IsRoot, QuatOf, MatrixOf;
    QuatOfMatrix(Quat(0.0, 0.6, -0.8, 0.0), root);
  }

  // The direction of the stick.

  /** The -Z axis of a tracker on the floor, not normalised. */
  function FloorAxis(q: Quat): (real, real) {
    (-2.0 * (Times(q.x, q.z) + Times(q.w, q.y)), -(1.0 - 2.0 * (Sq(q.x) + Sq(q.y))))
  }

  /** It is the floor part of the forward vector turned by the orientation. */
  lemma FloorAxisIsForward(q: Quat)
    requires q.Unit()
    ensures var f := Rotate(q, Vec(0.0, 0.0, -1.0)); FloorAxis(q) == (f.x, f.z)
  {
    hide Sq, Rotate, Times;
    OfSquares(Sq(q.w), Sq(q.x), Sq(q.y), Sq(q.z));
    ForwardTurned(q);
    var f := Rotate(q, Vec(0.0, 0.0, -1.0));
    assert FloorAxis(q).0 == f.x;
    assert FloorAxis(q).1 == f.z;
  }

  lemma ForwardTurned(q: Quat)
    ensures var f := Rotate(q, Vec(0.0, 0.0, -1.0));
            f.x == -2.0 * (Times(q.x, q.z) + Times(q.w, q.y)) && f.z == Sq(q.x) + Sq(q.y) - (Sq(q.w) + Sq(q.z))
  {
    hide Times, Sq;
    TimesLaws();
    var m := Mul(q, Quat(0.0, 0.0, 0.0, -1.0));
    assert forall x :: Times(x, -1.0) == -x by { MinusOne(); }
    assert m == Quat(q.z, -q.y, q.x, -q.w);
    SqIsTimes(q.w);
    SqIsTimes(q.x);
    SqIsTimes(q.y);
    SqIsTimes(q.z);
  }

  /** A direction of length `len` made a unit vector, unless it is almost vertical. */
  function Level(x: real, z: real, len: real): Option<(real, real)> {
    if len < 0.3 then None else Some((x / len, z / len))
  }

  /** The waist direction on the axes of the device whose forward axis is (rx, rz); its right axis is (-rz, rx). */
  function OnAxes(waist: (real, real), forward: (real, real)): (real, real) {
    (waist.0 * -forward.1 + waist.1 * forward.0, waist.0 * forward.0 + waist.1 * forward.1)
  }

  /** The stick direction for a waist direction and the raw -Z axis of the reference device, if there are any. */
  function StickDirection(
    waist: Option<(real, real)>, axis: Option<(real, real)>, universe: Option<Universe>,
    hypot: (real, real) -> real): (real, real)
  {
    if waist.None? || axis.None? then (0.0, 1.0)
    else
      var (rx, rz) := axis.value;
      var v := match universe case None => Vec(rx, 0.0, rz) case Some(u) => Turned(u, Vec(rx, 0.0, rz));
      match Level(v.x, v.z, hypot(v.x, v.z))
      case None => (0.0, 1.0)
      case Some(forward) => OnAxes(waist.value, forward)
  }

  predicate UnitPair(p: (real, real)) {
    UnitVector(p.0, p.1)
  }

  ghost predicate IsHypot(hypot: (real, real) -> real) {
    forall x, y :: IsLength(hypot(x, y), x, y)
  }

  lemma LevelIsUnit(x: real, z: real, len: real)
    requires IsLength(len, x, z)
    ensures Level(x, z, len).Some? <==> len >= 0.3
    ensures Level(x, z, len).Some? ==>
              var l := Level(x, z, len).value; UnitPair(l) && l.0 * len == x && l.1 * len == z
  {
    hide IsLength, UnitVector;
    if len >= 0.3 {
      Normalised(x, z, len, x / len, z / len);
      Quotient(x, len, x / len);
      Quotient(z, len, z / len);
    }
  }

  /** The direction is a unit vector, and recombining it with the reference axes gives the waist direction back. */
  lemma OnAxesRecombines(waist: (real, real), forward: (real, real))
    requires UnitPair(waist) && UnitPair(forward)
    ensures var d := OnAxes(waist, forward);
            && UnitPair(d)
            && d.0 * -forward.1 + d.1 * forward.0 == waist.0
            && d.0 * forward.0 + d.1 * forward.1 == waist.1
  {
    var a, b, c, s := waist.0, waist.1, forward.0, forward.1;
    var d := OnAxes(waist, forward);
    assert d.0 * -s + d.1 * c == a * (c * c + s * s);
    assert d.0 * c + d.1 * s == b * (c * c + s * s);
    assert d.0 * d.0 + d.1 * d.1 == (a * a + b * b) * (c * c + s * s);
  }

  /** The forward axis of the reference device in the standing frame, from above, if there is a device and it does not
      point almost straight up or down. Its right axis is (-z, x). */
  function Reference(axis: Option<(real, real)>, universe: Option<Universe>, hypot: (real, real) -> real)
    : Option<(real, real)>
  {
    if axis.None? then None
    else
      var raw := Vec(axis.value.0, 0.0, axis.value.1);
      var v := match universe case None => raw case Some(u) => Turned(u, raw);
      Level(v.x, v.z, hypot(v.x, v.z))
  }

  /** The stick direction on the reference axes is the waist direction; without a waist direction or a reference it is
      straight ahead. */
  lemma StickDirectionRecombines(
      waist: Option<(real, real)>, axis: Option<(real, real)>, universe: Option<Universe>, hypot: (real, real) -> real)
    requires IsHypot(hypot) && (waist.Some? ==> UnitPair(waist.value))
    ensures var d, r := StickDirection(waist, axis, universe, hypot), Reference(axis, universe, hypot);
            if waist.None? || r.None? then d == (0.0, 1.0)
            else
              && UnitPair(r.value)
              && d.0 * -r.value.1 + d.1 * r.value.0 == waist.value.0
              && d.0 * r.value.0 + d.1 * r.value.1 == waist.value.1
  {
    hide UnitVector, IsLength, OnAxes;
    if waist.Some? && axis.Some? {
      var raw := Vec(axis.value.0, 0.0, axis.value.1);
      var v := match universe case None => raw case Some(u) => Turned(u, raw);
      LevelIsUnit(v.x, v.z, hypot(v.x, v.z));
      if Level(v.x, v.z, hypot(v.x, v.z)).Some? {
        OnAxesRecombines(waist.value, Level(v.x, v.z, hypot(v.x, v.z)).value);
      }
    }
  }

  /** The reference, spelled out: the device's axis, turned into the standing frame if the play space is known, and made
      a unit vector. */
  lemma ReferenceIs(x: real, z: real, universe: Option<Universe>, hypot: (real, real) -> real)
    requires IsHypot(hypot)
    ensures Reference(None, universe, hypot).None?
    ensures var v := if universe.None? then Vec(x, 0.0, z) else Turned(universe.value, Vec(x, 0.0, z));
            var len, r := hypot(v.x, v.z), Reference(Some((x, z)), universe, hypot);
            && (r.Some? <==> len >= 0.3)
            && (r.Some? ==> r.value.0 * len == v.x && r.value.1 * len == v.z)
  {
    hide IsLength, Turned, Level, UnitVector;
    var v := if universe.None? then Vec(x, 0.0, z) else Turned(universe.value, Vec(x, 0.0, z));
    LevelIsUnit(v.x, v.z, hypot(v.x, v.z));
  }

  /** With any inputs the stick direction is a unit vector. */
  lemma StickDirectionIsUnit(
      waist: Option<(real, real)>, axis: Option<(real, real)>, universe: Option<Universe>, hypot: (real, real) -> real)
    requires IsHypot(hypot) && (waist.Some? ==> UnitPair(waist.value))
    ensures UnitPair(StickDirection(waist, axis, universe, hypot))
  {
    hide UnitVector, IsLength, OnAxes;
    ForwardIsUnit();
    if waist.Some? && axis.Some? {
      var (rx, rz) := axis.value;
      var v := match universe case None => Vec(rx, 0.0, rz) case Some(u) => Turned(u, Vec(rx, 0.0, rz));
      var len := hypot(v.x, v.z);
      LevelIsUnit(v.x, v.z, len);
      if Level(v.x, v.z, len).Some? {
        OnAxesRecombines(waist.value, Level(v.x, v.z, len).value);
      }
    }
  }

  lemma ForwardIsUnit()
    ensures UnitPair((0.0, 1.0))
  {
  }
}
