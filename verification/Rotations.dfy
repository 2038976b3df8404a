/** The conventions of the compositor's quaternions (tools/compose_infantry_animation.py:222-257):
    Hamilton's product, active rotations, and a product that turns by its second factor first. */
module Rotations {
  import opened Outcome
  import opened Rigid

  const I := Quat(1.0, 0.0, 0.0, 0.0)
  const J := Quat(0.0, 1.0, 0.0, 0.0)
  const KAY := Quat(0.0, 0.0, 1.0, 0.0)
  const ONE := Quat(0.0, 0.0, 0.0, 1.0)

  /** Hamilton's units: each squares to minus one, and i j = k. */
  lemma {:induction false} UnitsMultiply()
    ensures Product(I, I) == Product(J, J) == Product(KAY, KAY) == Multiple(-1.0, ONE)
    ensures Product(I, J) == KAY && Product(J, KAY) == I && Product(KAY, I) == J
    ensures Product(J, I) == Multiple(-1.0, KAY)
  {
  }

  /** In either order of the components, i j = k, and the quarter turn about the third axis takes the first to the
      second. */
  lemma {:induction false} OrdersAgree(m: Maths)
    requires Sound(m)
    ensures QuatMultiply(Quad(1.0, 0.0, 0.0, 0.0), Quad(0.0, 1.0, 0.0, 0.0), Xyzw) == Quad(0.0, 0.0, 1.0, 0.0)
    ensures QuatMultiply(Quad(0.0, 1.0, 0.0, 0.0), Quad(0.0, 0.0, 1.0, 0.0), Wxyz) == Quad(0.0, 0.0, 0.0, 1.0)
    ensures QuatRotate(m, Quad(0.0, 0.0, 1.0, 1.0), Vec(1.0, 0.0, 0.0), Xyzw) == Ok(Vec(0.0, 1.0, 0.0))
    ensures QuatRotate(m, Quad(1.0, 0.0, 0.0, 1.0), Vec(1.0, 0.0, 0.0), Wxyz) == Ok(Vec(0.0, 1.0, 0.0))
  {
    hide Turned, Norm2, QuatRotate, Product, Sound;
    UnitsMultiply();
    QuarterTurn();
    RotateIsRational(m, Quad(0.0, 0.0, 1.0, 1.0), Vec(1.0, 0.0, 0.0), Xyzw);
    RotateIsRational(m, Quad(1.0, 0.0, 0.0, 1.0), Vec(1.0, 0.0, 0.0), Wxyz);
  }

  lemma {:induction false} QuarterTurn()
    ensures Turned(Quat(0.0, 0.0, 1.0, 1.0), 0.5, Vec(1.0, 0.0, 0.0)) == Vec(0.0, 1.0, 0.0)
    ensures Norm2(Quat(0.0, 0.0, 1.0, 1.0)) == 2.0
  {
    var u := Vec(0.0, 0.0, 1.0);
    assert Cross(u, Vec(1.0, 0.0, 0.0)) == Vec(0.0, 1.0, 0.0);
    assert Cross(u, Vec(0.0, 1.0, 0.0)) == Vec(-1.0, 0.0, 0.0);
    assert Twice(0.5, 1.0) == 1.0;
    hide Cross, Twice;
    assert Turned(Quat(0.0, 0.0, 1.0, 1.0), 0.5, Vec(1.0, 0.0, 0.0))
        == Add(Add(Vec(1.0, 0.0, 0.0), Scale(1.0, Vec(0.0, 1.0, 0.0))), Scale(1.0, Vec(-1.0, 0.0, 0.0)));
  }

  // ----- the product is associative

  function Times(a: real, b: real): real {
    a * b
  }

  function Thrice(a: real, b: real, c: real): real {
    a * (b * c)
  }

  lemma {:induction false} Parts(a: Quat, b: Quat)
    ensures var p := Product(a, b);
      && p.x == Times(a.w, b.x) + Times(a.x, b.w) + Times(a.y, b.z) - Times(a.z, b.y)
      && p.y == Times(a.w, b.y) + Times(a.y, b.w) + Times(a.z, b.x) - Times(a.x, b.z)
      && p.z == Times(a.w, b.z) + Times(a.z, b.w) + Times(a.x, b.y) - Times(a.y, b.x)
      && p.w == Times(a.w, b.w) - Times(a.x, b.x) - Times(a.y, b.y) - Times(a.z, b.z)
  {
  }

  lemma {:induction false} SumTimes(p: real, q: real, r: real, s: real, c: real)
    ensures Times(p + q + r - s, c) == Times(p, c) + Times(q, c) + Times(r, c) - Times(s, c)
    ensures Times(p - q - r - s, c) == Times(p, c) - Times(q, c) - Times(r, c) - Times(s, c)
    ensures Times(c, p + q + r - s) == Times(c, p) + Times(c, q) + Times(c, r) - Times(c, s)
    ensures Times(c, p - q - r - s) == Times(c, p) - Times(c, q) - Times(c, r) - Times(c, s)
  {
  }

  lemma {:induction false} TimesTwice(a: real, b: real, c: real)
    ensures Times(Times(a, b), c) == Thrice(a, b, c) == Times(a, Times(b, c))
  {
  }

  /** The components of a product times a number, taken apart. */
  lemma {:induction false} PartsTimes(a: Quat, b: Quat, c: real)
    ensures var p := Product(a, b);
      && Times(p.x, c) == Thrice(a.w, b.x, c) + Thrice(a.x, b.w, c) + Thrice(a.y, b.z, c) - Thrice(a.z, b.y, c)
      && Times(p.y, c) == Thrice(a.w, b.y, c) + Thrice(a.y, b.w, c) + Thrice(a.z, b.x, c) - Thrice(a.x, b.z, c)
      && Times(p.z, c) == Thrice(a.w, b.z, c) + Thrice(a.z, b.w, c) + Thrice(a.x, b.y, c) - Thrice(a.y, b.x, c)
      && Times(p.w, c) == Thrice(a.w, b.w, c) - Thrice(a.x, b.x, c) - Thrice(a.y, b.y, c) - Thrice(a.z, b.z, c)
  {
    Parts(a, b);
    hide Times, Thrice, Product;
    SumTimes(Times(a.w, b.x), Times(a.x, b.w), Times(a.y, b.z), Times(a.z, b.y), c);
    SumTimes(Times(a.w, b.y), Times(a.y, b.w), Times(a.z, b.x), Times(a.x, b.z), c);
    SumTimes(Times(a.w, b.z), Times(a.z, b.w), Times(a.x, b.y), Times(a.y, b.x), c);
    SumTimes(Times(a.w, b.w), Times(a.x, b.x), Times(a.y, b.y), Times(a.z, b.z), c);
    forall x: real, y: real
      ensures Times(Times(x, y), c) == Thrice(x, y, c)
    {
      TimesTwice(x, y, c);
    }
  }

  lemma {:induction false} TimesParts(a: real, b: Quat, c: Quat)
    ensures var p := Product(b, c);
      && Times(a, p.x) == Thrice(a, b.w, c.x) + Thrice(a, b.x, c.w) + Thrice(a, b.y, c.z) - Thrice(a, b.z, c.y)
      && Times(a, p.y) == Thrice(a, b.w, c.y) + Thrice(a, b.y, c.w) + Thrice(a, b.z, c.x) - Thrice(a, b.x, c.z)
      && Times(a, p.z) == Thrice(a, b.w, c.z) + Thrice(a, b.z, c.w) + Thrice(a, b.x, c.y) - Thrice(a, b.y, c.x)
      && Times(a, p.w) == Thrice(a, b.w, c.w) - Thrice(a, b.x, c.x) - Thrice(a, b.y, c.y) - Thrice(a, b.z, c.z)
  {
    Parts(b, c);
    hide Times, Thrice, Product;
    SumTimes(Times(b.w, c.x), Times(b.x, c.w), Times(b.y, c.z), Times(b.z, c.y), a);
    SumTimes(Times(b.w, c.y), Times(b.y, c.w), Times(b.z, c.x), Times(b.x, c.z), a);
    SumTimes(Times(b.w, c.z), Times(b.z, c.w), Times(b.x, c.y), Times(b.y, c.x), a);
    SumTimes(Times(b.w, c.w), Times(b.x, c.x), Times(b.y, c.y), Times(b.z, c.z), a);
    forall x: real, y: real
      ensures Times(a, Times(x, y)) == Thrice(a, x, y)
    {
      TimesTwice(a, x, y);
    }
  }

  lemma {:induction false} Associates(a: Quat, b: Quat, c: Quat)
    ensures Product(Product(a, b), c) == Product(a, Product(b, c))
  {
    hide Times, Thrice, Product;
    Parts(Product(a, b), c);
    Parts(a, Product(b, c));
    PartsTimes(a, b, c.x);
    PartsTimes(a, b, c.y);
    PartsTimes(a, b, c.z);
    PartsTimes(a, b, c.w);
    TimesParts(a.x, b, c);
    TimesParts(a.y, b, c);
    TimesParts(a.z, b, c);
    TimesParts(a.w, b, c);
  }

  // ----- a rotation is a product

  function Pure(v: Vec): Quat {
    Quat(v.x, v.y, v.z, 0.0)
  }

  lemma {:induction false} Signs(x: real, y: real)
    ensures Times(y, -x) == -Times(x, y) && Times(-y, x) == -Times(x, y) && Times(-y, -x) == Times(x, y)
    ensures Times(y, x) == Times(x, y)
  {
  }

  lemma {:induction false} ConjugateOfProduct(a: Quat, b: Quat)
    ensures Conjugate(Product(a, b)) == Product(Conjugate(b), Conjugate(a))
  {
    Parts(a, b);
    Parts(Conjugate(b), Conjugate(a));
    hide Product, Times;
    Signs(a.w, b.x);
    Signs(a.x, b.w);
    Signs(a.y, b.z);
    Signs(a.z, b.y);
    Signs(a.w, b.y);
    Signs(a.y, b.w);
    Signs(a.z, b.x);
    Signs(a.x, b.z);
    Signs(a.w, b.z);
    Signs(a.z, b.w);
    Signs(a.x, b.y);
    Signs(a.y, b.x);
    Signs(a.w, b.w);
    Signs(a.x, b.x);
    Signs(a.y, b.y);
    Signs(a.z, b.z);
  }

  lemma {:induction false} SumOfTwo(a: real, p: real, q: real)
    ensures Times(a, p + q) == Times(a, p) + Times(a, q) && Times(a, p - q) == Times(a, p) - Times(a, q)
  {
  }

  lemma {:induction false} Exchange(a: real, b: real, c: real)
    ensures Times(a, Times(b, c)) == Times(b, Times(a, c))
  {
    assert a * (b * c) == b * (a * c);
  }

  /** One component of a sandwich, and of the turned vector at the quaternion's length: `s` is the product of the axis
      with the vector, `cx`, `cy` and `cz` are its cross product, `dx` that of the axis with it. */
  lemma {:induction false} SandwichPart(x: real, y: real, z: real, w: real, vx: real, vy: real, vz: real, s: real,
                                        cx: real, cy: real, cz: real)
    requires s == Times(x, vx) + Times(y, vy) + Times(z, vz)
    requires cx == Times(y, vz) - Times(z, vy) && cy == Times(z, vx) - Times(x, vz) && cz == Times(x, vy) - Times(y, vx)
    ensures Times(x, s) + Times(w, Times(w, vx) + cx) - Times(z, Times(w, vy) + cy) + Times(y, Times(w, vz) + cz)
         == Times(x, Times(x, vx)) + Times(y, Times(y, vx)) + Times(z, Times(z, vx)) + Times(w, Times(w, vx))
            + 2.0 * Times(w, cx) + 2.0 * (Times(y, cz) - Times(z, cy))
  {
    hide Times;
    SumOfTwo(w, Times(w, vx), cx);
    SumOfTwo(z, Times(w, vy), cy);
    SumOfTwo(y, Times(w, vz), cz);
    SumOfTwo(w, Times(y, vz), Times(z, vy));
    Exchange(z, w, vy);
    Exchange(y, w, vz);
    SumOfTwo(x, Times(x, vx) + Times(y, vy), Times(z, vz));
    SumOfTwo(x, Times(x, vx), Times(y, vy));
    SumOfTwo(y, Times(x, vy), Times(y, vx));
    SumOfTwo(z, Times(z, vx), Times(x, vz));
    Exchange(y, x, vy);
    Exchange(z, x, vz);
  }

  lemma {:induction false} Spread(k: real, a: real, b: real, c: real)
    ensures k * (a + 2.0 * b + 2.0 * c) == k * a + 2.0 * (k * b) + 2.0 * (k * c)
  {
  }

  lemma {:induction false} SquaresTimes(x: real, y: real, z: real, w: real, v: real, n: real)
    requires n == x * x + y * y + z * z + w * w
    ensures Times(x, Times(x, v)) + Times(y, Times(y, v)) + Times(z, Times(z, v)) + Times(w, Times(w, v)) == n * v
  {
    SquareTimes(x, v);
    SquareTimes(y, v);
    SquareTimes(z, v);
    SquareTimes(w, v);
    FourTimes(x * x, y * y, z * z, w * w, v);
  }

  lemma {:induction false} SquareTimes(x: real, v: real)
    ensures Times(x, Times(x, v)) == (x * x) * v
  {
  }

  lemma {:induction false} FourTimes(a: real, b: real, c: real, d: real, v: real)
    ensures (a + b + c + d) * v == a * v + b * v + c * v + d * v
  {
  }

  lemma {:induction false} OnceOver(k: real, n: real, v: real)
    requires k * n == 1.0
    ensures k * (n * v) == v
  {
    assert k * (n * v) == (k * n) * v;
    assert (k * n) * v == 1.0 * v;
  }

  lemma {:induction false} TwiceTimes(k: real, w: real, c: real, d: real)
    ensures Twice(k, w) * c == 2.0 * (k * Times(w, c)) && Twice(k, 1.0) * d == 2.0 * (k * d)
  {
    assert (2.0 * k * w) * c == 2.0 * (k * w * c) && k * w * c == k * (w * c);
  }

  /** A component of a vector turned by a quaternion of squared length `n`, and of the unscaled sandwich. */
  lemma {:induction false} TurnedPart(k: real, n: real, x: real, y: real, z: real, w: real, v: real, c: real, d: real)
    requires n == x * x + y * y + z * z + w * w && k * n == 1.0
    ensures v + Twice(k, w) * c + Twice(k, 1.0) * d
         == k * (Times(x, Times(x, v)) + Times(y, Times(y, v)) + Times(z, Times(z, v)) + Times(w, Times(w, v))
                 + 2.0 * Times(w, c) + 2.0 * d)
  {
    hide Twice, Times;
    SquaresTimes(x, y, z, w, v, n);
    OnceOver(k, n, v);
    TwiceTimes(k, w, c, d);
    TurnedSum(k, v, n * v, Times(w, c), d, Twice(k, w) * c, Twice(k, 1.0) * d);
  }

  lemma {:induction false} TurnedSum(k: real, v: real, a: real, b: real, c: real, kb: real, kc: real)
    requires k * a == v && kb == 2.0 * (k * b) && kc == 2.0 * (k * c)
    ensures v + kb + kc == k * (a + 2.0 * b + 2.0 * c)
  {
    Spread(k, a, b, c);
  }

  lemma {:induction false} CrossParts(u: Vec, v: Vec)
    ensures var c := Cross(u, v);
      && c.x == Times(u.y, v.z) - Times(u.z, v.y) && c.y == Times(u.z, v.x) - Times(u.x, v.z)
      && c.z == Times(u.x, v.y) - Times(u.y, v.x)
  {
  }

  lemma {:induction false} NoTimes(x: real)
    ensures Times(x, 0.0) == 0.0
  {
  }

  /** The components of the unscaled sandwich, before they are taken apart. */
  lemma {:induction false} SandwichIs(q: Quat, v: Vec, s: real)
    requires s == Times(q.x, v.x) + Times(q.y, v.y) + Times(q.z, v.z)
    ensures var c, r := Cross(Axis(q), v), Product(Product(q, Pure(v)), Conjugate(q));
      var px, py, pz := Times(q.w, v.x) + c.x, Times(q.w, v.y) + c.y, Times(q.w, v.z) + c.z;
      && r.x == Times(q.x, s) + Times(q.w, px) - Times(q.z, py) + Times(q.y, pz)
      && r.y == Times(q.y, s) + Times(q.w, py) - Times(q.x, pz) + Times(q.z, px)
      && r.z == Times(q.z, s) + Times(q.w, pz) - Times(q.y, px) + Times(q.x, py)
      && r.w == Times(q.x, px) + Times(q.y, py) + Times(q.z, pz) - Times(q.w, s)
  {
    hide Product, Times, Cross;
    var p := Product(q, Pure(v));
    Parts(q, Pure(v));
    CrossParts(Axis(q), v);
    NoTimes(q.x);
    NoTimes(q.y);
    NoTimes(q.z);
    NoTimes(q.w);
    assert p.w == -s;
    Parts(p, Conjugate(q));
    Signs(q.x, s);
    Signs(q.y, s);
    Signs(q.z, s);
    Signs(q.w, s);
    PartSigns(p.x, q);
    PartSigns(p.y, q);
    PartSigns(p.z, q);
  }

  lemma {:induction false} PartSigns(p: real, q: Quat)
    ensures Times(p, -q.x) == -Times(q.x, p) && Times(p, -q.y) == -Times(q.y, p) && Times(p, -q.z) == -Times(q.z, p)
    ensures Times(p, q.w) == Times(q.w, p)
  {
    hide Times;
    Signs(q.x, p);
    Signs(q.y, p);
    Signs(q.z, p);
    Signs(q.w, p);
  }

  /** The sandwich of a vector is a vector. */
  lemma {:induction false} NoScalar(x: real, y: real, z: real, w: real, vx: real, vy: real, vz: real, s: real, cx: real,
                                    cy: real, cz: real)
    requires s == Times(x, vx) + Times(y, vy) + Times(z, vz)
    requires cx == Times(y, vz) - Times(z, vy) && cy == Times(z, vx) - Times(x, vz) && cz == Times(x, vy) - Times(y, vx)
    ensures Times(x, Times(w, vx) + cx) + Times(y, Times(w, vy) + cy) + Times(z, Times(w, vz) + cz) == Times(w, s)
  {
    hide Times;
    SumOfTwo(x, Times(w, vx), cx);
    SumOfTwo(y, Times(w, vy), cy);
    SumOfTwo(z, Times(w, vz), cz);
    Exchange(x, w, vx);
    Exchange(y, w, vy);
    Exchange(z, w, vz);
    SumOfTwo(w, Times(x, vx) + Times(y, vy), Times(z, vz));
    SumOfTwo(w, Times(x, vx), Times(y, vy));
    SumOfTwo(x, Times(y, vz), Times(z, vy));
    SumOfTwo(y, Times(z, vx), Times(x, vz));
    SumOfTwo(z, Times(x, vy), Times(y, vx));
    Exchange(x, y, vz);
    Exchange(x, z, vy);
    Exchange(y, z, vx);
  }

  lemma {:induction false} TurnedIs(q: Quat, k: real, v: Vec)
    ensures var t, c := Turned(q, k, v), Cross(Axis(q), v);
      && t.x == v.x + Twice(k, q.w) * c.x + Twice(k, 1.0) * (Times(q.y, c.z) - Times(q.z, c.y))
      && t.y == v.y + Twice(k, q.w) * c.y + Twice(k, 1.0) * (Times(q.z, c.x) - Times(q.x, c.z))
      && t.z == v.z + Twice(k, q.w) * c.z + Twice(k, 1.0) * (Times(q.x, c.y) - Times(q.y, c.x))
  {
    hide Cross, Twice, Times;
    var c := Cross(Axis(q), v);
    CrossParts(Axis(q), c);
  }

  /** Turning a vector is multiplying it by the quaternion from the left and by the conjugate from the right. */
  lemma {:induction false} TurnIsSandwich(q: Quat, k: real, v: Vec)
    requires k * Norm2(q) == 1.0
    ensures Pure(Turned(q, k, v)) == Multiple(k, Product(Product(q, Pure(v)), Conjugate(q)))
  {
    hide Turned, Product, Cross, Times, Twice;
    var c, n := Cross(Axis(q), v), Norm2(q);
    var s := Times(q.x, v.x) + Times(q.y, v.y) + Times(q.z, v.z);
    CrossParts(Axis(q), v);
    TurnedIs(q, k, v);
    SandwichIs(q, v, s);
    SandwichPart(q.x, q.y, q.z, q.w, v.x, v.y, v.z, s, c.x, c.y, c.z);
    SandwichPart(q.y, q.z, q.x, q.w, v.y, v.z, v.x, s, c.y, c.z, c.x);
    SandwichPart(q.z, q.x, q.y, q.w, v.z, v.x, v.y, s, c.z, c.x, c.y);
    NoScalar(q.x, q.y, q.z, q.w, v.x, v.y, v.z, s, c.x, c.y, c.z);
    TurnedPart(k, n, q.x, q.y, q.z, q.w, v.x, c.x, Times(q.y, c.z) - Times(q.z, c.y));
    TurnedPart(k, n, q.x, q.y, q.z, q.w, v.y, c.y, Times(q.z, c.x) - Times(q.x, c.z));
    TurnedPart(k, n, q.x, q.y, q.z, q.w, v.z, c.z, Times(q.x, c.y) - Times(q.y, c.x));
  }

  /** The unscaled sandwich of a product is the sandwich of the sandwich. */
  lemma {:induction false} SandwichOfProduct(a: Quat, b: Quat, p: Quat)
    ensures Product(Product(Product(a, b), p), Conjugate(Product(a, b)))
         == Product(Product(a, Product(Product(b, p), Conjugate(b))), Conjugate(a))
  {
    hide Product, Conjugate;
    var back, forth := Conjugate(a), Product(b, p);
    ConjugateOfProduct(a, b);
    Associates(a, b, p);
    Associates(a, forth, Product(Conjugate(b), back));
    Associates(forth, Conjugate(b), back);
    Associates(a, Product(forth, Conjugate(b)), back);
  }

  lemma {:induction false} PureIsInjective(u: Vec, v: Vec)
    requires Pure(u) == Pure(v)
    ensures u == v
  {
  }

  lemma {:induction false} PureOfTurned(q: Quat, k: real, v: Vec, inner: Quat)
    requires k * Norm2(q) == 1.0 && inner == Product(Product(q, Pure(v)), Conjugate(q))
    ensures Pure(Turned(q, k, v)) == Multiple(k, inner)
  {
    hide Turned, Product, Conjugate, Norm2, Multiple;
    TurnIsSandwich(q, k, v);
  }

  lemma {:induction false} Regroup(k: real, l: real, m: real, n: real)
    requires k * m == 1.0 && l * n == 1.0
    ensures (k * l) * (m * n) == 1.0
  {
    assert (k * l) * (m * n) == (k * m) * (l * n);
  }

  lemma {:induction false} MultipleOfMultiple(k: real, l: real, q: Quat)
    ensures Multiple(k, Multiple(l, q)) == Multiple(k * l, q)
  {
  }

  /** A product turns by its second factor first. */
  lemma {:induction false} TurnedByProduct(a: Quat, b: Quat, k: real, l: real, kl: real, v: Vec)
    requires k * Norm2(a) == 1.0 && l * Norm2(b) == 1.0 && kl == k * l
    ensures Turned(Product(a, b), kl, v) == Turned(a, k, Turned(b, l, v))
  {
    hide Turned, Product, Conjugate, Norm2, Multiple, Pure;
    var once := Turned(b, l, v);
    var s := Product(Product(b, Pure(v)), Conjugate(b));
    Norm2OfProduct(a, b);
    Regroup(k, l, Norm2(a), Norm2(b));
    var t := Product(Product(a, s), Conjugate(a));
    SandwichOfProduct(a, b, Pure(v));
    PureOfTurned(Product(a, b), kl, v, t);
    PureOfTurned(b, l, v, s);
    ProductOfMultiple(l, a, s);
    MultipleOfProduct(l, Product(a, s), Conjugate(a));
    PureOfTurned(a, k, once, Multiple(l, t));
    MultipleOfMultiple(k, l, t);
    PureIsInjective(Turned(Product(a, b), kl, v), Turned(a, k, once));
  }

  // ----- chains of transforms

  function Nested(m: Maths, a: Transform, b: Transform, c: Transform, order: Order): Result<Transform> {
    var below :- ComposeTransform(m, b, c, order);
    ComposeTransform(m, a, below, order)
  }

  function Chained(m: Maths, a: Transform, b: Transform, c: Transform, order: Order): Result<Transform> {
    var above :- ComposeTransform(m, a, b, order);
    ComposeTransform(m, above, c, order)
  }

  lemma {:induction false} ReciprocalOfProduct(m: real, n: real, mn: real)
    requires m != 0.0 && n != 0.0 && mn == m * n
    ensures mn != 0.0 && 1.0 / mn == (1.0 / m) * (1.0 / n)
  {
    Reciprocal(m, 1.0 / m);
    Reciprocal(n, 1.0 / n);
    var p := (1.0 / m) * (1.0 / n);
    Regroup(1.0 / m, 1.0 / n, m, n);
    assert p * (m * n) == 1.0;
    assert 1.0 / (m * n) == (p * (m * n)) / (m * n);
  }

  /** Composing transforms is associative, failures included: a chain gives one world transform from either end. */
  lemma {:induction false} ComposingAssociates(m: Maths, a: Transform, b: Transform, c: Transform, order: Order)
    requires Sound(m)
    ensures Chained(m, a, b, c, order) == Nested(m, a, b, c, order)
  {
    hide Turned, Product, Norm2, QuatRotate, Add;
    var p, q, r := ToXyzw(a.rotation, order), ToXyzw(b.rotation, order), ToXyzw(c.rotation, order);
    var pq := QuatMultiply(a.rotation, b.rotation, order);
    assert ToXyzw(pq, order) == Product(p, q);
    RotateIsRational(m, a.rotation, b.position, order);
    RotateIsRational(m, b.rotation, c.position, order);
    RotateIsRational(m, pq, c.position, order);
    Norm2OfProduct(p, q);
    if Norm2(p) != 0.0 && Norm2(q) != 0.0 {
      var k, l := 1.0 / Norm2(p), 1.0 / Norm2(q);
      ReciprocalOfProduct(Norm2(p), Norm2(q), Norm2(Product(p, q)));
      Reciprocal(Norm2(p), k);
      Reciprocal(Norm2(q), l);
      TurnedByProduct(p, q, k, l, 1.0 / Norm2(Product(p, q)), c.position);
      var once := Turned(q, l, c.position);
      RotateIsRational(m, a.rotation, Add(b.position, once), order);
      TurnedAdd(p, k, b.position, once);
      AddRegroups(a.position, Turned(p, k, b.position), Turned(p, k, once), a.position);
      Associates(p, q, r);
      var near, far := Turned(p, k, b.position), Turned(p, k, once);
      assert Nested(m, a, b, c, order)
          == Ok(Transform(Add(a.position, Add(near, far)), ToOrder(Product(p, Product(q, r)), order)));
      assert Turned(Product(p, q), 1.0 / Norm2(Product(p, q)), c.position) == far;
      assert Chained(m, a, b, c, order)
          == Ok(Transform(Add(Add(a.position, near), far), ToOrder(Product(Product(p, q), r), order)));
    } else {
      assert Norm2(Product(p, q)) == 0.0;
      if Norm2(q) != 0.0 {
        RotateIsRational(m, a.rotation, ComposeTransform(m, b, c, order).value.position, order);
      }
    }
  }
}
