/** Quaternions and rigid transforms (tools/compose_infantry_animation.py:202-283), over exact reals. */
module Rigid {
  import opened Outcome

  /** The functions of the math module the compositor calls. */
  datatype Maths = Maths(sqrt: real -> real, sin: real -> real, acos: real -> real)

  /** What is used of them: the square root is the nonnegative root, and the sine of an arc is what its cosine
      leaves. */
  ghost predicate Sound(m: Maths) {
    && (forall x: real :: x >= 0.0 ==> m.sqrt(x) >= 0.0 && m.sqrt(x) * m.sqrt(x) == x)
    && m.sin(0.0) == 0.0
    && (forall d: real :: 0.0 <= d <= 0.9995 ==> m.sin(m.acos(d)) > 0.0)
  }

  datatype Vec = Vec(x: real, y: real, z: real)

  /** Four components in the order a clip stores them. */
  datatype Quad = Quad(a: real, b: real, c: real, d: real)

  datatype Quat = Quat(x: real, y: real, z: real, w: real)

  datatype Order = Xyzw | Wxyz

  function ToXyzw(q: Quad, order: Order): Quat {
    match order
    case Xyzw => Quat(q.a, q.b, q.c, q.d)
    case Wxyz => Quat(q.b, q.c, q.d, q.a)
  }

  function ToOrder(q: Quat, order: Order): Quad {
    match order
    case Xyzw => Quad(q.x, q.y, q.z, q.w)
    case Wxyz => Quad(q.w, q.x, q.y, q.z)
  }

  // ----- vectors

  function Add(u: Vec, v: Vec): Vec {
    Vec(u.x + v.x, u.y + v.y, u.z + v.z)
  }

  function Scale(s: real, v: Vec): Vec {
    Vec(s * v.x, s * v.y, s * v.z)
  }

  function Negate(v: Vec): Vec {
    Vec(-v.x, -v.y, -v.z)
  }

  function Minor(a: real, b: real, c: real, d: real): real {
    a * b - c * d
  }

  function Cross(u: Vec, v: Vec): Vec {
    Vec(Minor(u.y, v.z, u.z, v.y), Minor(u.z, v.x, u.x, v.z), Minor(u.x, v.y, u.y, v.x))
  }

  function Square(v: Vec): real {
    v.x * v.x + v.y * v.y + v.z * v.z
  }

  // ----- quaternions

  function Norm2(q: Quat): real {
    q.x * q.x + q.y * q.y + q.z * q.z + q.w * q.w
  }

  /** The vector part. */
  function Axis(q: Quat): Vec {
    Vec(q.x, q.y, q.z)
  }

  function Multiple(s: real, q: Quat): Quat {
    Quat(s * q.x, s * q.y, s * q.z, s * q.w)
  }

  function Divided(q: Quat, n: real): Quat
    requires n != 0.0
  {
    Quat(q.x / n, q.y / n, q.z / n, q.w / n)
  }

  function Conjugate(q: Quat): Quat {
    Quat(-q.x, -q.y, -q.z, q.w)
  }

  function PlusMinus(a: real, i: real, b: real, j: real, c: real, k: real, d: real, l: real): real {
    a * i + b * j + c * k - d * l
  }

  function MinusAll(a: real, i: real, b: real, j: real, c: real, k: real, d: real, l: real): real {
    a * i - b * j - c * k - d * l
  }

  /** The Hamilton product. */
  function Product(a: Quat, b: Quat): Quat {
    Quat(PlusMinus(a.w, b.x, a.x, b.w, a.y, b.z, a.z, b.y),
         PlusMinus(a.w, b.y, a.y, b.w, a.z, b.x, a.x, b.z),
         PlusMinus(a.w, b.z, a.z, b.w, a.x, b.y, a.y, b.x),
         MinusAll(a.w, b.w, a.x, b.x, a.y, b.y, a.z, b.z))
  }

  function QuatMultiply(a: Quad, b: Quad, order: Order): Quad {
    ToOrder(Product(ToXyzw(a, order), ToXyzw(b, order)), order)
  }

  /** The vector turned by a unit quaternion, as the source expands it. */
  function Turn(q: Quat, v: Vec): Vec {
    var t := Scale(2.0, Cross(Axis(q), v));
    Add(Add(v, Scale(q.w, t)), Cross(Axis(q), t))
  }

  function QuatRotate(m: Maths, q: Quad, v: Vec, order: Order): Result<Vec> {
    var p := ToXyzw(q, order);
    var norm := m.sqrt(Norm2(p));
    if norm == 0.0 then Err(ZeroQuaternion) else Ok(Turn(Divided(p, norm), v))
  }

  datatype Transform = Transform(position: Vec, rotation: Quad)

  function ComposeTransform(m: Maths, parent: Transform, local: Transform, order: Order): Result<Transform> {
    var rotated :- QuatRotate(m, parent.rotation, local.position, order);
    Ok(Transform(Add(parent.position, rotated), QuatMultiply(parent.rotation, local.rotation, order)))
  }

  function InverseQuad(q: Quad, order: Order): Quad
    requires Norm2(ToXyzw(q, order)) != 0.0
  {
    ToOrder(Divided(Conjugate(ToXyzw(q, order)), Norm2(ToXyzw(q, order))), order)
  }

  function InverseTransform(m: Maths, t: Transform, order: Order): Result<Transform> {
    if Norm2(ToXyzw(t.rotation, order)) == 0.0 then Err(ZeroQuaternion)
    else
      var inverse := InverseQuad(t.rotation, order);
      var position :- QuatRotate(m, inverse, Negate(t.position), order);
      Ok(Transform(position, inverse))
  }

  /** The local transform that puts `world` below `parent`. */
  function RelativeTransform(m: Maths, parent: Transform, world: Transform, order: Order): Result<Transform> {
    var inverse :- InverseTransform(m, parent, order);
    ComposeTransform(m, inverse, world, order)
  }

  // ----- rotation without the root

  /** `v + a (u x v) + b (u x (u x v))`. */
  function Swing(u: Vec, a: real, b: real, v: Vec): Vec {
    Add(Add(v, Scale(a, Cross(u, v))), Scale(b, Cross(u, Cross(u, v))))
  }

  function Twice(k: real, w: real): real {
    2.0 * k * w
  }

  /** The rotation by a quaternion of squared length `1 / k`. */
  function Turned(q: Quat, k: real, v: Vec): Vec {
    Swing(Axis(q), Twice(k, q.w), Twice(k, 1.0), v)
  }

  lemma {:induction false} FirstScales(s: real, a: real, b: real, c: real, d: real, sa: real, sc: real)
    requires sa == s * a && sc == s * c
    ensures Minor(sa, b, sc, d) == s * Minor(a, b, c, d)
  {
    assert sa * b == s * (a * b) && sc * d == s * (c * d);
  }

  lemma {:induction false} SecondScales(s: real, a: real, b: real, c: real, d: real, sb: real, sd: real)
    requires sb == s * b && sd == s * d
    ensures Minor(a, sb, c, sd) == s * Minor(a, b, c, d)
  {
    assert a * sb == s * (a * b) && c * sd == s * (c * d);
  }

  lemma {:induction false} CrossScales(s: real, u: Vec, v: Vec)
    ensures Cross(Scale(s, u), v) == Scale(s, Cross(u, v))
    ensures Cross(u, Scale(s, v)) == Scale(s, Cross(u, v))
  {
    hide Minor;
    var su, sv := Scale(s, u), Scale(s, v);
    FirstScales(s, u.y, v.z, u.z, v.y, su.y, su.z);
    FirstScales(s, u.z, v.x, u.x, v.z, su.z, su.x);
    FirstScales(s, u.x, v.y, u.y, v.x, su.x, su.y);
    SecondScales(s, u.y, v.z, u.z, v.y, sv.z, sv.y);
    SecondScales(s, u.z, v.x, u.x, v.z, sv.x, sv.z);
    SecondScales(s, u.x, v.y, u.y, v.x, sv.y, sv.x);
  }

  lemma {:induction false} ScaleTwice(r: real, s: real, t: real, v: Vec)
    requires r * s == t
    ensures Scale(r, Scale(s, v)) == Scale(t, v)
  {
  }

  lemma {:induction false} ScaleAdd(s: real, u: Vec, v: Vec)
    ensures Scale(s, Add(u, v)) == Add(Scale(s, u), Scale(s, v))
  {
  }

  lemma {:induction false} CrossAdd(u: Vec, v: Vec, w: Vec)
    ensures Cross(u, Add(v, w)) == Add(Cross(u, v), Cross(u, w))
  {
    hide Minor;
    MinorAdds(u.y, v.z, u.z, v.y, w.z, w.y);
    MinorAdds(u.z, v.x, u.x, v.z, w.x, w.z);
    MinorAdds(u.x, v.y, u.y, v.x, w.y, w.x);
  }

  lemma {:induction false} MinorAdds(a: real, b: real, c: real, d: real, e: real, f: real)
    ensures Minor(a, b + e, c, d + f) == Minor(a, b, c, d) + Minor(a, e, c, f)
  {
  }

  lemma {:induction false} AddRegroups(a: Vec, b: Vec, c: Vec, d: Vec)
    ensures Add(Add(a, b), Add(c, d)) == Add(Add(a, c), Add(b, d))
    ensures Add(Add(a, b), c) == Add(a, Add(b, c))
  {
  }

  lemma {:induction false} TripleCross(u: Vec, v: Vec)
    ensures Cross(u, Cross(u, Cross(u, v))) == Scale(-Square(u), Cross(u, v))
  {
    hide Minor, Square, AreOrthogonal;
    var c := Cross(u, v);
    Orthogonal(u.x, u.y, u.z, v.x, v.y, v.z, c.x, c.y, c.z);
    var d, n := Cross(u, c), -Square(u);
    TurnsRound(u, c);
    Double(u.x, u.y, u.z, c.x, c.y, c.z, d.z, d.y, n);
    Double(u.y, u.z, u.x, c.y, c.z, c.x, d.x, d.z, n);
    Double(u.z, u.x, u.y, c.z, c.x, c.y, d.y, d.x, n);
  }

  predicate AreOrthogonal(a: real, b: real, c: real, x: real, y: real, z: real) {
    a * x + b * y + c * z == 0.0
  }

  lemma {:induction false} Orthogonal(a: real, b: real, c: real, x: real, y: real, z: real, i: real, j: real, k: real)
    requires i == Minor(b, z, c, y) && j == Minor(c, x, a, z) && k == Minor(a, y, b, x)
    ensures AreOrthogonal(a, b, c, i, j, k)
  {
    assert a * i == a * (b * z) - a * (c * y);
    assert b * j == b * (c * x) - b * (a * z);
    assert c * k == c * (a * y) - c * (b * x);
  }

  lemma {:induction false} TurnsRound(u: Vec, c: Vec)
    ensures Square(u) == Square(Vec(u.x, u.y, u.z)) == Square(Vec(u.y, u.z, u.x)) == Square(Vec(u.z, u.x, u.y))
    ensures AreOrthogonal(u.x, u.y, u.z, c.x, c.y, c.z) ==>
              AreOrthogonal(u.y, u.z, u.x, c.y, c.z, c.x) && AreOrthogonal(u.z, u.x, u.y, c.z, c.x, c.y)
  {
  }

  lemma {:induction false} Double(a: real, b: real, c: real, x: real, y: real, z: real, dz: real, dy: real, n: real)
    requires AreOrthogonal(a, b, c, x, y, z)
    requires dz == Minor(a, y, b, x) && dy == Minor(c, x, a, z) && n == -Square(Vec(a, b, c))
    ensures Minor(b, dz, c, dy) == n * x
  {
    assert b * dz == a * (b * y) - b * b * x;
    assert c * dy == c * c * x - a * (c * z);
    assert a * (b * y) + a * (c * z) == a * (a * x + b * y + c * z) - a * a * x;
    assert a * (a * x + b * y + c * z) == 0.0;
    assert n * x == -(a * a * x + b * b * x + c * c * x);
  }

  lemma {:induction false} AxisOfMultiple(s: real, q: Quat)
    ensures Axis(Multiple(s, q)) == Scale(s, Axis(q))
  {
  }

  lemma {:induction false} TurnOfMultiple(q: Quat, s: real, k: real, v: Vec)
    requires s * s == k
    ensures Turn(Multiple(s, q), v) == Turned(q, k, v)
  {
    var p := Multiple(s, q);
    var u, c := Axis(q), Cross(Axis(q), v);
    var w, a, b, s2 := p.w, Twice(k, q.w), Twice(k, 1.0), 2.0 * s;
    assert w * s2 == a && s * s2 == b;
    AxisOfMultiple(s, q);
    CrossScales(s, u, v);
    ScaleTwice(2.0, s, s2, c);
    ScaleTwice(w, s2, a, c);
    CrossScales(s, u, Scale(s2, c));
    CrossScales(s2, u, c);
    ScaleTwice(s, s2, b, Cross(u, c));
  }

  lemma {:induction false} DividedIsMultiple(q: Quat, n: real)
    requires n != 0.0
    ensures Divided(q, n) == Multiple(1.0 / n, q)
  {
  }

  lemma {:induction false} Norm2IsNonnegative(q: Quat)
    ensures Norm2(q) >= 0.0
  {
  }

  /** Whatever the root, the rotation is the rational one; only the zero quaternion is refused. */
  lemma {:induction false} RotateIsRational(m: Maths, q: Quad, v: Vec, order: Order)
    requires Sound(m)
    ensures var p := ToXyzw(q, order);
            QuatRotate(m, q, v, order)
            == if Norm2(p) == 0.0 then Err(ZeroQuaternion) else Ok(Turned(p, 1.0 / Norm2(p), v))
  {
    hide Turn, Turned, Norm2;
    var p := ToXyzw(q, order);
    Norm2IsNonnegative(p);
    var r := m.sqrt(Norm2(p));
    assert r * r == Norm2(p);
    if Norm2(p) != 0.0 {
      DividedIsMultiple(p, r);
      TurnOfMultiple(p, 1.0 / r, 1.0 / Norm2(p), v);
    }
  }

  // ----- the inverse rotation

  lemma {:induction false} SwingAdd(u: Vec, a: real, b: real, v: Vec, w: Vec)
    ensures Swing(u, a, b, Add(v, w)) == Add(Swing(u, a, b, v), Swing(u, a, b, w))
  {
    hide Cross, Scale, Add;
    var c, d := Cross(u, v), Cross(u, w);
    CrossAdd(u, v, w);
    CrossAdd(u, c, d);
    ScaleAdd(a, c, d);
    ScaleAdd(b, Cross(u, c), Cross(u, d));
    AddRegroups(v, w, Scale(a, c), Scale(a, d));
    AddRegroups(Add(v, Scale(a, c)), Add(w, Scale(a, d)), Scale(b, Cross(u, c)), Scale(b, Cross(u, d)));
  }

  lemma {:induction false} CrossSwing(u: Vec, a: real, b: real, v: Vec)
    ensures Cross(u, Swing(u, a, b, v)) == Swing(u, a, b, Cross(u, v))
  {
    hide Cross, Scale, Add;
    var c := Cross(u, v);
    CrossAdd(u, Add(v, Scale(a, c)), Scale(b, Cross(u, c)));
    CrossAdd(u, v, Scale(a, c));
    CrossScales(a, u, c);
    CrossScales(b, u, Cross(u, c));
  }

  /** Turning back and turning is nothing, when `k` is the reciprocal of the squared length. */
  lemma {:induction false} SwingBack(u: Vec, w: real, k: real, a: real, la: real, b: real, v: Vec)
    requires k * (Square(u) + w * w) == 1.0 && a == Twice(k, w) && la == -a && b == Twice(k, 1.0)
    ensures Swing(u, a, b, Swing(u, la, b, v)) == v
  {
    hide Cross, Square, Swing, Scale;
    var c := Cross(u, v);
    var d := Cross(u, c);
    var n := Square(u);
    var ln := -n;
    var back := Swing(u, la, b, v);
    CrossSwing(u, la, b, v);
    CrossSwing(u, la, b, c);
    TripleCross(u, v);
    CrossScales(ln, u, c);
    var e, f, lc, ld := Swing(u, la, b, c), Swing(u, la, b, d), Scale(ln, c), Scale(ln, d);
    SwingAt(u, la, b, v, c, d);
    SwingAt(u, la, b, c, d, lc);
    SwingAt(u, la, b, d, lc, ld);
    SwingAt(u, a, b, back, e, f);
    AllCancel(k, w, n, a, b, la, ln, v, c, d, lc, ld, back, e, f);
  }

  predicate Coefficients(k: real, w: real, n: real, a: real, b: real, la: real, ln: real) {
    k * (n + w * w) == 1.0 && a == Twice(k, w) && b == Twice(k, 1.0) && la == -a && ln == -n
  }

  predicate Combines(r: Vec, v: Vec, a: real, c: Vec, b: real, d: Vec) {
    && Part(r.x, v.x, a, c.x, b, d.x)
    && Part(r.y, v.y, a, c.y, b, d.y)
    && Part(r.z, v.z, a, c.z, b, d.z)
  }

  predicate Part(r: real, v: real, a: real, c: real, b: real, d: real) {
    r == v + a * c + b * d
  }

  lemma {:induction false} AllCancel(k: real, w: real, n: real, a: real, b: real, la: real, ln: real, v: Vec, c: Vec,
                                     d: Vec, lc: Vec, ld: Vec, back: Vec, e: Vec, f: Vec)
    requires Coefficients(k, w, n, a, b, la, ln)
    requires lc == Scale(ln, c) && ld == Scale(ln, d)
    requires Combines(back, v, la, c, b, d) && Combines(e, c, la, d, b, lc) && Combines(f, d, la, lc, b, ld)
    ensures Combines(v, back, a, e, b, f)
  {
    hide Coefficients, Part;
    Cancels(k, w, n, a, b, la, ln, v.x, c.x, d.x, lc.x, ld.x, back.x, e.x, f.x);
    Cancels(k, w, n, a, b, la, ln, v.y, c.y, d.y, lc.y, ld.y, back.y, e.y, f.y);
    Cancels(k, w, n, a, b, la, ln, v.z, c.z, d.z, lc.z, ld.z, back.z, e.z, f.z);
  }

  lemma {:induction false} Cancels(k: real, w: real, n: real, a: real, b: real, la: real, ln: real, v: real, c: real,
                                   d: real, lc: real, ld: real, back: real, e: real, f: real)
    requires Coefficients(k, w, n, a, b, la, ln)
    requires lc == ln * c && ld == ln * d
    requires Part(back, v, la, c, b, d) && Part(e, c, la, d, b, lc) && Part(f, d, la, lc, b, ld)
    ensures Part(v, back, a, e, b, f)
  {
    assert b + b - a * a - b * b * n == 0.0 by {
      assert a * a + b * b * n == 4.0 * k * (k * (n + w * w));
    }
    assert d * (b + b - a * a - b * b * n) == 0.0;
  }

  lemma {:induction false} SwingAt(u: Vec, a: real, b: real, v: Vec, c: Vec, d: Vec)
    requires c == Cross(u, v) && d == Cross(u, c)
    ensures Combines(Swing(u, a, b, v), v, a, c, b, d)
  {
    hide Cross;
  }

  lemma {:induction false} SwingOfOpposite(u: Vec, a: real, b: real, v: Vec)
    ensures Swing(Scale(-1.0, u), a, b, v) == Swing(u, -a, b, v)
  {
    var c := Cross(u, v);
    var d := Cross(u, c);
    CrossScales(-1.0, u, v);
    CrossScales(-1.0, u, Scale(-1.0, c));
    CrossScales(-1.0, u, c);
    ScaleTwice(-1.0, -1.0, 1.0, d);
    ScaleTwice(a, -1.0, -a, c);
    ScaleTwice(b, 1.0, b, d);
  }

  lemma {:induction false} AxisOfConjugate(q: Quat)
    ensures Axis(Conjugate(q)) == Scale(-1.0, Axis(q))
  {
  }

  lemma {:induction false} NormSplits(q: Quat)
    ensures Norm2(q) == Square(Axis(q)) + q.w * q.w
  {
    var u := Axis(q);
    assert u.x == q.x && u.y == q.y && u.z == q.z;
  }

  /** A vector turned by the conjugate and then by the quaternion. */
  lemma {:induction false} TurnedBack(q: Quat, k: real, v: Vec)
    requires k * Norm2(q) == 1.0
    ensures Turned(q, k, Turned(Conjugate(q), k, v)) == v
  {
    hide Swing, Scale, Square, Norm2, Twice;
    var u, a, b := Axis(q), Twice(k, q.w), Twice(k, 1.0);
    AxisOfConjugate(q);
    SwingOfOpposite(u, a, b, v);
    NormSplits(q);
    SwingBack(u, q.w, k, a, -a, b, v);
  }

  /** Scaling the quaternion does not change its rotation. */
  lemma {:induction false} TurnedOfMultiple(q: Quat, s: real, l: real, k: real, v: Vec)
    requires l * s * s == k
    ensures Turned(Multiple(s, q), l, v) == Turned(q, k, v)
  {
    hide Cross, Scale;
    var p := Multiple(s, q);
    var u, c := Axis(q), Cross(Axis(q), v);
    var a, b, la, lb := Twice(k, q.w), Twice(k, 1.0), Twice(l, p.w), Twice(l, 1.0);
    AxisOfMultiple(s, q);
    CrossScales(s, u, v);
    CrossScales(s, u, Scale(s, c));
    CrossScales(s, u, c);
    assert la * s == a by {
      assert 2.0 * l * (s * q.w) * s == 2.0 * (l * s * s) * q.w;
    }
    ScaleTwice(la, s, a, c);
    ScaleTwice(s, s, s * s, Cross(u, c));
    assert lb * (s * s) == b;
    ScaleTwice(lb, s * s, b, Cross(u, c));
  }

  // ----- products

  lemma {:induction false} ProductBack(q: Quat, p: Quat)
    ensures Product(q, Product(Conjugate(q), p)) == Multiple(Norm2(q), p)
  {
    hide PlusMinus, MinusAll, Norm2, Product, Multiple;
    BackX(q, p);
    BackY(q, p);
    BackZ(q, p);
    BackW(q, p);
  }

  lemma {:induction false} BackX(q: Quat, p: Quat)
    ensures Product(q, Product(Conjugate(q), p)).x == Multiple(Norm2(q), p).x
  {
    hide PlusMinus, MinusAll, Norm2;
    var r := Product(Conjugate(q), p);
    BackTerm(q.x, q.y, q.z, q.w, p.x, p.y, p.z, p.w, r.x, r.y, r.z, r.w, Norm2(q), -q.x, -q.y, -q.z);
  }

  lemma {:induction false} BackY(q: Quat, p: Quat)
    ensures Product(q, Product(Conjugate(q), p)).y == Multiple(Norm2(q), p).y
  {
    hide PlusMinus, MinusAll, Norm2;
    var r := Product(Conjugate(q), p);
    RoundTurn(q, p);
    BackTerm(q.y, q.z, q.x, q.w, p.y, p.z, p.x, p.w, r.y, r.z, r.x, r.w, Norm2(q), -q.y, -q.z, -q.x);
  }

  lemma {:induction false} BackZ(q: Quat, p: Quat)
    ensures Product(q, Product(Conjugate(q), p)).z == Multiple(Norm2(q), p).z
  {
    hide PlusMinus, MinusAll, Norm2;
    var r := Product(Conjugate(q), p);
    RoundTurn(q, p);
    BackTerm(q.z, q.x, q.y, q.w, p.z, p.x, p.y, p.w, r.z, r.x, r.y, r.w, Norm2(q), -q.z, -q.x, -q.y);
  }

  lemma {:induction false} RoundTurn(q: Quat, p: Quat)
    ensures Norm2(q) == Norm2(Quat(q.y, q.z, q.x, q.w)) == Norm2(Quat(q.z, q.x, q.y, q.w))
    ensures var c := Conjugate(q);
            MinusAll(c.w, p.w, c.x, p.x, c.y, p.y, c.z, p.z) == MinusAll(c.w, p.w, c.y, p.y, c.z, p.z, c.x, p.x)
            == MinusAll(c.w, p.w, c.z, p.z, c.x, p.x, c.y, p.y)
  {
  }

  /** One component of the conjugate's product, brought back; `u`, `v` and `t` are the conjugate's vector part. */
  lemma {:induction false} BackTerm(x: real, y: real, z: real, w: real, a: real, b: real, c: real, d: real,
                                    i: real, j: real, k: real, l: real, n: real, u: real, v: real, t: real)
    requires n == Norm2(Quat(x, y, z, w)) && u == -x && v == -y && t == -z
    requires i == PlusMinus(w, a, u, d, v, c, t, b) && j == PlusMinus(w, b, v, d, t, a, u, c)
    requires k == PlusMinus(w, c, t, d, u, b, v, a) && l == MinusAll(w, d, u, a, v, b, t, c)
    ensures PlusMinus(w, i, x, l, y, k, z, j) == n * a
  {
    assert w * i == w * w * a - w * x * d - w * y * c + w * z * b;
    assert x * l == x * w * d + x * x * a + x * y * b + x * z * c;
    assert y * k == y * w * c - y * z * d - y * x * b + y * y * a;
    assert z * j == z * w * b - z * y * d - z * z * a + z * x * c;
  }

  lemma {:induction false} BackW(q: Quat, p: Quat)
    ensures Product(q, Product(Conjugate(q), p)).w == Multiple(Norm2(q), p).w
  {
    hide PlusMinus, MinusAll, Norm2;
    var r := Product(Conjugate(q), p);
    BackScalar(q.x, q.y, q.z, q.w, p.x, p.y, p.z, p.w, r.x, r.y, r.z, r.w, Norm2(q), -q.x, -q.y, -q.z);
  }

  lemma {:induction false} BackScalar(x: real, y: real, z: real, w: real, a: real, b: real, c: real, d: real,
                                      i: real, j: real, k: real, l: real, n: real, u: real, v: real, t: real)
    requires n == Norm2(Quat(x, y, z, w)) && u == -x && v == -y && t == -z
    requires i == PlusMinus(w, a, u, d, v, c, t, b) && j == PlusMinus(w, b, v, d, t, a, u, c)
    requires k == PlusMinus(w, c, t, d, u, b, v, a) && l == MinusAll(w, d, u, a, v, b, t, c)
    ensures MinusAll(w, l, x, i, y, j, z, k) == n * d
  {
    assert w * l == w * w * d + w * x * a + w * y * b + w * z * c;
    assert x * i == x * w * a - x * x * d - x * y * c + x * z * b;
    assert y * j == y * w * b - y * y * d - y * z * a + y * x * c;
    assert z * k == z * w * c - z * z * d - z * x * b + z * y * a;
  }

  lemma {:induction false} ProductOfMultiple(s: real, p: Quat, q: Quat)
    ensures Product(p, Multiple(s, q)) == Multiple(s, Product(p, q))
  {
    hide PlusMinus, MinusAll;
    var r := Multiple(s, q);
    RightTerms(s, p.w, q.x, p.x, q.w, p.y, q.z, p.z, q.y, r.x, r.w, r.z, r.y);
    RightTerms(s, p.w, q.y, p.y, q.w, p.z, q.x, p.x, q.z, r.y, r.w, r.x, r.z);
    RightTerms(s, p.w, q.z, p.z, q.w, p.x, q.y, p.y, q.x, r.z, r.w, r.y, r.x);
    RightTerms(s, p.w, q.w, p.x, q.x, p.y, q.y, p.z, q.z, r.w, r.x, r.y, r.z);
  }

  lemma {:induction false} MultipleOfProduct(s: real, p: Quat, q: Quat)
    ensures Product(Multiple(s, p), q) == Multiple(s, Product(p, q))
  {
    hide PlusMinus, MinusAll;
    var r := Multiple(s, p);
    LeftTerms(s, p.w, q.x, p.x, q.w, p.y, q.z, p.z, q.y, r.w, r.x, r.y, r.z);
    LeftTerms(s, p.w, q.y, p.y, q.w, p.z, q.x, p.x, q.z, r.w, r.y, r.z, r.x);
    LeftTerms(s, p.w, q.z, p.z, q.w, p.x, q.y, p.y, q.x, r.w, r.z, r.x, r.y);
    LeftTerms(s, p.w, q.w, p.x, q.x, p.y, q.y, p.z, q.z, r.w, r.x, r.y, r.z);
  }

  lemma {:induction false} LeftTerms(s: real, a: real, i: real, b: real, j: real, c: real, k: real, d: real, l: real,
                                     sa: real, sb: real, sc: real, sd: real)
    requires sa == s * a && sb == s * b && sc == s * c && sd == s * d
    ensures PlusMinus(sa, i, sb, j, sc, k, sd, l) == s * PlusMinus(a, i, b, j, c, k, d, l)
    ensures MinusAll(sa, i, sb, j, sc, k, sd, l) == s * MinusAll(a, i, b, j, c, k, d, l)
  {
    assert sa * i == s * (a * i) && sb * j == s * (b * j) && sc * k == s * (c * k) && sd * l == s * (d * l);
  }

  lemma {:induction false} RightTerms(s: real, a: real, i: real, b: real, j: real, c: real, k: real, d: real, l: real,
                                      si: real, sj: real, sk: real, sl: real)
    requires si == s * i && sj == s * j && sk == s * k && sl == s * l
    ensures PlusMinus(a, si, b, sj, c, sk, d, sl) == s * PlusMinus(a, i, b, j, c, k, d, l)
    ensures MinusAll(a, si, b, sj, c, sk, d, sl) == s * MinusAll(a, i, b, j, c, k, d, l)
  {
    assert a * si == s * (a * i) && b * sj == s * (b * j) && c * sk == s * (c * k) && d * sl == s * (d * l);
  }

  lemma {:induction false} Norm2OfMultiple(s: real, q: Quat)
    ensures Norm2(Multiple(s, q)) == s * s * Norm2(q)
  {
  }

  lemma {:induction false} Norm2OfProduct(p: Quat, q: Quat)
    ensures Norm2(Product(p, q)) == Norm2(p) * Norm2(q)
  {
    hide PlusMinus, MinusAll, Norm2;
    var r := Product(p, q);
    FourSquares(p.x, p.y, p.z, p.w, q.x, q.y, q.z, q.w, r.x, r.y, r.z, r.w);
    assert r == Quat(r.x, r.y, r.z, r.w) && p == Quat(p.x, p.y, p.z, p.w) && q == Quat(q.x, q.y, q.z, q.w);
  }

  /** The product of two sums of four squares (Euler's identity). */
  lemma {:induction false} FourSquares(a: real, b: real, c: real, d: real, e: real, f: real, g: real, h: real,
                                       x: real, y: real, z: real, w: real)
    requires x == PlusMinus(d, e, a, h, b, g, c, f) && y == PlusMinus(d, f, b, h, c, e, a, g)
    requires z == PlusMinus(d, g, c, h, a, f, b, e) && w == MinusAll(d, h, a, e, b, f, c, g)
    ensures Norm2(Quat(x, y, z, w)) == Norm2(Quat(a, b, c, d)) * Norm2(Quat(e, f, g, h))
  {
    hide Norm2, PlusMinus, MinusAll;
    Written(d, e, a, h, b, g, c, f);
    Written(d, f, b, h, c, e, a, g);
    Written(d, g, c, h, a, f, b, e);
    Written(d, h, a, e, b, f, c, g);
    Euler(a, b, c, d, e, f, g, h);
  }

  lemma {:induction false} Written(a: real, i: real, b: real, j: real, c: real, k: real, d: real, l: real)
    ensures PlusMinus(a, i, b, j, c, k, d, l) == a * i + b * j + c * k - d * l
    ensures MinusAll(a, i, b, j, c, k, d, l) == a * i - b * j - c * k - d * l
  {
  }

  lemma {:induction false} Swapped(p: real, q: real, r: real, s: real, pq: real, rs: real, ps: real, rq: real)
    requires pq == p * q && rs == r * s && ps == p * s && rq == r * q
    ensures pq * rs == ps * rq
  {
    assert pq * rs == p * q * (r * s) == p * s * (r * q) == ps * rq;
  }

  /** The mixed terms of the four squares cancel. */
  lemma {:induction false} Crossing(ae: real, af: real, ag: real, ah: real, be: real, bf: real, bg: real, bh: real,
                                    ce: real, cf: real, cg: real, ch: real, de: real, df: real, dg: real, dh: real)
    requires de * ah == dh * ae && de * bg == dg * be && ah * bg == ag * bh
    requires de * cf == df * ce && ah * cf == af * ch && bg * cf == bf * cg
    requires df * bh == dh * bf && bh * ce == be * ch && df * ag == dg * af
    requires ag * ce == ae * cg && dg * ch == dh * cg && af * be == ae * bf
    ensures Norm2(Quat(de + ah + bg - cf, df + bh + ce - ag, dg + ch + af - be, dh - ae - bf - cg))
         == Norm2(Quat(ae, af, ag, ah)) + Norm2(Quat(be, bf, bg, bh))
          + Norm2(Quat(ce, cf, cg, ch)) + Norm2(Quat(de, df, dg, dh))
  {
    SquareOfFour(de, ah, bg, -cf);
    SquareOfFour(df, bh, ce, -ag);
    SquareOfFour(dg, ch, af, -be);
    SquareOfFour(dh, -ae, -bf, -cg);
  }

  lemma {:induction false} SquareOfFour(p: real, q: real, r: real, s: real)
    ensures (p + q + r + s) * (p + q + r + s)
         == p * p + q * q + r * r + s * s + 2.0 * (p * q + p * r + p * s + q * r + q * s + r * s)
  {
    var t := p + q + r + s;
    assert t * t == p * t + q * t + r * t + s * t;
    assert p * t == p * p + p * q + p * r + p * s;
    assert q * t == q * p + q * q + q * r + q * s;
    assert r * t == r * p + r * q + r * r + r * s;
    assert s * t == s * p + s * q + s * r + s * s;
  }

  lemma {:induction false} Row(a: real, e: real, f: real, g: real, h: real, ae: real, af: real, ag: real, ah: real,
                               p: real, n: real)
    requires ae == a * e && af == a * f && ag == a * g && ah == a * h
    requires p == a * a && n == e * e + f * f + g * g + h * h
    ensures Norm2(Quat(ae, af, ag, ah)) == p * n
  {
    SquareOfProduct(a, e, ae, p);
    SquareOfProduct(a, f, af, p);
    SquareOfProduct(a, g, ag, p);
    SquareOfProduct(a, h, ah, p);
    assert p * n == p * (e * e) + p * (f * f) + p * (g * g) + p * (h * h);
  }

  lemma {:induction false} SquareOfProduct(a: real, e: real, ae: real, p: real)
    requires ae == a * e && p == a * a
    ensures ae * ae == p * (e * e)
  {
    assert ae * ae == a * e * (a * e) == a * a * (e * e);
  }

  lemma {:induction false} Gathered(p: real, q: real, r: real, s: real, m: real, n: real,
                                    pn: real, qn: real, rn: real, sn: real)
    requires m == p + q + r + s && pn == p * n && qn == q * n && rn == r * n && sn == s * n
    ensures pn + qn + rn + sn == m * n
  {
    assert m * n == p * n + q * n + r * n + s * n;
  }

  lemma {:induction false} Euler(a: real, b: real, c: real, d: real, e: real, f: real, g: real, h: real)
    ensures Norm2(Quat(d * e + a * h + b * g - c * f, d * f + b * h + c * e - a * g,
                       d * g + c * h + a * f - b * e, d * h - a * e - b * f - c * g))
         == Norm2(Quat(a, b, c, d)) * Norm2(Quat(e, f, g, h))
  {
    hide Norm2;
    Length(a, b, c, d);
    Length(e, f, g, h);
    EulerTerms(a, b, c, d, e, f, g, h, a * e, a * f, a * g, a * h, b * e, b * f, b * g, b * h,
               c * e, c * f, c * g, c * h, d * e, d * f, d * g, d * h,
               Norm2(Quat(a, b, c, d)), Norm2(Quat(e, f, g, h)));
  }

  lemma {:induction false} Length(x: real, y: real, z: real, w: real)
    ensures Norm2(Quat(x, y, z, w)) == x * x + y * y + z * z + w * w
  {
  }

  /** Euler's identity over its sixteen products and the two lengths. */
  lemma {:induction false} EulerTerms(a: real, b: real, c: real, d: real, e: real, f: real, g: real, h: real,
                                      ae: real, af: real, ag: real, ah: real, be: real, bf: real, bg: real, bh: real,
                                      ce: real, cf: real, cg: real, ch: real, de: real, df: real, dg: real, dh: real,
                                      m: real, n: real)
    requires ae == a * e && af == a * f && ag == a * g && ah == a * h
    requires be == b * e && bf == b * f && bg == b * g && bh == b * h
    requires ce == c * e && cf == c * f && cg == c * g && ch == c * h
    requires de == d * e && df == d * f && dg == d * g && dh == d * h
    requires m == a * a + b * b + c * c + d * d && n == e * e + f * f + g * g + h * h
    ensures Norm2(Quat(de + ah + bg - cf, df + bh + ce - ag, dg + ch + af - be, dh - ae - bf - cg)) == m * n
  {
    hide Norm2;
    Swapped(d, e, a, h, de, ah, dh, ae);
    Swapped(d, e, b, g, de, bg, dg, be);
    Swapped(a, h, b, g, ah, bg, ag, bh);
    Swapped(d, e, c, f, de, cf, df, ce);
    Swapped(a, h, c, f, ah, cf, af, ch);
    Swapped(b, g, c, f, bg, cf, bf, cg);
    Swapped(d, f, b, h, df, bh, dh, bf);
    Swapped(b, h, c, e, bh, ce, be, ch);
    Swapped(d, f, a, g, df, ag, dg, af);
    Swapped(a, g, c, e, ag, ce, ae, cg);
    Swapped(d, g, c, h, dg, ch, dh, cg);
    Swapped(a, f, b, e, af, be, ae, bf);
    Crossing(ae, af, ag, ah, be, bf, bg, bh, ce, cf, cg, ch, de, df, dg, dh);
    var p, q, r, s := a * a, b * b, c * c, d * d;
    Row(a, e, f, g, h, ae, af, ag, ah, p, n);
    Row(b, e, f, g, h, be, bf, bg, bh, q, n);
    Row(c, e, f, g, h, ce, cf, cg, ch, r, n);
    Row(d, e, f, g, h, de, df, dg, dh, s, n);
    Gathered(p, q, r, s, m, n, Norm2(Quat(ae, af, ag, ah)), Norm2(Quat(be, bf, bg, bh)),
             Norm2(Quat(ce, cf, cg, ch)), Norm2(Quat(de, df, dg, dh)));
  }

  // ----- transforms

  lemma {:induction false} Reciprocal(n: real, k: real)
    requires n != 0.0 && k == 1.0 / n
    ensures k * n == 1.0 && k != 0.0 && k * k * n == k && n * k * k == k && 1.0 / k == n
  {
    assert k * n == 1.0;
    assert k * k * n == k * (k * n);
    assert (1.0 / k) * k == 1.0;
    assert 1.0 / k == (1.0 / k) * (k * n) == ((1.0 / k) * k) * n;
  }

  lemma {:induction false} MultipleTwice(r: real, s: real, q: Quat)
    requires r * s == 1.0
    ensures Multiple(r, Multiple(s, q)) == q
  {
  }

  /** The inverse rotation is the rotation by the conjugate. */
  lemma {:induction false} InverseRotates(m: Maths, q: Quad, v: Vec, order: Order)
    requires Sound(m) && Norm2(ToXyzw(q, order)) != 0.0
    ensures var p := ToXyzw(q, order);
            && ToXyzw(InverseQuad(q, order), order) == Multiple(1.0 / Norm2(p), Conjugate(p))
            && QuatRotate(m, InverseQuad(q, order), v, order) == Ok(Turned(Conjugate(p), 1.0 / Norm2(p), v))
  {
    hide Turned, Norm2, QuatRotate, Multiple, Divided;
    var p := ToXyzw(q, order);
    var n := Norm2(p);
    var k := 1.0 / n;
    DividedIsMultiple(Conjugate(p), n);
    Norm2OfConjugate(p);
    Norm2OfMultiple(k, Conjugate(p));
    Reciprocal(n, k);
    var i := Multiple(k, Conjugate(p));
    assert Norm2(i) == k;
    RotateIsRational(m, InverseQuad(q, order), v, order);
    TurnedOfMultiple(Conjugate(p), k, n, k, v);
  }

  lemma {:induction false} Norm2OfConjugate(q: Quat)
    ensures Norm2(Conjugate(q)) == Norm2(q)
    ensures Conjugate(Conjugate(q)) == q
  {
  }

  lemma {:induction false} TurnedAdd(q: Quat, k: real, v: Vec, w: Vec)
    ensures Turned(q, k, Add(v, w)) == Add(Turned(q, k, v), Turned(q, k, w))
  {
    hide Swing, Add;
    SwingAdd(Axis(q), Twice(k, q.w), Twice(k, 1.0), v, w);
  }

  /** What `relative_transform` computes, without roots. */
  lemma {:induction false} RelativeIs(m: Maths, parent: Transform, world: Transform, order: Order)
    requires Sound(m)
    ensures var q := ToXyzw(parent.rotation, order);
            var k := if Norm2(q) == 0.0 then 0.0 else 1.0 / Norm2(q);
            var c := Conjugate(q);
            RelativeTransform(m, parent, world, order)
            == if Norm2(q) == 0.0 then Err(ZeroQuaternion)
               else Ok(Transform(
                   Turned(c, k, Add(Negate(parent.position), world.position)),
                   ToOrder(Multiple(k, Product(c, ToXyzw(world.rotation, order))), order)))
  {
    hide Turned, Norm2, QuatRotate, Multiple, Product, Conjugate, InverseQuad;
    var q := ToXyzw(parent.rotation, order);
    if Norm2(q) != 0.0 {
      var k := 1.0 / Norm2(q);
      InverseRotates(m, parent.rotation, Negate(parent.position), order);
      InverseRotates(m, parent.rotation, world.position, order);
      TurnedAdd(Conjugate(q), k, Negate(parent.position), world.position);
      MultipleOfProduct(k, Conjugate(q), ToXyzw(world.rotation, order));
    }
  }

  /** Composing the parent with the relative transform gives the world transform back; only a zero parent is refused. */
  lemma {:induction false} ComposeRelative(m: Maths, parent: Transform, world: Transform, order: Order)
    requires Sound(m)
    ensures Norm2(ToXyzw(parent.rotation, order)) == 0.0
      ==> RelativeTransform(m, parent, world, order) == Err(ZeroQuaternion)
    ensures Norm2(ToXyzw(parent.rotation, order)) != 0.0 ==>
              && RelativeTransform(m, parent, world, order).Ok?
              && ComposeTransform(m, parent, RelativeTransform(m, parent, world, order).value, order) == Ok(world)
  {
    hide Turned, Norm2, QuatRotate, RelativeTransform, Multiple, Product, Conjugate;
    var q, w := ToXyzw(parent.rotation, order), ToXyzw(world.rotation, order);
    RelativeIs(m, parent, world, order);
    if Norm2(q) != 0.0 {
      var k := 1.0 / Norm2(q);
      Reciprocal(Norm2(q), k);
      var local := RelativeTransform(m, parent, world, order).value;
      RotateIsRational(m, parent.rotation, local.position, order);
      var step := Add(Negate(parent.position), world.position);
      TurnedBack(q, k, step);
      ProductOfMultiple(k, q, Product(Conjugate(q), w));
      ProductBack(q, w);
      MultipleTwice(k, Norm2(q), w);
    }
  }

  /** The relative transform of a composition is the local transform. */
  lemma {:induction false} RelativeCompose(m: Maths, parent: Transform, local: Transform, order: Order)
    requires Sound(m) && Norm2(ToXyzw(parent.rotation, order)) != 0.0
    ensures ComposeTransform(m, parent, local, order).Ok?
    ensures RelativeTransform(m, parent, ComposeTransform(m, parent, local, order).value, order) == Ok(local)
  {
    hide Turned, Norm2, QuatRotate, RelativeTransform, Multiple, Product, Conjugate;
    var q, l := ToXyzw(parent.rotation, order), ToXyzw(local.rotation, order);
    var k := 1.0 / Norm2(q);
    Reciprocal(Norm2(q), k);
    RotateIsRational(m, parent.rotation, local.position, order);
    var world := ComposeTransform(m, parent, local, order).value;
    RelativeIs(m, parent, world, order);
    Norm2OfConjugate(q);
    TurnedBack(Conjugate(q), k, local.position);
    ProductBack(Conjugate(q), l);
    MultipleTwice(k, Norm2(q), l);
  }
}
