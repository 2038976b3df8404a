/** What sampling means between the keys (tools/compose_infantry_animation.py:153-199, 517-543): positions move in
    proportion to time, rotations turn evenly. */
module Samples {
  import opened Outcome
  import opened Rigid
  import opened Channels
  import opened Rotations

  // ----- positions

  /** The last key before time `t` is the one before `k`. */
  ghost predicate Reaches(keys: seq<Key>, k: nat, t: real) {
    k < |keys| && t <= keys[k][0] && forall i :: 0 <= i < k ==> keys[i][0] < t
  }

  lemma {:induction false} ScanReaches(m: Maths, keys: seq<Key>, k: nat, t: real, rotation: bool, order: Order)
    requires 0 < k && WellFormed(keys, rotation) && Reaches(keys, k, t)
    ensures Scan(m, keys, t, rotation, order) == Between(m, keys[k - 1], keys[k], t, rotation, order)
    decreases k
  {
    hide Between;
    if k > 1 {
      assert keys[1][0] < t;
      ScanReaches(m, keys[1..], k - 1, t, rotation, order);
    }
  }

  lemma {:induction false} ScanPasses(m: Maths, keys: seq<Key>, t: real, rotation: bool, order: Order)
    requires keys != [] && WellFormed(keys, rotation) && forall i :: 0 <= i < |keys| ==> keys[i][0] < t
    ensures Scan(m, keys, t, rotation, order) == Ok(keys[|keys| - 1][1..])
    decreases |keys|
  {
    if |keys| > 1 {
      assert keys[1][0] < t;
      ScanPasses(m, keys[1..], t, rotation, order);
    }
  }

  lemma {:induction false} Fraction(u: real, n: real)
    requires 0.0 <= u <= n && n > 0.0
    ensures 0.0 <= u / n <= 1.0 && (u / n) * n == u
  {
    var f := u / n;
    assert f * n == u;
    InUnit(f, n, u);
  }

  lemma {:induction false} InUnit(f: real, n: real, u: real)
    requires f * n == u && 0.0 <= u <= n && n > 0.0
    ensures 0.0 <= f <= 1.0
  {
  }

  lemma {:induction false} Along(a: real, b: real, f: real, n: real, u: real)
    requires f * n == u
    ensures (a + (b - a) * f - a) * n == (b - a) * u
  {
    assert (b - a) * f * n == (b - a) * (f * n);
  }

  /** Between two keys every component has moved by the part of its way that is the part of the time gone; before the
      first key and past the last one the sample is that key. */
  lemma {:induction false} PositionsAreLinear(m: Maths, keys: seq<Key>, t: real, order: Order)
    requires keys != [] && forall i :: 0 <= i < |keys| ==> |keys[i]| == |keys[0]| >= 2
    ensures var r := Sample(m, keys, t, false, order);
      && (t <= keys[0][0] ==> r == Ok(Some(keys[0][1..])))
      && ((forall i :: 0 <= i < |keys| ==> keys[i][0] < t) ==> r == Ok(Some(keys[|keys| - 1][1..])))
      && forall k {:trigger Reaches(keys, k, t)} :: 0 < k && Reaches(keys, k, t) ==>
          && r.Ok? && r.value.Some? && |r.value.value| == |keys[0]| - 1
          && forall i :: 0 <= i < |keys[0]| - 1 ==>
              (r.value.value[i] - keys[k - 1][1 + i]) * (keys[k][0] - keys[k - 1][0])
              == (keys[k][1 + i] - keys[k - 1][1 + i]) * (t - keys[k - 1][0])
  {
    hide Scan;
    assert WellFormed(keys, false);
    if forall i :: 0 <= i < |keys| ==> keys[i][0] < t {
      ScanPasses(m, keys, t, false, order);
    }
    forall k | 0 < k && Reaches(keys, k, t)
      ensures var r := Sample(m, keys, t, false, order);
        && r.Ok? && r.value.Some? && |r.value.value| == |keys[0]| - 1
        && forall i :: 0 <= i < |keys[0]| - 1 ==>
            (r.value.value[i] - keys[k - 1][1 + i]) * (keys[k][0] - keys[k - 1][0])
            == (keys[k][1 + i] - keys[k - 1][1 + i]) * (t - keys[k - 1][0])
    {
      ScanReaches(m, keys, k, t, false, order);
      LerpIsLinear(m, keys[k - 1], keys[k], t, order);
    }
  }

  lemma {:induction false} LerpIsLinear(m: Maths, left: Key, right: Key, t: real, order: Order)
    requires |left| == |right| && left[0] < t <= right[0]
    ensures var r := Between(m, left, right, t, false, order);
      && r.Ok? && |r.value| == |left| - 1
      && forall i :: 0 <= i < |left| - 1 ==>
          (r.value[i] - left[1 + i]) * (right[0] - left[0]) == (right[1 + i] - left[1 + i]) * (t - left[0])
  {
    var span, gone := right[0] - left[0], t - left[0];
    Fraction(gone, span);
    var f := gone / span;
    assert Clamp(f) == f;
    var r := Lerp(left[1..], right[1..], f).value;
    assert Lerp(left[1..], right[1..], gone / span) == Between(m, left, right, t, false, order);
    hide Clamp;
    forall i | 0 <= i < |left| - 1
      ensures (r[i] - left[1 + i]) * span == (right[1 + i] - left[1 + i]) * gone
    {
      assert r[i] == left[1..][i] + (right[1..][i] - left[1..][i]) * Clamp(f);
      Along(left[1 + i], right[1 + i], f, span, gone);
    }
  }

  // ----- the dot product

  lemma {:induction false} DotParts(p: Quat, q: Quat)
    ensures Dot(p, q) == Times(p.x, q.x) + Times(p.y, q.y) + Times(p.z, q.z) + Times(p.w, q.w)
  {
  }

  lemma {:induction false} DotIs(p: Quat, q: Quat)
    ensures Dot(p, q) == Dot(q, p) && Dot(p, p) == Norm2(p)
  {
  }

  lemma {:induction false} DotOfMix(s: real, p: Quat, t: real, q: Quat, r: Quat)
    ensures Dot(r, Mix(s, p, t, q)) == s * Dot(r, p) + t * Dot(r, q)
  {
    MixTerm(s, p.x, t, q.x, r.x);
    MixTerm(s, p.y, t, q.y, r.y);
    MixTerm(s, p.z, t, q.z, r.z);
    MixTerm(s, p.w, t, q.w, r.w);
    DotParts(r, p);
    DotParts(r, q);
    var x := Mix(s, p, t, q);
    DotParts(r, x);
    SumOfFour(s, Times(r.x, p.x), Times(r.y, p.y), Times(r.z, p.z), Times(r.w, p.w));
    SumOfFour(t, Times(r.x, q.x), Times(r.y, q.y), Times(r.z, q.z), Times(r.w, q.w));
    hide Times;
    assert Dot(r, x) == s * Dot(r, p) + t * Dot(r, q);
  }

  lemma {:induction false} MixTerm(s: real, p: real, t: real, q: real, r: real)
    ensures Times(r, s * p + t * q) == s * Times(r, p) + t * Times(r, q)
  {
  }

  lemma {:induction false} SumOfFour(s: real, a: real, b: real, c: real, d: real)
    ensures s * (a + b + c + d) == s * a + s * b + s * c + s * d
  {
  }

  // ----- rotations

  ghost predicate OnCircle(m: Maths, cos: real -> real, x: real) {
    m.sin(x) * m.sin(x) + cos(x) * cos(x) == 1.0
  }

  ghost predicate Differs(m: Maths, cos: real -> real, x: real, y: real) {
    && m.sin(x - y) == m.sin(x) * cos(y) - cos(x) * m.sin(y)
    && cos(x - y) == cos(x) * cos(y) + m.sin(x) * m.sin(y)
  }

  /** The functions are the circle's. */
  ghost predicate Circular(m: Maths, cos: real -> real) {
    && Sound(m)
    && (forall x: real :: OnCircle(m, cos, x))
    && (forall x: real, y: real :: Differs(m, cos, x, y))
    && (forall d: real :: 0.0 <= d <= 1.0 ==> cos(m.acos(d)) == d)
  }

  lemma {:induction false} RootOfSquare(m: Maths, s: real)
    requires Sound(m) && s > 0.0
    ensures m.sqrt(s * s) == s
  {
    var r := m.sqrt(s * s);
    assert s * s >= 0.0;
    assert r * r == s * s && r >= 0.0;
    assert (r - s) * (r + s) == 0.0;
    ZeroFactor(r - s, r + s);
  }

  lemma {:induction false} UnitOf(m: Maths, s: real, p: Quat)
    requires Sound(m) && s > 0.0 && Norm2(p) == 1.0
    ensures var a := Multiple(s, p); m.sqrt(Norm2(a)) == s && Divided(a, s) == p
  {
    hide Norm2, Divided, Multiple;
    Norm2OfMultiple(s, p);
    RootOfSquare(m, s);
    DividedIsMultiple(Multiple(s, p), s);
    OverItself(s);
    assert (1.0 / s) * s == 1.0;
    MultipleTwice(1.0 / s, s, p);
  }

  /** The weights of the arc at an angle `x` of `theta`, whose sine is `s` and whose cosine is `d`. */
  lemma {:induction false} Weights(s: real, d: real, sx: real, cx: real, sy: real, cy: real)
    requires s != 0.0 && s * s + d * d == 1.0 && sx * sx + cx * cx == 1.0
    requires sy == s * cx - d * sx && cy == d * cx + s * sx
    ensures sy / s + (sx / s) * d == cx
    ensures (sy / s) * d + sx / s == cy
    ensures (sy / s) * cx + (sx / s) * cy == 1.0
  {
    var u, w := sx / s, cx - d * (sx / s);
    assert u * s == sx;
    FirstWeight(s, d, sx, cx, u, w);
    OverBack(w, s, sy);
    SecondSum(s, d, sx, cx, u, w);
    Crosswise(u, w, d, s, sx, cx, cy);
  }

  lemma {:induction false} FirstWeight(s: real, d: real, sx: real, cx: real, u: real, w: real)
    requires u * s == sx && w == cx - d * u
    ensures w * s == s * cx - d * sx && w + u * d == cx
  {
    assert d * u * s == d * (u * s);
  }

  lemma {:induction false} SecondSum(s: real, d: real, sx: real, cx: real, u: real, w: real)
    requires u * s == sx && w == cx - d * u && s * s + d * d == 1.0
    ensures w * d + u == d * cx + s * sx
  {
    assert (d * u) * d == (d * d) * u && s * (u * s) == (s * s) * u;
    assert (s * s + d * d) * u == (s * s) * u + (d * d) * u;
    assert (cx - d * u) * d == d * cx - (d * u) * d;
  }

  lemma {:induction false} Crosswise(u: real, w: real, d: real, s: real, sx: real, cx: real, cy: real)
    requires u * s == sx && w == cx - d * u && cy == d * cx + s * sx && sx * sx + cx * cx == 1.0
    ensures w * cx + u * cy == 1.0
  {
    assert u * (d * cx) == (d * u) * cx && u * (s * sx) == (u * s) * sx;
    assert u * (d * cx + s * sx) == u * (d * cx) + u * (s * sx);
    assert (cx - d * u) * cx == cx * cx - (d * u) * cx;
  }

  lemma {:induction false} OverBack(x: real, s: real, y: real)
    requires s != 0.0 && x * s == y
    ensures y / s == x
  {
  }

  /** On the arc the angle from the first quaternion grows in proportion to `t`. */
  lemma {:induction false} ArcTurnsEvenly(m: Maths, cos: real -> real, p: Quat, q: Quat, t: real)
    requires Circular(m, cos) && Norm2(p) == 1.0 && Norm2(q) == 1.0 && 0.0 <= Dot(p, q) <= 0.9995
    ensures var r, theta := Arc(m, p, q, Dot(p, q), t), m.acos(Dot(p, q));
      r.Ok? && Norm2(r.value) == 1.0
      && Dot(p, r.value) == cos(Angle(t, theta)) && Dot(q, r.value) == cos(Angle(1.0 - t, theta))
  {
    hide Norm2, Dot, Mix, Arc, Weight, Angle;
    assert Sound(m);
    hide Circular;
    var theta := m.acos(Dot(p, q));
    ArcIs(m, p, q, Dot(p, q), t);
    Remaining(t, theta);
    TurnsTo(m, cos, p, q, theta, t, 1.0 - t);
  }

  lemma {:induction false} Remaining(t: real, theta: real)
    ensures Angle(1.0 - t, theta) == theta - Angle(t, theta)
  {
  }

  lemma {:induction false} CircularAt(m: Maths, cos: real -> real, d: real, theta: real, x: real, y: real)
    requires Circular(m, cos) && 0.0 <= d <= 0.9995 && theta == m.acos(d) && y == theta - x
    ensures m.sin(theta) > 0.0 && cos(theta) == d
    ensures m.sin(theta) * m.sin(theta) + d * d == 1.0 && m.sin(x) * m.sin(x) + cos(x) * cos(x) == 1.0
    ensures m.sin(y) == m.sin(theta) * cos(x) - d * m.sin(x) && cos(y) == d * cos(x) + m.sin(theta) * m.sin(x)
  {
    assert Differs(m, cos, theta, x) && OnCircle(m, cos, theta) && OnCircle(m, cos, x);
    hide Circular;
  }

  lemma {:induction false} TurnsTo(m: Maths, cos: real -> real, p: Quat, q: Quat, theta: real, t: real, u: real)
    requires Circular(m, cos) && Norm2(p) == 1.0 && Norm2(q) == 1.0 && 0.0 <= Dot(p, q) <= 0.9995
    requires theta == m.acos(Dot(p, q)) && Angle(u, theta) == theta - Angle(t, theta) && m.sin(theta) > 0.0
    ensures var r := Mix(Weight(m, u, theta), p, Weight(m, t, theta), q);
      Norm2(r) == 1.0 && Dot(p, r) == cos(Angle(t, theta)) && Dot(q, r) == cos(Angle(u, theta))
  {
    hide Norm2, Dot, Mix, Circular, Angle;
    var x, y := Angle(t, theta), Angle(u, theta);
    CircularAt(m, cos, Dot(p, q), theta, x, y);
    Weights(m.sin(theta), Dot(p, q), m.sin(x), cos(x), m.sin(y), cos(y));
    MixHas(Weight(m, u, theta), p, Weight(m, t, theta), q, cos(x), cos(y));
  }

  lemma {:induction false} ArcIs(m: Maths, p: Quat, q: Quat, d: real, t: real)
    requires Sound(m) && 0.0 <= d <= 0.9995
    ensures var theta := m.acos(d);
      m.sin(theta) > 0.0 && Arc(m, p, q, d, t) == Ok(Mix(Weight(m, 1.0 - t, theta), p, Weight(m, t, theta), q))
  {
  }

  lemma {:induction false} MixHas(f: real, p: Quat, g: real, q: Quat, cx: real, cy: real)
    requires Norm2(p) == 1.0 && Norm2(q) == 1.0
    requires f + g * Dot(p, q) == cx && f * Dot(p, q) + g == cy && f * cx + g * cy == 1.0
    ensures var r := Mix(f, p, g, q); Norm2(r) == 1.0 && Dot(p, r) == cx && Dot(q, r) == cy
  {
    hide Norm2, Dot, Mix;
    var r := Mix(f, p, g, q);
    DotOfMix(f, p, g, q, p);
    DotOfMix(f, p, g, q, q);
    DotOfMix(f, p, g, q, r);
    DotIs(p, q);
    DotIs(q, p);
    DotIs(r, p);
    DotIs(r, q);
  }

  lemma {:induction false} DotOfOpposite(p: Quat, q: Quat)
    ensures Dot(p, Multiple(-1.0, q)) == -Dot(p, q) && Dot(Multiple(-1.0, q), p) == -Dot(p, q)
    ensures Norm2(Multiple(-1.0, q)) == Norm2(q) && Multiple(1.0, q) == q
  {
    var o := Multiple(-1.0, q);
    DotParts(p, q);
    DotParts(p, o);
    DotIs(p, o);
    Signs(q.x, p.x);
    Signs(q.y, p.y);
    Signs(q.z, p.z);
    Signs(q.w, p.w);
    NegatedMultiple(1.0, q);
    hide Times;
    assert o == Quat(-q.x, -q.y, -q.z, -q.w);
  }

  /** Cauchy's inequality for unit quaternions. */
  lemma {:induction false} DotAtMostOne(p: Quat, q: Quat)
    requires Norm2(p) == 1.0 && Norm2(q) == 1.0
    ensures -1.0 <= Dot(p, q) <= 1.0
  {
    LengthOfMix(1.0, p, -1.0, q);
    LengthOfMix(1.0, p, 1.0, q);
    Norm2IsNonnegative(Mix(1.0, p, -1.0, q));
    Norm2IsNonnegative(Mix(1.0, p, 1.0, q));
  }

  lemma {:induction false} LengthOfMix(f: real, p: Quat, g: real, q: Quat)
    requires Norm2(p) == 1.0 && Norm2(q) == 1.0
    ensures Norm2(Mix(f, p, g, q)) == f * f + g * g + 2.0 * (f * g) * Dot(p, q)
  {
    hide Norm2, Dot, Mix;
    var r := Mix(f, p, g, q);
    DotOfMix(f, p, g, q, p);
    DotOfMix(f, p, g, q, q);
    DotOfMix(f, p, g, q, r);
    DotIs(p, q);
    DotIs(q, p);
    DotIs(r, p);
    DotIs(r, q);
    LengthTerms(f, g, Dot(p, q), Dot(r, p), Dot(r, q));
  }

  lemma {:induction false} LengthTerms(f: real, g: real, d: real, a: real, b: real)
    requires a == f + g * d && b == f * d + g
    ensures f * a + g * b == f * f + g * g + 2.0 * (f * g) * d
  {
    assert f * a == f * f + f * g * d;
    assert g * b == f * g * d + g * g;
  }

  lemma {:induction false} BlendIsMix(p: Quat, q: Quat, t: real)
    ensures Blend(p, q, t) == Mix(1.0 - t, p, t, q)
  {
  }

  lemma {:induction false} WeightsPositive(t: real, d: real)
    requires 0.0 <= t <= 1.0 && d > 0.0
    ensures (1.0 - t) * (1.0 - t) + t * t + 2.0 * ((1.0 - t) * t) * d > 0.0
  {
    assert (1.0 - t) * t >= 0.0;
    assert ((1.0 - t) * t) * d >= 0.0;
    assert t > 0.0 ==> t * t > 0.0;
  }

  /** Along the chord the sample is the unit quaternion in the direction of the blend. */
  lemma {:induction false} ChordIsUnit(m: Maths, p: Quat, q: Quat, d: real, t: real)
    requires Sound(m) && Norm2(p) == 1.0 && Norm2(q) == 1.0 && d > 0.9995 && 0.0 < Dot(p, q) && 0.0 <= t <= 1.0
    ensures var r := Arc(m, p, q, d, t);
      r.Ok? && Norm2(r.value) == 1.0
      && exists n: real :: n > 0.0 && Multiple(n, r.value) == Mix(1.0 - t, p, t, q)
  {
    hide Norm2, Dot, Mix, Blend, Multiple, Divided;
    var b := Blend(p, q, t);
    BlendIsMix(p, q, t);
    LengthOfMix(1.0 - t, p, t, q);
    WeightsPositive(t, Dot(p, q));
    UnitLength(m, b);
    var n := m.sqrt(Norm2(b));
    assert n > 0.0;
    MultipleTwice(n, 1.0 / n, b);
  }

  /** Interpolating between two unit quaternions, however scaled, on the side of the first: the result has unit length,
      and its angles from the two share the angle between them as `t` and `1 - t`; within an angle whose cosine is over
      0.9995 it lies on the chord instead. */
  lemma {:induction false} SlerpTurnsEvenly(m: Maths, cos: real -> real, p: Quat, q: Quat, s: real, u: real, t: real)
    requires Circular(m, cos) && Norm2(p) == 1.0 && Norm2(q) == 1.0 && s > 0.0 && u > 0.0 && 0.0 <= t <= 1.0
    ensures var side := if Dot(p, q) < 0.0 then -1.0 else 1.0;
      var near, d := Multiple(side, q), side * Dot(p, q);
      var r := Slerp(m, Multiple(s, p), Multiple(u, q), t);
      && 0.0 <= d <= 1.0 && r.Ok? && Norm2(r.value) == 1.0
      && (d <= 0.9995 ==> Dot(p, r.value) == cos(Angle(t, m.acos(d)))
                          && Dot(near, r.value) == cos(Angle(1.0 - t, m.acos(d))))
      && (d > 0.9995 ==> exists n: real :: n > 0.0 && Multiple(n, r.value) == Mix(1.0 - t, p, t, near))
  {
    hide Norm2, Dot, Mix, Arc, Multiple, Divided, Angle;
    assert Sound(m);
    hide Circular;
    UnitOf(m, s, p);
    UnitOf(m, u, q);
    DotAtMostOne(p, q);
    DotOfOpposite(p, q);
    var side := if Dot(p, q) < 0.0 then -1.0 else 1.0;
    var near, d := Multiple(side, q), side * Dot(p, q);
    assert Dot(p, near) == d && Norm2(near) == 1.0;
    assert Slerp(m, Multiple(s, p), Multiple(u, q), t) == Arc(m, p, near, d, t);
    if d <= 0.9995 {
      ArcTurnsEvenly(m, cos, p, near, t);
    } else {
      ChordIsUnit(m, p, near, d, t);
    }
  }

  ghost predicate Slerped(m: Maths, left: Key, right: Key, f: real, r: Result<Option<seq<real>>>, order: Order)
    requires |left| == 5 && |right| == 5
  {
    match Slerp(m, RotationOf(left, order), RotationOf(right, order), f)
    case Err(e) => r == Err(e)
    case Ok(q) =>
      && r.Ok? && r.value.Some?
      && match order
         case Xyzw => r.value.value == [q.x, q.y, q.z, q.w]
         case Wxyz => r.value.value == [q.w, q.x, q.y, q.z]
  }

  /** The interpolation of two keys at the part of the time between them that is gone at `t`. */
  ghost predicate SlerpedAt(m: Maths, left: Key, right: Key, t: real, r: Result<Option<seq<real>>>, order: Order) {
    && |left| == 5 && |right| == 5
    && exists f: real ::
        0.0 <= f <= 1.0 && f * (right[0] - left[0]) == t - left[0] && Slerped(m, left, right, f, r, order)
  }

  lemma {:induction false} BetweenIsSlerped(m: Maths, left: Key, right: Key, t: real, order: Order)
    requires |left| == 5 && |right| == 5 && left[0] < t <= right[0]
    ensures var r := Between(m, left, right, t, true, order);
      SlerpedAt(m, left, right, t, if r.Ok? then Ok(Some(r.value)) else Err(r.error), order)
  {
    hide Slerp;
    var gone, span := t - left[0], right[0] - left[0];
    Fraction(gone, span);
    var f := gone / span;
    var r := Between(m, left, right, t, true, order);
    assert r == QuatSlerp(m, left[1..], right[1..], f, order);
    assert Slerped(m, left, right, f, if r.Ok? then Ok(Some(r.value)) else Err(r.error), order);
  }

  /** A channel is sampled exactly when it has a key and its sample is defined. */
  lemma {:induction false} ChannelIsSample(m: Maths, keys: seq<Key>, t: real, rotation: bool, order: Order)
    ensures var r := ChannelSample(m, keys, t, rotation, order);
      && (r == Err(EmptyChannel) <== keys == [])
      && (keys != [] ==> forall v :: r == Ok(v) <==> Sample(m, keys, t, rotation, order) == Ok(Some(v)))
      && (keys != [] && !rotation && (forall i :: 0 <= i < |keys| ==> |keys[i]| == |keys[0]| >= 2) ==> r.Ok?)
  {
    hide Scan;
    if keys != [] && !rotation && (forall i :: 0 <= i < |keys| ==> |keys[i]| == |keys[0]| >= 2) {
      PositionsAreLinear(m, keys, t, order);
      var k := SomeReaches(keys, t);
      assert k == 0 ==> t <= keys[0][0];
    }
  }

  lemma {:induction false} SomeReaches(keys: seq<Key>, t: real) returns (k: nat)
    ensures k <= |keys| && forall i :: 0 <= i < k ==> keys[i][0] < t
    ensures k < |keys| ==> Reaches(keys, k, t)
  {
    k := 0;
    while k < |keys| && keys[k][0] < t
      invariant k <= |keys| && forall i :: 0 <= i < k ==> keys[i][0] < t
    {
      k := k + 1;
    }
  }

  /** Between two rotation keys the sample is their interpolation at the part of the time gone; before the first key and
      past the last one it is that key, as it stands. */
  lemma {:induction false} RotationsAreSlerped(m: Maths, keys: seq<Key>, t: real, order: Order)
    requires keys != [] && WellFormed(keys, true)
    ensures var r := Sample(m, keys, t, true, order);
      && (t <= keys[0][0] ==> r == Ok(Some(keys[0][1..])))
      && ((forall i :: 0 <= i < |keys| ==> keys[i][0] < t) ==> r == Ok(Some(keys[|keys| - 1][1..])))
      && forall k {:trigger Reaches(keys, k, t)} :: 0 < k && Reaches(keys, k, t)
          ==> SlerpedAt(m, keys[k - 1], keys[k], t, r, order)
  {
    hide Scan, QuatSlerp, Between, SlerpedAt;
    if forall i :: 0 <= i < |keys| ==> keys[i][0] < t {
      ScanPasses(m, keys, t, true, order);
    }
    forall k | 0 < k && Reaches(keys, k, t)
      ensures SlerpedAt(m, keys[k - 1], keys[k], t, Sample(m, keys, t, true, order), order)
    {
      ScanReaches(m, keys, k, t, true, order);
      BetweenIsSlerped(m, keys[k - 1], keys[k], t, order);
    }
  }
}
