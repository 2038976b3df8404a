/** Sampling of animation channels (tools/compose_infantry_animation.py:153-199, 323-330, 517-543), over exact reals. */
module Channels {
  import opened Outcome
  import opened Rigid

  /** A time and its values. */
  type Key = k: seq<real> | |k| > 0 witness [0.0]

  function Clamp(t: real): (r: real)
    ensures 0.0 <= r <= 1.0
    ensures 0.0 <= t <= 1.0 ==> r == t
  {
    if t < 0.0 then 0.0 else if t > 1.0 then 1.0 else t
  }

  function Lerp(a: seq<real>, b: seq<real>, t: real): Result<seq<real>> {
    if |a| != |b| then Err(UnequalLengths)
    else Ok(seq(|a|, i requires 0 <= i < |a| => a[i] + (b[i] - a[i]) * Clamp(t)))
  }

  function Dot(p: Quat, q: Quat): real {
    p.x * q.x + p.y * q.y + p.z * q.z + p.w * q.w
  }

  /** `s * p + t * q`. */
  function Mix(s: real, p: Quat, t: real, q: Quat): Quat {
    Quat(s * p.x + t * q.x, s * p.y + t * q.y, s * p.z + t * q.z, s * p.w + t * q.w)
  }

  function Blend(p: Quat, q: Quat, t: real): Quat {
    Quat(p.x + t * (q.x - p.x), p.y + t * (q.y - p.y), p.z + t * (q.z - p.z), p.w + t * (q.w - p.w))
  }

  /** A part of an angle. */
  function Angle(t: real, theta: real): real {
    t * theta
  }

  function Weight(m: Maths, t: real, theta: real): real
    requires m.sin(theta) != 0.0
  {
    m.sin(Angle(t, theta)) / m.sin(theta)
  }

  /** Between unit quaternions no more than a right angle apart. */
  function Arc(m: Maths, p: Quat, q: Quat, dot: real, t: real): Result<Quat> {
    if dot > 0.9995 then
      var result := Blend(p, q, t);
      var norm := m.sqrt(Norm2(result));
      if norm == 0.0 then Err(ZeroQuaternion) else Ok(Divided(result, norm))
    else
      var theta := m.acos(dot);
      if m.sin(theta) == 0.0 then Err(ZeroQuaternion)
      else Ok(Mix(Weight(m, 1.0 - t, theta), p, Weight(m, t, theta), q))
  }

  function Clip1(dot: real): real {
    if dot < -1.0 then -1.0 else if dot > 1.0 then 1.0 else dot
  }

  function Slerp(m: Maths, a: Quat, b: Quat, t: real): Result<Quat> {
    var na, nb := m.sqrt(Norm2(a)), m.sqrt(Norm2(b));
    if na == 0.0 || nb == 0.0 then Err(ZeroQuaternion)
    else
      var p, q := Divided(a, na), Divided(b, nb);
      var dot := Dot(p, q);
      if dot < 0.0 then Arc(m, p, Multiple(-1.0, q), Clip1(-dot), Clamp(t)) else Arc(m, p, q, Clip1(dot), Clamp(t))
  }

  function QuadOf(s: seq<real>): Quad
    requires |s| == 4
  {
    Quad(s[0], s[1], s[2], s[3])
  }

  function QuadValues(q: Quad): (s: seq<real>)
    ensures |s| == 4
  {
    [q.a, q.b, q.c, q.d]
  }

  function QuatSlerp(m: Maths, a: seq<real>, b: seq<real>, t: real, order: Order): (r: Result<seq<real>>)
    requires |a| == 4 && |b| == 4
    ensures r.Ok? ==> |r.value| == 4
  {
    var q :- Slerp(m, ToXyzw(QuadOf(a), order), ToXyzw(QuadOf(b), order), t);
    Ok(QuadValues(ToOrder(q, order)))
  }

  predicate WellFormed(keys: seq<Key>, rotation: bool) {
    forall i :: 0 <= i < |keys| ==> if rotation then |keys[i]| == 5 else |keys[i]| >= 2
  }

  function Between(m: Maths, left: Key, right: Key, t: real, rotation: bool, order: Order): (r: Result<seq<real>>)
    requires rotation ==> |left| == 5 && |right| == 5
    ensures rotation && r.Ok? ==> |r.value| == 4
  {
    var span := right[0] - left[0];
    if span <= 0.0 then Ok(right[1..])
    else if rotation then QuatSlerp(m, left[1..], right[1..], (t - left[0]) / span, order)
    else Lerp(left[1..], right[1..], (t - left[0]) / span)
  }

  /** The scan over neighbouring keys. */
  function Scan(m: Maths, keys: seq<Key>, t: real, rotation: bool, order: Order): (r: Result<seq<real>>)
    requires keys != [] && WellFormed(keys, rotation)
    ensures rotation && r.Ok? ==> |r.value| == 4
  {
    if |keys| == 1 then Ok(keys[0][1..])
    else if t <= keys[1][0] then Between(m, keys[0], keys[1], t, rotation, order)
    else Scan(m, keys[1..], t, rotation, order)
  }

  /** `sample_linear` and `sample_slerp`: no value for no keys. */
  function Sample(m: Maths, keys: seq<Key>, t: real, rotation: bool, order: Order): (r: Result<Option<seq<real>>>)
    ensures rotation && r.Ok? && r.value.Some? ==> |r.value.value| == 4
  {
    if keys == [] then Ok(None)
    else if !WellFormed(keys, rotation) then Err(BadKey)
    else if t <= keys[0][0] then Ok(Some(keys[0][1..]))
    else
      var value :- Scan(m, keys, t, rotation, order);
      Ok(Some(value))
  }

  function ChannelSample(m: Maths, keys: seq<Key>, t: real, rotation: bool, order: Order): Result<seq<real>> {
    var value :- Sample(m, keys, t, rotation, order);
    if value.None? then Err(EmptyChannel) else Ok(value.value)
  }

  // ----- samples at key times

  lemma {:induction false} ZeroFactor(a: real, b: real)
    requires a * b == 0.0
    ensures a == 0.0 || b == 0.0
  {
  }

  lemma {:induction false} RootOfOne(m: Maths)
    requires Sound(m)
    ensures m.sqrt(1.0) == 1.0
  {
    var r := m.sqrt(1.0);
    assert r * r == 1.0 && r >= 0.0;
    assert (r - 1.0) * (r + 1.0) == 0.0;
    ZeroFactor(r - 1.0, r + 1.0);
  }

  lemma {:induction false} UnitLength(m: Maths, q: Quat)
    requires Sound(m) && Norm2(q) != 0.0
    ensures var r := m.sqrt(Norm2(q));
            r != 0.0 && Divided(q, r) == Multiple(1.0 / r, q) && (1.0 / r) * (1.0 / r) * Norm2(q) == 1.0
            && Norm2(Divided(q, r)) == 1.0
  {
    hide Norm2, Multiple, Divided;
    Norm2IsNonnegative(q);
    var n := Norm2(q);
    var r := m.sqrt(n);
    assert r * r == n;
    DividedIsMultiple(q, r);
    Norm2OfMultiple(1.0 / r, q);
    Reciprocal(n, 1.0 / n);
  }

  lemma {:induction false} ArcAtEnd(m: Maths, p: Quat, q: Quat, dot: real)
    requires Sound(m) && Norm2(q) == 1.0 && 0.0 <= dot
    ensures Arc(m, p, q, dot, 1.0) == Ok(q)
  {
    if dot > 0.9995 {
      RootOfOne(m);
    } else {
      var theta := m.acos(dot);
      var sine := m.sin(theta);
      assert sine > 0.0;
      OverItself(sine);
      assert Angle(0.0, theta) == 0.0 && Angle(1.0, theta) == theta;
      assert Weight(m, 1.0 - 1.0, theta) == 0.0;
      assert Weight(m, 1.0, theta) == 1.0;
    }
  }

  lemma {:induction false} NegatedMultiple(r: real, q: Quat)
    ensures Multiple(-1.0, Multiple(r, q)) == Multiple(-r, q)
    ensures Norm2(Multiple(-1.0, q)) == Norm2(q)
  {
  }

  /** At its end the interpolation is the second quaternion at unit length, up to its sign. */
  lemma {:induction false} SlerpAtEnd(m: Maths, a: Quat, b: Quat) returns (c: real)
    requires Sound(m) && Norm2(a) != 0.0 && Norm2(b) != 0.0
    ensures Slerp(m, a, b, 1.0) == Ok(Multiple(c, b)) && c * c * Norm2(b) == 1.0
  {
    hide Norm2, Multiple, Divided, Arc;
    UnitLength(m, a);
    UnitLength(m, b);
    var r := 1.0 / m.sqrt(Norm2(b));
    var p, q := Divided(a, m.sqrt(Norm2(a))), Divided(b, m.sqrt(Norm2(b)));
    var dot := Dot(p, q);
    if dot < 0.0 {
      c := -r;
      NegatedMultiple(r, b);
      NegatedMultiple(r, q);
      ArcAtEnd(m, p, Multiple(-1.0, q), Clip1(-dot));
    } else {
      c := r;
      ArcAtEnd(m, p, q, Clip1(dot));
    }
  }

  lemma {:induction false} LerpAtEnd(a: seq<real>, b: seq<real>)
    requires |a| == |b|
    ensures Lerp(a, b, 1.0) == Ok(b)
  {
    var r := Lerp(a, b, 1.0).value;
    forall i | 0 <= i < |a| ensures r[i] == b[i] {
      assert Clamp(1.0) == 1.0;
      assert r[i] == a[i] + (b[i] - a[i]) * Clamp(1.0);
    }
    assert r == b;
  }

  /** Every key before the one at `k` has an earlier time. */
  predicate First(keys: seq<Key>, k: nat)
    requires k < |keys|
  {
    forall i :: 0 <= i < k ==> keys[i][0] < keys[k][0]
  }

  lemma {:induction false} OverItself(x: real)
    requires x != 0.0
    ensures x / x == 1.0
  {
  }

  /** At a key's time the scan interpolates to that key, from the key before it. */
  lemma {:induction false} ScanAtKey(m: Maths, keys: seq<Key>, k: nat, rotation: bool, order: Order)
    requires 0 < k < |keys| && WellFormed(keys, rotation) && First(keys, k)
    ensures Scan(m, keys, keys[k][0], rotation, order)
         == (if rotation then QuatSlerp(m, keys[k - 1][1..], keys[k][1..], 1.0, order)
             else Lerp(keys[k - 1][1..], keys[k][1..], 1.0))
    decreases k
  {
    hide QuatSlerp, Lerp;
    if k == 1 {
      var span := keys[1][0] - keys[0][0];
      OverItself(span);
    } else {
      ScanAtKey(m, keys[1..], k - 1, rotation, order);
    }
  }

  /** A sampled position at a key's time is that key's. */
  lemma {:induction false} PositionAtKey(m: Maths, keys: seq<Key>, k: nat, order: Order)
    requires k < |keys| && WellFormed(keys, false) && First(keys, k)
    requires forall i :: 0 <= i < |keys| ==> |keys[i]| == |keys[k]|
    ensures Sample(m, keys, keys[k][0], false, order) == Ok(Some(keys[k][1..]))
  {
    hide Lerp, Scan;
    if k > 0 {
      ScanAtKey(m, keys, k, false, order);
      LerpAtEnd(keys[k - 1][1..], keys[k][1..]);
    }
  }

  function RotationOf(key: Key, order: Order): Quat
    requires |key| == 5
  {
    ToXyzw(QuadOf(key[1..]), order)
  }

  /**
   * A sampled rotation at a key's time is that key's, as it stands at the first key and at unit length up to the sign
   * at the others; sampling fails only next to a zero quaternion.
   */
  lemma {:induction false} RotationAtKey(m: Maths, keys: seq<Key>, k: nat, order: Order) returns (c: real)
    requires Sound(m) && k < |keys| && WellFormed(keys, true) && First(keys, k)
    ensures Sample(m, keys, keys[k][0], true, order).Ok?
       <==> k == 0 || (Norm2(RotationOf(keys[k - 1], order)) != 0.0 && Norm2(RotationOf(keys[k], order)) != 0.0)
    ensures c == 1.0 || c * c * Norm2(RotationOf(keys[k], order)) == 1.0
    ensures Sample(m, keys, keys[k][0], true, order).Ok? ==>
              Sample(m, keys, keys[k][0], true, order)
              == Ok(Some(QuadValues(ToOrder(Multiple(c, RotationOf(keys[k], order)), order))))
  {
    hide Scan, Slerp, Norm2;
    var b := RotationOf(keys[k], order);
    c := 1.0;
    if k == 0 {
      assert QuadValues(QuadOf(keys[0][1..])) == keys[0][1..];
    } else {
      ScanAtKey(m, keys, k, true, order);
      var a := RotationOf(keys[k - 1], order);
      if Norm2(a) != 0.0 && Norm2(b) != 0.0 {
        c := SlerpAtEnd(m, a, b);
      } else {
        SlerpRefuses(m, a, b);
      }
    }
  }

  lemma {:induction false} SlerpRefuses(m: Maths, a: Quat, b: Quat)
    requires Sound(m) && (Norm2(a) == 0.0 || Norm2(b) == 0.0)
    ensures Slerp(m, a, b, 1.0).Err?
  {
    hide Norm2, Arc;
    var r := m.sqrt(0.0);
    assert r * r == 0.0;
    ZeroFactor(r, r);
    assert m.sqrt(Norm2(a)) == 0.0 || m.sqrt(Norm2(b)) == 0.0;
  }
}
