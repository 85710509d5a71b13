/** The 4D rotation engine `rotate4D` (src/components/ThreeJSHero.tsx,
    lines 120-180): six plane rotations applied in the fixed order XY, XZ,
    XW, YZ, YW, ZW, each to the coordinates the previous one produced.
    `Math.cos` and `Math.sin` are not modelled: each plane is given its
    cosine and sine as a pair of reals. */
module Rotation {
  import opened Geometry

  /** The cosine `c` and sine `s` of one plane's angle. */
  datatype Turn = Turn(c: real, s: real)

  /** The pair lies on the unit circle, as `cos` and `sin` of one angle do. */
  predicate IsUnit(t: Turn) {
    t.c * t.c + t.s * t.s == 1.0
  }

  /** `cos 0` and `sin 0`. */
  const NoTurn := Turn(1.0, 0.0)

  /** `cos 90°` and `sin 90°`. */
  const QuarterTurn := Turn(0.0, 1.0)

  /** The cosine and sine of the sum of two angles, by the angle-addition
      formulas. */
  function Compose(t1: Turn, t2: Turn): Turn {
    Turn(t1.c * t2.c - t1.s * t2.s, t1.s * t2.c + t1.c * t2.s)
  }

  /** The cosine and sine of the opposite angle. */
  function Opposite(t: Turn): Turn {
    Turn(t.c, -t.s)
  }

  /** The opposite angle is again a unit pair, and its opposite is the
      original angle. */
  lemma OppositeUnit(t: Turn)
    requires IsUnit(t)
    ensures IsUnit(Opposite(t))
    ensures Opposite(Opposite(t)) == t
  {
    assert (-t.s) * (-t.s) == t.s * t.s;
  }

  /** The six arguments `angleXY` .. `angleZW`, each as its cosine/sine pair. */
  datatype Angles = Angles(xy: Turn, xz: Turn, xw: Turn, yz: Turn, yw: Turn, zw: Turn)

  predicate AllUnit(a: Angles) {
    IsUnit(a.xy) && IsUnit(a.xz) && IsUnit(a.xw) && IsUnit(a.yz) && IsUnit(a.yw) && IsUnit(a.zw)
  }

  /** All six angles zero. */
  const ZeroAngles := Angles(NoTurn, NoTurn, NoTurn, NoTurn, NoTurn, NoTurn)

  /** The opposite angles, for undoing a rotation. */
  function OppositeAngles(a: Angles): Angles {
    Angles(Opposite(a.xy), Opposite(a.xz), Opposite(a.xw), Opposite(a.yz), Opposite(a.yw), Opposite(a.zw))
  }

  /** One plane step on the coordinate pair `(p, q)`: the new first
      coordinate is `p*cos - q*sin`, the new second `p*sin + q*cos`. It
      turns counter-clockwise: a quarter turn takes `(p, q)` to `(-q, p)`. */
  function Turn2(p: real, q: real, t: Turn): (r: (real, real))
    ensures t == NoTurn ==> r == (p, q)
    ensures t == QuarterTurn ==> r == (-q, p)
  {
    var r := (p * t.c - q * t.s, p * t.s + q * t.c);
    assert t == NoTurn ==> r == (p * 1.0 - q * 0.0, p * 0.0 + q * 1.0);
    assert t == QuarterTurn ==> r == (p * 0.0 - q * 1.0, p * 1.0 + q * 0.0);
    r
  }

  /** The angle-addition identities behind `Turn2Compose`, on plain reals. */
  lemma AngleAddition(p: real, q: real, c1: real, s1: real, c2: real, s2: real)
    ensures (p * c1 - q * s1) * c2 - (p * s1 + q * c1) * s2 == p * (c1 * c2 - s1 * s2) - q * (s1 * c2 + c1 * s2)
    ensures (p * c1 - q * s1) * s2 + (p * s1 + q * c1) * c2 == p * (s1 * c2 + c1 * s2) + q * (c1 * c2 - s1 * s2)
  {
  }

  /** Turning by one angle and then by another is turning by their sum. */
  lemma Turn2Compose(p: real, q: real, t1: Turn, t2: Turn)
    ensures Turn2(Turn2(p, q, t1).0, Turn2(p, q, t1).1, t2).0 == Turn2(p, q, Compose(t1, t2)).0
    ensures Turn2(Turn2(p, q, t1).0, Turn2(p, q, t1).1, t2).1 == Turn2(p, q, Compose(t1, t2)).1
  {
    var (c1, s1, c2, s2) := (t1.c, t1.s, t2.c, t2.s);
    var p1, q1 := p * c1 - q * s1, p * s1 + q * c1;
    Turn2Parts(p, q, t1);
    Turn2Parts(p1, q1, t2);
    Turn2Parts(p, q, Compose(t1, t2));
    AngleAddition(p, q, c1, s1, c2, s2);
    var t := Compose(t1, t2);
    assert t.c == c1 * c2 - s1 * s2 && t.s == s1 * c2 + c1 * s2;
    assert Turn2(p1, q1, t2).0 == Turn2(p, q, t).0;
    assert Turn2(p1, q1, t2).1 == Turn2(p, q, t).1;
  }

  /** `Turn2` component by component. */
  lemma Turn2Parts(p: real, q: real, t: Turn)
    ensures Turn2(p, q, t).0 == p * t.c - q * t.s
    ensures Turn2(p, q, t).1 == p * t.s + q * t.c
  {
  }

  /** The sum of two unit angles is a unit angle. */
  lemma ComposeUnit(t1: Turn, t2: Turn)
    requires IsUnit(t1) && IsUnit(t2)
    ensures IsUnit(Compose(t1, t2))
  {
    var t := Compose(t1, t2);
    var r := Turn2(t2.c, t2.s, t1);
    assert t.c == r.0 && t.s == r.1;
    Turn2NormSq(t2.c, t2.s, t1);
    assert Sq(r.0) + Sq(r.1) == (Sq(t2.c) + Sq(t2.s)) * (t1.c * t1.c + t1.s * t1.s);
    assert Sq(t2.c) + Sq(t2.s) == 1.0;
  }

  /** An angle plus its opposite is no turn at all. */
  lemma ComposeOpposite(t: Turn)
    requires IsUnit(t)
    ensures Compose(t, Opposite(t)) == NoTurn
  {
    assert t.c * t.c - t.s * (-t.s) == t.c * t.c + t.s * t.s;
    assert t.s * t.c + t.c * (-t.s) == 0.0;
  }

  /** A plane step scales the squared length of its pair by `c*c + s*s`. */
  lemma Turn2NormSq(p: real, q: real, t: Turn)
    ensures Sq(Turn2(p, q, t).0) + Sq(Turn2(p, q, t).1) == (Sq(p) + Sq(q)) * (t.c * t.c + t.s * t.s)
  {
    var c, s := t.c, t.s;
    calc {
      Sq(p * c - q * s) + Sq(p * s + q * c);
      (p * p * c * c - 2.0 * p * q * c * s + q * q * s * s)
        + (p * p * s * s + 2.0 * p * q * s * c + q * q * c * c);
      (p * p + q * q) * (c * c + s * s);
    }
  }

  /** Turning by the opposite angle undoes a plane step. */
  lemma Turn2Opposite(p: real, q: real, t: Turn)
    requires IsUnit(t)
    ensures Turn2(Turn2(p, q, t).0, Turn2(p, q, t).1, Opposite(t)) == (p, q)
  {
    var c, s := t.c, t.s;
    var (p1, q1) := Turn2(p, q, t);
    var (p2, q2) := Turn2(p1, q1, Opposite(t));
    assert p2 == (p * c - q * s) * c + (p * s + q * c) * s;
    assert p2 == p * (c * c + s * s);
    assert q2 == -(p * c - q * s) * s + (p * s + q * c) * c;
    assert q2 == q * (c * c + s * s);
    assert c * c + s * s == 1.0;
    assert p2 == p && q2 == q;
  }

  /** Rotation in the XY plane, lines 131-137. */
  function RotateXY(v: Vec4, t: Turn): (r: Vec4)
    ensures r.z == v.z && r.w == v.w
    ensures IsUnit(t) ==> NormSq4(r) == NormSq4(v)
    ensures t == NoTurn ==> r == v
    ensures t == QuarterTurn ==> r == Vec4(-v.y, v.x, v.z, v.w)
  {
    Turn2NormSq(v.x, v.y, t);
    var (x, y) := Turn2(v.x, v.y, t);
    Vec4(x, y, v.z, v.w)
  }

  /** Rotation in the XZ plane, lines 139-145. */
  function RotateXZ(v: Vec4, t: Turn): (r: Vec4)
    ensures r.y == v.y && r.w == v.w
    ensures IsUnit(t) ==> NormSq4(r) == NormSq4(v)
    ensures t == NoTurn ==> r == v
    ensures t == QuarterTurn ==> r == Vec4(-v.z, v.y, v.x, v.w)
  {
    Turn2NormSq(v.x, v.z, t);
    var (x, z) := Turn2(v.x, v.z, t);
    Vec4(x, v.y, z, v.w)
  }

  /** Rotation in the XW plane, lines 147-153. */
  function RotateXW(v: Vec4, t: Turn): (r: Vec4)
    ensures r.y == v.y && r.z == v.z
    ensures IsUnit(t) ==> NormSq4(r) == NormSq4(v)
    ensures t == NoTurn ==> r == v
    ensures t == QuarterTurn ==> r == Vec4(-v.w, v.y, v.z, v.x)
  {
    Turn2NormSq(v.x, v.w, t);
    var (x, w) := Turn2(v.x, v.w, t);
    Vec4(x, v.y, v.z, w)
  }

  /** Rotation in the YZ plane, lines 155-161. */
  function RotateYZ(v: Vec4, t: Turn): (r: Vec4)
    ensures r.x == v.x && r.w == v.w
    ensures IsUnit(t) ==> NormSq4(r) == NormSq4(v)
    ensures t == NoTurn ==> r == v
    ensures t == QuarterTurn ==> r == Vec4(v.x, -v.z, v.y, v.w)
  {
    Turn2NormSq(v.y, v.z, t);
    var (y, z) := Turn2(v.y, v.z, t);
    Vec4(v.x, y, z, v.w)
  }

  /** Rotation in the YW plane, lines 163-169. */
  function RotateYW(v: Vec4, t: Turn): (r: Vec4)
    ensures r.x == v.x && r.z == v.z
    ensures IsUnit(t) ==> NormSq4(r) == NormSq4(v)
    ensures t == NoTurn ==> r == v
    ensures t == QuarterTurn ==> r == Vec4(v.x, -v.w, v.z, v.y)
  {
    Turn2NormSq(v.y, v.w, t);
    var (y, w) := Turn2(v.y, v.w, t);
    Vec4(v.x, y, v.z, w)
  }

  /** Rotation in the ZW plane, lines 171-177. */
  function RotateZW(v: Vec4, t: Turn): (r: Vec4)
    ensures r.x == v.x && r.y == v.y
    ensures IsUnit(t) ==> NormSq4(r) == NormSq4(v)
    ensures t == NoTurn ==> r == v
    ensures t == QuarterTurn ==> r == Vec4(v.x, v.y, -v.w, v.z)
  {
    Turn2NormSq(v.z, v.w, t);
    var (z, w) := Turn2(v.z, v.w, t);
    Vec4(v.x, v.y, z, w)
  }

  /** `rotate4D`: the six plane steps in the order XY, XZ, XW, YZ, YW, ZW.
      With unit pairs it keeps the squared length; at zero angles it is the
      identity. */
  function Rotate4D(v: Vec4, a: Angles): (r: Vec4)
    ensures AllUnit(a) ==> NormSq4(r) == NormSq4(v)
    ensures a == ZeroAngles ==> r == v
  {
    RotateZW(RotateYW(RotateYZ(RotateXW(RotateXZ(RotateXY(v, a.xy), a.xz), a.xw), a.yz), a.yw), a.zw)
  }

  /** The inverse rotation: the opposite angles, applied in reverse order. */
  function Unrotate4D(v: Vec4, a: Angles): Vec4 {
    var b := OppositeAngles(a);
    RotateXY(RotateXZ(RotateXW(RotateYZ(RotateYW(RotateZW(v, b.zw), b.yw), b.yz), b.xw), b.xz), b.xy)
  }

  lemma UnrotateXY(v: Vec4, t: Turn)
    requires IsUnit(t)
    ensures RotateXY(RotateXY(v, t), Opposite(t)) == v
  {
    Turn2Opposite(v.x, v.y, t);
  }

  lemma UnrotateXZ(v: Vec4, t: Turn)
    requires IsUnit(t)
    ensures RotateXZ(RotateXZ(v, t), Opposite(t)) == v
  {
    Turn2Opposite(v.x, v.z, t);
  }

  lemma UnrotateXW(v: Vec4, t: Turn)
    requires IsUnit(t)
    ensures RotateXW(RotateXW(v, t), Opposite(t)) == v
  {
    Turn2Opposite(v.x, v.w, t);
  }

  lemma UnrotateYZ(v: Vec4, t: Turn)
    requires IsUnit(t)
    ensures RotateYZ(RotateYZ(v, t), Opposite(t)) == v
  {
    Turn2Opposite(v.y, v.z, t);
  }

  lemma UnrotateYW(v: Vec4, t: Turn)
    requires IsUnit(t)
    ensures RotateYW(RotateYW(v, t), Opposite(t)) == v
  {
    Turn2Opposite(v.y, v.w, t);
  }

  lemma UnrotateZW(v: Vec4, t: Turn)
    requires IsUnit(t)
    ensures RotateZW(RotateZW(v, t), Opposite(t)) == v
  {
    Turn2Opposite(v.z, v.w, t);
  }

  /** Each plane step turns by its angle: two steps in one plane add their
      angles. */  lemma RotateXYCompose(v: Vec4, t1: Turn, t2: Turn)
    ensures RotateXY(RotateXY(v, t1), t2) == RotateXY(v, Compose(t1, t2))
  {
    Turn2Compose(v.x, v.y, t1, t2);
  }

  lemma RotateXZCompose(v: Vec4, t1: Turn, t2: Turn)
    ensures RotateXZ(RotateXZ(v, t1), t2) == RotateXZ(v, Compose(t1, t2))
  {
    Turn2Compose(v.x, v.z, t1, t2);
  }

  lemma RotateXWCompose(v: Vec4, t1: Turn, t2: Turn)
    ensures RotateXW(RotateXW(v, t1), t2) == RotateXW(v, Compose(t1, t2))
  {
    Turn2Compose(v.x, v.w, t1, t2);
  }

  lemma RotateYZCompose(v: Vec4, t1: Turn, t2: Turn)
    ensures RotateYZ(RotateYZ(v, t1), t2) == RotateYZ(v, Compose(t1, t2))
  {
    Turn2Compose(v.y, v.z, t1, t2);
  }

  lemma RotateYWCompose(v: Vec4, t1: Turn, t2: Turn)
    ensures RotateYW(RotateYW(v, t1), t2) == RotateYW(v, Compose(t1, t2))
  {
    Turn2Compose(v.y, v.w, t1, t2);
  }

  lemma RotateZWCompose(v: Vec4, t1: Turn, t2: Turn)
    ensures RotateZW(RotateZW(v, t1), t2) == RotateZW(v, Compose(t1, t2))
  {
    Turn2Compose(v.z, v.w, t1, t2);
  }

  /** With unit pairs, undoing the rotation gives the point back. */
  lemma UnrotateRotate(v: Vec4, a: Angles)
    requires AllUnit(a)
    ensures Unrotate4D(Rotate4D(v, a), a) == v
  {
    var v1 := RotateXY(v, a.xy);
    var v2 := RotateXZ(v1, a.xz);
    var v3 := RotateXW(v2, a.xw);
    var v4 := RotateYZ(v3, a.yz);
    var v5 := RotateYW(v4, a.yw);
    UnrotateZW(v5, a.zw);
    UnrotateYW(v4, a.yw);
    UnrotateYZ(v3, a.yz);
    UnrotateXW(v2, a.xw);
    UnrotateXZ(v1, a.xz);
    UnrotateXY(v, a.xy);
  }

  /** With unit pairs, every point is the image of its unrotation: the
      rotation is onto as well as one-to-one. */
  lemma RotateUnrotate(v: Vec4, a: Angles)
    requires AllUnit(a)
    ensures Rotate4D(Unrotate4D(v, a), a) == v
  {
    var b := OppositeAngles(a);
    var u1 := RotateZW(v, b.zw);
    var u2 := RotateYW(u1, b.yw);
    var u3 := RotateYZ(u2, b.yz);
    var u4 := RotateXW(u3, b.xw);
    var u5 := RotateXZ(u4, b.xz);
    var u6 := RotateXY(u5, b.xy);
    OppositeUnit(a.xy); OppositeUnit(a.xz); OppositeUnit(a.xw);
    OppositeUnit(a.yz); OppositeUnit(a.yw); OppositeUnit(a.zw);
    assert u6 == Unrotate4D(v, a);
    assert RotateXY(u6, a.xy) == u5 by { UnrotateXY(u5, b.xy); }
    assert RotateXZ(u5, a.xz) == u4 by { UnrotateXZ(u4, b.xz); }
    assert RotateXW(u4, a.xw) == u3 by { UnrotateXW(u3, b.xw); }
    assert RotateYZ(u3, a.yz) == u2 by { UnrotateYZ(u2, b.yz); }
    assert RotateYW(u2, a.yw) == u1 by { UnrotateYW(u1, b.yw); }
    assert RotateZW(u1, a.zw) == v by { UnrotateZW(v, b.zw); }
  }

  /** The order of the steps matters: a quarter turn in XY followed by one
      in XZ does not equal the same two turns taken the other way round. */
  lemma PlaneOrderMatters()
    ensures var quarter := QuarterTurn;
            var v := Vec4(1.0, 0.0, 0.0, 0.0);
            RotateXZ(RotateXY(v, quarter), quarter) != RotateXY(RotateXZ(v, quarter), quarter)
  {
  }
}
