/** Points of 4-space and 3-space over the reals, with the squared norm and
    squared distance the hypercube animation reasons about. */
module Geometry {

  /** A point of 4-space: the `{ x, y, z, w }` records of the animation. */
  datatype Vec4 = Vec4(x: real, y: real, z: real, w: real)

  /** A point of 3-space: a projected vertex or a cylinder position. */
  datatype Vec3 = Vec3(x: real, y: real, z: real)

  function NormSq4(v: Vec4): real {
    v.x * v.x + v.y * v.y + v.z * v.z + v.w * v.w
  }

  function Sq(t: real): real {
    t * t
  }

  /** Squared Euclidean distance; the animation takes its square root. */
  function DistSq(p: Vec3, q: Vec3): real {
    Sq(q.x - p.x) + Sq(q.y - p.y) + Sq(q.z - p.z)
  }

  /** Multiplying two strict inequalities between non-negative reals. */
  lemma MulStrict(a: real, b: real)
    requires 0.0 <= b < a
    ensures b * b < a * a
  {
    var d := a - b;
    assert a * a == b * b + 2.0 * b * d + d * d;
    assert d * d > 0.0;
    assert b * d >= 0.0;
  }

  /** A non-negative square is at most `b * b` only when the base lies in
      `[-b, b]`. */
  lemma SquareBound(t: real, b: real)
    requires 0.0 <= b
    requires t * t <= b * b
    ensures -b <= t <= b
  {
    if t > b {
      MulStrict(t, b);
      assert false;
    } else if t < -b {
      MulStrict(-t, b);
      assert false;
    }
  }

  /** The only non-negative root of `q * q` is `q` itself (for `q >= 0`). */
  lemma RootUnique(r: real, q: real)
    requires 0.0 <= r && 0.0 <= q
    requires r * r == q * q
    ensures r == q
  {
    if r < q {
      MulStrict(q, r);
      assert false;
    } else if q < r {
      MulStrict(r, q);
      assert false;
    }
  }
}
