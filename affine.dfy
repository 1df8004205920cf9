/** The part of `java.awt.geom.AffineTransform` the frame decoders use, over
    exact reals: the six-coefficient constructor, `createInverse` and
    `concatenate`.  A transform maps (x, y) to
    (m00·x + m01·y + m02, m10·x + m11·y + m12). */
module Affine {
  import opened JavaLang

  datatype Transform = Transform(m00: real, m10: real, m01: real, m11: real, m02: real, m12: real)

  datatype Point = Point(x: real, y: real)

  function Apply(t: Transform, p: Point): Point
  {
    Point(t.m00 * p.x + t.m01 * p.y + t.m02, t.m10 * p.x + t.m11 * p.y + t.m12)
  }

  function Det(t: Transform): real
  {
    t.m00 * t.m11 - t.m01 * t.m10
  }

  /** `createInverse`: there is none (the NoninvertibleTransformException)
      exactly when the determinant is zero. */
  function Inverse(t: Transform): (r: Option<Transform>)
    ensures r.Some? <==> Det(t) != 0.0
  {
    if Det(t) == 0.0 then None else Some(Adjugate(t, Det(t)))
  }

  /** The adjugate of `t` divided by `d`. */
  function Adjugate(t: Transform, d: real): Transform
    requires d != 0.0
  {
    Transform(t.m11 / d, -t.m10 / d, -t.m01 / d, t.m00 / d,
              (t.m01 * t.m12 - t.m11 * t.m02) / d, (t.m10 * t.m02 - t.m00 * t.m12) / d)
  }

  /** The inverse undoes the transform. */
  lemma InverseCancels(t: Transform)
    ensures Inverse(t).Some? ==> forall p :: Apply(Inverse(t).value, Apply(t, p)) == p
  {
    if Inverse(t).Some? {
      forall p ensures Apply(Inverse(t).value, Apply(t, p)) == p {
        InverseAt(t, p);
      }
    }
  }

  lemma InverseAt(t: Transform, p: Point)
    requires Det(t) != 0.0
    ensures Apply(Inverse(t).value, Apply(t, p)) == p
  {
    InverseAtX(t, p);
    InverseAtY(t, p);
  }

  lemma InverseAtX(t: Transform, p: Point)
    requires Det(t) != 0.0
    ensures Apply(Inverse(t).value, Apply(t, p)).x == p.x
  {
    var a := Adjugate(t, Det(t));
    assert Inverse(t).value == a;
    UndoX(a.m00, a.m01, a.m02, t.m00, t.m10, t.m01, t.m11, t.m02, t.m12,
          Det(t), p.x, p.y, Apply(t, p).x, Apply(t, p).y);
  }

  lemma InverseAtY(t: Transform, p: Point)
    requires Det(t) != 0.0
    ensures Apply(Inverse(t).value, Apply(t, p)).y == p.y
  {
    var a := Adjugate(t, Det(t));
    assert Inverse(t).value == a;
    UndoY(a.m10, a.m11, a.m12, t.m00, t.m10, t.m01, t.m11, t.m02, t.m12,
          Det(t), p.x, p.y, Apply(t, p).x, Apply(t, p).y);
  }

  /** The first row of the inverse, `(e, -c, c·g - e·f) / d`, recovers `x`
      from the image point. */
  lemma UndoX(m0: real, m1: real, m2: real, a: real, b: real, c: real, e: real, f: real, g: real,
              d: real, x: real, y: real, qx: real, qy: real)
    requires d == a * e - c * b && d != 0.0
    requires qx == a * x + c * y + f && qy == b * x + e * y + g
    requires m0 == e / d && m1 == -c / d && m2 == (c * g - e * f) / d
    ensures m0 * qx + m1 * qy + m2 == x
  {
    Solve(a, b, c, e, f, g, d, x, y, qx, qy);
    Row(e, -c, c * g - e * f, qx, qy, d, x);
  }

  /** The second row, `(-b, a, b·f - a·g) / d`, recovers `y`. */
  lemma UndoY(m0: real, m1: real, m2: real, a: real, b: real, c: real, e: real, f: real, g: real,
              d: real, x: real, y: real, qx: real, qy: real)
    requires d == a * e - c * b && d != 0.0
    requires qx == a * x + c * y + f && qy == b * x + e * y + g
    requires m0 == -b / d && m1 == a / d && m2 == (b * f - a * g) / d
    ensures m0 * qx + m1 * qy + m2 == y
  {
    Solve(a, b, c, e, f, g, d, x, y, qx, qy);
    Row(-b, a, b * f - a * g, qx, qy, d, y);
  }

  /** Cramer's rule for the linear part of a transform. */
  lemma Solve(a: real, b: real, c: real, e: real, f: real, g: real, d: real, x: real, y: real, qx: real, qy: real)
    requires d == a * e - c * b
    requires qx == a * x + c * y + f && qy == b * x + e * y + g
    ensures e * qx + -c * qy + (c * g - e * f) == d * x
    ensures -b * qx + a * qy + (b * f - a * g) == d * y
  {
    assert e * qx == a * e * x + c * e * y + e * f;
    assert -c * qy == -(b * c * x) - c * e * y - c * g;
    assert (a * e - c * b) * x == a * e * x - b * c * x;
    assert -b * qx == -(a * b * x) - b * c * y - b * f;
    assert a * qy == a * b * x + a * e * y + a * g;
    assert (a * e - c * b) * y == a * e * y - b * c * y;
  }

  /** One row of the inverse: dividing a solved equation by `d`. */
  lemma Row(u: real, v: real, w: real, x: real, y: real, d: real, z: real)
    requires d != 0.0 && u * x + v * y + w == d * z
    ensures u / d * x + v / d * y + w / d == z
  {
    Scaled(u, v, w, x, y, d);
    Cancel(d, z);
  }

  lemma Scaled(u: real, v: real, w: real, x: real, y: real, d: real)
    requires d != 0.0
    ensures u / d * x + v / d * y + w / d == (u * x + v * y + w) / d
  {
  }

  lemma Cancel(d: real, x: real)
    requires d != 0.0
    ensures d * x / d == x
  {
  }

  /** `t.concatenate(u)`: the product of the two matrices. */
  function Concatenate(t: Transform, u: Transform): Transform
  {
    Transform(t.m00 * u.m00 + t.m01 * u.m10, t.m10 * u.m00 + t.m11 * u.m10,
              t.m00 * u.m01 + t.m01 * u.m11, t.m10 * u.m01 + t.m11 * u.m11,
              t.m00 * u.m02 + t.m01 * u.m12 + t.m02, t.m10 * u.m02 + t.m11 * u.m12 + t.m12)
  }

  /** The concatenation applies `u` first, then `t`. */
  lemma ConcatenateApplies(t: Transform, u: Transform)
    ensures forall p :: Apply(Concatenate(t, u), p) == Apply(t, Apply(u, p))
  {
    forall p ensures Apply(Concatenate(t, u), p) == Apply(t, Apply(u, p)) {
      ConcatenateAt(t, u, p);
    }
  }

  lemma ConcatenateAt(t: Transform, u: Transform, p: Point)
    ensures Apply(Concatenate(t, u), p) == Apply(t, Apply(u, p))
  {
    var c, q := Concatenate(t, u), Apply(u, p);
    assert q.x == u.m00 * p.x + u.m01 * p.y + u.m02 && q.y == u.m10 * p.x + u.m11 * p.y + u.m12;
    Compose(t.m00, t.m01, t.m02, u.m00, u.m01, u.m02, u.m10, u.m11, u.m12, p.x, p.y);
    assert Apply(c, p).x == Apply(t, q).x;
    Compose(t.m10, t.m11, t.m12, u.m00, u.m01, u.m02, u.m10, u.m11, u.m12, p.x, p.y);
    assert Apply(c, p).y == Apply(t, q).y;
  }

  /** One row of a matrix product applied to a point. */
  lemma Compose(a: real, b: real, c: real, d: real, e: real, f: real, g: real, h: real, k: real, x: real, y: real)
    ensures (a * d + b * g) * x + (a * e + b * h) * y + (a * f + b * k + c)
         == a * (d * x + e * y + f) + b * (g * x + h * y + k) + c
  {
  }

  /** The transform that sends the origin to `o`, (1, 0) to `a` and (0, 1)
      to `b`: the constructor call with the two basis vectors and `o`. */
  function Basis(o: Point, a: Point, b: Point): (t: Transform)
    ensures Apply(t, Point(0.0, 0.0)) == o
    ensures Apply(t, Point(1.0, 0.0)) == a
    ensures Apply(t, Point(0.0, 1.0)) == b
  {
    Transform(a.x - o.x, a.y - o.y, b.x - o.x, b.y - o.y, o.x, o.y)
  }

  /** `t.concatenate(u.createInverse())` with `t` and `u` built by `Basis`:
      the transform that sends the three points of `u` to those of `t`. */
  lemma BasisChange(o: Point, a: Point, b: Point, o': Point, a': Point, b': Point)
    requires Inverse(Basis(o', a', b')).Some?
    ensures var m := Concatenate(Basis(o, a, b), Inverse(Basis(o', a', b')).value);
      Apply(m, o') == o && Apply(m, a') == a && Apply(m, b') == b
  {
    var u := Basis(o', a', b');
    var inv := Inverse(u).value;
    InverseCancels(u);
    ConcatenateApplies(Basis(o, a, b), inv);
    assert Apply(inv, Apply(u, Point(0.0, 0.0))) == Point(0.0, 0.0);
    assert Apply(inv, Apply(u, Point(1.0, 0.0))) == Point(1.0, 0.0);
    assert Apply(inv, Apply(u, Point(0.0, 1.0))) == Point(0.0, 1.0);
  }
}
