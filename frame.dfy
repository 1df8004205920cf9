/** One frame of a timeline animation (`bn.Frame`): a list of textured
    quadrilaterals, each with the affine transform that carries its texture
    coordinates onto its pose, an optional per-polygon opacity, and the
    bounding box of its pose coordinates. */
module Frames {
  import opened Errors
  import opened JavaLang
  import opened LittleEndian
  import opened Affine

  /** `Timeline.Vertex`: a pose point (x1, y1), a texture point (x2, y2) and
      an opacity that starts at 1. */
  datatype Vertex = Vertex(x1: int, y1: int, x2: int, y2: int, alpha: real)

  /** `java.awt.Polygon` with its four points. */
  datatype Quad = Quad(xs: seq<int>, ys: seq<int>)

  datatype Bounds = Bounds(xMin: int, xMax: int, yMin: int, yMax: int)

  /** `Rectangle2D.Double`. */
  datatype Rect = Rect(x: real, y: real, width: real, height: real)

  /** The four vertices one polygon record selects, and its transform. */
  datatype Poly = Poly(v0: Vertex, v1: Vertex, v2: Vertex, v3: Vertex, transform: Transform)

  /** What `Frame.read` leaves in the four fields. */
  datatype FrameData = FrameData(polys: seq<Quad>, transforms: seq<Transform>, alpha: Option<seq<real>>, bounds: Bounds)

  /** The box before any point: empty, since its maximum is below its minimum. */
  const NO_BOUNDS := Bounds(INT_MAX, INT_MIN, INT_MAX, INT_MIN)

  /** Pose coordinates are stored in 1/32 units from version 6 on. */
  function Scale(ver: int): (k: real)
    ensures k > 0.0
  {
    if ver > 4 then 1.0 / 32.0 else 1.0
  }

  /** `stretchBounds(x, y)`: the smallest change of `b` that covers (x, y). */
  function Stretch(b: Bounds, x: int, y: int): (r: Bounds)
    ensures r.xMin <= x <= r.xMax && r.yMin <= y <= r.yMax
    ensures r.xMin <= b.xMin && r.xMax >= b.xMax && r.yMin <= b.yMin && r.yMax >= b.yMax
    ensures r.xMin == b.xMin || r.xMin == x
    ensures r.xMax == b.xMax || r.xMax == x
    ensures r.yMin == b.yMin || r.yMin == y
    ensures r.yMax == b.yMax || r.yMax == y
  {
    Bounds(if x < b.xMin then x else b.xMin, if x > b.xMax then x else b.xMax,
           if y < b.yMin then y else b.yMin, if y > b.yMax then y else b.yMax)
  }

  /** The four `stretchBounds` calls of one polygon, with the pose points of
      its vertices. */
  function StretchPoly(b: Bounds, q: Poly): Bounds
  {
    Stretch(Stretch(Stretch(Stretch(b, q.v0.x1, q.v0.y1), q.v1.x1, q.v1.y1), q.v2.x1, q.v2.y1), q.v3.x1, q.v3.y1)
  }

  /** The box after the polygons `ps`, in order. */
  function BoundsOf(ps: seq<Poly>): Bounds
  {
    if ps == [] then NO_BOUNDS else StretchPoly(BoundsOf(ps[..|ps| - 1]), ps[|ps| - 1])
  }

  function PoseXs(q: Poly): set<int>
  {
    {q.v0.x1, q.v1.x1, q.v2.x1, q.v3.x1}
  }

  function PoseYs(q: Poly): set<int>
  {
    {q.v0.y1, q.v1.y1, q.v2.y1, q.v3.y1}
  }

  /** The pose points of a polygon are Java `int`s. */
  predicate IntPose(q: Poly)
  {
    forall x :: x in PoseXs(q) + PoseYs(q) ==> INT_MIN <= x <= INT_MAX
  }

  /** `b` holds every pose point of `q`. */
  predicate Covers(b: Bounds, q: Poly)
  {
    (forall x :: x in PoseXs(q) ==> b.xMin <= x <= b.xMax) && (forall y :: y in PoseYs(q) ==> b.yMin <= y <= b.yMax)
  }

  /** The box of a frame is empty exactly when it has no polygon; otherwise
      it holds every pose point, and each of its four sides passes through
      one of them. */
  lemma BoundsTight(ps: seq<Poly>)
    requires forall i :: 0 <= i < |ps| ==> IntPose(ps[i])
    ensures var b := BoundsOf(ps);
      && (ps == [] ==> b == NO_BOUNDS)
      && (ps != [] ==>
        && b.xMin <= b.xMax && b.yMin <= b.yMax
        && (forall i :: 0 <= i < |ps| ==> Covers(b, ps[i]))
        && (exists i :: 0 <= i < |ps| && b.xMin in PoseXs(ps[i]))
        && (exists i :: 0 <= i < |ps| && b.xMax in PoseXs(ps[i]))
        && (exists i :: 0 <= i < |ps| && b.yMin in PoseYs(ps[i]))
        && (exists i :: 0 <= i < |ps| && b.yMax in PoseYs(ps[i])))
  {
    BoundsCover(ps);
    BoundsAttained(ps);
  }

  /** Every pose point lies in the box, so the box of a non-empty frame is
      not empty. */
  lemma {:induction false} BoundsCover(ps: seq<Poly>)
    ensures var b := BoundsOf(ps);
      && (ps != [] ==> b.xMin <= b.xMax && b.yMin <= b.yMax)
      && (forall i :: 0 <= i < |ps| ==> Covers(b, ps[i]))
    decreases |ps|
  {
    if ps != [] {
      var n := |ps| - 1;
      var init, q := ps[..n], ps[n];
      var a := BoundsOf(init);
      var b := StretchPoly(a, q);
      assert b == BoundsOf(ps);
      assert Covers(b, q);
      BoundsCover(init);
      forall i | 0 <= i < n ensures Covers(b, ps[i]) {
        assert ps[i] == init[i];
      }
    }
  }

  /** Each side of the box of a non-empty frame passes through a pose
      point. */
  lemma {:induction false} BoundsAttained(ps: seq<Poly>)
    requires forall i :: 0 <= i < |ps| ==> IntPose(ps[i])
    ensures var b := BoundsOf(ps);
      ps != [] ==>
        && (exists i :: 0 <= i < |ps| && b.xMin in PoseXs(ps[i]))
        && (exists i :: 0 <= i < |ps| && b.xMax in PoseXs(ps[i]))
        && (exists i :: 0 <= i < |ps| && b.yMin in PoseYs(ps[i]))
        && (exists i :: 0 <= i < |ps| && b.yMax in PoseYs(ps[i]))
    decreases |ps|
  {
    if ps != [] {
      var n := |ps| - 1;
      var init, q := ps[..n], ps[n];
      var a := BoundsOf(init);
      assert StretchPoly(a, q) == BoundsOf(ps);
      if init == [] {
        assert a == NO_BOUNDS;
        FirstPoly(q);
        assert ps[0] == q;
      } else {
        assert forall i :: 0 <= i < |init| ==> init[i] == ps[i];
        BoundsAttained(init);
        Attained(ps, a, StretchPoly(a, q), n);
      }
    }
  }

  /** The box of one polygon has its sides on the polygon's pose points. */
  lemma FirstPoly(q: Poly)
    requires IntPose(q)
    ensures var b := StretchPoly(NO_BOUNDS, q);
      b.xMin in PoseXs(q) && b.xMax in PoseXs(q) && b.yMin in PoseYs(q) && b.yMax in PoseYs(q)
  {
    assert q.v0.x1 in PoseXs(q) + PoseYs(q) && q.v0.y1 in PoseXs(q) + PoseYs(q);
    var s1 := Stretch(NO_BOUNDS, q.v0.x1, q.v0.y1);
    assert s1 == Bounds(q.v0.x1, q.v0.x1, q.v0.y1, q.v0.y1);
  }

  /** The sides of the stretched box `b` pass through the last polygon or,
      where it kept a side of the earlier box `a`, through the same point
      as before. */
  lemma Attained(ps: seq<Poly>, a: Bounds, b: Bounds, n: nat)
    requires n + 1 == |ps| && n > 0 && b == StretchPoly(a, ps[n])
    requires exists i :: 0 <= i < n && a.xMin in PoseXs(ps[i])
    requires exists i :: 0 <= i < n && a.xMax in PoseXs(ps[i])
    requires exists i :: 0 <= i < n && a.yMin in PoseYs(ps[i])
    requires exists i :: 0 <= i < n && a.yMax in PoseYs(ps[i])
    ensures exists i :: 0 <= i < |ps| && b.xMin in PoseXs(ps[i])
    ensures exists i :: 0 <= i < |ps| && b.xMax in PoseXs(ps[i])
    ensures exists i :: 0 <= i < |ps| && b.yMin in PoseYs(ps[i])
    ensures exists i :: 0 <= i < |ps| && b.yMax in PoseYs(ps[i])
  {
    var q := ps[n];
    if b.xMin != a.xMin { assert b.xMin in PoseXs(q); }
    if b.xMax != a.xMax { assert b.xMax in PoseXs(q); }
    if b.yMin != a.yMin { assert b.yMin in PoseYs(q); }
    if b.yMax != a.yMax { assert b.yMax in PoseYs(q); }
  }

  function Pose(v: Vertex, scale: real): Point
  {
    Point(v.x1 as real * scale, v.y1 as real * scale)
  }

  function Texture(v: Vertex): Point
  {
    Point(v.x2 as real, v.y2 as real)
  }

  /** Twice the signed area of the texture triangle of three vertices. */
  function TextureArea(v0: Vertex, v1: Vertex, v2: Vertex): int
  {
    (v1.x2 - v0.x2) * (v2.y2 - v0.y2) - (v2.x2 - v0.x2) * (v1.y2 - v0.y2)
  }

  /** The transform of one polygon: the pose basis of `v0, v1, v2` (scaled)
      concatenated with the inverse of their texture basis.  There is none
      ("Bad transform") exactly when the texture triangle is degenerate, and
      otherwise it carries each of the three texture points to its pose. */
  function TransformOf(v0: Vertex, v1: Vertex, v2: Vertex, scale: real): (r: Option<Transform>)
    ensures r.None? <==> TextureArea(v0, v1, v2) == 0
    ensures r.Some? ==> Apply(r.value, Texture(v0)) == Pose(v0, scale)
    ensures r.Some? ==> Apply(r.value, Texture(v1)) == Pose(v1, scale)
    ensures r.Some? ==> Apply(r.value, Texture(v2)) == Pose(v2, scale)
  {
    var t := Transform((v1.x1 - v0.x1) as real * scale, (v1.y1 - v0.y1) as real * scale,
                       (v2.x1 - v0.x1) as real * scale, (v2.y1 - v0.y1) as real * scale,
                       v0.x1 as real * scale, v0.y1 as real * scale);
    var t2 := Transform((v1.x2 - v0.x2) as real, (v1.y2 - v0.y2) as real,
                        (v2.x2 - v0.x2) as real, (v2.y2 - v0.y2) as real,
                        v0.x2 as real, v0.y2 as real);
    BasesOf(v0, v1, v2, scale, t, t2);
    match Inverse(t2)
    case None => None
    case Some(inv) =>
      BasisChange(Pose(v0, scale), Pose(v1, scale), Pose(v2, scale), Texture(v0), Texture(v1), Texture(v2));
      Some(Concatenate(t, inv))
  }

  /** The constructor calls of `Frame.read` are the bases of the pose and
      the texture triangles, and the texture determinant is the area. */
  lemma BasesOf(v0: Vertex, v1: Vertex, v2: Vertex, scale: real, t: Transform, t2: Transform)
    requires t == Transform((v1.x1 - v0.x1) as real * scale, (v1.y1 - v0.y1) as real * scale,
                            (v2.x1 - v0.x1) as real * scale, (v2.y1 - v0.y1) as real * scale,
                            v0.x1 as real * scale, v0.y1 as real * scale)
    requires t2 == Transform((v1.x2 - v0.x2) as real, (v1.y2 - v0.y2) as real,
                             (v2.x2 - v0.x2) as real, (v2.y2 - v0.y2) as real,
                             v0.x2 as real, v0.y2 as real)
    ensures t == Basis(Pose(v0, scale), Pose(v1, scale), Pose(v2, scale))
    ensures t2 == Basis(Texture(v0), Texture(v1), Texture(v2))
    ensures Det(t2) == TextureArea(v0, v1, v2) as real
  {
    var a, b := v1.x2 - v0.x2, v2.y2 - v0.y2;
    var c, d := v2.x2 - v0.x2, v1.y2 - v0.y2;
    assert (a as real) * (b as real) == (a * b) as real;
    assert (c as real) * (d as real) == (c * d) as real;
  }

  /** `coords[i]`: an index out of range is an array index fault. */
  function Lookup(coords: seq<Vertex>, i: int): (r: Result<Vertex>)
    ensures r.Ok? <==> 0 <= i < |coords|
    ensures r.Ok? ==> r.value == coords[i]
    ensures r.Err? ==> r.error == ArrayIndex
  {
    if 0 <= i < |coords| then Ok(coords[i]) else Err(ArrayIndex)
  }

  /** A polygon is made of real vertices and its transform carries the
      texture point of its first three onto their pose. */
  ghost predicate Drawn(q: Poly, coords: seq<Vertex>, scale: real)
  {
    && q.v0 in coords && q.v1 in coords && q.v2 in coords && q.v3 in coords
    && Apply(q.transform, Texture(q.v0)) == Pose(q.v0, scale)
    && Apply(q.transform, Texture(q.v1)) == Pose(q.v1, scale)
    && Apply(q.transform, Texture(q.v2)) == Pose(q.v2, scale)
  }

  /** Six vertex indices, read as shorts. */
  function IndicesAt(s: seq<byte>, p: nat): (r: Result<(seq<int>, nat)>)
    ensures r.Ok? ==> |r.value.0| == 6
  {
    Repeat(q => ReadShortAt(s, q), p, 6)
  }

  /** The four vertices of one polygon record: indices 0, 1, 2 and 5, with
      index 3 repeating index 0 and index 4 repeating index 2. */
  function CornersAt(s: seq<byte>, p: nat, coords: seq<Vertex>): (r: Result<((Vertex, Vertex, Vertex, Vertex), nat)>)
    ensures r.Ok? ==> r.value.1 == p + 12
    ensures r.Ok? ==> var (c, _) := r.value; c.0 in coords && c.1 in coords && c.2 in coords && c.3 in coords
  {
    var (ix, q) :- IndicesAt(s, p);
    RepeatedShortsEnd(s, p, ix, q);
    if ix[3] != ix[0] || ix[4] != ix[2] then Err(Format("Unexpected frame arrangement"))
    else
      var v0 :- Lookup(coords, ix[0]);
      var v1 :- Lookup(coords, ix[1]);
      var v2 :- Lookup(coords, ix[2]);
      var v3 :- Lookup(coords, ix[5]);
      Ok(((v0, v1, v2, v3), q))
  }

  lemma RepeatedShortsEnd(s: seq<byte>, p: nat, ix: seq<int>, q: nat)
    requires IndicesAt(s, p) == Ok((ix, q))
    ensures q == p + 12
  {
    var step := (r: nat) => ReadShortAt(s, r);
    for k := 0 to 6
      invariant Repeat(step, p, k).Ok? && Repeat(step, p, k).value.1 == p + 2 * k
    {
      var (a', q') := Repeat(step, p, k).value;
      RepeatNext(step, p, k, 6, a', q');
    }
  }

  /** One polygon record, `read` as the body of its polygon loop. */
  function PolyAt(s: seq<byte>, p: nat, coords: seq<Vertex>, scale: real): (r: Result<(Poly, nat)>)
    ensures r.Ok? ==> r.value.1 == p + 12 && Drawn(r.value.0, coords, scale)
  {
    var (c, q) :- CornersAt(s, p, coords);
    match TransformOf(c.0, c.1, c.2, scale)
    case None => Err(Format("Bad transform"))
    case Some(t) => Ok((Poly(c.0, c.1, c.2, c.3, t), q))
  }

  /** The read of one polygon record, as a step of `Repeat`. */
  function PolyStep(s: seq<byte>, coords: seq<Vertex>, ver: int): nat -> Result<(Poly, nat)>
  {
    q => PolyAt(s, q, coords, Scale(ver))
  }

  /** The polygon of a record: the texture points of its four vertices. */
  function QuadOf(q: Poly): Quad
  {
    Quad([q.v0.x2, q.v1.x2, q.v2.x2, q.v3.x2], [q.v0.y2, q.v1.y2, q.v2.y2, q.v3.y2])
  }

  /** Whether some polygon is not fully opaque. */
  predicate Translucent(ps: seq<Poly>)
  {
    exists i :: 0 <= i < |ps| && ps[i].v0.alpha != 1.0
  }

  lemma TranslucentNext(ps: seq<Poly>, q: Poly)
    ensures Translucent(ps + [q]) <==> Translucent(ps) || q.v0.alpha != 1.0
  {
    if q.v0.alpha != 1.0 {
      assert (ps + [q])[|ps|] == q;
    }
    if Translucent(ps) {
      var i :| 0 <= i < |ps| && ps[i].v0.alpha != 1.0;
      assert (ps + [q])[i] == ps[i];
    }
  }

  /** The frame a list of polygon records makes. */
  function FrameOf(ps: seq<Poly>): (d: FrameData)
    ensures |d.polys| == |d.transforms| == |ps|
    ensures forall i :: 0 <= i < |ps| ==> d.polys[i] == QuadOf(ps[i]) && d.transforms[i] == ps[i].transform
    ensures d.alpha.None? <==> forall i :: 0 <= i < |ps| ==> ps[i].v0.alpha == 1.0
    ensures d.alpha.Some? ==> |d.alpha.value| == |ps| && forall i :: 0 <= i < |ps| ==> d.alpha.value[i] == ps[i].v0.alpha
    ensures d.bounds == BoundsOf(ps)
  {
    FrameData(seq(|ps|, i requires 0 <= i < |ps| => QuadOf(ps[i])),
              seq(|ps|, i requires 0 <= i < |ps| => ps[i].transform),
              if Translucent(ps) then Some(seq(|ps|, i requires 0 <= i < |ps| => ps[i].v0.alpha)) else None,
              BoundsOf(ps))
  }

  /** `Frame.read`: a short count of points, six per polygon; from version 6
      on a byte that is skipped; then the polygon records. */
  function FrameAt(s: seq<byte>, p: nat, ver: int, coords: seq<Vertex>): (r: Result<(FrameData, nat)>)
  {
    var (numPts, p1) :- ReadShortAt(s, p);
    if numPts < 0 || numPts % 6 != 0 then Err(Format("Unexpected frame size"))
    else
      var (_, p2) :- if ver > 4 then ReadByteAt(s, p1) else Ok((0, p1));
      var (ps, p3) :- Repeat(PolyStep(s, coords, ver), p2, numPts / 6);
      Ok((FrameOf(ps), p3))
  }

  /** `getBounds()` of a box: none when it is empty, else the rectangle of
      the pixels it spans. */
  function BoundsRect(b: Bounds): Option<Rect>
  {
    if b.xMax < b.xMin then None
    else Some(Rect(b.xMin as real, b.yMin as real, (b.xMax - b.xMin + 1) as real, (b.yMax - b.yMin + 1) as real))
  }

  /** A frame has bounds exactly when it has a polygon, and then the
      rectangle is at least one unit wide and high. */
  lemma FrameRect(ps: seq<Poly>)
    requires forall i :: 0 <= i < |ps| ==> IntPose(ps[i])
    ensures BoundsRect(BoundsOf(ps)).None? <==> ps == []
    ensures BoundsRect(BoundsOf(ps)).Some? ==> BoundsRect(BoundsOf(ps)).value.width >= 1.0 && BoundsRect(BoundsOf(ps)).value.height >= 1.0
  {
    BoundsTight(ps);
  }

  /** `FrameAt` once its count and the optional padding byte are read: the
      polygon records decide the rest. */
  lemma FrameAtBody(s: seq<byte>, p0: nat, ver: int, cs: seq<Vertex>, numPts: int, p1: nat, p2: nat)
    requires ReadShortAt(s, p0) == Ok((numPts, p1)) && numPts >= 0 && numPts % 6 == 0
    requires ver > 4 ==> ReadByteAt(s, p1).Ok? && ReadByteAt(s, p1).value.1 == p2
    requires ver <= 4 ==> p2 == p1
    ensures var rest := Repeat(PolyStep(s, cs, ver), p2, numPts / 6);
      && (rest.Err? ==> FrameAt(s, p0, ver, cs) == Err(rest.error))
      && (rest.Ok? ==> FrameAt(s, p0, ver, cs) == Ok((FrameOf(rest.value.0), rest.value.1)))
  {
  }

  class Frame {
    var transforms: array?<Transform>
    var polys: array?<Quad>
    var alpha: array?<real>
    var xMin: int, xMax: int, yMin: int, yMax: int
    ghost var Repr: set<object>

    constructor ()
      ensures transforms == null && polys == null && alpha == null
      ensures xMin == 0 && xMax == 0 && yMin == 0 && yMax == 0
      ensures Repr == {this}
    {
      transforms, polys, alpha := null, null, null;
      xMin, xMax, yMin, yMax := 0, 0, 0, 0;
      Repr := {this};
    }

    function Box(): Bounds
      reads this
    {
      Bounds(xMin, xMax, yMin, yMax)
    }

    /** The frame's fields hold `d`, in arrays of its own. */
    ghost predicate Holds(d: FrameData)
      reads this, Repr
    {
      && transforms != null && polys != null
      && Repr == {this, transforms, polys} + (if alpha == null then {} else {alpha})
      && transforms[..] == d.transforms && polys[..] == d.polys
      && (alpha == null <==> d.alpha.None?)
      && (alpha != null ==> alpha[..] == d.alpha.value)
      && Box() == d.bounds
    }

    function GetBounds(): (r: Option<Rect>)
      reads this
      ensures r == BoundsRect(Box())
    {
      if xMax < xMin then None
      else Some(Rect(xMin as real, yMin as real, (xMax - xMin + 1) as real, (yMax - yMin + 1) as real))
    }

    method StretchBounds(x: int, y: int)
      modifies this
      ensures Box() == Stretch(old(Box()), x, y)
      ensures transforms == old(transforms) && polys == old(polys) && alpha == old(alpha) && Repr == old(Repr)
    {
      if x < xMin { xMin := x; }
      if x > xMax { xMax := x; }
      if y < yMin { yMin := y; }
      if y > yMax { yMax := y; }
    }

    /** The four `stretchBounds` calls of one polygon. */
    method StretchCorners(v0: Vertex, v1: Vertex, v2: Vertex, v3: Vertex)
      modifies this
      ensures Box() == Stretch(Stretch(Stretch(Stretch(old(Box()), v0.x1, v0.y1), v1.x1, v1.y1), v2.x1, v2.y1), v3.x1, v3.y1)
      ensures transforms == old(transforms) && polys == old(polys) && alpha == old(alpha) && Repr == old(Repr)
    {
      StretchBounds(v0.x1, v0.y1);
      StretchBounds(v1.x1, v1.y1);
      StretchBounds(v2.x1, v2.y1);
      StretchBounds(v3.x1, v3.y1);
    }

    /** `read`: decodes one frame against the vertex table `coords`. */
    method Read(src: LittleEndianInputStream, ver: int, coords: array<Vertex>) returns (r: Result<()>)
      requires src.Valid()
      modifies this, src
      ensures src.Valid()
      ensures var spec := FrameAt(src.data, old(src.pos), ver, coords[..]);
        && (r.Ok? <==> spec.Ok?)
        && (spec.Err? ==> r == Err(spec.error))
        && (spec.Ok? ==> src.pos == spec.value.1 && Holds(spec.value.0))
      ensures r.Ok? ==> fresh(transforms) && fresh(polys) && (alpha != null ==> fresh(alpha))
    {
      ghost var s, p0, cs := src.data, src.pos, coords[..];
      var numPts :- src.ReadShort();
      ghost var p1 := src.pos;
      if numPts < 0 || numPts % 6 != 0 {
        return Err(Format("Unexpected frame size"));
      }
      if ver > 4 {
        var _ :- src.ReadByte();
      }
      FrameAtBody(s, p0, ver, cs, numPts, p1, src.pos);
      r := ReadBody(src, ver, coords, numPts / 6);
    }

    /** `read` after the count: the three arrays, the sentinel bounds and
        the polygon records. */
    method ReadBody(src: LittleEndianInputStream, ver: int, coords: array<Vertex>, numPolys: nat) returns (r: Result<()>)
      requires src.Valid()
      modifies this, src
      ensures src.Valid()
      ensures var spec := Repeat(PolyStep(src.data, coords[..], ver), old(src.pos), numPolys);
        && (r.Ok? <==> spec.Ok?)
        && (spec.Err? ==> r == Err(spec.error))
        && (spec.Ok? ==> src.pos == spec.value.1 && Holds(FrameOf(spec.value.0)))
      ensures r.Ok? ==> fresh(transforms) && fresh(polys) && (alpha != null ==> fresh(alpha))
    {
      var qs := new Quad[numPolys];
      var ts := new Transform[numPolys];
      var als := new real[numPolys];
      xMin, xMax, yMin, yMax := INT_MAX, INT_MIN, INT_MAX, INT_MIN;
      var res, hasAlpha, done := ReadPolygons(src, ver, coords, qs, ts, als);
      if res.Err? {
        return res;
      }
      Install(qs, ts, als, hasAlpha, done);
      r := Ok(());
    }

    /** The end of `read`: the frame takes the filled arrays, and drops the
        alpha array when every polygon is opaque. */
    method Install(qs: array<Quad>, ts: array<Transform>, als: array<real>, hasAlpha: bool, ghost done: seq<Poly>)
      requires Filled(qs, ts, als, done) && |done| == qs.Length == ts.Length == als.Length
      requires hasAlpha == Translucent(done) && Box() == BoundsOf(done)
      modifies this
      ensures transforms == ts && polys == qs && alpha == (if hasAlpha then als else null)
      ensures Holds(FrameOf(done))
    {
      FilledFrame(qs, ts, als, done);
      transforms, polys, alpha := ts, qs, als;
      if hasAlpha {
        Repr := {this, ts, qs, als};
      } else {
        alpha := null;
        Repr := {this, ts, qs};
      }
    }

    /** The polygon loop of `read`, filling the three arrays. */
    method ReadPolygons(src: LittleEndianInputStream, ver: int, coords: array<Vertex>,
                        qs: array<Quad>, ts: array<Transform>, als: array<real>)
      returns (r: Result<()>, hasAlpha: bool, ghost done: seq<Poly>)
      requires src.Valid() && qs.Length == ts.Length == als.Length && Box() == NO_BOUNDS
      modifies this, src, qs, ts, als
      ensures src.Valid()
      ensures var spec := Repeat(PolyStep(src.data, coords[..], ver), old(src.pos), qs.Length);
        && (r.Ok? <==> spec.Ok?)
        && (spec.Err? ==> r == Err(spec.error))
        && (spec.Ok? ==> spec.value == (done, src.pos))
      ensures r.Ok? ==> |done| == qs.Length && Filled(qs, ts, als, done)
      ensures r.Ok? ==> hasAlpha == Translucent(done) && Box() == BoundsOf(done)
      ensures transforms == old(transforms) && polys == old(polys) && alpha == old(alpha) && Repr == old(Repr)
    {
      ghost var s, p0 := src.data, src.pos;
      var ix := new int[6];
      hasAlpha := false;
      done := [];
      for i := 0 to qs.Length
        invariant src.Valid() && src.data == s
        invariant Repeat(PolyStep(s, coords[..], ver), p0, i) == Ok((done, src.pos))
        invariant |done| == i && Filled(qs, ts, als, done)
        invariant hasAlpha == Translucent(done)
        invariant Box() == BoundsOf(done)
        invariant transforms == old(transforms) && polys == old(polys) && alpha == old(alpha) && Repr == old(Repr)
      {
        var next := ReadPolygon(src, ix, coords, ver, p0, done, qs.Length);
        if next.Err? {
          return Err(next.error), hasAlpha, done;
        }
        var poly := next.value;
        TranslucentNext(done, poly);
        if poly.v0.alpha != 1.0 {
          hasAlpha := true;
        }
        Store(qs, ts, als, i, done, poly);
        done := done + [poly];
      }
      r := Ok(());
    }

    /** The arrays of the polygon loop hold the first `|done|` records. */
    static ghost predicate Filled(qs: array<Quad>, ts: array<Transform>, als: array<real>, done: seq<Poly>)
      reads qs, ts, als
    {
      && |done| <= qs.Length && |done| <= ts.Length && |done| <= als.Length
      && forall j :: 0 <= j < |done| ==> qs[j] == QuadOf(done[j]) && ts[j] == done[j].transform && als[j] == done[j].v0.alpha
    }

    /** The three array stores of one polygon. */
    static method Store(qs: array<Quad>, ts: array<Transform>, als: array<real>, i: nat, ghost done: seq<Poly>, poly: Poly)
      requires Filled(qs, ts, als, done) && i == |done| < qs.Length == ts.Length == als.Length
      modifies qs, ts, als
      ensures Filled(qs, ts, als, done + [poly])
    {
      als[i] := poly.v0.alpha;
      ts[i] := poly.transform;
      qs[i] := Quad([poly.v0.x2, poly.v1.x2, poly.v2.x2, poly.v3.x2], [poly.v0.y2, poly.v1.y2, poly.v2.y2, poly.v3.y2]);
    }

    /** The arrays the polygon loop filled hold the frame of its records. */
    static lemma FilledFrame(qs: array<Quad>, ts: array<Transform>, als: array<real>, done: seq<Poly>)
      requires Filled(qs, ts, als, done) && |done| == qs.Length == ts.Length == als.Length
      ensures var d := FrameOf(done);
        && qs[..] == d.polys && ts[..] == d.transforms
        && (d.alpha.None? <==> !Translucent(done))
        && (d.alpha.Some? ==> als[..] == d.alpha.value)
        && d.bounds == BoundsOf(done)
    {
      FilledQuads(qs, ts, als, done);
      FilledTransforms(qs, ts, als, done);
      FilledAlphas(qs, ts, als, done);
    }

    /** The polygon array of `FilledFrame`. */
    static lemma FilledQuads(qs: array<Quad>, ts: array<Transform>, als: array<real>, done: seq<Poly>)
      requires Filled(qs, ts, als, done) && |done| == qs.Length
      ensures qs[..] == FrameOf(done).polys
    {
      var d := FrameOf(done);
      assert forall j :: 0 <= j < |done| ==> qs[..][j] == d.polys[j];
    }

    /** The transform array of `FilledFrame`. */
    static lemma FilledTransforms(qs: array<Quad>, ts: array<Transform>, als: array<real>, done: seq<Poly>)
      requires Filled(qs, ts, als, done) && |done| == ts.Length
      ensures ts[..] == FrameOf(done).transforms
    {
      var d := FrameOf(done);
      assert forall j :: 0 <= j < |done| ==> ts[..][j] == d.transforms[j];
    }

    /** The alpha array of `FilledFrame`. */
    static lemma FilledAlphas(qs: array<Quad>, ts: array<Transform>, als: array<real>, done: seq<Poly>)
      requires Filled(qs, ts, als, done) && |done| == als.Length
      ensures FrameOf(done).alpha.Some? ==> als[..] == FrameOf(done).alpha.value
    {
      var d := FrameOf(done);
      if d.alpha.Some? {
        assert forall j :: 0 <= j < |done| ==> als[..][j] == d.alpha.value[j];
      }
    }

    /** One polygon of `read` after its indices: its four `stretchBounds`
        calls and its transform. */
    method ReadPolygon(src: LittleEndianInputStream, ix: array<int>, coords: array<Vertex>, ver: int,
                       ghost p0: nat, ghost done: seq<Poly>, ghost n: nat)
      returns (r: Result<Poly>)
      requires src.Valid() && ix.Length == 6 && |done| < n
      requires Repeat(PolyStep(src.data, coords[..], ver), p0, |done|) == Ok((done, src.pos))
      modifies this, src, ix
      ensures src.Valid()
      ensures r.Err? ==> Repeat(PolyStep(src.data, coords[..], ver), p0, n) == Err(r.error)
      ensures r.Ok? ==> Repeat(PolyStep(src.data, coords[..], ver), p0, |done| + 1) == Ok((done + [r.value], src.pos))
      ensures r.Ok? ==> Box() == StretchPoly(old(Box()), r.value)
      ensures transforms == old(transforms) && polys == old(polys) && alpha == old(alpha) && Repr == old(Repr)
    {
      RepeatNext(PolyStep(src.data, coords[..], ver), p0, |done|, n, done, src.pos);
      var c :- ReadCorners(src, ix, coords);
      var (v0, v1, v2, v3) := c;
      StretchCorners(v0, v1, v2, v3);
      var t := TransformOf(v0, v1, v2, Scale(ver));
      if t.None? {
        return Err(Format("Bad transform"));
      }
      r := Ok(Poly(v0, v1, v2, v3, t.value));
    }

    /** The first part of a polygon of `read`: six indices into the shared
        array `ix`, the arrangement check and the four vertex lookups. */
    method ReadCorners(src: LittleEndianInputStream, ix: array<int>, coords: array<Vertex>)
      returns (r: Result<(Vertex, Vertex, Vertex, Vertex)>)
      requires src.Valid() && ix.Length == 6
      modifies src, ix
      ensures src.Valid()
      ensures Follows(r, CornersAt(src.data, old(src.pos), coords[..]), src.pos)
    {
      ghost var s, p0 := src.data, src.pos;
      ghost var step := q => ReadShortAt(s, q);
      for j := 0 to 6
        invariant src.Valid() && src.data == s
        invariant Repeat(step, p0, j) == Ok((ix[..j], src.pos))
      {
        RepeatNext(step, p0, j, 6, ix[..j], src.pos);
        var v :- src.ReadShort();
        ix[j] := v;
        assert ix[..j + 1] == ix[..j] + [v];
      }
      assert ix[..6] == ix[..];
      if ix[3] != ix[0] || ix[4] != ix[2] {
        return Err(Format("Unexpected frame arrangement"));
      }
      if !(0 <= ix[0] < coords.Length) || !(0 <= ix[1] < coords.Length)
        || !(0 <= ix[2] < coords.Length) || !(0 <= ix[5] < coords.Length) {
        return Err(ArrayIndex);
      }
      r := Ok((coords[ix[0]], coords[ix[1]], coords[ix[2]], coords[ix[5]]));
    }
  }
}
