/** Skeletal animations (`bn.Animation`): a package file holds a list of
    animations, each a table of vertices, a box, a list of frames made of
    textured quadrilaterals that index into the table, and the order the
    frames play in.  The pure functions `...At(s, p)` say what the decoder
    reads at `p`; the classes `AnimFrame`, `Animation` and `AnimationLibrary`
    are the decoder, proved to agree with them, and the static lookup cache
    keyed by lower-cased animation names. */
module Animations {
  import opened Errors
  import opened JavaLang
  import opened LittleEndian
  import opened Affine
  import opened Frames
  import Timelines

  /** One vertex of the table: pose x, pose y, texture x, texture y, the four
      consecutive entries of the `coords` array that belong to it. */
  type Corner = (int, int, int, int)

  // ---------------------------------------------------------------------
  // The vertex table

  /** `n` calls of `readByte`, whose bytes are dropped. */
  function SkipAt(s: seq<byte>, p: nat, n: nat): (r: Result<((), nat)>)
    ensures r.Ok? <==> n == 0 || p + n <= |s|
    ensures r.Ok? ==> r.value.1 == p + n
    ensures r.Err? ==> r.error == EOF
    decreases n
  {
    if n == 0 then Ok(((), p))
    else
      var (_, q) :- ReadByteAt(s, p);
      SkipAt(s, q, n - 1)
  }

  /** The number of bytes that follow each vertex: only version 8 has them,
      and a selector whose values 0, 1 and 0x101 stand for 0, 4 and 16. */
  function ExtraAt(s: seq<byte>, p: nat, ver: int): (r: Result<(nat, nat)>)
  {
    if ver != 8 then Ok((0, p))
    else
      var (sel, q) :- ReadShortAt(s, p);
      if sel == 0 then Ok((0, q))
      else if sel == 1 then Ok((4, q))
      else if sel == 0x101 then Ok((16, q))
      else Err(Format("Unknown point size"))
  }

  /** The selector means what it means in a timeline, counted in bytes
      rather than in floats of four bytes. */
  lemma ExtraIsFloats(s: seq<byte>, p: nat, ver: int)
    ensures var e, f := ExtraAt(s, p, ver), Timelines.PointSizeAt(s, p, ver);
      && (e.Ok? <==> f.Ok?)
      && (e.Err? ==> e.error == f.error)
      && (e.Ok? ==> e.value == (4 * f.value.0, f.value.1))
  {
  }

  /** One vertex: its four coordinates, with the short that version 4 skips
      after the pose point, then `extra` bytes that are skipped. */
  function CoordAt(s: seq<byte>, p: nat, ver: int, extra: nat): (r: Result<(Corner, nat)>)
  {
    var (c, q) :- Timelines.CornerAt(s, p, ver);
    var (_, q') :- SkipAt(s, q, extra);
    Ok((c, q'))
  }

  function CoordStep(s: seq<byte>, ver: int, extra: nat): nat -> Result<(Corner, nat)>
  {
    q => CoordAt(s, q, ver, extra)
  }

  /** The vertex table of `readFrames`: a short count, the selector of
      version 8, then the vertices; a negative count fails as the allocation
      of the table does. */
  function CoordsAt(s: seq<byte>, p: nat, ver: int): (r: Result<(seq<Corner>, nat)>)
    ensures r.Ok? ==> ReadShortAt(s, p).Ok? && |r.value.0| == ReadShortAt(s, p).value.0
  {
    var (numPoints, p1) :- ReadShortAt(s, p);
    var (extra, p2) :- ExtraAt(s, p1, ver);
    if numPoints < 0 then Err(NegativeArraySize)
    else Repeat(CoordStep(s, ver, extra), p2, numPoints)
  }

  /** A vertex takes `VertexWidth(ver)` bytes and its extra bytes, fails
      only for lack of them, and has its pose point in the first two shorts
      and its texture point in the two shorts before the extra bytes. */
  lemma CoordLayout(s: seq<byte>, p: nat, ver: int, extra: nat)
    ensures var r := CoordAt(s, p, ver, extra);
      var w := VertexWidth(ver);
      && (r.Ok? <==> p + w + extra <= |s|)
      && (r.Err? ==> r.error == EOF)
      && (r.Ok? ==> r.value == ((ShortValue(s[p], s[p + 1]), ShortValue(s[p + 2], s[p + 3]),
                                 ShortValue(s[p + w - 4], s[p + w - 3]), ShortValue(s[p + w - 2], s[p + w - 1])),
                                p + w + extra))
  {
    Timelines.CornerLayout(s, p, ver);
  }

  function VertexWidth(ver: int): nat
  {
    Timelines.VertexWidth(ver)
  }

  /** The coordinates of a timeline vertex. */
  function CornerOf(v: Vertex): Corner
  {
    (v.x1, v.y1, v.x2, v.y2)
  }

  /** The vertex table of an animation takes the same bytes as that of a
      timeline, fails in the same way, and holds the same coordinates: the
      two decoders agree on the layout and differ only in what they keep of
      the floats. */
  lemma SameTable(s: seq<byte>, p: nat, ver: int, toFloat: int -> real)
    ensures var a, t := CoordsAt(s, p, ver), Timelines.CoordsAt(s, p, ver, toFloat);
      && (a.Ok? <==> t.Ok?)
      && (a.Err? ==> a.error == t.error)
      && (a.Ok? ==> a.value.1 == t.value.1 && forall i :: 0 <= i < |a.value.0| ==> a.value.0[i] == CornerOf(t.value.0[i]))
  {
    ExtraIsFloats(s, p + 2, ver);
    var e := ExtraAt(s, p + 2, ver);
    if ReadShortAt(s, p).Ok? && e.Ok? && ReadShortAt(s, p).value.0 >= 0 {
      var n := e.value.0 / 4;
      assert e.value.0 == 4 * n;
      var step, other := CoordStep(s, ver, e.value.0), Timelines.VertexStep(s, ver, n, toFloat);
      forall q: nat
        ensures step(q).Ok? <==> other(q).Ok?
        ensures step(q).Err? ==> step(q).error == other(q).error
        ensures step(q).Ok? ==> step(q).value == (CornerOf(other(q).value.0), other(q).value.1)
      {
        SameVertex(s, q, ver, n, toFloat);
      }
      RepeatAlike(step, other, CornerOf, e.value.1, ReadShortAt(s, p).value.0);
    }
  }

  /** One vertex of each table. */
  lemma SameVertex(s: seq<byte>, q: nat, ver: int, n: nat, toFloat: int -> real)
    ensures var a, t := CoordAt(s, q, ver, 4 * n), Timelines.VertexAt(s, q, ver, n, toFloat);
      && (a.Ok? <==> t.Ok?)
      && (a.Err? ==> a.error == t.error)
      && (a.Ok? ==> a.value == (CornerOf(t.value.0), t.value.1))
  {
    CoordLayout(s, q, ver, 4 * n);
    Timelines.VertexLayout(s, q, ver, n, toFloat);
  }

  // ---------------------------------------------------------------------
  // Faces

  /** One vertex reference of a face: a short that must index the table, as
      `coords[p * 4]` and `coords[p * 4 + 1]` do; the index with the vertex. */
  function RefAt(s: seq<byte>, p: nat, coords: seq<Corner>): (r: Result<((int, Corner), nat)>)
    ensures r.Ok? ==> 0 <= r.value.0.0 < |coords| && r.value.0.1 == coords[r.value.0.0]
  {
    var (i, q) :- Timelines.IndexAt(s, p, |coords|);
    Ok(((i, coords[i]), q))
  }

  function RefStep(s: seq<byte>, coords: seq<Corner>): nat -> Result<((int, Corner), nat)>
  {
    q => RefAt(s, q, coords)
  }

  /** One face of a frame: its six references in file order, the polygon of
      the texture points of references 0, 1, 2 and 5, and the transform that
      carries the texture onto the pose. */
  datatype Face = Face(refs: seq<(int, Corner)>, quad: Quad, transform: Transform)

  /** A corner as a timeline vertex, fully opaque. */
  function AsVertex(c: Corner): Vertex
  {
    Vertex(c.0, c.1, c.2, c.3, 1.0)
  }

  /** The polygon of a face: the texture points of four of its vertices. */
  function TextureQuad(c0: Corner, c1: Corner, c2: Corner, c3: Corner): Quad
  {
    Quad([c0.2, c1.2, c2.2, c3.2], [c0.3, c1.3, c2.3, c3.3])
  }

  /** One face: six references, the fourth of which must repeat the first
      and the fifth the third, then the transform of the first three, with
      the pose unscaled. */
  function FaceAt(s: seq<byte>, p: nat, coords: seq<Corner>): (r: Result<(Face, nat)>)
    ensures r.Ok? ==> |r.value.0.refs| == 6
  {
    var (refs, q) :- Repeat(RefStep(s, coords), p, 6);
    if refs[3].0 != refs[0].0 || refs[4].0 != refs[2].0 then Err(Format("Unexpected frame arrangement"))
    else match TransformOf(AsVertex(refs[0].1), AsVertex(refs[1].1), AsVertex(refs[2].1), 1.0)
      case None => Err(Format("Bad transform"))
      case Some(t) => Ok((Face(refs, TextureQuad(refs[0].1, refs[1].1, refs[2].1, refs[5].1), t), q))
  }

  function FaceStep(s: seq<byte>, coords: seq<Corner>): nat -> Result<(Face, nat)>
  {
    q => FaceAt(s, q, coords)
  }

  /** A face as read: twelve bytes of six references into the table, the
      fourth the same vertex as the first and the fifth as the third, whose
      transform carries the texture point of each of the first three onto
      its pose point. */
  lemma FaceShape(s: seq<byte>, p: nat, coords: seq<Corner>)
    ensures var r := FaceAt(s, p, coords);
      r.Ok? ==> var f := r.value.0;
        && r.value.1 == p + 12
        && (forall k :: 0 <= k < 6 ==> 0 <= f.refs[k].0 < |coords| && f.refs[k].1 == coords[f.refs[k].0])
        && f.refs[3] == f.refs[0] && f.refs[4] == f.refs[2]
        && f.quad == TextureQuad(f.refs[0].1, f.refs[1].1, f.refs[2].1, f.refs[5].1)
        && Apply(f.transform, Texture(AsVertex(f.refs[0].1))) == Pose(AsVertex(f.refs[0].1), 1.0)
        && Apply(f.transform, Texture(AsVertex(f.refs[1].1))) == Pose(AsVertex(f.refs[1].1), 1.0)
        && Apply(f.transform, Texture(AsVertex(f.refs[2].1))) == Pose(AsVertex(f.refs[2].1), 1.0)
  {
    var r := FaceAt(s, p, coords);
    if r.Ok? {
      var step := RefStep(s, coords);
      RefsShape(s, p, coords);
      assert r.value.0.refs == Repeat(step, p, 6).value.0;
    }
  }

  /** Six references read: the vertices they name, twelve bytes on. */
  lemma RefsShape(s: seq<byte>, p: nat, coords: seq<Corner>)
    ensures var rs := Repeat(RefStep(s, coords), p, 6);
      rs.Ok? ==> && rs.value.1 == p + 12
                 && forall k :: 0 <= k < 6 ==> 0 <= rs.value.0[k].0 < |coords| && rs.value.0[k].1 == coords[rs.value.0[k].0]
  {
    var step := RefStep(s, coords);
    RepeatEach(step, (x: (int, Corner)) => 0 <= x.0 < |coords| && x.1 == coords[x.0], p, 6);
    RepeatAdvance(step, 2, p, 6);
  }

  /** References that do not repeat are "Unexpected frame arrangement";
      otherwise a degenerate texture triangle, and only that, is "Bad
      transform". */
  lemma FaceErrors(s: seq<byte>, p: nat, coords: seq<Corner>)
    ensures var refs := Repeat(RefStep(s, coords), p, 6);
      refs.Ok? ==> var rs := refs.value.0;
        && (rs[3].0 != rs[0].0 || rs[4].0 != rs[2].0 ==> FaceAt(s, p, coords) == Err(Format("Unexpected frame arrangement")))
        && (rs[3].0 == rs[0].0 && rs[4].0 == rs[2].0 ==>
              (FaceAt(s, p, coords) == Err(Format("Bad transform")) <==>
               TextureArea(AsVertex(rs[0].1), AsVertex(rs[1].1), AsVertex(rs[2].1)) == 0))
  {
  }

  // ---------------------------------------------------------------------
  // Bounds

  /** The updates of `xMin`, `xMax`, `yMin` and `yMax` in the reference
      loop: the pose point of each referenced vertex, in order. */
  function StretchRefs(b: Bounds, refs: seq<(int, Corner)>): Bounds
    decreases |refs|
  {
    if refs == [] then b
    else
      var n := |refs| - 1;
      Stretch(StretchRefs(b, refs[..n]), refs[n].1.0, refs[n].1.1)
  }

  /** The box after the faces `fs`, from the empty box of the sentinels. */
  function FacesBox(fs: seq<Face>): Bounds
    decreases |fs|
  {
    if fs == [] then NO_BOUNDS
    else
      var n := |fs| - 1;
      StretchRefs(FacesBox(fs[..n]), fs[n].refs)
  }

  /** The pose point of `c` lies in `b`. */
  predicate Inside(b: Bounds, c: Corner)
  {
    b.xMin <= c.0 <= b.xMax && b.yMin <= c.1 <= b.yMax
  }

  /** `r` holds `b`. */
  predicate Wider(r: Bounds, b: Bounds)
  {
    r.xMin <= b.xMin && r.xMax >= b.xMax && r.yMin <= b.yMin && r.yMax >= b.yMax
  }

  /** Stretching by references widens the box to hold each of them, and
      moves each side only onto one of their pose points. */
  lemma {:induction false} StretchRefsSpec(b: Bounds, refs: seq<(int, Corner)>)
    ensures var r := StretchRefs(b, refs);
      && Wider(r, b)
      && (forall k :: 0 <= k < |refs| ==> Inside(r, refs[k].1))
      && (r.xMin == b.xMin || exists k :: 0 <= k < |refs| && r.xMin == refs[k].1.0)
      && (r.xMax == b.xMax || exists k :: 0 <= k < |refs| && r.xMax == refs[k].1.0)
      && (r.yMin == b.yMin || exists k :: 0 <= k < |refs| && r.yMin == refs[k].1.1)
      && (r.yMax == b.yMax || exists k :: 0 <= k < |refs| && r.yMax == refs[k].1.1)
    decreases |refs|
  {
    if refs != [] {
      var n := |refs| - 1;
      var init := refs[..n];
      StretchRefsSpec(b, init);
      var a := StretchRefs(b, init);
      var r := StretchRefs(b, refs);
      assert r == Stretch(a, refs[n].1.0, refs[n].1.1);
      assert forall k :: 0 <= k < n ==> refs[k] == init[k];
    }
  }

  /** The pose points of the vertices the faces reference are Java `int`s,
      as shorts are. */
  predicate IntRefs(fs: seq<Face>)
  {
    forall i, k :: 0 <= i < |fs| && 0 <= k < |fs[i].refs| ==>
      INT_MIN <= fs[i].refs[k].1.0 <= INT_MAX && INT_MIN <= fs[i].refs[k].1.1 <= INT_MAX
  }

  /** Some face references a vertex with pose x `x`. */
  predicate HasX(fs: seq<Face>, x: int)
  {
    exists i, k :: 0 <= i < |fs| && 0 <= k < |fs[i].refs| && fs[i].refs[k].1.0 == x
  }

  predicate HasY(fs: seq<Face>, y: int)
  {
    exists i, k :: 0 <= i < |fs| && 0 <= k < |fs[i].refs| && fs[i].refs[k].1.1 == y
  }

  /** The box of a frame is the empty box exactly when it has no face;
      otherwise it holds the pose point of every vertex every face
      references, and each of its sides passes through one of them. */
  lemma FacesBoxTight(fs: seq<Face>)
    requires forall i :: 0 <= i < |fs| ==> |fs[i].refs| == 6
    requires IntRefs(fs)
    ensures var b := FacesBox(fs);
      && (fs == [] ==> b == NO_BOUNDS)
      && (fs != [] ==>
        && b.xMin <= b.xMax && b.yMin <= b.yMax
        && (forall i, k :: 0 <= i < |fs| && 0 <= k < |fs[i].refs| ==> Inside(b, fs[i].refs[k].1))
        && HasX(fs, b.xMin) && HasX(fs, b.xMax) && HasY(fs, b.yMin) && HasY(fs, b.yMax))
  {
    FacesBoxCover(fs);
    FacesBoxAttained(fs);
  }

  lemma {:induction false} FacesBoxCover(fs: seq<Face>)
    ensures var b := FacesBox(fs);
      forall i, k :: 0 <= i < |fs| && 0 <= k < |fs[i].refs| ==> Inside(b, fs[i].refs[k].1)
    decreases |fs|
  {
    if fs != [] {
      var n := |fs| - 1;
      var init := fs[..n];
      FacesBoxCover(init);
      var a := FacesBox(init);
      StretchRefsSpec(a, fs[n].refs);
      var b := FacesBox(fs);
      assert b == StretchRefs(a, fs[n].refs);
      forall i, k | 0 <= i < |fs| && 0 <= k < |fs[i].refs| ensures Inside(b, fs[i].refs[k].1) {
        if i < n {
          assert fs[i] == init[i];
          assert Inside(a, init[i].refs[k].1);
        }
      }
    }
  }

  lemma {:induction false} FacesBoxAttained(fs: seq<Face>)
    requires forall i :: 0 <= i < |fs| ==> |fs[i].refs| == 6
    requires IntRefs(fs)
    ensures var b := FacesBox(fs);
      fs != [] ==> HasX(fs, b.xMin) && HasX(fs, b.xMax) && HasY(fs, b.yMin) && HasY(fs, b.yMax)
    decreases |fs|
  {
    if fs != [] {
      var n := |fs| - 1;
      var init, f := fs[..n], fs[n];
      var a := FacesBox(init);
      var b := StretchRefs(a, f.refs);
      assert b == FacesBox(fs);
      StretchRefsSpec(a, f.refs);
      assert fs[n] == f;
      if init == [] {
        assert a == NO_BOUNDS;
        assert Inside(b, f.refs[0].1);
        assert INT_MIN <= f.refs[0].1.0 <= INT_MAX && INT_MIN <= f.refs[0].1.1 <= INT_MAX;
        LastFace(fs, a, b);
      } else {
        assert forall i :: 0 <= i < n ==> init[i] == fs[i];
        FacesBoxAttained(init);
        EarlierFaces(fs, a, b);
      }
    }
  }

  /** The box of a single face: where a side kept the sentinel, the first
      pose point lies on it too. */
  lemma LastFace(fs: seq<Face>, a: Bounds, b: Bounds)
    requires |fs| == 1 && |fs[0].refs| > 0 && a == NO_BOUNDS && Inside(b, fs[0].refs[0].1)
    requires INT_MIN <= fs[0].refs[0].1.0 <= INT_MAX && INT_MIN <= fs[0].refs[0].1.1 <= INT_MAX
    requires Wider(b, a)
    requires b.xMin == a.xMin || exists k :: 0 <= k < |fs[0].refs| && b.xMin == fs[0].refs[k].1.0
    requires b.xMax == a.xMax || exists k :: 0 <= k < |fs[0].refs| && b.xMax == fs[0].refs[k].1.0
    requires b.yMin == a.yMin || exists k :: 0 <= k < |fs[0].refs| && b.yMin == fs[0].refs[k].1.1
    requires b.yMax == a.yMax || exists k :: 0 <= k < |fs[0].refs| && b.yMax == fs[0].refs[k].1.1
    ensures HasX(fs, b.xMin) && HasX(fs, b.xMax) && HasY(fs, b.yMin) && HasY(fs, b.yMax)
  {
    var c := fs[0].refs[0].1;
    if b.xMin == a.xMin { assert c.0 == b.xMin; }
    if b.xMax == a.xMax { assert c.0 == b.xMax; }
    if b.yMin == a.yMin { assert c.1 == b.yMin; }
    if b.yMax == a.yMax { assert c.1 == b.yMax; }
  }

  /** A later face: each side is on it or stayed where the earlier faces
      put it. */
  lemma EarlierFaces(fs: seq<Face>, a: Bounds, b: Bounds)
    requires |fs| > 1
    requires var init := fs[..|fs| - 1];
      HasX(init, a.xMin) && HasX(init, a.xMax) && HasY(init, a.yMin) && HasY(init, a.yMax)
    requires var f := fs[|fs| - 1];
      && (b.xMin == a.xMin || exists k :: 0 <= k < |f.refs| && b.xMin == f.refs[k].1.0)
      && (b.xMax == a.xMax || exists k :: 0 <= k < |f.refs| && b.xMax == f.refs[k].1.0)
      && (b.yMin == a.yMin || exists k :: 0 <= k < |f.refs| && b.yMin == f.refs[k].1.1)
      && (b.yMax == a.yMax || exists k :: 0 <= k < |f.refs| && b.yMax == f.refs[k].1.1)
    ensures HasX(fs, b.xMin) && HasX(fs, b.xMax) && HasY(fs, b.yMin) && HasY(fs, b.yMax)
  {
    var n := |fs| - 1;
    var init := fs[..n];
    assert forall i :: 0 <= i < n ==> init[i] == fs[i];
    HasWider(init, fs, a.xMin, a.yMin);
    HasWider(init, fs, a.xMax, a.yMax);
    if b.xMin != a.xMin { var k :| 0 <= k < |fs[n].refs| && b.xMin == fs[n].refs[k].1.0; }
    if b.xMax != a.xMax { var k :| 0 <= k < |fs[n].refs| && b.xMax == fs[n].refs[k].1.0; }
    if b.yMin != a.yMin { var k :| 0 <= k < |fs[n].refs| && b.yMin == fs[n].refs[k].1.1; }
    if b.yMax != a.yMax { var k :| 0 <= k < |fs[n].refs| && b.yMax == fs[n].refs[k].1.1; }
  }

  lemma HasWider(init: seq<Face>, fs: seq<Face>, x: int, y: int)
    requires |init| <= |fs| && forall i :: 0 <= i < |init| ==> init[i] == fs[i]
    ensures HasX(init, x) ==> HasX(fs, x)
    ensures HasY(init, y) ==> HasY(fs, y)
  {
    if HasX(init, x) {
      var i, k :| 0 <= i < |init| && 0 <= k < |init[i].refs| && init[i].refs[k].1.0 == x;
      assert fs[i] == init[i];
    }
    if HasY(init, y) {
      var i, k :| 0 <= i < |init| && 0 <= k < |init[i].refs| && init[i].refs[k].1.1 == y;
      assert fs[i] == init[i];
    }
  }

  // ---------------------------------------------------------------------
  // Frames

  /** What `Frame.read` leaves in the three fields. */
  datatype AnimFrameData = AnimFrameData(polys: seq<Quad>, transforms: seq<Transform>, bounds: Bounds)

  /** The frame the faces `fs` make. */
  function FrameOfFaces(fs: seq<Face>): (d: AnimFrameData)
    ensures |d.polys| == |d.transforms| == |fs|
    ensures forall i :: 0 <= i < |fs| ==> d.polys[i] == fs[i].quad && d.transforms[i] == fs[i].transform
    ensures d.bounds == FacesBox(fs)
  {
    AnimFrameData(seq(|fs|, i requires 0 <= i < |fs| => fs[i].quad),
                  seq(|fs|, i requires 0 <= i < |fs| => fs[i].transform),
                  FacesBox(fs))
  }

  /** The faces of `Frame.read`: a short count of points, six per face,
      checked with Java's remainder, so that a negative multiple of six
      reaches the allocation of the arrays; from version 6 on a byte that is
      skipped; then the faces. */
  function FacesAt(s: seq<byte>, p: nat, ver: int, coords: seq<Corner>): (r: Result<(seq<Face>, nat)>)
  {
    var (numPts, p1) :- ReadShortAt(s, p);
    if JavaRem(numPts, 6) != 0 then Err(Format("Unexpected frame size"))
    else if numPts < 0 then Err(NegativeArraySize)
    else
      var (_, p2) :- if ver > 4 then ReadByteAt(s, p1) else Ok((0, p1));
      Repeat(FaceStep(s, coords), p2, numPts / 6)
  }

  /** `Frame.read`. */
  function AnimFrameAt(s: seq<byte>, p: nat, ver: int, coords: seq<Corner>): (r: Result<(AnimFrameData, nat)>)
  {
    var (fs, q) :- FacesAt(s, p, ver, coords);
    Ok((FrameOfFaces(fs), q))
  }

  function AnimFrameStep(s: seq<byte>, ver: int, coords: seq<Corner>): nat -> Result<(AnimFrameData, nat)>
  {
    q => AnimFrameAt(s, q, ver, coords)
  }

  /** The point count decides the frame size: one that is not a multiple of
      six is "Unexpected frame size", a negative multiple fails to allocate,
      and any other gives count / 6 faces, read after the padding byte of
      versions 6 and 8. */
  lemma FrameSizeCases(s: seq<byte>, p: nat, ver: int, coords: seq<Corner>)
    requires ReadShortAt(s, p).Ok?
    ensures var n := ReadShortAt(s, p).value.0;
      && (n % 6 != 0 ==> FacesAt(s, p, ver, coords) == Err(Format("Unexpected frame size")))
      && (n % 6 == 0 && n < 0 ==> FacesAt(s, p, ver, coords) == Err(NegativeArraySize))
      && (n % 6 == 0 && n >= 0 ==>
            var q := if ver > 4 then p + 3 else p + 2;
            if q > |s| then FacesAt(s, p, ver, coords) == Err(EOF)
            else FacesAt(s, p, ver, coords) == Repeat(FaceStep(s, coords), q, n / 6))
  {
    var n := ReadShortAt(s, p).value.0;
    if n < 0 {
      var k := -n;
      if k % 6 == 0 {
        assert n == 6 * (-(k / 6));
      }
      if n % 6 == 0 {
        assert k == 6 * (-(n / 6));
      }
    }
  }

  /** The faces of a frame that reads are well formed and have their count
      of references each; their pose points are shorts. */
  lemma FacesShape(s: seq<byte>, p: nat, ver: int, coords: seq<Corner>)
    requires forall i :: 0 <= i < |coords| ==> -0x8000 <= coords[i].0 <= 0x7FFF && -0x8000 <= coords[i].1 <= 0x7FFF
    ensures var r := FacesAt(s, p, ver, coords);
      r.Ok? ==> && |r.value.0| == ReadShortAt(s, p).value.0 / 6
                && (forall i :: 0 <= i < |r.value.0| ==> |r.value.0[i].refs| == 6)
                && IntRefs(r.value.0)
  {
    var r := FacesAt(s, p, ver, coords);
    if r.Ok? {
      var n := ReadShortAt(s, p).value.0;
      var q := if ver > 4 then p + 3 else p + 2;
      var step := FaceStep(s, coords);
      forall t: nat | step(t).Ok?
        ensures |step(t).value.0.refs| == 6
        ensures forall k :: 0 <= k < 6 ==> 0 <= step(t).value.0.refs[k].0 < |coords|
                                           && step(t).value.0.refs[k].1 == coords[step(t).value.0.refs[k].0]
      {
        FaceShape(s, t, coords);
      }
      RepeatEach(step, (f: Face) => |f.refs| == 6 && forall k :: 0 <= k < 6 ==> 0 <= f.refs[k].0 < |coords| && f.refs[k].1 == coords[f.refs[k].0],
                 q, n / 6);
      var fs := r.value.0;
      forall i, k | 0 <= i < |fs| && 0 <= k < |fs[i].refs|
        ensures INT_MIN <= fs[i].refs[k].1.0 <= INT_MAX && INT_MIN <= fs[i].refs[k].1.1 <= INT_MAX
      {
        assert fs[i].refs[k].1 == coords[fs[i].refs[k].0];
      }
    }
  }

  // ---------------------------------------------------------------------
  // Animations and packages

  /** What `read` leaves in one animation: its name, its box, the frames in
      file order and the sequence the frames play in. */
  datatype AnimationData = AnimationData(name: string, bounds: Bounds, frames: seq<AnimFrameData>, sequence: seq<int>)

  /** The frame list: a short count, then the frames; a negative count fails
      as the allocation of the array does. */
  function AnimFramesAt(s: seq<byte>, p: nat, ver: int, coords: seq<Corner>): (r: Result<(seq<AnimFrameData>, nat)>)
    ensures r.Ok? ==> ReadShortAt(s, p).Ok? && |r.value.0| == ReadShortAt(s, p).value.0
    ensures ReadShortAt(s, p).Ok? && ReadShortAt(s, p).value.0 < 0 ==> r == Err(NegativeArraySize)
  {
    var (numFrames, p1) :- ReadShortAt(s, p);
    if numFrames < 0 then Err(NegativeArraySize)
    else Repeat(AnimFrameStep(s, ver, coords), p1, numFrames)
  }

  function ShortStep(s: seq<byte>): nat -> Result<(int, nat)>
  {
    q => ReadShortAt(s, q)
  }

  /** `readSequence`: version 4 numbers the `count` frames, each index cast
      to a short; later versions read a count, skip a short and store that
      many shorts as they are. */
  function AnimSequenceAt(s: seq<byte>, p: nat, ver: int, count: nat): (r: Result<(seq<int>, nat)>)
  {
    if ver == 4 then Ok((seq(count, i => Int16(i)), p))
    else
      var (numSeq, p1) :- ReadShortAt(s, p);
      var (_, p2) :- ReadShortAt(s, p1);
      if numSeq < 0 then Err(NegativeArraySize)
      else Repeat(ShortStep(s), p2, numSeq)
  }

  /** Version 4 plays the frames in file order, since no frame count
      exceeds the largest short.  Later versions store `numSeq` shorts
      without checking them against the frames: the read fails only for a
      negative count or for lack of bytes. */
  lemma SequenceCases(s: seq<byte>, p: nat, ver: int, count: nat)
    ensures ver == 4 && count <= 0x8000 ==> AnimSequenceAt(s, p, ver, count) == Ok((Timelines.Identity(count), p))
    ensures ver != 4 && p + 4 <= |s| ==>
      var numSeq := ShortValue(s[p], s[p + 1]);
      var r := AnimSequenceAt(s, p, ver, count);
      && (numSeq < 0 ==> r == Err(NegativeArraySize))
      && (numSeq >= 0 ==>
            && (r.Ok? <==> p + 4 + 2 * numSeq <= |s|)
            && (r.Err? ==> r.error == EOF)
            && (r.Ok? ==> r.value.1 == p + 4 + 2 * numSeq && |r.value.0| == numSeq
                          && forall i :: 0 <= i < numSeq ==>
                               r.value.0[i] == ShortValue(s[p + 4 + 2 * i], s[p + 5 + 2 * i])))
    ensures ver != 4 && p + 4 > |s| ==> AnimSequenceAt(s, p, ver, count) == Err(EOF)
  {
    if ver == 4 && count <= 0x8000 {
      assert seq(count, i => Int16(i)) == Timelines.Identity(count);
    }
    if ver != 4 && p + 4 <= |s| {
      var numSeq := ShortValue(s[p], s[p + 1]);
      if numSeq >= 0 {
        RepeatFixed(ShortStep(s), |s|, 2, p + 4, numSeq);
      }
    }
  }

  /** `readFrames`: the vertex table, the box and the frames. */
  function ReadFramesAt(s: seq<byte>, p: nat, ver: int): (r: Result<((Bounds, seq<AnimFrameData>), nat)>)
  {
    var (coords, p1) :- CoordsAt(s, p, ver);
    var (box, p2) :- Timelines.BoxAt(s, p1);
    var (frames, p3) :- AnimFramesAt(s, p2, ver, coords);
    Ok(((box, frames), p3))
  }

  /** `read` of one animation: a 256-byte name, then the rest. */
  function AnimationAt(s: seq<byte>, p: nat, ver: int): (r: Result<(AnimationData, nat)>)
  {
    var (name, p1) :- ReadCStringAt(s, p, 256);
    AnimationBodyAt(s, p1, ver, name)
  }

  /** What follows the name: a short that is skipped, the vertex table, the
      box, the frames and the sequence. */
  function AnimationBodyAt(s: seq<byte>, p: nat, ver: int, name: string): (r: Result<(AnimationData, nat)>)
  {
    var (_, p1) :- ReadShortAt(s, p);
    var ((box, frames), p2) :- ReadFramesAt(s, p1, ver);
    var (sequence, p3) :- AnimSequenceAt(s, p2, ver, |frames|);
    Ok((AnimationData(name, box, frames, sequence), p3))
  }

  /** A decoded animation has the name of its name field, and version 4
      plays its frames in file order. */
  lemma AnimationShape(s: seq<byte>, p: nat, ver: int)
    ensures var r := AnimationAt(s, p, ver);
      r.Ok? ==> var d := r.value.0;
        && d.name == ReadCStringAt(s, p, 256).value.0
        && |d.frames| <= 0x7FFF
        && (ver == 4 ==> d.sequence == Timelines.Identity(|d.frames|))
  {
    var r := AnimationAt(s, p, ver);
    if r.Ok? {
      var (name, p1) := ReadCStringAt(s, p, 256).value;
      var ((box, frames), p2) := ReadFramesAt(s, p1 + 2, ver).value;
      var (coords, q1) := CoordsAt(s, p1 + 2, ver).value;
      var (_, q2) := Timelines.BoxAt(s, q1).value;
      assert |frames| == ReadShortAt(s, q2).value.0;
      var (sequence, p3) := AnimSequenceAt(s, p2, ver, |frames|).value;
      assert r.value.0 == AnimationData(name, box, frames, sequence);
      SequenceCases(s, p2, ver, |frames|);
    }
  }

  function AnimationStep(s: seq<byte>, ver: int): nat -> Result<(AnimationData, nat)>
  {
    q => AnimationAt(s, q, ver)
  }

  /** `readTimeline` of an animation pack: the header of a timeline package,
      then as many animations as it counts (none for a negative count).  An
      index fault is not caught here: it is the result. */
  function PackageAt(s: seq<byte>): (r: Result<seq<AnimationData>>)
  {
    var ((ver, num), p) :- Timelines.HeaderAt(s);
    var (ds, _) :- Repeat(AnimationStep(s, ver), p, if num < 0 then 0 else num);
    Ok(ds)
  }

  /** The names a read of the package registers. */
  function Registered(s: seq<byte>): seq<string>
  {
    match Timelines.HeaderAt(s)
    case Err(_) => []
    case Ok(((ver, num), p)) =>
      Timelines.Registrations(AnimationStep(s, ver), Timelines.NameStep(s), p, if num < 0 then 0 else num)
  }

  function NameOf(d: AnimationData): string
  {
    d.name
  }

  /** The names of decoded animations, in order. */
  function Names(ds: seq<AnimationData>): (ns: seq<string>)
    ensures |ns| == |ds| && forall i :: 0 <= i < |ds| ==> ns[i] == ds[i].name
  {
    Timelines.Labels(NameOf, ds)
  }

  /** Every read animation carries the name its name field holds. */
  lemma NamesRead(s: seq<byte>, ver: int)
    ensures forall q: nat :: AnimationStep(s, ver)(q).Ok? ==>
      Timelines.NameStep(s)(q).Ok? && NameOf(AnimationStep(s, ver)(q).value.0) == Timelines.NameStep(s)(q).value.0
  {
    forall q: nat | AnimationStep(s, ver)(q).Ok?
      ensures Timelines.NameStep(s)(q).Ok? && NameOf(AnimationStep(s, ver)(q).value.0) == Timelines.NameStep(s)(q).value.0
    {
      AnimationShape(s, q, ver);
    }
  }

  /** After a whole package is decoded, exactly the names of its animations
      were registered, in order. */
  lemma PackageNames(s: seq<byte>)
    ensures PackageAt(s).Ok? ==> Registered(s) == Names(PackageAt(s).value)
  {
    if PackageAt(s).Ok? {
      var ((ver, num), p) := Timelines.HeaderAt(s).value;
      var k := if num < 0 then 0 else num;
      NamesRead(s, ver);
      var ds := PackageAt(s).value;
      Timelines.RegisteredAll(AnimationStep(s, ver), Timelines.NameStep(s), NameOf, p, k, ds,
                              Repeat(AnimationStep(s, ver), p, k).value.1);
    }
  }

  /** The file a pack is read from. */
  function TimelineFile(pack: string): string
  {
    Timelines.TimelineFile(pack)
  }

  // ---------------------------------------------------------------------
  // The decoder

  /** `Animation.Frame`: the texture polygons of its faces, their
      transforms, and the box of the pose points its faces reference. */
  class AnimFrame {
    var transforms: array?<Transform>
    var polys: array?<Quad>
    var xMin: int, xMax: int, yMin: int, yMax: int
    ghost var Repr: set<object>

    constructor ()
      ensures transforms == null && polys == null && Box() == Bounds(0, 0, 0, 0) && Repr == {this}
    {
      transforms, polys := null, null;
      xMin, xMax, yMin, yMax := 0, 0, 0, 0;
      Repr := {this};
    }

    function Box(): Bounds
      reads this
    {
      Bounds(xMin, xMax, yMin, yMax)
    }

    /** The frame's fields hold `d`, in arrays of its own. */
    ghost predicate Holds(d: AnimFrameData)
      reads this, Repr
    {
      && transforms != null && polys != null
      && Repr == {this, transforms, polys}
      && transforms[..] == d.transforms && polys[..] == d.polys
      && Box() == d.bounds
    }

    /** `getWidth()`: `xMax - xMin` in `int` arithmetic, so that the empty
        box of a frame without faces has width 1. */
    function GetWidth(): (r: int)
      reads this
      ensures INT_MIN <= r <= INT_MAX
      ensures INT_MIN <= xMax - xMin <= INT_MAX ==> r == xMax - xMin
      ensures Box() == NO_BOUNDS ==> r == 1
    {
      Int32(xMax - xMin)
    }

    /** `getHeight()`, likewise. */
    function GetHeight(): (r: int)
      reads this
      ensures INT_MIN <= r <= INT_MAX
      ensures INT_MIN <= yMax - yMin <= INT_MAX ==> r == yMax - yMin
      ensures Box() == NO_BOUNDS ==> r == 1
    {
      Int32(yMax - yMin)
    }

    /** `getSize()`: the larger of the two. */
    function GetSize(): (r: int)
      reads this
      ensures r >= GetWidth() && r >= GetHeight() && (r == GetWidth() || r == GetHeight())
    {
      if GetWidth() >= GetHeight() then GetWidth() else GetHeight()
    }

    method StretchBounds(x: int, y: int)
      modifies this
      ensures Box() == Stretch(old(Box()), x, y)
      ensures transforms == old(transforms) && polys == old(polys) && Repr == old(Repr)
    {
      if x < xMin { xMin := x; }
      if x > xMax { xMax := x; }
      if y < yMin { yMin := y; }
      if y > yMax { yMax := y; }
    }

    /** `read`: decodes one frame against the vertex table `coords`. */
    method Read(src: LittleEndianInputStream, ver: int, coords: seq<Corner>) returns (r: Result<()>)
      requires src.Valid()
      modifies this, src
      ensures src.Valid()
      ensures var spec := AnimFrameAt(src.data, old(src.pos), ver, coords);
        && (r.Ok? <==> spec.Ok?)
        && (spec.Err? ==> r == Err(spec.error))
        && (spec.Ok? ==> src.pos == spec.value.1 && Holds(spec.value.0))
      ensures r.Ok? ==> fresh(transforms) && fresh(polys)
    {
      var numPts :- src.ReadShort();
      if JavaRem(numPts, 6) != 0 {
        return Err(Format("Unexpected frame size"));
      }
      JavaDivRem(numPts, 6);
      var numPolys := JavaDiv(numPts, 6);
      if numPolys < 0 {
        return Err(NegativeArraySize);
      }
      if ver > 4 {
        var _ :- src.ReadByte();
      }
      r := ReadBody(src, coords, numPolys);
    }

    /** `read` after the count: the two arrays, the sentinel bounds and the
        faces. */
    method ReadBody(src: LittleEndianInputStream, coords: seq<Corner>, numPolys: nat) returns (r: Result<()>)
      requires src.Valid()
      modifies this, src
      ensures src.Valid()
      ensures var spec := Repeat(FaceStep(src.data, coords), old(src.pos), numPolys);
        && (r.Ok? <==> spec.Ok?)
        && (spec.Err? ==> r == Err(spec.error))
        && (spec.Ok? ==> src.pos == spec.value.1 && Holds(FrameOfFaces(spec.value.0)))
      ensures r.Ok? ==> fresh(transforms) && fresh(polys)
    {
      var ps := new Quad[numPolys];
      var ts := new Transform[numPolys];
      xMin, xMax, yMin, yMax := INT_MAX, INT_MIN, INT_MAX, INT_MIN;
      var res, done := ReadFaces(src, coords, ps, ts);
      if res.Err? {
        return res;
      }
      Install(ps, ts, done);
      r := Ok(());
    }

    /** The end of `read`: the frame takes the filled arrays. */
    method Install(ps: array<Quad>, ts: array<Transform>, ghost done: seq<Face>)
      requires Filled(ps, ts, done) && |done| == ps.Length == ts.Length && Box() == FacesBox(done)
      modifies this
      ensures transforms == ts && polys == ps
      ensures Holds(FrameOfFaces(done))
    {
      transforms, polys := ts, ps;
      Repr := {this, ts, ps};
      assert ps[..] == FrameOfFaces(done).polys;
      assert ts[..] == FrameOfFaces(done).transforms;
    }

    /** The arrays of the face loop hold the first `|done|` faces. */
    static ghost predicate Filled(ps: array<Quad>, ts: array<Transform>, done: seq<Face>)
      reads ps, ts
    {
      && |done| <= ps.Length && |done| <= ts.Length
      && forall j :: 0 <= j < |done| ==> ps[j] == done[j].quad && ts[j] == done[j].transform
    }

    /** The two array stores of one face. */
    static method Store(ps: array<Quad>, ts: array<Transform>, i: nat, ghost done: seq<Face>, f: Face)
      requires Filled(ps, ts, done) && i == |done| < ps.Length == ts.Length
      modifies ps, ts
      ensures Filled(ps, ts, done + [f])
    {
      ts[i] := f.transform;
      ps[i] := f.quad;
    }

    /** The face loop of `read`, filling the two arrays. */
    method ReadFaces(src: LittleEndianInputStream, coords: seq<Corner>, ps: array<Quad>, ts: array<Transform>)
      returns (r: Result<()>, ghost done: seq<Face>)
      requires src.Valid() && ps.Length == ts.Length && Box() == NO_BOUNDS
      modifies this, src, ps, ts
      ensures src.Valid()
      ensures var spec := Repeat(FaceStep(src.data, coords), old(src.pos), ps.Length);
        && (r.Ok? <==> spec.Ok?)
        && (spec.Err? ==> r == Err(spec.error))
        && (spec.Ok? ==> spec.value == (done, src.pos))
      ensures r.Ok? ==> |done| == ps.Length && Filled(ps, ts, done) && Box() == FacesBox(done)
      ensures transforms == old(transforms) && polys == old(polys) && Repr == old(Repr)
    {
      ghost var s, p0 := src.data, src.pos;
      var ix := new int[6];
      done := [];
      for i := 0 to ps.Length
        invariant src.Valid() && src.data == s
        invariant Repeat(FaceStep(s, coords), p0, i) == Ok((done, src.pos))
        invariant |done| == i && Filled(ps, ts, done)
        invariant Box() == FacesBox(done)
        invariant transforms == old(transforms) && polys == old(polys) && Repr == old(Repr)
      {
        var next := ReadFace(src, ix, coords, p0, done, ps.Length);
        if next.Err? {
          return Err(next.error), done;
        }
        Store(ps, ts, i, done, next.value);
        assert (done + [next.value])[..i] == done;
        done := done + [next.value];
      }
      r := Ok(());
    }

    /** One face of `read`: its references, the arrangement check, the
        transform and the polygon. */
    method ReadFace(src: LittleEndianInputStream, ix: array<int>, coords: seq<Corner>,
                    ghost p0: nat, ghost done: seq<Face>, ghost n: nat)
      returns (r: Result<Face>)
      requires src.Valid() && ix.Length == 6 && |done| < n
      requires Repeat(FaceStep(src.data, coords), p0, |done|) == Ok((done, src.pos))
      modifies this, src, ix
      ensures src.Valid()
      ensures r.Err? ==> Repeat(FaceStep(src.data, coords), p0, n) == Err(r.error)
      ensures r.Ok? ==> Repeat(FaceStep(src.data, coords), p0, |done| + 1) == Ok((done + [r.value], src.pos))
      ensures r.Ok? ==> Box() == StretchRefs(old(Box()), r.value.refs)
      ensures transforms == old(transforms) && polys == old(polys) && Repr == old(Repr)
    {
      RepeatNext(FaceStep(src.data, coords), p0, |done|, n, done, src.pos);
      var refs :- ReadRefs(src, ix, coords);
      if ix[3] != ix[0] || ix[4] != ix[2] {
        return Err(Format("Unexpected frame arrangement"));
      }
      var c0, c1, c2, c3 := coords[ix[0]], coords[ix[1]], coords[ix[2]], coords[ix[5]];
      var t := TransformOf(AsVertex(c0), AsVertex(c1), AsVertex(c2), 1.0);
      if t.None? {
        return Err(Format("Bad transform"));
      }
      r := Ok(Face(refs, TextureQuad(c0, c1, c2, c3), t.value));
    }

    /** The reference loop of a face: six indices into the shared array
        `ix`, each looked up at once and stretching the box by its pose
        point. */
    method ReadRefs(src: LittleEndianInputStream, ix: array<int>, coords: seq<Corner>)
      returns (r: Result<seq<(int, Corner)>>)
      requires src.Valid() && ix.Length == 6
      modifies this, src, ix
      ensures src.Valid()
      ensures Follows(r, Repeat(RefStep(src.data, coords), old(src.pos), 6), src.pos)
      ensures r.Ok? ==> && Box() == StretchRefs(old(Box()), r.value)
                        && forall k :: 0 <= k < 6 ==> ix[k] == r.value[k].0 && 0 <= ix[k] < |coords| && r.value[k].1 == coords[ix[k]]
      ensures transforms == old(transforms) && polys == old(polys) && Repr == old(Repr)
    {
      ghost var s, p0, b0 := src.data, src.pos, Box();
      ghost var step := RefStep(s, coords);
      var refs: seq<(int, Corner)> := [];
      for j := 0 to 6
        invariant src.Valid() && src.data == s
        invariant Repeat(step, p0, j) == Ok((refs, src.pos))
        invariant |refs| == j
        invariant RefsIn(ix, refs, coords)
        invariant Box() == StretchRefs(b0, refs)
        invariant transforms == old(transforms) && polys == old(polys) && Repr == old(Repr)
      {
        RepeatNext(step, p0, j, 6, refs, src.pos);
        var x :- ReadRef(src, coords);
        StoreRef(ix, refs, x, coords);
        StretchBounds(x.1.0, x.1.1);
        assert (refs + [x])[..j] == refs;
        refs := refs + [x];
      }
      r := Ok(refs);
    }

    /** `ix` holds the indices of the references `refs` read so far, each
        naming its vertex of the table. */
    static ghost predicate RefsIn(ix: array<int>, refs: seq<(int, Corner)>, coords: seq<Corner>)
      reads ix
    {
      && |refs| <= ix.Length
      && forall k :: 0 <= k < |refs| ==> ix[k] == refs[k].0 && 0 <= ix[k] < |coords| && refs[k].1 == coords[ix[k]]
    }

    /** The store `ix[j] = index` of the reference loop. */
    static method StoreRef(ix: array<int>, refs: seq<(int, Corner)>, x: (int, Corner), coords: seq<Corner>)
      requires RefsIn(ix, refs, coords) && |refs| < ix.Length && 0 <= x.0 < |coords| && x.1 == coords[x.0]
      modifies ix
      ensures RefsIn(ix, refs + [x], coords)
    {
      ix[|refs|] := x.0;
    }

    /** One reference: a short, and the vertex it names in the table. */
    static method ReadRef(src: LittleEndianInputStream, coords: seq<Corner>) returns (r: Result<(int, Corner)>)
      requires src.Valid()
      modifies src
      ensures src.Valid()
      ensures Follows(r, RefAt(src.data, old(src.pos), coords), src.pos)
    {
      var v :- src.ReadShort();
      if v < 0 || v >= |coords| {
        return Err(ArrayIndex);
      }
      r := Ok((v, coords[v]));
    }
  }

  /** The animation objects `objs` hold `ds` and own nothing outside `owned`. */
  ghost predicate OwnAnimations(objs: seq<Animation>, ds: seq<AnimationData>, owned: set<object>)
    reads owned
  {
    && |objs| == |ds|
    && (forall j :: 0 <= j < |objs| ==> objs[j] in owned)
    && (forall j :: 0 <= j < |objs| ==> objs[j].Repr <= owned && objs[j].Models(ds[j]))
  }

  /** One more animation object, with what it owns. */
  lemma OwnAnimationsMore(objs: seq<Animation>, ds: seq<AnimationData>, owned: set<object>, a: Animation, d: AnimationData)
    requires OwnAnimations(objs, ds, owned) && a in a.Repr && a.Models(d)
    ensures OwnAnimations(objs + [a], ds + [d], owned + a.Repr)
  {
  }

  /** The object the cache keeps for a key of the decoded animations `ds`
      holds the last of them with a name that lower-cases to the key. */
  lemma LatestModels(m: map<string, Option<Animation>>, ds: seq<AnimationData>, objs: seq<Animation>,
                     owned: set<object>, k: string)
    requires Timelines.Latest(m, Timelines.Labels(NameOf, ds), objs) && OwnAnimations(objs, ds, owned)
    requires k in Timelines.LowerSet(Names(ds))
    ensures k in m && m[k].Some? && m[k].value.Models(ds[Timelines.LastIndex(Names(ds), k)])
  {
    assert Names(ds) == Timelines.Labels(NameOf, ds);
  }

  /** After all `count` animations read: the names entered are those of the
      records, and each key holds the object that holds the last record
      with that name. */
  lemma PackageCached(s: seq<byte>, ver: int, p0: nat, count: nat, ds: seq<AnimationData>, q: nat,
                      m0: map<string, Option<Animation>>, m: map<string, Option<Animation>>,
                      objs: seq<Animation>, owned: set<object>)
    requires Repeat(AnimationStep(s, ver), p0, count) == Ok((ds, q))
    requires Timelines.Entered(m0, m, Timelines.Labels(NameOf, ds))
    requires Timelines.Latest(m, Timelines.Labels(NameOf, ds), objs) && OwnAnimations(objs, ds, owned)
    ensures Timelines.Entered(m0, m, Timelines.Registrations(AnimationStep(s, ver), Timelines.NameStep(s), p0, count))
    ensures forall k :: k in Timelines.LowerSet(Names(ds)) ==>
      k in m && m[k].Some? && m[k].value.Models(ds[Timelines.LastIndex(Names(ds), k)])
  {
    NamesRead(s, ver);
    Timelines.RegisteredAll(AnimationStep(s, ver), Timelines.NameStep(s), NameOf, p0, count, ds, q);
    forall k | k in Timelines.LowerSet(Names(ds))
      ensures k in m && m[k].Some? && m[k].value.Models(ds[Timelines.LastIndex(Names(ds), k)])
    {
      LatestModels(m, ds, objs, owned, k);
    }
  }

  /** The frame objects `objs` hold `ds` and own nothing outside `owned`. */
  ghost predicate Own(objs: seq<AnimFrame>, ds: seq<AnimFrameData>, owned: set<object>)
    reads owned
  {
    && |objs| == |ds|
    && (forall j :: 0 <= j < |objs| ==> objs[j] in owned)
    && (forall j :: 0 <= j < |objs| ==> objs[j].Repr <= owned && objs[j].Holds(ds[j]))
  }

  lemma OwnWider(objs: seq<AnimFrame>, ds: seq<AnimFrameData>, owned: set<object>, more: set<object>)
    requires Own(objs, ds, owned)
    ensures Own(objs, ds, owned + more)
  {
  }

  lemma OwnMore(objs: seq<AnimFrame>, ds: seq<AnimFrameData>, owned: set<object>, f: AnimFrame, d: AnimFrameData)
    requires Own(objs, ds, owned) && f in f.Repr && f.Holds(d)
    ensures Own(objs + [f], ds + [d], owned + f.Repr)
  {
  }

  /** An animation object: `packageName` is set when it is created, the
      other fields by `read`.  The ghost `decoded` is the list of its frame
      objects and `Repr` everything the object owns. */
  class Animation {
    var packageName: string
    var name: string
    var xMin: int, xMax: int, yMin: int, yMax: int
    var frames: array?<AnimFrame?>
    var sequence: array?<int>
    ghost var decoded: seq<AnimFrame>
    ghost var Repr: set<object>

    constructor (packageName: string)
      ensures this.packageName == packageName && name == "" && frames == null && sequence == null
      ensures Box() == Bounds(0, 0, 0, 0) && decoded == [] && Repr == {this}
    {
      this.packageName := packageName;
      name := "";
      xMin, xMax, yMin, yMax := 0, 0, 0, 0;
      frames, sequence := null, null;
      decoded := [];
      Repr := {this};
    }

    function Box(): Bounds
      reads this
    {
      Bounds(xMin, xMax, yMin, yMax)
    }

    /** The decoded frames are objects of this animation that hold `ds`. */
    ghost predicate FramesHold(ds: seq<AnimFrameData>)
      reads this, Repr
    {
      Own(decoded, ds, Repr - {this})
    }

    /** The state `readFrames` leaves: `frames` is the array of the decoded
        frames, which hold `ds`. */
    ghost predicate Listed(ds: seq<AnimFrameData>)
      reads this, Repr
    {
      && this in Repr && frames != null && frames in Repr
      && FramesHold(ds)
      && frames.Length == |decoded|
      && (forall j :: 0 <= j < frames.Length ==> frames[j] == decoded[j])
    }

    /** The fields hold the animation `d`. */
    ghost predicate Models(d: AnimationData)
      reads this, Repr
    {
      && Listed(d.frames) && sequence != null && sequence in Repr
      && sequence[..] == d.sequence && name == d.name && Box() == d.bounds
    }

    /** `getWidth()`: `xMax - xMin` in `int` arithmetic. */
    function GetWidth(): (r: int)
      reads this
      ensures INT_MIN <= r <= INT_MAX
      ensures INT_MIN <= xMax - xMin <= INT_MAX ==> r == xMax - xMin
    {
      Int32(xMax - xMin)
    }

    /** `getHeight()`: `yMax - yMin` in `int` arithmetic. */
    function GetHeight(): (r: int)
      reads this
      ensures INT_MIN <= r <= INT_MAX
      ensures INT_MIN <= yMax - yMin <= INT_MAX ==> r == yMax - yMin
    {
      Int32(yMax - yMin)
    }

    /** `getSize()`: the larger of the two. */
    function GetSize(): (r: int)
      reads this
      ensures r >= GetWidth() && r >= GetHeight() && (r == GetWidth() || r == GetHeight())
    {
      if GetWidth() >= GetHeight() then GetWidth() else GetHeight()
    }

    /** `getFrame(num)`. */
    function GetFrame(num: int): (r: Result<AnimFrame?>)
      reads this, frames
      ensures frames == null ==> r == Err(NullPointer)
      ensures frames != null && !(0 <= num < frames.Length) ==> r == Err(ArrayIndex)
      ensures frames != null && 0 <= num < frames.Length ==> r == Ok(frames[num])
    {
      if frames == null then Err(NullPointer)
      else if 0 <= num < frames.Length then Ok(frames[num])
      else Err(ArrayIndex)
    }

    /** A decoded animation reports the extent of its box, and its frames
        the extent of their faces, 1 for a frame without any. */
    lemma Extents(d: AnimationData, i: int)
      requires Models(d) && 0 <= i < |d.frames|
      requires -0x8000 <= xMin <= 0x7FFF && -0x8000 <= xMax <= 0x7FFF
      requires -0x8000 <= yMin <= 0x7FFF && -0x8000 <= yMax <= 0x7FFF
      ensures GetWidth() == d.bounds.xMax - d.bounds.xMin && GetHeight() == d.bounds.yMax - d.bounds.yMin
      ensures GetFrame(i) == Ok(decoded[i]) && decoded[i].Box() == d.frames[i].bounds
      ensures d.frames[i].bounds == NO_BOUNDS ==> decoded[i].GetSize() == 1
    {
      assert decoded[i].Holds(d.frames[i]);
    }

    /** `read`: the name, registered in the cache at once under its
        lower-cased form, then the rest of the record. */
    method Read(lib: AnimationLibrary, src: LittleEndianInputStream, ver: int) returns (r: Result<()>)
      requires src.Valid()
      modifies this, src, lib
      ensures src.Valid()
      ensures var spec := AnimationAt(src.data, old(src.pos), ver);
        && (r.Ok? <==> spec.Ok?)
        && (spec.Err? ==> r == Err(spec.error))
        && (spec.Ok? ==> src.pos == spec.value.1 && Models(spec.value.0) && fresh(Repr - {this}))
      ensures var nm := ReadCStringAt(src.data, old(src.pos), 256);
        lib.animCache == if nm.Ok? then old(lib.animCache)[ToLowerCase(nm.value.0) := Some(this)] else old(lib.animCache)
      ensures lib.packageIndex == old(lib.packageIndex)
    {
      var nm :- src.ReadCString(256);
      name := nm;
      lib.animCache := lib.animCache[ToLowerCase(nm) := Some(this)];
      r := ReadBody(src, ver);
    }

    /** The rest of `read`, after the name: a skipped short, the frames and
        the sequence. */
    method ReadBody(src: LittleEndianInputStream, ver: int) returns (r: Result<()>)
      requires src.Valid()
      modifies this, src
      ensures src.Valid()
      ensures var spec := AnimationBodyAt(src.data, old(src.pos), ver, old(name));
        && (r.Ok? <==> spec.Ok?)
        && (spec.Err? ==> r == Err(spec.error))
        && (spec.Ok? ==> src.pos == spec.value.1 && Models(spec.value.0))
      ensures r.Ok? ==> fresh(Repr - {this})
    {
      var _ :- src.ReadShort();
      ghost var box, ds;
      r, box, ds := ReadFrames(src, ver);
      if r.Err? {
        return;
      }
      ghost var listed := Repr - {this};
      assert fresh(listed);
      r := ReadSequence(src, ver, ds);
      if r.Ok? {
        assert fresh(listed + {sequence});
        assert Repr - {this} == listed + {sequence};
      }
    }

    /** `readFrames`: the vertex table, the box into the four fields, and the
        frames. */
    method ReadFrames(src: LittleEndianInputStream, ver: int)
      returns (r: Result<()>, ghost box: Bounds, ghost ds: seq<AnimFrameData>)
      requires src.Valid()
      modifies this, src
      ensures src.Valid()
      ensures var spec := ReadFramesAt(src.data, old(src.pos), ver);
        && (r.Ok? <==> spec.Ok?)
        && (spec.Err? ==> r == Err(spec.error))
        && (spec.Ok? ==> src.pos == spec.value.1 && (box, ds) == spec.value.0 && Box() == box && Listed(ds)
                         && src !in Repr && fresh(Repr - {this}))
      ensures name == old(name) && packageName == old(packageName)
    {
      box, ds := Box(), [];
      var coords :- ReadCoords(src, ver);
      r := ReadBox(src);
      if r.Err? {
        return;
      }
      box := Box();
      r, ds := ReadFrameTable(src, ver, coords);
    }

    /** The four shorts of the box, into `xMin`, `xMax`, `yMin`, `yMax`. */
    method ReadBox(src: LittleEndianInputStream) returns (r: Result<()>)
      requires src.Valid()
      modifies this, src
      ensures src.Valid()
      ensures var spec := Timelines.BoxAt(src.data, old(src.pos));
        && (r.Ok? <==> spec.Ok?)
        && (spec.Err? ==> r == Err(spec.error))
        && (spec.Ok? ==> src.pos == spec.value.1 && Box() == spec.value.0)
      ensures name == old(name) && packageName == old(packageName)
    {
      var x0 :- src.ReadShort();
      var x1 :- src.ReadShort();
      var y0 :- src.ReadShort();
      var y1 :- src.ReadShort();
      xMin, xMax, yMin, yMax := x0, x1, y0, y1;
      r := Ok(());
    }

    /** The vertex table of `readFrames`: its count, the point size and the
        vertices. */
    static method ReadCoords(src: LittleEndianInputStream, ver: int) returns (r: Result<seq<Corner>>)
      requires src.Valid()
      modifies src
      ensures src.Valid()
      ensures Follows(r, CoordsAt(src.data, old(src.pos), ver), src.pos)
    {
      var numPoints :- src.ReadShort();
      var extra :- ReadExtra(src, ver);
      if numPoints < 0 {
        return Err(NegativeArraySize);
      }
      r := ReadCorners(src, ver, extra, numPoints);
    }

    /** The point-size selector of version 8, as a number of bytes. */
    static method ReadExtra(src: LittleEndianInputStream, ver: int) returns (r: Result<nat>)
      requires src.Valid()
      modifies src
      ensures src.Valid()
      ensures Follows(r, ExtraAt(src.data, old(src.pos), ver), src.pos)
    {
      if ver != 8 {
        return Ok(0);
      }
      var sel :- src.ReadShort();
      if sel == 0 {
        r := Ok(0);
      } else if sel == 1 {
        r := Ok(4);
      } else if sel == 0x101 {
        r := Ok(16);
      } else {
        r := Err(Format("Unknown point size"));
      }
    }

    /** The vertex loop of `readFrames`. */
    static method ReadCorners(src: LittleEndianInputStream, ver: int, extra: nat, n: nat) returns (r: Result<seq<Corner>>)
      requires src.Valid()
      modifies src
      ensures src.Valid()
      ensures Follows(r, Repeat(CoordStep(src.data, ver, extra), old(src.pos), n), src.pos)
    {
      ghost var s, p0 := src.data, src.pos;
      ghost var step := CoordStep(s, ver, extra);
      var coords: seq<Corner> := [];
      var i := 0;
      while i < n
        invariant 0 <= i <= n && src.Valid() && src.data == s
        invariant Repeat(step, p0, i) == Ok((coords, src.pos))
      {
        RepeatNext(step, p0, i, n, coords, src.pos);
        var c :- ReadCorner(src, ver, extra);
        coords := coords + [c];
        i := i + 1;
      }
      assert Repeat(step, p0, n) == Ok((coords, src.pos));
      r := Ok(coords);
    }

    /** One vertex: pose x and y, the short of version 4, texture x and y,
        then the extra bytes. */
    static method ReadCorner(src: LittleEndianInputStream, ver: int, extra: nat) returns (r: Result<Corner>)
      requires src.Valid()
      modifies src
      ensures src.Valid()
      ensures Follows(r, CoordAt(src.data, old(src.pos), ver, extra), src.pos)
    {
      var x1 :- src.ReadShort();
      var y1 :- src.ReadShort();
      if ver == 4 {
        var _ :- src.ReadShort();
      }
      var x2 :- src.ReadShort();
      var y2 :- src.ReadShort();
      var _ :- Skip(src, extra);
      r := Ok((x1, y1, x2, y2));
    }

    /** `n` calls of `readByte`. */
    static method Skip(src: LittleEndianInputStream, n: nat) returns (r: Result<()>)
      requires src.Valid()
      modifies src
      ensures src.Valid()
      ensures Follows(r, SkipAt(src.data, old(src.pos), n), src.pos)
    {
      ghost var s, p0 := src.data, src.pos;
      for j := 0 to n
        invariant src.Valid() && src.data == s && src.pos == p0 + j
        invariant SkipAt(s, p0, n) == SkipAt(s, src.pos, n - j)
      {
        var _ :- src.ReadByte();
      }
      r := Ok(());
    }

    /** The frame count, which a negative value fails to allocate, then the
        frames. */
    method ReadFrameTable(src: LittleEndianInputStream, ver: int, coords: seq<Corner>)
      returns (r: Result<()>, ghost ds: seq<AnimFrameData>)
      requires src.Valid()
      modifies this, src
      ensures src.Valid()
      ensures var spec := AnimFramesAt(src.data, old(src.pos), ver, coords);
        && (r.Ok? <==> spec.Ok?)
        && (spec.Err? ==> r == Err(spec.error))
        && (spec.Ok? ==> src.pos == spec.value.1 && ds == spec.value.0 && Listed(ds) && src !in Repr
                         && fresh(Repr - {this}))
      ensures name == old(name) && packageName == old(packageName) && Box() == old(Box())
    {
      ds := [];
      var numFrames :- src.ReadShort();
      if numFrames < 0 {
        return Err(NegativeArraySize), [];
      }
      r, ds := ReadFrameList(src, ver, coords, numFrames);
    }

    /** The frame loop of `readFrames`, then the array of the frames. */
    method ReadFrameList(src: LittleEndianInputStream, ver: int, coords: seq<Corner>, n: nat)
      returns (r: Result<()>, ghost ds: seq<AnimFrameData>)
      requires src.Valid()
      modifies this, src
      ensures src.Valid()
      ensures var spec := Repeat(AnimFrameStep(src.data, ver, coords), old(src.pos), n);
        && (r.Ok? <==> spec.Ok?)
        && (spec.Err? ==> r == Err(spec.error))
        && (spec.Ok? ==> src.pos == spec.value.1 && ds == spec.value.0 && Listed(ds) && src !in Repr
                         && fresh(Repr - {this}))
      ensures name == old(name) && packageName == old(packageName) && Box() == old(Box())
    {
      var made;
      ghost var owned;
      made, ds, owned := ReadFrameObjects(src, ver, coords, n, this);
      if made.Err? {
        return Err(made.error), ds;
      }
      var fs := FrameArray(made.value);
      Install(fs, made.value, ds, owned);
      r := Ok(());
    }

    /** `frames` becomes `fs`, the array of the frames `made`, which hold
        `ds` and own `owned`. */
    method Install(fs: array<AnimFrame?>, made: seq<AnimFrame>, ghost ds: seq<AnimFrameData>, ghost owned: set<object>)
      requires Own(made, ds, owned) && this !in owned && fs !in owned
      requires fs.Length == |made| && forall j :: 0 <= j < |made| ==> fs[j] == made[j]
      modifies this
      ensures Listed(ds) && Repr == owned + {this, fs}
      ensures name == old(name) && packageName == old(packageName) && Box() == old(Box())
    {
      OwnWider(made, ds, owned, {fs});
      frames := fs;
      decoded := made;
      Repr := owned + {this, fs};
      assert Repr - {this} == owned + {fs};
    }

    /** The loop of `readFrames` over the frames: `n` new frames, each
        holding the frame record it read; `owned` is what they own, which
        neither `src` nor `avoid` is part of. */
    static method ReadFrameObjects(src: LittleEndianInputStream, ver: int, coords: seq<Corner>, n: nat, ghost avoid: object)
      returns (r: Result<seq<AnimFrame>>, ghost ds: seq<AnimFrameData>, ghost owned: set<object>)
      requires src.Valid()
      modifies src
      ensures src.Valid()
      ensures var spec := Repeat(AnimFrameStep(src.data, ver, coords), old(src.pos), n);
        && (r.Ok? <==> spec.Ok?)
        && (spec.Err? ==> r == Err(spec.error))
        && (spec.Ok? ==> src.pos == spec.value.1 && ds == spec.value.0)
      ensures r.Ok? ==> src !in owned && avoid !in owned && Own(r.value, ds, owned) && fresh(owned)
    {
      ghost var s, p0 := src.data, src.pos;
      ghost var step := AnimFrameStep(s, ver, coords);
      var made: seq<AnimFrame> := [];
      ds, owned := [], {};
      var i := 0;
      while i < n
        invariant 0 <= i <= n && src.Valid() && src.data == s
        invariant Repeat(step, p0, i) == Ok((ds, src.pos))
        invariant src !in owned && avoid !in owned && |made| == i
        invariant Own(made, ds, owned) && fresh(owned)
      {
        ghost var q := src.pos;
        RepeatNext(step, p0, i, n, ds, q);
        var f;
        ghost var prev := owned;
        f, owned := ReadOwnedFrame(src, ver, coords, made, ds, owned, avoid);
        if f.Err? {
          return Err(f.error), ds, owned;
        }
        assert fresh(prev + (owned - prev));
        ds := ds + [step(q).value.0];
        made := made + [f.value];
        i := i + 1;
      }
      assert Repeat(step, p0, n) == Ok((ds, src.pos));
      r := Ok(made);
    }

    /** One entry of the frame loop, added to the frames `made`, which hold
        `ds` and own `owned`. */
    static method ReadOwnedFrame(src: LittleEndianInputStream, ver: int, coords: seq<Corner>,
                                 ghost made: seq<AnimFrame>, ghost ds: seq<AnimFrameData>, ghost owned: set<object>,
                                 ghost avoid: object)
      returns (r: Result<AnimFrame>, ghost more: set<object>)
      requires src.Valid() && src !in owned && avoid !in owned && Own(made, ds, owned)
      modifies src
      ensures src.Valid()
      ensures var spec := AnimFrameAt(src.data, old(src.pos), ver, coords);
        && (r.Ok? <==> spec.Ok?)
        && (spec.Err? ==> r == Err(spec.error))
        && (spec.Ok? ==> src.pos == spec.value.1 && src !in more && avoid !in more
                         && Own(made + [r.value], ds + [spec.value.0], more) && fresh(more - owned))
    {
      more := owned;
      r := ReadNewFrame(src, ver, coords);
      if r.Ok? {
        ghost var d := AnimFrameAt(src.data, old(src.pos), ver, coords).value.0;
        OwnMore(made, ds, owned, r.value, d);
        more := owned + r.value.Repr;
      }
    }

    /** One entry of the frame loop: a new frame that reads itself. */
    static method ReadNewFrame(src: LittleEndianInputStream, ver: int, coords: seq<Corner>) returns (r: Result<AnimFrame>)
      requires src.Valid()
      modifies src
      ensures src.Valid()
      ensures var spec := AnimFrameAt(src.data, old(src.pos), ver, coords);
        && (r.Ok? <==> spec.Ok?)
        && (spec.Err? ==> r == Err(spec.error))
        && (spec.Ok? ==> src.pos == spec.value.1 && fresh(r.value.Repr) && r.value in r.value.Repr
                         && r.value.Holds(spec.value.0))
    {
      var f := new AnimFrame();
      var res := f.Read(src, ver, coords);
      if res.Err? {
        return Err(res.error);
      }
      r := Ok(f);
    }

    /** The array of the frames `fs`, in order. */
    static method FrameArray(fs: seq<AnimFrame?>) returns (a: array<AnimFrame?>)
      ensures fresh(a) && a.Length == |fs| && forall j :: 0 <= j < |fs| ==> a[j] == fs[j]
    {
      a := new AnimFrame?[|fs|];
      var i := 0;
      while i < |fs|
        invariant 0 <= i <= |fs| && forall j :: 0 <= j < i ==> a[j] == fs[j]
      {
        a[i] := fs[i];
        i := i + 1;
      }
    }

    /** `readSequence`: version 4 numbers the frames; later versions read a
        count, skip a short and read that many shorts. */
    method ReadSequence(src: LittleEndianInputStream, ver: int, ghost ds: seq<AnimFrameData>) returns (r: Result<()>)
      requires src.Valid() && Listed(ds) && src !in Repr
      modifies this, src
      ensures src.Valid()
      ensures var spec := AnimSequenceAt(src.data, old(src.pos), ver, |ds|);
        && (r.Ok? <==> spec.Ok?)
        && (spec.Err? ==> r == Err(spec.error))
        && (spec.Ok? ==> && src.pos == spec.value.1 && sequence != null && fresh(sequence)
                         && sequence[..] == spec.value.0 && Repr == old(Repr) + {sequence} && Listed(ds))
      ensures name == old(name) && packageName == old(packageName) && Box() == old(Box())
    {
      var arr :- SequenceArray(src, ver, frames.Length);
      OwnWider(decoded, ds, Repr - {this}, {arr});
      sequence := arr;
      Repr := Repr + {arr};
      assert Repr - {this} == old(Repr) - {this} + {arr};
      r := Ok(());
    }

    /** The array `readSequence` stores, for an animation of `count` frames. */
    static method SequenceArray(src: LittleEndianInputStream, ver: int, count: nat) returns (r: Result<array<int>>)
      requires src.Valid()
      modifies src
      ensures src.Valid()
      ensures var spec := AnimSequenceAt(src.data, old(src.pos), ver, count);
        && (r.Ok? <==> spec.Ok?)
        && (spec.Err? ==> r == Err(spec.error))
        && (spec.Ok? ==> src.pos == spec.value.1 && fresh(r.value) && r.value[..] == spec.value.0)
    {
      if ver == 4 {
        var a := ShortIndices(count);
        return Ok(a);
      }
      var numSeq :- src.ReadShort();
      var _ :- src.ReadShort();
      if numSeq < 0 {
        return Err(NegativeArraySize);
      }
      r := ReadShorts(src, numSeq);
    }

    /** The version-4 sequence: each index cast to a short. */
    static method ShortIndices(n: nat) returns (a: array<int>)
      ensures fresh(a) && a[..] == seq(n, i => Int16(i))
    {
      a := new int[n];
      for i := 0 to n
        invariant forall j :: 0 <= j < i ==> a[j] == Int16(j)
      {
        a[i] := Int16(i);
      }
    }

    /** `n` shorts into a new array. */
    static method ReadShorts(src: LittleEndianInputStream, n: nat) returns (r: Result<array<int>>)
      requires src.Valid()
      modifies src
      ensures src.Valid()
      ensures var spec := Repeat(ShortStep(src.data), old(src.pos), n);
        && (r.Ok? <==> spec.Ok?)
        && (spec.Err? ==> r == Err(spec.error))
        && (spec.Ok? ==> src.pos == spec.value.1 && fresh(r.value) && r.value[..] == spec.value.0)
    {
      ghost var s, p0 := src.data, src.pos;
      ghost var step := ShortStep(s);
      var a := new int[n];
      for i := 0 to n
        invariant src.Valid() && src.data == s
        invariant Repeat(step, p0, i) == Ok((a[..i], src.pos))
      {
        RepeatNext(step, p0, i, n, a[..i], src.pos);
        var v :- src.ReadShort();
        a[i] := v;
        assert a[..i + 1] == a[..i] + [v];
      }
      assert a[..n] == a[..];
      r := Ok(a);
    }
  }

  /** The static state of `Animation`: the package index, which `get`
      builds on first use, and the cache of animations by lower-cased name,
      where `None` marks a name whose package is being read. */
  class AnimationLibrary {
    var packageIndex: Option<map<string, string>>
    var animCache: map<string, Option<Animation>>

    /** Before the first `get`: nothing is built. */
    constructor ()
      ensures packageIndex == None && animCache == map[]
    {
      packageIndex := None;
      animCache := map[];
    }

    /** `buildIndex`: every animation of every pack, in order, is put under
        its lower-cased name; the cache starts empty. */
    method BuildIndex(packs: seq<Timelines.Pack>)
      modifies this
      ensures packageIndex == Some(Timelines.IndexOf(packs)) && animCache == map[]
    {
      var idx := Timelines.IndexPacks(packs);
      packageIndex := Some(idx);
      animCache := map[];
    }

    /** `get`: the index is built on first use; then no name is a null
        dereference; a cached name gives what the cache holds; a name no pack
        lists gives none; otherwise the name is marked and its whole package
        is read, which caches every animation in it. */
    method Get(name: Option<string>, packs: seq<Timelines.Pack>, files: map<string, seq<byte>>)
      returns (r: Result<Option<Animation>>)
      modifies this
      ensures var idx := if old(packageIndex).Some? then old(packageIndex).value else Timelines.IndexOf(packs);
        var cache0 := if old(packageIndex).Some? then old(animCache) else map[];
        && packageIndex == Some(idx)
        && (name.None? ==> r == Err(NullPointer) && animCache == cache0)
        && (name.Some? ==>
              var lc := ToLowerCase(name.value);
              && (lc in cache0 ==> r == Ok(cache0[lc]) && animCache == cache0)
              && (lc !in cache0 && lc !in idx ==> r == Ok(None) && animCache == cache0)
              && (lc !in cache0 && lc in idx ==>
                    var f := TimelineFile(idx[lc]);
                    && (f !in files ==> r == Err(FileNotFound(f)) && animCache == cache0[lc := None])
                    && (f in files ==>
                          var pk := PackageAt(files[f]);
                          && Timelines.Entered(cache0[lc := None], animCache, Registered(files[f]))
                          && (r.Ok? <==> pk.Ok?)
                          && (pk.Err? ==> r == Err(pk.error))
                          && (pk.Ok? ==> lc in animCache && r == Ok(animCache[lc])
                                         && (r.value.Some? <==> lc in Timelines.LowerSet(Names(pk.value)))
                                         && (r.value.Some? ==>
                                               r.value.value.Models(pk.value[Timelines.LastIndex(Names(pk.value), lc)]))))))
    {
      if packageIndex.None? {
        BuildIndex(packs);
      }
      if name.None? {
        return Err(NullPointer);
      }
      var lc := ToLowerCase(name.value);
      if lc !in animCache {
        if lc !in packageIndex.value {
          return Ok(None);
        }
        var packname := packageIndex.value[lc];
        animCache := animCache[lc := None];
        ghost var marked := animCache;
        var res := ReadTimeline(packname, files);
        if res.Err? {
          return Err(res.error);
        }
        ghost var s := files[TimelineFile(packname)];
        PackageNames(s);
        assert lc in marked.Keys;
      }
      r := Ok(animCache[lc]);
    }

    /** `readTimeline`: opens the pack's timeline file with a 256-byte buffer
        and reads the package. */
    method ReadTimeline(pack: string, files: map<string, seq<byte>>) returns (r: Result<()>)
      modifies this
      ensures packageIndex == old(packageIndex)
      ensures TimelineFile(pack) !in files ==> r == Err(FileNotFound(TimelineFile(pack))) && animCache == old(animCache)
      ensures TimelineFile(pack) in files ==>
        var pk := PackageAt(files[TimelineFile(pack)]);
        && (r.Ok? <==> pk.Ok?)
        && (pk.Err? ==> r == Err(pk.error))
        && Timelines.Entered(old(animCache), animCache, Registered(files[TimelineFile(pack)]))
        && (pk.Ok? ==> forall k :: k in Timelines.LowerSet(Names(pk.value)) ==>
              k in animCache && animCache[k].Some?
              && animCache[k].value.Models(pk.value[Timelines.LastIndex(Names(pk.value), k)]))
    {
      var file := TimelineFile(pack);
      if file !in files {
        return Err(FileNotFound(file));
      }
      var src := new LittleEndianInputStream.WithBuffer(files[file], 256);
      r := ReadPackage(src, pack);
    }

    /** The body of `readTimeline`: the header, then `num` times a new
        animation of the pack that reads itself. */
    method ReadPackage(src: LittleEndianInputStream, pack: string) returns (r: Result<()>)
      requires src.Valid() && src.pos == 0
      modifies this, src
      ensures var spec := PackageAt(src.data);
        && (r.Ok? <==> spec.Ok?)
        && (spec.Err? ==> r == Err(spec.error))
      ensures Timelines.Entered(old(animCache), animCache, Registered(src.data))
      ensures var spec := PackageAt(src.data);
        spec.Ok? ==> forall k :: k in Timelines.LowerSet(Names(spec.value)) ==>
          k in animCache && animCache[k].Some?
          && animCache[k].value.Models(spec.value[Timelines.LastIndex(Names(spec.value), k)])
      ensures packageIndex == old(packageIndex)
    {
      assert Timelines.LowerSet([]) == {};
      var header :- Timelines.Library.ReadHeader(src);
      var (ver, num) := header;
      var count := if num < 0 then 0 else num;
      r := ReadAnimations(src, pack, ver, count);
    }

    /** One pass of the loop of `readTimeline`: a new animation of the pack
        reads itself.  The animations `objs` read before it, which hold `ds`
        and own `owned`, keep holding them. */
    method ReadOne(src: LittleEndianInputStream, pack: string, ver: int,
                   ghost objs: seq<Animation>, ghost ds: seq<AnimationData>, ghost owned: set<object>)
      returns (r: Result<()>, a: Animation)
      requires src.Valid()
      requires OwnAnimations(objs, ds, owned) && this !in owned && src !in owned
      modifies this, src
      ensures src.Valid()
      ensures fresh(a)
      ensures var spec := AnimationAt(src.data, old(src.pos), ver);
        && (r.Ok? <==> spec.Ok?)
        && (spec.Err? ==> r == Err(spec.error))
        && (spec.Ok? ==> && src.pos == spec.value.1 && fresh(a.Repr) && a.Models(spec.value.0)
                         && OwnAnimations(objs + [a], ds + [spec.value.0], owned + a.Repr))
      ensures var nm := ReadCStringAt(src.data, old(src.pos), 256);
        animCache == if nm.Ok? then old(animCache)[ToLowerCase(nm.value.0) := Some(a)] else old(animCache)
      ensures packageIndex == old(packageIndex)
    {
      a := new Animation(pack);
      r := a.Read(this, src, ver);
      if r.Ok? {
        OwnAnimationsMore(objs, ds, owned, a, AnimationAt(src.data, old(src.pos), ver).value.0);
      }
    }

    /** Pass `i` of the loop of `readTimeline`, after the animations `objs`
        that hold `ds` and own `owned`: a failure ends the package, a success
        adds the animation `a` that holds the record read. */
    method ReadNext(src: LittleEndianInputStream, pack: string, ver: int,
                    ghost p0: nat, ghost count: nat, ghost i: nat, ghost ds: seq<AnimationData>,
                    ghost objs: seq<Animation>, ghost owned: set<object>, ghost m0: map<string, Option<Animation>>)
      returns (r: Result<()>, a: Animation)
      requires src.Valid() && i < count
      requires Repeat(AnimationStep(src.data, ver), p0, i) == Ok((ds, src.pos))
      requires Timelines.Entered(m0, animCache, Timelines.Labels(NameOf, ds))
      requires Timelines.Latest(animCache, Timelines.Labels(NameOf, ds), objs)
      requires OwnAnimations(objs, ds, owned) && this !in owned && src !in owned
      modifies this, src
      ensures src.Valid() && packageIndex == old(packageIndex)
      ensures var step := AnimationStep(src.data, ver);
        r.Err? ==> && Repeat(step, p0, count) == Err(r.error)
                   && Timelines.Entered(m0, animCache, Timelines.Registrations(step, Timelines.NameStep(src.data), p0, count))
      ensures var step := AnimationStep(src.data, ver);
        r.Ok? ==> step(old(src.pos)).Ok? && var d := step(old(src.pos)).value.0;
                  && Repeat(step, p0, i + 1) == Ok((ds + [d], src.pos))
                  && Timelines.Entered(m0, animCache, Timelines.Labels(NameOf, ds + [d]))
                  && Timelines.Latest(animCache, Timelines.Labels(NameOf, ds + [d]), objs + [a])
                  && OwnAnimations(objs + [a], ds + [d], owned + a.Repr) && fresh(a.Repr)
    {
      ghost var s, q, before := src.data, src.pos, animCache;
      ghost var step := AnimationStep(s, ver);
      NamesRead(s, ver);
      var res;
      res, a := ReadOne(src, pack, ver, objs, ds, owned);
      assert step(q) == AnimationAt(s, q, ver);
      assert Timelines.NameStep(s)(q) == ReadCStringAt(s, q, 256);
      Timelines.RegisteredStep(step, Timelines.NameStep(s), NameOf, p0, count, i, ds, q, m0, before, animCache, a);
      if res.Err? {
        return res, a;
      }
      ghost var d := step(q).value.0;
      Timelines.LabelsSnoc(NameOf, ds, d);
      Timelines.LatestNext(before, Timelines.Labels(NameOf, ds), objs, NameOf(d), a);
      r := Ok(());
    }

    /** The loop of `readTimeline`: `count` animations, each registered under
        its name as soon as the name is read. */
    method ReadAnimations(src: LittleEndianInputStream, pack: string, ver: int, count: nat) returns (r: Result<()>)
      requires src.Valid()
      modifies this, src
      ensures var spec := Repeat(AnimationStep(src.data, ver), old(src.pos), count);
        && (r.Ok? <==> spec.Ok?)
        && (spec.Err? ==> r == Err(spec.error))
      ensures Timelines.Entered(old(animCache), animCache,
                                Timelines.Registrations(AnimationStep(src.data, ver), Timelines.NameStep(src.data), old(src.pos), count))
      ensures var spec := Repeat(AnimationStep(src.data, ver), old(src.pos), count);
        spec.Ok? ==> var ds := spec.value.0;
          forall k :: k in Timelines.LowerSet(Names(ds)) ==>
            k in animCache && animCache[k].Some?
            && animCache[k].value.Models(ds[Timelines.LastIndex(Names(ds), k)])
      ensures packageIndex == old(packageIndex)
    {
      ghost var s, p0, m0 := src.data, src.pos, animCache;
      ghost var step := AnimationStep(s, ver);
      ghost var ds: seq<AnimationData> := [];
      ghost var objs: seq<Animation> := [];
      ghost var owned: set<object> := {};
      assert Timelines.LowerSet([]) == {};
      var i := 0;
      while i < count
        invariant 0 <= i <= count && src.Valid() && src.data == s
        invariant Repeat(step, p0, i) == Ok((ds, src.pos))
        invariant Timelines.Entered(m0, animCache, Timelines.Labels(NameOf, ds))
        invariant Timelines.Latest(animCache, Timelines.Labels(NameOf, ds), objs)
        invariant OwnAnimations(objs, ds, owned) && this !in owned && src !in owned
        invariant packageIndex == old(packageIndex)
      {
        ghost var q := src.pos;
        var res, a := ReadNext(src, pack, ver, p0, count, i, ds, objs, owned, m0);
        if res.Err? {
          return res;
        }
        ghost var d := step(q).value.0;
        ds := ds + [d];
        objs := objs + [a];
        owned := owned + a.Repr;
        i := i + 1;
      }
      PackageCached(s, ver, p0, count, ds, src.pos, m0, animCache, objs, owned);
      r := Ok(());
    }
  }
}
