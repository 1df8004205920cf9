/** Timeline animations (`bn.Timeline`): a package file holds a list of
    animations, each a table of vertices, a list of frames that index into it,
    and from version 6 on a sequence that says in which order the frames play.
    The pure functions `...At(s, p)` say what the decoder reads at `p`; the
    classes `Timeline` and `Library` are the decoder, proved to agree with
    them, and the static lookup cache keyed by lower-cased animation names. */
module Timelines {
  import opened Errors
  import opened JavaLang
  import opened LittleEndian
  import opened Frames

  /** What `read` leaves in one timeline: its name, the box of its pose
      coordinates, the frames in file order, the order they play in (indices
      into `frames`) and the scale of the pose coordinates. */
  datatype TimelineData = TimelineData(name: string, bounds: Bounds, frames: seq<FrameData>,
                                       sequence: seq<int>, scale: real)

  /** Every entry of the sequence names a decoded frame. */
  predicate InOrder(d: TimelineData)
  {
    forall i :: 0 <= i < |d.sequence| ==> 0 <= d.sequence[i] < |d.frames|
  }

  /** The frames as they play: entry `i` is the frame `sequence[i]`. */
  function Played(d: TimelineData): (fs: seq<FrameData>)
    requires InOrder(d)
    ensures |fs| == |d.sequence|
    ensures forall i :: 0 <= i < |fs| ==> fs[i] == d.frames[d.sequence[i]]
  {
    seq(|d.sequence|, i requires 0 <= i < |d.sequence| => d.frames[d.sequence[i]])
  }

  /** The sequence 0, 1, …, n-1: frames that play in file order. */
  function Identity(n: nat): (ix: seq<int>)
    ensures |ix| == n && forall i :: 0 <= i < n ==> ix[i] == i
  {
    seq(n, i => i)
  }

  // ---------------------------------------------------------------------
  // Vertices

  /** The number of floats (alpha values) per vertex: only version 8 has
      them, and a selector says how many. */
  function PointSizeAt(s: seq<byte>, p: nat, ver: int): (r: Result<(nat, nat)>)
    ensures ver != 8 ==> r == Ok((0, p))
    ensures ver == 8 ==> var sel := ReadShortAt(s, p);
      && (r.Ok? <==> sel.Ok? && sel.value.0 in {0, 1, 0x101})
      && (r.Ok? ==> r.value.1 == p + 2)
      && (sel.Ok? && sel.value.0 == 0 ==> r == Ok((0, p + 2)))
      && (sel.Ok? && sel.value.0 == 1 ==> r == Ok((1, p + 2)))
      && (sel.Ok? && sel.value.0 == 0x101 ==> r == Ok((4, p + 2)))
      && (sel.Ok? && r.Err? ==> r.error == Format("Unknown point size"))
      && (sel.Err? ==> r == Err(EOF))
  {
    if ver != 8 then Ok((0, p))
    else
      var (sel, q) :- ReadShortAt(s, p);
      if sel == 0 then Ok((0, q))
      else if sel == 1 then Ok((1, q))
      else if sel == 0x101 then Ok((4, q))
      else Err(Format("Unknown point size"))
  }

  /** The alpha of a vertex: `a` lowered by `Math.min` with each float in
      turn. */
  function MinAlpha(a: real, fs: seq<real>): real
  {
    if fs == [] then a
    else
      var m := MinAlpha(a, fs[..|fs| - 1]);
      if m <= fs[|fs| - 1] then m else fs[|fs| - 1]
  }

  /** The fold is the minimum of `a` and the floats. */
  lemma {:induction false} MinAlphaIsMin(a: real, fs: seq<real>)
    ensures MinAlpha(a, fs) <= a
    ensures forall i :: 0 <= i < |fs| ==> MinAlpha(a, fs) <= fs[i]
    ensures MinAlpha(a, fs) == a || exists i :: 0 <= i < |fs| && MinAlpha(a, fs) == fs[i]
    decreases |fs|
  {
    if fs != [] {
      var init := fs[..|fs| - 1];
      MinAlphaIsMin(a, init);
      assert forall i :: 0 <= i < |init| ==> init[i] == fs[i];
      if MinAlpha(a, fs) != a && MinAlpha(a, fs) != fs[|fs| - 1] {
        var i :| 0 <= i < |init| && MinAlpha(a, init) == init[i];
        assert MinAlpha(a, fs) == fs[i];
      }
    }
  }

  /** The floats of a vertex, read one after the other. */
  function FloatStep(s: seq<byte>, toFloat: int -> real): nat -> Result<(real, nat)>
  {
    q => ReadFloatAt(s, q, toFloat)
  }

  /** The coordinates of a vertex: pose x, pose y, a short that version 4
      skips, texture x and texture y. */
  function CornerAt(s: seq<byte>, p: nat, ver: int): (r: Result<((int, int, int, int), nat)>)
  {
    var (x1, p1) :- ReadShortAt(s, p);
    var (y1, p2) :- ReadShortAt(s, p1);
    var (_, p3) :- if ver == 4 then ReadShortAt(s, p2) else Ok((0, p2));
    var (x2, p4) :- ReadShortAt(s, p3);
    var (y2, p5) :- ReadShortAt(s, p4);
    Ok(((x1, y1, x2, y2), p5))
  }

  /** One vertex: its coordinates, then `n` floats that can only lower its
      alpha from 1. */
  function VertexAt(s: seq<byte>, p: nat, ver: int, n: nat, toFloat: int -> real): (r: Result<(Vertex, nat)>)
  {
    var ((x1, y1, x2, y2), q) :- CornerAt(s, p, ver);
    var (alpha, q') :- AlphaAt(s, q, n, toFloat);
    Ok((Vertex(x1, y1, x2, y2, alpha), q'))
  }

  /** The alpha of a vertex: 1, lowered by each of `n` floats. */
  function AlphaAt(s: seq<byte>, p: nat, n: nat, toFloat: int -> real): (r: Result<(real, nat)>)
  {
    var (fs, q) :- Repeat(FloatStep(s, toFloat), p, n);
    Ok((MinAlpha(1.0, fs), q))
  }

  /** The number of short bytes of a vertex record before its floats. */
  function VertexWidth(ver: int): nat
  {
    if ver == 4 then 10 else 8
  }

  /** The coordinates are the shorts at offsets 0 and 2 and the last two of
      the record, which is `VertexWidth(ver)` bytes long. */
  lemma CornerLayout(s: seq<byte>, p: nat, ver: int)
    ensures var r := CornerAt(s, p, ver);
      var w := VertexWidth(ver);
      && (r.Ok? <==> p + w <= |s|)
      && (r.Err? ==> r.error == EOF)
      && (r.Ok? ==> r.value == ((ShortValue(s[p], s[p + 1]), ShortValue(s[p + 2], s[p + 3]),
                                 ShortValue(s[p + w - 4], s[p + w - 3]), ShortValue(s[p + w - 2], s[p + w - 1])), p + w))
  {
  }

  /** The float stored at byte `q`. */
  function FloatOf(s: seq<byte>, q: nat, toFloat: int -> real): real
    requires q + 4 <= |s|
  {
    toFloat(IntValue(s[q], s[q + 1], s[q + 2], s[q + 3]))
  }

  /** The layout of a vertex record: it reads exactly `VertexWidth(ver) + 4n`
      bytes, fails only for lack of them, and takes its four coordinates from
      the shorts at offsets 0 and 2 and the last two before the floats. */
  lemma VertexLayout(s: seq<byte>, p: nat, ver: int, n: nat, toFloat: int -> real)
    ensures var r := VertexAt(s, p, ver, n, toFloat);
      && (r.Ok? <==> p + VertexWidth(ver) + 4 * n <= |s|)
      && (r.Err? ==> r.error == EOF)
    ensures var r := VertexAt(s, p, ver, n, toFloat);
      var w := VertexWidth(ver);
      r.Ok? ==>
        && r.value.1 == p + w + 4 * n
        && r.value.0.x1 == ShortValue(s[p], s[p + 1])
        && r.value.0.y1 == ShortValue(s[p + 2], s[p + 3])
        && r.value.0.x2 == ShortValue(s[p + w - 4], s[p + w - 3])
        && r.value.0.y2 == ShortValue(s[p + w - 2], s[p + w - 1])
  {
    CornerLayout(s, p, ver);
    if p + VertexWidth(ver) <= |s| {
      FloatsLayout(s, p + VertexWidth(ver), n, toFloat);
    }
  }

  /** The alpha of a vertex is 1 lowered to the least of its floats: no
      greater than 1 or any float, and equal to 1 or to one of them. */
  lemma VertexAlpha(s: seq<byte>, p: nat, ver: int, n: nat, toFloat: int -> real, v: Vertex, q: nat)
    requires VertexAt(s, p, ver, n, toFloat) == Ok((v, q))
    ensures p + VertexWidth(ver) + 4 * n <= |s|
    ensures v.alpha <= 1.0
    ensures forall i :: 0 <= i < n ==> v.alpha <= FloatOf(s, p + VertexWidth(ver) + 4 * i, toFloat)
    ensures v.alpha == 1.0 || exists i :: 0 <= i < n && v.alpha == FloatOf(s, p + VertexWidth(ver) + 4 * i, toFloat)
  {
    VertexParts(s, p, ver, n, toFloat, v, q);
    AlphaBound(s, p + VertexWidth(ver), n, toFloat, v.alpha);
  }

  /** A decoded vertex has its floats right after its coordinates, and its
      alpha is their fold. */
  lemma VertexParts(s: seq<byte>, p: nat, ver: int, n: nat, toFloat: int -> real, v: Vertex, q: nat)
    requires VertexAt(s, p, ver, n, toFloat) == Ok((v, q))
    ensures p + VertexWidth(ver) <= |s|
    ensures Repeat(FloatStep(s, toFloat), p + VertexWidth(ver), n).Ok?
    ensures v.alpha == MinAlpha(1.0, Repeat(FloatStep(s, toFloat), p + VertexWidth(ver), n).value.0)
  {
    CornerLayout(s, p, ver);
  }

  /** The fold of the floats from byte `q` on is their minimum with 1. */
  lemma AlphaBound(s: seq<byte>, q: nat, n: nat, toFloat: int -> real, a: real)
    requires q <= |s|
    requires Repeat(FloatStep(s, toFloat), q, n).Ok? && a == MinAlpha(1.0, Repeat(FloatStep(s, toFloat), q, n).value.0)
    ensures q + 4 * n <= |s|
    ensures a <= 1.0
    ensures forall i :: 0 <= i < n ==> a <= FloatOf(s, q + 4 * i, toFloat)
    ensures a == 1.0 || exists i :: 0 <= i < n && a == FloatOf(s, q + 4 * i, toFloat)
  {
    FloatsLayout(s, q, n, toFloat);
    AlphaOfFloats(s, q, Repeat(FloatStep(s, toFloat), q, n).value.0, toFloat);
  }

  /** `n` floats from byte `q`: they need `4n` bytes, and float `i` is the
      one at `q + 4i`. */
  lemma FloatsLayout(s: seq<byte>, q: nat, n: nat, toFloat: int -> real)
    requires q <= |s|
    ensures var fl := Repeat(FloatStep(s, toFloat), q, n);
      && (fl.Ok? <==> q + 4 * n <= |s|)
      && (fl.Err? ==> fl.error == EOF)
      && (fl.Ok? ==> fl.value.1 == q + 4 * n && |fl.value.0| == n)
      && (fl.Ok? ==> forall i :: 0 <= i < n ==> fl.value.0[i] == FloatOf(s, q + 4 * i, toFloat))
  {
    RepeatFixed(FloatStep(s, toFloat), |s|, 4, q, n);
    var fl := Repeat(FloatStep(s, toFloat), q, n);
    if fl.Ok? {
      forall i | 0 <= i < n
        ensures fl.value.0[i] == FloatOf(s, q + 4 * i, toFloat)
      {
        assert FloatStep(s, toFloat)(q + 4 * i) == ReadFloatAt(s, q + 4 * i, toFloat);
      }
    }
  }

  /** `MinAlphaIsMin` for the floats stored from byte `q` on. */
  lemma AlphaOfFloats(s: seq<byte>, q: nat, fs: seq<real>, toFloat: int -> real)
    requires q + 4 * |fs| <= |s|
    requires forall i :: 0 <= i < |fs| ==> fs[i] == FloatOf(s, q + 4 * i, toFloat)
    ensures MinAlpha(1.0, fs) <= 1.0
    ensures forall i :: 0 <= i < |fs| ==> MinAlpha(1.0, fs) <= FloatOf(s, q + 4 * i, toFloat)
    ensures MinAlpha(1.0, fs) == 1.0 || exists i :: 0 <= i < |fs| && MinAlpha(1.0, fs) == FloatOf(s, q + 4 * i, toFloat)
  {
    MinAlphaIsMin(1.0, fs);
  }

  /** The read of one vertex, as a step of `Repeat`. */
  function VertexStep(s: seq<byte>, ver: int, n: nat, toFloat: int -> real): nat -> Result<(Vertex, nat)>
  {
    q => VertexAt(s, q, ver, n, toFloat)
  }

  /** The vertex table: a short count, the point-size selector of version 8,
      then the vertices; a negative count fails as the allocation of the
      table does. */
  function CoordsAt(s: seq<byte>, p: nat, ver: int, toFloat: int -> real): (r: Result<(seq<Vertex>, nat)>)
  {
    var (numPoints, p1) :- ReadShortAt(s, p);
    var (n, p2) :- PointSizeAt(s, p1, ver);
    if numPoints < 0 then Err(NegativeArraySize)
    else Repeat(VertexStep(s, ver, n, toFloat), p2, numPoints)
  }

  /** A decoded table has as many vertices as its count says, and no vertex
      is more than fully opaque. */
  lemma CoordsShape(s: seq<byte>, p: nat, ver: int, toFloat: int -> real)
    ensures var r := CoordsAt(s, p, ver, toFloat);
      r.Ok? ==> && ReadShortAt(s, p).Ok? && |r.value.0| == ReadShortAt(s, p).value.0
                && forall i :: 0 <= i < |r.value.0| ==> r.value.0[i].alpha <= 1.0
    ensures ReadShortAt(s, p).Ok? && ReadShortAt(s, p).value.0 < 0 && PointSizeAt(s, p + 2, ver).Ok? ==>
      CoordsAt(s, p, ver, toFloat) == Err(NegativeArraySize)
  {
    if ReadShortAt(s, p).Ok? && PointSizeAt(s, p + 2, ver).Ok? {
      var n := PointSizeAt(s, p + 2, ver).value.0;
      var step := VertexStep(s, ver, n, toFloat);
      forall q: nat | step(q).Ok? ensures step(q).value.0.alpha <= 1.0 {
        VertexAlpha(s, q, ver, n, toFloat, step(q).value.0, step(q).value.1);
      }
      var numPoints := ReadShortAt(s, p).value.0;
      if numPoints >= 0 {
        RepeatEach(step, (v: Vertex) => v.alpha <= 1.0, PointSizeAt(s, p + 2, ver).value.1, numPoints);
      }
    }
  }

  // ---------------------------------------------------------------------
  // Bounds, frames and the sequence

  /** The box of the timeline: xMin, xMax, yMin, yMax as shorts. */
  function BoxAt(s: seq<byte>, p: nat): (r: Result<(Bounds, nat)>)
    ensures r.Ok? <==> p + 8 <= |s|
    ensures r.Err? ==> r.error == EOF
    ensures r.Ok? ==> r.value == (Bounds(ShortValue(s[p], s[p + 1]), ShortValue(s[p + 2], s[p + 3]),
                                         ShortValue(s[p + 4], s[p + 5]), ShortValue(s[p + 6], s[p + 7])), p + 8)
  {
    var (xMin, p1) :- ReadShortAt(s, p);
    var (xMax, p2) :- ReadShortAt(s, p1);
    var (yMin, p3) :- ReadShortAt(s, p2);
    var (yMax, p4) :- ReadShortAt(s, p3);
    Ok((Bounds(xMin, xMax, yMin, yMax), p4))
  }

  /** The read of one frame against the vertex table, as a step of `Repeat`. */
  function FrameStep(s: seq<byte>, ver: int, coords: seq<Vertex>): nat -> Result<(FrameData, nat)>
  {
    q => FrameAt(s, q, ver, coords)
  }

  /** The frame list: a short count, then the frames; a negative count fails
      as the allocation of the array does. */
  function FramesAt(s: seq<byte>, p: nat, ver: int, coords: seq<Vertex>): (r: Result<(seq<FrameData>, nat)>)
    ensures r.Ok? ==> ReadShortAt(s, p).Ok? && |r.value.0| == ReadShortAt(s, p).value.0
    ensures ReadShortAt(s, p).Ok? && ReadShortAt(s, p).value.0 < 0 ==> r == Err(NegativeArraySize)
  {
    var (numFrames, p1) :- ReadShortAt(s, p);
    if numFrames < 0 then Err(NegativeArraySize)
    else Repeat(FrameStep(s, ver, coords), p1, numFrames)
  }

  /** One entry of the sequence: a short that must index one of `count`
      frames. */
  function IndexAt(s: seq<byte>, p: nat, count: nat): (r: Result<(int, nat)>)
    ensures var v := ReadShortAt(s, p);
      && (r.Ok? <==> v.Ok? && 0 <= v.value.0 < count)
      && (r.Ok? ==> r == v)
      && (v.Ok? && r.Err? ==> r.error == ArrayIndex)
      && (v.Err? ==> r == Err(EOF))
  {
    var (i, q) :- ReadShortAt(s, p);
    if 0 <= i < count then Ok((i, q)) else Err(ArrayIndex)
  }

  function IndexStep(s: seq<byte>, count: nat): nat -> Result<(int, nat)>
  {
    q => IndexAt(s, q, count)
  }

  /** The sequence of versions 6 and 8: a positive short count, a short that
      is skipped, then the frame indices. */
  function SequenceAt(s: seq<byte>, p: nat, count: nat): (r: Result<(seq<int>, nat)>)
  {
    var (numSeq, p1) :- ReadShortAt(s, p);
    if numSeq <= 0 then Err(Format("Invalid sequence count"))
    else
      var (_, p2) :- ReadShortAt(s, p1);
      Repeat(IndexStep(s, count), p2, numSeq)
  }

  /** A decoded sequence has exactly as many entries as its count, at least
      one, and each indexes a frame; a count of zero or less is refused. */
  lemma SequenceShape(s: seq<byte>, p: nat, count: nat)
    ensures var r := SequenceAt(s, p, count);
      r.Ok? ==> && ReadShortAt(s, p).Ok? && |r.value.0| == ReadShortAt(s, p).value.0 > 0
                && forall i :: 0 <= i < |r.value.0| ==> 0 <= r.value.0[i] < count
    ensures ReadShortAt(s, p).Ok? && ReadShortAt(s, p).value.0 <= 0 ==>
      SequenceAt(s, p, count) == Err(Format("Invalid sequence count"))
  {
    var v := ReadShortAt(s, p);
    if v.Ok? && v.value.0 > 0 && ReadShortAt(s, p + 2).Ok? {
      RepeatEach(IndexStep(s, count), (i: int) => 0 <= i < count, p + 4, v.value.0);
    }
  }

  // ---------------------------------------------------------------------
  // Timelines and packages

  /** `readFrames`: the vertex table, the box and the frames. */
  function ReadFramesAt(s: seq<byte>, p: nat, ver: int, toFloat: int -> real): (r: Result<((Bounds, seq<FrameData>), nat)>)
  {
    var (coords, p1) :- CoordsAt(s, p, ver, toFloat);
    var (box, p2) :- BoxAt(s, p1);
    var (frames, p3) :- FramesAt(s, p2, ver, coords);
    Ok(((box, frames), p3))
  }

  /** `read` of one timeline: a 256-byte name, a short that is skipped, the
      vertex table, the box, the frames and, after version 4, the sequence. */
  function TimelineAt(s: seq<byte>, p: nat, ver: int, toFloat: int -> real): (r: Result<(TimelineData, nat)>)
  {
    var (name, p1) :- ReadCStringAt(s, p, 256);
    TimelineBodyAt(s, p1, ver, toFloat, name)
  }

  /** What follows the name of a timeline. */
  function TimelineBodyAt(s: seq<byte>, p: nat, ver: int, toFloat: int -> real, name: string): (r: Result<(TimelineData, nat)>)
  {
    var (_, p2) :- ReadShortAt(s, p);
    var ((box, frames), p5) :- ReadFramesAt(s, p2, ver, toFloat);
    var (order, p6) :- PlayOrderAt(s, p5, ver, |frames|);
    Ok((TimelineData(name, box, frames, order, Scale(ver)), p6))
  }

  /** The order the frames play in: read after version 4, file order before. */
  function PlayOrderAt(s: seq<byte>, p: nat, ver: int, count: nat): (r: Result<(seq<int>, nat)>)
  {
    if ver > 4 then SequenceAt(s, p, count) else Ok((Identity(count), p))
  }

  /** A decoded timeline plays only frames it has.  Version 4 plays them in
      file order with scale 1; later versions play a non-empty sequence with
      scale 1/32. */
  lemma TimelineShape(s: seq<byte>, p: nat, ver: int, toFloat: int -> real)
    ensures var r := TimelineAt(s, p, ver, toFloat);
      r.Ok? ==> var d := r.value.0;
        && InOrder(d)
        && d.name == ReadCStringAt(s, p, 256).value.0
        && (ver <= 4 ==> d.sequence == Identity(|d.frames|) && d.scale == 1.0)
        && (ver > 4 ==> |d.sequence| > 0 && d.scale == 1.0 / 32.0)
  {
    var r := TimelineAt(s, p, ver, toFloat);
    if r.Ok? {
      var (name, p1) := ReadCStringAt(s, p, 256).value;
      var ((box, frames), p5) := ReadFramesAt(s, p1 + 2, ver, toFloat).value;
      var (order, p6) := PlayOrderAt(s, p5, ver, |frames|).value;
      assert r.value.0 == TimelineData(name, box, frames, order, Scale(ver));
      if ver > 4 {
        SequenceShape(s, p5, |frames|);
      }
    }
  }

  /** The read of one timeline, as a step of `Repeat`. */
  function TimelineStep(s: seq<byte>, ver: int, toFloat: int -> real): nat -> Result<(TimelineData, nat)>
  {
    q => TimelineAt(s, q, ver, toFloat)
  }

  /** The package header: the version, which must be 4, 6 or 8, a byte that
      is skipped, the number of timelines and a short that is skipped.  It
      yields the version and the count. */
  function HeaderAt(s: seq<byte>): (r: Result<((int, int), nat)>)
    ensures r.Ok? ==> r.value.0.0 in {4, 6, 8} && r.value.1 == 7 && |s| >= 7
    ensures ReadShortAt(s, 0).Ok? && ReadShortAt(s, 0).value.0 !in {4, 6, 8} ==>
      r == Err(Format("Unknown version"))
    ensures r.Ok? ==> r.value.0 == (ReadShortAt(s, 0).value.0, ReadShortAt(s, 3).value.0)
  {
    var (ver, p1) :- ReadShortAt(s, 0);
    if ver != 4 && ver != 6 && ver != 8 then Err(Format("Unknown version"))
    else
      var (_, p2) :- ReadByteAt(s, p1);
      var (num, p3) :- ReadShortAt(s, p2);
      var (_, p4) :- ReadShortAt(s, p3);
      Ok(((ver, num), p4))
  }

  /** The body of `readTimeline`: the header, then as many timelines as it
      counts (none for a negative count). */
  function PackageBodyAt(s: seq<byte>, toFloat: int -> real): (r: Result<seq<TimelineData>>)
  {
    var ((ver, num), p) :- HeaderAt(s);
    var (ds, _) :- Repeat(TimelineStep(s, ver, toFloat), p, if num < 0 then 0 else num);
    Ok(ds)
  }

  /** `readTimeline`: an array index out of range anywhere in the package is
      reported as a format error. */
  function PackageAt(s: seq<byte>, toFloat: int -> real): (r: Result<seq<TimelineData>>)
  {
    CatchArrayIndex(PackageBodyAt(s, toFloat))
  }

  /** The name field of a timeline, as a step of its own. */
  function NameStep(s: seq<byte>): nat -> Result<(string, nat)>
  {
    q => ReadCStringAt(s, q, 256)
  }

  /** The names registered while `k` records are read from `p` by `read`,
      each record starting with a name field that `name` reads: every record
      whose name was read, the last possibly one whose rest then failed. */
  function Registrations<T>(read: nat -> Result<(T, nat)>, name: nat -> Result<(string, nat)>, p: nat, k: nat): (ns: seq<string>)
    ensures |ns| <= k
    decreases k
  {
    if k == 0 then []
    else match name(p)
      case Err(_) => []
      case Ok((n, _)) =>
        match read(p)
        case Err(_) => [n]
        case Ok((_, q)) => [n] + Registrations(read, name, q, k - 1)
  }

  /** A read that fails registers the name it read, if any, and nothing
      after it. */
  lemma RegistrationsStop<T>(read: nat -> Result<(T, nat)>, name: nat -> Result<(string, nat)>, q: nat, k: nat)
    requires k > 0 && read(q).Err?
    ensures Registrations(read, name, q, k) == if name(q).Ok? then [name(q).value.0] else []
  {
  }

  /** One more record read for `Registrations`: the cache `after` it is
      `before` with its name entered; when it fails, that ends the
      registrations. */
  lemma RegisteredStep<T, A>(read: nat -> Result<(T, nat)>, name: nat -> Result<(string, nat)>, nameOf: T -> string,
                             p0: nat, k: nat, i: nat, ds: seq<T>, q: nat,
                             m0: map<string, Option<A>>, before: map<string, Option<A>>,
                             after: map<string, Option<A>>, t: A)
    requires forall q: nat :: read(q).Ok? ==> name(q).Ok? && nameOf(read(q).value.0) == name(q).value.0
    requires i < k && Repeat(read, p0, i) == Ok((ds, q))
    requires Entered(m0, before, Labels(nameOf, ds))
    requires after == if name(q).Ok? then before[ToLowerCase(name(q).value.0) := Some(t)] else before
    ensures read(q).Err? ==> Repeat(read, p0, k) == Err(read(q).error)
    ensures read(q).Err? ==> Entered(m0, after, Registrations(read, name, p0, k))
    ensures read(q).Ok? ==> && Repeat(read, p0, i + 1) == Ok((ds + [read(q).value.0], read(q).value.1))
                            && Entered(m0, after, Labels(nameOf, ds + [read(q).value.0]))
  {
    RepeatNext(read, p0, i, k, ds, q);
    RegistrationsSplit(read, name, nameOf, p0, k, i);
    if read(q).Err? {
      RegistrationsStop(read, name, q, k - i);
      if name(q).Ok? {
        EnteredNext(m0, before, Labels(nameOf, ds), name(q).value.0, t);
      } else {
        assert Labels(nameOf, ds) + [] == Labels(nameOf, ds);
      }
    } else {
      var d := read(q).value.0;
      EnteredNext(m0, before, Labels(nameOf, ds), nameOf(d), t);
      assert Labels(nameOf, ds + [d]) == Labels(nameOf, ds) + [nameOf(d)];
    }
  }

  /** All `k` records read: the registrations are their names. */
  lemma RegisteredAll<T>(read: nat -> Result<(T, nat)>, name: nat -> Result<(string, nat)>, nameOf: T -> string,
                         p0: nat, k: nat, ds: seq<T>, q: nat)
    requires forall q: nat :: read(q).Ok? ==> name(q).Ok? && nameOf(read(q).value.0) == name(q).value.0
    requires Repeat(read, p0, k) == Ok((ds, q))
    ensures Registrations(read, name, p0, k) == Labels(nameOf, ds)
  {
    RegistrationsSplit(read, name, nameOf, p0, k, k);
    assert Labels(nameOf, ds) + [] == Labels(nameOf, ds);
  }

  /** The nameOf of each item. */
  function Labels<T>(nameOf: T -> string, ds: seq<T>): (ns: seq<string>)
    ensures |ns| == |ds| && forall i :: 0 <= i < |ds| ==> ns[i] == nameOf(ds[i])
  {
    seq(|ds|, i requires 0 <= i < |ds| => nameOf(ds[i]))
  }

  /** When every record that reads carries the name its name field holds, the
      names registered by `k` reads are those of the records the first `i`
      of them decoded, then the names registered by the rest. */
  lemma {:induction false} RegistrationsSplit<T>(read: nat -> Result<(T, nat)>, name: nat -> Result<(string, nat)>,
                                                 nameOf: T -> string, p: nat, k: nat, i: nat)
    requires forall q: nat :: read(q).Ok? ==> name(q).Ok? && nameOf(read(q).value.0) == name(q).value.0
    requires i <= k && Repeat(read, p, i).Ok?
    ensures var (ds, q) := Repeat(read, p, i).value;
      Registrations(read, name, p, k) == Labels(nameOf, ds) + Registrations(read, name, q, k - i)
    decreases i
  {
    var (ds, q) := Repeat(read, p, i).value;
    if i == 0 {
      assert Labels(nameOf, ds) == [];
    } else {
      assert read(p).Ok?;
      var (d, q1) := read(p).value;
      var rest := Repeat(read, q1, i - 1);
      assert Repeat(read, p, i) == Prepend([d], rest);
      var (ds', q') := rest.value;
      RegistrationsCons(read, name, nameOf, p, k);
      RegistrationsSplit(read, name, nameOf, q1, k - 1, i - 1);
      LabelsCons(nameOf, d, ds');
      Regroup(nameOf(d), Labels(nameOf, ds'), Registrations(read, name, q', k - i));
    }
  }

  lemma Regroup(n: string, ls: seq<string>, tail: seq<string>)
    ensures [n] + (ls + tail) == ([n] + ls) + tail
  {
  }

  /** A record that reads registers its own name first. */
  lemma RegistrationsCons<T>(read: nat -> Result<(T, nat)>, name: nat -> Result<(string, nat)>,
                             nameOf: T -> string, p: nat, k: nat)
    requires forall q: nat :: read(q).Ok? ==> name(q).Ok? && nameOf(read(q).value.0) == name(q).value.0
    requires k > 0 && read(p).Ok?
    ensures Registrations(read, name, p, k)
         == [nameOf(read(p).value.0)] + Registrations(read, name, read(p).value.1, k - 1)
  {
    assert name(p).Ok? && name(p).value.0 == nameOf(read(p).value.0);
  }

  lemma LabelsSnoc<T>(nameOf: T -> string, ds: seq<T>, d: T)
    ensures Labels(nameOf, ds + [d]) == Labels(nameOf, ds) + [nameOf(d)]
  {
  }

  lemma LabelsCons<T>(nameOf: T -> string, d: T, ds: seq<T>)
    ensures Labels(nameOf, [d] + ds) == [nameOf(d)] + Labels(nameOf, ds)
  {
    var a, b := Labels(nameOf, [d] + ds), [nameOf(d)] + Labels(nameOf, ds);
    forall j | 0 <= j < |a|
      ensures a[j] == b[j]
    {
      if j > 0 {
        assert ([d] + ds)[j] == ds[j - 1];
      }
    }
    assert a == b;
  }

  /** The names a read of the package registers. */
  function Registered(s: seq<byte>, toFloat: int -> real): seq<string>
  {
    match HeaderAt(s)
    case Err(_) => []
    case Ok(((ver, num), p)) => Registrations(TimelineStep(s, ver, toFloat), NameStep(s), p, if num < 0 then 0 else num)
  }

  /** The names of decoded timelines, in order. */
  function Names(ds: seq<TimelineData>): (ns: seq<string>)
    ensures |ns| == |ds| && forall i :: 0 <= i < |ds| ==> ns[i] == ds[i].name
  {
    Labels(NameOf, ds)
  }

  function NameOf(d: TimelineData): string
  {
    d.name
  }

  /** After a whole package is decoded, exactly the names of its timelines
      were registered, in order. */
  lemma PackageNames(s: seq<byte>, toFloat: int -> real)
    ensures PackageAt(s, toFloat).Ok? ==> Registered(s, toFloat) == Names(PackageAt(s, toFloat).value)
  {
    if PackageAt(s, toFloat).Ok? {
      var ((ver, num), p) := HeaderAt(s).value;
      var k := if num < 0 then 0 else num;
      var read := TimelineStep(s, ver, toFloat);
      forall q: nat | read(q).Ok?
        ensures NameStep(s)(q).Ok? && NameOf(read(q).value.0) == NameStep(s)(q).value.0
      {
        TimelineShape(s, q, ver, toFloat);
      }
      RegistrationsSplit(read, NameStep(s), NameOf, p, k, k);
      var ds := PackageAt(s, toFloat).value;
      assert Labels(NameOf, ds) + [] == Names(ds);
    }
  }

  // ---------------------------------------------------------------------
  // The package index

  /** One animation pack: its name and the names of its animations. */
  type Pack = (string, seq<string>)

  /** The `put` calls of `load` for the animations of one pack, in order. */
  function PutNames(m: map<string, string>, pack: string, names: seq<string>): map<string, string>
    decreases |names|
  {
    if names == [] then m
    else PutNames(m, pack, names[..|names| - 1])[ToLowerCase(names[|names| - 1]) := pack]
  }

  /** The index `load` builds from the packs, in order. */
  function IndexOf(packs: seq<Pack>): map<string, string>
    decreases |packs|
  {
    if packs == [] then map[]
    else PutNames(IndexOf(packs[..|packs| - 1]), packs[|packs| - 1].0, packs[|packs| - 1].1)
  }

  /** A pack lists the key `k` when one of its animations lower-cases to it. */
  predicate Lists(pack: Pack, k: string)
  {
    exists j :: 0 <= j < |pack.1| && ToLowerCase(pack.1[j]) == k
  }

  /** The puts of one pack add its keys, all mapped to the pack, and leave
      every other key as it was. */
  lemma {:induction false} PutNamesEffect(m: map<string, string>, pack: string, names: seq<string>)
    ensures forall k :: k in PutNames(m, pack, names) <==> k in m || Lists((pack, names), k)
    ensures forall k :: Lists((pack, names), k) ==> PutNames(m, pack, names)[k] == pack
    ensures forall k :: k in m && !Lists((pack, names), k) ==> PutNames(m, pack, names)[k] == m[k]
    decreases |names|
  {
    if names != [] {
      var init := names[..|names| - 1];
      PutNamesEffect(m, pack, init);
      forall k ensures Lists((pack, names), k) <==> Lists((pack, init), k) || k == ToLowerCase(names[|names| - 1]) {
        if Lists((pack, names), k) && k != ToLowerCase(names[|names| - 1]) {
          var j :| 0 <= j < |names| && ToLowerCase(names[j]) == k;
          assert init[j] == names[j];
        }
        if Lists((pack, init), k) {
          var j :| 0 <= j < |init| && ToLowerCase(init[j]) == k;
          assert names[j] == init[j];
        }
      }
    }
  }

  /** `load`: a key is indexed exactly when some pack lists it, and it maps
      to the last pack that does (later packs win). */
  lemma IndexLaterWins(packs: seq<Pack>)
    ensures forall k :: k in IndexOf(packs) <==> exists i :: 0 <= i < |packs| && Lists(packs[i], k)
    ensures forall k :: k in IndexOf(packs) ==>
      exists i :: (0 <= i < |packs| && Lists(packs[i], k) && IndexOf(packs)[k] == packs[i].0
                   && forall i' :: i < i' < |packs| ==> !Lists(packs[i'], k))
  {
    forall k ensures k in IndexOf(packs) <==> exists i :: 0 <= i < |packs| && Lists(packs[i], k) {
      IndexKey(packs, k);
    }
    forall k | k in IndexOf(packs)
      ensures exists i :: (0 <= i < |packs| && Lists(packs[i], k) && IndexOf(packs)[k] == packs[i].0
                           && forall i' :: i < i' < |packs| ==> !Lists(packs[i'], k))
    {
      IndexValue(packs, k);
    }
  }

  lemma {:induction false} IndexKey(packs: seq<Pack>, k: string)
    ensures k in IndexOf(packs) <==> exists i :: 0 <= i < |packs| && Lists(packs[i], k)
    decreases |packs|
  {
    if packs != [] {
      var n := |packs| - 1;
      var init := packs[..n];
      IndexKey(init, k);
      PutNamesEffect(IndexOf(init), packs[n].0, packs[n].1);
      assert forall i :: 0 <= i < n ==> init[i] == packs[i];
    }
  }

  lemma {:induction false} IndexValue(packs: seq<Pack>, k: string)
    requires k in IndexOf(packs)
    ensures exists i :: (0 <= i < |packs| && Lists(packs[i], k) && IndexOf(packs)[k] == packs[i].0
                         && forall i' :: i < i' < |packs| ==> !Lists(packs[i'], k))
    decreases |packs|
  {
    var n := |packs| - 1;
    var init := packs[..n];
    PutNamesEffect(IndexOf(init), packs[n].0, packs[n].1);
    if !Lists(packs[n], k) {
      IndexValue(init, k);
      var i :| 0 <= i < n && Lists(init[i], k) && IndexOf(init)[k] == init[i].0
        && forall i' :: i < i' < n ==> !Lists(init[i'], k);
      assert init[i] == packs[i];
      assert forall i' :: i < i' < n ==> init[i'] == packs[i'];
    }
  }

  // ---------------------------------------------------------------------
  // The cache

  /** The keys the names register: their lower-cased forms. */
  function LowerSet(names: seq<string>): (ks: set<string>)
    ensures forall i :: 0 <= i < |names| ==> ToLowerCase(names[i]) in ks
    ensures forall k :: k in ks ==> exists i :: 0 <= i < |names| && ToLowerCase(names[i]) == k
  {
    set i | 0 <= i < |names| :: ToLowerCase(names[i])
  }

  /** `m` is `m0` after each of `names` was registered under its lower-cased
      form with an object. */
  predicate Entered<A(==)>(m0: map<string, Option<A>>, m: map<string, Option<A>>, names: seq<string>)
  {
    && m.Keys == m0.Keys + LowerSet(names)
    && (forall k :: k in LowerSet(names) ==> m[k].Some?)
    && (forall k :: k in m0 && k !in LowerSet(names) ==> m[k] == m0[k])
  }

  /** The position of the last of `names` that lower-cases to `k`: the one
      whose registration the cache keeps. */
  ghost function LastIndex(names: seq<string>, k: string): (j: nat)
    requires k in LowerSet(names)
    ensures j < |names| && ToLowerCase(names[j]) == k
    ensures forall i :: j < i < |names| ==> ToLowerCase(names[i]) != k
    decreases |names|
  {
    var n := |names| - 1;
    if ToLowerCase(names[n]) == k then n
    else
      var i :| 0 <= i < |names| && ToLowerCase(names[i]) == k;
      assert names[..n][i] == names[i];
      LastIndex(names[..n], k)
  }

  /** Each key of `names` holds the object registered with the last name
      that lower-cases to it, `objs` being the objects in order. */
  ghost predicate Latest<A>(m: map<string, Option<A>>, names: seq<string>, objs: seq<A>)
  {
    && |objs| == |names|
    && forall k :: k in LowerSet(names) ==> k in m && m[k] == Some(objs[LastIndex(names, k)])
  }

  /** Registering one more name with its object: that object now wins its
      key, every other key keeps its object. */
  lemma LatestNext<A>(m: map<string, Option<A>>, names: seq<string>, objs: seq<A>, n: string, t: A)
    requires Latest(m, names, objs)
    ensures Latest(m[ToLowerCase(n) := Some(t)], names + [n], objs + [t])
  {
    var ns := names + [n];
    assert ns[..|names|] == names;
    forall k | k in LowerSet(ns)
      ensures k in LowerSet(names) || k == ToLowerCase(n)
    {
      var i :| 0 <= i < |ns| && ToLowerCase(ns[i]) == k;
      if i < |names| {
        assert ns[i] == names[i];
      }
    }
  }

  /** The file a pack is read from. */
  function TimelineFile(pack: string): string
  {
    pack + "_Timeline.bin"
  }

  /** A timeline object: `packageName` is set when it is created, the other
      fields by `read`.  The ghost `decoded` is the frame list as `readFrames`
      left it (after version 4 the field `frames` is replaced by the played
      sequence), and `Repr` is everything the object owns. */
  class Timeline {
    var packageName: string
    var name: string
    var xMin: int, xMax: int, yMin: int, yMax: int
    var frames: array?<Frame?>
    var scale: real
    ghost var decoded: seq<Frame>
    ghost var Repr: set<object>

    constructor (packageName: string)
      ensures this.packageName == packageName && name == "" && frames == null && scale == 0.0
      ensures Box() == Bounds(0, 0, 0, 0) && decoded == [] && Repr == {this}
    {
      this.packageName := packageName;
      name := "";
      xMin, xMax, yMin, yMax := 0, 0, 0, 0;
      frames := null;
      scale := 0.0;
      decoded := [];
      Repr := {this};
    }

    function Box(): Bounds
      reads this
    {
      Bounds(xMin, xMax, yMin, yMax)
    }

    /** The decoded frames are objects of this timeline that hold `ds`. */
    ghost predicate FramesHold(ds: seq<FrameData>)
      reads this, Repr
    {
      Own(decoded, ds, Repr - {this})
    }

    /** The state `readFrames` leaves: `frames` is the array of the decoded
        frames, which hold `ds`. */
    ghost predicate Listed(ds: seq<FrameData>)
      reads this, Repr
    {
      && this in Repr && frames != null && frames in Repr
      && FramesHold(ds)
      && frames.Length == |decoded|
      && (forall j :: 0 <= j < frames.Length ==> frames[j] == decoded[j])
    }

    /** The fields hold the timeline `d`: entry `i` of `frames` is the very
        frame object decoded as `d.frames[d.sequence[i]]`. */
    ghost predicate Models(d: TimelineData)
      reads this, Repr
    {
      && this in Repr && frames != null && frames in Repr
      && FramesHold(d.frames)
      && InOrder(d)
      && frames.Length == |d.sequence|
      && (forall i :: 0 <= i < |d.sequence| ==> frames[i] == decoded[d.sequence[i]])
      && name == d.name && Box() == d.bounds && scale == d.scale
    }

    /** `getBounds()`: the box, one unit wider and higher than its extent,
        scaled. */
    function GetBounds(): (r: Rect)
      reads this
      ensures xMin <= xMax && yMin <= yMax && scale > 0.0 ==>
        BoundsRect(Box()).Some? && r == ScaleRect(BoundsRect(Box()).value, scale)
    {
      Rect(xMin as real * scale, yMin as real * scale, (xMax - xMin + 1) as real * scale, (yMax - yMin + 1) as real * scale)
    }

    /** `getNumFrames()`: the number of frames that play. */
    function GetNumFrames(): (r: Result<int>)
      reads this
      ensures frames == null ==> r == Err(NullPointer)
      ensures frames != null ==> r == Ok(frames.Length)
    {
      if frames == null then Err(NullPointer) else Ok(frames.Length)
    }

    /** `getFrame(num)`. */
    function GetFrame(num: int): (r: Result<Frame?>)
      reads this, frames
      ensures frames == null ==> r == Err(NullPointer)
      ensures frames != null && !(0 <= num < frames.Length) ==> r == Err(ArrayIndex)
      ensures frames != null && 0 <= num < frames.Length ==> r == Ok(frames[num])
    {
      if frames == null then Err(NullPointer)
      else if 0 <= num < frames.Length then Ok(frames[num])
      else Err(ArrayIndex)
    }

    /** `getBounds(frame)`: the frame's bounds, scaled; none stays none. */
    function GetFrameBounds(frame: int): (r: Result<Option<Rect>>)
      reads this, frames, if frames != null && 0 <= frame < frames.Length && frames[frame] != null then {frames[frame]} else {}
      ensures frames == null ==> r == Err(NullPointer)
      ensures frames != null && !(0 <= frame < frames.Length) ==> r == Err(ArrayIndex)
      ensures frames != null && 0 <= frame < frames.Length && frames[frame] != null ==>
        r == Ok(ScaleBounds(frames[frame].GetBounds(), scale))
    {
      if frames == null then Err(NullPointer)
      else if !(0 <= frame < frames.Length) then Err(ArrayIndex)
      else if frames[frame] == null then Err(NullPointer)
      else match frames[frame].GetBounds()
        case None => Ok(None)
        case Some(b) => Ok(Some(ScaleRect(b, scale)))
    }

    /** `read`: the name, registered in the cache at once under its
        lower-cased form, then the rest of the record. */
    method Read(lib: Library, src: LittleEndianInputStream, ver: int, toFloat: int -> real) returns (r: Result<()>)
      requires src.Valid()
      modifies this, src, lib
      ensures src.Valid()
      ensures var spec := TimelineAt(src.data, old(src.pos), ver, toFloat);
        && (r.Ok? <==> spec.Ok?)
        && (spec.Err? ==> r == Err(spec.error))
        && (spec.Ok? ==> src.pos == spec.value.1 && Models(spec.value.0) && fresh(Repr - {this}))
        && (spec.Err? ==> scale == old(scale))
      ensures var nm := ReadCStringAt(src.data, old(src.pos), 256);
        lib.animCache == if nm.Ok? then old(lib.animCache)[ToLowerCase(nm.value.0) := Some(this)] else old(lib.animCache)
      ensures lib.packageIndex == old(lib.packageIndex)
    {
      var nm :- src.ReadCString(256);
      name := nm;
      lib.animCache := lib.animCache[ToLowerCase(nm) := Some(this)];
      r := ReadBody(src, ver, toFloat);
    }

    /** The rest of `read`, after the name: a skipped short, the frames, the
        play order and, last, the scale of the version. */
    method ReadBody(src: LittleEndianInputStream, ver: int, toFloat: int -> real) returns (r: Result<()>)
      requires src.Valid()
      modifies this, src
      ensures src.Valid()
      ensures var spec := TimelineBodyAt(src.data, old(src.pos), ver, toFloat, old(name));
        && (r.Ok? <==> spec.Ok?)
        && (spec.Err? ==> r == Err(spec.error))
        && (spec.Ok? ==> src.pos == spec.value.1 && Models(spec.value.0) && fresh(Repr - {this}))
        && (spec.Err? ==> scale == old(scale))
    {
      var _ :- src.ReadShort();
      ghost var box, ds;
      r, box, ds := ReadFrames(src, ver, toFloat);
      if r.Err? {
        return;
      }
      ghost var listed, before := Repr - {this}, Repr;
      assert fresh(listed);
      ghost var order;
      r, order := ReadPlayOrder(src, ver, ds);
      if r.Err? {
        return;
      }
      assert fresh(listed + (Repr - before));
      assert Repr - {this} <= listed + (Repr - before);
      SetScale(Scale(ver), TimelineData(name, box, ds, order, scale));
    }

    /** The last assignment of `read`: the scale, leaving what the fields
        hold otherwise as it was. */
    method SetScale(k: real, ghost d: TimelineData)
      requires Models(d)
      modifies this
      ensures Models(d.(scale := k)) && Repr == old(Repr)
    {
      scale := k;
    }

    /** After version 4 `readSequence`; before, the frames play as read. */
    method ReadPlayOrder(src: LittleEndianInputStream, ver: int, ghost ds: seq<FrameData>) returns (r: Result<()>, ghost order: seq<int>)
      requires src.Valid() && Listed(ds) && src !in Repr
      modifies this, src
      ensures src.Valid()
      ensures var spec := PlayOrderAt(src.data, old(src.pos), ver, |ds|);
        && (r.Ok? <==> spec.Ok?)
        && (spec.Err? ==> r == Err(spec.error))
        && (spec.Ok? ==> src.pos == spec.value.1 && order == spec.value.0)
      ensures r.Ok? ==> && this in Repr && frames != null && frames in Repr && frames.Length == |order|
                        && fresh(Repr - old(Repr))
                        && |decoded| == |ds|
                        && forall i :: 0 <= i < |order| ==> 0 <= order[i] < |decoded| && frames[i] == decoded[order[i]]
      ensures decoded == old(decoded) && name == old(name) && scale == old(scale) && Box() == old(Box())
      ensures packageName == old(packageName) && FramesHold(ds)
    {
      if ver > 4 {
        r, order := ReadSequence(src, ds);
      } else {
        order := Identity(|ds|);
        r := Ok(());
      }
    }

    /** `readFrames`: the vertex table, the box into the four fields, and the
        frames. */
    method ReadFrames(src: LittleEndianInputStream, ver: int, toFloat: int -> real)
      returns (r: Result<()>, ghost box: Bounds, ghost ds: seq<FrameData>)
      requires src.Valid()
      modifies this, src
      ensures src.Valid()
      ensures var spec := ReadFramesAt(src.data, old(src.pos), ver, toFloat);
        && (r.Ok? <==> spec.Ok?)
        && (spec.Err? ==> r == Err(spec.error))
        && (spec.Ok? ==> src.pos == spec.value.1 && (box, ds) == spec.value.0 && Box() == box && Listed(ds)
                         && src !in Repr && fresh(Repr - {this}))
      ensures name == old(name) && scale == old(scale) && packageName == old(packageName)
    {
      box, ds := Box(), [];
      var coords :- ReadCoords(src, ver, toFloat);
      r := ReadBox(src);
      if r.Err? {
        return;
      }
      box := Box();
      r, ds := ReadFrameTable(src, ver, coords);
    }

    /** The four shorts of the box, into `xMin`, `xMax`, `yMin`, `yMax`. */
    method ReadBox(src: LittleEndianInputStream) returns (r: Result<()>)
      requires src.Valid()
      modifies this, src
      ensures src.Valid()
      ensures var spec := BoxAt(src.data, old(src.pos));
        && (r.Ok? <==> spec.Ok?)
        && (spec.Err? ==> r == Err(spec.error))
        && (spec.Ok? ==> src.pos == spec.value.1 && Box() == spec.value.0)
      ensures name == old(name) && scale == old(scale) && packageName == old(packageName)
    {
      var x0 :- src.ReadShort();
      var x1 :- src.ReadShort();
      var y0 :- src.ReadShort();
      var y1 :- src.ReadShort();
      xMin, xMax, yMin, yMax := x0, x1, y0, y1;
      r := Ok(());
    }

    /** The frame count, which a negative value fails to allocate, then the
        frames. */
    method ReadFrameTable(src: LittleEndianInputStream, ver: int, coords: array<Vertex>)
      returns (r: Result<()>, ghost ds: seq<FrameData>)
      requires src.Valid()
      modifies this, src
      ensures src.Valid()
      ensures var spec := FramesAt(src.data, old(src.pos), ver, coords[..]);
        && (r.Ok? <==> spec.Ok?)
        && (spec.Err? ==> r == Err(spec.error))
        && (spec.Ok? ==> src.pos == spec.value.1 && ds == spec.value.0 && Listed(ds) && src !in Repr
                         && fresh(Repr - {this}))
      ensures name == old(name) && scale == old(scale) && packageName == old(packageName) && Box() == old(Box())
    {
      ds := [];
      var numFrames :- src.ReadShort();
      if numFrames < 0 {
        return Err(NegativeArraySize), [];
      }
      r, ds := ReadFrameList(src, ver, coords, numFrames);
    }

    /** The vertex table of `readFrames`: its count, the point size, the
        array and the vertices. */
    static method ReadCoords(src: LittleEndianInputStream, ver: int, toFloat: int -> real) returns (r: Result<array<Vertex>>)
      requires src.Valid()
      modifies src
      ensures src.Valid()
      ensures var spec := CoordsAt(src.data, old(src.pos), ver, toFloat);
        && (r.Ok? <==> spec.Ok?)
        && (spec.Err? ==> r == Err(spec.error))
        && (spec.Ok? ==> src.pos == spec.value.1 && fresh(r.value) && r.value[..] == spec.value.0)
    {
      var numPoints :- src.ReadShort();
      var n :- ReadPointSize(src, ver);
      if numPoints < 0 {
        return Err(NegativeArraySize);
      }
      r := ReadVertices(src, ver, n, numPoints, toFloat);
    }

    /** The loop over the vertex table: `count` vertices into a new array. */
    static method ReadVertices(src: LittleEndianInputStream, ver: int, n: nat, count: nat, toFloat: int -> real)
      returns (r: Result<array<Vertex>>)
      requires src.Valid()
      modifies src
      ensures src.Valid()
      ensures var spec := Repeat(VertexStep(src.data, ver, n, toFloat), old(src.pos), count);
        && (r.Ok? <==> spec.Ok?)
        && (spec.Err? ==> r == Err(spec.error))
        && (spec.Ok? ==> src.pos == spec.value.1 && fresh(r.value) && r.value[..] == spec.value.0)
    {
      ghost var s, p0 := src.data, src.pos;
      ghost var step := VertexStep(s, ver, n, toFloat);
      var coords := new Vertex[count];
      ghost var done: seq<Vertex> := [];
      var i := 0;
      while i < count
        invariant 0 <= i <= count && src.Valid() && src.data == s
        invariant Repeat(step, p0, i) == Ok((done, src.pos))
        invariant coords[..i] == done
      {
        ghost var q := src.pos;
        RepeatNext(step, p0, i, count, done, q);
        var point :- ReadVertex(src, ver, n, toFloat);
        coords[i] := point;
        done := done + [point];
        i := i + 1;
      }
      assert Repeat(step, p0, count) == Ok((done, src.pos));
      assert coords[..] == coords[..count];
      r := Ok(coords);
    }

    /** The point-size selector: version 8 only; 0, 1 and 0x101 stand for
        0, 1 and 4 floats. */
    static method ReadPointSize(src: LittleEndianInputStream, ver: int) returns (r: Result<nat>)
      requires src.Valid()
      modifies src
      ensures src.Valid()
      ensures Follows(r, PointSizeAt(src.data, old(src.pos), ver), src.pos)
    {
      if ver != 8 {
        return Ok(0);
      }
      var sel :- src.ReadShort();
      if sel == 0 {
        r := Ok(0);
      } else if sel == 1 {
        r := Ok(1);
      } else if sel == 0x101 {
        r := Ok(4);
      } else {
        r := Err(Format("Unknown point size"));
      }
    }

    /** One vertex of the table. */
    static method ReadVertex(src: LittleEndianInputStream, ver: int, n: nat, toFloat: int -> real) returns (r: Result<Vertex>)
      requires src.Valid()
      modifies src
      ensures src.Valid()
      ensures Follows(r, VertexAt(src.data, old(src.pos), ver, n, toFloat), src.pos)
    {
      var x1 :- src.ReadShort();
      var y1 :- src.ReadShort();
      if ver == 4 {
        var _ :- src.ReadShort();
      }
      var x2 :- src.ReadShort();
      var y2 :- src.ReadShort();
      var alpha :- ReadAlpha(src, n, toFloat);
      r := Ok(Vertex(x1, y1, x2, y2, alpha));
    }

    /** The alpha loop of a vertex: `Math.min` of the alpha so far and each
        float read. */
    static method ReadAlpha(src: LittleEndianInputStream, n: nat, toFloat: int -> real) returns (r: Result<real>)
      requires src.Valid()
      modifies src
      ensures src.Valid()
      ensures Follows(r, AlphaAt(src.data, old(src.pos), n, toFloat), src.pos)
    {
      ghost var s, p0 := src.data, src.pos;
      ghost var step := FloatStep(s, toFloat);
      ghost var fs: seq<real> := [];
      var alpha := 1.0;
      var j := 0;
      while j < n
        invariant 0 <= j <= n && src.Valid() && src.data == s
        invariant Repeat(step, p0, j) == Ok((fs, src.pos))
        invariant alpha == MinAlpha(1.0, fs)
      {
        ghost var q := src.pos;
        RepeatNext(step, p0, j, n, fs, q);
        var f :- src.ReadFloat(toFloat);
        assert (fs + [f])[..|fs|] == fs;
        alpha := if alpha <= f then alpha else f;
        fs := fs + [f];
        j := j + 1;
      }
      assert Repeat(step, p0, n) == Ok((fs, src.pos));
      r := Ok(alpha);
    }

    /** The frame loop of `readFrames`: `frames` becomes an array of new
        frames, each of which read itself. */
    method ReadFrameList(src: LittleEndianInputStream, ver: int, coords: array<Vertex>, n: nat)
      returns (r: Result<()>, ghost ds: seq<FrameData>)
      requires src.Valid()
      modifies this, src
      ensures src.Valid()
      ensures var spec := Repeat(FrameStep(src.data, ver, coords[..]), old(src.pos), n);
        && (r.Ok? <==> spec.Ok?)
        && (spec.Err? ==> r == Err(spec.error))
        && (spec.Ok? ==> src.pos == spec.value.1 && ds == spec.value.0 && Listed(ds) && src !in Repr
                         && fresh(Repr - {this}))
      ensures name == old(name) && scale == old(scale) && packageName == old(packageName) && Box() == old(Box())
    {
      var made;
      ghost var owned;
      made, ds, owned := ReadFrameObjects(src, ver, coords, n, this);
      if made.Err? {
        return Err(made.error), ds;
      }
      var fs := FrameArray(made.value);
      Install(fs, made.value, ds, owned);
      r := Ok(());
    }

    /** `frames` becomes `fs`, the array of the frames `made`, which hold
        `ds` and own `owned`. */
    method Install(fs: array<Frame?>, made: seq<Frame>, ghost ds: seq<FrameData>, ghost owned: set<object>)
      requires Own(made, ds, owned) && this !in owned && fs !in owned
      requires fs.Length == |made| && forall j :: 0 <= j < |made| ==> fs[j] == made[j]
      modifies this
      ensures Listed(ds) && Repr == owned + {this, fs}
      ensures name == old(name) && scale == old(scale) && packageName == old(packageName) && Box() == old(Box())
    {
      OwnWider(made, ds, owned, {fs});
      frames := fs;
      decoded := made;
      Repr := owned + {this, fs};
      assert Repr - {this} == owned + {fs};
    }

    /** The loop of `readFrames` over the frames: `n` new frames, each
        holding the frame record it read; `owned` is what they own, which
        neither `src` nor `avoid` is part of. */
    static method ReadFrameObjects(src: LittleEndianInputStream, ver: int, coords: array<Vertex>, n: nat, ghost avoid: object)
      returns (r: Result<seq<Frame>>, ghost ds: seq<FrameData>, ghost owned: set<object>)
      requires src.Valid()
      modifies src
      ensures src.Valid()
      ensures var spec := Repeat(FrameStep(src.data, ver, coords[..]), old(src.pos), n);
        && (r.Ok? <==> spec.Ok?)
        && (spec.Err? ==> r == Err(spec.error))
        && (spec.Ok? ==> src.pos == spec.value.1 && ds == spec.value.0)
      ensures r.Ok? ==> src !in owned && avoid !in owned && Own(r.value, ds, owned) && fresh(owned)
    {
      ghost var s, p0, cs := src.data, src.pos, coords[..];
      ghost var step := FrameStep(s, ver, cs);
      var made: seq<Frame> := [];
      ds, owned := [], {};
      var i := 0;
      while i < n
        invariant 0 <= i <= n && src.Valid() && src.data == s && coords[..] == cs
        invariant Repeat(step, p0, i) == Ok((ds, src.pos))
        invariant src !in owned && avoid !in owned && |made| == i
        invariant Own(made, ds, owned) && fresh(owned)
      {
        ghost var q := src.pos;
        RepeatNext(step, p0, i, n, ds, q);
        var f;
        f, owned := ReadOwnedFrame(src, ver, coords, made, ds, owned, avoid);
        if f.Err? {
          return Err(f.error), ds, owned;
        }
        ds := ds + [step(q).value.0];
        made := made + [f.value];
        i := i + 1;
      }
      assert Repeat(step, p0, n) == Ok((ds, src.pos));
      r := Ok(made);
    }

    /** One entry of the frame loop, added to the frames `made`, which hold
        `ds` and own `owned`. */
    static method ReadOwnedFrame(src: LittleEndianInputStream, ver: int, coords: array<Vertex>,
                                 ghost made: seq<Frame>, ghost ds: seq<FrameData>, ghost owned: set<object>, ghost avoid: object)
      returns (r: Result<Frame>, ghost more: set<object>)
      requires src.Valid() && src !in owned && avoid !in owned && Own(made, ds, owned)
      modifies src
      ensures src.Valid()
      ensures var spec := FrameAt(src.data, old(src.pos), ver, coords[..]);
        && (r.Ok? <==> spec.Ok?)
        && (spec.Err? ==> r == Err(spec.error))
        && (spec.Ok? ==> src.pos == spec.value.1 && src !in more && avoid !in more
                         && Own(made + [r.value], ds + [spec.value.0], more) && fresh(more - owned))
    {
      more := owned;
      r := ReadNewFrame(src, ver, coords);
      if r.Ok? {
        ghost var d := FrameAt(src.data, old(src.pos), ver, coords[..]).value.0;
        OwnMore(made, ds, owned, r.value, d);
        more := owned + r.value.Repr;
      }
    }

    /** The frame indices of `readSequence`: `n` shorts, each of which must
        index one of `count` frames. */
    static method ReadIndices(src: LittleEndianInputStream, count: nat, n: nat) returns (r: Result<seq<int>>)
      requires src.Valid()
      modifies src
      ensures src.Valid()
      ensures Follows(r, Repeat(IndexStep(src.data, count), old(src.pos), n), src.pos)
    {
      ghost var s, p0 := src.data, src.pos;
      ghost var step := IndexStep(s, count);
      var order: seq<int> := [];
      var i := 0;
      while i < n
        invariant 0 <= i <= n && src.Valid() && src.data == s
        invariant Repeat(step, p0, i) == Ok((order, src.pos))
      {
        ghost var q := src.pos;
        RepeatNext(step, p0, i, n, order, q);
        var idx :- src.ReadShort();
        if idx < 0 || idx >= count {
          return Err(ArrayIndex);
        }
        order := order + [idx];
        i := i + 1;
      }
      assert Repeat(step, p0, n) == Ok((order, src.pos));
      r := Ok(order);
    }

    /** A fresh array of the frames of `fr` at the indices `order`. */
    static method Pick(fr: array<Frame?>, order: seq<int>) returns (a: array<Frame?>)
      requires forall i :: 0 <= i < |order| ==> 0 <= order[i] < fr.Length
      ensures fresh(a) && a.Length == |order| && forall i :: 0 <= i < |order| ==> a[i] == fr[order[i]]
    {
      a := new Frame?[|order|];
      var i := 0;
      while i < |order|
        invariant 0 <= i <= |order| && forall j :: 0 <= j < i ==> a[j] == fr[order[j]]
      {
        a[i] := fr[order[i]];
        i := i + 1;
      }
    }

    /** The array of the frames `fs`, in order. */
    static method FrameArray(fs: seq<Frame?>) returns (a: array<Frame?>)
      ensures fresh(a) && a.Length == |fs| && forall j :: 0 <= j < |fs| ==> a[j] == fs[j]
    {
      a := new Frame?[|fs|];
      var i := 0;
      while i < |fs|
        invariant 0 <= i <= |fs| && forall j :: 0 <= j < i ==> a[j] == fs[j]
      {
        a[i] := fs[i];
        i := i + 1;
      }
    }

    /** One entry of the frame loop: a new frame that reads itself. */
    static method ReadNewFrame(src: LittleEndianInputStream, ver: int, coords: array<Vertex>) returns (r: Result<Frame>)
      requires src.Valid()
      modifies src
      ensures src.Valid()
      ensures var spec := FrameAt(src.data, old(src.pos), ver, coords[..]);
        && (r.Ok? <==> spec.Ok?)
        && (spec.Err? ==> r == Err(spec.error))
        && (spec.Ok? ==> src.pos == spec.value.1 && fresh(r.value.Repr) && r.value in r.value.Repr
                         && r.value.Holds(spec.value.0))
    {
      var f := new Frame();
      var res := f.Read(src, ver, coords);
      if res.Err? {
        return Err(res.error);
      }
      r := Ok(f);
    }

    /** `readSequence`: a positive count, a skipped short, then for each
        entry the frame object at the index read; the array of them becomes
        `frames`. */
    method ReadSequence(src: LittleEndianInputStream, ghost ds: seq<FrameData>) returns (r: Result<()>, ghost order: seq<int>)
      requires src.Valid() && Listed(ds) && src !in Repr
      modifies this, src
      ensures src.Valid()
      ensures var spec := SequenceAt(src.data, old(src.pos), |old(decoded)|);
        && (r.Ok? <==> spec.Ok?)
        && (spec.Err? ==> r == Err(spec.error))
        && (spec.Ok? ==> src.pos == spec.value.1 && order == spec.value.0)
      ensures r.Ok? ==> && frames != null && fresh(frames) && Repr == old(Repr) + {frames}
                        && frames.Length == |order|
                        && forall i :: 0 <= i < |order| ==> 0 <= order[i] < |decoded| && frames[i] == decoded[order[i]]
      ensures decoded == old(decoded) && name == old(name) && scale == old(scale) && Box() == old(Box())
      ensures packageName == old(packageName) && FramesHold(ds)
    {
      var played;
      played, order := ReadOrder(src, frames, decoded);
      if played.Err? {
        return Err(played.error), order;
      }
      frames := played.value;
      Repr := Repr + {frames};
      r := Ok(());
    }

    /** The reads of `readSequence`: a fresh array whose entries are the frame
        objects of `fr` at the indices read. */
    static method ReadOrder(src: LittleEndianInputStream, fr: array<Frame?>, ghost objs: seq<Frame>)
      returns (r: Result<array<Frame?>>, ghost order: seq<int>)
      requires src.Valid() && fr.Length == |objs| && forall j :: 0 <= j < fr.Length ==> fr[j] == objs[j]
      modifies src
      ensures src.Valid()
      ensures var spec := SequenceAt(src.data, old(src.pos), |objs|);
        && (r.Ok? <==> spec.Ok?)
        && (spec.Err? ==> r == Err(spec.error))
        && (spec.Ok? ==> src.pos == spec.value.1 && order == spec.value.0)
      ensures r.Ok? ==> && fresh(r.value) && r.value.Length == |order|
                        && forall i :: 0 <= i < |order| ==> 0 <= order[i] < |objs| && r.value[i] == objs[order[i]]
    {
      ghost var s := src.data;
      order := [];
      var numSeq :- src.ReadShort();
      if numSeq <= 0 {
        return Err(Format("Invalid sequence count")), [];
      }
      var _ :- src.ReadShort();
      var idx :- ReadIndices(src, fr.Length, numSeq);
      order := idx;
      SequenceShape(s, old(src.pos), |objs|);
      var sequence := Pick(fr, idx);
      r := Ok(sequence);
    }

    /** What the accessors of a timeline that holds `d` report: the played
        frames, in order, each the decoded frame object, with its bounds
        scaled by the timeline's scale and none exactly for an empty frame. */
    lemma Accessors(d: TimelineData, frame: int)
      requires Models(d)
      ensures GetNumFrames() == Ok(|Played(d)|)
      ensures 0 <= frame < |Played(d)| ==>
        && GetFrame(frame).Ok? && GetFrame(frame).value != null
        && GetFrame(frame).value.Holds(Played(d)[frame])
        && GetFrameBounds(frame) == Ok(ScaleBounds(BoundsRect(Played(d)[frame].bounds), d.scale))
      ensures !(0 <= frame < |Played(d)|) ==> GetFrame(frame) == Err(ArrayIndex) && GetFrameBounds(frame) == Err(ArrayIndex)
    {
      if 0 <= frame < |Played(d)| {
        var j := d.sequence[frame];
        var f := decoded[j];
        assert frames[frame] == f;
        assert f.Holds(d.frames[j]);
        assert f.GetBounds() == BoundsRect(d.frames[j].bounds);
      }
    }
  }

  /** The timeline objects `objs` hold `ds` and own nothing outside `owned`. */
  ghost predicate OwnTimelines(objs: seq<Timeline>, ds: seq<TimelineData>, owned: set<object>)
    reads owned
  {
    && |objs| == |ds|
    && (forall j :: 0 <= j < |objs| ==> objs[j] in owned)
    && (forall j :: 0 <= j < |objs| ==> objs[j].Repr <= owned && objs[j].Models(ds[j]))
  }

  /** The object the cache keeps for a key of the decoded timelines `ds`
      holds the last of them with a name that lower-cases to the key. */
  lemma LatestModels(m: map<string, Option<Timeline>>, ds: seq<TimelineData>, objs: seq<Timeline>,
                     owned: set<object>, k: string)
    requires Latest(m, Labels(NameOf, ds), objs) && OwnTimelines(objs, ds, owned) && k in LowerSet(Names(ds))
    ensures k in m && m[k].Some? && m[k].value in owned && m[k].value.Models(ds[LastIndex(Names(ds), k)])
  {
    assert Names(ds) == Labels(NameOf, ds);
  }

  /** After all `count` timelines read: the names entered are those of the
      records, and each key holds the object that holds the last record
      with that name. */
  lemma PackageCached(s: seq<byte>, ver: int, toFloat: int -> real, p0: nat, count: nat, ds: seq<TimelineData>, q: nat,
                      m0: map<string, Option<Timeline>>, m: map<string, Option<Timeline>>,
                      objs: seq<Timeline>, owned: set<object>)
    requires Repeat(TimelineStep(s, ver, toFloat), p0, count) == Ok((ds, q))
    requires Entered(m0, m, Labels(NameOf, ds)) && Latest(m, Labels(NameOf, ds), objs)
    requires OwnTimelines(objs, ds, owned)
    ensures Entered(m0, m, Registrations(TimelineStep(s, ver, toFloat), NameStep(s), p0, count))
    ensures forall k :: k in LowerSet(Names(ds)) ==>
      k in m && m[k].Some? && m[k].value in owned && m[k].value.Models(ds[LastIndex(Names(ds), k)])
  {
    var step := TimelineStep(s, ver, toFloat);
    forall q: nat | step(q).Ok?
      ensures NameStep(s)(q).Ok? && NameOf(step(q).value.0) == NameStep(s)(q).value.0
    {
      TimelineShape(s, q, ver, toFloat);
    }
    RegisteredAll(step, NameStep(s), NameOf, p0, count, ds, q);
    forall k | k in LowerSet(Names(ds))
      ensures k in m && m[k].Some? && m[k].value in owned && m[k].value.Models(ds[LastIndex(Names(ds), k)])
    {
      LatestModels(m, ds, objs, owned, k);
    }
  }

  /** One more timeline object, with what it owns. */
  lemma OwnTimelinesMore(objs: seq<Timeline>, ds: seq<TimelineData>, owned: set<object>, t: Timeline, d: TimelineData)
    requires OwnTimelines(objs, ds, owned) && t in t.Repr && t.Models(d)
    ensures OwnTimelines(objs + [t], ds + [d], owned + t.Repr)
  {
  }

  /** The frame objects `objs` hold `ds` and own nothing outside `owned`. */
  ghost predicate Own(objs: seq<Frame>, ds: seq<FrameData>, owned: set<object>)
    reads owned
  {
    && |objs| == |ds|
    && (forall j :: 0 <= j < |objs| ==> objs[j] in owned)
    && (forall j :: 0 <= j < |objs| ==> objs[j].Repr <= owned && objs[j].Holds(ds[j]))
  }

  /** Owning more. */
  lemma OwnWider(objs: seq<Frame>, ds: seq<FrameData>, owned: set<object>, more: set<object>)
    requires Own(objs, ds, owned)
    ensures Own(objs, ds, owned + more)
  {
  }

  /** One more frame object, with what it owns. */
  lemma OwnMore(objs: seq<Frame>, ds: seq<FrameData>, owned: set<object>, f: Frame, d: FrameData)
    requires Own(objs, ds, owned) && f in f.Repr && f.Holds(d)
    ensures Own(objs + [f], ds + [d], owned + f.Repr)
  {
  }

  function ScaleRect(b: Rect, k: real): Rect
  {
    Rect(b.x * k, b.y * k, b.width * k, b.height * k)
  }

  function ScaleBounds(b: Option<Rect>, k: real): Option<Rect>
  {
    match b
    case None => None
    case Some(r) => Some(ScaleRect(r, k))
  }

  /** Registering one more name under its lower-cased form. */
  lemma EnteredNext<A>(m0: map<string, Option<A>>, m: map<string, Option<A>>, names: seq<string>,
                       n: string, t: A)
    requires Entered(m0, m, names)
    ensures Entered(m0, m[ToLowerCase(n) := Some(t)], names + [n])
  {
    var ns := names + [n];
    assert LowerSet(ns) == LowerSet(names) + {ToLowerCase(n)} by {
      forall k | k in LowerSet(ns) ensures k in LowerSet(names) + {ToLowerCase(n)} {
        var i :| 0 <= i < |ns| && ToLowerCase(ns[i]) == k;
        if i < |names| {
          assert ns[i] == names[i];
        }
      }
      forall i | 0 <= i < |names| ensures ToLowerCase(names[i]) in LowerSet(ns) {
        assert ns[i] == names[i];
      }
      assert ns[|names|] == n;
    }
  }

  /** The loops of `load`: every animation of every pack, in order, put under
      its lower-cased name. */
  method IndexPacks(packs: seq<Pack>) returns (idx: map<string, string>)
    ensures idx == IndexOf(packs)
  {
    idx := map[];
    var i := 0;
    while i < |packs|
      invariant 0 <= i <= |packs| && idx == IndexOf(packs[..i])
    {
      var (packstr, names) := packs[i];
      ghost var before := idx;
      var j := 0;
      while j < |names|
        invariant 0 <= j <= |names| && idx == PutNames(before, packstr, names[..j])
      {
        assert names[..j + 1][..j] == names[..j];
        idx := idx[ToLowerCase(names[j]) := packstr];
        j := j + 1;
      }
      assert names[..j] == names;
      assert packs[..i + 1][..i] == packs[..i];
      i := i + 1;
    }
    assert packs[..i] == packs;
  }

  /** The static state of `Timeline`: the package index, which `get` loads
      on first use, and the cache of timelines by lower-cased name, where
      `None` marks a name whose package is being read. */
  class Library {
    var packageIndex: Option<map<string, string>>
    var animCache: map<string, Option<Timeline>>

    /** Before the first `get`: nothing is loaded. */
    constructor ()
      ensures packageIndex == None && animCache == map[]
    {
      packageIndex := None;
      animCache := map[];
    }

    /** `load`: every animation of every pack, in order, is put under its
        lower-cased name; the cache starts empty. */
    method Load(packs: seq<Pack>)
      modifies this
      ensures packageIndex == Some(IndexOf(packs)) && animCache == map[]
    {
      var idx := IndexPacks(packs);
      packageIndex := Some(idx);
      animCache := map[];
    }

    /** `get`: no name gives none; the index is loaded on first use; a cached
        name gives what the cache holds; a name no pack lists gives none;
        otherwise the name is marked and its whole package is read, which
        caches every timeline in it. */
    method Get(name: Option<string>, packs: seq<Pack>, files: map<string, seq<byte>>, toFloat: int -> real)
      returns (r: Result<Option<Timeline>>)
      modifies this
      ensures name.None? ==> r == Ok(None) && animCache == old(animCache) && packageIndex == old(packageIndex)
      ensures name.Some? ==>
        var idx := if old(packageIndex).Some? then old(packageIndex).value else IndexOf(packs);
        var cache0 := if old(packageIndex).Some? then old(animCache) else map[];
        var lc := ToLowerCase(name.value);
        && packageIndex == Some(idx)
        && (lc in cache0 ==> r == Ok(cache0[lc]) && animCache == cache0)
        && (lc !in cache0 && lc !in idx ==> r == Ok(None) && animCache == cache0)
        && (lc !in cache0 && lc in idx ==>
              var f := TimelineFile(idx[lc]);
              && (f !in files ==> r == Err(FileNotFound(f)) && animCache == cache0[lc := None])
              && (f in files ==>
                    var pk := PackageAt(files[f], toFloat);
                    && Entered(cache0[lc := None], animCache, Registered(files[f], toFloat))
                    && (r.Ok? <==> pk.Ok?)
                    && (pk.Err? ==> r == Err(pk.error))
                    && (pk.Ok? ==> lc in animCache && r == Ok(animCache[lc])
                                   && (r.value.Some? <==> lc in LowerSet(Names(pk.value)))
                                   && (r.value.Some? ==> r.value.value.Models(pk.value[LastIndex(Names(pk.value), lc)])))))
    {
      if name.None? {
        return Ok(None);
      }
      if packageIndex.None? {
        Load(packs);
      }
      var lc := ToLowerCase(name.value);
      if lc !in animCache {
        if lc !in packageIndex.value {
          return Ok(None);
        }
        var packname := packageIndex.value[lc];
        animCache := animCache[lc := None];
        ghost var marked := animCache;
        var res := ReadTimeline(packname, files, toFloat);
        if res.Err? {
          return Err(res.error);
        }
        ghost var s := files[TimelineFile(packname)];
        PackageNames(s, toFloat);
        assert lc in marked.Keys;
      }
      r := Ok(animCache[lc]);
    }

    /** `readTimeline`: opens the pack's timeline file with a 256-byte buffer
        and reads the package; an array index out of range becomes a format
        error. */
    method ReadTimeline(pack: string, files: map<string, seq<byte>>, toFloat: int -> real) returns (r: Result<()>)
      modifies this
      ensures packageIndex == old(packageIndex)
      ensures TimelineFile(pack) !in files ==> r == Err(FileNotFound(TimelineFile(pack))) && animCache == old(animCache)
      ensures TimelineFile(pack) in files ==>
        var pk := PackageAt(files[TimelineFile(pack)], toFloat);
        && (r.Ok? <==> pk.Ok?)
        && (pk.Err? ==> r == Err(pk.error))
        && Entered(old(animCache), animCache, Registered(files[TimelineFile(pack)], toFloat))
        && (pk.Ok? ==> forall k :: k in LowerSet(Names(pk.value)) ==>
              k in animCache && animCache[k].Some? && animCache[k].value.Models(pk.value[LastIndex(Names(pk.value), k)]))
    {
      var file := TimelineFile(pack);
      if file !in files {
        return Err(FileNotFound(file));
      }
      var src := new LittleEndianInputStream.WithBuffer(files[file], 256);
      r := ReadPackage(src, pack, toFloat);
      r := CatchArrayIndex(r);
    }

    /** The body of `readTimeline`: the header, then `num` times a new
        timeline of the pack that reads itself. */
    method ReadPackage(src: LittleEndianInputStream, pack: string, toFloat: int -> real) returns (r: Result<()>)
      requires src.Valid() && src.pos == 0
      modifies this, src
      ensures var spec := PackageBodyAt(src.data, toFloat);
        && (r.Ok? <==> spec.Ok?)
        && (spec.Err? ==> r == Err(spec.error))
      ensures Entered(old(animCache), animCache, Registered(src.data, toFloat))
      ensures var spec := PackageBodyAt(src.data, toFloat);
        spec.Ok? ==> forall k :: k in LowerSet(Names(spec.value)) ==>
          k in animCache && animCache[k].Some? && animCache[k].value.Models(spec.value[LastIndex(Names(spec.value), k)])
      ensures packageIndex == old(packageIndex)
    {
      assert LowerSet([]) == {};
      var header :- ReadHeader(src);
      var (ver, num) := header;
      var count := if num < 0 then 0 else num;
      r := ReadTimelines(src, pack, ver, count, toFloat);
    }

    /** The header of a package: its version and its number of timelines. */
    static method ReadHeader(src: LittleEndianInputStream) returns (r: Result<(int, int)>)
      requires src.Valid() && src.pos == 0
      modifies src
      ensures src.Valid()
      ensures Follows(r, HeaderAt(src.data), src.pos)
    {
      var ver :- src.ReadShort();
      if ver != 4 && ver != 6 && ver != 8 {
        return Err(Format("Unknown version"));
      }
      var _ :- src.ReadByte();
      var num :- src.ReadShort();
      var _ :- src.ReadShort();
      r := Ok((ver, num));
    }

    /** One pass of the loop of `readTimeline`: a new timeline of the pack
        reads itself.  The timelines `objs` read before it, which hold `ds`
        and own `owned`, keep holding them. */
    method ReadOne(src: LittleEndianInputStream, pack: string, ver: int, toFloat: int -> real,
                   ghost objs: seq<Timeline>, ghost ds: seq<TimelineData>, ghost owned: set<object>)
      returns (r: Result<()>, t: Timeline)
      requires src.Valid()
      requires OwnTimelines(objs, ds, owned) && this !in owned && src !in owned
      modifies this, src
      ensures src.Valid()
      ensures fresh(t)
      ensures var spec := TimelineAt(src.data, old(src.pos), ver, toFloat);
        && (r.Ok? <==> spec.Ok?)
        && (spec.Err? ==> r == Err(spec.error))
        && (spec.Ok? ==> && src.pos == spec.value.1 && fresh(t.Repr) && t.Models(spec.value.0)
                         && OwnTimelines(objs + [t], ds + [spec.value.0], owned + t.Repr))
      ensures var nm := ReadCStringAt(src.data, old(src.pos), 256);
        animCache == if nm.Ok? then old(animCache)[ToLowerCase(nm.value.0) := Some(t)] else old(animCache)
      ensures packageIndex == old(packageIndex)
    {
      t := new Timeline(pack);
      r := t.Read(this, src, ver, toFloat);
      if r.Ok? {
        OwnTimelinesMore(objs, ds, owned, t, TimelineAt(src.data, old(src.pos), ver, toFloat).value.0);
      }
    }

    /** Pass `i` of the loop of `readTimeline`, after the timelines `objs`
        that hold `ds` and own `owned`: a failure ends the package, a success
        adds the timeline `t` that holds the record `d`. */
    method ReadNext(src: LittleEndianInputStream, pack: string, ver: int, toFloat: int -> real,
                    ghost p0: nat, ghost count: nat, ghost i: nat, ghost ds: seq<TimelineData>,
                    ghost objs: seq<Timeline>, ghost owned: set<object>, ghost m0: map<string, Option<Timeline>>)
      returns (r: Result<()>, t: Timeline)
      requires src.Valid() && i < count
      requires Repeat(TimelineStep(src.data, ver, toFloat), p0, i) == Ok((ds, src.pos))
      requires Entered(m0, animCache, Labels(NameOf, ds)) && Latest(animCache, Labels(NameOf, ds), objs)
      requires OwnTimelines(objs, ds, owned) && this !in owned && src !in owned
      modifies this, src
      ensures src.Valid() && packageIndex == old(packageIndex)
      ensures var step := TimelineStep(src.data, ver, toFloat);
        r.Err? ==> && Repeat(step, p0, count) == Err(r.error)
                   && Entered(m0, animCache, Registrations(step, NameStep(src.data), p0, count))
      ensures var step := TimelineStep(src.data, ver, toFloat);
        r.Ok? ==> step(old(src.pos)).Ok? && var d := step(old(src.pos)).value.0;
                  && Repeat(step, p0, i + 1) == Ok((ds + [d], src.pos))
                  && Entered(m0, animCache, Labels(NameOf, ds + [d]))
                  && Latest(animCache, Labels(NameOf, ds + [d]), objs + [t])
                  && OwnTimelines(objs + [t], ds + [d], owned + t.Repr) && fresh(t.Repr)
    {
      ghost var s, q, before := src.data, src.pos, animCache;
      ghost var step := TimelineStep(s, ver, toFloat);
      forall q: nat | step(q).Ok?
        ensures NameStep(s)(q).Ok? && NameOf(step(q).value.0) == NameStep(s)(q).value.0
      {
        TimelineShape(s, q, ver, toFloat);
      }
      var res;
      res, t := ReadOne(src, pack, ver, toFloat, objs, ds, owned);
      assert step(q) == TimelineAt(s, q, ver, toFloat);
      assert NameStep(s)(q) == ReadCStringAt(s, q, 256);
      RegisteredStep(step, NameStep(s), NameOf, p0, count, i, ds, q, m0, before, animCache, t);
      if res.Err? {
        return res, t;
      }
      ghost var d := step(q).value.0;
      LabelsSnoc(NameOf, ds, d);
      LatestNext(before, Labels(NameOf, ds), objs, NameOf(d), t);
      r := Ok(());
    }

    /** The loop of `readTimeline`: `count` timelines, each registered under
        its name as soon as the name is read. */
    method ReadTimelines(src: LittleEndianInputStream, pack: string, ver: int, count: nat, toFloat: int -> real)
      returns (r: Result<()>)
      requires src.Valid()
      modifies this, src
      ensures var spec := Repeat(TimelineStep(src.data, ver, toFloat), old(src.pos), count);
        && (r.Ok? <==> spec.Ok?)
        && (spec.Err? ==> r == Err(spec.error))
      ensures Entered(old(animCache), animCache,
                      Registrations(TimelineStep(src.data, ver, toFloat), NameStep(src.data), old(src.pos), count))
      ensures var spec := Repeat(TimelineStep(src.data, ver, toFloat), old(src.pos), count);
        spec.Ok? ==> var ds := spec.value.0;
          forall k :: k in LowerSet(Names(ds)) ==>
            k in animCache && animCache[k].Some?
            && animCache[k].value.Models(ds[LastIndex(Names(ds), k)])
      ensures packageIndex == old(packageIndex)
    {
      ghost var s, p0, m0 := src.data, src.pos, animCache;
      ghost var step := TimelineStep(s, ver, toFloat);
      ghost var ds: seq<TimelineData> := [];
      ghost var objs: seq<Timeline> := [];
      ghost var owned: set<object> := {};
      assert LowerSet([]) == {};
      var i := 0;
      while i < count
        invariant 0 <= i <= count && src.Valid() && src.data == s
        invariant Repeat(step, p0, i) == Ok((ds, src.pos))
        invariant Entered(m0, animCache, Labels(NameOf, ds))
        invariant Latest(animCache, Labels(NameOf, ds), objs)
        invariant OwnTimelines(objs, ds, owned) && this !in owned && src !in owned
        invariant packageIndex == old(packageIndex)
      {
        ghost var q := src.pos;
        var res, t := ReadNext(src, pack, ver, toFloat, p0, count, i, ds, objs, owned, m0);
        if res.Err? {
          return res;
        }
        ghost var d := step(q).value.0;
        ds := ds + [d];
        objs := objs + [t];
        owned := owned + t.Repr;
        i := i + 1;
      }
      PackageCached(s, ver, toFloat, p0, count, ds, src.pos, m0, animCache, objs, owned);
      r := Ok(());
    }
  }
}
