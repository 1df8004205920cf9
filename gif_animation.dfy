/** `util.GifAnimation`: the frames of an animation laid out as tiles of a
    grid image, the differencing that cuts each frame down to the rectangle
    that changed since the frame before it (blanking the unchanged pixels),
    and the schedule of images and delays the GIF writer is given.  Pixels
    are `int`s in an `array2` indexed `[x, y]`; the image written to and
    read back from a GIF file by `getIndexedImage` is a parameter. */
module Gif {
  import opened Errors
  import opened JavaLang

  /** A `java.awt.Rectangle`: origin and size. */
  datatype Rect = Rect(x: int, y: int, width: int, height: int)

  /** The smallest `g` with `g * g >= n`: the `(int) Math.ceil(Math.sqrt(n))`
      of the constructor, which the `double` square root computes exactly
      for every `int`. */
  function CeilSqrt(n: nat): (g: nat)
    ensures g * g >= n && (g == 0 || (g - 1) * (g - 1) < n)
  {
    CeilSqrtFrom(n, 0)
  }

  function CeilSqrtFrom(n: nat, g: nat): (r: nat)
    requires g == 0 || (g - 1) * (g - 1) < n
    ensures r * r >= n && (r == 0 || (r - 1) * (r - 1) < n)
    decreases n - g
  {
    if g * g >= n then g
    else
      assert g <= g * g;
      CeilSqrtFrom(n, g + 1)
  }

  /** The four variables `left`, `top`, `right` and `bottom` of
      `findDiffRect`. */
  datatype Box = Box(left: int, top: int, right: int, bottom: int)

  /** The update of the box at a differing pixel `(x, y)`. */
  function Step(b: Box, x: int, y: int): Box
  {
    Box(if x < b.left then x else b.left, if y < b.top then y else b.top,
        if x > b.right then x else b.right, y)
  }

  /** `(x', y')` comes before `(x, y)` in the row-by-row scan. */
  predicate Done(x': int, y': int, x: int, y: int)
  {
    y' < y || (y' == y && x' < x)
  }

  /** The box after the first `x` cells of row `y`, from `b`, where `d`
      holds the cells that differ. */
  function ScanRow(d: set<(int, int)>, b: Box, x: nat, y: int): Box
    decreases x
  {
    if x == 0 then b
    else
      var b' := ScanRow(d, b, x - 1, y);
      if (x - 1, y) in d then Step(b', x - 1, y) else b'
  }

  /** The box after the first `y` rows of a `w` by `h` tile. */
  function ScanRows(d: set<(int, int)>, w: nat, h: int, y: nat): Box
    decreases y
  {
    if y == 0 then Box(w, h, 0, 0)
    else ScanRow(d, ScanRows(d, w, h, y - 1), w, y - 1)
  }

  /** The cells of `d` lie in a `w` by `h` tile. */
  predicate Inside(d: set<(int, int)>, w: int, h: int)
  {
    forall c :: c in d ==> 0 <= c.0 < w && 0 <= c.1 < h
  }

  /** The box of the scan up to `(x, y)` bounds the cells of `d` seen so
      far. */
  ghost predicate Summary(d: set<(int, int)>, w: int, h: int, b: Box, x: int, y: int)
  {
    Bounds(Seen(d, x, y), w, h, b)
  }
  /** The cells of `d` scanned before `(x, y)`. */
  ghost function Seen(d: set<(int, int)>, x: int, y: int): set<(int, int)>
  {
    set c | c in d && Done(c.0, c.1, x, y)
  }
  /** `b` is the starting box of a `w` by `h` tile if `s` is empty, and
      otherwise the least and greatest column and row of the cells of `s`,
      each reached by one of them. */
  ghost predicate Bounds(s: set<(int, int)>, w: int, h: int, b: Box)
  {
    if s == {} then
      b == Box(w, h, 0, 0)
    else
      && (forall c :: c in s ==>
            b.left <= c.0 <= b.right && b.top <= c.1 <= b.bottom)
      && (exists c :: c in s && c.0 == b.left)
      && (exists c :: c in s && c.0 == b.right)
      && (exists c :: c in s && c.1 == b.top)
      && (exists c :: c in s && c.1 == b.bottom)
  }

  /** Adding a cell at or below every cell of `s` moves the box by `Step`. */
  lemma BoundsAdd(s: set<(int, int)>, w: int, h: int, b: Box, x: int, y: int)
    requires Bounds(s, w, h, b) && 0 <= x < w && 0 <= y < h
    requires forall c :: c in s ==> c.1 <= y
    ensures Bounds(s + {(x, y)}, w, h, Step(b, x, y))
  {
    if s == {} {
      assert s + {(x, y)} == {(x, y)};
      assert Step(b, x, y) == Box(x, y, x, y);
    } else {
      var c :| c in s && c.1 == b.top;
      assert Step(b, x, y).top == b.top;
    }
  }

  /** One cell of the scan keeps the summary. */
  lemma SummaryStep(d: set<(int, int)>, w: int, h: int, b: Box, x: int, y: int)
    requires 0 <= x < w && 0 <= y < h
    requires Summary(d, w, h, b, x, y)
    ensures Summary(d, w, h, if (x, y) in d then Step(b, x, y) else b, x + 1, y)
  {
    var s := Seen(d, x, y);
    if (x, y) in d {
      assert Seen(d, x + 1, y) == s + {(x, y)};
      BoundsAdd(s, w, h, b, x, y);
    } else {
      assert Seen(d, x + 1, y) == s;
    }
  }

  /** Scanning a row from its start keeps the summary. */
  lemma {:induction false} ScanRowSummary(d: set<(int, int)>, w: int, h: int, b: Box, x: nat, y: int)
    requires x <= w && 0 <= y < h
    requires Summary(d, w, h, b, 0, y)
    ensures Summary(d, w, h, ScanRow(d, b, x, y), x, y)
    decreases x
  {
    if x > 0 {
      ScanRowSummary(d, w, h, b, x - 1, y);
      SummaryStep(d, w, h, ScanRow(d, b, x - 1, y), x - 1, y);
    }
  }

  /** The box after `y` rows summarizes those rows. */
  lemma {:induction false} ScanRowsSummary(d: set<(int, int)>, w: nat, h: int, y: nat)
    requires Inside(d, w, h) && y <= h
    ensures Summary(d, w, h, ScanRows(d, w, h, y), 0, y)
    decreases y
  {
    if y > 0 {
      ScanRowsSummary(d, w, h, y - 1);
      ScanRowSummary(d, w, h, ScanRows(d, w, h, y - 1), w, y - 1);
      assert Seen(d, w, y - 1) == Seen(d, 0, y);
    }
  }

  /** One image of the sequence given to the GIF writer: the part `sub`
      of the read-back grid image it shows (`getSubimage`), its position
      `left`, `top` in the frame, its delay in hundredths of a second, and
      whether it carries the looping extension and a transparent colour. */
  datatype GifImage = GifImage(sub: Rect, left: int, top: int, delayTime: int, looping: bool, transparent: bool)

  /** The first frame from `k` on whose rectangle is kept, or `|rs|` when
      there is none: the frame that ends the showing of the kept frame
      before `k`. */
  function NextKept(rs: seq<Option<Rect>>, k: nat): (n: nat)
    requires k <= |rs|
    ensures k <= n <= |rs| && (n < |rs| ==> rs[n].Some?)
    ensures forall j :: k <= j < n ==> rs[j].None?
    decreases |rs| - k
  {
    if k == |rs| then k
    else if rs[k].Some? then k
    else NextKept(rs, k + 1)
  }

  /** The number of kept rectangles from `k` on. */
  function Count(rs: seq<Option<Rect>>, k: nat): nat
    requires k <= |rs|
    decreases |rs| - k
  {
    if k == |rs| then 0
    else (if rs[k].Some? then 1 else 0) + Count(rs, k + 1)
  }

  class GifAnimation {
    const width: int
    const height: int
    const numFrames: int
    const delay: int
    const grid: int
    const image: array2<int>

    /** What the constructor establishes: positive sizes, count and delay,
        a grid with room for one more tile than there are frames, and an
        image of `grid` × `grid` tiles. */
    predicate Valid()
    {
      && width > 0 && height > 0 && numFrames > 0 && delay > 0
      && grid == CeilSqrt(numFrames + 1)
      && image.Length0 == width * grid && image.Length1 == height * grid
    }

    constructor (width: int, height: int, frames: int, delay: int)
      requires width > 0 && height > 0 && frames > 0 && delay > 0
      ensures Valid() && fresh(image)
      ensures this.width == width && this.height == height && numFrames == frames && this.delay == delay
      ensures forall a, b :: 0 <= a < image.Length0 && 0 <= b < image.Length1 ==> image[a, b] == 0
    {
      this.width := width;
      this.height := height;
      numFrames := frames;
      this.delay := delay;
      var g := CeilSqrt(frames + 1);
      grid := g;
      Positive(g, width);
      Positive(g, height);
      image := new int[width * g, height * g]((_, _) => 0);
    }

    /** `new GifAnimation(width, height, frames, delay)`, with its argument
        checks in their order. */
    static method New(width: int, height: int, frames: int, delay: int) returns (r: Result<GifAnimation>)
      ensures r.Err? <==> width <= 0 || height <= 0 || frames <= 0 || delay <= 0
      ensures width <= 0 ==> r == Err(IllegalArgument("Invalid width"))
      ensures width > 0 && height <= 0 ==> r == Err(IllegalArgument("Invalid height"))
      ensures width > 0 && height > 0 && frames <= 0 ==> r == Err(IllegalArgument("Invalid frames"))
      ensures width > 0 && height > 0 && frames > 0 && delay <= 0 ==> r == Err(IllegalArgument("Invalid delay"))
      ensures r.Ok? ==> && fresh(r.value) && r.value.Valid()
                        && r.value.width == width && r.value.height == height
                        && r.value.numFrames == frames && r.value.delay == delay
    {
      if width <= 0 { return Err(IllegalArgument("Invalid width")); }
      if height <= 0 { return Err(IllegalArgument("Invalid height")); }
      if frames <= 0 { return Err(IllegalArgument("Invalid frames")); }
      if delay <= 0 { return Err(IllegalArgument("Invalid delay")); }
      var g := new GifAnimation(width, height, frames, delay);
      return Ok(g);
    }

    /** The tile of frame `f`: column `f % grid`, row `f / grid`. */
    function TileX(f: int): int
      requires grid > 0
    {
      (f % grid) * width
    }

    function TileY(f: int): int
      requires grid > 0
    {
      (f / grid) * height
    }

    /** `getFrame(frame)`: the tile of the frame, or the argument check. */
    function GetFrame(frame: int): (r: Result<Rect>)
      requires Valid()
      ensures r.Err? <==> frame < 0 || frame >= numFrames
      ensures r.Err? ==> r.error == IllegalArgument("Invalid frame number")
      ensures r.Ok? ==> r.value.width == width && r.value.height == height
    {
      GridPositive();
      if frame < 0 || frame >= numFrames then Err(IllegalArgument("Invalid frame number"))
      else Ok(Rect(TileX(frame), TileY(frame), width, height))
    }

    lemma GridPositive()
      requires Valid()
      ensures grid >= 2 && numFrames < grid * grid
    {
      Square2(grid, numFrames + 1);
    }

    /** Every frame's tile lies inside the image. */
    lemma TileInside(f: int)
      requires Valid() && 0 <= f < numFrames
      ensures grid > 0
      ensures 0 <= TileX(f) && TileX(f) + width <= image.Length0
      ensures 0 <= TileY(f) && TileY(f) + height <= image.Length1
    {
      GridPositive();
      Cell(f, grid);
      Scale(f % grid, grid, width);
      Scale(f / grid, grid, height);
    }

    /** The tiles of two different frames do not overlap. */
    lemma TilesDisjoint(f: int, g: int)
      requires Valid() && 0 <= f < numFrames && 0 <= g < numFrames && f != g
      ensures grid > 0
      ensures || TileX(f) + width <= TileX(g) || TileX(g) + width <= TileX(f)
              || TileY(f) + height <= TileY(g) || TileY(g) + height <= TileY(f)
    {
      GridPositive();
      Cell(f, grid);
      Cell(g, grid);
      var cf, rf, cg, rg := f % grid, f / grid, g % grid, g / grid;
      if cf < cg {
        Scale(cf, cg, width);
      } else if cg < cf {
        Scale(cg, cf, width);
      } else if rf < rg {
        Scale(rf, rg, height);
      } else {
        Apart(f, g, grid);
        Scale(rg, rf, height);
      }
    }

    /** A cell of a `g` × `g` grid has its column and row in range. */
    static lemma Cell(f: int, g: int)
      requires g > 0 && 0 <= f < g * g
      ensures 0 <= f % g < g && 0 <= f / g < g
    {
      var r := f / g;
      assert f == g * r + f % g;
      if r >= g {
        MulMono(g, g, r);
      }
    }

    /** Two different numbers in the same column are in different rows. */
    static lemma Apart(f: int, g: int, n: int)
      requires n > 0 && f != g && f % n == g % n
      ensures f / n != g / n
    {
      assert f == n * (f / n) + f % n && g == n * (g / n) + g % n;
    }

    static lemma MulMono(g: int, a: int, b: int)
      requires g >= 0 && a <= b
      ensures g * a <= g * b
    {
      assert g * b - g * a == g * (b - a);
    }

    static lemma Square2(g: int, n: int)
      requires n >= 2 && g * g >= n && g >= 0
      ensures g >= 2
    {
    }

    /** `a < b` tiles of size `s` end where the `b`-th begins or before. */
    static lemma Scale(a: int, b: int, s: int)
      requires 0 <= a < b && s > 0
      ensures 0 <= a * s && a * s + s <= b * s
    {
      assert a * s + s == (a + 1) * s;
      MulMono(s, a + 1, b);
    }

    static lemma Positive(g: int, s: int)
      requires g >= 0 && s > 0
      ensures g * s >= 0
    {
    }
  
    // -------------------------------------------------------------------
    // findDiffRect

    /** The pixels of a grid image as a value: `p[a][b]` is pixel `(a, b)`. */
    predicate Fits(p: seq<seq<int>>)
    {
      |p| == image.Length0 && forall a :: 0 <= a < |p| ==> |p[a]| == image.Length1
    }

    /** `img` has the size of the grid image. */
    predicate Sized(img: array2<int>)
    {
      img.Length0 == image.Length0 && img.Length1 == image.Length1
    }

    /** The pixels of `img`, as a value. */
    ghost function Snap(img: array2<int>): (p: seq<seq<int>>)
      requires Sized(img)
      reads img
      ensures Fits(p)
      ensures forall a, b :: 0 <= a < img.Length0 && 0 <= b < img.Length1 ==> p[a][b] == img[a, b]
    {
      seq(img.Length0, a requires 0 <= a < img.Length0 reads img =>
        seq(img.Length1, b requires 0 <= b < img.Length1 reads img => img[a, b]))
    }

    /** Offset `(x, y)` lies in a tile. */
    predicate InTile(x: int, y: int)
    {
      0 <= x < width && 0 <= y < height
    }

    /** The pixel at offset `(x, y)` of frame `f`'s tile differs from the
        one at the same offset of frame `f - 1`'s tile. */
    predicate Differs(p: seq<seq<int>>, f: int, x: int, y: int)
      requires Valid() && Fits(p) && 1 <= f < numFrames && InTile(x, y)
    {
      TileInside(f);
      TileInside(f - 1);
      p[TileX(f) + x][TileY(f) + y] != p[TileX(f - 1) + x][TileY(f - 1) + y]
    }

    /** The pixels of frame `f` that differ from frame `f - 1`, as offsets
        in the tile. */
    ghost function Diffs(p: seq<seq<int>>, f: int): set<(int, int)>
      requires Valid() && Fits(p) && 1 <= f < numFrames
    {
      set x, y | 0 <= x < width && 0 <= y < height && Differs(p, f, x, y) :: (x, y)
    }

    /** What `findDiffRect` returns for frame `f` of `p`. */
    ghost function DiffRect(p: seq<seq<int>>, f: int): Option<Rect>
      requires Valid() && Fits(p) && 1 <= f < numFrames
    {
      var b := ScanRows(Diffs(p, f), width, height, height);
      if b.bottom < b.top then None
      else Some(Rect(b.left, b.top, b.right - b.left + 1, b.bottom - b.top + 1))
    }

    /** No pixel of frame `f` differs from frame `f - 1`. */
    ghost predicate Same(p: seq<seq<int>>, f: int)
      requires Valid() && Fits(p) && 1 <= f < numFrames
    {
      forall x, y :: InTile(x, y) ==> !Differs(p, f, x, y)
    }

    /** `r` is the smallest rectangle around the differing pixels of frame
        `f`: each of them is inside, and each side of `r` passes through
        one. */
    ghost predicate Bounding(p: seq<seq<int>>, f: int, r: Rect)
      requires Valid() && Fits(p) && 1 <= f < numFrames
    {
      && (forall x, y :: InTile(x, y) && Differs(p, f, x, y) ==>
            r.x <= x < r.x + r.width && r.y <= y < r.y + r.height)
      && (exists x, y :: InTile(x, y) && Differs(p, f, x, y) && x == r.x)
      && (exists x, y :: InTile(x, y) && Differs(p, f, x, y) && x == r.x + r.width - 1)
      && (exists x, y :: InTile(x, y) && Differs(p, f, x, y) && y == r.y)
      && (exists x, y :: InTile(x, y) && Differs(p, f, x, y) && y == r.y + r.height - 1)
    }

    /** `findDiffRect` returns `null` exactly when frame `f` equals frame
        `f - 1`, and otherwise the smallest rectangle holding every pixel
        where they differ. */
    lemma DiffRectMeaning(p: seq<seq<int>>, f: int)
      requires Valid() && Fits(p) && 1 <= f < numFrames
      ensures DiffRect(p, f).None? <==> Same(p, f)
      ensures DiffRect(p, f).Some? ==> Bounding(p, f, DiffRect(p, f).value)
    {
      var d := Diffs(p, f);
      assert forall x, y :: InTile(x, y) ==> ((x, y) in d <==> Differs(p, f, x, y));
      ScanRowsSummary(d, width, height, height);
      assert Seen(d, 0, height) == d;
    }

    /** Pixel `(a, b)` of `p` once the scan of frame `f` has reached
        `(x, y)`: set to 0, the transparent colour, where it lies in the
        frame's tile, has been scanned and equals the pixel of frame
        `f - 1`; unchanged elsewhere. */
    function Cleared(p: seq<seq<int>>, f: int, a: int, b: int, x: int, y: int): int
      requires Valid() && Fits(p) && 1 <= f < numFrames
      requires 0 <= a < image.Length0 && 0 <= b < image.Length1
    {
      TileInside(f);
      var u, v := a - TileX(f), b - TileY(f);
      if InTile(u, v) && Done(u, v, x, y) && !Differs(p, f, u, v) then 0 else p[a][b]
    }

    /** `findDiffRect(img, frame)`: returns the rectangle of the pixels of
        the frame's tile that differ from the previous frame's (`None` for
        `null` when there are none), and sets every other pixel of the
        tile to transparent, leaving the rest of the image as it was.  `p`
        is the image as the call finds it. */
    method FindDiffRect(img: array2<int>, frame: int, ghost p: seq<seq<int>>) returns (r: Option<Rect>)
      requires Valid() && Sized(img) && Fits(p) && 1 <= frame < numFrames
      requires forall a, b :: 0 <= a < img.Length0 && 0 <= b < img.Length1 ==> img[a, b] == p[a][b]
      modifies img
      ensures r == DiffRect(p, frame)
      ensures forall a, b :: 0 <= a < img.Length0 && 0 <= b < img.Length1 ==>
                img[a, b] == Cleared(p, frame, a, b, 0, height)
    {
      ghost var d := Diffs(p, frame);
      var box := Box(width, height, 0, 0);
      for y := 0 to height
        invariant box == ScanRows(d, width, height, y)
        invariant forall a, b :: 0 <= a < img.Length0 && 0 <= b < img.Length1 ==>
                    img[a, b] == Cleared(p, frame, a, b, 0, y)
      {
        for x := 0 to width
          invariant box == ScanRow(d, ScanRows(d, width, height, y), x, y)
          invariant forall a, b :: 0 <= a < img.Length0 && 0 <= b < img.Length1 ==>
                      img[a, b] == Cleared(p, frame, a, b, x, y)
        {
          assert (x, y) in d <==> Differs(p, frame, x, y);
          box := Visit(img, frame, x, y, box, p);
        }
        RowDone(p, frame, y);
      }
      if box.bottom < box.top {
        return None;
      }
      return Some(Rect(box.left, box.top, box.right - box.left + 1, box.bottom - box.top + 1));
    }

    /** The end of row `y` of the scan is the start of row `y + 1`. */
    lemma RowDone(p: seq<seq<int>>, f: int, y: int)
      requires Valid() && Fits(p) && 1 <= f < numFrames
      ensures forall a, b :: 0 <= a < image.Length0 && 0 <= b < image.Length1 ==>
                Cleared(p, f, a, b, width, y) == Cleared(p, f, a, b, 0, y + 1)
    {
    }

    /** One pass of the inner loop of `findDiffRect` at offset `(x, y)`:
        blanks the pixel of frame `frame` when it equals the one of frame
        `frame - 1`, and otherwise takes it into the box. */
    method Visit(img: array2<int>, frame: int, x: int, y: int, box: Box, ghost p: seq<seq<int>>) returns (box': Box)
      requires Valid() && Sized(img) && Fits(p) && 1 <= frame < numFrames && InTile(x, y)
      requires forall a, b :: 0 <= a < img.Length0 && 0 <= b < img.Length1 ==>
                 img[a, b] == Cleared(p, frame, a, b, x, y)
      modifies img
      ensures box' == if Differs(p, frame, x, y) then Step(box, x, y) else box
      ensures forall a, b :: 0 <= a < img.Length0 && 0 <= b < img.Length1 ==>
                img[a, b] == Cleared(p, frame, a, b, x + 1, y)
    {
      TileInside(frame);
      TileInside(frame - 1);
      TilesDisjoint(frame, frame - 1);
      var x1 := (frame % grid) * width;
      var y1 := (frame / grid) * height;
      var x2 := ((frame - 1) % grid) * width;
      var y2 := ((frame - 1) / grid) * height;
      assert img[x + x1, y + y1] == p[x + x1][y + y1];
      assert img[x + x2, y + y2] == p[x + x2][y + y2];
      box' := box;
      if img[x + x1, y + y1] == img[x + x2, y + y2] {
        img[x + x1, y + y1] := 0;
      } else {
        if y < box.top {
          box' := box'.(top := y);
        }
        box' := box'.(bottom := y);
        if x < box.left {
          box' := box'.(left := x);
        }
        if x > box.right {
          box' := box'.(right := x);
        }
      }
    }

    // -------------------------------------------------------------------
    // getImageSequence

    /** The rectangles `getImageSequence` collects from `p`: the whole
        tile for frame 0, `findDiffRect` for the others. */
    ghost function FrameRects(p: seq<seq<int>>): (rs: seq<Option<Rect>>)
      requires Valid() && Fits(p)
      ensures |rs| == numFrames && rs[0] == Some(Rect(0, 0, width, height))
    {
      seq(numFrames, k requires 0 <= k < numFrames =>
        if k == 0 then Some(Rect(0, 0, width, height)) else DiffRect(p, k))
    }

    /** Hundredths of a second from the start to frame `i`, rounded down. */
    function Elapsed(i: int): int
    {
      (i * delay) / 10
    }

    /** The delay of kept frame `i`: it is shown until the next kept frame. */
    function Wait(rs: seq<Option<Rect>>, i: nat): int
      requires i < |rs|
    {
      Elapsed(NextKept(rs, i + 1)) - Elapsed(i)
    }

    /** The image written for frame `i` with rectangle `r` when `next` is
        the next kept frame: the rectangle moved to the frame's tile, shown
        from frame `i` until frame `next`. */
    function ImageFor(r: Rect, i: int, next: int): GifImage
      requires Valid()
    {
      GridPositive();
      GifImage(Rect(r.x + TileX(i), r.y + TileY(i), r.width, r.height), r.x, r.y,
               Elapsed(next) - Elapsed(i), i == 0, i > 0)
    }

    /** The image written for kept frame `i`. */
    function ImageOf(rs: seq<Option<Rect>>, i: nat): GifImage
      requires Valid() && i < |rs| && rs[i].Some?
    {
      ImageFor(rs[i].value, i, NextKept(rs, i + 1))
    }

    /** The images written for the kept frames before `i`, in order. */
    function Schedule(rs: seq<Option<Rect>>, i: nat): seq<GifImage>
      requires Valid() && i <= |rs|
    {
      if i == 0 then []
      else Schedule(rs, i - 1) + (if rs[i - 1].Some? then [ImageOf(rs, i - 1)] else [])
    }

    /** The frame whose tile holds pixel `(a, b)` of the grid image. */
    function Owner(a: int, b: int): int
      requires Valid()
    {
      (b / height) * grid + a / width
    }

    /** Pixel `(a, b)` once the frames after `i` have been differenced:
        blanked as `findDiffRect` blanks it if its tile is one of theirs. */
    function Final(p: seq<seq<int>>, a: int, b: int, i: int): int
      requires Valid() && Fits(p) && 0 <= i
      requires 0 <= a < image.Length0 && 0 <= b < image.Length1
    {
      var f := Owner(a, b);
      if i < f < numFrames then Cleared(p, f, a, b, 0, height) else p[a][b]
    }

    /** `getImageSequence(writer)`, on the image `img` that
        `getIndexedImage` reads back: differences every frame against the
        one before it, from the last frame down, then lists the kept
        frames with their delays. */
    method GetImageSequence(img: array2<int>) returns (images: array<GifImage>)
      requires Valid() && Sized(img)
      modifies img
      ensures fresh(images)
      ensures images[..] == Schedule(FrameRects(old(Snap(img))), numFrames)
      ensures forall a, b :: 0 <= a < img.Length0 && 0 <= b < img.Length1 ==>
                img[a, b] == Final(old(Snap(img)), a, b, 0)
    {
      var frameRects, holdFrame, numImages := DiffFrames(img);
      images := ListImages(frameRects, holdFrame, numImages);
    }

    /** The first loop of `getImageSequence`: the rectangle of each frame,
        for each kept frame the next kept one (`holdFrame`), and the number
        of kept frames.  Going down from the last frame, each frame is
        compared with a predecessor that has not been blanked yet, so every
        rectangle is that of the image as it was read. */
    method DiffFrames(img: array2<int>) returns (frameRects: array<Option<Rect>>, holdFrame: array<int>, numImages: int)
      requires Valid() && Sized(img)
      modifies img
      ensures fresh(frameRects) && fresh(holdFrame)
      ensures frameRects[..] == FrameRects(old(Snap(img))) && holdFrame.Length == numFrames
      ensures forall k :: 0 <= k < numFrames && frameRects[k].Some? ==>
                holdFrame[k] == NextKept(frameRects[..], k + 1)
      ensures numImages == Count(frameRects[..], 0)
      ensures forall a, b :: 0 <= a < img.Length0 && 0 <= b < img.Length1 ==>
                img[a, b] == Final(old(Snap(img)), a, b, 0)
    {
      ghost var p := Snap(img);
      ghost var rs := FrameRects(p);
      frameRects := new Option<Rect>[numFrames](_ => None);
      holdFrame := new int[numFrames](_ => 0);
      frameRects[0] := Some(Rect(0, 0, width, height));
      var prevIndex;
      prevIndex, numImages := DiffLoop(img, frameRects, holdFrame, p, rs);
      holdFrame[0] := prevIndex;
      assert frameRects[..] == rs;
    }

    /** The loop itself, from the last frame down to frame 1. */
    method DiffLoop(img: array2<int>, frameRects: array<Option<Rect>>, holdFrame: array<int>,
                    ghost p: seq<seq<int>>, ghost rs: seq<Option<Rect>>) returns (prevIndex: int, numImages: int)
      requires Valid() && Sized(img) && p == Snap(img) && rs == FrameRects(p)
      requires frameRects.Length == numFrames && holdFrame.Length == numFrames
      requires frameRects[0] == rs[0]
      modifies img, frameRects, holdFrame
      ensures Kept(frameRects, holdFrame, rs, 0, prevIndex, numImages)
      ensures Stage(img, p, 0)
    {
      prevIndex := numFrames;
      numImages := 1;
      var i := numFrames - 1;
      while i > 0
        invariant 0 <= i < numFrames
        invariant Kept(frameRects, holdFrame, rs, i, prevIndex, numImages)
        invariant Stage(img, p, i)
      {
        var r := DiffOne(img, i, p);
        prevIndex, numImages := Record(frameRects, holdFrame, rs, i, r, prevIndex, numImages);
        i := i - 1;
      }
    }

    /** What the first loop of `getImageSequence` has found once it has
        reached frame `i`: the rectangles `rs` of the frames above `i` (and
        of frame 0), `holdFrame` of each kept one, the first kept frame
        above `i` in `prevIndex` and one more than their number in
        `numImages`. */
    ghost predicate Kept(frameRects: array<Option<Rect>>, holdFrame: array<int>, rs: seq<Option<Rect>>,
                         i: int, prevIndex: int, numImages: int)
      requires 0 <= i < |rs|
      reads frameRects, holdFrame
    {
      && frameRects.Length == |rs| && holdFrame.Length == |rs|
      && frameRects[0] == rs[0]
      && (forall k :: i < k < |rs| ==> frameRects[k] == rs[k])
      && (forall k :: i < k < |rs| && rs[k].Some? ==> holdFrame[k] == NextKept(rs, k + 1))
      && prevIndex == NextKept(rs, i + 1)
      && numImages == 1 + Count(rs, i + 1)
    }

    /** The bookkeeping of one pass of the first loop: stores the rectangle
        `r` of frame `i` and, if it is kept, its `holdFrame`. */
    method Record(frameRects: array<Option<Rect>>, holdFrame: array<int>, ghost rs: seq<Option<Rect>>,
                  i: int, r: Option<Rect>, prevIndex: int, numImages: int) returns (prevIndex': int, numImages': int)
      requires 1 <= i < |rs| && r == rs[i]
      requires Kept(frameRects, holdFrame, rs, i, prevIndex, numImages)
      modifies frameRects, holdFrame
      ensures Kept(frameRects, holdFrame, rs, i - 1, prevIndex', numImages')
    {
      prevIndex', numImages' := prevIndex, numImages;
      frameRects[i] := r;
      if r.Some? {
        holdFrame[i] := prevIndex;
        prevIndex' := i;
        numImages' := numImages + 1;
      }
    }

    /** `img` is `p` with the frames above `i` differenced. */
    ghost predicate Stage(img: array2<int>, p: seq<seq<int>>, i: int)
      requires Valid() && Sized(img) && Fits(p) && 0 <= i
      reads img
    {
      forall a, b :: 0 <= a < img.Length0 && 0 <= b < img.Length1 ==> img[a, b] == Final(p, a, b, i)
    }

    /** One pass of the first loop: `findDiffRect` on frame `i` once the
        frames above it have been differenced in `p`, the image as read. */
    method DiffOne(img: array2<int>, i: int, ghost p: seq<seq<int>>) returns (r: Option<Rect>)
      requires Valid() && Sized(img) && Fits(p) && 1 <= i < numFrames
      requires Stage(img, p, i)
      modifies img
      ensures r == FrameRects(p)[i]
      ensures Stage(img, p, i - 1)
    {
      ghost var cur := Snap(img);
      DiffStep(p, cur, i);
      r := FindDiffRect(img, i, cur);
    }

    /** While only the frames above `i` have been differenced, frame `i`
        still has the rectangle it had in the image as read, and
        differencing it brings every pixel to its state once the frames
        above `i - 1` have been differenced. */
    lemma DiffStep(p: seq<seq<int>>, cur: seq<seq<int>>, i: int)
      requires Valid() && Fits(p) && Fits(cur) && 1 <= i < numFrames
      requires forall a, b :: 0 <= a < image.Length0 && 0 <= b < image.Length1 ==>
                 cur[a][b] == Final(p, a, b, i)
      ensures DiffRect(cur, i) == DiffRect(p, i)
      ensures forall a, b :: 0 <= a < image.Length0 && 0 <= b < image.Length1 ==>
                Cleared(cur, i, a, b, 0, height) == Final(p, a, b, i - 1)
    {
      forall x, y | InTile(x, y)
        ensures Differs(cur, i, x, y) == Differs(p, i, x, y)
      {
        TileInside(i);
        TileInside(i - 1);
        OwnerOf(i, x, y);
        OwnerOf(i - 1, x, y);
      }
      assert Diffs(cur, i) == Diffs(p, i);
      forall a, b | 0 <= a < image.Length0 && 0 <= b < image.Length1
        ensures Cleared(cur, i, a, b, 0, height) == Final(p, a, b, i - 1)
      {
        OwnerTile(a, b);
        if Owner(a, b) != i && InTile(a - TileX(i), b - TileY(i)) {
          OwnerOf(i, a - TileX(i), b - TileY(i));
        }
      }
    }

    /** The second loop of `getImageSequence`: one image per kept frame,
        in frame order. */
    method ListImages(frameRects: array<Option<Rect>>, holdFrame: array<int>, numImages: int) returns (images: array<GifImage>)
      requires Valid() && frameRects.Length == numFrames && holdFrame.Length == numFrames
      requires forall k :: 0 <= k < numFrames && frameRects[k].Some? ==>
                 holdFrame[k] == NextKept(frameRects[..], k + 1)
      requires numImages == Count(frameRects[..], 0)
      ensures fresh(images)
      ensures images[..] == Schedule(frameRects[..], numFrames)
    {
      ghost var rs := frameRects[..];
      CountSchedule(rs, numFrames);
      images := new GifImage[numImages](_ => GifImage(Rect(0, 0, 0, 0), 0, 0, 0, false, false));
      var j := 0;
      for i := 0 to numFrames
        invariant j == |Schedule(rs, i)| && j + Count(rs, i) == numImages
        invariant images[..j] == Schedule(rs, i)
      {
        ScheduleNext(rs, i);
        var rect := frameRects[i];
        assert rect == rs[i];
        if rect.None? {
          continue;
        }
        var r := rect.value;
        var next := holdFrame[i];
        assert next == NextKept(rs, i + 1);
        ghost var done := images[..j];
        images[j] := ImageFor(r, i, next);
        assert images[..j + 1] == done + [images[j]];
        j := j + 1;
      }
      assert images[..] == images[..j];
    }

    /** One more frame: a kept frame adds its image, with its tile's
        offset and the delay up to the next kept frame, and is counted. */
    lemma ScheduleNext(rs: seq<Option<Rect>>, i: nat)
      requires Valid() && i < |rs|
      ensures rs[i].None? ==> Schedule(rs, i + 1) == Schedule(rs, i) && Count(rs, i) == Count(rs, i + 1)
      ensures rs[i].Some? ==> Count(rs, i) == 1 + Count(rs, i + 1)
      ensures rs[i].Some? ==> Schedule(rs, i + 1) == Schedule(rs, i) + [ImageFor(rs[i].value, i, NextKept(rs, i + 1))]
    {
    }

    /** Frames listed so far and frames still to come make up all kept
        frames. */
    lemma {:induction false} CountSchedule(rs: seq<Option<Rect>>, i: nat)
      requires Valid() && i <= |rs|
      ensures |Schedule(rs, i)| + Count(rs, i) == Count(rs, 0)
      decreases i
    {
      if i > 0 {
        CountSchedule(rs, i - 1);
      }
    }

    /** The total delay of a list of images. */
    function TotalDelay(images: seq<GifImage>): int
    {
      if images == [] then 0 else TotalDelay(images[..|images| - 1]) + images[|images| - 1].delayTime
    }

    /** The delays telescope: the kept frames before `i` together last
        from frame 0 to the first kept frame from `i` on, however the
        integer divisions round. */
    lemma {:induction false} ScheduleTelescopes(rs: seq<Option<Rect>>, i: nat)
      requires Valid() && i <= |rs| && 0 < |rs| && rs[0].Some?
      ensures TotalDelay(Schedule(rs, i)) == Elapsed(NextKept(rs, i))
      decreases i
    {
      if i > 0 {
        ScheduleTelescopes(rs, i - 1);
        var s := Schedule(rs, i - 1);
        if rs[i - 1].Some? {
          var s' := s + [ImageOf(rs, i - 1)];
          assert s'[..|s'| - 1] == s;
        } else {
          assert Schedule(rs, i) == s;
        }
      }
    }

    /** So the delays of all images written add up to the length of the
        whole animation, `(numFrames * delay) / 10` hundredths of a
        second. */
    lemma TotalDelayOfSchedule(rs: seq<Option<Rect>>)
      requires Valid() && |rs| == numFrames && rs[0].Some?
      ensures TotalDelay(Schedule(rs, numFrames)) == (numFrames * delay) / 10
    {
      ScheduleTelescopes(rs, numFrames);
    }

    /** Later frames are not shown earlier: `Elapsed` never decreases. */
    lemma ElapsedMono(i: int, j: int)
      requires Valid() && i <= j
      ensures Elapsed(i) <= Elapsed(j)
    {
      MulMono(delay, i, j);
    }

    /** Every image written has a delay of at least 0, and appears for a
        kept frame. */
    lemma {:induction false} ScheduleDelays(rs: seq<Option<Rect>>, i: nat)
      requires Valid() && i <= |rs|
      ensures forall k :: 0 <= k < |Schedule(rs, i)| ==> Schedule(rs, i)[k].delayTime >= 0
      decreases i
    {
      if i > 0 {
        ScheduleDelays(rs, i - 1);
        if rs[i - 1].Some? {
          ElapsedMono(i - 1, NextKept(rs, i));
        }
      }
    }

    /** The first image written is frame 0 whole, at the origin, with the
        looping extension and no transparent colour; every later one has a
        transparent colour. */
    lemma ScheduleFirst(rs: seq<Option<Rect>>)
      requires Valid() && 0 < |rs| && rs[0] == Some(Rect(0, 0, width, height))
      ensures |Schedule(rs, |rs|)| == Count(rs, 0) >= 1
      ensures Schedule(rs, |rs|)[0] == GifImage(Rect(0, 0, width, height), 0, 0, Wait(rs, 0), true, false)
    {
      CountSchedule(rs, |rs|);
      SchedulePrefix(rs, 1, |rs|);
      GridPositive();
    }

    /** The images of the first `i` frames come first. */
    lemma {:induction false} SchedulePrefix(rs: seq<Option<Rect>>, i: nat, j: nat)
      requires Valid() && i <= j <= |rs|
      ensures |Schedule(rs, i)| <= |Schedule(rs, j)|
      ensures Schedule(rs, j)[..|Schedule(rs, i)|] == Schedule(rs, i)
      decreases j
    {
      if i < j {
        SchedulePrefix(rs, i, j - 1);
      }
    }

    /** A pixel of frame `f`'s tile belongs to `f`. */
    lemma OwnerOf(f: int, x: int, y: int)
      requires Valid() && 0 <= f < numFrames && InTile(x, y)
      ensures grid > 0 && Owner(TileX(f) + x, TileY(f) + y) == f
    {
      GridPositive();
      DivOf(f % grid, width, x);
      DivOf(f / grid, height, y);
    }

    /** Every pixel of the grid image lies in the tile of its owner. */
    lemma OwnerTile(a: int, b: int)
      requires Valid() && 0 <= a < image.Length0 && 0 <= b < image.Length1
      ensures grid > 0 && Owner(a, b) >= 0
      ensures InTile(a - TileX(Owner(a, b)), b - TileY(Owner(a, b)))
    {
      GridPositive();
      var c, r := a / width, b / height;
      Split(a, width, grid);
      Split(b, height, grid);
      DivOf(r, grid, c);
    }

    /** A coordinate below `s * g` falls in one of `g` tiles of size `s`. */
    static lemma Split(a: int, s: int, g: int)
      requires s > 0 && g > 0 && 0 <= a < s * g
      ensures 0 <= a / s < g && 0 <= a - (a / s) * s < s
    {
      var c := a / s;
      if c < 0 {
        MulMono(s, c, -1);
      } else if c >= g {
        MulMono(s, g, c);
      }
    }

    /** Euclidean division of `q * s + r` by `s`, for `0 <= r < s`. */
    static lemma DivOf(q: int, s: int, r: int)
      requires s > 0 && 0 <= r < s
      ensures (q * s + r) / s == q && (q * s + r) % s == r
    {
      var z := q * s + r;
      var d, m := z / s, z % s;
      assert (d - q) * s == r - m;
      if d > q {
        MulMono(s, 1, d - q);
      } else if d < q {
        MulMono(s, 1, q - d);
      }
    }
  }
}
