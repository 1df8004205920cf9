/** The raster texture decoder (`bn.Bitmap`).

    A raster file is a 32-bit version (0 or 1), width, height and channel
    depth, followed either by width·height raw pixels (version 0) or by a
    palette and a run-length stream (version 1).  Pixels are packed as one
    ARGB word, here in its unsigned view a·2^24 + r·2^16 + g·2^8 + b.  The
    pure functions below state the format; the class `Bitmap` is the decoder
    object, whose methods are proved to build exactly the image they state. */
module Bitmaps {
  import opened Errors
  import opened JavaLang
  import opened LittleEndian

  /** A decoded image: `pixels[y * width + x]` is the pixel at column x, row y. */
  datatype Image = Image(width: int, height: int, pixels: seq<nat>)

  /** What a raster file decodes to: its channel depth and its image. */
  datatype Raster = Raster(bits: int, image: Image)

  /** The paint a bitmap draws with, made from one image. */
  datatype Texture = Texture(image: Image)

  /** `(a << 24) | (r << 16) | (g << 8) | b` */
  function Pack(a: byte, r: byte, g: byte, b: byte): (px: nat)
    ensures px < 0x1_0000_0000
  {
    a * 0x100_0000 + r * 0x1_0000 + g * 0x100 + b
  }

  function Alpha(px: nat): byte { (px / 0x100_0000) % 0x100 }
  function Red(px: nat): byte { (px / 0x1_0000) % 0x100 }
  function Green(px: nat): byte { (px / 0x100) % 0x100 }
  function Blue(px: nat): byte { px % 0x100 }

  /** The four channels can be read back from a packed pixel. */
  lemma Unpack(a: byte, r: byte, g: byte, b: byte)
    ensures Alpha(Pack(a, r, g, b)) == a && Red(Pack(a, r, g, b)) == r
    ensures Green(Pack(a, r, g, b)) == g && Blue(Pack(a, r, g, b)) == b
  {
    var px := Pack(a, r, g, b);
    var w1 := a * 0x1_0000 + r * 0x100 + g;
    var w2 := a * 0x100 + r;
    assert px == w1 * 0x100 + b;
    assert px / 0x100 == w1;
    assert w1 == w2 * 0x100 + g;
    assert px / 0x1_0000 == w2 by { DivTwice(px); }
    assert px / 0x100_0000 == a by { DivTwice(px); assert w2 / 0x100 == a; }
  }

  /** A 4-bit channel widened to 8 bits: `n * 0x11` maps 0xN to 0xNN. */
  function Expand(n: int): (b: byte)
    requires 0 <= n < 16
    ensures b % 16 == n && b / 16 == n
  {
    n * 0x11
  }

  /** `readPix`: two bytes holding the nibbles (alpha, blue) and (green, red),
      low nibble first, when the depth is 4; otherwise four bytes r, g, b, a. */
  function PixelAt(s: seq<byte>, p: nat, bits: int): (r: Result<(nat, nat)>)
    ensures r.Ok? <==> p + (if bits == 4 then 2 else 4) <= |s|
    ensures r.Err? ==> r.error == EOF
    ensures r.Ok? ==> r.value.1 == p + (if bits == 4 then 2 else 4)
  {
    if bits == 4 then
      var (lo, q1) :- ReadByteAt(s, p);
      var (hi, q2) :- ReadByteAt(s, q1);
      Ok((Pack(Expand(lo % 16), Expand(hi / 16), Expand(hi % 16), Expand(lo / 16)), q2))
    else
      var (r, q1) :- ReadByteAt(s, p);
      var (g, q2) :- ReadByteAt(s, q1);
      var (b, q3) :- ReadByteAt(s, q2);
      var (a, q4) :- ReadByteAt(s, q3);
      Ok((Pack(a, r, g, b), q4))
  }

  /** `n` pixels read one after the other. */
  function PixelsAt(s: seq<byte>, p: nat, bits: int, n: nat): (r: Result<(seq<nat>, nat)>)
    ensures r.Ok? ==> |r.value.0| == n
    decreases n
  {
    if n == 0 then Ok(([], p))
    else
      var (px, q) :- PixelAt(s, p, bits);
      Prepend([px], PixelsAt(s, q, bits, n - 1))
  }

  /** Reading `n` pixels is reading the first `k`, then the other `n - k`. */
  lemma {:induction false} PixelsSplit(s: seq<byte>, p: nat, bits: int, n: nat, k: nat)
    requires k <= n
    ensures PixelsAt(s, p, bits, k).Err? ==>
      PixelsAt(s, p, bits, n) == Err(PixelsAt(s, p, bits, k).error)
    ensures PixelsAt(s, p, bits, k).Ok? ==>
      var (a, q) := PixelsAt(s, p, bits, k).value;
      PixelsAt(s, p, bits, n) == Prepend(a, PixelsAt(s, q, bits, n - k))
    decreases k
  {
    if k == 0 {
      PrependNil(PixelsAt(s, p, bits, n));
    } else if PixelAt(s, p, bits).Ok? {
      var (px, q) := PixelAt(s, p, bits).value;
      PixelsSplit(s, q, bits, n - 1, k - 1);
      if PixelsAt(s, q, bits, k - 1).Ok? {
        var (a, q') := PixelsAt(s, q, bits, k - 1).value;
        PrependTwice([px], a, PixelsAt(s, q', bits, n - k));
      }
    }
  }

  /** Once `k` of `n` pixels were read as `a`, up to position `q`: the next
      `m` decide the rest, a failure among them fails the whole read. */
  lemma PixelsThen(s: seq<byte>, p0: nat, bits: int, k: nat, m: nat, n: nat, a: seq<nat>, q: nat)
    requires k + m <= n && PixelsAt(s, p0, bits, k) == Ok((a, q))
    ensures PixelsAt(s, q, bits, m).Err? ==>
      PixelsAt(s, p0, bits, n) == Err(PixelsAt(s, q, bits, m).error)
    ensures PixelsAt(s, q, bits, m).Ok? ==>
      var (b, q') := PixelsAt(s, q, bits, m).value;
      PixelsAt(s, p0, bits, k + m) == Ok((a + b, q'))
  {
    PixelsSplit(s, p0, bits, n, k);
    PixelsSplit(s, q, bits, n - k, m);
    PixelsSplit(s, p0, bits, k + m, k);
  }

  /** The same for one more pixel. */
  lemma PixelsNext(s: seq<byte>, p0: nat, bits: int, k: nat, n: nat, a: seq<nat>, q: nat)
    requires k < n && PixelsAt(s, p0, bits, k) == Ok((a, q))
    ensures PixelAt(s, q, bits).Err? ==>
      PixelsAt(s, p0, bits, n) == Err(PixelAt(s, q, bits).error)
    ensures PixelAt(s, q, bits).Ok? ==>
      var (px, q') := PixelAt(s, q, bits).value;
      PixelsAt(s, p0, bits, k + 1) == Ok((a + [px], q'))
  {
    PixelsThen(s, p0, bits, k, 1, n, a, q);
    if PixelAt(s, q, bits).Ok? {
      var (px, q') := PixelAt(s, q, bits).value;
      assert PixelsAt(s, q, bits, 1) == Ok(([px] + [], q'));
      assert [px] + [] == [px];
    }
  }

  /** `(c >> 1) + 1`: the number of pixels a run byte stands for. */
  function RunLength(c: byte): (n: nat)
    ensures 1 <= n <= 128
  {
    c / 2 + 1
  }

  /** The pixels of a literal run of `n`: one palette index byte per pixel.
      `room` is how many pixels the image still has space for; a pixel past
      it, like an index past the palette, is an array index fault. */
  function LiteralAt(s: seq<byte>, p: nat, pal: seq<nat>, room: nat, n: nat): (r: Result<(seq<nat>, nat)>)
    ensures r.Ok? ==> |r.value.0| == n <= room
    ensures r.Ok? ==> forall i :: 0 <= i < n ==> r.value.0[i] in pal
    decreases n
  {
    if n == 0 then Ok(([], p))
    else
      var (idx, q) :- ReadByteAt(s, p);
      if idx >= |pal| || room == 0 then Err(ArrayIndex)
      else Prepend([pal[idx]], LiteralAt(s, q, pal, room - 1, n - 1))
  }

  /** A repeated run of `n`: one palette index byte, its colour `n` times. */
  function RepeatAt(s: seq<byte>, p: nat, pal: seq<nat>, room: nat, n: nat): (r: Result<(seq<nat>, nat)>)
    ensures r.Ok? ==> |r.value.0| == n <= room
    ensures r.Ok? ==> forall i :: 0 <= i < n ==> r.value.0[i] == r.value.0[0] && r.value.0[i] in pal
  {
    var (idx, q) :- ReadByteAt(s, p);
    if idx >= |pal| || n > room then Err(ArrayIndex)
    else Ok((seq(n, _ => pal[idx]), q))
  }

  /** One run of the run-length stream: a control byte `c` standing for
      `(c >> 1) + 1` pixels, followed by that many palette indices when its
      low bit is clear, or by one index to repeat when it is set.  A run that
      does not fit in the `room` left in the image faults. */
  function RunAt(s: seq<byte>, p: nat, pal: seq<nat>, room: nat): (r: Result<(seq<nat>, nat)>)
    ensures r.Ok? ==> 1 <= |r.value.0| <= room
    ensures r.Ok? ==> forall i :: 0 <= i < |r.value.0| ==> r.value.0[i] in pal
  {
    var (c, p1) :- ReadByteAt(s, p);
    var num := RunLength(c);
    if c % 2 == 0 then LiteralAt(s, p1, pal, room, num)
    else RepeatAt(s, p1, pal, room, num)
  }

  /** The run-length stream from position `p`, with `out` the pixels emitted
      so far and `total` the size of the image: runs are read while the image
      is not full. */
  function RunsAt(s: seq<byte>, p: nat, pal: seq<nat>, total: nat, out: seq<nat>): (r: Result<seq<nat>>)
    decreases total - |out|
  {
    if |out| >= total then Ok(out)
    else
      var (run, q) :- RunAt(s, p, pal, total - |out|);
      RunsAt(s, q, pal, total, out + run)
  }

  /** `readRLE`: the ignored length, the palette size (1..256), the palette,
      then the runs. */
  function RleAt(s: seq<byte>, p: nat, bits: int, total: nat): Result<seq<nat>>
  {
    var (_, p1) :- ReadIntAt(s, p);
    var (palSize, p2) :- ReadIntAt(s, p1);
    if palSize < 1 || palSize > 256 then Err(Format("Invalid palette size"))
    else
      var (pal, p3) :- PixelsAt(s, p2, bits, palSize);
      RunsAt(s, p3, pal, total, [])
  }

  /** The four header fields of a raster file. */
  datatype Header = Header(version: int, width: int, height: int, bits: int)

  /** The header: a version that must be 0 or 1, then width, height and
      channel depth.  The version is checked before the rest is read. */
  function HeaderAt(s: seq<byte>, p: nat): (r: Result<(Header, nat)>)
    ensures r.Ok? ==> r.value.0.version in {0, 1} && r.value.1 == p + 16
  {
    var (ver, p1) :- ReadIntAt(s, p);
    if ver < 0 || ver > 1 then Err(Format("Unrecognized version"))
    else
      var (width, p2) :- ReadIntAt(s, p1);
      var (height, p3) :- ReadIntAt(s, p2);
      var (bits, p4) :- ReadIntAt(s, p3);
      Ok((Header(ver, width, height, bits), p4))
  }

  /** The `try` block of `read`.  The image is allocated after the header,
      and an empty or negative size is refused there, uncaught. */
  function DecodeBody(s: seq<byte>): Result<Raster>
  {
    var (h, p) :- HeaderAt(s, 0);
    if h.width <= 0 || h.height <= 0 then Err(IllegalArgument("Width and height cannot be <= 0"))
    else if h.version == 0 then
      var (pixels, _) :- PixelsAt(s, p, h.bits, Area(h.width, h.height));
      Ok(Raster(h.bits, Image(h.width, h.height, pixels)))
    else
      var pixels :- RleAt(s, p, h.bits, Area(h.width, h.height));
      Ok(Raster(h.bits, Image(h.width, h.height, pixels)))
  }

  /** `read`: the whole file, with index faults turned into a FormatError. */
  function Decode(s: seq<byte>): Result<Raster>
  {
    CatchArrayIndex(DecodeBody(s))
  }

  lemma {:induction false} RunsExtend(s: seq<byte>, p: nat, pal: seq<nat>, total: nat, out: seq<nat>)
    requires |out| <= total
    requires RunsAt(s, p, pal, total, out).Ok?
    ensures |RunsAt(s, p, pal, total, out).value| == total
    ensures RunsAt(s, p, pal, total, out).value[..|out|] == out
    ensures forall i :: |out| <= i < total ==> RunsAt(s, p, pal, total, out).value[i] in pal
    decreases total - |out|
  {
    if |out| < total {
      var (run, q) := RunAt(s, p, pal, total - |out|).value;
      RunsExtend(s, q, pal, total, out + run);
      var o := RunsAt(s, q, pal, total, out + run).value;
      forall i | |out| <= i < total ensures o[i] in pal {
        if i < |out| + |run| {
          assert o[i] == (out + run)[i] == run[i - |out|];
        }
      }
      assert o[..|out|] == (o[..|out| + |run|])[..|out|];
    }
  }

  /** A run-length image that decodes covers the image exactly, and every
      pixel is a palette entry: no pixel is left over and none is missing. */
  lemma RunsCoverImage(s: seq<byte>, p: nat, pal: seq<nat>, total: nat)
    requires RunsAt(s, p, pal, total, []).Ok?
    ensures |RunsAt(s, p, pal, total, []).value| == total
    ensures forall i :: 0 <= i < total ==> RunsAt(s, p, pal, total, []).value[i] in pal
  {
    RunsExtend(s, p, pal, total, []);
  }

  /** A decoded raster has exactly width·height pixels, a positive size, and
      a version field of 0 or 1; a run-length raster only uses palette colours. */
  lemma DecodeShape(s: seq<byte>)
    requires Decode(s).Ok?
    ensures ReadIntAt(s, 0).Ok? && ReadIntAt(s, 0).value.0 in {0, 1}
    ensures var img := Decode(s).value.image;
      img.width > 0 && img.height > 0 && |img.pixels| == Area(img.width, img.height)
    ensures HeaderAt(s, 0).Ok? && var (h, p) := HeaderAt(s, 0).value;
      h.version == 1 ==>
        && ReadIntAt(s, p + 4).Ok? && PixelsAt(s, p + 8, h.bits, ReadIntAt(s, p + 4).value.0).Ok?
        && var pal := PixelsAt(s, p + 8, h.bits, ReadIntAt(s, p + 4).value.0).value.0;
           forall i :: 0 <= i < |Decode(s).value.image.pixels| ==> Decode(s).value.image.pixels[i] in pal
  {
    var (h, p) := HeaderAt(s, 0).value;
    if h.version == 1 {
      var (_, q1) := ReadIntAt(s, p).value;
      var (palSize, q2) := ReadIntAt(s, q1).value;
      var (pal, q3) := PixelsAt(s, q2, h.bits, palSize).value;
      RunsCoverImage(s, q3, pal, Area(h.width, h.height));
    }
  }

  /** Any version other than 0 and 1 is rejected. */
  lemma UnknownVersion(s: seq<byte>)
    requires ReadIntAt(s, 0).Ok? && ReadIntAt(s, 0).value.0 !in {0, 1}
    ensures Decode(s) == Err(Format("Unrecognized version"))
  {
  }

  /** In run-length mode a palette size outside 1..256 is rejected. */
  lemma BadPaletteSize(s: seq<byte>, p: nat, bits: int, total: nat)
    requires ReadIntAt(s, p).Ok?
    requires var q := ReadIntAt(s, p).value.1;
      ReadIntAt(s, q).Ok? && !(1 <= ReadIntAt(s, q).value.0 <= 256)
    ensures RleAt(s, p, bits, total) == Err(Format("Invalid palette size"))
  {
  }

  /** A decode that fails never reports a raw index fault: a palette index
      past the palette, or a run past the last row, is a FormatError. */
  lemma DecodeCatchesIndexFaults(s: seq<byte>)
    ensures Decode(s).Err? ==> Decode(s).error != ArrayIndex
    ensures DecodeBody(s) == Err(ArrayIndex) ==> Decode(s) == Err(Format("Invalid array index"))
  {
  }

  /** Where each channel of a 4-bit pixel comes from. */
  lemma Pixel4Channels(s: seq<byte>, p: nat)
    requires p + 2 <= |s|
    ensures var px := PixelAt(s, p, 4).value.0;
      && Alpha(px) == (s[p] % 16) * 0x11 && Blue(px) == (s[p] / 16) * 0x11
      && Green(px) == (s[p + 1] % 16) * 0x11 && Red(px) == (s[p + 1] / 16) * 0x11
  {
    var lo, hi := s[p], s[p + 1];
    Unpack(Expand(lo % 16), Expand(hi / 16), Expand(hi % 16), Expand(lo / 16));
  }

  /** Where each channel of an 8-bit pixel comes from. */
  lemma Pixel8Channels(s: seq<byte>, p: nat, bits: int)
    requires bits != 4 && p + 4 <= |s|
    ensures var px := PixelAt(s, p, bits).value.0;
      Red(px) == s[p] && Green(px) == s[p + 1] && Blue(px) == s[p + 2] && Alpha(px) == s[p + 3]
  {
    Unpack(s[p + 3], s[p], s[p + 1], s[p + 2]);
  }

  /** The number of pixels of a `w` by `h` image. */
  function Area(w: int, h: int): nat
  {
    if w <= 0 || h <= 0 then 0 else w * h
  }

  lemma MulMono(a: int, b: int, w: int)
    requires a <= b && 0 <= w
    ensures a * w <= b * w
  {
    assert b * w - a * w == (b - a) * w;
  }

  /** `k == y * w + x` with `x < w`: pixel k of the row-major order is in the
      image exactly when its row is. */
  lemma RowMajor(x: int, y: int, w: int, h: int)
    requires 0 <= x < w && 0 <= y && 0 < h
    ensures y < h <==> y * w + x < Area(w, h)
    ensures 0 <= y * w + x
  {
    MulMono(0, y, w);
    if y < h {
      MulMono(y + 1, h, w);
      assert (y + 1) * w == y * w + w;
    } else {
      MulMono(h, y, w);
    }
  }

  /** Row-major order puts every pixel of a row before those of later rows. */
  lemma RowMajorOrder(x1: int, y1: int, x2: int, y2: int, w: int)
    requires 0 <= x1 < w && 0 <= x2 && 0 <= y1
    ensures y1 < y2 ==> y1 * w + x1 < y2 * w + x2
  {
    if y1 < y2 {
      MulMono(y1 + 1, y2, w);
      assert (y1 + 1) * w == y1 * w + w;
    }
  }

  /** The first `|out|` pixels of the row-major order of `im` are `out`. */
  ghost predicate Painted(im: array2<nat>, out: seq<nat>)
    reads im
  {
    forall x, y :: 0 <= x < im.Length0 && 0 <= y < im.Length1 && y * im.Length0 + x < |out| ==>
      im[x, y] == out[y * im.Length0 + x]
  }

  /** Pixel `k` of the row-major order lies in column `k % w`, row `k / w`. */
  lemma RowOf(k: int, w: int, h: int)
    requires 0 < w && 0 <= k < Area(w, h)
    ensures 0 <= k % w < w && 0 <= k / w < h && (k / w) * w + k % w == k
  {
    assert k == (k / w) * w + k % w;
    RowMajor(k % w, k / w, w, h);
  }

  /** The pixels of an image buffer in row-major order: what the texture
      made from it shows. */
  function RowMajorPixels(im: array2<nat>): (px: seq<nat>)
    reads im
    ensures |px| == Area(im.Length0, im.Length1)
  {
    seq(Area(im.Length0, im.Length1), k requires 0 <= k < Area(im.Length0, im.Length1) reads im => PixelOf(im, k))
  }

  /** Pixel `k` of the row-major order of `im`. */
  function PixelOf(im: array2<nat>, k: int): nat
    requires 0 <= k < Area(im.Length0, im.Length1)
    reads im
  {
    RowOf(k, im.Length0, im.Length1);
    im[k % im.Length0, k / im.Length0]
  }

  /** Once `pixels` are all painted, the buffer shows exactly them. */
  lemma PaintedPixels(im: array2<nat>, pixels: seq<nat>)
    requires Painted(im, pixels) && |pixels| == Area(im.Length0, im.Length1)
    ensures RowMajorPixels(im) == pixels
  {
    var px := RowMajorPixels(im);
    forall k | 0 <= k < |pixels| ensures px[k] == pixels[k] {
      RowOf(k, im.Length0, im.Length1);
    }
  }

  /** The decoder object: the fields `read` sets, the texture it paints with
      and the texture it was decoded with. */
  class Bitmap {
    const name: string
    var width: int
    var height: int
    var bits: int
    var texture: Option<Texture>
    var originalTexture: Option<Texture>

    constructor (name: string)
      ensures this.name == name && texture == None && originalTexture == None
    {
      this.name := name;
      texture := None;
      originalTexture := None;
    }

    /** The bitmap holds the decoded raster `r` and paints with it. */
    ghost predicate Shows(r: Raster)
      reads this
    {
      && width == r.image.width && height == r.image.height && bits == r.bits
      && texture == Some(Texture(r.image)) && originalTexture == texture
    }

    /** `replaceTexture`: paint with another image and remember that this
        bitmap was changed; the decoded texture is kept. */
    method ReplaceTexture(im: Image, statics: BitmapCache)
      modifies this, statics
      ensures texture == Some(Texture(im)) && originalTexture == old(originalTexture)
      ensures statics.modified == old(statics.modified) + {this}
      ensures statics.cache == old(statics.cache)
      ensures width == old(width) && height == old(height) && bits == old(bits)
    {
      texture := Some(Texture(im));
      statics.modified := statics.modified + {this};
    }

    /** `restoreTexture`: paint with the decoded texture again. */
    method RestoreTexture(statics: BitmapCache)
      modifies this, statics
      ensures texture == originalTexture == old(originalTexture)
      ensures statics.modified == old(statics.modified) - {this}
      ensures statics.cache == old(statics.cache)
      ensures width == old(width) && height == old(height) && bits == old(bits)
    {
      texture := originalTexture;
      statics.modified := statics.modified - {this};
    }

    /** `read`: decode the raster file `data`; on success the bitmap shows
        what `Decode` states. */
    method Read(data: seq<byte>) returns (r: Result<()>)
      modifies this
      ensures var spec := Decode(data);
        && (r.Ok? <==> spec.Ok?)
        && (spec.Err? ==> r == Err(spec.error))
        && (spec.Ok? ==> Shows(spec.value))
    {
      var src := new LittleEndianInputStream(data);
      var im;
      r, im := ReadBody(src);
      r := CatchArrayIndex(r);
      if r.Ok? {
        DecodeShape(data);
        PaintedPixels(im, DecodeBody(data).value.image.pixels);
        texture := Some(Texture(Image(width, height, RowMajorPixels(im))));
        originalTexture := texture;
      }
    }

    /** The header reads of `read`, which set the fields as they go. */
    method ReadHeader(src: LittleEndianInputStream) returns (r: Result<Header>)
      requires src.Valid()
      modifies this, src
      ensures src.Valid()
      ensures Follows(r, HeaderAt(src.data, old(src.pos)), src.pos)
      ensures r.Ok? ==> width == r.value.width && height == r.value.height && bits == r.value.bits
      ensures texture == old(texture) && originalTexture == old(originalTexture)
    {
      var ver :- src.ReadInt();
      if ver < 0 || ver > 1 {
        return Err(Format("Unrecognized version"));
      }
      width :- src.ReadInt();
      height :- src.ReadInt();
      bits :- src.ReadInt();
      r := Ok(Header(ver, width, height, bits));
    }

    /** The `try` block of `read`: header, image allocation and body. */
    method ReadBody(src: LittleEndianInputStream) returns (r: Result<()>, im: array2<nat>)
      requires src.Valid() && src.pos == 0
      modifies this, src
      ensures var spec := DecodeBody(src.data);
        && (r.Ok? <==> spec.Ok?)
        && (spec.Err? ==> r == Err(spec.error))
        && (spec.Ok? ==>
              && width == spec.value.image.width && height == spec.value.image.height
              && bits == spec.value.bits
              && im.Length0 == width && im.Length1 == height
              && Painted(im, spec.value.image.pixels))
      ensures texture == old(texture) && originalTexture == old(originalTexture)
    {
      im := new nat[0, 0];
      var hd := ReadHeader(src);
      if hd.Err? {
        return Err(hd.error), im;
      }
      if width <= 0 || height <= 0 {
        return Err(IllegalArgument("Width and height cannot be <= 0")), im;
      }
      im := new nat[width, height];
      if hd.value.version == 0 {
        r := ReadRaw(im, src);
      } else {
        r := ReadRLE(im, src);
      }
    }

    method ReadPix(src: LittleEndianInputStream) returns (r: Result<nat>)
      requires src.Valid()
      modifies src
      ensures src.Valid()
      ensures Follows(r, PixelAt(src.data, old(src.pos), bits), src.pos)
    {
      var a, red, g, b;
      if bits == 4 {
        var lo :- src.ReadByte();
        a := Expand(lo % 16);
        b := Expand(lo / 16);
        var hi :- src.ReadByte();
        g := Expand(hi % 16);
        red := Expand(hi / 16);
      } else {
        red :- src.ReadByte();
        g :- src.ReadByte();
        b :- src.ReadByte();
        a :- src.ReadByte();
      }
      r := Ok(Pack(a, red, g, b));
    }

    /** `readRaw`: width·height pixels, row by row. */
    method ReadRaw(im: array2<nat>, src: LittleEndianInputStream) returns (r: Result<()>)
      requires src.Valid() && width > 0 && height > 0
      requires im.Length0 == width && im.Length1 == height
      modifies im, src
      ensures src.Valid()
      ensures var spec := PixelsAt(src.data, old(src.pos), bits, Area(width, height));
        && (r.Ok? <==> spec.Ok?)
        && (spec.Err? ==> r == Err(spec.error))
        && (spec.Ok? ==> Painted(im, spec.value.0))
    {
      var w, h := width, height;
      ghost var b := bits;
      ghost var s, p0, total := src.data, src.pos, Area(w, h);
      assert total == h * w;
      ghost var done: seq<nat> := [];
      var y := 0;
      while y < h
        invariant src.Valid() && 0 <= y <= h
        invariant |done| == y * w <= total
        invariant PixelsAt(s, p0, b, |done|) == Ok((done, src.pos))
        invariant Painted(im, done)
      {
        assert (y + 1) * w == y * w + w;
        MulMono(y + 1, h, w);
        PixelsThen(s, p0, b, |done|, w, total, done, src.pos);
        ghost var row;
        r, row := ReadRow(im, src, y, done);
        if r.Err? {
          return;
        }
        done := done + row;
        y := y + 1;
      }
      assert |done| == h * w;
      r := Ok(());
    }

    /** The inner loop of `readRaw`: the pixels of row `y`, left to right,
        after the `done` pixels of the rows above. */
    method ReadRow(im: array2<nat>, src: LittleEndianInputStream, y: int, ghost done: seq<nat>)
      returns (r: Result<()>, ghost row: seq<nat>)
      requires src.Valid() && width > 0 && 0 <= y < height
      requires im.Length0 == width && im.Length1 == height
      requires |done| == y * width && Painted(im, done)
      modifies im, src
      ensures src.Valid()
      ensures var spec := PixelsAt(src.data, old(src.pos), bits, width);
        && (r.Ok? <==> spec.Ok?)
        && (spec.Err? ==> r == Err(spec.error))
        && (spec.Ok? ==> row == spec.value.0 && src.pos == spec.value.1 && Painted(im, done + row))
    {
      ghost var s, p0 := src.data, src.pos;
      row := [];
      var x := 0;
      while x < width
        invariant src.Valid() && 0 <= x <= width && |row| == x
        invariant PixelsAt(s, p0, bits, x) == Ok((row, src.pos))
        invariant Painted(im, done + row)
      {
        PixelsNext(s, p0, bits, x, width, row, src.pos);
        var px :- ReadPix(src);
        SetRGB(im, x, y, px, done + row);
        assert done + row + [px] == done + (row + [px]);
        row := row + [px];
        x := x + 1;
      }
      r := Ok(());
    }

    /** `readRLE`: the palette, then the runs. */
    method ReadRLE(im: array2<nat>, src: LittleEndianInputStream) returns (r: Result<()>)
      requires src.Valid() && width > 0 && height > 0
      requires im.Length0 == width && im.Length1 == height
      modifies im, src
      ensures src.Valid()
      ensures var spec := RleAt(src.data, old(src.pos), bits, Area(width, height));
        && (r.Ok? <==> spec.Ok?)
        && (spec.Err? ==> r == Err(spec.error))
        && (spec.Ok? ==> Painted(im, spec.value))
    {
      var _ :- src.ReadInt();
      var palSize :- src.ReadInt();
      if palSize < 1 || palSize > 256 {
        return Err(Format("Invalid palette size"));
      }
      var pal := ReadPalette(src, palSize);
      if pal.Err? {
        return Err(pal.error);
      }
      r := ReadRuns(im, src, pal.value);
    }

    /** The palette loop of `readRLE`. */
    method ReadPalette(src: LittleEndianInputStream, palSize: nat) returns (r: Result<array<nat>>)
      requires src.Valid()
      modifies src
      ensures src.Valid()
      ensures var spec := PixelsAt(src.data, old(src.pos), bits, palSize);
        && (r.Ok? <==> spec.Ok?)
        && (spec.Err? ==> r == Err(spec.error))
        && (spec.Ok? ==> fresh(r.value) && r.value[..] == spec.value.0 && src.pos == spec.value.1)
    {
      ghost var s, p0 := src.data, src.pos;
      var pal := new nat[palSize];
      for i := 0 to palSize
        invariant src.Valid()
        invariant PixelsAt(s, p0, bits, i) == Ok((pal[..i], src.pos))
      {
        ghost var read := pal[..i];
        PixelsNext(s, p0, bits, i, palSize, read, src.pos);
        var px :- ReadPix(src);
        pal[i] := px;
        assert pal[..i + 1] == read + [px];
      }
      assert pal[..palSize] == pal[..];
      r := Ok(pal);
    }

    /** The run loop of `readRLE`: runs are written row by row, wrapping at
        the end of each row, until the rows are full. */
    method ReadRuns(im: array2<nat>, src: LittleEndianInputStream, pal: array<nat>) returns (r: Result<()>)
      requires src.Valid() && width > 0 && height > 0
      requires im.Length0 == width && im.Length1 == height
      modifies im, src
      ensures src.Valid()
      ensures var spec := RunsAt(src.data, old(src.pos), pal[..], Area(width, height), []);
        && (r.Ok? <==> spec.Ok?)
        && (spec.Err? ==> r == Err(spec.error))
        && (spec.Ok? ==> Painted(im, spec.value))
    {
      ghost var s, p0, total, palette := src.data, src.pos, Area(width, height), pal[..];
      assert total == height * width;
      ghost var out: seq<nat> := [];
      var x, y := 0, 0;
      while y < height
        invariant src.Valid() && 0 <= x < width && 0 <= y <= height
        invariant y == height ==> x == 0
        invariant |out| == y * width + x
        invariant RunsAt(s, p0, palette, total, []) == RunsAt(s, src.pos, palette, total, out)
        invariant Painted(im, out)
        decreases total - |out|
      {
        RowMajor(x, y, width, height);
        ghost var run;
        r, x, y, run := ReadRun(im, src, pal, x, y, out);
        if r.Err? {
          return;
        }
        out := out + run;
        RowMajor(x, y, width, height);
      }
      assert |out| == height * width;
      r := Ok(());
    }

    /** One pass of the run loop of `readRLE`: a control byte and the run it
        introduces, written from column `x` of row `y` on. */
    method ReadRun(im: array2<nat>, src: LittleEndianInputStream, pal: array<nat>, x0: int, y0: int, ghost out: seq<nat>)
      returns (r: Result<()>, x: int, y: int, ghost run: seq<nat>)
      requires src.Valid() && 0 <= x0 < width && 0 <= y0 < height
      requires im.Length0 == width && im.Length1 == height
      requires |out| == y0 * width + x0 < Area(width, height) && Painted(im, out)
      modifies im, src
      ensures src.Valid()
      ensures var spec := RunAt(src.data, old(src.pos), pal[..], Area(width, height) - |out|);
        && (r.Ok? <==> spec.Ok?)
        && (spec.Err? ==> r == Err(spec.error))
        && (spec.Ok? ==>
              && run == spec.value.0 && src.pos == spec.value.1 && Painted(im, out + run)
              && 0 <= x < width && 0 <= y <= height && (y == height ==> x == 0)
              && |out + run| == y * width + x)
    {
      x, y, run := x0, y0, [];
      var c :- src.ReadByte();
      var num := RunLength(c);
      if c % 2 == 0 {
        r, x, y, run := ReadLiteral(im, src, pal, x0, y0, out, num);
      } else {
        r, x, y, run := ReadRepeat(im, src, pal, x0, y0, out, num);
      }
    }

    /** A literal run of `readRLE`: `num` palette indices, one per pixel. */
    method ReadLiteral(im: array2<nat>, src: LittleEndianInputStream, pal: array<nat>, x0: int, y0: int,
                       ghost out: seq<nat>, num: nat)
      returns (r: Result<()>, x: int, y: int, ghost run: seq<nat>)
      requires src.Valid() && 0 <= x0 < width && 0 <= y0 < height
      requires im.Length0 == width && im.Length1 == height
      requires |out| == y0 * width + x0 < Area(width, height) && Painted(im, out)
      modifies im, src
      ensures src.Valid()
      ensures var spec := LiteralAt(src.data, old(src.pos), pal[..], Area(width, height) - |out|, num);
        && (r.Ok? <==> spec.Ok?)
        && (spec.Err? ==> r == Err(spec.error))
        && (spec.Ok? ==>
              && run == spec.value.0 && src.pos == spec.value.1 && Painted(im, out + run)
              && 0 <= x < width && 0 <= y <= height && (y == height ==> x == 0)
              && |out + run| == y * width + x)
    {
      ghost var s, palette, room := src.data, pal[..], Area(width, height) - |out|;
      x, y, run := x0, y0, [];
      ghost var spec := LiteralAt(s, src.pos, palette, room, num);
      PrependNil(spec);
      for i := 0 to num
        invariant src.Valid() && 0 <= x < width && 0 <= y <= height
        invariant y == height ==> x == 0
        invariant |run| == i <= room
        invariant |out| + i == y * width + x
        invariant spec == Prepend(run, LiteralAt(s, src.pos, palette, room - i, num - i))
        invariant Painted(im, out + run)
      {
        RowMajor(x, y, width, height);
        var idx :- src.ReadByte();
        if idx >= pal.Length {
          return Err(ArrayIndex), x, y, run;
        }
        if y >= height {
          return Err(ArrayIndex), x, y, run;
        }
        PrependTwice(run, [pal[idx]], LiteralAt(s, src.pos, palette, room - i - 1, num - i - 1));
        SetRGB(im, x, y, pal[idx], out + run);
        assert out + run + [pal[idx]] == out + (run + [pal[idx]]);
        run := run + [pal[idx]];
        x, y := Advance(x, y);
      }
      assert run + [] == run;
      r := Ok(());
    }

    /** A repeated run of `readRLE`: one palette index, its colour `num` times. */
    method ReadRepeat(im: array2<nat>, src: LittleEndianInputStream, pal: array<nat>, x0: int, y0: int,
                      ghost out: seq<nat>, num: nat)
      returns (r: Result<()>, x: int, y: int, ghost run: seq<nat>)
      requires src.Valid() && 0 <= x0 < width && 0 <= y0 < height
      requires im.Length0 == width && im.Length1 == height
      requires |out| == y0 * width + x0 < Area(width, height) && Painted(im, out)
      modifies im, src
      ensures src.Valid()
      ensures var spec := RepeatAt(src.data, old(src.pos), pal[..], Area(width, height) - |out|, num);
        && (r.Ok? <==> spec.Ok?)
        && (spec.Err? ==> r == Err(spec.error))
        && (spec.Ok? ==>
              && run == spec.value.0 && src.pos == spec.value.1 && Painted(im, out + run)
              && 0 <= x < width && 0 <= y <= height && (y == height ==> x == 0)
              && |out + run| == y * width + x)
    {
      ghost var palette, room := pal[..], Area(width, height) - |out|;
      ghost var spec := RepeatAt(src.data, src.pos, palette, room, num);
      x, y, run := x0, y0, [];
      var idx :- src.ReadByte();
      if idx >= pal.Length {
        return Err(ArrayIndex), x, y, run;
      }
      var pix := pal[idx];
      ghost var q := src.pos;
      for i := 0 to num
        invariant src.Valid() && src.pos == q && 0 <= x < width && 0 <= y <= height
        invariant y == height ==> x == 0
        invariant |run| == i <= room
        invariant |out| + i == y * width + x
        invariant forall k :: 0 <= k < i ==> run[k] == pix
        invariant Painted(im, out + run)
      {
        RowMajor(x, y, width, height);
        if y >= height {
          return Err(ArrayIndex), x, y, run;
        }
        SetRGB(im, x, y, pix, out + run);
        assert out + run + [pix] == out + (run + [pix]);
        run := run + [pix];
        x, y := Advance(x, y);
      }
      assert spec.Ok? && spec.value.1 == src.pos;
      assert forall k :: 0 <= k < num ==> spec.value.0[k] == pix;
      assert run == spec.value.0;
      r := Ok(());
    }

    /** `if (++x >= width) { x = 0; y++; }` */
    method Advance(x: int, y: int) returns (x': int, y': int)
      requires 0 <= x < width && 0 <= y
      ensures 0 <= x' < width && y' * width + x' == y * width + x + 1
      ensures x' == (if x + 1 >= width then 0 else x + 1)
      ensures y' == (if x + 1 >= width then y + 1 else y)
    {
      x', y' := x + 1, y;
      if x' >= width {
        x', y' := 0, y + 1;
      }
    }
  }

  /** `im.setRGB(x, y, px)` on the pixel that follows the painted ones. */
  method SetRGB(im: array2<nat>, x: int, y: int, px: nat, ghost out: seq<nat>)
    requires 0 <= x < im.Length0 && 0 <= y < im.Length1
    requires |out| == y * im.Length0 + x && Painted(im, out)
    modifies im
    ensures Painted(im, out + [px])
  {
    im[x, y] := px;
    forall xx, yy | 0 <= xx < im.Length0 && 0 <= yy < im.Length1 && yy * im.Length0 + xx < |out| + 1
      ensures im[xx, yy] == (out + [px])[yy * im.Length0 + xx]
    {
      RowMajorOrder(xx, yy, x, y, im.Length0);
      RowMajorOrder(x, y, xx, yy, im.Length0);
    }
  }

  /** The static state of `Bitmap`: the cache of decoded bitmaps by
      lower-cased name, and the set of bitmaps whose texture was replaced. */
  class BitmapCache {
    var cache: map<string, Bitmap>
    var modified: set<Bitmap>

    constructor ()
      ensures cache == map[] && modified == {}
    {
      cache := map[];
      modified := {};
    }

    /** `get(name)`: the cached bitmap for the lower-cased name, or a new one
        decoded from the file `name + "_0.z2raw"`, which `open` delivers. */
    method Get(name: string, open: string -> seq<byte>) returns (r: Result<Bitmap>)
      modifies this
      ensures modified == old(modified)
      ensures ToLowerCase(name) in old(cache) ==>
        r == Ok(old(cache)[ToLowerCase(name)]) && cache == old(cache)
      ensures ToLowerCase(name) !in old(cache) ==>
        var spec := Decode(open(name + "_0.z2raw"));
        && (r.Ok? <==> spec.Ok?)
        && (spec.Err? ==> r == Err(spec.error) && cache == old(cache))
        && (spec.Ok? ==> fresh(r.value) && r.value.name == name && r.value.Shows(spec.value)
                         && cache == old(cache)[ToLowerCase(name) := r.value])
    {
      var lc := ToLowerCase(name);
      if lc in cache {
        return Ok(cache[lc]);
      }
      var bmp := new Bitmap(name);
      var res := bmp.Read(open(name + "_0.z2raw"));
      if res.Err? {
        return Err(res.error);
      }
      cache := cache[lc := bmp];
      r := Ok(bmp);
    }
  }
}
