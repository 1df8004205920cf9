# BattleNationsAnimation: a verified model of its decoders

BattleNationsAnimation (BaNG) browses the game files of Battle Nations and
renders their animations. This project models its core in Dafny.

- **Reader.** A little-endian byte reader.
- **Texture decoder.** It reads raw images and run-length-encoded images (`Bitmap`).
- **Timeline decoder.** It reads the ground-unit packages: package header, vertex tables, frames and play order (`Timeline`, `Frame`).
- **Animation decoder.** It reads the building and unit packages, whose frames are made of faces (`Animation`, `Animation.Frame`).
- **Isometric grid.** The position of a battle square (`GridPoint`).
- **Target-square convolution.** The combined damage pattern of an ability (`Ability.TargetSquare.convolution`).
- **File-name globs.** Their translation into regular expressions (`GlobFilter.globToRegex`).
- **GIF export.** It tiles the frames of an animation into a grid, finds the rectangle where consecutive frames differ, and builds the frame schedule (`GifAnimation`).

Each decoder is written twice.

- **Specification.** A pure function over the byte sequence and a cursor. It
  returns either the decoded value and the position after it, or the error
  that aborts the decode.
- **Implementation.** A class with the Java class's fields and methods. Each
  method reads through a `LittleEndianInputStream` object and updates its
  fields. Its `ensures` ties its result, the new cursor and its new fields to
  the specification function.

Lemmas about the specification functions state what the file formats promise:

- the layout of each record;
- which inputs fail, and with which error;
- the bounds the decoders compute, which are tight, cover every point and are attained.

Java's semantics are written out where they matter:

- 32-bit wrap-around of `int` arithmetic;
- `(short)` casts;
- truncating `/` and `%`;
- signed bytes;
- `ArrayIndexOutOfBoundsException`, `NegativeArraySizeException` and the other unchecked exceptions the decoders let escape.

The model keeps the following outside it, as parameters or plain values:

- **Files.** A package is a byte sequence. The game's file set is a `map` from name to bytes.
- **Float reinterpretation.** `Float.intBitsToFloat` is a function parameter `toFloat` from `int` to `real`.
- **JSON index files.** A list of `(package, names)` pairs stands for them.
- **Images.** An image is a two-dimensional array of pixel values. GIF metadata is a datatype.

Two features of the modules are unusual:

- `Abilities.Convolution` sorts and merges arrays in place.
- `Gif` is proved against snapshots of the images it reads.

## Model

| member | source | states |
|---|---|---|
| LittleEndian.Signed | BaNG/src/util/LittleEndianInputStream.java:9 | the signed Java `byte` the buffer holds agrees with the unsigned byte modulo 256 and is zero exactly when the byte is |
| LittleEndian.ShortValue | BaNG/src/util/LittleEndianInputStream.java:31 | the value of `readShort` is a signed 16-bit number, negative exactly when the high byte has its top bit set |
| LittleEndian.IntValue | BaNG/src/util/LittleEndianInputStream.java:37-38 | the value of `readInt` is the little-endian number of the four bytes, less 2^32 when the top byte is 128 or more, so it lies in the `int` range |
| LittleEndian.ReadShortAt | BaNG/src/util/LittleEndianInputStream.java:28-32 | `readShort` succeeds exactly when two bytes remain, fails otherwise with EOF, and advances by 2 |
| LittleEndian.ReadIntAt | BaNG/src/util/LittleEndianInputStream.java:34-39 | `readInt` succeeds exactly when four bytes remain, fails otherwise with EOF, and advances by 4 |
| LittleEndian.ReadFloatAt | BaNG/src/util/LittleEndianInputStream.java:41-43 | `readFloat` fails like `readInt` and otherwise returns the reinterpretation of the `int` read |
| LittleEndian.NulIndex | BaNG/src/util/LittleEndianInputStream.java:50-52 | the scan stops at the first NUL byte, or at the end when there is none |
| LittleEndian.AsciiChar | BaNG/src/util/LittleEndianInputStream.java:53 | US-ASCII decoding sends the NUL byte, and only it, to the NUL character |
| LittleEndian.ReadCStringAt | BaNG/src/util/LittleEndianInputStream.java:45-54 | `readCString(len)` succeeds exactly when `len` bytes remain, fails otherwise with EOF, and always consumes all `len` bytes |
| LittleEndian.CStringShape | BaNG/src/util/LittleEndianInputStream.java:50-53 | the string of a field is its bytes before the first NUL, decoded, and contains no NUL; a field without NUL is read whole |
| LittleEndian.ScannedField | BaNG/src/util/LittleEndianInputStream.java:50-53 | the scan that stops at the first NUL of the buffer, or at the end of the field, yields exactly the string of the field the buffer holds |
| LittleEndian.ShortRoundTrip | BaNG/src/util/LittleEndianInputStream.java:28-32 | every 16-bit value written low byte first reads back as itself |
| LittleEndian.ShortBytesOfRead | BaNG/src/util/LittleEndianInputStream.java:28-32 | the value of `readShort` determines the two bytes it read, so the encoding is a bijection |
| LittleEndian.IntRoundTrip | BaNG/src/util/LittleEndianInputStream.java:34-39 | every 32-bit value written low byte first reads back as itself |
| LittleEndian.IntBytesOfRead | BaNG/src/util/LittleEndianInputStream.java:34-39 | the value of `readInt` determines the four bytes it read |
| LittleEndian.Repeat | BaNG/src/bn/Timeline.java:148-159 | `n` reads one after another, as the decoders' counted loops do: a successful result holds exactly `n` items |
| LittleEndian.RepeatSplit | BaNG/src/bn/Timeline.java:148-159 | a counted loop is its first `k` iterations followed by the rest; an error in the first part is the loop's error |
| LittleEndian.RepeatNext | BaNG/src/bn/Timeline.java:148-159 | after `k` successful iterations, the next one either aborts the loop with its error or extends the items by one |
| LittleEndian.RepeatFixed | BaNG/src/bn/Timeline.java:148-159 | a loop of fixed-width reads succeeds exactly when `w·n` bytes remain, fails only with EOF, and reads item `i` at offset `w·i` |
| LittleEndian.FixedRun | BaNG/src/bn/Timeline.java:148-159 | a loop of `n` fixed-width reads succeeds exactly when `w·n` bytes remain, fails only with EOF, and ends `w·n` bytes on |
| LittleEndian.FixedItems | BaNG/src/bn/Timeline.java:148-159 | item `i` of a successful fixed-width loop is the one read at offset `w·i` |
| LittleEndian.RepeatAdvance | BaNG/src/bn/Timeline.java:148-159 | a loop of fixed-width reads ends `w·n` bytes on |
| LittleEndian.RepeatAlike | BaNG/src/bn/Timeline.java:148-159 | two loops whose single reads consume the same bytes and fail alike agree on success, error and position, and their items correspond |
| LittleEndian.RepeatEach | BaNG/src/bn/Timeline.java:148-159 | a property every single read guarantees holds of every item of the loop |
| LittleEndian.LittleEndianInputStream.constructor | BaNG/src/util/LittleEndianInputStream.java:11-14 | the stream starts at position 0 with a 4-byte buffer |
| LittleEndian.LittleEndianInputStream.WithBuffer | BaNG/src/util/LittleEndianInputStream.java:16-20 | the buffer has `len` bytes, but never fewer than 4 |
| LittleEndian.LittleEndianInputStream.Read | BaNG/src/util/LittleEndianInputStream.java:29 | `read(buf, 0, n)` returns `n` exactly when `n` bytes remain, and then advances by `n` and fills the buffer's prefix with their signed views |
| LittleEndian.LittleEndianInputStream.ReadByte | BaNG/src/util/LittleEndianInputStream.java:22-26 | the next byte as 0..255, failing exactly at the end of the stream |
| LittleEndian.LittleEndianInputStream.ReadShort | BaNG/src/util/LittleEndianInputStream.java:28-32 | result and new position are those of `ReadShortAt` |
| LittleEndian.LittleEndianInputStream.ReadInt | BaNG/src/util/LittleEndianInputStream.java:34-39 | result and new position are those of `ReadIntAt` |
| LittleEndian.LittleEndianInputStream.ReadFloat | BaNG/src/util/LittleEndianInputStream.java:41-43 | result and new position are those of `ReadFloatAt` |
| LittleEndian.LittleEndianInputStream.ReadCString | BaNG/src/util/LittleEndianInputStream.java:45-54 | the buffer grows to `len` when it is shorter; result and new position are those of `ReadCStringAt` |
| JavaLang.ToLowerChar | BaNG/src/bn/Timeline.java:27 | lower-casing an ASCII letter `A`..`Z` gives the letter at the same place in `a`..`z`, no result is an upper-case ASCII letter, and every other character is kept |
| JavaLang.ToLowerCase | BaNG/src/bn/Timeline.java:27 | `toLowerCase` keeps the length, leaves no upper-case ASCII letter, turns each one of `s` into its lower-case letter at the same index, and keeps every other character |
| JavaLang.ToLowerCaseIdempotent | BaNG/src/bn/Timeline.java:27-34 | lower-casing twice is lower-casing once, so keys stored lower-cased are found by a lower-cased lookup |
| JavaLang.JavaDivRem | BaNG/src/bn/Animation.java:204-206 | Java's truncating division and remainder recompose the dividend, and the remainder takes the dividend's sign |
| JavaLang.Int32 | BaNG/src/bn/GridPoint.java:11-12 | the value of an `int` expression lies in the 32-bit range |
| JavaLang.Int32Id | BaNG/src/bn/GridPoint.java:11-12 | a value already in the `int` range does not wrap |
| JavaLang.Int32Offset | BaNG/src/bn/GridPoint.java:11-12 | wrapping changes a value by a whole number of 2^32 |
| JavaLang.Int32Same | BaNG/src/bn/GridPoint.java:11-12 | values that agree modulo 2^32 wrap to the same `int` |
| JavaLang.WrapScaleAdd | BaNG/src/bn/GridPoint.java:24-25 | wrapping an operand of `v + c·u` first does not change the wrapped result |
| JavaLang.Int16 | BaNG/src/bn/Animation.java:164 | the cast `(short) x` lies in the 16-bit range, agrees with `x` modulo 2^16, and is `x` when `x` fits |
| Errors.CatchArrayIndex | BaNG/src/bn/Timeline.java:116-117 | the handler keeps success and every other error, and turns an array index fault into a format error |
| Grid.Base | BaNG/src/bn/GridPoint.java:11-12 | the base position of a square is a pair of `int` values |
| Grid.BaseValue | BaNG/src/bn/GridPoint.java:11-12 | the base position is -100·(xg+yg), 50·(yg-xg), wrapped to `int` |
| Grid.FromGrid | BaNG/src/bn/GridPoint.java:10-21 | `new GridPoint(xg, yg)` is a pair of `int` values |
| Grid.ShoulderValue | BaNG/src/bn/GridPoint.java:13-20 | adding the shoulder to a wrapped base coordinate wraps like adding it to the exact one |
| Grid.FromGridValue | BaNG/src/bn/GridPoint.java:10-21 | the position is the base position plus the shoulder of its row (-25, +13 above the centre; +25, -12 below; none on it), wrapped once |
| Grid.FromGridExact | BaNG/src/bn/GridPoint.java:10-21 | for squares within ten million of the origin no `int` wraps and the position is exact |
| Grid.Translate | BaNG/src/bn/GridPoint.java:23-30 | `translate(x, y)` is a pair of `int` values |
| Grid.TranslateValue | BaNG/src/bn/GridPoint.java:23-30 | `translate(x, y)` moves by -100·(x+y), 50·(y-x), wrapped to `int` |
| Grid.TranslateZero | BaNG/src/bn/GridPoint.java:28-30 | `translate(0, 0)` leaves the point where it is |
| Grid.TranslateCompose | BaNG/src/bn/GridPoint.java:28-30 | two translations are one translation by the `int` sums, wrap-around included |
| Grid.TwoSteps | BaNG/src/bn/GridPoint.java:23-30 | two translations, each wrapped once |
| Grid.ComposeX | BaNG/src/bn/GridPoint.java:24 | the x coordinate of two translations is that of one translation by the sums |
| Grid.ComposeY | BaNG/src/bn/GridPoint.java:25 | the y coordinate of two translations is that of one translation by the sums |
| Grid.CentralRow | BaNG/src/bn/GridPoint.java:10-30 | a square of the central row is the origin square translated along x |
| Globs.BodyAppend | BaNG/src/util/GlobFilter.java:28-37 | the translation of a concatenation of globs is the concatenation of their translations |
| Globs.PlainBody | BaNG/src/util/GlobFilter.java:35 | a glob without special characters translates to itself |
| Globs.Regex | BaNG/src/util/GlobFilter.java:25-40 | the pattern always starts with `^` and ends with `$` |
| Globs.GlobToRegex | BaNG/src/util/GlobFilter.java:25-40 | the method's loop builds exactly `Regex(glob)`: `^`, the translation of each character in order, `$` |
| Globs.Alternatives | BaNG/src/util/GlobFilter.java:34 | a comma joins two globs as alternatives, each anchored at both ends |
| Affine.Inverse | BaNG/src/bn/Frame.java:92-97 | `createInverse` exists exactly when the determinant is non-zero |
| Affine.InverseCancels | BaNG/src/bn/Frame.java:93 | the inverse undoes the transform at every point |
| Affine.InverseAt | BaNG/src/bn/Frame.java:93 | the inverse undoes the transform at a given point |
| Affine.InverseAtX | BaNG/src/bn/Frame.java:93 | the x coordinate of the point is recovered |
| Affine.InverseAtY | BaNG/src/bn/Frame.java:93 | the y coordinate of the point is recovered |
| Affine.ConcatenateApplies | BaNG/src/bn/Frame.java:93 | `t.concatenate(u)` applies `u` first, then `t`, everywhere |
| Affine.ConcatenateAt | BaNG/src/bn/Frame.java:93 | `t.concatenate(u)` applies `u` first, then `t`, at a given point |
| Affine.Basis | BaNG/src/bn/Frame.java:84-91 | the transform built from three corners sends the origin and the unit points to them |
| Affine.BasisChange | BaNG/src/bn/Frame.java:84-97 | the frame's transform, one basis times the inverse of another, sends the texture corners onto the screen corners |
| Bitmaps.Pack | BaNG/src/bn/Bitmap.java:154 | a packed ARGB pixel is an unsigned 32-bit value |
| Bitmaps.Unpack | BaNG/src/bn/Bitmap.java:154 | the alpha, red, green and blue bytes can be read back from the packed pixel |
| Bitmaps.Expand | BaNG/src/bn/Bitmap.java:142-146 | `n * 0x11` repeats the 4-bit channel in both nibbles of the byte |
| Bitmaps.PixelAt | BaNG/src/bn/Bitmap.java:138-155 | `readPix` takes 2 bytes at depth 4 and 4 bytes otherwise, and fails with EOF exactly when they are not there |
| Bitmaps.Pixel4Channels | BaNG/src/bn/Bitmap.java:140-147 | at depth 4 the first byte gives alpha (low nibble) and blue (high nibble), and the second byte gives green and red, each widened by 0x11 |
| Bitmaps.Pixel8Channels | BaNG/src/bn/Bitmap.java:148-153 | otherwise the bytes are red, green, blue and alpha, in that order |
| Bitmaps.PixelsAt | BaNG/src/bn/Bitmap.java:102-104 | a successful run of `n` pixel reads yields exactly `n` pixels |
| Bitmaps.PixelsSplit | BaNG/src/bn/Bitmap.java:102-104 | reading `n` pixels is reading `k` and then `n - k`, and an error in the first part is the whole read's error |
| Bitmaps.PixelsThen | BaNG/src/bn/Bitmap.java:102-104 | after `k` pixels, the next `m` either abort with their error or extend the pixels read |
| Bitmaps.PixelsNext | BaNG/src/bn/Bitmap.java:103-104 | after `k` pixels, the next one either aborts with its error or extends the pixels read by one |
| Bitmaps.RunLength | BaNG/src/bn/Bitmap.java:121 | a control byte stands for 1 to 128 pixels |
| Bitmaps.LiteralAt | BaNG/src/bn/Bitmap.java:122-127 | a literal run yields exactly its count of pixels, no more than fit in the image, each a palette colour |
| Bitmaps.RepeatAt | BaNG/src/bn/Bitmap.java:128-134 | a repeated run yields its count of copies of one palette colour, no more than fit in the image |
| Bitmaps.RunAt | BaNG/src/bn/Bitmap.java:120-134 | one pass of the run loop yields at least one pixel, never more than the image has left, all from the palette |
| Bitmaps.RunsExtend | BaNG/src/bn/Bitmap.java:117-135 | the run loop keeps the pixels already painted and fills the image exactly, with palette colours only |
| Bitmaps.RunsCoverImage | BaNG/src/bn/Bitmap.java:117-135 | a run-length image that decodes has exactly width·height pixels, all palette colours |
| Bitmaps.HeaderAt | BaNG/src/bn/Bitmap.java:78-83 | a header that reads has version 0 or 1 and takes 16 bytes |
| Bitmaps.UnknownVersion | BaNG/src/bn/Bitmap.java:78-80 | any other version is rejected with "Unrecognized version" |
| Bitmaps.BadPaletteSize | BaNG/src/bn/Bitmap.java:110-112 | in run-length mode a palette size outside 1..256 is rejected with "Invalid palette size" |
| Bitmaps.DecodeShape | BaNG/src/bn/Bitmap.java:74-98 | a decoded raster has version 0 or 1, a positive width and height, and exactly width·height pixels; in run-length mode every pixel is an entry of the palette read before the runs |
| Bitmaps.DecodeCatchesIndexFaults | BaNG/src/bn/Bitmap.java:92-93 | no raw index fault escapes `read`: it becomes "Invalid array index" |
| Bitmaps.RowMajor | BaNG/src/bn/Bitmap.java:102-104 | pixel (x, y) has index `y·w + x`, and it is inside the image exactly when y is below the height |
| Bitmaps.RowMajorOrder | BaNG/src/bn/Bitmap.java:102-104 | every pixel of a row comes before the pixels of later rows |
| Bitmaps.RowOf | BaNG/src/bn/Bitmap.java:125 | pixel `k` lies in column `k % w` and row `k / w`, inside the image |
| Bitmaps.RowMajorPixels | BaNG/src/bn/Bitmap.java:84 | the pixels of an image buffer in row-major order are exactly width·height many |
| Bitmaps.PaintedPixels | BaNG/src/bn/Bitmap.java:89 | once all pixels are painted, the buffer the texture is made from shows exactly the decoded pixels |
| Bitmaps.SetRGB | BaNG/src/bn/Bitmap.java:104 | painting the pixel that follows the painted ones extends the painted prefix by that pixel |
| Bitmaps.Bitmap.constructor | BaNG/src/bn/Bitmap.java:40-42 | a new bitmap has its name and no texture yet |
| Bitmaps.Bitmap.ReplaceTexture | BaNG/src/bn/Bitmap.java:64-67 | the bitmap paints with the new image, keeps the decoded texture, and joins the modified set; nothing else changes |
| Bitmaps.Bitmap.RestoreTexture | BaNG/src/bn/Bitmap.java:69-72 | the bitmap paints with the decoded texture again and leaves the modified set; nothing else changes |
| Bitmaps.Bitmap.Read | BaNG/src/bn/Bitmap.java:74-98 | the bitmap succeeds or fails as `Decode` does, with the same error, and on success holds the decoded size, depth and texture |
| Bitmaps.Bitmap.ReadHeader | BaNG/src/bn/Bitmap.java:78-83 | the header is read as `HeaderAt` reads it, and it sets width, height and bits |
| Bitmaps.Bitmap.ReadBody | BaNG/src/bn/Bitmap.java:77-91 | the `try` block agrees with the body specification, and on success the image has the decoded size and pixels |
| Bitmaps.Bitmap.ReadPix | BaNG/src/bn/Bitmap.java:138-155 | result and new position are those of `PixelAt` |
| Bitmaps.Bitmap.ReadRaw | BaNG/src/bn/Bitmap.java:100-105 | the nested loops read width·height pixels as `PixelsAt` does and paint them in row-major order |
| Bitmaps.Bitmap.ReadRow | BaNG/src/bn/Bitmap.java:103-104 | the inner loop reads one row of pixels and paints it right after the rows before |
| Bitmaps.Bitmap.ReadRLE | BaNG/src/bn/Bitmap.java:107-136 | the run-length body agrees with its specification, and on success the image shows the decoded pixels |
| Bitmaps.Bitmap.ReadPalette | BaNG/src/bn/Bitmap.java:113-115 | the palette is a new array of the pixels read |
| Bitmaps.Bitmap.ReadRuns | BaNG/src/bn/Bitmap.java:117-135 | the run loop agrees with its specification and paints the decoded pixels |
| Bitmaps.Bitmap.ReadRun | BaNG/src/bn/Bitmap.java:120-134 | one pass of the run loop paints its run after the painted prefix and leaves `(x, y)` at the next pixel |
| Bitmaps.Bitmap.ReadLiteral | BaNG/src/bn/Bitmap.java:122-127 | a literal run paints one looked-up palette colour per index byte |
| Bitmaps.Bitmap.ReadRepeat | BaNG/src/bn/Bitmap.java:128-134 | a repeated run paints one palette colour `num` times |
| Bitmaps.Bitmap.Advance | BaNG/src/bn/Bitmap.java:125 | the cursor moves to the next pixel in row-major order, wrapping to the next row at the width |
| Bitmaps.BitmapCache.constructor | BaNG/src/bn/Bitmap.java:18-20 | the cache and the modified set start empty |
| Bitmaps.BitmapCache.Get | BaNG/src/bn/Bitmap.java:26-38 | a cached name, lower-cased, returns its bitmap; otherwise a new bitmap is read from `name_0.z2raw` and cached under the lower-cased name only on success |
| Frames.Scale | BaNG/src/bn/Frame.java:63 | the pose scale (1/32 from version 6 on, else 1) is positive |
| Frames.Stretch | BaNG/src/bn/Frame.java:111-116 | `stretchBounds` makes the box cover the point, only ever grows it, and moves each side either not at all or onto the point |
| Frames.BoundsTight | BaNG/src/bn/Frame.java:58-61 | the box a frame reads is the empty sentinel box exactly when the frame has no polygon; otherwise it is non-empty, covers every pose point, and each of its sides passes through one |
| Frames.BoundsCover | BaNG/src/bn/Frame.java:79-82 | every pose point of every polygon lies in the box, and the box of a non-empty frame is non-empty |
| Frames.BoundsAttained | BaNG/src/bn/Frame.java:79-82 | each side of the box of a non-empty frame passes through a pose point, so no smaller box covers them |
| Frames.FirstPoly | BaNG/src/bn/Frame.java:58-61 | stretching the sentinel box by one polygon puts every side on that polygon's points |
| Frames.Attained | BaNG/src/bn/Frame.java:79-82 | after one more polygon, each side still passes through a pose point of some polygon |
| Frames.TransformOf | BaNG/src/bn/Frame.java:84-97 | the transform is missing exactly when the texture triangle is degenerate, and otherwise sends the three texture points onto the three scaled pose points |
| Frames.BasesOf | BaNG/src/bn/Frame.java:84-91 | the two constructor calls build the pose and texture bases, and the texture basis's determinant is the triangle's doubled area |
| Frames.IndicesAt | BaNG/src/bn/Frame.java:69-70 | a polygon record starts with exactly six indices |
| Frames.RepeatedShortsEnd | BaNG/src/bn/Frame.java:69-70 | the six indices take 12 bytes |
| Frames.CornersAt | BaNG/src/bn/Frame.java:69-74 | a polygon record takes 12 bytes and its four vertices come from the vertex table |
| Frames.PolyAt | BaNG/src/bn/Frame.java:68-105 | a polygon record that reads takes 12 bytes, is made of table vertices in the required arrangement, and its transform maps texture to pose |
| Frames.TranslucentNext | BaNG/src/bn/Frame.java:76 | the frame has translucency after one more polygon exactly when it had some before or the new polygon's first vertex is not opaque |
| Frames.FrameOf | BaNG/src/bn/Frame.java:98-108 | a frame holds one quad and one transform per polygon; alpha values are kept exactly when some polygon is translucent; the box is that of its polygons |
| Frames.FrameRect | BaNG/src/bn/Frame.java:21-24 | `getBounds` is null exactly for a frame without polygons, and otherwise at least one pixel wide and high |
| Frames.FrameAtBody | BaNG/src/bn/Frame.java:47-109 | after the count and the padding byte, the frame is the polygon loop's records, or the loop's error |
| Frames.Frame.constructor | BaNG/src/bn/Frame.java:18-19 | a new frame has no arrays and a zero box |
| Frames.Frame.GetBounds | BaNG/src/bn/Frame.java:21-24 | the rectangle of the frame's box: none when the box is empty |
| Frames.Frame.StretchBounds | BaNG/src/bn/Frame.java:111-116 | the box becomes `Stretch` of the old box; nothing else changes |
| Frames.Frame.StretchCorners | BaNG/src/bn/Frame.java:79-82 | the four `stretchBounds` calls of one polygon, in order |
| Frames.Frame.Read | BaNG/src/bn/Frame.java:47-109 | `read` succeeds or fails as `FrameAt` does, with the same error, and on success the frame holds the decoded polygons, transforms, alpha and box in new arrays |
| Frames.Frame.ReadBody | BaNG/src/bn/Frame.java:53-108 | after the count, the frame holds the frame of the polygon records read |
| Frames.Frame.ReadPolygons | BaNG/src/bn/Frame.java:68-105 | the polygon loop reads the records as the specification does, fills the arrays with them, and tracks translucency and the box |
| Frames.Frame.Install | BaNG/src/bn/Frame.java:107-108 | the frame takes the filled arrays, and drops the alpha array when no polygon is translucent |
| Frames.Frame.Store | BaNG/src/bn/Frame.java:77-104 | the three array stores of one polygon extend the filled prefix by it |
| Frames.Frame.FilledFrame | BaNG/src/bn/Frame.java:98-108 | the arrays the loop filled hold the frame of its records |
| Frames.Frame.FilledQuads | BaNG/src/bn/Frame.java:100-104 | the polygon array holds the quadrilateral of each record, in order |
| Frames.Frame.FilledTransforms | BaNG/src/bn/Frame.java:98 | the transform array holds the transform of each record, in order |
| Frames.Frame.FilledAlphas | BaNG/src/bn/Frame.java:77 | when the frame is translucent, the alpha array holds the alpha of the first vertex of each record |
| Frames.Frame.ReadPolygon | BaNG/src/bn/Frame.java:71-104 | one pass of the polygon loop extends the records read or aborts the whole loop with its error, and stretches the box by the polygon |
| Frames.Frame.ReadCorners | BaNG/src/bn/Frame.java:69-74 | the six indices and the four vertices, as `CornersAt` reads them |
| Timelines.PointSizeAt | BaNG/src/bn/Timeline.java:138-146 | only version 8 reads the selector, and 0, 1 and 0x101 give 0, 1 and 4 floats per vertex; any other selector is "Unknown point size" and a missing one EOF |
| Timelines.MinAlphaIsMin | BaNG/src/bn/Timeline.java:156-157 | the `Math.min` fold is at most its start and every float, and equals one of them |
| Timelines.CornerLayout | BaNG/src/bn/Timeline.java:150-155 | the coordinates of a vertex are the shorts at offsets 0 and 2 and the last two of its record, which has an extra skipped short in version 4 |
| Timelines.VertexLayout | BaNG/src/bn/Timeline.java:149-159 | a vertex record takes its coordinate shorts and 4 bytes per float, fails with EOF exactly when they are not there, and has its coordinates at the fixed offsets |
| Timelines.VertexAlpha | BaNG/src/bn/Timeline.java:156-157 | the alpha of a vertex starts at 1 and is lowered to the least of its floats, which it equals unless it stayed 1 |
| Timelines.VertexParts | BaNG/src/bn/Timeline.java:149-159 | a vertex's floats follow its coordinates, and its alpha is their fold |
| Timelines.AlphaBound | BaNG/src/bn/Timeline.java:156-157 | the fold of the floats read from a position is their minimum with 1 |
| Timelines.FloatsLayout | BaNG/src/bn/Timeline.java:156-157 | `n` floats take `4n` bytes and fail with EOF exactly when they are not there; float `i` is at offset `4i` |
| Timelines.AlphaOfFloats | BaNG/src/bn/Timeline.java:156-157 | the fold is the minimum of 1 and the stored floats |
| Timelines.CoordsShape | BaNG/src/bn/Timeline.java:137-159 | a decoded vertex table has as many vertices as its count, each with alpha at most 1; a negative count is a NegativeArraySizeException |
| Timelines.BoxAt | BaNG/src/bn/Timeline.java:161-164 | the box is the four shorts xMin, xMax, yMin and yMax, failing with EOF exactly when they are not there |
| Timelines.FramesAt | BaNG/src/bn/Timeline.java:166-171 | a decoded frame list has as many frames as its count; a negative count is a NegativeArraySizeException |
| Timelines.IndexAt | BaNG/src/bn/Timeline.java:182 | a sequence entry must index a decoded frame: an out-of-range short is an array index fault and a missing one EOF |
| Timelines.SequenceShape | BaNG/src/bn/Timeline.java:174-184 | a decoded sequence has its count of entries, more than zero, each a frame index; a count of zero or less is "Invalid sequence count" |
| Timelines.TimelineShape | BaNG/src/bn/Timeline.java:124-133 | a decoded timeline has the name its 256-byte field holds and plays only frames it has, in file order with scale 1 in version 4, and by a non-empty sequence with scale 1/32 later |
| Timelines.HeaderAt | BaNG/src/bn/Timeline.java:107-112 | a package header has version 4, 6 or 8 and takes 7 bytes; its version and count are the shorts at 0 and 3; any other version is "Unknown version" |
| Timelines.Registrations | BaNG/src/bn/Timeline.java:113-114 | the timelines read in a loop of `k` register at most `k` names |
| Timelines.RegistrationsStop | BaNG/src/bn/Timeline.java:126-127 | a timeline that fails after its name registers that name and the loop stops |
| Timelines.RegisteredStep | BaNG/src/bn/Timeline.java:113-114 | one more pass of the loop either aborts it with its error, with the cache holding the names so far and the failed one, or extends the timelines read by one and registers its name |
| Timelines.RegisteredAll | BaNG/src/bn/Timeline.java:113-114 | when all timelines read, the names registered are theirs, in order |
| Timelines.RegistrationsSplit | BaNG/src/bn/Timeline.java:113-114 | the names registered by a loop are those of its first successful passes followed by those of the rest |
| Timelines.RegistrationsCons | BaNG/src/bn/Timeline.java:113-114 | a timeline that reads registers its own name first |
| Timelines.PackageNames | BaNG/src/bn/Timeline.java:103-122 | after a whole package decodes, the names registered are exactly those of its timelines |
| Timelines.PutNamesEffect | BaNG/src/bn/Timeline.java:92-95 | the puts of one pack add its lower-cased names, all mapped to the pack, and keep every other key |
| Timelines.IndexLaterWins | BaNG/src/bn/Timeline.java:84-101 | a key is in the index exactly when some pack lists it, and it maps to the last pack that does |
| Timelines.IndexKey | BaNG/src/bn/Timeline.java:89-96 | a key is in the index exactly when some pack lists it |
| Timelines.IndexValue | BaNG/src/bn/Timeline.java:89-96 | an indexed key maps to the last pack that lists it |
| Timelines.IndexPacks | BaNG/src/bn/Timeline.java:89-96 | the two loops of `load` build exactly `IndexOf(packs)` |
| Timelines.Timeline.constructor | BaNG/src/bn/Timeline.java:44-46 | a new timeline has its package name and nothing decoded yet |
| Timelines.Timeline.GetBounds | BaNG/src/bn/Timeline.java:56-59 | for a non-empty box, the rectangle one unit wider and higher than the box's extent, scaled |
| Timelines.Timeline.Accessors | BaNG/src/bn/Timeline.java:61-78 | a decoded timeline reports the number of frames it plays, frame `i` as the `i`-th played frame with its scaled bounds, and an index fault outside that range |
| Timelines.Timeline.Read | BaNG/src/bn/Timeline.java:124-133 | `read` succeeds or fails as `TimelineAt` does and on success holds the decoded timeline and owns only new objects; the cache gains the lower-cased name as soon as it is read, even when the rest fails; a failure leaves the scale as it was |
| Timelines.Timeline.ReadBody | BaNG/src/bn/Timeline.java:128-132 | the rest of `read`, after the name, agrees with its specification; the scale is set last, so a failure leaves it as it was |
| Timelines.Timeline.SetScale | BaNG/src/bn/Timeline.java:132 | the last assignment of `read` sets the scale and keeps everything else the timeline holds |
| Timelines.Timeline.ReadPlayOrder | BaNG/src/bn/Timeline.java:130-131 | after version 4 the played frames are those the sequence names; before, the frames as read |
| Timelines.Timeline.ReadFrames | BaNG/src/bn/Timeline.java:135-172 | `readFrames` agrees with its specification and leaves the box in the four fields and the new frames in `frames` |
| Timelines.Timeline.ReadBox | BaNG/src/bn/Timeline.java:161-164 | the four box fields hold the shorts `BoxAt` reads |
| Timelines.Timeline.ReadFrameTable | BaNG/src/bn/Timeline.java:166-171 | the frame count and the frames, as `FramesAt` reads them, in a new array of new frames |
| Timelines.Timeline.ReadCoords | BaNG/src/bn/Timeline.java:137-159 | the vertex table is a new array of the vertices `CoordsAt` reads |
| Timelines.Timeline.ReadVertices | BaNG/src/bn/Timeline.java:148-159 | the vertex loop fills a new array with the vertices read |
| Timelines.Timeline.ReadPointSize | BaNG/src/bn/Timeline.java:138-146 | the selector is read as `PointSizeAt` reads it |
| Timelines.Timeline.ReadVertex | BaNG/src/bn/Timeline.java:150-158 | one vertex, as `VertexAt` reads it |
| Timelines.Timeline.ReadAlpha | BaNG/src/bn/Timeline.java:156-157 | the alpha loop, as `AlphaAt` computes it |
| Timelines.Timeline.ReadFrameList | BaNG/src/bn/Timeline.java:167-171 | `frames` becomes an array of new frames, each holding the frame read |
| Timelines.Timeline.Install | BaNG/src/bn/Timeline.java:167 | the frames array holds the frames made, in order |
| Timelines.Timeline.ReadFrameObjects | BaNG/src/bn/Timeline.java:168-171 | `n` new frame objects, each holding the frame read at its place |
| Timelines.Timeline.ReadOwnedFrame | BaNG/src/bn/Timeline.java:169-170 | one new frame object added to those made, holding the frame read |
| Timelines.Timeline.ReadNewFrame | BaNG/src/bn/Timeline.java:169-170 | a new frame reads itself as `FrameAt` does |
| Timelines.Timeline.FrameArray | BaNG/src/bn/Timeline.java:167 | a new array of the given frames, in order |
| Timelines.Timeline.ReadSequence | BaNG/src/bn/Timeline.java:174-184 | `readSequence` agrees with `SequenceAt`; `frames` becomes a new array whose entry `i` is the decoded frame the sequence names |
| Timelines.Timeline.ReadOrder | BaNG/src/bn/Timeline.java:176-182 | the reads of `readSequence` give a new array whose entries are the frames the indices name |
| Timelines.Timeline.ReadIndices | BaNG/src/bn/Timeline.java:181-182 | the index loop, as `IndexAt` reads each |
| Timelines.Timeline.Pick | BaNG/src/bn/Timeline.java:180-183 | a new array of the frames at the given indices |
| Timelines.Library.constructor | BaNG/src/bn/Timeline.java:16-17 | before the first `get` neither the index nor the cache is loaded |
| Timelines.Library.Load | BaNG/src/bn/Timeline.java:84-101 | `load` sets the index to `IndexOf(packs)` and empties the cache |
| Timelines.Library.Get | BaNG/src/bn/Timeline.java:24-35 | null gives null; the index is loaded on first use; a cached lower-cased name gives its entry; an unknown name gives null; otherwise the name is reserved, its pack read, every timeline read is cached, and the result is the entry, present exactly for the names the pack holds and then holding the last timeline of the pack whose name lower-cases to it |
| Timelines.Library.ReadTimeline | BaNG/src/bn/Timeline.java:103-122 | a missing file is FileNotFound and changes nothing; otherwise the result is that of `PackageAt`, the cache gains every name registered while reading, and after a whole package each key holds the last timeline of that name |
| Timelines.Library.ReadPackage | BaNG/src/bn/Timeline.java:106-115 | the body of `readTimeline` agrees with its specification, registers the names read, and after a whole package each key holds the last timeline of that name |
| Timelines.Library.ReadHeader | BaNG/src/bn/Timeline.java:107-112 | the header, as `HeaderAt` reads it |
| Timelines.Library.ReadOne | BaNG/src/bn/Timeline.java:114 | one new timeline reads itself: on success it holds the decoded record and owns only new objects, the timelines read before keep holding theirs, and its lower-cased name enters the cache once read |
| Timelines.Library.ReadNext | BaNG/src/bn/Timeline.java:113-114 | one pass of the loop: a failure ends the package with the registrations so far; a success adds the record, enters its name and makes its object the latest for its key |
| Timelines.Library.ReadTimelines | BaNG/src/bn/Timeline.java:113-114 | the `num` timelines are read in order, the cache gains the names they registered, and each key then holds the object of the last timeline of that name |
| Timelines.LastIndex | BaNG/src/bn/Timeline.java:127 | the last of the names that lower-cases to a key: the one whose `put` the map keeps |
| Timelines.LatestNext | BaNG/src/bn/Timeline.java:127 | a `put` of one more name makes its object the latest for its key and keeps every other key's |
| Timelines.LatestModels | BaNG/src/bn/Timeline.java:113-114 | the object kept for a key holds the last decoded timeline with that name |
| Timelines.PackageCached | BaNG/src/bn/Timeline.java:113-114 | after all timelines read, the names registered are theirs and each key holds the object of the last one of that name |
| Animations.SkipAt | BaNG/src/bn/Animation.java:142-143 | `n` dropped bytes succeed exactly when they are there, advance by `n`, and fail otherwise with EOF |
| Animations.ExtraIsFloats | BaNG/src/bn/Animation.java:126-133 | the selector of an animation means what it means in a timeline, counted in bytes: 0, 4 or 16 after each vertex, with the same errors |
| Animations.CoordsAt | BaNG/src/bn/Animation.java:124-144 | a decoded vertex table has as many vertices as its count says |
| Animations.CoordLayout | BaNG/src/bn/Animation.java:137-143 | a vertex is pose x, pose y, the short version 4 skips, texture x and y, then its extra bytes; it fails with EOF exactly when they are not there |
| Animations.SameTable | BaNG/src/bn/Animation.java:122-144 | the vertex table of an animation takes the same bytes and fails alike as that of a timeline, and holds the same coordinates |
| Animations.SameVertex | BaNG/src/bn/Animation.java:137-143 | one vertex takes the same bytes as a timeline vertex and has its coordinates |
| Animations.RefAt | BaNG/src/bn/Animation.java:221-224 | a reference that reads names a vertex of the table |
| Animations.FaceAt | BaNG/src/bn/Animation.java:220-261 | a face has exactly six references |
| Animations.FaceShape | BaNG/src/bn/Animation.java:219-261 | a face takes twelve bytes of six table references, repeats its first and third in fourth and fifth place, has the polygon of its texture points, and its transform sends three texture points onto their pose points |
| Animations.RefsShape | BaNG/src/bn/Animation.java:220-229 | six references read take twelve bytes and name table vertices |
| Animations.FaceErrors | BaNG/src/bn/Animation.java:230-254 | references that do not repeat are "Unexpected frame arrangement"; otherwise the face is "Bad transform" exactly when its texture triangle is degenerate |
| Animations.StretchRefsSpec | BaNG/src/bn/Animation.java:225-228 | the updates widen the box to hold each referenced pose point and move each side only onto one of them |
| Animations.FacesBoxTight | BaNG/src/bn/Animation.java:211-229 | the box is the sentinel box exactly when the frame has no face; otherwise it is non-empty, holds every referenced point and each side passes through one |
| Animations.FacesBoxCover | BaNG/src/bn/Animation.java:219-229 | every referenced pose point lies in the box |
| Animations.FacesBoxAttained | BaNG/src/bn/Animation.java:211-229 | each side of the box of a non-empty frame passes through a referenced pose point |
| Animations.LastFace | BaNG/src/bn/Animation.java:211-229 | the box of a single face has its sides on the face's points |
| Animations.EarlierFaces | BaNG/src/bn/Animation.java:219-229 | a side that a later face did not move stays on a point of an earlier face |
| Animations.FrameSizeCases | BaNG/src/bn/Animation.java:203-209 | a count not a multiple of 6 is "Unexpected frame size", a negative multiple a NegativeArraySizeException, and otherwise the faces follow the count and, from version 6, one padding byte |
| Animations.FacesShape | BaNG/src/bn/Animation.java:201-263 | a frame that reads has count/6 well-formed faces whose points are Java `int`s |
| Animations.AnimFramesAt | BaNG/src/bn/Animation.java:151-156 | a decoded frame list has its count of frames; a negative count is a NegativeArraySizeException |
| Animations.SequenceCases | BaNG/src/bn/Animation.java:159-173 | version 4 numbers the frames in file order and reads nothing; later versions read a count, a skipped short and that many shorts, with a negative count a NegativeArraySizeException and missing bytes EOF |
| Animations.AnimationShape | BaNG/src/bn/Animation.java:113-120 | a decoded animation has the name its field holds, at most 32767 frames, and in version 4 plays them in file order |
| Animations.NamesRead | BaNG/src/bn/Animation.java:115-116 | every animation that reads carries the name its name field holds |
| Animations.PackageNames | BaNG/src/bn/Animation.java:61-78 | after a whole package decodes, the names registered are exactly those of its animations |
| Animations.AnimFrame.constructor | BaNG/src/bn/Animation.java:196-199 | a new frame has no arrays and a zero box |
| Animations.AnimFrame.GetWidth | BaNG/src/bn/Animation.java:265-267 | `xMax - xMin` wrapped to `int`: exact when it fits, and 1 for the sentinel box of a frame without faces |
| Animations.AnimFrame.GetHeight | BaNG/src/bn/Animation.java:269-271 | `yMax - yMin` wrapped to `int`: exact when it fits, and 1 for the sentinel box |
| Animations.AnimFrame.GetSize | BaNG/src/bn/Animation.java:273-275 | the larger of width and height |
| Animations.AnimFrame.StretchBounds | BaNG/src/bn/Animation.java:225-228 | the box becomes `Stretch` of the old box; nothing else changes |
| Animations.AnimFrame.Read | BaNG/src/bn/Animation.java:201-263 | `Frame.read` succeeds or fails as `AnimFrameAt` does, and on success the frame holds its polygons, transforms and box in new arrays |
| Animations.AnimFrame.ReadBody | BaNG/src/bn/Animation.java:207-262 | after the count, the frame holds the faces read |
| Animations.AnimFrame.Install | BaNG/src/bn/Animation.java:207-208 | the frame takes the filled arrays and holds the frame of its faces |
| Animations.AnimFrame.Store | BaNG/src/bn/Animation.java:255-261 | the two array stores of one face extend the filled prefix |
| Animations.AnimFrame.ReadFaces | BaNG/src/bn/Animation.java:219-262 | the face loop reads the faces as the specification does, fills the arrays, and leaves the box of the faces |
| Animations.AnimFrame.ReadFace | BaNG/src/bn/Animation.java:220-261 | one pass of the face loop extends the faces read or aborts the loop with its error, and stretches the box by the face's references |
| Animations.AnimFrame.ReadRefs | BaNG/src/bn/Animation.java:220-229 | the six references, as the specification reads them, with the box stretched by each |
| Animations.AnimFrame.StoreRef | BaNG/src/bn/Animation.java:221 | storing a checked index keeps `ix` holding the index of every reference read so far |
| Animations.AnimFrame.ReadRef | BaNG/src/bn/Animation.java:221-224 | one reference, as `RefAt` reads it |
| Animations.Animation.constructor | BaNG/src/bn/Animation.java:80-82 | a new animation has its package name and nothing decoded yet |
| Animations.Animation.GetWidth | BaNG/src/bn/Animation.java:92-94 | `xMax - xMin` wrapped to `int`, exact when it fits |
| Animations.Animation.GetHeight | BaNG/src/bn/Animation.java:96-98 | `yMax - yMin` wrapped to `int`, exact when it fits |
| Animations.Animation.GetSize | BaNG/src/bn/Animation.java:100-102 | the larger of width and height |
| Animations.Animation.Extents | BaNG/src/bn/Animation.java:92-102 | a decoded animation reports the extent of its box, frame `i` is the `i`-th decoded frame with its box, and a frame without faces has size 1 |
| Animations.Animation.Read | BaNG/src/bn/Animation.java:113-120 | `read` succeeds or fails as `AnimationAt` does and on success holds the decoded animation and owns only new objects; the cache gains the lower-cased name as soon as it is read |
| Animations.Animation.ReadBody | BaNG/src/bn/Animation.java:117-119 | the rest of `read`, after the name, agrees with its specification |
| Animations.Animation.ReadFrames | BaNG/src/bn/Animation.java:122-157 | `readFrames` agrees with its specification and leaves the box in the four fields and the new frames in `frames` |
| Animations.Animation.ReadBox | BaNG/src/bn/Animation.java:146-149 | the four box fields hold the shorts `BoxAt` reads |
| Animations.Animation.ReadCoords | BaNG/src/bn/Animation.java:124-144 | the vertex table, as `CoordsAt` reads it |
| Animations.Animation.ReadExtra | BaNG/src/bn/Animation.java:125-133 | the selector, as a number of bytes |
| Animations.Animation.ReadCorners | BaNG/src/bn/Animation.java:135-144 | the vertex loop, as the specification reads it |
| Animations.Animation.ReadCorner | BaNG/src/bn/Animation.java:137-143 | one vertex, as `CoordAt` reads it |
| Animations.Animation.Skip | BaNG/src/bn/Animation.java:142-143 | `n` calls of `readByte`, as `SkipAt` reads them |
| Animations.Animation.ReadFrameTable | BaNG/src/bn/Animation.java:151-156 | the frame count and the frames, as `AnimFramesAt` reads them, in a new array of new frames |
| Animations.Animation.ReadFrameList | BaNG/src/bn/Animation.java:152-156 | `frames` becomes an array of new frames each holding the frame read |
| Animations.Animation.Install | BaNG/src/bn/Animation.java:152 | the frames array holds the frames made, in order |
| Animations.Animation.ReadFrameObjects | BaNG/src/bn/Animation.java:153-156 | `n` new frames, each holding the frame read at its place |
| Animations.Animation.ReadOwnedFrame | BaNG/src/bn/Animation.java:154-155 | one new frame added to those made, holding the frame read |
| Animations.Animation.ReadNewFrame | BaNG/src/bn/Animation.java:154-155 | a new frame reads itself as `AnimFrameAt` does |
| Animations.Animation.FrameArray | BaNG/src/bn/Animation.java:152 | a new array of the given frames, in order |
| Animations.Animation.ReadSequence | BaNG/src/bn/Animation.java:159-173 | `sequence` becomes a new array of the indices `AnimSequenceAt` reads |
| Animations.Animation.SequenceArray | BaNG/src/bn/Animation.java:161-172 | the array `readSequence` stores, as the specification gives it |
| Animations.Animation.ShortIndices | BaNG/src/bn/Animation.java:162-164 | a new array holding each index cast to a short |
| Animations.Animation.ReadShorts | BaNG/src/bn/Animation.java:169-171 | `n` shorts into a new array |
| Animations.AnimationLibrary.constructor | BaNG/src/bn/Animation.java:19-20 | before the first `get` neither the index nor the cache is built |
| Animations.AnimationLibrary.BuildIndex | BaNG/src/bn/Animation.java:28-46 | `buildIndex` sets the index to `IndexOf(packs)` and empties the cache |
| Animations.AnimationLibrary.Get | BaNG/src/bn/Animation.java:48-59 | the index is built on first use; a null name is a NullPointerException; a cached lower-cased name gives its entry; an unknown name gives null; otherwise the name is reserved, its pack read, every animation read is cached, and the result is the entry, present exactly for the names the pack holds and then holding the last animation of the pack whose name lower-cases to it |
| Animations.AnimationLibrary.ReadTimeline | BaNG/src/bn/Animation.java:61-78 | a missing file is FileNotFound and changes nothing; otherwise the result is that of `PackageAt`, with no handler for index faults, the cache gains every name registered, and after a whole package each key holds the last animation of that name |
| Animations.AnimationLibrary.ReadPackage | BaNG/src/bn/Animation.java:65-74 | the body of `readTimeline` agrees with `PackageAt`, registers the names read, and after a whole package each key holds the last animation of that name |
| Animations.AnimationLibrary.ReadOne | BaNG/src/bn/Animation.java:73 | one new animation reads itself: on success it holds the decoded record and owns only new objects, the animations read before keep holding theirs, and its lower-cased name enters the cache once read |
| Animations.AnimationLibrary.ReadNext | BaNG/src/bn/Animation.java:72-73 | one pass of the loop: a failure ends the package with the registrations so far; a success adds the record, enters its name and makes its object the latest for its key |
| Animations.AnimationLibrary.ReadAnimations | BaNG/src/bn/Animation.java:72-73 | the `num` animations are read in order, the cache gains the names they registered, and each key then holds the object of the last animation of that name |
| Animations.LatestModels | BaNG/src/bn/Animation.java:72-73 | the object kept for a key holds the last decoded animation with that name |
| Animations.PackageCached | BaNG/src/bn/Animation.java:72-73 | after all animations read, the names registered are theirs and each key holds the object of the last one of that name |
| Abilities.CompareOrder | BaNG/src/bn/Ability.java:232-238 | while no difference overflows, `compareTo` is at most 0 exactly when `a` may come first (y descending, then x ascending, then order descending), and 0 exactly when all three keys agree |
| Abilities.PairsLength | BaNG/src/bn/Ability.java:242 | the pairs fill an array of `in1.length * in2.length` squares |
| Abilities.PairsPositions | BaNG/src/bn/Ability.java:243-246 | the positions of the pairs are the sums of a position of `in1` and a position of `in2` |
| Abilities.PairsSum | BaNG/src/bn/Ability.java:214-219 | the values of the pairs total the product of the two areas' totals |
| Abilities.RowSum | BaNG/src/bn/Ability.java:218 | one row totals the value of its square times the total of `in2` |
| Abilities.RowPositions | BaNG/src/bn/Ability.java:215-216 | the positions of one row are those of `in2`, shifted by its square |
| Abilities.MassPerm | BaNG/src/bn/Ability.java:248 | sorting keeps the total weight, overall and at each position |
| Abilities.PosSetHas | BaNG/src/bn/Ability.java:240-265 | a position is among those of a sequence exactly when some square has it |
| Abilities.Insert | BaNG/src/bn/Ability.java:248 | inserting one square adds it to the multiset and keeps the head or puts it first |
| Abilities.SortSquares | BaNG/src/bn/Ability.java:248 | the sort is a permutation of its input |
| Abilities.InsertSorted | BaNG/src/bn/Ability.java:248 | inserting into sorted squares keeps them sorted |
| Abilities.SortSquaresSorted | BaNG/src/bn/Ability.java:248 | the sort leaves the squares in the order of `compareTo` |
| Abilities.Merged | BaNG/src/bn/Ability.java:249-257 | the merge keeps at least one and at most all squares, and its last square is at the position of the last input |
| Abilities.MergedStep | BaNG/src/bn/Ability.java:252-256 | one more square is added into the last kept square when their positions agree, and kept as a new square otherwise |
| Abilities.MergedPositions | BaNG/src/bn/Ability.java:249-257 | the merge keeps exactly the positions of the sorted pairs |
| Abilities.MergedSum | BaNG/src/bn/Ability.java:249-257 | the merge keeps the total value |
| Abilities.MergedSorted | BaNG/src/bn/Ability.java:249-257 | of sorted squares the merge keeps one square per position, in strictly increasing order |
| Abilities.MergedValues | BaNG/src/bn/Ability.java:254 | of sorted squares each kept square carries the total value of its position |
| Abilities.ValuesStep | BaNG/src/bn/Ability.java:253-256 | the last step of the merge keeps each kept square carrying the total value of its position |
| Abilities.MergedOrders | BaNG/src/bn/Ability.java:249-257 | of sorted squares each kept square is the first of its run, which has the largest order at its position |
| Abilities.OrdersStep | BaNG/src/bn/Ability.java:253-256 | the last step of the merge keeps each kept square the one with the largest order at its position |
| Abilities.TopOrderIsMax | BaNG/src/bn/Ability.java:237 | the largest order at a position exists exactly when the position occurs, and is the maximum of the orders there |
| Abilities.AbsentValue | BaNG/src/bn/Ability.java:254 | a position that does not occur carries no value |
| Abilities.Sandwich | BaNG/src/bn/Ability.java:253 | in sorted squares, a last square whose position differs from that of the one before has a position not seen earlier |
| Abilities.PosSetPerm | BaNG/src/bn/Ability.java:248 | sorting keeps the positions |
| Abilities.TopPerm | BaNG/src/bn/Ability.java:248 | sorting keeps the largest order of each position |
| Abilities.RunsPerm | BaNG/src/bn/Ability.java:248 | what the merge promises of the values and orders of the sorted pairs also holds of the pairs unsorted |
| Abilities.ConvolveMeets | BaNG/src/bn/Ability.java:240-265 | `convolution` fails with an index fault exactly when one area is empty, and otherwise returns strictly sorted squares with exactly the positions of the pairs, on each the total value and largest order of the pairs there, totalling the product of the two areas' totals |
| Abilities.DistinctCount | BaNG/src/bn/Ability.java:259-264 | the result holds each position once, so its length is the number of positions |
| Abilities.FillPairs | BaNG/src/bn/Ability.java:242-246 | the nested loops fill a new array with the pairs in order |
| Abilities.FillRow | BaNG/src/bn/Ability.java:245-246 | the inner loop writes one row after what is already written |
| Abilities.SortInPlace | BaNG/src/bn/Ability.java:248 | `Arrays.sort` leaves the array holding the sorted squares |
| Abilities.MergeRuns | BaNG/src/bn/Ability.java:249-257 | the merge loop leaves the merged squares in the first `i` slots |
| Abilities.MergeOne | BaNG/src/bn/Ability.java:251-256 | one step adds `out[j]` into `out[i-1]` when their positions agree and otherwise stores it in `out[i]`; later slots are untouched |
| Abilities.MergedGrow | BaNG/src/bn/Ability.java:253-256 | the merge of one more square adds its value to the last kept square when their positions agree and appends it otherwise |
| Abilities.MergeAdvance | BaNG/src/bn/Ability.java:251-256 | one step of the loop turns the first `i` slots from a merge into its successor, as `MergedGrow` describes it |
| Abilities.MergeLoopStep | BaNG/src/bn/Ability.java:251-256 | one step of the loop keeps the first `i` slots equal to the merge of the squares read so far and leaves the unread squares alone |
| Abilities.CopyPrefix | BaNG/src/bn/Ability.java:259-264 | `out2` is a new array of the first `i` squares |
| Abilities.Convolution | BaNG/src/bn/Ability.java:240-265 | the method fails as `Convolve` does and otherwise returns a new array holding `Convolve`'s squares |
| Abilities.NonEmptyInputs | BaNG/src/bn/Ability.java:242 | pairs exist only when both areas are non-empty |
| Abilities.Empty | BaNG/src/bn/Ability.java:242 | no pairs means an empty area |
| Gif.CeilSqrt | BaNG/src/util/GifAnimation.java:35 | the grid side is the smallest `g` with `g * g` at least the number of cells |
| Gif.CeilSqrtFrom | BaNG/src/util/GifAnimation.java:35 | counting up from a side still too small reaches that smallest side |
| Gif.BoundsAdd | BaNG/src/util/GifAnimation.java:184-190 | updating `left`, `top`, `right` and `bottom` at a differing pixel later in the scan gives the bounds of the differing pixels seen so far, with that pixel added |
| Gif.SummaryStep | BaNG/src/util/GifAnimation.java:180-191 | one pass of the inner loop keeps the four variables the bounds of the differing pixels scanned |
| Gif.ScanRowSummary | BaNG/src/util/GifAnimation.java:180-192 | the inner loop over a row keeps them so |
| Gif.ScanRowsSummary | BaNG/src/util/GifAnimation.java:179-193 | after the outer loop's first `y` rows they are the bounds of the differing pixels of those rows |
| Gif.NextKept | BaNG/src/util/GifAnimation.java:96-103 | `holdFrame` of a kept frame is the next kept frame, with no kept frame between, or `numFrames` |
| Gif.GifAnimation.constructor | BaNG/src/util/GifAnimation.java:24-37 | the four sizes are stored, and the image is a blank square of tiles with room for one more frame than asked |
| Gif.GifAnimation.New | BaNG/src/util/GifAnimation.java:24-37 | the constructor fails exactly when a size is not positive, with the message of the first failing check in order, and otherwise makes a valid animation of those sizes |
| Gif.GifAnimation.GetFrame | BaNG/src/util/GifAnimation.java:39-44 | a frame number outside `0 .. numFrames - 1` is refused with "Invalid frame number"; otherwise the tile has the frame's width and height |
| Gif.GifAnimation.GridPositive | BaNG/src/util/GifAnimation.java:35 | the grid is at least 2 wide and holds more cells than there are frames |
| Gif.GifAnimation.TileInside | BaNG/src/util/GifAnimation.java:36-43 | each frame's tile lies inside the image |
| Gif.GifAnimation.TilesDisjoint | BaNG/src/util/GifAnimation.java:42-43 | the tiles of two different frames do not overlap |
| Gif.GifAnimation.Cell | BaNG/src/util/GifAnimation.java:42-43 | a cell of the grid has its column and row within the grid |
| Gif.GifAnimation.Apart | BaNG/src/util/GifAnimation.java:42-43 | two cells of a column lie in different rows |
| Gif.GifAnimation.DiffRectMeaning | BaNG/src/util/GifAnimation.java:169-197 | `findDiffRect` returns `null` exactly when the frame equals the frame before, and otherwise the smallest rectangle around every differing pixel |
| Gif.GifAnimation.FindDiffRect | BaNG/src/util/GifAnimation.java:169-197 | the method returns that rectangle and leaves the image with each pixel of the frame cleared to transparent where it equals the previous frame, all else unchanged |
| Gif.GifAnimation.RowDone | BaNG/src/util/GifAnimation.java:179-180 | the end of one row of the scan leaves the image as the start of the next |
| Gif.GifAnimation.Visit | BaNG/src/util/GifAnimation.java:181-191 | one pixel clears the pixel when it equals its predecessor and otherwise widens the box to include it |
| Gif.GifAnimation.GetImageSequence | BaNG/src/util/GifAnimation.java:88-154 | one image per kept frame, in order, each the list `Schedule` describes of the rectangles found from frame `numFrames - 1` down, on the grid image with every later frame differenced against its untouched predecessor |
| Gif.GifAnimation.DiffFrames | BaNG/src/util/GifAnimation.java:91-104 | the first loop fills `frameRects` with the rectangles, `holdFrame` of each kept frame with the next kept frame, and counts the kept frames |
| Gif.GifAnimation.DiffLoop | BaNG/src/util/GifAnimation.java:96-103 | the loop from the last frame down to frame 1 records every rectangle, the next kept frame of each kept one and their count, and differences every frame above 0 |
| Gif.GifAnimation.Record | BaNG/src/util/GifAnimation.java:97-102 | one pass stores the rectangle and, for a kept frame, links it to the kept frame after it and counts it |
| Gif.GifAnimation.DiffOne | BaNG/src/util/GifAnimation.java:97 | the diff of frame `i` finds the rectangle of frame `i` against the original frame `i - 1` and clears frame `i` |
| Gif.GifAnimation.DiffStep | BaNG/src/util/GifAnimation.java:96-97 | going from the last frame down, differencing frame `i` reads frames `i` and `i - 1` untouched, so the later passes do not change its result |
| Gif.GifAnimation.ListImages | BaNG/src/util/GifAnimation.java:106-152 | the second loop writes the images of the kept frames, in order, with their descriptors, delays, the looping extension on frame 0 and transparency after it |
| Gif.GifAnimation.CountSchedule | BaNG/src/util/GifAnimation.java:94-106 | the images array has exactly `numImages` slots for the kept frames |
| Gif.GifAnimation.ScheduleNext | BaNG/src/util/GifAnimation.java:108-117 | one more frame adds nothing when it is dropped, and otherwise adds its image, moved to its tile and shown until the next kept frame, and is counted |
| Gif.GifAnimation.ScheduleTelescopes | BaNG/src/util/GifAnimation.java:116-117 | the delays of the images up to a frame add up to the time from the start to the next kept frame |
| Gif.GifAnimation.TotalDelayOfSchedule | BaNG/src/util/GifAnimation.java:116-117 | the delays of all images add up to `numFrames * delay / 10`, with no round-off lost |
| Gif.GifAnimation.ElapsedMono | BaNG/src/util/GifAnimation.java:117 | later frames start no earlier |
| Gif.GifAnimation.ScheduleDelays | BaNG/src/util/GifAnimation.java:117-146 | no image has a negative delay |
| Gif.GifAnimation.ScheduleFirst | BaNG/src/util/GifAnimation.java:122-147 | the first image is frame 0 whole at the origin, looping and opaque |
| Gif.GifAnimation.SchedulePrefix | BaNG/src/util/GifAnimation.java:108-152 | the images of earlier frames come first and are not changed by later ones |
| Gif.GifAnimation.OwnerOf | BaNG/src/util/GifAnimation.java:42-43 | a pixel of a frame's tile belongs to that frame |
| Gif.GifAnimation.OwnerTile | BaNG/src/util/GifAnimation.java:36 | every pixel of the image lies in the tile of its frame |

## Left out

- The Swing user interface (`AnimationGrabber`, `AnimationBox`, `ImageGetter`, `AnimationTree`, `BackgroundChoice`) is event handling and layout, with nothing to decode or compute.
- `GameFiles` and file I/O are outside the model. The game's files are a `map` from name to bytes, and `Bitmaps.BitmapCache.Get` takes the lookup `open` as a parameter. That lookup is total, so a texture file that is missing (`GameFiles.open` in `Bitmap.read`, Bitmap.java:76) is not modelled; the timeline readers do model a missing file as FileNotFound. Closing streams in the `finally` blocks is not modelled.
- `Timeline.load` and `Animation.buildIndex` read JSON through `javax.json`. The model folds over already parsed `(package, names)` lists, so the ClassCastException they turn into "Json type error" is not modelled.
- The JSON data loaders (`Text`, `Unit`, `Building`, `Prerequisites`, `Ability.load` and the `TargetSquare` constructor that reads JSON) are thin wrappers over `javax.json`.
- `Float.intBitsToFloat` in `readFloat` is the parameter `toFloat`, because IEEE bit layouts are not modelled. Transforms, alphas and square values are `real`, so floating-point rounding is not modelled.
- `Animation.Frame.getScale` (square root and median), `Ability.adjustDamage` and `DamagePattern` are floating-point code and are not modelled.
- Drawing is not modelled: `Frame.draw`, `Timeline.drawFrame`, `TexturePaint` and `AlphaComposite` construction, `ImageUtil` and `GifFrame`.
- Frames.Frame.Read: `AlphaComposite.getInstance` (Frame.java:77) throws IllegalArgumentException for a vertex alpha below 0, which can come from a negative float in the vertex table. The model's read does not raise it and accepts such a frame.
- `Animation.loadBitmap` and `freeBitmap` fetch and drop the texture for drawing and are not modelled. In `Bitmap` the texture is an opaque token.
- `GifAnimation.write`, `getIndexedImage`, `getWriter` and `copyBackground` are ImageIO and AWT calls. The images the writer receives are a datatype holding the fields the metadata sets.
- `Gif.CeilSqrt`: `(int) Math.ceil(Math.sqrt(n))` is modelled as the exact integer ceiling of the square root, so double rounding is not modelled.
- The `SoftReference` eviction in `Bitmap.get` is driven by the garbage collector. The cache keeps every entry.
- `Timeline.getAllNames` sorts the keys of the index for display and is not modelled.
- The plain getters (`getName`, `getPackageName`, `getBits`, `getTexture`, `getDelay`, `getNumFrames`) return a field and need no contract of their own beyond the class's fields.
- `Frames.Frame.Read`: the fields are assigned only when the whole frame has been read. Java assigns some of them before the loop, so after an error the model promises nothing about the frame's partial state.
- `Animations.AnimFrame.Read`: as for `Frames.Frame.Read`, the partial state after an error is not modelled.
- `Bitmaps.Bitmap.Read`: a `BufferedImage` of positive size always exists here. An image too large for an `int` pixel count or for memory, which Java refuses, is not modelled.
- `Gif.GifAnimation.constructor`: `width * grid` and `height * grid` are unbounded here. An overflowing image size in Java is not modelled.
- `Abilities.FillPairs`: `in1.length * in2.length` is unbounded here. An overflowing array size in Java is not modelled.
- `Abilities.SortSquares`: it sorts by the mathematical order of `compareTo`. Java's `compareTo` subtracts `int`s and disagrees with that order when a difference overflows, so the model is faithful only for coordinates and orders whose differences fit in an `int`; `Abilities.CompareOrder` states that condition.
- `Abilities.Convolution`: Java merges by updating the `TargetSquare` object `out[i-1]` in place, which the array `out` may share with the result. The model uses value squares, so that aliasing is not modelled.
- `Gif.GifAnimation.GetFrame`: it returns the tile's rectangle rather than a `BufferedImage` sub-image sharing its pixels. Its contract states the argument check and the size, and `TileInside` and `TilesDisjoint` state where the tile lies.
- Timelines.Timeline.Read: Java allocates `frames` (Timeline.java:167) before the frame loop and fills it one frame at a time. After a frame that fails, the cached timeline holds that array, partly filled, while the model's `frames` stays null. The model does keep Java's scale: it is set last (Timeline.java:132), so a failure leaves it 0.
- Timelines.Timeline.ReadFrameList: as for `Timelines.Timeline.Read`, the array is installed only after every frame has been read, so the partly filled array Java leaves after a failure is not modelled.
- Animations.Animation.Read: Java allocates `frames` (Animation.java:152) before the frame loop. After a frame that fails, the cached animation holds that array, partly filled, while the model's `frames` stays null.
- Animations.Animation.ReadFrameList: as for `Animations.Animation.Read`, the partly filled array Java leaves after a failure is not modelled.
- Gif.GifAnimation.ListImages: `holdFrame[i] * delay` and `i * delay` (GifAnimation.java:117) are unbounded here. Java wraps them at 32 bits once `numFrames * delay` exceeds 2^31 - 1, which gives other waits, even negative ones. The model is faithful while that product fits in an `int`. It does for the one caller, which passes a delay of 5 and at most 32767 frames, the largest count a `short` holds.
- Gif.GifAnimation.GetImageSequence: the waits are as for `Gif.GifAnimation.ListImages`, faithful while `numFrames * delay` fits in an `int`.
- Gif.GifAnimation.Elapsed: `i * delay / 10` is unbounded, so the 32-bit wrap of the product is not modelled.
- Gif.GifAnimation.ScheduleTelescopes: it holds of the unbounded waits. Java's wrapped waits add up the same way only while `numFrames * delay` fits in an `int`.
- Gif.GifAnimation.TotalDelayOfSchedule: as for `ScheduleTelescopes`, the total is `numFrames * delay / 10` only while that product fits in an `int`.
- Gif.GifAnimation.ScheduleDelays: no wait is negative for the unbounded arithmetic. Java's wrapped product can give a negative wait once `numFrames * delay` exceeds 2^31 - 1.
- JavaLang.ToLowerChar: it lowers the ASCII letters only. Java's `toLowerCase` lowers every Unicode upper-case letter under the default locale, so `"ÄB"` becomes `"äb"` there and `"Äb"` here. Keys with non-ASCII letters are not modelled; the game's names are ASCII.
- JavaLang.ToLowerCase: ASCII only, as for `JavaLang.ToLowerChar`.
- The `compareTo` comment says "ascending y, descending x, ascending order", but the code sorts by descending y, ascending x and descending order. The model follows the code.
