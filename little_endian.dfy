/** The little-endian byte reader every decoder is built on.

    The byte source is a finite sequence of unsigned bytes and a cursor.
    Each read either returns its value and moves the cursor past the bytes it
    used, or fails with EOF; a short read is never filled with zeros.  The
    pure functions `...At(s, p)` say what a read at position `p` yields and
    where the cursor ends; the class `LittleEndianInputStream` is the stream
    object, whose methods are proved to agree with them. */
module LittleEndian {
  import opened Errors

  /** An unsigned byte as the stream delivers it (`read()` returns 0..255). */
  type byte = b: int | 0 <= b < 256

  /** A Java `byte`: the signed view in which `buf` holds the bytes it read. */
  type jbyte = b: int | -128 <= b < 128

  function Signed(b: byte): (v: jbyte)
    ensures v % 256 == b
    ensures v == 0 <==> b == 0
  {
    if b < 128 then b else b - 256
  }

  function SignedBytes(s: seq<byte>): (r: seq<jbyte>)
    ensures |r| == |s|
    ensures forall i :: 0 <= i < |s| ==> r[i] == Signed(s[i])
  {
    seq(|s|, i requires 0 <= i < |s| => Signed(s[i]))
  }

  /** `(buf[0] & 0xff) | (buf[1] << 8)`: the low byte unsigned, the high byte
      sign-extended. */
  function ShortValue(b0: byte, b1: byte): (v: int)
    ensures -32768 <= v <= 32767
    ensures v < 0 <==> b1 >= 128
  {
    b0 + 256 * Signed(b1)
  }

  /** `(buf[0] & 0xff) | ((buf[1] & 0xff) << 8) | ((buf[2] & 0xff) << 16) |
      (buf[3] << 24)`: a little-endian 32-bit two's-complement integer. */
  function IntValue(b0: byte, b1: byte, b2: byte, b3: byte): (v: int)
    ensures -0x8000_0000 <= v < 0x8000_0000
    ensures v == b0 + 0x100 * b1 + 0x1_0000 * b2 + 0x100_0000 * b3
                 - (if b3 >= 128 then 0x1_0000_0000 else 0)
  {
    b0 + 256 * b1 + 65536 * b2 + 16777216 * Signed(b3)
  }

  /** The two bytes a 16-bit value is stored as, low byte first. */
  function ShortBytes(v: int): seq<byte>
    requires -32768 <= v <= 32767
  {
    [v % 256, (v / 256) % 256]
  }

  /** The four bytes a 32-bit value is stored as, low byte first. */
  function IntBytes(v: int): seq<byte>
    requires -0x8000_0000 <= v < 0x8000_0000
  {
    [v % 256, (v / 0x100) % 256, (v / 0x1_0000) % 256, (v / 0x100_0000) % 256]
  }

  /** `readByte`: the next byte, or EOF at the end of the stream. */
  function ReadByteAt(s: seq<byte>, p: nat): Result<(byte, nat)>
  {
    if p < |s| then Ok((s[p], p + 1)) else Err(EOF)
  }

  /** `readShort`: two bytes or EOF. */
  function ReadShortAt(s: seq<byte>, p: nat): (r: Result<(int, nat)>)
    ensures r.Ok? <==> p + 2 <= |s|
    ensures r.Err? ==> r.error == EOF
    ensures r.Ok? ==> r.value.1 == p + 2 && -32768 <= r.value.0 <= 32767
  {
    if p + 2 <= |s| then Ok((ShortValue(s[p], s[p + 1]), p + 2)) else Err(EOF)
  }

  /** `readInt`: four bytes or EOF. */
  function ReadIntAt(s: seq<byte>, p: nat): (r: Result<(int, nat)>)
    ensures r.Ok? <==> p + 4 <= |s|
    ensures r.Err? ==> r.error == EOF
    ensures r.Ok? ==> r.value.1 == p + 4 && -0x8000_0000 <= r.value.0 < 0x8000_0000
  {
    if p + 4 <= |s| then Ok((IntValue(s[p], s[p + 1], s[p + 2], s[p + 3]), p + 4)) else Err(EOF)
  }

  /** `readFloat`: four bytes read as an `int`, whose bits `toFloat` (the
      `Float.intBitsToFloat` of the platform) turns into a number. */
  function ReadFloatAt(s: seq<byte>, p: nat, toFloat: int -> real): (r: Result<(real, nat)>)
    ensures r.Ok? <==> p + 4 <= |s|
    ensures r.Err? ==> r.error == EOF
    ensures r.Ok? ==> r.value == (toFloat(IntValue(s[p], s[p + 1], s[p + 2], s[p + 3])), p + 4)
  {
    var (bits, q) :- ReadIntAt(s, p);
    Ok((toFloat(bits), q))
  }

  /** The index of the first NUL byte, or the length if there is none. */
  function NulIndex(bs: seq<byte>): (n: nat)
    ensures n <= |bs|
    ensures n < |bs| ==> bs[n] == 0
    ensures forall i :: 0 <= i < n ==> bs[i] != 0
  {
    if bs == [] || bs[0] == 0 then 0 else 1 + NulIndex(bs[1..])
  }

  /** US-ASCII decoding of one byte: 0..127 is that character, anything
      else (a negative Java byte) is the replacement character U+FFFD. */
  function AsciiChar(b: jbyte): (c: char)
    ensures b == 0 <==> c == 0 as char
  {
    if b >= 0 then b as char else '�'
  }

  function Ascii(bs: seq<jbyte>): (r: string)
    ensures |r| == |bs|
    ensures forall i :: 0 <= i < |bs| ==> r[i] == AsciiChar(bs[i])
  {
    seq(|bs|, i requires 0 <= i < |bs| => AsciiChar(bs[i]))
  }

  /** The string a fixed-width NUL-terminated field holds. */
  function CString(bs: seq<byte>): string
  {
    Ascii(SignedBytes(bs[..NulIndex(bs)]))
  }

  /** `readCString(len)`: exactly `len` bytes or EOF. */
  function ReadCStringAt(s: seq<byte>, p: nat, len: nat): (r: Result<(string, nat)>)
    ensures r.Ok? <==> p + len <= |s|
    ensures r.Err? ==> r.error == EOF
    ensures r.Ok? ==> r.value.1 == p + len
  {
    if p + len <= |s| then Ok((CString(s[p .. p + len]), p + len)) else Err(EOF)
  }

  /** `r` is what a method returned and `pos` where it left the cursor; they
      agree with the specification `spec` of the same read.  After a failure
      the cursor is not constrained: every caller gives up on the stream. */
  ghost predicate Follows<T>(r: Result<T>, spec: Result<(T, nat)>, pos: nat)
  {
    match spec
    case Ok(v) => r == Ok(v.0) && pos == v.1
    case Err(e) => r == Err(e)
  }

  /** A result of a repeated read with `xs` put in front of its values:
      how the loops of the decoders relate what they have read so far to what
      is still to come. */
  function Prepend<T>(xs: seq<T>, r: Result<(seq<T>, nat)>): Result<(seq<T>, nat)>
  {
    match r
    case Ok(v) => Ok((xs + v.0, v.1))
    case Err(e) => Err(e)
  }

  lemma PrependNil<T>(r: Result<(seq<T>, nat)>)
    ensures Prepend([], r) == r
  {
    if r.Ok? {
      assert [] + r.value.0 == r.value.0;
    }
  }

  lemma PrependTwice<T>(xs: seq<T>, ys: seq<T>, r: Result<(seq<T>, nat)>)
    ensures Prepend(xs, Prepend(ys, r)) == Prepend(xs + ys, r)
  {
    if r.Ok? {
      assert xs + (ys + r.value.0) == (xs + ys) + r.value.0;
    }
  }

  /** `n` reads of one kind one after the other, each `step(q)` reading an
      item at position `q`: the shape of every counted loop of the decoders. */
  function Repeat<T>(step: nat -> Result<(T, nat)>, p: nat, n: nat): (r: Result<(seq<T>, nat)>)
    ensures r.Ok? ==> |r.value.0| == n
    decreases n
  {
    if n == 0 then Ok(([], p))
    else
      var (x, q) :- step(p);
      Prepend([x], Repeat(step, q, n - 1))
  }

  /** `n` reads are the first `k`, then the other `n - k`. */
  lemma {:induction false} RepeatSplit<T>(step: nat -> Result<(T, nat)>, p: nat, n: nat, k: nat)
    requires k <= n
    ensures Repeat(step, p, k).Err? ==> Repeat(step, p, n) == Err(Repeat(step, p, k).error)
    ensures Repeat(step, p, k).Ok? ==>
      var (a, q) := Repeat(step, p, k).value;
      Repeat(step, p, n) == Prepend(a, Repeat(step, q, n - k))
    decreases k
  {
    if k == 0 {
      PrependNil(Repeat(step, p, n));
    } else if step(p).Ok? {
      var (x, q) := step(p).value;
      RepeatSplit(step, q, n - 1, k - 1);
      if Repeat(step, q, k - 1).Ok? {
        var (a, q') := Repeat(step, q, k - 1).value;
        PrependTwice([x], a, Repeat(step, q', n - k));
      }
    }
  }

  /** Once `k` of `n` items were read as `a`, up to `q`: the next read
      extends them by one, and its failure is the failure of all `n`. */
  lemma RepeatNext<T>(step: nat -> Result<(T, nat)>, p0: nat, k: nat, n: nat, a: seq<T>, q: nat)
    requires k < n && Repeat(step, p0, k) == Ok((a, q))
    ensures step(q).Err? ==> Repeat(step, p0, n) == Err(step(q).error)
    ensures step(q).Ok? ==> Repeat(step, p0, k + 1) == Ok((a + [step(q).value.0], step(q).value.1))
  {
    RepeatSplit(step, p0, n, k);
    RepeatSplit(step, p0, k + 1, k);
    if step(q).Ok? {
      var (x, q') := step(q).value;
      assert Repeat(step, q', 0) == Ok(([], q'));
      assert Repeat(step, q, 1) == Ok(([x] + [], q'));
      assert [x] + [] == [x];
    }
  }

  /** `n` reads of a `w`-byte item that fails only at the end of the data:
      they succeed exactly when `w · n` bytes remain, item `i` is the one at
      `p + w · i`, and a failure is EOF. */
  lemma {:induction false} RepeatFixed<T>(step: nat -> Result<(T, nat)>, len: nat, w: nat, p: nat, n: nat)
    requires forall q: nat :: step(q).Ok? <==> q + w <= len
    requires forall q: nat :: step(q).Err? ==> step(q).error == EOF
    requires forall q: nat :: step(q).Ok? ==> step(q).value.1 == q + w
    requires p <= len
    ensures Repeat(step, p, n).Ok? <==> p + w * n <= len
    ensures Repeat(step, p, n).Err? ==> Repeat(step, p, n).error == EOF
    ensures Repeat(step, p, n).Ok? ==> Repeat(step, p, n).value.1 == p + w * n
    ensures Repeat(step, p, n).Ok? ==>
      forall i :: 0 <= i < n ==> step(p + w * i).Ok? && Repeat(step, p, n).value.0[i] == step(p + w * i).value.0
  {
    FixedRun(step, len, w, p, n);
    FixedItems(step, w, p, n);
  }

  /** Where a run of fixed-width reads ends, and when it fails. */
  lemma {:induction false} FixedRun<T>(step: nat -> Result<(T, nat)>, len: nat, w: nat, p: nat, n: nat)
    requires forall q: nat :: step(q).Ok? <==> q + w <= len
    requires forall q: nat :: step(q).Err? ==> step(q).error == EOF
    requires forall q: nat :: step(q).Ok? ==> step(q).value.1 == q + w
    requires p <= len
    ensures Repeat(step, p, n).Ok? <==> p + w * n <= len
    ensures Repeat(step, p, n).Err? ==> Repeat(step, p, n).error == EOF
    ensures Repeat(step, p, n).Ok? ==> Repeat(step, p, n).value.1 == p + w * n
    decreases n
  {
    if n > 0 {
      Offset(p, w, n);
      var first := step(p);
      if first.Ok? {
        assert first.value.1 == p + w;
        FixedRun(step, len, w, p + w, n - 1);
        assert Repeat(step, p, n) == Prepend([first.value.0], Repeat(step, p + w, n - 1));
      } else {
        MulNonNeg(w, n - 1);
        assert Repeat(step, p, n) == Err(first.error);
      }
    }
  }

  /** Item `i` of a successful run of fixed-width reads is the read at
      `p + w · i`. */
  lemma {:induction false} FixedItems<T>(step: nat -> Result<(T, nat)>, w: nat, p: nat, n: nat)
    requires forall q: nat :: step(q).Ok? ==> step(q).value.1 == q + w
    ensures Repeat(step, p, n).Ok? ==>
      forall i :: 0 <= i < n ==> step(p + w * i).Ok? && Repeat(step, p, n).value.0[i] == step(p + w * i).value.0
    decreases n
  {
    if n > 0 && step(p).Ok? {
      var x := step(p).value.0;
      assert step(p).value.1 == p + w;
      FixedItems(step, w, p + w, n - 1);
      var rest := Repeat(step, p + w, n - 1);
      assert Repeat(step, p, n) == Prepend([x], rest);
      if rest.Ok? {
        var xs := Repeat(step, p, n).value.0;
        assert xs == [x] + rest.value.0;
        forall i | 0 <= i < n ensures step(p + w * i).Ok? && xs[i] == step(p + w * i).value.0 {
          if i > 0 {
            Offset(p, w, i);
            assert xs[i] == rest.value.0[i - 1];
          }
        }
      }
    }
  }

  /** Item `i` of a run starting at `p` is item `i - 1` of the run after it. */
  lemma Offset(p: nat, w: nat, i: nat)
    requires i > 0
    ensures p + w + w * (i - 1) == p + w * i
  {
  }

  lemma MulNonNeg(w: nat, k: nat)
    ensures w * k >= 0
  {
  }

  /** `n` reads of items that each take `w` bytes end `w · n` bytes on. */
  lemma {:induction false} RepeatAdvance<T>(step: nat -> Result<(T, nat)>, w: nat, p: nat, n: nat)
    requires forall q: nat :: step(q).Ok? ==> step(q).value.1 == q + w
    ensures Repeat(step, p, n).Ok? ==> Repeat(step, p, n).value.1 == p + w * n
    decreases n
  {
    if n > 0 && step(p).Ok? {
      RepeatAdvance(step, w, p + w, n - 1);
      assert w * n == w + w * (n - 1);
    }
  }

  /** Two kinds of item that take the same bytes and fail alike, the items
      of `step` being those of `other` seen through `f`: `n` of them agree
      the same way. */
  lemma {:induction false} RepeatAlike<T, U>(step: nat -> Result<(T, nat)>, other: nat -> Result<(U, nat)>,
                                             f: U -> T, p: nat, n: nat)
    requires forall q: nat :: step(q).Ok? <==> other(q).Ok?
    requires forall q: nat :: step(q).Err? ==> step(q).error == other(q).error
    requires forall q: nat :: step(q).Ok? ==> step(q).value == (f(other(q).value.0), other(q).value.1)
    ensures Repeat(step, p, n).Ok? <==> Repeat(other, p, n).Ok?
    ensures Repeat(step, p, n).Err? ==> Repeat(step, p, n).error == Repeat(other, p, n).error
    ensures Repeat(step, p, n).Ok? ==>
      && Repeat(step, p, n).value.1 == Repeat(other, p, n).value.1
      && forall i :: 0 <= i < n ==> Repeat(step, p, n).value.0[i] == f(Repeat(other, p, n).value.0[i])
    decreases n
  {
    if n > 0 && step(p).Ok? {
      var (x, q) := step(p).value;
      RepeatAlike(step, other, f, q, n - 1);
      var a, b := Repeat(step, q, n - 1), Repeat(other, q, n - 1);
      assert Repeat(step, p, n) == Prepend([x], a);
      assert Repeat(other, p, n) == Prepend([other(p).value.0], b);
      if a.Ok? {
        var xs, ys := Repeat(step, p, n).value.0, Repeat(other, p, n).value.0;
        forall i | 1 <= i < n ensures xs[i] == f(ys[i]) {
          assert xs[i] == a.value.0[i - 1] && ys[i] == b.value.0[i - 1];
        }
      }
    }
  }

  /** A property every single read promises holds of every item of `n`. */
  lemma {:induction false} RepeatEach<T>(step: nat -> Result<(T, nat)>, P: T -> bool, p: nat, n: nat)
    requires forall q: nat :: step(q).Ok? ==> P(step(q).value.0)
    ensures Repeat(step, p, n).Ok? ==> forall i :: 0 <= i < n ==> P(Repeat(step, p, n).value.0[i])
    decreases n
  {
    if n > 0 && step(p).Ok? {
      var q := step(p).value.1;
      RepeatEach(step, P, q, n - 1);
      if Repeat(step, q, n - 1).Ok? {
        var xs := Repeat(step, p, n).value.0;
        assert xs == [step(p).value.0] + Repeat(step, q, n - 1).value.0;
        assert forall i :: 1 <= i < n ==> xs[i] == Repeat(step, q, n - 1).value.0[i - 1];
      }
    }
  }

  lemma ShortRoundTrip(v: int)
    requires -32768 <= v <= 32767
    ensures ReadShortAt(ShortBytes(v), 0) == Ok((v, 2))
  {
    var bs := ShortBytes(v);
    var q := v / 256;
    assert -128 <= q < 128;
    assert Signed(bs[1]) == q;
  }

  /** A short also determines its bytes: the encoding is a bijection. */
  lemma ShortBytesOfRead(s: seq<byte>, p: nat)
    requires ReadShortAt(s, p).Ok?
    ensures ShortBytes(ReadShortAt(s, p).value.0) == s[p .. p + 2]
  {
    var v := ShortValue(s[p], s[p + 1]);
    assert v / 256 == Signed(s[p + 1]);
  }

  lemma IntRoundTrip(v: int)
    requires -0x8000_0000 <= v < 0x8000_0000
    ensures ReadIntAt(IntBytes(v), 0) == Ok((v, 4))
  {
    var bs := IntBytes(v);
    var q1, q2, q3 := v / 0x100, v / 0x1_0000, v / 0x100_0000;
    assert q2 == q1 / 0x100;
    assert q3 == q2 / 0x100;
    assert -128 <= q3 < 128;
    assert Signed(bs[3]) == q3;
  }

  lemma IntBytesOfRead(s: seq<byte>, p: nat)
    requires ReadIntAt(s, p).Ok?
    ensures IntBytes(ReadIntAt(s, p).value.0) == s[p .. p + 4]
  {
    var b0, b1, b2, b3 := s[p], s[p + 1], s[p + 2], s[p + 3];
    var w3: int := Signed(b3);
    var w2 := b2 + 0x100 * w3;
    var w1 := b1 + 0x100 * w2;
    var v := b0 + 0x100 * w1;
    assert v == IntValue(b0, b1, b2, b3);
    DivStep(b0, w1);
    DivStep(b1, w2);
    DivStep(b2, w3);
    DivTwice(v);
    DivTwice(v / 0x100);
  }

  lemma DivStep(a: int, b: int)
    requires 0 <= a < 0x100
    ensures (a + 0x100 * b) / 0x100 == b && (a + 0x100 * b) % 0x100 == a
  {
  }

  lemma DivTwice(v: int)
    ensures v / 0x1_0000 == (v / 0x100) / 0x100
    ensures v / 0x100_0000 == (v / 0x1_0000) / 0x100
  {
  }

  /** A fixed-width string field: the bytes before its first NUL, or all of
      them, never longer than the field and never holding a NUL. */
  lemma CStringShape(bs: seq<byte>)
    ensures |CString(bs)| == NulIndex(bs) <= |bs|
    ensures forall i :: 0 <= i < |CString(bs)| ==> CString(bs)[i] != 0 as char
    ensures forall i :: 0 <= i < |CString(bs)| ==> CString(bs)[i] == AsciiChar(Signed(bs[i]))
    ensures (forall i :: 0 <= i < |bs| ==> bs[i] != 0) ==> |CString(bs)| == |bs|
  {
  }

  /** The reader of the source: `data` is the byte sequence it delivers, `pos`
      the number of bytes consumed, and `buf` the scratch array its bulk reads
      copy into (Java bytes, signed). */
  class LittleEndianInputStream {
    const data: seq<byte>
    var pos: nat
    var buf: seq<jbyte>

    ghost predicate Valid()
      reads this
    {
      pos <= |data| && |buf| >= 4
    }

    /** `LittleEndianInputStream(in)`: a 4-byte buffer. */
    constructor (data: seq<byte>)
      ensures Valid() && this.data == data && pos == 0 && |buf| == 4
    {
      this.data := data;
      pos := 0;
      buf := [0, 0, 0, 0];
    }

    /** `LittleEndianInputStream(in, len)`: a buffer of `len` bytes, but at
        least 4. */
    constructor WithBuffer(data: seq<byte>, len: int)
      ensures Valid() && this.data == data && pos == 0
      ensures |buf| == if len < 4 then 4 else len
    {
      var n := len;
      if n < 4 {
        n := 4;
      }
      this.data := data;
      pos := 0;
      buf := seq(n, _ => 0);
    }

    /** `read(buf, 0, n)` of the buffered stream: copies as many of the next
        `n` bytes as remain into the front of `buf` and returns how many it
        copied, or -1 when `n > 0` and nothing remains. */
    method Read(n: nat) returns (got: int)
      requires Valid() && n <= |buf|
      modifies this
      ensures Valid() && |buf| == old(|buf|)
      ensures got == n <==> old(pos) + n <= |data|
      ensures got == n ==> pos == old(pos) + n && buf[..n] == SignedBytes(data[old(pos) .. pos])
    {
      var k := if pos + n <= |data| then n else |data| - pos;
      buf := SignedBytes(data[pos .. pos + k]) + buf[k..];
      pos := pos + k;
      got := if k == 0 && n > 0 then -1 else k;
    }

    method ReadByte() returns (r: Result<byte>)
      requires Valid()
      modifies this
      ensures Valid() && buf == old(buf)
      ensures Follows(r, ReadByteAt(data, old(pos)), pos)
      ensures r.Ok? ==> 0 <= r.value <= 255
      ensures r.Err? <==> old(pos) == |data|
    {
      if pos < |data| {
        r := Ok(data[pos]);
        pos := pos + 1;
      } else {
        r := Err(EOF);
      }
    }

    method ReadShort() returns (r: Result<int>)
      requires Valid()
      modifies this
      ensures Valid() && |buf| == old(|buf|)
      ensures Follows(r, ReadShortAt(data, old(pos)), pos)
    {
      ghost var p0 := pos;
      var got := Read(2);
      if got != 2 {
        return Err(EOF);
      }
      assert buf[..2] == SignedBytes(data[p0 .. p0 + 2]);
      assert buf[0] == Signed(data[p0]) && buf[1] == Signed(data[p0 + 1]);
      // buf[0] & 0xff is the byte unsigned; buf[1] << 8 keeps its sign, and
      // the two have no bit in common, so | adds them.
      r := Ok((buf[0] as int) % 256 + (buf[1] as int) * 256);
    }

    method ReadInt() returns (r: Result<int>)
      requires Valid()
      modifies this
      ensures Valid() && |buf| == old(|buf|)
      ensures Follows(r, ReadIntAt(data, old(pos)), pos)
    {
      ghost var p0 := pos;
      var got := Read(4);
      if got != 4 {
        return Err(EOF);
      }
      assert buf[..4] == SignedBytes(data[p0 .. p0 + 4]);
      assert buf[0] == Signed(data[p0]) && buf[1] == Signed(data[p0 + 1])
          && buf[2] == Signed(data[p0 + 2]) && buf[3] == Signed(data[p0 + 3]);
      r := Ok((buf[0] as int) % 256 + ((buf[1] as int) % 256) * 0x100
             + ((buf[2] as int) % 256) * 0x1_0000 + (buf[3] as int) * 0x100_0000);
      assert r.value == IntValue(data[p0], data[p0 + 1], data[p0 + 2], data[p0 + 3]);
    }

    /** `readFloat`: `readInt`, reinterpreted by `toFloat`. */
    method ReadFloat(toFloat: int -> real) returns (r: Result<real>)
      requires Valid()
      modifies this
      ensures Valid() && |buf| == old(|buf|)
      ensures Follows(r, ReadFloatAt(data, old(pos), toFloat), pos)
    {
      var bits :- ReadInt();
      r := Ok(toFloat(bits));
    }

    /** `readCString(len)`: grows the buffer to `len` if needed, reads exactly
        `len` bytes, and decodes those before the first NUL. */
    method ReadCString(len: nat) returns (r: Result<string>)
      requires Valid()
      modifies this
      ensures Valid()
      ensures |buf| == if len > old(|buf|) then len else old(|buf|)
      ensures Follows(r, ReadCStringAt(data, old(pos), len), pos)
    {
      if len > |buf| {
        buf := seq(len, _ => 0);
      }
      ghost var p0 := pos;
      var got := Read(len);
      if got != len {
        return Err(EOF);
      }
      var n := 0;
      while n < len && buf[n] != 0
        invariant 0 <= n <= len
        invariant forall i :: 0 <= i < n ==> buf[i] != 0
      {
        n := n + 1;
      }
      r := Ok(Ascii(buf[..n]));
      ScannedField(buf, data[p0 .. pos], n);
    }
  }

  /** The scan of the buffer for its first NUL, which stops at `n`, finds
      the string of the field the buffer holds. */
  lemma ScannedField(buf: seq<jbyte>, field: seq<byte>, n: nat)
    requires |field| <= |buf| && buf[..|field|] == SignedBytes(field)
    requires n <= |field| && forall i :: 0 <= i < n ==> buf[i] != 0
    requires n < |field| ==> buf[n] == 0
    ensures Ascii(buf[..n]) == CString(field)
  {
    forall i | 0 <= i < n
      ensures field[i] != 0
    {
      assert buf[..|field|][i] == Signed(field[i]);
    }
    if n < |field| {
      assert buf[..|field|][n] == Signed(field[n]);
    }
    assert NulIndex(field) == n;
    assert buf[..n] == SignedBytes(field[..n]);
  }
}
