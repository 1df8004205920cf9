/** `GridPoint`: the screen position of a square of the isometric battle
    grid.  A grid step along either axis moves the point by `GRID_X`
    horizontally and `GRID_Y` vertically; squares off the central row get a
    shoulder offset.  `GRID_X` = 100 and `GRID_Y` = 50 appear as literals.
    Coordinates are Java `int`s, so every step wraps
    around at 32 bits. */
module Grid {
  import opened JavaLang

  predicate IsInt(v: int)
  {
    INT_MIN <= v <= INT_MAX
  }

  datatype GridPoint = GridPoint(x: int, y: int)

  /** The shoulder offset of row `yg`: a quarter grid step outward on either
      side of the central row. */
  function Shoulder(yg: int): (int, int)
  {
    if yg < 0 then (-25, 13) else if yg > 0 then (25, -12) else (0, 0)
  }

  /** The base position of square (`xg`, `yg`): `GRID_X` = 100 pixels to the
      left and `GRID_Y` = 50 pixels down per step of `xg`, to the left and up
      per step of `yg`. */
  function Base(xg: int, yg: int): (p: GridPoint)
    requires IsInt(xg) && IsInt(yg)
    ensures IsInt(p.x) && IsInt(p.y)
  {
    GridPoint(Int32(-100 * Int32(xg + yg)), Int32(50 * Int32(yg - xg)))
  }

  /** `new GridPoint(xg, yg)`: the base position, then the shoulder of rows
      off the centre, `GRID_X / 4` and `(GRID_Y + 2) / 4` or `GRID_Y / 4`,
      each `int` operation wrapped as Java does. */
  function FromGrid(xg: int, yg: int): (p: GridPoint)
    requires IsInt(xg) && IsInt(yg)
    ensures IsInt(p.x) && IsInt(p.y)
  {
    var b := Base(xg, yg);
    if yg < 0 then GridPoint(Int32(b.x - 100 / 4), Int32(b.y + (50 + 2) / 4))
    else if yg > 0 then GridPoint(Int32(b.x + 100 / 4), Int32(b.y - 50 / 4))
    else b
  }

  /** `new GridPoint(p, x, y)`, which `translate(x, y)` returns: `p` moved by
      `x` and `y` grid steps, with no shoulder offset. */
  function Translate(p: GridPoint, x: int, y: int): (q: GridPoint)
    requires IsInt(p.x) && IsInt(p.y) && IsInt(x) && IsInt(y)
    ensures IsInt(q.x) && IsInt(q.y)
  {
    GridPoint(Int32(p.x - 100 * Int32(x + y)), Int32(p.y + 50 * Int32(y - x)))
  }

  /** The base position wrapped once. */
  lemma BaseValue(xg: int, yg: int)
    requires IsInt(xg) && IsInt(yg)
    ensures Base(xg, yg) == GridPoint(Int32(-100 * (xg + yg)), Int32(50 * (yg - xg)))
  {
    var ks := Int32Offset(xg + yg);
    var kd := Int32Offset(yg - xg);
    Int32Same(-100 * Int32(xg + yg), -100 * (xg + yg), -100 * ks);
    Int32Same(50 * Int32(yg - xg), 50 * (yg - xg), 50 * kd);
  }

  /** Adding a shoulder coordinate to a wrapped base coordinate. */
  lemma ShoulderValue(v: int, s: int)
    ensures Int32(Int32(v) + s) == Int32(v + s)
  {
    var k := Int32Offset(v);
    Int32Same(Int32(v) + s, v + s, k);
  }

  /** The position of a square is the base position -100·(xg+yg),
      50·(yg-xg) plus the shoulder of its row, wrapped once. */
  lemma FromGridValue(xg: int, yg: int)
    requires IsInt(xg) && IsInt(yg)
    ensures var (sx, sy) := Shoulder(yg);
      FromGrid(xg, yg) == GridPoint(Int32(-100 * (xg + yg) + sx), Int32(50 * (yg - xg) + sy))
  {
    var b := Base(xg, yg);
    assert b == GridPoint(Int32(-100 * (xg + yg)), Int32(50 * (yg - xg))) by {
      BaseValue(xg, yg);
    }
    var (sx, sy) := Shoulder(yg);
    assert Int32(b.x + sx) == Int32(-100 * (xg + yg) + sx) by {
      ShoulderValue(-100 * (xg + yg), sx);
    }
    assert Int32(b.y + sy) == Int32(50 * (yg - xg) + sy) by {
      ShoulderValue(50 * (yg - xg), sy);
    }
    assert FromGrid(xg, yg) == GridPoint(Int32(b.x + sx), Int32(b.y + sy));
  }

  /** While the exact values fit in an `int` there is no wrap at all. */
  lemma FromGridExact(xg: int, yg: int)
    requires -10_000_000 <= xg <= 10_000_000 && -10_000_000 <= yg <= 10_000_000
    ensures var (sx, sy) := Shoulder(yg);
      FromGrid(xg, yg) == GridPoint(-100 * (xg + yg) + sx, 50 * (yg - xg) + sy)
  {
    FromGridValue(xg, yg);
    var (sx, sy) := Shoulder(yg);
    Int32Id(-100 * (xg + yg) + sx);
    Int32Id(50 * (yg - xg) + sy);
  }

  /** `translate` moves by exactly -100·(x+y), 50·(y-x), wrapped once. */
  lemma TranslateValue(p: GridPoint, x: int, y: int)
    requires IsInt(p.x) && IsInt(p.y) && IsInt(x) && IsInt(y)
    ensures Translate(p, x, y) == GridPoint(Int32(p.x - 100 * (x + y)), Int32(p.y + 50 * (y - x)))
  {
    var ks := Int32Offset(x + y);
    var kd := Int32Offset(y - x);
    Int32Same(p.x - 100 * Int32(x + y), p.x - 100 * (x + y), -100 * ks);
    Int32Same(p.y + 50 * Int32(y - x), p.y + 50 * (y - x), 50 * kd);
  }

  /** `translate(0, 0)` leaves the point where it is. */
  lemma TranslateZero(p: GridPoint)
    requires IsInt(p.x) && IsInt(p.y)
    ensures Translate(p, 0, 0) == p
  {
  }

  /** Two translations are one translation by the (`int`) sums of the
      steps. */
  lemma TranslateCompose(p: GridPoint, a: int, b: int, c: int, d: int)
    requires IsInt(p.x) && IsInt(p.y) && IsInt(a) && IsInt(b) && IsInt(c) && IsInt(d)
    ensures Translate(Translate(p, a, b), c, d) == Translate(p, Int32(a + c), Int32(b + d))
  {
    var s, t := Int32(a + c), Int32(b + d);
    TwoSteps(p, a, b, c, d);
    TranslateValue(p, s, t);
    ComposeX(p.x, a, b, c, d, s, t);
    ComposeY(p.y, a, b, c, d, s, t);
  }

  /** Two translations, each wrapped once. */
  lemma TwoSteps(p: GridPoint, a: int, b: int, c: int, d: int)
    requires IsInt(p.x) && IsInt(p.y) && IsInt(a) && IsInt(b) && IsInt(c) && IsInt(d)
    ensures Translate(Translate(p, a, b), c, d)
         == GridPoint(Int32(Int32(p.x - 100 * (a + b)) - 100 * (c + d)), Int32(Int32(p.y + 50 * (b - a)) + 50 * (d - c)))
  {
    TranslateValue(p, a, b);
    TranslateValue(Translate(p, a, b), c, d);
  }

  /** The x coordinate of `TranslateCompose`. */
  lemma ComposeX(v: int, a: int, b: int, c: int, d: int, s: int, t: int)
    requires s == Int32(a + c) && t == Int32(b + d)
    ensures Int32(Int32(v - 100 * (a + b)) - 100 * (c + d)) == Int32(v - 100 * (s + t))
  {
    var k0 := Int32Offset(v - 100 * (a + b));
    var k1 := Int32Offset(a + c);
    var k2 := Int32Offset(b + d);
    Int32Same(Int32(v - 100 * (a + b)) - 100 * (c + d), v - 100 * (s + t), k0 + 100 * (k1 + k2));
  }

  /** The y coordinate of `TranslateCompose`. */
  lemma ComposeY(v: int, a: int, b: int, c: int, d: int, s: int, t: int)
    requires s == Int32(a + c) && t == Int32(b + d)
    ensures Int32(Int32(v + 50 * (b - a)) + 50 * (d - c)) == Int32(v + 50 * (t - s))
  {
    var k0 := Int32Offset(v + 50 * (b - a));
    var k1 := Int32Offset(a + c);
    var k2 := Int32Offset(b + d);
    Int32Same(Int32(v + 50 * (b - a)) + 50 * (d - c), v + 50 * (t - s), k0 - 50 * (k2 - k1));
  }

  /** A square of the central row is the origin translated along the x
      axis. */
  lemma CentralRow(xg: int)
    requires IsInt(xg)
    ensures FromGrid(xg, 0) == Translate(FromGrid(0, 0), xg, 0)
  {
    FromGridValue(xg, 0);
    FromGridValue(0, 0);
    Int32Id(0);
    TranslateValue(FromGrid(0, 0), xg, 0);
  }
}
