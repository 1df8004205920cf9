/** The few pieces of Java semantics the decoders depend on: nullable
    references as an option, lower-casing of cache keys, the truncating
    integer division and remainder, wrap-around of `int` and `short`
    arithmetic, and the `int` extremes used as bounds sentinels. */
module JavaLang {

  /** A reference that may be null. */
  datatype Option<+T> = None | Some(value: T)

  const INT_MAX: int := 0x7FFF_FFFF
  const INT_MIN: int := -0x8000_0000

  /** `Character.toLowerCase`, on the ASCII letters: `A`..`Z` become
      `a`..`z`, every other character is kept. */
  function ToLowerChar(c: char): (l: char)
    ensures !('A' <= l <= 'Z')
    ensures 'A' <= c <= 'Z' ==> 'a' <= l <= 'z' && l as int - 'a' as int == c as int - 'A' as int
    ensures !('A' <= c <= 'Z') ==> l == c
  {
    if 'A' <= c <= 'Z' then (c as int + 32) as char else c
  }

  /** `String.toLowerCase()`, on the ASCII letters: the result keeps the
      length, holds no upper-case letter, has each upper-case letter of `s`
      as its lower-case letter and every other character as it was. */
  function ToLowerCase(s: string): (r: string)
    ensures |r| == |s|
    ensures forall i :: 0 <= i < |r| ==> !('A' <= r[i] <= 'Z')
    ensures forall i :: 0 <= i < |s| && 'A' <= s[i] <= 'Z' ==>
      'a' <= r[i] <= 'z' && r[i] as int - 'a' as int == s[i] as int - 'A' as int
    ensures forall i :: 0 <= i < |s| && !('A' <= s[i] <= 'Z') ==> r[i] == s[i]
  {
    seq(|s|, i requires 0 <= i < |s| => ToLowerChar(s[i]))
  }

  /** Lower-casing a key twice is lower-casing it once, so a key stored
      lower-cased is found again under its own lower-cased form. */
  lemma ToLowerCaseIdempotent(s: string)
    ensures ToLowerCase(ToLowerCase(s)) == ToLowerCase(s)
  {
  }

  /** Java's `a / b` for `b > 0`: rounds toward zero. */
  function JavaDiv(a: int, b: int): int
    requires b > 0
  {
    if a >= 0 then a / b else -((-a) / b)
  }

  /** Java's `a % b` for `b > 0`: takes the sign of `a`. */
  function JavaRem(a: int, b: int): int
    requires b > 0
  {
    if a >= 0 then a % b else -((-a) % b)
  }

  lemma JavaDivRem(a: int, b: int)
    requires b > 0
    ensures a == b * JavaDiv(a, b) + JavaRem(a, b)
    ensures -b < JavaRem(a, b) < b
    ensures a >= 0 ==> 0 <= JavaRem(a, b)
    ensures a < 0 ==> JavaRem(a, b) <= 0
  {
    if a < 0 {
      var q, r := (-a) / b, (-a) % b;
      assert -a == b * q + r;
    }
  }

  /** The value of an `int` expression: the mathematical result wrapped to
      32 bits two's complement. */
  function Int32(x: int): (r: int)
    ensures INT_MIN <= r <= INT_MAX
  {
    (x - INT_MIN) % 0x1_0000_0000 + INT_MIN
  }

  /** A value that fits in an `int` is its own value. */
  lemma Int32Id(x: int)
    requires INT_MIN <= x <= INT_MAX
    ensures Int32(x) == x
  {
  }

  /** `Int32(x)` differs from `x` by a whole number of 2^32 turns. */
  lemma Int32Offset(x: int) returns (k: int)
    ensures Int32(x) == x + 0x1_0000_0000 * k
  {
    k := -((x - INT_MIN) / 0x1_0000_0000);
  }

  /** Two `int` expressions that agree modulo 2^32 have the same value: the
      wrap-around is a ring homomorphism. */
  lemma Int32Same(a: int, b: int, j: int)
    requires a - b == 0x1_0000_0000 * j
    ensures Int32(a) == Int32(b)
  {
    var ka := Int32Offset(a);
    var kb := Int32Offset(b);
    var n := j + ka - kb;
    assert Int32(a) - Int32(b) == 0x1_0000_0000 * n;
  }

  /** Wrapping the operand of a product by a constant before adding it
      does not change the value of the sum. */
  lemma WrapScaleAdd(v: int, c: int, u: int)
    ensures Int32(v + c * Int32(u)) == Int32(v + c * u)
  {
    var k := Int32Offset(u);
    assert c * Int32(u) == c * u + 0x1_0000_0000 * (c * k);
    Int32Same(v + c * Int32(u), v + c * u, c * k);
  }

  /** The cast `(short) x`: the low 16 bits, two's complement. */
  function Int16(x: int): (r: int)
    ensures -0x8000 <= r <= 0x7FFF
    ensures (r - x) % 0x1_0000 == 0
    ensures -0x8000 <= x <= 0x7FFF ==> r == x
  {
    (x + 0x8000) % 0x1_0000 - 0x8000
  }
}
