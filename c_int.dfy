/**
 * The C integer semantics the two drivers depend on: fixed-width integer
 * types, the narrowing conversions (two's complement, as the ARM kernel
 * compiler performs them), unsigned 32-bit wrap-around and division that
 * truncates toward zero.
 */
module CInt {

  const Pow16: int := 0x1_0000
  const Pow32: int := 0x1_0000_0000

  /** `short` */
  type Int16 = x: int | -0x8000 <= x < 0x8000
  /** `int` */
  type Int32 = x: int | -0x8000_0000 <= x < 0x8000_0000
  /** `u32` */
  type U32 = x: int | 0 <= x < 0x1_0000_0000
  /** `u8`, as the bus transfers it */
  type Byte = bv8

  /** Conversion of an int to `short`: the value's residue modulo 2^16 that lies in the signed range. */
  function ToInt16(v: int): (r: Int16)
    ensures (r - v) % Pow16 == 0
    ensures -0x8000 <= v < 0x8000 ==> r == v
  {
    var m := v % Pow16;
    if m < 0x8000 then m else m - Pow16
  }

  /** Conversion of a value to `int`: its residue modulo 2^32 that lies in the signed range. */
  function ToInt32(v: int): (r: Int32)
    ensures (r - v) % Pow32 == 0
    ensures -0x8000_0000 <= v < 0x8000_0000 ==> r == v
  {
    var m := v % Pow32;
    if m < 0x8000_0000 then m else m - Pow32
  }

  function Abs(a: int): nat
  {
    if a < 0 then -a else a
  }

  /** C's `a / d` for a positive divisor: the quotient truncated toward zero. */
  function TruncDiv(a: int, d: int): (q: int)
    requires d > 0
    ensures a >= 0 ==> q >= 0
    ensures a <= 0 ==> q <= 0
    ensures Abs(q) * d <= Abs(a) < (Abs(q) + 1) * d
  {
    if a >= 0 then
      DivBounds(a, d);
      a / d
    else
      DivBounds(-a, d);
      -((-a) / d)
  }

  lemma DivBounds(n: nat, d: int)
    requires d > 0
    ensures n / d >= 0
    ensures (n / d) * d <= n < (n / d + 1) * d
  {
    var q, r := n / d, n % d;
    assert n == q * d + r && 0 <= r < d;
    assert (q + 1) * d == q * d + d;
  }

  /** `u32 + u32` */
  function Add32(a: U32, b: U32): (r: U32)
    ensures r == (a + b) % Pow32
  {
    if a + b < Pow32 then a + b else a + b - Pow32
  }

  /** `u32 * u32` */
  function Mul32(a: U32, b: U32): (r: U32)
  {
    (a * b) % Pow32
  }

  /** Narrowing a partial sum to `short` before adding more does not change the final narrowing. */
  lemma NarrowAdd(a: int, b: int)
    ensures ToInt16(ToInt16(a) + b) == ToInt16(a + b)
  {
    var k := (ToInt16(a) - a) / Pow16;
    var q := (a + b) / Pow16;
    assert ToInt16(a) + b == (q + k) * Pow16 + (a + b) % Pow16;
  }

  /** Adding a multiple of 2^32 does not change a residue. */
  lemma ModShift(x: int, k: int)
    ensures (x + k * Pow32) % Pow32 == x % Pow32
  {
    var q := x / Pow32;
    var r := x % Pow32;
    assert x + k * Pow32 == (q + k) * Pow32 + r;
  }

  /** Residues modulo 2^32 are compatible with multiplication. */
  lemma ModMul(a: int, b: int, a': int, b': int)
    requires (a - a') % Pow32 == 0 && (b - b') % Pow32 == 0
    ensures (a * b) % Pow32 == (a' * b') % Pow32
  {
    var i := (a - a') / Pow32;
    var j := (b - b') / Pow32;
    assert a == a' + i * Pow32;
    assert b == b' + j * Pow32;
    calc {
      a * b;
      (a' + i * Pow32) * (b' + j * Pow32);
      a' * b' + (a' * j + i * b' + i * j * Pow32) * Pow32;
    }
    ModShift(a' * b', a' * j + i * b' + i * j * Pow32);
  }

  /** Residues modulo 2^32 are compatible with addition. */
  lemma ModAdd(a: int, b: int, a': int, b': int)
    requires (a - a') % Pow32 == 0 && (b - b') % Pow32 == 0
    ensures (a + b) % Pow32 == (a' + b') % Pow32
  {
    var i := (a - a') / Pow32;
    var j := (b - b') / Pow32;
    assert a + b == a' + b' + (i + j) * Pow32;
    ModShift(a' + b', i + j);
  }
}
