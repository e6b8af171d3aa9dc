/** Result and option types, the source languages' fixed-width integers and their
    truncating division, shared by every component. */
module Base {
  datatype Option<+T> = None | Some(value: T)

  datatype Result<+T, +E> = Success(value: T) | Failure(error: E)

  const TWO_31: int := 0x8000_0000
  const TWO_32: int := 0x1_0000_0000
  const TWO_63: int := 0x8000_0000_0000_0000
  const TWO_64: int := 0x1_0000_0000_0000_0000

  type int32 = x: int | -TWO_31 <= x < TWO_31
  type uint32 = x: int | 0 <= x < TWO_32
  type int64 = x: int | -TWO_63 <= x < TWO_63

  predicate IsInt64(x: int) {
    -TWO_63 <= x < TWO_63
  }

  /** Two's complement wrap-around, as Go and C# compute on int32 and int64. */
  function Wrap32(x: int): int32 {
    (x + TWO_31) % TWO_32 - TWO_31
  }

  function Wrap64(x: int): int64 {
    (x + TWO_63) % TWO_64 - TWO_63
  }

  lemma Wrap32Cases(x: int)
    requires -TWO_32 <= x <= TWO_32
    ensures Wrap32(x) == if x < -TWO_31 then x + TWO_32 else if x >= TWO_31 then x - TWO_32 else x
  {
  }

  /** Wrapping a summand first does not change a wrapped sum. */
  lemma Wrap32OfSum(x: int, y: int)
    ensures Wrap32(Wrap32(x) + y) == Wrap32(x + y)
  {
    var k := (x + TWO_31) / TWO_32;
    assert Wrap32(x) == x - k * TWO_32;
    ModShift(x + y + TWO_31, k);
  }

  lemma ModShift(a: int, k: int)
    ensures (a - k * TWO_32) % TWO_32 == a % TWO_32
  {
    var q := a / TWO_32;
    assert a - k * TWO_32 == (q - k) * TWO_32 + a % TWO_32;
  }

  /** A multiple of 2^32 does not show in a wrapped value. */
  lemma Wrap32Shift(x: int, k: int)
    ensures Wrap32(x - k * TWO_32) == Wrap32(x)
  {
    ModShift(x + TWO_31, k);
  }

  lemma Wrap64Cases(x: int)
    requires -TWO_64 <= x <= TWO_64
    ensures Wrap64(x) == if x < -TWO_63 then x + TWO_64 else if x >= TWO_63 then x - TWO_64 else x
  {
  }

  lemma Wrap64Shift(x: int, k: int)
    ensures Wrap64(x - k * TWO_64) == Wrap64(x)
  {
    var q := (x + TWO_63) / TWO_64;
    assert x + TWO_63 - k * TWO_64 == (q - k) * TWO_64 + (x + TWO_63) % TWO_64;
  }

  /** The Go conversion uint32(x). */
  function ToUint32(x: int32): (r: uint32)
    ensures (r - x) % TWO_32 == 0
  {
    if x < 0 then x + TWO_32 else x
  }

  /** Division and remainder rounding toward zero, as in Go, C++ and C#. */
  function TruncDiv(x: int, y: int): int
    requires y > 0
  {
    if x >= 0 then x / y else -((-x) / y)
  }

  function TruncMod(x: int, y: int): int
    requires y > 0
  {
    x - y * TruncDiv(x, y)
  }

  function Abs(n: int): nat {
    if n < 0 then -n else n
  }

  function Max(x: int, y: int): int {
    if x >= y then x else y
  }
}
