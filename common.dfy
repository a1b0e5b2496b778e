/** Small building blocks shared by every module of the model. */
module Common {

  /** A value that may be absent: the model's stand-in for a C# null reference
      or for an exception the source raises. */
  datatype Option<T> = None | Some(value: T)

  const TWO_POW_32: int := 0x1_0000_0000
  const INT32_MIN: int := -0x8000_0000
  const INT32_MAX: int := 0x7FFF_FFFF

  predicate IsInt32(x: int) {
    INT32_MIN <= x <= INT32_MAX
  }

  /** Two's-complement wrap-around of C#'s unchecked 32-bit `int` arithmetic. */
  function Wrap32(x: int): (r: int)
    ensures IsInt32(r)
    ensures (r - x) % TWO_POW_32 == 0
    ensures IsInt32(x) ==> r == x
  {
    var m := (x - INT32_MIN) % TWO_POW_32;
    m + INT32_MIN
  }

  /** Wrapping an intermediate result changes nothing about the wrapped total, so a
      running sum wrapped at every step ends where the wrapped exact sum does. */
  lemma Wrap32Add(a: int, b: int)
    ensures Wrap32(Wrap32(a) + b) == Wrap32(a + b)
  {
    var k := (a - INT32_MIN) / TWO_POW_32;
    assert Wrap32(a) == a - k * TWO_POW_32;
    var x := a + b - INT32_MIN;
    assert Wrap32(a) + b - INT32_MIN == x - k * TWO_POW_32;
    ModShift(x, k);
  }

  lemma ModShift(x: int, k: int)
    ensures (x - k * TWO_POW_32) % TWO_POW_32 == x % TWO_POW_32
  {
  }

  /** C#'s `%` on `int`: the remainder takes the sign of the dividend
      (Dafny's own `%` is Euclidean). */
  function CsRem(a: int, b: int): (r: int)
    requires b > 0
    ensures a >= 0 ==> r == a % b
    ensures a < 0 ==> r == -((-a) % b)
    ensures -b < r < b
  {
    if a >= 0 then a % b else -((-a) % b)
  }
}
