/** The parts of Java's 32-bit `int` arithmetic that the band computation relies on. */
module JavaInt {
  const INT_MIN: int := -0x8000_0000
  const INT_MAX: int := 0x7FFF_FFFF
  const MODULUS: int := 0x1_0000_0000

  /** A Java `int`. */
  newtype int32 = x: int | -0x8000_0000 <= x <= 0x7FFF_FFFF

  /** Java `*` on two ints: the exact product reduced into the 32-bit two's-complement range. */
  function Mul(a: int32, b: int32): (r: int32)
    ensures (r as int - a as int * b as int) % MODULUS == 0
    ensures INT_MIN <= a as int * b as int <= INT_MAX ==> r as int == a as int * b as int
  {
    WrapLemma(a as int * b as int);
    ((a as int * b as int - INT_MIN) % MODULUS + INT_MIN) as int32
  }

  lemma WrapLemma(x: int)
    ensures INT_MIN <= (x - INT_MIN) % MODULUS + INT_MIN <= INT_MAX
    ensures ((x - INT_MIN) % MODULUS + INT_MIN - x) % MODULUS == 0
    ensures INT_MIN <= x <= INT_MAX ==> (x - INT_MIN) % MODULUS + INT_MIN == x
  {
  }

  /** Java `/` on ints: the quotient rounded toward zero (Dafny's own `/` is Euclidean). */
  function Div(a: int, b: int): (q: int)
    requires b != 0
    ensures a >= 0 && b > 0 ==> q == a / b
    ensures a >= 0 && b < 0 ==> q <= 0 && q * b <= a < (q - 1) * b
  {
    if (a >= 0) == (b > 0) then Abs(a) / Abs(b) else -(Abs(a) / Abs(b))
  }

  function Abs(x: int): nat
  {
    if x < 0 then -x else x
  }
}
