/**
  Fixed-width C values at the boundary between the Python layer and the C
  library, and the conversions ctypes applies when a Python `int` is passed to
  a C function declared with narrower parameters.
 */
module CTypes {

  newtype byte = x: int | 0 <= x < 0x100
  newtype u16 = x: int | 0 <= x < 0x1_0000
  newtype i32 = x: int | -0x8000_0000 <= x < 0x8000_0000

  /** A Python `int` arriving in a `uint16_t` parameter: ctypes masks it to a C
      `int` and the callee keeps the low 16 bits, so the value is taken modulo 2^16. */
  function ToU16(x: int): (r: u16)
    ensures 0 <= x < 0x1_0000 ==> r as int == x
  {
    (x % 0x1_0000) as u16
  }

  /** Narrowing keeps a value's residue modulo 2^16. */
  lemma ToU16Residue(x: int)
    ensures (x - ToU16(x) as int) % 0x1_0000 == 0
  {
  }

  /** A Python `int` arriving in an `int32_t` parameter: two's-complement wrap-around. */
  function ToI32(x: int): (r: i32)
    ensures -0x8000_0000 <= x < 0x8000_0000 ==> r as int == x
  {
    ((x + 0x8000_0000) % 0x1_0000_0000 - 0x8000_0000) as i32
  }

  /** Wrapping keeps a value's residue modulo 2^32. */
  lemma ToI32Residue(x: int)
    ensures (x - ToI32(x) as int) % 0x1_0000_0000 == 0
  {
  }

  /** The string `strcpy` reads from C memory: every byte before the first NUL. */
  function CString(m: seq<byte>): (r: seq<byte>)
    requires 0 in m
    ensures 0 !in r
    ensures |r| < |m| && r == m[..|r|] && m[|r|] == 0
  {
    if m[0] == 0 then [] else [m[0]] + CString(m[1..])
  }
}
