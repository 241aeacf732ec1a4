/** C++ `int` values compared with container sizes. */
module CppInt {
  predicate IsInt(n: int) { -0x8000_0000 <= n < 0x8000_0000 }

  /** The conversion to an unsigned 64-bit size that the comparison performs. */
  function AsSize(n: int): (size: nat)
    requires IsInt(n)
  {
    if n >= 0 then n else n + 0x1_0000_0000_0000_0000
  }
}
