/** Bytes, pages, the width of an address and powers of two. */
module Units {
  type byte = x: int | 0 <= x < 256

  /** TARGET_PAGE_SIZE */
  const PAGE_SIZE: nat := 4096

  const TWO_TO_THE_64: nat := 0x1_0000_0000_0000_0000

  function Pow2(k: nat): (p: nat)
    ensures p > 0
  {
    if k == 0 then 1 else 2 * Pow2(k - 1)
  }
}
