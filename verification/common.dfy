/** What several components share: optional values, bytes, pages, words, and constants of the
    file system (include/mmu.h, user/include/fs.h). */
module Common {
  datatype Option<T> = None | Some(value: T)

  type Byte = b: int | 0 <= b < 256

  const PAGE_SIZE := 4096

  type Page = p: seq<Byte> | |p| == PAGE_SIZE witness seq(PAGE_SIZE, _ => 0)

  const WORD_BITS := 32

  function Pow2(n: nat): (p: nat)
    ensures p >= 1
  {
    if n == 0 then 1 else 2 * Pow2(n - 1)
  }

  const MAXNAMELEN := 128
  const FILE2BLK := 16   // struct Files in a block
  const ROOT := 0        // number of the root's struct File
}
