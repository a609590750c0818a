/** Machine integers and the kernel's compile-time parameters. */
module Params {
  const WORD_MOD: nat := 0x1_0000_0000

  type Byte = x: int | 0 <= x < 256
  type Uint = n: nat | n < WORD_MOD

  const NBUF: nat := 30            // buffers in the block cache
  const MAXOPBLOCKS: nat := 10     // blocks a file system operation may log
  const LOGSIZE: nat := 30         // MAXOPBLOCKS * 3
  const KERNBASE: nat := 0x8000_0000
  const PGSIZE: nat := 4096
}
