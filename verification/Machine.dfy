/** Machine words and the kernel's fixed table sizes. */
module Machine {

  const TWO32: nat := 0x1_0000_0000

  type Byte = x: int | 0 <= x < 256
  type Uint = x: int | 0 <= x < TWO32

  const MAXOPBLOCKS: nat := 10
  const LOGSIZE: nat := 30
  const NBUF: nat := 30
}
