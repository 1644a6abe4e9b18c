/** Disk blocks: 512 bytes, also read as 128 little-endian 32-bit words (fs.h, log.c, fs.c). */
module Blocks {

  const BSIZE := 512
  const WORDS := 128
  const U32 := 0x1_0000_0000

  const LOGSIZE := 30         // param.h: blocks a transaction may hold
  const MAXOPBLOCKS := 10     // param.h: blocks begin_op reserves for an operation

  type Byte = x: int | 0 <= x < 256
  type Word = x: int | 0 <= x < U32
  type Block = b: seq<Byte> | |b| == BSIZE witness seq(BSIZE, _ => 0)

  /** The block that memset(data, 0, BSIZE) leaves. */
  function Zero(): (b: Block) {
    seq(BSIZE, _ => 0)
  }

  /** The i-th word of a block, ((uint*)data)[i]. */
  function GetWord(b: Block, i: nat): (w: Word)
    requires i < WORDS
  {
    var b0: int, b1: int, b2: int, b3: int := b[4 * i], b[4 * i + 1], b[4 * i + 2], b[4 * i + 3];
    b0 + 0x100 * b1 + 0x1_0000 * b2 + 0x100_0000 * b3
  }

  /** The block after the assignment ((uint*)data)[i] = w. */
  function SetWord(b: Block, i: nat, w: Word): (r: Block)
    requires i < WORDS
  {
    b[4 * i := w % 0x100]
     [4 * i + 1 := w / 0x100 % 0x100]
     [4 * i + 2 := w / 0x1_0000 % 0x100]
     [4 * i + 3 := w / 0x100_0000]
  }

  /** Storing a word is read back, and leaves every other word alone. */
  lemma WordStore(b: Block, i: nat, w: Word, j: nat)
    requires i < WORDS && j < WORDS
    ensures GetWord(SetWord(b, i, w), j) == if i == j then w else GetWord(b, j)
  {
    if i == j {
      BytesOf(w);
    }
  }

  lemma BytesOf(w: Word)
    ensures w == w % 0x100 + 0x100 * (w / 0x100 % 0x100) + 0x1_0000 * (w / 0x1_0000 % 0x100)
            + 0x100_0000 * (w / 0x100_0000)
  {
  }

  lemma ZeroWords(i: nat)
    requires i < WORDS
    ensures GetWord(Zero(), i) == 0
  {
  }
}
