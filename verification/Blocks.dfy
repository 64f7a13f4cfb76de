/** Disk blocks (kernel/fs.h) and their little-endian 32-bit word view, which is how
    the kernel reads the log header and an inode's indirect block. */
module Blocks {

  const BSIZE := 1024
  const WORDS := 256

  type Byte = x: int | 0 <= x < 256
  type Word = x: int | 0 <= x < 0x1_0000_0000
  type Block = s: seq<Byte> | |s| == BSIZE witness seq(BSIZE, i => 0)

  function ZeroBlock(): (b: Block)
    ensures forall i | 0 <= i < BSIZE :: b[i] == 0
  {
    seq(BSIZE, i => 0)
  }

  function LoadWord(b: Block, i: nat): Word
    requires i < WORDS
  {
    var b0: int, b1: int, b2: int, b3: int := b[4 * i], b[4 * i + 1], b[4 * i + 2], b[4 * i + 3];
    b0 + 0x100 * b1 + 0x1_0000 * b2 + 0x100_0000 * b3
  }

  lemma WordBytes(w: Word)
    ensures w == w % 0x100 + 0x100 * (w / 0x100 % 0x100) + 0x1_0000 * (w / 0x1_0000 % 0x100) +
            0x100_0000 * (w / 0x100_0000)
  {
  }

  /** Storing one word and loading any word: a block behaves as an array of 256 words. */
  function StoreWord(b: Block, i: nat, w: Word): (r: Block)
    requires i < WORDS
    ensures LoadWord(r, i) == w
    ensures forall j: nat | j < WORDS && j != i :: LoadWord(r, j) == LoadWord(b, j)
  {
    var b0, b1, b2, b3 := w % 0x100, w / 0x100 % 0x100, w / 0x1_0000 % 0x100, w / 0x100_0000;
    WordBytes(w);
    b[4 * i := b0][4 * i + 1 := b1][4 * i + 2 := b2][4 * i + 3 := b3]
  }
}
