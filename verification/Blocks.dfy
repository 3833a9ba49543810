/** Disk blocks as the kernel sees them: BSIZE bytes, read either byte by byte or,
    through a cast, as an array of little-endian 32-bit words. */
module Blocks {
  const BSIZE := 1024
  const WORDS := 256

  type Byte = b: int | 0 <= b < 0x100
  type Word = w: int | 0 <= w < 0x1_0000_0000
  type Block = s: seq<Byte> | |s| == BSIZE witness seq(BSIZE, _ => 0)

  /** The i-th element of `(uint*)block`. */
  function GetWord(b: Block, i: nat): (w: Word)
    requires i < WORDS
  {
    var b0: int, b1: int, b2: int, b3: int := b[4 * i], b[4 * i + 1], b[4 * i + 2], b[4 * i + 3];
    b0 + 0x100 * b1 + 0x1_0000 * b2 + 0x100_0000 * b3
  }

  function PutWord(b: Block, i: nat, w: Word): (r: Block)
    requires i < WORDS
  {
    b[4 * i := w % 0x100][4 * i + 1 := w / 0x100 % 0x100]
     [4 * i + 2 := w / 0x1_0000 % 0x100][4 * i + 3 := w / 0x100_0000]
  }

  /** Storing a word changes that word and no other. */
  lemma PutGetWord(b: Block, i: nat, w: Word, j: nat)
    requires i < WORDS && j < WORDS
    ensures GetWord(PutWord(b, i, w), j) == if j == i then w else GetWord(b, j)
  {
    var r := PutWord(b, i, w);
    if j == i {
      assert r[4 * i] == w % 0x100;
      assert r[4 * i + 1] == w / 0x100 % 0x100;
      assert r[4 * i + 2] == w / 0x1_0000 % 0x100;
      assert r[4 * i + 3] == w / 0x100_0000;
      assert w == w % 0x100 + 0x100 * (w / 0x100);
      assert w / 0x100 == w / 0x100 % 0x100 + 0x100 * (w / 0x1_0000);
      assert w / 0x1_0000 == w / 0x1_0000 % 0x100 + 0x100 * (w / 0x100_0000);
    } else {
      assert r[4 * j] == b[4 * j] && r[4 * j + 1] == b[4 * j + 1];
      assert r[4 * j + 2] == b[4 * j + 2] && r[4 * j + 3] == b[4 * j + 3];
    }
  }
}
