/** Disk blocks: BSIZE bytes, and the little-endian 32-bit words that the log
    header and the indirect blocks keep in them. */
module Blocks {
  const BSIZE: nat := 1024
  const WORDS: nat := 256 // BSIZE / sizeof(uint)
  const UINT_LIMIT: nat := 0x1_0000_0000

  type Byte = b: nat | b < 256
  type Uint = w: nat | w < UINT_LIMIT
  type Bytes = b: seq<Byte> | |b| == BSIZE witness seq(BSIZE, _ => 0)
  datatype Block = Block(bytes: Bytes)

  function ZeroBlock(): Block {
    Block(seq(BSIZE, _ => 0))
  }

  /** The i-th 32-bit word of a block. */
  function Word(b: Block, i: nat): Uint
    requires i < WORDS
  {
    var b0: int, b1: int, b2: int, b3: int :=
      b.bytes[4 * i], b.bytes[4 * i + 1], b.bytes[4 * i + 2], b.bytes[4 * i + 3];
    b0 + 0x100 * b1 + 0x1_0000 * b2 + 0x100_0000 * b3
  }

  /** The block after its i-th word is overwritten in place. */
  function SetWord(b: Block, i: nat, w: Uint): Block
    requires i < WORDS
  {
    Block(b.bytes[4 * i := w % 0x100][4 * i + 1 := w / 0x100 % 0x100]
          [4 * i + 2 := w / 0x1_0000 % 0x100][4 * i + 3 := w / 0x100_0000])
  }

  lemma Digits(w: Uint)
    ensures w == w % 0x100 + 0x100 * (w / 0x100 % 0x100) + 0x1_0000 * (w / 0x1_0000 % 0x100)
                 + 0x100_0000 * (w / 0x100_0000)
  {
    assert w / 0x100 / 0x100 == w / 0x1_0000;
    assert w / 0x1_0000 / 0x100 == w / 0x100_0000;
  }

  /** Writing one word leaves the other words of the block alone. */
  lemma WordOfSetWord(b: Block, i: nat, w: Uint, j: nat)
    requires i < WORDS && j < WORDS
    ensures Word(SetWord(b, i, w), j) == if j == i then w else Word(b, j)
  {
    if j == i {
      Digits(w);
    }
  }

  /** The block after consecutive words from `base` on are overwritten. */
  function PutWords(b: Block, base: nat, ws: seq<Uint>): Block
    requires base + |ws| <= WORDS
  {
    if ws == [] then b
    else SetWord(PutWords(b, base, ws[..|ws| - 1]), base + |ws| - 1, ws[|ws| - 1])
  }

  lemma {:induction false} WordOfPutWords(b: Block, base: nat, ws: seq<Uint>, j: nat)
    requires base + |ws| <= WORDS && j < WORDS
    ensures Word(PutWords(b, base, ws), j) == if base <= j < base + |ws| then ws[j - base] else Word(b, j)
  {
    if ws != [] {
      var rest := ws[..|ws| - 1];
      WordOfPutWords(b, base, rest, j);
      WordOfSetWord(PutWords(b, base, rest), base + |ws| - 1, ws[|ws| - 1], j);
    }
  }

  lemma SetZeroWord(b: Block)
    requires Word(b, 0) == 0
    ensures SetWord(b, 0, 0) == b
  {
    assert SetWord(b, 0, 0).bytes == b.bytes;
  }

  lemma WordOfZeroBlock(i: nat)
    requires i < WORDS
    ensures Word(ZeroBlock(), i) == 0
  {
  }
}
