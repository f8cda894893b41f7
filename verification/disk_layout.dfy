// The shape of the disk: constants, and how an inode and a table of block numbers
// lie in the bytes of a block (inode_manager.h).

module DiskLayout {
  import opened Bytes

  const BLOCK_SIZE: nat := 512
  const BLOCK_NUM: nat := 32768
  const INODE_NUM: nat := 1024
  /** Bitmap bits per block, inodes per block. */
  const BPB: nat := 4096
  const IPB: nat := 1
  const NDIRECT: nat := 100
  const NINDIRECT: nat := 128
  const MAXFILE: nat := NDIRECT + NINDIRECT

  type Word = w: nat | w < 0x1_0000_0000

  type Half = h: nat | h < 0x1_0000

  type Block = b: Bytes | |b| == 512 witness seq(512, _ => 0)

  /** The numbers that the macros come to. */
  lemma Macros()
    ensures BLOCK_NUM * BLOCK_SIZE == 1024 * 1024 * 16 && BLOCK_SIZE == 512 && BPB == BLOCK_SIZE * 8
    ensures NINDIRECT * 4 == BLOCK_SIZE && MAXFILE == 100 + 128 && INODE_NUM == 1024 && IPB == 1
  {
  }

  /** The block of inode i, on a disk of that many blocks. */
  function IBLOCK(i: nat, nblocks: nat): nat {
    nblocks / BPB + i / IPB + 3
  }

  /** Superblock, bitmap and inodes lie before the data blocks. */
  const START: nat := 1036

  lemma StartFollowsInodes()
    ensures START == IBLOCK(INODE_NUM, BLOCK_NUM) + 1
    ensures forall i :: 0 <= i <= INODE_NUM ==> 11 <= IBLOCK(i, BLOCK_NUM) < START
    ensures forall i, j :: IBLOCK(i, BLOCK_NUM) == IBLOCK(j, BLOCK_NUM) ==> i == j
  {
  }

  // ----- words, low byte first ------------------------------------------------------------

  function WordAt(b: Block, k: nat): Word
    requires k < 128
  {
    b[4 * k] as int + 0x100 * b[4 * k + 1] as int + 0x1_0000 * b[4 * k + 2] as int + 0x100_0000 * b[4 * k + 3] as int
  }

  function SetWord(b: Block, k: nat, w: Word): Block
    requires k < 128
  {
    b[4 * k := w % 0x100][4 * k + 1 := w / 0x100 % 0x100]
     [4 * k + 2 := w / 0x1_0000 % 0x100][4 * k + 3 := w / 0x100_0000]
  }

  lemma WordDigits(w: Word)
    ensures w % 0x100 + 0x100 * (w / 0x100 % 0x100) + 0x1_0000 * (w / 0x1_0000 % 0x100)
            + 0x100_0000 * (w / 0x100_0000) == w
  {
  }

  lemma SetWordAt(b: Block, k: nat, w: Word, j: nat)
    requires k < 128 && j < 128
    ensures WordAt(SetWord(b, k, w), j) == if j == k then w else WordAt(b, j)
  {
    WordDigits(w);
  }

  // ----- inodes -----------------------------------------------------------------------------

  /** Without its times.  `kind` is 0 for a free inode. */
  datatype Inode = Inode(kind: Half, size: Word, blocks: seq<Word>)

  predicate ValidInode(ino: Inode) {
    |ino.blocks| == NDIRECT + 1
  }

  /** Bytes 0-1 hold the kind, word 1 the size, words 5-105 the block numbers. */
  function Decode(b: Block): (ino: Inode)
    ensures ValidInode(ino)
  {
    Inode(b[0] as int + 0x100 * b[1] as int, WordAt(b, 1),
        seq(NDIRECT + 1, i requires 0 <= i < NDIRECT + 1 => WordAt(b, 5 + i)))
  }

  function SetWords(b: Block, k: nat, ws: seq<Word>): Block
    requires k + |ws| <= 128
    decreases |ws|
  {
    if ws == [] then b else SetWords(SetWord(b, k, ws[0]), k + 1, ws[1..])
  }

  /** The inode written over what the block held; the rest of the block stays. */
  function Encode(b: Block, ino: Inode): Block
    requires ValidInode(ino)
  {
    SetWords(SetWord(b[0 := ino.kind % 0x100][1 := ino.kind / 0x100], 1, ino.size), 5, ino.blocks)
  }

  lemma {:induction false} SetWordsAt(b: Block, k: nat, ws: seq<Word>, j: nat)
    requires k + |ws| <= 128 && j < 128
    ensures WordAt(SetWords(b, k, ws), j) == if k <= j < k + |ws| then ws[j - k] else WordAt(b, j)
    decreases |ws|
  {
    if ws != [] {
      SetWordAt(b, k, ws[0], j);
      SetWordsAt(SetWord(b, k, ws[0]), k + 1, ws[1..], j);
    }
  }

  lemma {:induction false} SetWordsBefore(b: Block, k: nat, ws: seq<Word>, i: nat)
    requires k + |ws| <= 128 && i < 4 * k
    ensures SetWords(b, k, ws)[i] == b[i]
    decreases |ws|
  {
    if ws != [] {
      SetWordsBefore(SetWord(b, k, ws[0]), k + 1, ws[1..], i);
    }
  }

  /** What put_inode writes, get_inode reads. */
  lemma DecodeEncode(b: Block, ino: Inode)
    requires ValidInode(ino)
    ensures Decode(Encode(b, ino)) == ino
  {
    var b0 := b[0 := ino.kind % 0x100][1 := ino.kind / 0x100];
    var b1 := SetWord(b0, 1, ino.size);
    var e := SetWords(b1, 5, ino.blocks);
    SetWordAt(b0, 1, ino.size, 1);
    SetWordsAt(b1, 5, ino.blocks, 1);
    SetWordsBefore(b1, 5, ino.blocks, 0);
    SetWordsBefore(b1, 5, ino.blocks, 1);
    forall i | 0 <= i < NDIRECT + 1 ensures Decode(e).blocks[i] == ino.blocks[i] {
      SetWordsAt(b1, 5, ino.blocks, 5 + i);
    }
    assert Decode(e).blocks == ino.blocks;
  }

  lemma LowDigit(a: Byte, q: nat)
    ensures (a as int + 0x100 * q) % 0x100 == a as int && (a as int + 0x100 * q) / 0x100 == q
  {
  }

  lemma DigitsWord(a: Byte, b: Byte, c: Byte, d: Byte)
    ensures var w := a as int + 0x100 * b as int + 0x1_0000 * c as int + 0x100_0000 * d as int;
            && w % 0x100 == a as int && w / 0x100 % 0x100 == b as int
            && w / 0x1_0000 % 0x100 == c as int && w / 0x100_0000 == d as int
  {
    var w2: nat := c as int + 0x100 * d as int;
    var w1: nat := b as int + 0x100 * w2;
    var w := a as int + 0x100 * w1;
    LowDigit(a, w1);
    LowDigit(b, w2);
    LowDigit(c, d as int);
    assert w / 0x1_0000 == w / 0x100 / 0x100;
    assert w / 0x100_0000 == w / 0x1_0000 / 0x100;
  }

  lemma SetWordSame(b: Block, k: nat)
    requires k < 128
    ensures SetWord(b, k, WordAt(b, k)) == b
  {
    DigitsWord(b[4 * k], b[4 * k + 1], b[4 * k + 2], b[4 * k + 3]);
  }

  lemma {:induction false} SetWordsSame(b: Block, k: nat, ws: seq<Word>)
    requires k + |ws| <= 128
    requires forall j :: 0 <= j < |ws| ==> ws[j] == WordAt(b, k + j)
    ensures SetWords(b, k, ws) == b
    decreases |ws|
  {
    if ws != [] {
      SetWordSame(b, k);
      SetWordsSame(b, k + 1, ws[1..]);
    }
  }

  /** Writing an inode back where it was read changes nothing. */
  lemma EncodeDecode(b: Block)
    ensures Encode(b, Decode(b)) == b
  {
    var ino := Decode(b);
    assert b[0 := ino.kind % 0x100][1 := ino.kind / 0x100] == b;
    SetWordSame(b, 1);
    SetWordsSame(b, 5, ino.blocks);
  }

  /** A word's four bytes, low byte first. */
  lemma WordBytes(b: Block, k: nat, w: Word)
    requires k < 128
    ensures var e := SetWord(b, k, w);
            && e[4 * k] == w % 0x100 && e[4 * k + 1] == w / 0x100 % 0x100
            && e[4 * k + 2] == w / 0x1_0000 % 0x100 && e[4 * k + 3] == w / 0x100_0000
            && forall p :: 0 <= p < 512 && (p < 4 * k || p >= 4 * k + 4) ==> e[p] == b[p]
  {
  }

  lemma {:induction false} SetWordsBytes(b: Block, k: nat, ws: seq<Word>, j: nat)
    requires k + |ws| <= 128 && j < |ws|
    ensures var e := SetWords(b, k, ws);
            && e[4 * (k + j)] == ws[j] % 0x100 && e[4 * (k + j) + 1] == ws[j] / 0x100 % 0x100
            && e[4 * (k + j) + 2] == ws[j] / 0x1_0000 % 0x100 && e[4 * (k + j) + 3] == ws[j] / 0x100_0000
    decreases |ws|
  {
    var b1 := SetWord(b, k, ws[0]);
    WordBytes(b, k, ws[0]);
    if j == 0 {
      forall p | 4 * k <= p < 4 * k + 4 ensures SetWords(b1, k + 1, ws[1..])[p] == b1[p] {
        SetWordsBefore(b1, k + 1, ws[1..], p);
      }
    } else {
      SetWordsBytes(b1, k + 1, ws[1..], j - 1);
    }
  }

  lemma {:induction false} SetWordsAfter(b: Block, k: nat, ws: seq<Word>, p: nat)
    requires k + |ws| <= 128 && 4 * (k + |ws|) <= p < 512
    ensures SetWords(b, k, ws)[p] == b[p]
    decreases |ws|
  {
    if ws != [] {
      WordBytes(b, k, ws[0]);
      SetWordsAfter(SetWord(b, k, ws[0]), k + 1, ws[1..], p);
    }
  }

  /** Where the inode's fields lie: the kind in bytes 0 and 1, the size in bytes 4 to 7, the
      block numbers from byte 20 on; bytes 2 and 3, the times in bytes 8 to 19, and what
      follows byte 423 stay. */
  lemma InodeBytes(b: Block, ino: Inode, j: nat)
    requires ValidInode(ino) && j <= 100
    ensures var e := Encode(b, ino);
            && e[0] == ino.kind % 0x100 && e[1] == ino.kind / 0x100
            && e[4] == ino.size % 0x100 && e[5] == ino.size / 0x100 % 0x100
            && e[6] == ino.size / 0x1_0000 % 0x100 && e[7] == ino.size / 0x100_0000
            && e[20 + 4 * j] == ino.blocks[j] % 0x100 && e[21 + 4 * j] == ino.blocks[j] / 0x100 % 0x100
            && e[22 + 4 * j] == ino.blocks[j] / 0x1_0000 % 0x100 && e[23 + 4 * j] == ino.blocks[j] / 0x100_0000
            && forall p :: 0 <= p < 512 && (2 <= p < 4 || 8 <= p < 20 || 424 <= p) ==> e[p] == b[p]
  {
    var b0 := b[0 := ino.kind % 0x100][1 := ino.kind / 0x100];
    var b1 := SetWord(b0, 1, ino.size);
    WordBytes(b0, 1, ino.size);
    SetWordsBytes(b1, 5, ino.blocks, j);
    forall p | 0 <= p < 20 ensures Encode(b, ino)[p] == b1[p] {
      SetWordsBefore(b1, 5, ino.blocks, p);
    }
    forall p | 424 <= p < 512 ensures Encode(b, ino)[p] == b1[p] {
      SetWordsAfter(b1, 5, ino.blocks, p);
    }
  }
}
