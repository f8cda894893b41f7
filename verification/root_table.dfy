// The root's table number, which nothing sets: for which values the root can be put.

module RootTable {
  import opened Wrappers
  import opened Bytes
  import opened DiskLayout
  import opened FileSystem
  import opened BlockOwnership
  import opened FileStore
  import opened FileRuns

  /** A put that succeeds leaves the ownership exact, the file with what was put, and the
      others alone. */
  ghost predicate PutsRight(s: Store, i: nat, buf: Bytes)
    requires Bounded(s) && IsInum(i) && |buf| <= MAXBYTES
  {
    WriteFile(s, i, buf).Some? ==>
      var s' := WriteFile(s, i, buf).value;
      && Bounded(s') && Exact(ListsOf(s'), s'.used)
      && Files(s') == Files(s)[i := File(InodeOf(s, i).kind, buf)]
  }

  const LONG: nat := NDIRECT + 1

  /** 101 blocks of zeros. */
  function LongBuf(): (buf: Bytes)
    ensures |buf| == LONG * BLOCK_SIZE <= MAXBYTES
  {
    Zeroes(LONG * BLOCK_SIZE)
  }

  /** The formatted disk with that table number for the root. */
  ghost function Formatted(nblocks: Word, blocks: seq<Word>): Store
    requires |blocks| == NDIRECT + 1
  {
    Start(nblocks, blocks).store
  }

  /** The root grown by 101 blocks: there are enough of them, whatever the table. */
  lemma LongGrows(nblocks: Word, blocks: seq<Word>) returns (g: Grown, s': Store)
    requires |blocks| == NDIRECT + 1 && nblocks >= 8 * BPB
    ensures Bounded(Formatted(nblocks, blocks)) && InRange(Formatted(nblocks, blocks))
    ensures Grow(Formatted(nblocks, blocks), Inode(1, 0, blocks), 0, LONG) == Some(g)
    ensures g.ino.kind == 1 && g.ino.blocks[NDIRECT] == blocks[NDIRECT] && |g.store.disk| == BLOCK_NUM
    ensures WriteFile(Formatted(nblocks, blocks), 1, LongBuf()) == Some(s')
    ensures ValidInode(g.ino) && s' == Filled(g, 1, LongBuf())
  {
    var s := Formatted(nblocks, blocks);
    StartFiles(nblocks, blocks);
    FreeSize(s.used);
    GrowFails(s, Inode(1, 0, blocks), 0, LONG);
    GrowKeeps(s, Inode(1, 0, blocks), 0, LONG);
    g := Grow(s, Inode(1, 0, blocks), 0, LONG).value;
    s' := WriteFile(s, 1, LongBuf()).value;
  }

  /** Then the root's inode is as it should be, its table number included. */
  lemma LongInode(g: Grown, s': Store, t: Word)
    requires ValidInode(g.ino) && g.ino.kind == 1 && g.ino.blocks[NDIRECT] == t && |g.store.disk| == BLOCK_NUM
    requires s' == Filled(g, 1, LongBuf())
    ensures Live(s', 1) && InodeOf(s', 1).size == LONG * BLOCK_SIZE && Count(s', 1) == LONG && Table(s', 1) == t
    ensures |s'.disk| == BLOCK_NUM
    ensures var ino := g.ino.(size := LONG * BLOCK_SIZE);
            forall x: nat :: x != At(1) ==> Peek(s'.disk, x) == Peek(Fill(g.store.disk, ino, LongBuf(), 0, LONG), x)
    ensures var ino := g.ino.(size := LONG * BLOCK_SIZE);
            Peek(s'.disk, At(1)) == Encode(Peek(Fill(g.store.disk, ino, LongBuf(), 0, LONG), At(1)), ino)
  {
    var ino := g.ino.(size := LONG * BLOCK_SIZE);
    PutKeeps(Fill(g.store.disk, ino, LongBuf(), 0, LONG), 1, ino);
  }

  /** A last block that is none ends the ownership. */
  lemma BadNumber(s: Store)
    requires Bounded(s) && Live(s, 1) && Count(s, 1) == LONG && !IsData(Nth(s.disk, InodeOf(s, 1), NDIRECT))
    ensures !Exact(ListsOf(s), s.used)
  {
    CountBound(InodeOf(s, 1).size);
    assert Has(ListsOf(s), 1, NDIRECT);
  }

  // ----- a table past the end of the disk ---------------------------------------------------

  lemma PastDisk(nblocks: Word, blocks: seq<Word>)
    requires |blocks| == NDIRECT + 1 && nblocks >= 8 * BPB && blocks[NDIRECT] >= BLOCK_NUM
    ensures Bounded(Formatted(nblocks, blocks)) && !PutsRight(Formatted(nblocks, blocks), 1, LongBuf())
  {
    var g, s' := LongGrows(nblocks, blocks);
    LongInode(g, s', blocks[NDIRECT]);
    if Bounded(s') {
      BadNumber(s');
    }
  }

  // ----- a table among the inodes ----------------------------------------------------------

  /** The table, where it holds the number of the last block. */
  lemma TableHolds(nblocks: Word, blocks: seq<Word>) returns (g: Grown, s': Store)
    requires |blocks| == NDIRECT + 1 && nblocks >= 8 * BPB && At(1) <= blocks[NDIRECT] < START
    ensures var t := blocks[NDIRECT];
            var ino := g.ino.(size := LONG * BLOCK_SIZE);
            && ValidInode(g.ino) && g.ino.kind == 1 && g.ino.blocks[NDIRECT] == t && |g.store.disk| == BLOCK_NUM
            && Bounded(Formatted(nblocks, blocks)) && WriteFile(Formatted(nblocks, blocks), 1, LongBuf()) == Some(s')
            && s' == Filled(g, 1, LongBuf())
            && IsData(WordAt(Peek(Fill(g.store.disk, ino, LongBuf(), 0, LONG), t), 0))
  {
    var s, t := Formatted(nblocks, blocks), blocks[NDIRECT];
    g, s' := LongGrows(nblocks, blocks);
    GrowAdds(s, Inode(1, 0, blocks), 0, LONG);
    var ino := g.ino.(size := LONG * BLOCK_SIZE);
    var ids := Ids(g.store.disk, g.ino, LONG);
    assert ids[0..] == ids && Ids(g.store.disk, ino, LONG) == ids;
    assert forall k :: 0 <= k < LONG ==> IsData(ids[k]);
    assert ids[NDIRECT] == WordAt(Peek(g.store.disk, t), 0);
    FillWrites(g.store.disk, ino, LongBuf(), 0, LONG, ids);
  }

  lemma SmallWord(b: Block)
    requires IsData(WordAt(b, 0))
    ensures b[2] == 0 && b[3] == 0 && b[0] as int + 0x100 * b[1] as int == WordAt(b, 0)
  {
  }

  /** In another inode's block, that inode comes to life. */
  lemma OtherInodes(nblocks: Word, blocks: seq<Word>)
    requires |blocks| == NDIRECT + 1 && nblocks >= 8 * BPB && At(1) < blocks[NDIRECT] < START
    ensures Bounded(Formatted(nblocks, blocks)) && !PutsRight(Formatted(nblocks, blocks), 1, LongBuf())
  {
    var t := blocks[NDIRECT];
    var g, s' := TableHolds(nblocks, blocks);
    LongInode(g, s', t);
    SmallWord(Peek(s'.disk, t));
    var j: nat := t - 11;
    assert At(j) == t && Live(s', j) && j != 1;
    StartFiles(nblocks, blocks);
    if Bounded(s') {
      assert j in Files(s') && j !in Files(Formatted(nblocks, blocks));
    }
  }

  /** In the root's own, the kind is written over the last block's number. */
  lemma OwnInode(nblocks: Word, blocks: seq<Word>)
    requires |blocks| == NDIRECT + 1 && nblocks >= 8 * BPB && blocks[NDIRECT] == At(1)
    ensures Bounded(Formatted(nblocks, blocks)) && !PutsRight(Formatted(nblocks, blocks), 1, LongBuf())
  {
    var g, s' := TableHolds(nblocks, blocks);
    LongInode(g, s', At(1));
    var ino := g.ino.(size := LONG * BLOCK_SIZE);
    var b := Peek(Fill(g.store.disk, ino, LongBuf(), 0, LONG), At(1));
    SmallWord(b);
    EncodedKind(b, ino);
    if Bounded(s') {
      BadNumber(s');
    }
  }

  lemma EncodedKind(b: Block, ino: Inode)
    requires ValidInode(ino) && ino.kind == 1 && b[2] == 0 && b[3] == 0
    ensures WordAt(Encode(b, ino), 0) == 1
  {
    var b1 := SetWord(b[0 := ino.kind % 0x100][1 := ino.kind / 0x100], 1, ino.size);
    SetWordsAt(b1, 5, ino.blocks, 0);
  }

  // ----- a table among the data --------------------------------------------------------------

  lemma {:induction false} FillParts(disk: seq<Block>, ino: Inode, buf: Bytes, lo: nat, mid: nat, hi: nat)
    requires ValidInode(ino) && lo <= mid <= hi <= MAXFILE
    ensures Fill(disk, ino, buf, lo, hi) == Fill(Fill(disk, ino, buf, lo, mid), ino, buf, mid, hi)
    decreases mid - lo
  {
    if lo < mid {
      FillParts(Poke(disk, Nth(disk, ino, lo), Chunk(buf, lo)), ino, buf, lo + 1, mid, hi);
    }
  }

  /** The search begins at the table, so the table is the root's first block. */
  lemma FirstIsTable(nblocks: Word, blocks: seq<Word>, g: Grown)
    requires |blocks| == NDIRECT + 1 && nblocks >= 8 * BPB && IsData(blocks[NDIRECT])
    requires Formatted(nblocks, blocks).next == blocks[NDIRECT]
    requires Grow(Formatted(nblocks, blocks), Inode(1, 0, blocks), 0, LONG) == Some(g)
    ensures var ids := Ids(g.store.disk, g.ino, LONG);
            ids[0] == blocks[NDIRECT] && Apart(ids)
  {
    var s, ino, t := Formatted(nblocks, blocks), Inode(1, 0, blocks), blocks[NDIRECT];
    StartFiles(nblocks, blocks);
    assert FitBlock(s) == Some(t as nat);
    var (disk, ino1) := SetNth(s.disk, ino, 0, t);
    SetNthIds(s.disk, ino, 0, t);
    GrowAdds(s, ino, 0, LONG);
    GrowAdds(Taken(s, t).(disk := disk), ino1, 1, LONG);
    var ids := Ids(g.store.disk, g.ino, LONG);
    assert ids[0..] == ids && ids[..1][0] == ids[0];
    AllocatorComplete(s);
  }

  lemma ZeroChunk()
    ensures Chunk(LongBuf(), 0) == Zeroes(BLOCK_SIZE) && WordAt(Zeroes(BLOCK_SIZE), 0) == 0
  {
  }

  /** Filling the first block wipes the table. */
  lemma DirectWipes(disk: seq<Block>, ino: Inode)
    requires ValidInode(ino) && |disk| == BLOCK_NUM
    requires Ids(disk, ino, LONG)[0] == ino.blocks[NDIRECT] && Apart(Ids(disk, ino, LONG))
    ensures Peek(Fill(disk, ino, LongBuf(), 0, NDIRECT), ino.blocks[NDIRECT]) == Zeroes(BLOCK_SIZE)
  {
    var ids := Ids(disk, ino, NDIRECT);
    assert ids == Ids(disk, ino, LONG)[..NDIRECT];
    FillWrites(disk, ino, LongBuf(), 0, NDIRECT, ids);
    ZeroChunk();
  }

  /** Then the last block is taken to be block 0. */
  lemma LastGoesWrong(disk: seq<Block>, ino: Inode)
    requires ValidInode(ino) && |disk| == BLOCK_NUM && IsData(ino.blocks[NDIRECT])
    requires Peek(disk, ino.blocks[NDIRECT]) == Zeroes(BLOCK_SIZE)
    ensures WordAt(Peek(Fill(disk, ino, LongBuf(), NDIRECT, LONG), ino.blocks[NDIRECT]), 0) == 0
  {
    ZeroChunk();
    var disk1 := Poke(disk, Nth(disk, ino, NDIRECT), Chunk(LongBuf(), NDIRECT));
    assert Nth(disk, ino, NDIRECT) == 0
           && Fill(disk, ino, LongBuf(), NDIRECT, LONG) == Fill(disk1, ino, LongBuf(), LONG, LONG);
  }

  lemma TableWiped(disk: seq<Block>, ino: Inode)
    requires ValidInode(ino) && |disk| == BLOCK_NUM && IsData(ino.blocks[NDIRECT])
    requires Ids(disk, ino, LONG)[0] == ino.blocks[NDIRECT] && Apart(Ids(disk, ino, LONG))
    ensures WordAt(Peek(Fill(disk, ino, LongBuf(), 0, LONG), ino.blocks[NDIRECT]), 0) == 0
  {
    FillParts(disk, ino, LongBuf(), 0, NDIRECT, LONG);
    DirectWipes(disk, ino);
    LastGoesWrong(Fill(disk, ino, LongBuf(), 0, NDIRECT), ino);
  }

  lemma AmongData(nblocks: Word, blocks: seq<Word>)
    requires |blocks| == NDIRECT + 1 && nblocks >= 8 * BPB && IsData(blocks[NDIRECT])
    requires Formatted(nblocks, blocks).next == blocks[NDIRECT]
    ensures Bounded(Formatted(nblocks, blocks)) && !PutsRight(Formatted(nblocks, blocks), 1, LongBuf())
  {
    var t := blocks[NDIRECT];
    var g, s' := LongGrows(nblocks, blocks);
    LongInode(g, s', t);
    FirstIsTable(nblocks, blocks, g);
    var ino := g.ino.(size := LONG * BLOCK_SIZE);
    assert Ids(g.store.disk, ino, LONG) == Ids(g.store.disk, g.ino, LONG);
    TableWiped(g.store.disk, ino);
    assert !IsData(At(1));
    if Bounded(s') {
      BadNumber(s');
    }
  }

  // ----- all of them --------------------------------------------------------------------------

  lemma SparePuts(nblocks: Word, blocks: seq<Word>, buf: Bytes)
    requires |blocks| == NDIRECT + 1 && nblocks >= 8 * BPB && IsSpare(blocks[NDIRECT]) && |buf| <= MAXBYTES
    ensures Bounded(Formatted(nblocks, blocks)) && PutsRight(Formatted(nblocks, blocks), 1, buf)
  {
    StartSound(nblocks, blocks);
    StartFiles(nblocks, blocks);
    WriteReads(Formatted(nblocks, blocks), 1, buf);
  }

  ghost predicate AlwaysPutsRight(blocks: seq<Word>)
    requires |blocks| == NDIRECT + 1
  {
    forall nblocks: Word, buf: Bytes :: nblocks >= 8 * BPB && |buf| <= MAXBYTES ==>
      Bounded(Formatted(nblocks, blocks)) && PutsRight(Formatted(nblocks, blocks), 1, buf)
  }

  /** Puts to the root of the formatted disk go right, wherever the search begins, if and
      only if the root's table number is that of a block before the inodes. */
  lemma TableExactly(blocks: seq<Word>)
    requires |blocks| == NDIRECT + 1
    ensures AlwaysPutsRight(blocks) <==> IsSpare(blocks[NDIRECT])
  {
    var t := blocks[NDIRECT];
    if IsSpare(t) {
      forall nblocks: Word, buf: Bytes | nblocks >= 8 * BPB && |buf| <= MAXBYTES
        ensures Bounded(Formatted(nblocks, blocks)) && PutsRight(Formatted(nblocks, blocks), 1, buf)
      {
        SparePuts(nblocks, blocks, buf);
      }
    } else if t == At(1) {
      OwnInode(8 * BPB, blocks);
    } else if t < START {
      OtherInodes(8 * BPB, blocks);
    } else if t < BLOCK_NUM {
      AmongData((t - 1028) * BPB, blocks);
    } else {
      PastDisk(8 * BPB, blocks);
    }
  }
}
