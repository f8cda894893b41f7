// The objects of the inode layer, updated in place (inode_manager.cc).  Every method is
// proved to compute the function of the same name in file_system.dfy.

module InodeManagers {
  import opened Wrappers
  import opened Bytes
  import opened DiskLayout
  import opened FileSystem
  import FileRuns

  lemma PutSame(s: Store, i: nat)
    requires |s.disk| == BLOCK_NUM
    ensures PutInode(s, i, InodeOf(s, i)) == s
  {
    EncodeDecode(Peek(s.disk, At(i)));
  }

  class Disk {
    const blocks: array<Block>

    ghost predicate Valid() {
      blocks.Length == BLOCK_NUM
    }

    constructor ()
      ensures Valid() && fresh(blocks) && blocks[..] == seq(BLOCK_NUM, i => Zeroes(BLOCK_SIZE))
    {
      blocks := new Block[BLOCK_NUM](i => Zeroes(BLOCK_SIZE));
    }

    /** Out of range, the buffer stays as it was. */
    method ReadBlock(id: Word, buf: Block) returns (r: Block)
      requires Valid()
      ensures r == if id < BLOCK_NUM then blocks[id] else buf
    {
      r := if id < BLOCK_NUM then blocks[id] else buf;
    }

    method WriteBlock(id: Word, buf: Block)
      requires Valid()
      modifies blocks
      ensures blocks[..] == Poke(old(blocks[..]), id, buf)
    {
      if id < BLOCK_NUM {
        blocks[id] := buf;
      }
    }
  }

  class BlockManager {
    var nextBlock: Word
    const d: Disk
    var usingBlocks: map<Word, nat>

    ghost predicate Valid() {
      d.Valid()
    }

    ghost function Used(): set<nat>
      reads this
    {
      set b: Word | b in usingBlocks && usingBlocks[b] != 0
    }

    ghost function State(): Store
      reads this, d.blocks
    {
      Store(d.blocks[..], Used(), nextBlock)
    }

    /** `nblocks`: what the superblock's memory held before it was set. */
    constructor (nblocks: Word)
      ensures Valid() && fresh(d) && fresh(d.blocks)
      ensures State() == Store(seq(BLOCK_NUM, i => Zeroes(BLOCK_SIZE)), {}, IBLOCK(INODE_NUM, nblocks) + 1)
    {
      d := new Disk();
      nextBlock := IBLOCK(INODE_NUM, nblocks) + 1;
      usingBlocks := map[];
    }

    /** The least free block of the range is marked; -1 when there is none. */
    method FindFitBlock(begin: Word, end: Word, start: Word) returns (res: int)
      requires Valid()
      modifies this
      ensures match FirstFree(old(Used()), begin, end)
              case None => res == -1 && State() == old(State())
              case Some(b) =>
                && res == b
                && var next := if b + 1 == BLOCK_NUM then start else b + 1;
                   State() == old(State()).(used := old(Used()) + {b}, next := next)
    {
      var hover := begin;
      while hover < end
        invariant State() == old(State())
        invariant FirstFree(old(Used()), begin, end) == FirstFree(old(Used()), hover, end)
      {
        if hover !in usingBlocks {
          usingBlocks := usingBlocks[hover := 0];
        }
        assert Used() == old(Used());
        if usingBlocks[hover] == 0 {
          usingBlocks := usingBlocks[hover := 1];
          assert Used() == old(Used()) + {hover};
          nextBlock := if hover + 1 == BLOCK_NUM then start else hover + 1;
          return hover;
        }
        hover := hover + 1;
      }
      return -1;
    }

    /** None where the program exits. */
    method AllocBlock() returns (r: Option<Word>)
      requires Valid()
      modifies this
      ensures match FitBlock(old(State()))
              case None => r == None
              case Some(b) => r.Some? && r.value == b && State() == Taken(old(State()), b)
    {
      var start := IBLOCK(INODE_NUM, BLOCK_NUM) + 1;
      var res := FindFitBlock(nextBlock, BLOCK_NUM, start);
      if res == -1 {
        res := FindFitBlock(start, nextBlock, start);
      }
      return if res == -1 then None else Some(res);
    }

    method FreeBlock(id: Word)
      requires Valid()
      modifies this
      ensures State() == old(State()).(used := old(Used()) - {id})
    {
      usingBlocks := usingBlocks[id := 0];
    }

    method ReadBlock(id: Word) returns (r: Block)
      requires Valid()
      ensures r == Peek(State().disk, id)
    {
      r := d.ReadBlock(id, Zeroes(BLOCK_SIZE));
    }

    method WriteBlock(id: Word, buf: Block)
      requires Valid()
      modifies d.blocks
      ensures State() == old(State()).(disk := Poke(old(State()).disk, id, buf))
    {
      d.WriteBlock(id, buf);
    }
  }

  class InodeManager {
    var nextInum: nat
    const bm: BlockManager

    ghost predicate Valid()
      reads this
    {
      bm.Valid() && 2 <= nextInum <= INODE_NUM
    }

    ghost function State(): Store
      reads bm, bm.d.blocks
    {
      bm.State()
    }

    ghost function Whole(): Fs
      reads this, bm, bm.d.blocks
    {
      Fs(bm.State(), nextInum)
    }

    /** `blocks`: what the root inode's memory held. */
    constructor (nblocks: Word, blocks: seq<Word>)
      requires |blocks| == NDIRECT + 1
      ensures Valid() && fresh(bm) && fresh(bm.d) && fresh(bm.d.blocks)
      ensures Whole() == FileRuns.Start(nblocks, blocks)
    {
      bm := new BlockManager(nblocks);
      nextInum := 2;
      new;
      PutInode(1, Inode(1, 0, blocks));
    }

    method GetInode(inum: nat) returns (r: Option<Inode>)
      requires Valid()
      ensures r == if IsInum(inum) then Some(InodeOf(State(), inum)) else None
    {
      if inum <= 0 || inum > INODE_NUM {
        return None;
      }
      var buf := bm.ReadBlock(IBLOCK(inum, BLOCK_NUM));
      return Some(Decode(buf));
    }

    method PutInode(inum: nat, ino: Inode)
      requires Valid() && ValidInode(ino) && IsInum(inum)
      modifies bm.d.blocks
      ensures State() == FileSystem.PutInode(old(State()), inum, ino)
    {
      var buf := bm.ReadBlock(IBLOCK(inum, BLOCK_NUM));
      bm.WriteBlock(IBLOCK(inum, BLOCK_NUM), Encode(buf, ino));
    }

    // ----- the blocks of a file -----------------------------------------------------------

    method GetNthBlock(ino: Inode, nth: nat) returns (id: Word)
      requires Valid() && ValidInode(ino) && nth < MAXFILE
      ensures id == Nth(State().disk, ino, nth)
    {
      if nth < NDIRECT {
        return ino.blocks[nth];
      }
      var inblock := bm.ReadBlock(ino.blocks[NDIRECT]);
      return WordAt(inblock, nth - NDIRECT);
    }

    method ReadNthBlock(ino: Inode, nth: nat) returns (buf: Block)
      requires Valid() && ValidInode(ino) && nth < MAXFILE
      ensures buf == Peek(State().disk, Nth(State().disk, ino, nth))
    {
      var id := GetNthBlock(ino, nth);
      buf := bm.ReadBlock(id);
    }

    method WriteNthBlock(ino: Inode, nth: nat, buf: Block)
      requires Valid() && ValidInode(ino) && nth < MAXFILE
      modifies bm.d.blocks
      ensures State() == old(State()).(disk := Poke(old(State()).disk, Nth(old(State()).disk, ino, nth), buf))
    {
      var id := GetNthBlock(ino, nth);
      bm.WriteBlock(id, buf);
    }

    /** None where the program exits; otherwise the inode with its new block. */
    method AllocNthBlock(ino: Inode, nth: nat) returns (r: Option<Inode>)
      requires Valid() && ValidInode(ino) && nth < MAXFILE
      modifies bm, bm.d.blocks
      ensures Valid()
      ensures match FitBlock(old(State()))
              case None => r == None
              case Some(b) =>
                var (disk, ino1) := SetNth(old(State()).disk, ino, nth, b);
                r == Some(ino1) && State() == Taken(old(State()), b).(disk := disk)
    {
      var id := bm.AllocBlock();
      if id == None {
        return None;
      }
      if nth < NDIRECT {
        return Some(ino.(blocks := ino.blocks[nth := id.value]));
      }
      var table := ino.blocks[NDIRECT];
      var inblock := bm.ReadBlock(table);
      bm.WriteBlock(table, SetWord(inblock, nth - NDIRECT, id.value));
      return Some(ino);
    }

    method FreeNthBlock(ino: Inode, nth: nat)
      requires Valid() && ValidInode(ino) && nth < MAXFILE
      modifies bm
      ensures Valid()
      ensures State() == old(State()).(used := old(State()).used - {Nth(old(State()).disk, ino, nth)})
    {
      var id := GetNthBlock(ino, nth);
      bm.FreeBlock(id);
    }

    // ----- files --------------------------------------------------------------------------

    /** None where the program exits, on a size no file can have. */
    method ReadFile(inum: nat) returns (r: Option<Bytes>)
      requires Valid() && IsInum(inum)
      modifies bm.d.blocks
      ensures Whole() == old(Whole())
      ensures r == if InodeOf(State(), inum).size <= MAXBYTES then Some(FileSystem.ReadFile(State(), inum)) else None
    {
      var found := GetInode(inum);
      var ino := found.value;
      if ino.size == 0 {
        assert FileSystem.ReadFile(State(), inum) == [];
        return Some([]);
      }
      if ino.size > MAXFILE * BLOCK_SIZE {
        return None;
      }
      var rv := ReadBlocks(ino, (ino.size - 1) / BLOCK_SIZE + 1);
      assert rv[..ino.size] == FileSystem.ReadFile(State(), inum);
      PutSame(State(), inum);
      PutInode(inum, ino);
      return Some(rv[..ino.size]);
    }

    method ReadBlocks(ino: Inode, blockNum: nat) returns (rv: Bytes)
      requires Valid() && ValidInode(ino) && blockNum <= MAXFILE
      ensures |rv| == 512 * blockNum
      ensures forall p :: 0 <= p < |rv| ==> rv[p] == Peek(State().disk, Nth(State().disk, ino, p / 512))[p % 512]
    {
      rv := [];
      var nth := 0;
      while nth < blockNum
        invariant nth <= blockNum && |rv| == 512 * nth
        invariant forall p :: 0 <= p < |rv| ==> rv[p] == Peek(State().disk, Nth(State().disk, ino, p / 512))[p % 512]
      {
        var content := ReadNthBlock(ino, nth);
        rv := rv + content;
        nth := nth + 1;
      }
    }

    /** false where the program exits, the disk being full. */
    method WriteFile(inum: nat, buf: Bytes) returns (ok: bool)
      requires Valid() && IsInum(inum) && InodeOf(State(), inum).size <= MAXBYTES && |buf| <= MAXBYTES
      modifies bm, bm.d.blocks
      ensures ok <==> FileSystem.WriteFile(old(State()), inum, buf).Some?
      ensures ok ==> Valid() && State() == FileSystem.WriteFile(old(State()), inum, buf).value
    {
      var found := GetInode(inum);
      var before := if found.value.size == 0 then 0 else (found.value.size - 1) / BLOCK_SIZE + 1;
      var after := if |buf| == 0 then 0 else (|buf| - 1) / BLOCK_SIZE + 1;
      var resized := Resize(found.value, before, after);
      if resized == None {
        return false;
      }
      FillFile(inum, resized.value, buf, after);
      return true;
    }

    /** The data and the inode, once the blocks are there. */
    method FillFile(inum: nat, resized: Inode, buf: Bytes, after: nat)
      requires Valid() && IsInum(inum) && ValidInode(resized) && |buf| <= MAXBYTES && after == BlocksFor(|buf|)
      modifies bm.d.blocks
      ensures State() == Filled(Grown(old(State()), resized), inum, buf)
    {
      var ino := resized.(size := |buf|);
      if after != 0 {
        WriteBlocks(ino, buf, after);
      }
      PutInode(inum, ino);
    }

    /** The inode with its blocks freed or allocated; None where the program exits. */
    method Resize(ino0: Inode, before: nat, after: nat) returns (r: Option<Inode>)
      requires Valid() && ValidInode(ino0) && before <= MAXFILE && after <= MAXFILE
      modifies bm, bm.d.blocks
      ensures match Resized(old(State()), ino0, before, after)
              case None => r == None
              case Some(g) => Valid() && r == Some(g.ino) && State() == g.store
    {
      var ino := ino0;
      if after < before {
        var start := after;
        while start < before
          invariant after <= start <= before && Valid()
          invariant Shrink(old(State()), ino, after, before) == Shrink(State(), ino, start, before)
        {
          FreeNthBlock(ino, start);
          start := start + 1;
        }
      } else if after > before {
        var start := before;
        while start < after
          invariant before <= start <= after && Valid() && ValidInode(ino)
          invariant Grow(old(State()), ino0, before, after) == Grow(State(), ino, start, after)
        {
          var grown := AllocNthBlock(ino, start);
          if grown == None {
            return None;
          }
          ino := grown.value;
          start := start + 1;
        }
      }
      return Some(ino);
    }

    /** Whole blocks first, then the tail with its padding. */
    method WriteBlocks(ino: Inode, buf: Bytes, after: nat)
      requires Valid() && ValidInode(ino) && after == BlocksFor(|buf|) && 0 < after <= MAXFILE
      modifies bm.d.blocks
      ensures State() == old(State()).(disk := Fill(old(State()).disk, ino, buf, 0, after))
    {
      var start := 0;
      while start + 1 < after
        invariant start + 1 <= after
        invariant State() == old(State()).(disk := State().disk)
        invariant Fill(old(State()).disk, ino, buf, 0, after) == Fill(State().disk, ino, buf, start, after)
      {
        var content := buf[BLOCK_SIZE * start..BLOCK_SIZE * (start + 1)];
        assert content == Chunk(buf, start);
        WriteNthBlock(ino, start, content);
        start := start + 1;
      }
      var padding := after * BLOCK_SIZE - |buf|;
      var tail := BLOCK_SIZE - padding;
      var content := buf[BLOCK_SIZE * start..BLOCK_SIZE * start + tail] + seq(padding, i => 0);
      assert content == Chunk(buf, start);
      WriteNthBlock(ino, after - 1, content);
    }

    /** The kind, with its sign extended, and the size. */
    method GetAttr(inum: nat) returns (r: Option<(Word, Word)>)
      requires Valid()
      ensures r ==
              if IsInum(inum) then Some((Widened(InodeOf(State(), inum).kind), InodeOf(State(), inum).size)) else None
    {
      var ino := GetInode(inum);
      if ino == None {
        return None;
      }
      var kind: int := if ino.value.kind < 0x8000 then ino.value.kind else ino.value.kind - 0x1_0000;
      return Some((kind % 0x1_0000_0000, ino.value.size));
    }

    /** false where the program exits, the inode being free already. */
    method FreeInode(inum: nat) returns (ok: bool)
      requires Valid()
      modifies bm.d.blocks
      ensures ok <==> Live(old(State()), inum)
      ensures ok ==> State() == FileSystem.PutInode(old(State()), inum, InodeOf(old(State()), inum).(kind := 0))
    {
      var ino := GetInode(inum);
      if ino == None || ino.value.kind == 0 {
        return false;
      }
      PutInode(inum, ino.value.(kind := 0));
      return true;
    }

    method RemoveFile(inum: nat) returns (ok: bool)
      requires Valid() && IsInum(inum) && InodeOf(State(), inum).size <= MAXBYTES
      modifies bm, bm.d.blocks
      ensures ok <==> FileSystem.RemoveFile(old(State()), inum).Some?
      ensures ok ==> Valid() && State() == FileSystem.RemoveFile(old(State()), inum).value
    {
      var found := GetInode(inum);
      var ino := found.value;
      var blockNum := if ino.size == 0 then 0 else (ino.size - 1) / BLOCK_SIZE + 1;
      ghost var s := State();
      var start := 0;
      while start < blockNum
        invariant start <= blockNum <= MAXFILE && Valid() && State().disk == s.disk
        invariant Shrink(s, ino, 0, blockNum) == Shrink(State(), ino, start, blockNum)
      {
        FreeNthBlock(ino, start);
        start := start + 1;
      }
      ok := FreeInode(inum);
    }

    /** The new file's inode; None where the program exits, every inode being taken. */
    method AllocInode(kind: nat) returns (r: Option<nat>)
      requires Valid()
      modifies this, bm.d.blocks
      ensures Valid()
      ensures match FileSystem.AllocInode(old(Whole()), kind)
              case None => r == None && Whole() == old(Whole())
              case Some((i, fs)) => r == Some(i) && Whole() == fs
    {
      var hover := nextInum;
      var ino: Option<Inode> := None;
      while hover < INODE_NUM + 1
        invariant nextInum <= hover <= INODE_NUM + 1 && Whole() == old(Whole())
        invariant FirstFreeInode(State(), nextInum, INODE_NUM + 1) == FirstFreeInode(State(), hover, INODE_NUM + 1)
        decreases INODE_NUM + 1 - hover
      {
        ino := GetInode(hover);
        if ino.value.kind == 0 {
          break;
        }
        hover := hover + 1;
      }
      if hover == INODE_NUM + 1 {
        hover := 2;
        while hover < nextInum
          invariant 2 <= hover <= nextInum && Whole() == old(Whole())
          invariant FirstFreeInode(State(), 2, nextInum) == FirstFreeInode(State(), hover, nextInum)
          decreases nextInum - hover
        {
          ino := GetInode(hover);
          if ino.value.kind == 0 {
            break;
          }
          hover := hover + 1;
        }
        if hover == nextInum {
          return None;
        }
      }
      nextInum := if hover + 1 > INODE_NUM then 2 else hover + 1;
      PutInode(hover, ino.value.(kind := kind % 0x1_0000, size := 0));
      return Some(hover);
    }
  }
}
