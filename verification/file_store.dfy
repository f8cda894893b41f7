// What the inode layer keeps over any sequence of operations: the used blocks are
// exactly the blocks of the live inodes, and the disk is a map from live inodes to
// file contents.

module FileStore {
  import opened Wrappers
  import opened Bytes
  import opened DiskLayout
  import opened FileSystem
  import opened BlockOwnership

  // ----- what the disk holds ---------------------------------------------------------------

  function Count(s: Store, j: nat): nat {
    BlocksFor(InodeOf(s, j).size)
  }

  /** The block that numbers a file's last blocks; nothing ever sets it. */
  function Table(s: Store, j: nat): Word {
    InodeOf(s, j).blocks[NDIRECT]
  }

  /** Before the inodes: superblock and bitmap, which nothing writes. */
  predicate IsSpare(b: nat) {
    b < At(1)
  }

  /** Sizes in range. */
  ghost predicate Bounded(s: Store) {
    |s.disk| == BLOCK_NUM && forall j: nat {:trigger InodeOf(s, j)} :: IsInum(j) ==> InodeOf(s, j).size <= MAXBYTES
  }

  /** And no table where an inode or data could be. */
  ghost predicate Formed(s: Store) {
    Bounded(s) && InRange(s) && forall j: nat {:trigger InodeOf(s, j)} :: IsInum(j) ==> IsSpare(Table(s, j))
  }

  lemma CountBound(size: nat)
    requires size <= MAXBYTES
    ensures BlocksFor(size) <= MAXFILE
    ensures forall p: nat :: p < size ==> p / 512 < BlocksFor(size)
  {
  }

  function IdsOf(s: Store, j: nat): seq<nat>
    requires InodeOf(s, j).size <= MAXBYTES
  {
    CountBound(InodeOf(s, j).size);
    if Live(s, j) then Ids(s.disk, InodeOf(s, j), Count(s, j)) else []
  }

  ghost function ListsOf(s: Store): Lists
    requires Bounded(s)
  {
    map j: nat | 1 <= j <= INODE_NUM :: IdsOf(s, j)
  }

  /** An inode whose last blocks are numbered in the table. */
  predicate Large(s: Store, j: nat) {
    Live(s, j) && Count(s, j) > NDIRECT
  }

  /** No other large file has the same table. */
  ghost predicate OthersSmall(s: Store, i: nat) {
    forall j :: Large(s, j) && Table(s, j) == Table(s, i) ==> j == i
  }

  ghost predicate OneLarge(s: Store) {
    forall i, j :: Large(s, i) && Large(s, j) && Table(s, i) == Table(s, j) ==> i == j
  }

  /** Exact ownership: no leak, no block used twice, none outside the data region. */
  ghost predicate Sound(s: Store) {
    Formed(s) && Exact(ListsOf(s), s.used) && OneLarge(s)
  }

  datatype File = File(kind: Half, data: Bytes)

  /** The store as its users see it. */
  ghost function Files(s: Store): map<nat, File>
    requires Bounded(s)
  {
    map j: nat | 1 <= j <= INODE_NUM && Live(s, j) :: File(InodeOf(s, j).kind, ReadFile(s, j))
  }

  lemma ReadByte(s: Store, j: nat, p: nat)
    requires Bounded(s) && Live(s, j) && p < InodeOf(s, j).size
    ensures |ReadFile(s, j)| == InodeOf(s, j).size
    ensures p / 512 < |IdsOf(s, j)| == Count(s, j)
    ensures ReadFile(s, j)[p] == Peek(s.disk, IdsOf(s, j)[p / 512])[p % 512]
  {
    CountBound(InodeOf(s, j).size);
  }

  /** A file whose inode, block numbers and blocks stay, stays. */
  lemma ReadFrame(s: Store, s': Store, j: nat)
    requires Bounded(s) && Bounded(s') && Live(s, j) && InodeOf(s', j) == InodeOf(s, j)
    requires IdsOf(s', j) == IdsOf(s, j)
    requires forall k :: 0 <= k < |IdsOf(s, j)| ==> Peek(s'.disk, IdsOf(s, j)[k]) == Peek(s.disk, IdsOf(s, j)[k])
    ensures ReadFile(s', j) == ReadFile(s, j)
  {
    forall p: nat | p < InodeOf(s, j).size ensures ReadFile(s', j)[p] == ReadFile(s, j)[p] {
      ReadByte(s, j, p);
      ReadByte(s', j, p);
    }
  }

  lemma FilesFrame(s: Store, s': Store, i: nat)
    requires Bounded(s) && Bounded(s') && IsInum(i)
    requires forall j: nat :: IsInum(j) && j != i ==> InodeOf(s', j) == InodeOf(s, j)
    requires forall j: nat :: Live(s, j) && j != i ==> ReadFile(s', j) == ReadFile(s, j)
    ensures Files(s') ==
            if Live(s', i) then Files(s)[i := File(InodeOf(s', i).kind, ReadFile(s', i))] else Files(s) - {i}
  {
  }

  // ----- writing ------------------------------------------------------------------------------

  /** A grown inode: fresh blocks are added to its list. */
  lemma GrowLists(s: Store, i: nat, n: nat)
    requires Sound(s) && Live(s, i) && Count(s, i) <= n <= MAXFILE && Grow(s, InodeOf(s, i), Count(s, i), n).Some?
    ensures var g := Grow(s, InodeOf(s, i), Count(s, i), n).value;
            Exact(ListsOf(s)[i := Ids(g.store.disk, g.ino, n)], g.store.used) && InRange(g.store)
  {
    var ino, lo, ls := InodeOf(s, i), Count(s, i), ListsOf(s);
    assert ls[i] == Ids(s.disk, ino, lo);
    GrowAdds(s, ino, lo, n);
    var g := Grow(s, ino, lo, n).value;
    var ids := Ids(g.store.disk, g.ino, n);
    ExactAppend(ls, s.used, i, ids[lo..]);
    assert ls[i] + ids[lo..] == ids;
  }

  /** A shrunk one: its list is cut, and the rest is freed. */
  lemma ShrinkLists(s: Store, i: nat, n: nat)
    requires Sound(s) && Live(s, i) && n <= Count(s, i) <= MAXFILE
    ensures var s' := Shrink(s, InodeOf(s, i), n, Count(s, i));
            && Exact(ListsOf(s)[i := Ids(s'.disk, InodeOf(s, i), n)], s'.used)
            && InRange(s') && s'.disk == s.disk
  {
    var ino, lo, ls := InodeOf(s, i), Count(s, i), ListsOf(s);
    assert ls[i] == Ids(s.disk, ino, lo);
    ShrinkDrops(s, ino, n, lo);
    ExactTruncate(ls, s.used, i, n);
    assert ls[i][..n] == Ids(s.disk, ino, n);
  }

  /** Resizing changes the inode's list alone: either it is cut, and the rest is freed,
      or fresh blocks are added to it. */
  lemma ResizeLists(s: Store, i: nat, n: nat)
    requires Sound(s) && Live(s, i) && n <= MAXFILE
    ensures Count(s, i) <= MAXFILE
    ensures Resized(s, InodeOf(s, i), Count(s, i), n) == None <==> Count(s, i) + |FreeBlocks(s.used)| < n
    ensures Resized(s, InodeOf(s, i), Count(s, i), n).Some? ==>
              var g := Resized(s, InodeOf(s, i), Count(s, i), n).value;
              && Exact(ListsOf(s)[i := Ids(g.store.disk, g.ino, n)], g.store.used)
              && |g.store.disk| == BLOCK_NUM && InRange(g.store)
              && g.ino.kind == InodeOf(s, i).kind && g.ino.blocks[NDIRECT] == Table(s, i)
              && (forall x: nat :: x != Table(s, i) || n <= NDIRECT ==> Peek(g.store.disk, x) == Peek(s.disk, x))
  {
    CountBound(InodeOf(s, i).size);
    if n < Count(s, i) {
      ShrinkLists(s, i, n);
    } else {
      GrowFails(s, InodeOf(s, i), Count(s, i), n);
      if Grow(s, InodeOf(s, i), Count(s, i), n).Some? {
        GrowLists(s, i, n);
        GrowKeeps(s, InodeOf(s, i), Count(s, i), n);
      }
    }
  }

  lemma ResizeContinues(s: Store, i: nat, n: nat)
    requires Sound(s) && Live(s, i) && n <= MAXFILE && Count(s, i) <= MAXFILE
    requires Resized(s, InodeOf(s, i), Count(s, i), n).Some?
    ensures var g := Resized(s, InodeOf(s, i), Count(s, i), n).value;
            Continues(s, i, Ids(g.store.disk, g.ino, n))
  {
    var ino, lo := InodeOf(s, i), Count(s, i);
    assert IdsOf(s, i) == Ids(s.disk, ino, lo);
    if n < lo {
      ShrinkDrops(s, ino, n, lo);
      assert Ids(s.disk, ino, lo)[..n] == Ids(s.disk, ino, n);
    } else {
      GrowAdds(s, ino, lo, n);
    }
  }

  /** The disk after i is written with buf: its inode, its blocks, at most the table
      have changed, and its list is new. */
  ghost predicate Placed(s: Store, i: nat, buf: Bytes, s': Store, ids: seq<nat>)
    requires Formed(s)
  {
    var ino, n := InodeOf(s', i), BlocksFor(|buf|);
    && |buf| <= MAXBYTES && n <= MAXFILE && ids == Ids(s'.disk, ino, n)
    && InRange(s') && |s'.disk| == BLOCK_NUM
    && ino.kind == InodeOf(s, i).kind && ino.size == |buf| && ino.blocks[NDIRECT] == Table(s, i)
    && Exact(ListsOf(s)[i := ids], s'.used)
    && (forall k :: 0 <= k < n ==> IsData(ids[k]) && Peek(s'.disk, ids[k]) == Chunk(buf, k))
    && (forall x: nat :: x !in ids && x != At(i) && (x != Table(s, i) || n <= NDIRECT) ==>
       Peek(s'.disk, x) == Peek(s.disk, x))
  }

  lemma WrotePlaced(s: Store, i: nat, buf: Bytes, g: Grown, s': Store, ids: seq<nat>)
    requires Formed(s) && Live(s, i) && |buf| <= MAXBYTES && ValidInode(g.ino) && s' == Filled(g, i, buf)
    requires BlocksFor(|buf|) <= MAXFILE && ids == Ids(g.store.disk, g.ino, BlocksFor(|buf|))
    requires Exact(ListsOf(s)[i := ids], g.store.used)
    requires |g.store.disk| == BLOCK_NUM && InRange(g.store)
    requires g.ino.kind == InodeOf(s, i).kind && g.ino.blocks[NDIRECT] == Table(s, i)
    requires forall x: nat :: x != Table(s, i) || BlocksFor(|buf|) <= NDIRECT ==>
             Peek(g.store.disk, x) == Peek(s.disk, x)
    ensures Placed(s, i, buf, s', ids)
  {
    var n := BlocksFor(|buf|);
    var ino := g.ino.(size := |buf|);
    var ls := ListsOf(s)[i := ids];
    forall k, k' | 0 <= k < n && 0 <= k' < n ensures IsData(ids[k]) && (ids[k] == ids[k'] ==> k == k') {
      assert Has(ls, i, k) && Has(ls, i, k');
    }
    assert Ids(g.store.disk, ino, n) == ids;
    assert IsSpare(Table(s, i)) && forall k :: 0 <= k < n ==> ids[k] != Table(s, i);
    FillWrites(g.store.disk, ino, buf, 0, n, ids);
    assert ids[0..] == ids;
    PutKeeps(Fill(g.store.disk, ino, buf, 0, n), i, ino);
    assert !IsData(At(i)) && !IsSpare(At(i));
    IdsFrame(g.store.disk, s'.disk, ino, n);
  }

  lemma PutKeeps(disk: seq<Block>, i: nat, ino: Inode)
    requires |disk| == BLOCK_NUM && IsInum(i) && ValidInode(ino)
    ensures var disk' := Poke(disk, At(i), Encode(Peek(disk, At(i)), ino));
            && |disk'| == BLOCK_NUM && Decode(Peek(disk', At(i))) == ino
            && forall x: nat :: x != At(i) ==> Peek(disk', x) == Peek(disk, x)
  {
    DecodeEncode(Peek(disk, At(i)), ino);
  }

  lemma ExactGives(ls: Lists, used: set<nat>, s: Store)
    requires Formed(s) && ListsOf(s) == ls && s.used == used && Exact(ls, used) && OneLarge(s)
    ensures Sound(s)
  {
  }

  /** Whatever else changed, another inode is still the same. */
  lemma OtherInode(s: Store, i: nat, buf: Bytes, s': Store, ids: seq<nat>, j: nat)
    requires Formed(s) && Placed(s, i, buf, s', ids) && IsInum(i) && IsInum(j) && i != j
    ensures InodeOf(s', j) == InodeOf(s, j)
  {
    assert !IsData(At(j)) && At(j) != At(i) && !IsSpare(At(j)) && IsSpare(Table(s, i));
  }

  lemma OtherIds(s: Store, i: nat, buf: Bytes, s': Store, ids: seq<nat>, j: nat)
    requires Formed(s) && Placed(s, i, buf, s', ids) && IsInum(j) && IsInum(i) && i != j
    requires BlocksFor(|buf|) <= NDIRECT || OthersSmall(s, i)
    ensures InodeOf(s', j) == InodeOf(s, j) && InodeOf(s, j).size <= MAXBYTES && IdsOf(s', j) == IdsOf(s, j)
  {
    OtherInode(s, i, buf, s', ids, j);
    CountBound(InodeOf(s, j).size);
    assert IsSpare(Table(s, j)) && !IsData(Table(s, j)) && !IsSpare(At(i));
    if Live(s, j) {
      if Large(s, j) { assert BlocksFor(|buf|) <= NDIRECT || Table(s, j) != Table(s, i); }
      IdsFrame(s.disk, s'.disk, InodeOf(s, j), Count(s, j));
    }
  }

  lemma OtherRead(s: Store, i: nat, buf: Bytes, s': Store, ids: seq<nat>, j: nat)
    requires Formed(s) && Formed(s') && Placed(s, i, buf, s', ids) && Live(s, j) && j != i && IsInum(i)
    requires InodeOf(s', j) == InodeOf(s, j) && IdsOf(s', j) == IdsOf(s, j)
    ensures ReadFile(s', j) == ReadFile(s, j)
  {
    var ls := ListsOf(s)[i := ids];
    forall k: nat | k < |IdsOf(s, j)| ensures Peek(s'.disk, IdsOf(s, j)[k]) == Peek(s.disk, IdsOf(s, j)[k]) {
      assert Has(ls, j, k);
      forall k': nat | k' < |ids| ensures ids[k'] != IdsOf(s, j)[k] {
        assert Has(ls, i, k');
      }
      assert IsData(IdsOf(s, j)[k]) && !IsData(At(i)) && IsSpare(Table(s, i)) && !IsData(Table(s, i));
    }
    ReadFrame(s, s', j);
  }

  lemma PlacedRead(s: Store, i: nat, buf: Bytes, s': Store, ids: seq<nat>)
    requires Formed(s) && Bounded(s') && Placed(s, i, buf, s', ids) && Live(s, i)
    ensures ReadFile(s', i) == buf
  {
    forall p: nat | p < |buf| ensures ReadFile(s', i)[p] == buf[p] {
      ReadByte(s', i, p);
    }
  }

  lemma PlacedOthers(s: Store, i: nat, buf: Bytes, s': Store, ids: seq<nat>)
    requires Formed(s) && IsInum(i) && Placed(s, i, buf, s', ids)
    requires BlocksFor(|buf|) <= NDIRECT || OthersSmall(s, i)
    ensures forall j: nat :: IsInum(j) && j != i ==>
              InodeOf(s', j) == InodeOf(s, j) && InodeOf(s, j).size <= MAXBYTES && IdsOf(s', j) == IdsOf(s, j)
    ensures Formed(s')
  {
    forall j: nat | IsInum(j) && j != i
      ensures InodeOf(s', j) == InodeOf(s, j) && InodeOf(s, j).size <= MAXBYTES && IdsOf(s', j) == IdsOf(s, j)
    {
      OtherIds(s, i, buf, s', ids, j);
    }
  }

  /** The lists after a write: i's is new, the others stay. */
  lemma PlacedLists(s: Store, i: nat, buf: Bytes, s': Store, ids: seq<nat>)
    requires Sound(s) && Live(s, i) && Placed(s, i, buf, s', ids)
    requires BlocksFor(|buf|) <= NDIRECT || OthersSmall(s, i)
    ensures forall j: nat :: IsInum(j) && j != i ==> InodeOf(s', j) == InodeOf(s, j) && IdsOf(s', j) == IdsOf(s, j)
    ensures Formed(s') && Live(s', i) && ListsOf(s') == ListsOf(s)[i := ids] && OneLarge(s')
  {
    PlacedOthers(s, i, buf, s', ids);
    assert IdsOf(s', i) == ids;
    LargeStays(s, s', i);
  }

  lemma LargeStays(s: Store, s': Store, i: nat)
    requires OneLarge(s) && (Count(s', i) <= NDIRECT || OthersSmall(s, i)) && Table(s', i) == Table(s, i)
    requires forall j: nat :: IsInum(j) && j != i ==> InodeOf(s', j) == InodeOf(s, j)
    ensures OneLarge(s')
  {
    forall j, k | Large(s', j) && Large(s', k) && Table(s', j) == Table(s', k) ensures j == k {
      assert j != i ==> Large(s, j) && Table(s', j) == Table(s, j);
      assert k != i ==> Large(s, k) && Table(s', k) == Table(s, k);
    }
  }

  lemma PlacedFiles(s: Store, i: nat, buf: Bytes, s': Store, ids: seq<nat>)
    requires Sound(s) && Live(s, i) && Placed(s, i, buf, s', ids)
    requires BlocksFor(|buf|) <= NDIRECT || OthersSmall(s, i)
    ensures Sound(s') && Files(s') == Files(s)[i := File(InodeOf(s, i).kind, buf)]
  {
    PlacedLists(s, i, buf, s', ids);
    ExactGives(ListsOf(s)[i := ids], s'.used, s');
    forall j: nat | Live(s, j) && j != i ensures ReadFile(s', j) == ReadFile(s, j) {
      OtherRead(s, i, buf, s', ids, j);
    }
    PlacedRead(s, i, buf, s', ids);
    FilesFrame(s, s', i);
  }

  predicate Continues(s: Store, i: nat, ids: seq<nat>)
    requires InodeOf(s, i).size <= MAXBYTES
  {
    ids <= IdsOf(s, i) || IdsOf(s, i) <= ids
  }

  lemma WriteContinues(s: Store, i: nat, buf: Bytes) returns (ids: seq<nat>)
    requires Sound(s) && Live(s, i) && |buf| <= MAXBYTES && WriteFile(s, i, buf).Some?
    ensures Placed(s, i, buf, WriteFile(s, i, buf).value, ids) && Continues(s, i, ids)
  {
    var n := BlocksFor(|buf|);
    CountBound(|buf|);
    ResizeLists(s, i, n);
    ResizeContinues(s, i, n);
    var r := Resized(s, InodeOf(s, i), Count(s, i), n);
    ids := Ids(r.value.store.disk, r.value.ino, n);
    WrotePlaced(s, i, buf, r.value, WriteFile(s, i, buf).value, ids);
  }

  lemma WritePlaced(s: Store, i: nat, buf: Bytes)
    requires Sound(s) && Live(s, i) && |buf| <= MAXBYTES
    ensures WriteFile(s, i, buf) == None <==> Count(s, i) + |FreeBlocks(s.used)| < BlocksFor(|buf|)
    ensures WriteFile(s, i, buf).Some? ==> exists ids :: Placed(s, i, buf, WriteFile(s, i, buf).value, ids)
  {
    CountBound(|buf|);
    ResizeLists(s, i, BlocksFor(|buf|));
    if WriteFile(s, i, buf).Some? {
      var ids := WriteContinues(s, i, buf);
    }
  }

  /** A write fails exactly when there are too few free blocks.  When it succeeds, the
      file reads back as written and every other file as before, unless both the file
      and some other one of the same table number are too long for direct blocks. */
  lemma WriteReads(s: Store, i: nat, buf: Bytes)
    requires Sound(s) && Live(s, i) && |buf| <= MAXBYTES
    ensures WriteFile(s, i, buf) == None <==> Count(s, i) + |FreeBlocks(s.used)| < BlocksFor(|buf|)
    ensures WriteFile(s, i, buf).Some? && (BlocksFor(|buf|) <= NDIRECT || OthersSmall(s, i)) ==>
              var s' := WriteFile(s, i, buf).value;
              Sound(s') && Files(s') == Files(s)[i := File(InodeOf(s, i).kind, buf)]
  {
    WritePlaced(s, i, buf);
    if WriteFile(s, i, buf).Some? && (BlocksFor(|buf|) <= NDIRECT || OthersSmall(s, i)) {
      var ids :| Placed(s, i, buf, WriteFile(s, i, buf).value, ids);
      PlacedFiles(s, i, buf, WriteFile(s, i, buf).value, ids);
    }
  }

  /** The table is shared: once two files of the same table number are too long for direct
      blocks, all their further blocks are the same, and the other file reads there what
      was written. */
  lemma SharedTable(s: Store, i: nat, buf: Bytes, j: nat)
    requires Sound(s) && Live(s, i) && |buf| <= MAXBYTES && WriteFile(s, i, buf).Some?
    requires BlocksFor(|buf|) > NDIRECT && Large(s, j) && j != i && Table(s, j) == Table(s, i)
    ensures var s' := WriteFile(s, i, buf).value;
            && Formed(s') && !Exact(ListsOf(s'), s'.used)
            && InodeOf(s', j) == InodeOf(s, j)
            && NDIRECT * BLOCK_SIZE < |buf| && NDIRECT * BLOCK_SIZE < |ReadFile(s', j)|
            && forall p :: NDIRECT * BLOCK_SIZE <= p < |buf| && p < |ReadFile(s', j)| ==> ReadFile(s', j)[p] == buf[p]
  {
    var s' := WriteFile(s, i, buf).value;
    WritePlaced(s, i, buf);
    var ids :| Placed(s, i, buf, s', ids);
    forall m: nat | IsInum(m) && m != i ensures InodeOf(s', m) == InodeOf(s, m) {
      OtherInode(s, i, buf, s', ids, m);
    }
    assert Formed(s') && Live(s', i) && Live(s', j);
    CountBound(InodeOf(s, j).size);
    SharedBlocks(s', i, j);
    PlacedRead(s, i, buf, s', ids);
  }

  lemma SharedByte(s: Store, i: nat, j: nat, p: nat)
    requires Bounded(s) && Large(s, i) && Large(s, j) && Table(s, i) == Table(s, j)
    requires NDIRECT * BLOCK_SIZE <= p < InodeOf(s, i).size && p < InodeOf(s, j).size
    ensures p < |ReadFile(s, i)| && p < |ReadFile(s, j)| && ReadFile(s, i)[p] == ReadFile(s, j)[p]
  {
    ReadByte(s, i, p);
    ReadByte(s, j, p);
  }

  lemma SharedBlocks(s: Store, i: nat, j: nat)
    requires Bounded(s) && Large(s, i) && Large(s, j) && i != j && Table(s, i) == Table(s, j)
    ensures !Exact(ListsOf(s), s.used)
    ensures NDIRECT * BLOCK_SIZE < |ReadFile(s, i)| && NDIRECT * BLOCK_SIZE < |ReadFile(s, j)|
    ensures forall p :: NDIRECT * BLOCK_SIZE <= p < |ReadFile(s, i)| && p < |ReadFile(s, j)| ==>
              ReadFile(s, i)[p] == ReadFile(s, j)[p]
  {
    CountBound(InodeOf(s, i).size);
    CountBound(InodeOf(s, j).size);
    var ls := ListsOf(s);
    assert Has(ls, i, NDIRECT) && Has(ls, j, NDIRECT) && ls[i][NDIRECT] == ls[j][NDIRECT];
    forall p | NDIRECT * BLOCK_SIZE <= p < InodeOf(s, i).size && p < InodeOf(s, j).size
      ensures ReadFile(s, i)[p] == ReadFile(s, j)[p]
    {
      SharedByte(s, i, j, p);
    }
  }

  /** A write keeps the ownership exact if and only if the file is short enough for direct
      blocks or no other file of its table number is longer. */
  lemma WriteKeepsSound(s: Store, i: nat, buf: Bytes)
    requires Sound(s) && Live(s, i) && |buf| <= MAXBYTES && WriteFile(s, i, buf).Some?
    ensures Sound(WriteFile(s, i, buf).value) <==> (BlocksFor(|buf|) <= NDIRECT || OthersSmall(s, i))
  {
    WriteReads(s, i, buf);
    if BlocksFor(|buf|) > NDIRECT && !OthersSmall(s, i) {
      var j :| Large(s, j) && Table(s, j) == Table(s, i) && j != i;
      SharedTable(s, i, buf, j);
    }
  }

  // ----- creating and removing -------------------------------------------------------------------

  /** Only inode i's record changes, and it owns no block afterwards; those it owned are
      no longer used. */
  ghost predicate Recorded(s: Store, i: nat, ino: Inode, s': Store) {
    && IsInum(i) && ino.blocks == InodeOf(s, i).blocks && ino.size <= MAXBYTES && (ino.kind == 0 || ino.size == 0)
    && InodeOf(s', i) == ino && |s'.disk| == |s.disk|
    && InodeOf(s, i).size <= MAXBYTES && s'.used == s.used - Elems(IdsOf(s, i)) && s'.next == s.next
    && forall x: nat :: x != At(i) ==> Peek(s'.disk, x) == Peek(s.disk, x)
  }

  lemma PutRecords(s: Store, i: nat, ino: Inode)
    requires Formed(s) && IsInum(i) && ValidInode(ino)
    requires ino.blocks == InodeOf(s, i).blocks && ino.size <= MAXBYTES && (ino.kind == 0 || ino.size == 0)
    ensures Recorded(s, i, ino, PutInode(s.(used := s.used - Elems(IdsOf(s, i))), i, ino))
  {
    DecodeEncode(Peek(s.disk, At(i)), ino);
  }

  lemma RecordOther(s: Store, i: nat, ino: Inode, s': Store, j: nat)
    requires Formed(s) && Recorded(s, i, ino, s') && IsInum(j) && j != i
    ensures InodeOf(s', j) == InodeOf(s, j) && InodeOf(s, j).size <= MAXBYTES && IdsOf(s', j) == IdsOf(s, j)
  {
    assert At(j) != At(i) && IsSpare(Table(s, j)) && !IsSpare(At(i));
    CountBound(InodeOf(s, j).size);
    if Live(s, j) {
      IdsFrame(s.disk, s'.disk, InodeOf(s, j), Count(s, j));
    }
  }

  lemma RecordLists(s: Store, i: nat, ino: Inode, s': Store)
    requires Sound(s) && Recorded(s, i, ino, s')
    ensures forall j: nat :: IsInum(j) && j != i ==> InodeOf(s', j) == InodeOf(s, j) && IdsOf(s', j) == IdsOf(s, j)
    ensures Formed(s') && ListsOf(s') == ListsOf(s)[i := []] && OneLarge(s')
  {
    forall j: nat | IsInum(j) && j != i
      ensures InodeOf(s', j) == InodeOf(s, j) && InodeOf(s, j).size <= MAXBYTES && IdsOf(s', j) == IdsOf(s, j)
    {
      RecordOther(s, i, ino, s', j);
    }
    assert Formed(s');
    assert IdsOf(s', i) == [];
    forall j | Large(s', j) ensures Large(s, j) && Table(s', j) == Table(s, j) {}
  }

  lemma RecordSound(s: Store, i: nat, ino: Inode, s': Store)
    requires Sound(s) && Recorded(s, i, ino, s')
    requires Formed(s') && ListsOf(s') == ListsOf(s)[i := []] && OneLarge(s')
    ensures Sound(s')
  {
    ExactTruncate(ListsOf(s), s.used, i, 0);
    assert IdsOf(s, i)[0..] == IdsOf(s, i);
    assert ListsOf(s)[i][..0] == [];
    ExactGives(ListsOf(s'), s'.used, s');
  }

  lemma RecordFiles(s: Store, i: nat, ino: Inode, s': Store)
    requires Sound(s) && Recorded(s, i, ino, s')
    ensures Sound(s')
    ensures Files(s') == if ino.kind == 0 then Files(s) - {i} else Files(s)[i := File(ino.kind, [])]
  {
    RecordLists(s, i, ino, s');
    RecordSound(s, i, ino, s');
    forall j: nat | Live(s, j) && j != i ensures ReadFile(s', j) == ReadFile(s, j) {
      RecordRead(s, i, s', j);
    }
    FilesFrame(s, s', i);
  }

  lemma RecordRead(s: Store, i: nat, s': Store, j: nat)
    requires Sound(s) && Formed(s') && Live(s, j) && IsInum(i) && j != i
    requires InodeOf(s', j) == InodeOf(s, j) && IdsOf(s', j) == IdsOf(s, j)
    requires forall x: nat :: x != At(i) ==> Peek(s'.disk, x) == Peek(s.disk, x)
    ensures ReadFile(s', j) == ReadFile(s, j)
  {
    forall k: nat | k < |IdsOf(s, j)| ensures IdsOf(s, j)[k] != At(i) {
      assert Has(ListsOf(s), j, k);
      assert !IsData(At(i));
    }
    ReadFrame(s, s', j);
  }

  /** Removing a file forgets it and frees its blocks, no others; of the inode only the kind
      changes.  It fails exactly when the inode is free. */
  lemma RemoveForgets(s: Store, i: nat)
    requires Sound(s) && IsInum(i)
    ensures RemoveFile(s, i).Some? <==> Live(s, i)
    ensures Live(s, i) ==>
              var s' := RemoveFile(s, i).value;
              && Sound(s') && Files(s') == Files(s) - {i}
              && s'.used == s.used - Elems(IdsOf(s, i))
              && InodeOf(s', i) == InodeOf(s, i).(kind := 0)
  {
    if Live(s, i) {
      CountBound(InodeOf(s, i).size);
      ShrinkDrops(s, InodeOf(s, i), 0, Count(s, i));
      assert IdsOf(s, i)[0..] == IdsOf(s, i);
      PutRecords(s, i, InodeOf(s, i).(kind := 0));
      RecordFiles(s, i, InodeOf(s, i).(kind := 0), RemoveFile(s, i).value);
    }
  }

  predicate NextInumOk(fs: Fs) {
    2 <= fs.nextInum <= INODE_NUM
  }

  /** Creating takes a free inode, never the root, and gives it an empty file; it fails
      exactly when every inode but the root is taken.  The inode is the first free one from
      where the search begins, going round at the end.  A kind that is 0 as a short leaves
      it free. */
  lemma CreateFresh(fs: Fs, kind: nat)
    requires Sound(fs.store) && NextInumOk(fs)
    ensures AllocInode(fs, kind) == None <==> forall j :: 2 <= j <= INODE_NUM ==> Live(fs.store, j)
    ensures AllocInode(fs, kind).Some? ==>
              var (i, fs') := AllocInode(fs, kind).value;
              && 2 <= i <= INODE_NUM && !Live(fs.store, i)
              && InodeOf(fs'.store, i) == InodeOf(fs.store, i).(kind := kind % 0x1_0000, size := 0)
              && (forall j: nat ::
                    (if i >= fs.nextInum then fs.nextInum <= j < i else fs.nextInum <= j <= INODE_NUM || 2 <= j < i) ==>
                    Live(fs.store, j))
              && Sound(fs'.store) && NextInumOk(fs') && fs'.store.used == fs.store.used
              && Files(fs'.store) ==
                 if kind % 0x1_0000 == 0 then Files(fs.store) else Files(fs.store)[i := File(kind % 0x1_0000, [])]
  {
    var s := fs.store;
    var a := FirstFreeInode(s, fs.nextInum, INODE_NUM + 1);
    var b := FirstFreeInode(s, 2, fs.nextInum);
    if a == None && b == None {
      forall j | 2 <= j <= INODE_NUM ensures Live(s, j) {
        assert InodeOf(s, j).kind != 0;
      }
    } else {
      var i := FitInode(fs).value;
      forall j: nat | (if i >= fs.nextInum then fs.nextInum <= j < i else fs.nextInum <= j <= INODE_NUM || 2 <= j < i)
        ensures Live(s, j)
      {
        assert InodeOf(s, j).kind != 0;
      }
      assert 2 <= i <= INODE_NUM && !Live(s, i);
      assert s.(used := s.used - Elems(IdsOf(s, i))) == s;
      var ino := InodeOf(s, i).(kind := kind % 0x1_0000, size := 0);
      PutRecords(s, i, ino);
      RecordFiles(s, i, ino, AllocInode(fs, kind).value.1.store);
      assert Files(s) - {i} == Files(s);
    }
  }

  // ----- table numbers ---------------------------------------------------------------------------

  /** No operation sets a table number. */
  lemma WriteTables(s: Store, i: nat, buf: Bytes)
    requires Sound(s) && Live(s, i) && |buf| <= MAXBYTES && WriteFile(s, i, buf).Some?
    ensures forall j: nat :: IsInum(j) ==> Table(WriteFile(s, i, buf).value, j) == Table(s, j)
  {
    var s' := WriteFile(s, i, buf).value;
    WritePlaced(s, i, buf);
    var ids :| Placed(s, i, buf, s', ids);
    forall j: nat | IsInum(j) ensures Table(s', j) == Table(s, j) {
      if j != i { OtherInode(s, i, buf, s', ids, j); }
    }
  }

  lemma CreateTables(fs: Fs, kind: nat)
    requires Sound(fs.store) && NextInumOk(fs) && AllocInode(fs, kind).Some?
    ensures forall j: nat :: IsInum(j) ==> Table(AllocInode(fs, kind).value.1.store, j) == Table(fs.store, j)
  {
    var s, i, s' := fs.store, FitInode(fs).value, AllocInode(fs, kind).value.1.store;
    var ino := InodeOf(s, i).(kind := kind % 0x1_0000, size := 0);
    assert IsInum(i) && !Live(s, i) && s.(used := s.used - Elems(IdsOf(s, i))) == s;
    PutRecords(s, i, ino);
    forall j: nat | IsInum(j) ensures Table(s', j) == Table(s, j) {
      if j != i { RecordOther(s, i, ino, s', j); }
    }
  }

  // ----- in numbers ------------------------------------------------------------------------------

  /** A write of at most 51200 bytes goes right whatever the other files are. */
  lemma ShortWriteReads(s: Store, i: nat, buf: Bytes)
    requires Sound(s) && Live(s, i) && |buf| <= 51200 && WriteFile(s, i, buf).Some?
    ensures Sound(WriteFile(s, i, buf).value)
    ensures Files(WriteFile(s, i, buf).value) == Files(s)[i := File(InodeOf(s, i).kind, buf)]
  {
    WriteReads(s, i, buf);
  }

  /** A write of at most 116736 bytes does when no other file is longer than 51200. */
  lemma LongWriteReads(s: Store, i: nat, buf: Bytes)
    requires Sound(s) && Live(s, i) && |buf| <= 116736 && WriteFile(s, i, buf).Some?
    requires forall j :: j in Files(s) && |Files(s)[j].data| > 51200 ==> j == i
    ensures Sound(WriteFile(s, i, buf).value)
    ensures Files(WriteFile(s, i, buf).value) == Files(s)[i := File(InodeOf(s, i).kind, buf)]
  {
    forall j | Large(s, j) ensures j == i {
      assert j in Files(s);
    }
    WriteReads(s, i, buf);
  }

  lemma PlacedIds(s: Store, i: nat, buf: Bytes, s': Store, ids: seq<nat>)
    requires Formed(s) && Live(s, i) && Placed(s, i, buf, s', ids)
    ensures InodeOf(s', i).size == |buf| <= MAXBYTES && IdsOf(s', i) == ids && |ids| == BlocksFor(|buf|)
  {
  }

  lemma PlacedChunk(s: Store, i: nat, buf: Bytes, s': Store, ids: seq<nat>, k: nat)
    requires Formed(s) && Placed(s, i, buf, s', ids) && 512 * k < |buf|
    ensures k < |ids| && Peek(s'.disk, ids[k]) == Chunk(buf, k)
  {
    BlocksForLeast(|buf|);
    assert k < BlocksFor(|buf|);
  }

  /** The blocks of a written file: the data, and zeros behind its end. */
  lemma WritePads(s: Store, i: nat, buf: Bytes, k: nat)
    requires Sound(s) && Live(s, i) && |buf| <= MAXBYTES && WriteFile(s, i, buf).Some? && 512 * k < |buf|
    ensures var s' := WriteFile(s, i, buf).value;
            && InodeOf(s', i).size <= MAXBYTES && k < |IdsOf(s', i)|
            && forall p :: 0 <= p < 512 ==>
                 Peek(s'.disk, IdsOf(s', i)[k])[p] == if 512 * k + p < |buf| then buf[512 * k + p] else 0
  {
    var s' := WriteFile(s, i, buf).value;
    var ids := WriteContinues(s, i, buf);
    PlacedIds(s, i, buf, s', ids);
    PlacedChunk(s, i, buf, s', ids, k);
    ChunkBytes(buf, k);
  }

  lemma ChunkBytes(buf: Bytes, k: nat)
    ensures forall p :: 0 <= p < 512 ==> Chunk(buf, k)[p] == if 512 * k + p < |buf| then buf[512 * k + p] else 0
  {
  }

  /** A file keeps its blocks as far as it still needs them. */
  lemma WriteKeepsBlocks(s: Store, i: nat, buf: Bytes)
    requires Sound(s) && Live(s, i) && |buf| <= MAXBYTES && WriteFile(s, i, buf).Some?
    ensures var s' := WriteFile(s, i, buf).value;
            InodeOf(s', i).size <= MAXBYTES && (IdsOf(s', i) <= IdsOf(s, i) || IdsOf(s, i) <= IdsOf(s', i))
  {
    var s' := WriteFile(s, i, buf).value;
    var ids := WriteContinues(s, i, buf);
    PlacedIds(s, i, buf, s', ids);
  }
}
