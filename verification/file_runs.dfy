// The extent server's disk over whole runs: it starts with an empty root directory, and
// every create, put and remove is a step of a map from inode numbers to files.

module FileRuns {
  import opened Wrappers
  import opened Bytes
  import opened DiskLayout
  import opened FileSystem
  import opened BlockOwnership
  import opened FileStore

  // ----- the beginning -----------------------------------------------------------------------

  /** Format.  `nblocks` is what the superblock's memory held before it was set, `blocks`
      what the root inode's did. */
  function Start(nblocks: Word, blocks: seq<Word>): Fs
    requires |blocks| == NDIRECT + 1
  {
    var empty := Store(seq(BLOCK_NUM, i => Zeroes(BLOCK_SIZE)), {}, IBLOCK(INODE_NUM, nblocks) + 1);
    Fs(PutInode(empty, 1, Inode(1, 0, blocks)), 2)
  }

  lemma StartInodes(nblocks: Word, blocks: seq<Word>, j: nat)
    requires |blocks| == NDIRECT + 1 && IsInum(j)
    ensures InodeOf(Start(nblocks, blocks).store, j) ==
            if j == 1 then Inode(1, 0, blocks) else Inode(0, 0, seq(NDIRECT + 1, i => 0))
  {
    var disk := seq(BLOCK_NUM, i => Zeroes(BLOCK_SIZE));
    assert At(j) < |disk| && (At(j) == At(1) ==> j == 1);
    DecodeEncode(Zeroes(BLOCK_SIZE), Inode(1, 0, blocks));
    forall k | 0 <= k < 128 ensures WordAt(Zeroes(BLOCK_SIZE), k) == 0 {}
    assert Decode(Zeroes(BLOCK_SIZE)).blocks == seq(NDIRECT + 1, i => 0);
  }

  lemma StartFiles(nblocks: Word, blocks: seq<Word>)
    requires |blocks| == NDIRECT + 1
    ensures var s := Start(nblocks, blocks).store;
            && Bounded(s) && (forall j :: Live(s, j) <==> j == 1) && InodeOf(s, 1) == Inode(1, 0, blocks)
            && (forall j: nat :: IsInum(j) ==> IdsOf(s, j) == [])
            && Files(s) == map[1 := File(1, [])]
            && forall j: nat :: IsInum(j) && j != 1 ==> Table(s, j) == 0
  {
    var s := Start(nblocks, blocks).store;
    forall j: nat | IsInum(j)
      ensures InodeOf(s, j) == if j == 1 then Inode(1, 0, blocks) else Inode(0, 0, seq(NDIRECT + 1, i => 0))
    {
      StartInodes(nblocks, blocks, j);
    }
    forall j: nat | IsInum(j) ensures IdsOf(s, j) == [] {}
    assert ReadFile(s, 1) == [];
  }

  /** The disk starts sound, with an empty root and nothing else, when the superblock
      happened to hold a disk's size and the root's table is before the inodes. */
  lemma StartSound(nblocks: Word, blocks: seq<Word>)
    requires |blocks| == NDIRECT + 1
    ensures Sound(Start(nblocks, blocks).store) <==> nblocks >= 8 * BPB && IsSpare(blocks[NDIRECT])
    ensures Sound(Start(nblocks, blocks).store) ==>
              NextInumOk(Start(nblocks, blocks)) && Files(Start(nblocks, blocks).store) == map[1 := File(1, [])]
  {
    StartFiles(nblocks, blocks);
    assert Table(Start(nblocks, blocks).store, 1) == blocks[NDIRECT];
  }

  /** Otherwise the first blocks that are given to files are those of the last inodes. */
  lemma FirstBlock(nblocks: Word, blocks: seq<Word>)
    requires |blocks| == NDIRECT + 1
    ensures var b := FitBlock(Start(nblocks, blocks).store);
            && b.Some?
            && (IsData(b.value) <==> nblocks >= 8 * BPB)
            && (!IsData(b.value) <==> exists i :: IsInum(i) && b.value == At(i))
  {
    var s := Start(nblocks, blocks).store;
    if nblocks >= 8 * BPB {
      AllocatorComplete(s);
    } else {
      assert FirstFree({}, s.next, BLOCK_NUM) == Some(s.next);
      var i: nat := s.next - 11;
      assert IsInum(i) && At(i) == s.next;
    }
    assert forall i :: IsInum(i) ==> !IsData(At(i));
  }

  // ----- calls ----------------------------------------------------------------------------------

  datatype Call = Create(kind: nat) | Put(inum: nat, buf: Bytes) | Remove(inum: nat)

  ghost predicate Does(fs: Fs, c: Call, fs': Fs) {
    match c
    case Create(kind) => AllocInode(fs, kind).Some? && fs' == AllocInode(fs, kind).value.1
    case Put(i, buf) =>
      && InodeOf(fs.store, i).size <= MAXBYTES && |buf| <= MAXBYTES
      && fs'.nextInum == fs.nextInum && WriteFile(fs.store, i, buf) == Some(fs'.store)
    case Remove(i) =>
      && InodeOf(fs.store, i).size <= MAXBYTES
      && fs'.nextInum == fs.nextInum && RemoveFile(fs.store, i) == Some(fs'.store)
  }

  /** What a caller must see to: the file exists, is not too long, and is not the second
      one to need a table. */
  ghost predicate MayCall(m: map<nat, File>, c: Call) {
    match c
    case Create(kind) => true
    case Put(i, buf) =>
      && i in m && |buf| <= 116736
      && (|buf| <= 51200 || forall j :: j in m && |m[j].data| > 51200 ==> j == i)
    case Remove(i) => i in m
  }

  ghost predicate Maps(m: map<nat, File>, c: Call, m': map<nat, File>) {
    match c
    case Create(kind) =>
      if kind % 0x1_0000 == 0 then m' == m
      else exists i: nat :: 2 <= i <= INODE_NUM && i !in m && m' == m[i := File(kind % 0x1_0000, [])]
    case Put(i, buf) => i in m && m' == m[i := File(m[i].kind, buf)]
    case Remove(i) => i in m && m' == m - {i}
  }

  ghost predicate Good(fs: Fs) {
    Sound(fs.store) && NextInumOk(fs)
  }

  lemma LargeFiles(s: Store)
    requires Formed(s)
    ensures forall j :: Live(s, j) <==> j in Files(s)
    ensures forall j :: j in Files(s) ==> (|Files(s)[j].data| > NDIRECT * BLOCK_SIZE <==> Large(s, j))
  {
  }

  /** Every call is a step of the map. */
  lemma CallMaps(fs: Fs, c: Call, fs': Fs)
    requires Good(fs) && Does(fs, c, fs') && MayCall(Files(fs.store), c)
    ensures Good(fs') && Maps(Files(fs.store), c, Files(fs'.store))
  {
    LargeFiles(fs.store);
    match c
    case Create(kind) => CreateFresh(fs, kind);
    case Put(i, buf) => WriteReads(fs.store, i, buf);
    case Remove(i) => RemoveForgets(fs.store, i);
  }

  // ----- runs -----------------------------------------------------------------------------------

  /** From a good state, by calls that may be made. */
  ghost predicate Run(states: seq<Fs>, calls: seq<Call>) {
    && |states| == |calls| + 1 && Good(states[0])
    && forall k :: 0 <= k < |calls| ==> RunStep(states[k], calls[k], states[k + 1])
  }

  ghost predicate RunStep(fs: Fs, c: Call, fs': Fs) {
    Does(fs, c, fs') && (Good(fs) ==> MayCall(Files(fs.store), c))
  }

  /** Ownership stays exact, and every call does what it should to the map of files. */
  lemma {:induction false} RunMaps(states: seq<Fs>, calls: seq<Call>, k: nat)
    requires Run(states, calls) && k <= |calls|
    ensures Good(states[k])
    ensures k < |calls| ==> Good(states[k + 1]) && Maps(Files(states[k].store), calls[k], Files(states[k + 1].store))
  {
    if k > 0 {
      RunMaps(states, calls, k - 1);
    }
    if k < |calls| {
      assert RunStep(states[k], calls[k], states[k + 1]);
      CallMaps(states[k], calls[k], states[k + 1]);
    }
  }

  // ----- runs of the map --------------------------------------------------------------------------

  ghost predicate MapRun(ms: seq<map<nat, File>>, calls: seq<Call>) {
    |ms| == |calls| + 1 && forall k :: 0 <= k < |calls| ==> Maps(ms[k], calls[k], ms[k + 1])
  }

  /** A run of the disk is a run of the map. */
  lemma RunRefines(states: seq<Fs>, calls: seq<Call>) returns (ms: seq<map<nat, File>>)
    requires Run(states, calls)
    ensures MapRun(ms, calls)
    ensures forall k :: 0 <= k < |states| ==> Good(states[k]) && ms[k] == Files(states[k].store)
  {
    forall k: nat | k <= |calls|
      ensures Good(states[k])
      ensures k < |calls| ==> Good(states[k + 1]) && Maps(Files(states[k].store), calls[k], Files(states[k + 1].store))
    {
      RunMaps(states, calls, k);
    }
    ms := seq(|states|, k requires 0 <= k < |states| && Good(states[k]) => Files(states[k].store));
  }

  predicate Touches(c: Call, i: nat) {
    (c.Put? || c.Remove?) && c.inum == i
  }

  lemma {:induction false} MapLastWrite(ms: seq<map<nat, File>>, calls: seq<Call>, k: nat, n: nat, i: nat, buf: Bytes)
    requires MapRun(ms, calls) && k < n <= |calls| && calls[k] == Put(i, buf)
    requires forall m :: k < m < n ==> !Touches(calls[m], i)
    ensures i in ms[n] && ms[n][i].data == buf
  {
    assert Maps(ms[n - 1], calls[n - 1], ms[n]);
    if n - 1 > k {
      MapLastWrite(ms, calls, k, n - 1, i, buf);
      assert !Touches(calls[n - 1], i);
    }
  }

  /** Call m of the run gives out inode i. */
  predicate GivesOut(fs: Fs, c: Call, i: nat) {
    c.Create? && AllocInode(fs, c.kind).Some? && AllocInode(fs, c.kind).value.0 == i
  }

  lemma NotBack(fs: Fs, c: Call, fs': Fs, i: nat)
    requires Good(fs) && RunStep(fs, c, fs') && !Live(fs.store, i) && !GivesOut(fs, c, i)
    ensures Good(fs') && !Live(fs'.store, i)
  {
    CallMaps(fs, c, fs');
    LargeFiles(fs.store);
    LargeFiles(fs'.store);
    if c.Create? {
      CreateFresh(fs, c.kind);
    }
    assert i !in Files(fs'.store);
  }

  lemma RemoveTakes(fs: Fs, fs': Fs, i: nat)
    requires Good(fs) && RunStep(fs, Remove(i), fs')
    ensures Good(fs') && !Live(fs'.store, i)
  {
    CallMaps(fs, Remove(i), fs');
    LargeFiles(fs'.store);
    assert i !in Files(fs'.store);
  }

  /** A file reads as it was last written, whatever happened to the others. */
  lemma LastWriteStays(states: seq<Fs>, calls: seq<Call>, k: nat, n: nat, i: nat, buf: Bytes)
    requires Run(states, calls) && k < n <= |calls| && calls[k] == Put(i, buf)
    requires forall m :: k < m < n ==> !Touches(calls[m], i)
    ensures Good(states[n]) && Live(states[n].store, i) && ReadFile(states[n].store, i) == buf
  {
    var ms := RunRefines(states, calls);
    MapLastWrite(ms, calls, k, n, i, buf);
    assert i in Files(states[n].store);
  }

  /** A removed file stays away until its inode is given to a new one. */
  lemma {:induction false} RemovedStays(states: seq<Fs>, calls: seq<Call>, k: nat, n: nat, i: nat)
    requires Run(states, calls) && k < n <= |calls| && calls[k] == Remove(i)
    requires forall m :: k < m < n ==> !GivesOut(states[m], calls[m], i)
    ensures Good(states[n]) && !Live(states[n].store, i)
    decreases n
  {
    if n - 1 > k {
      RemovedStays(states, calls, k, n - 1, i);
      NotBackAt(states, calls, n - 1, i);
    } else {
      RemoveTakesAt(states, calls, k, i);
    }
  }

  lemma NotBackAt(states: seq<Fs>, calls: seq<Call>, m: nat, i: nat)
    requires Run(states, calls) && m < |calls| && !Live(states[m].store, i) && !GivesOut(states[m], calls[m], i)
    ensures Good(states[m + 1]) && !Live(states[m + 1].store, i)
  {
    RunMaps(states, calls, m);
    NotBack(states[m], calls[m], states[m + 1], i);
  }

  lemma RemoveTakesAt(states: seq<Fs>, calls: seq<Call>, m: nat, i: nat)
    requires Run(states, calls) && m < |calls| && calls[m] == Remove(i)
    ensures Good(states[m + 1]) && !Live(states[m + 1].store, i)
  {
    RunMaps(states, calls, m);
    RemoveTakes(states[m], states[m + 1], i);
  }

  // ----- two long files -----------------------------------------------------------------------------

  function DataFrom(lo: nat): set<nat> {
    set b: nat | b < BLOCK_NUM && IsData(b) && lo <= b
  }

  lemma {:induction false} DataSize(lo: nat)
    requires START <= lo <= BLOCK_NUM
    ensures |DataFrom(lo)| == BLOCK_NUM - lo
    decreases BLOCK_NUM - lo
  {
    if lo < BLOCK_NUM {
      DataSize(lo + 1);
      assert IsData(lo);
      assert DataFrom(lo) == {lo} + DataFrom(lo + 1);
    }
  }

  lemma {:induction false} ElemsSize(bs: seq<nat>)
    ensures |Elems(bs)| <= |bs|
  {
    if bs != [] {
      ElemsSize(bs[1..]);
      assert Elems(bs) == {bs[0]} + Elems(bs[1..]);
    }
  }

  lemma FreeSize(used: set<nat>)
    ensures |FreeBlocks(used)| >= BLOCK_NUM - START - |used|
  {
    DataSize(START);
    assert DataFrom(START) <= FreeBlocks(used) + used;
    SubsetSize(DataFrom(START), FreeBlocks(used) + used);
  }

  lemma {:induction false} SubsetSize(a: set<nat>, b: set<nat>)
    requires a <= b
    ensures |a| <= |b|
  {
    if x :| x in a {
      SubsetSize(a - {x}, b - {x});
    }
  }

  /** When only one file has blocks, only those are used. */
  lemma OneOwnerUses(s: Store, i: nat)
    requires Sound(s) && Live(s, i) && forall j :: Live(s, j) && j != i ==> InodeOf(s, j).size == 0
    ensures |s.used| <= MAXFILE
  {
    forall b | b in s.used ensures b in Elems(IdsOf(s, i)) {
      assert Owned(ListsOf(s), b);
      var j: nat, k: nat :| Has(ListsOf(s), j, k) && ListsOf(s)[j][k] == b;
    }
    CountBound(InodeOf(s, i).size);
    ElemsSize(IdsOf(s, i));
    SubsetSize(s.used, Elems(IdsOf(s, i)));
  }

  function Zeroed(): seq<Word> {
    seq(NDIRECT + 1, i => 0)
  }

  /** One long write onto the nearly empty disk, and there is room for another. */
  lemma LongWrite(fs: Fs, i: nat, buf: Bytes) returns (fs': Fs)
    requires Good(fs) && |buf| == 51712 && i != 1
    requires Files(fs.store) == map[1 := File(1, []), i := File(2, [])]
    requires Table(fs.store, 1) == Table(fs.store, i)
    ensures Table(fs'.store, 1) == Table(fs'.store, i)
    ensures Good(fs') && Does(fs, Put(i, buf), fs') && MayCall(Files(fs.store), Put(i, buf))
    ensures Live(fs'.store, 1) && InodeOf(fs'.store, 1).size == 0 && Large(fs'.store, i)
    ensures |FreeBlocks(fs'.store.used)| >= NDIRECT + 1
  {
    LargeFiles(fs.store);
    assert i in Files(fs.store) && 1 in Files(fs.store);
    forall j | Live(fs.store, j) && j != i ensures InodeOf(fs.store, j).size == 0 {
      assert j in Files(fs.store) && Files(fs.store)[j].data == [];
    }
    OneOwnerUses(fs.store, i);
    FreeSize(fs.store.used);
    WriteReads(fs.store, i, buf);
    fs' := Fs(WriteFile(fs.store, i, buf).value, fs.nextInum);
    CallMaps(fs, Put(i, buf), fs');
    WriteTables(fs.store, i, buf);
    LargeFiles(fs'.store);
    forall j | Live(fs'.store, j) && j != i ensures InodeOf(fs'.store, j).size == 0 {
      assert j in Files(fs'.store) && Files(fs'.store)[j].data == [];
    }
    OneOwnerUses(fs'.store, i);
    FreeSize(fs'.store.used);
  }

  lemma FirstCreate(fs: Fs) returns (i: nat, fs': Fs)
    requires fs == Start(8 * BPB, Zeroed())
    ensures Good(fs) && Does(fs, Create(2), fs') && Good(fs') && i != 1
    ensures Files(fs'.store) == map[1 := File(1, []), i := File(2, [])]
    ensures Table(fs'.store, 1) == Table(fs'.store, i)
  {
    StartSound(8 * BPB, Zeroed());
    StartFiles(8 * BPB, Zeroed());
    CreateFresh(fs, 2);
    CreateTables(fs, 2);
    LargeFiles(fs.store);
    assert !Live(fs.store, 2);
    i, fs' := AllocInode(fs, 2).value.0, AllocInode(fs, 2).value.1;
  }

  /** Another file past the direct blocks, and the ownership is no longer exact. */
  lemma SecondLong(s: Store, i: nat, buf: Bytes)
    requires Sound(s) && i != 1 && Live(s, 1) && Large(s, i) && InodeOf(s, 1).size == 0 && Table(s, 1) == Table(s, i)
    requires |buf| == 51712 && |FreeBlocks(s.used)| >= NDIRECT + 1
    ensures WriteFile(s, 1, buf).Some? && !Sound(WriteFile(s, 1, buf).value)
  {
    WriteReads(s, 1, buf);
    WriteKeepsSound(s, 1, buf);
  }

  /** It comes to pass: on the formatted disk a file is created and written, of 101 blocks;
      a write as long to the root then succeeds, and the file and the root share their
      last block. */
  lemma SharedTableArises(buf: Bytes) returns (states: seq<Fs>, calls: seq<Call>, i: nat)
    requires |buf| == 51712
    ensures Run(states, calls) && states[0] == Start(8 * BPB, Zeroed()) && |calls| == 2
    ensures Good(states[2]) && Live(states[2].store, 1) && i != 1 && Large(states[2].store, i)
    ensures InodeOf(states[2].store, 1).size == 0 && Table(states[2].store, 1) == Table(states[2].store, i)
    ensures WriteFile(states[2].store, 1, buf).Some? && !Sound(WriteFile(states[2].store, 1, buf).value)
  {
    var fs0 := Start(8 * BPB, Zeroed());
    var inum, fs1 := FirstCreate(fs0);
    var fs2 := LongWrite(fs1, inum, buf);
    i := inum;
    states, calls := [fs0, fs1, fs2], [Create(2), Put(i, buf)];
    assert RunStep(fs0, calls[0], fs1) && RunStep(fs1, calls[1], fs2);
    SecondLong(fs2.store, i, buf);
  }

  // ----- the order of inode numbers ----------------------------------------------------------------

  /** The number that the next create answers, if it can. */
  function NextNumber(fs: Fs): Option<nat> {
    FitInode(fs)
  }

  /** The search for a free inode goes on behind the one given last: whatever happened to the
      store meanwhile, the inodes passed on the way to the next one, going round, are in
      use. */
  lemma CreatesRound(fs: Fs, kind: nat, s: Store)
    requires NextInumOk(fs) && AllocInode(fs, kind).Some?
    requires NextNumber(Fs(s, AllocInode(fs, kind).value.1.nextInum)).Some?
    ensures var i, j := AllocInode(fs, kind).value.0, NextNumber(Fs(s, AllocInode(fs, kind).value.1.nextInum)).value;
            2 <= j <= INODE_NUM
            && forall m: nat :: 2 <= m <= INODE_NUM && Passed(i, m, j) ==> InodeOf(s, m).kind != 0
  {
    var n := AllocInode(fs, kind).value.1.nextInum;
    var f, g := FirstFreeInode(s, n, INODE_NUM + 1), FirstFreeInode(s, 2, n);
    assert f.Some? ==> NextNumber(Fs(s, n)) == f;
  }

  lemma KeepsNextInum(states: seq<Fs>, calls: seq<Call>, m: nat)
    requires Run(states, calls) && m < |calls| && !calls[m].Create?
    ensures states[m + 1].nextInum == states[m].nextInum
  {
    assert RunStep(states[m], calls[m], states[m + 1]);
  }

  lemma {:induction false} SameNextInum(states: seq<Fs>, calls: seq<Call>, k: nat, n: nat)
    requires Run(states, calls) && k <= n <= |calls| && forall m :: k <= m < n ==> !calls[m].Create?
    ensures states[n].nextInum == states[k].nextInum
    decreases n
  {
    if k < n {
      SameNextInum(states, calls, k, n - 1);
      KeepsNextInum(states, calls, n - 1);
    }
  }

  /** In a run: a create answers the first free number behind the one that the create before it
      answered, going round; the first create on a formatted disk, the first one from 2. */
  lemma CreatesGoRound(states: seq<Fs>, calls: seq<Call>, k: nat, n: nat)
    requires Run(states, calls) && k < n < |calls| && calls[k].Create? && calls[n].Create?
    requires forall m :: k < m < n ==> !calls[m].Create?
    ensures AllocInode(states[k], calls[k].kind).Some? && AllocInode(states[n], calls[n].kind).Some?
    ensures var i, j := AllocInode(states[k], calls[k].kind).value.0, AllocInode(states[n], calls[n].kind).value.0;
            forall m: nat :: 2 <= m <= INODE_NUM && Passed(i, m, j) ==> Live(states[n].store, m)
  {
    RunMaps(states, calls, k);
    assert RunStep(states[k], calls[k], states[k + 1]) && RunStep(states[n], calls[n], states[n + 1]);
    SameNextInum(states, calls, k + 1, n);
    CreatesRound(states[k], calls[k].kind, states[n].store);
  }

  lemma FirstCreateOf(nblocks: Word, blocks: seq<Word>, kind: nat)
    requires |blocks| == NDIRECT + 1
    ensures AllocInode(Start(nblocks, blocks), kind).Some? && AllocInode(Start(nblocks, blocks), kind).value.0 == 2
  {
    StartInodes(nblocks, blocks, 2);
  }
}
