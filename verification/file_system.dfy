// The block allocator and the inode layer as functions of the disk: what every
// operation of inode_manager.cc computes.  The objects that compute it in place are in
// inode_manager.dfy; what follows from it is in block_ownership.dfy, file_store.dfy and
// file_runs.dfy.

module FileSystem {
  import opened Wrappers
  import opened Bytes
  import opened DiskLayout

  /** The blocks, the set of used ones, and where the next search begins. */
  datatype Store = Store(disk: seq<Block>, used: set<nat>, next: Word)

  // ----- blocks -----------------------------------------------------------------------------

  /** A read of a block that does not exist leaves the buffer as it was; zeros here. */
  function Peek(disk: seq<Block>, id: nat): Block {
    if id < |disk| then disk[id] else Zeroes(BLOCK_SIZE)
  }

  /** A write to a block that does not exist is ignored. */
  function Poke(disk: seq<Block>, id: nat, b: Block): (r: seq<Block>)
    ensures |r| == |disk|
  {
    if id < |disk| then disk[id := b] else disk
  }

  /** The least free block in [lo, hi). */
  function FirstFree(used: set<nat>, lo: nat, hi: nat): (r: Option<nat>)
    ensures match r
            case Some(b) => lo <= b < hi && b !in used && forall x :: lo <= x < b ==> x in used
            case None => forall x :: lo <= x < hi ==> x in used
    decreases hi - lo
  {
    if lo >= hi then None
    else if lo !in used then Some(lo)
    else FirstFree(used, lo + 1, hi)
  }

  function Following(b: nat): Word
    requires b + 1 < 0x1_0000_0000
  {
    if b + 1 == BLOCK_NUM then START else b + 1
  }

  /** Next fit, then first fit.  None is the program's exit. */
  function FitBlock(s: Store): (r: Option<nat>)
    ensures r.Some? ==> r.value !in s.used && r.value + 1 < 0x1_0000_0000
  {
    var b := FirstFree(s.used, s.next, BLOCK_NUM);
    if b.Some? then b else FirstFree(s.used, START, s.next)
  }

  function Taken(s: Store, b: nat): Store
    requires b + 1 < 0x1_0000_0000
  {
    s.(used := s.used + {b}, next := Following(b))
  }

  // ----- the blocks of a file -----------------------------------------------------------------

  const MAXBYTES: nat := MAXFILE * BLOCK_SIZE

  function BlocksFor(size: nat): nat {
    if size == 0 then 0 else (size - 1) / BLOCK_SIZE + 1
  }

  /** The least number of blocks that hold so many bytes. */
  lemma BlocksForLeast(size: nat)
    ensures 512 * BlocksFor(size) >= size
    ensures BlocksFor(size) > 0 ==> 512 * (BlocksFor(size) - 1) < size
  {
  }

  /** The number of the nth block of a file: in the inode, or in the table the inode's
      last entry points to. */
  function Nth(disk: seq<Block>, ino: Inode, nth: nat): Word
    requires ValidInode(ino) && nth < MAXFILE
  {
    if nth < NDIRECT then ino.blocks[nth] else WordAt(Peek(disk, ino.blocks[NDIRECT]), nth - NDIRECT)
  }

  /** Make block b the nth.  The table itself is never allocated. */
  function SetNth(disk: seq<Block>, ino: Inode, nth: nat, b: Word): (r: (seq<Block>, Inode))
    requires ValidInode(ino) && nth < MAXFILE
    ensures ValidInode(r.1) && |r.0| == |disk|
  {
    if nth < NDIRECT then (disk, ino.(blocks := ino.blocks[nth := b]))
    else
      var table := ino.blocks[NDIRECT];
      (Poke(disk, table, SetWord(Peek(disk, table), nth - NDIRECT, b)), ino)
  }

  datatype Grown = Grown(store: Store, ino: Inode)

  /** Allocate blocks lo..hi-1 of the file, one after the other. */
  function Grow(s: Store, ino: Inode, lo: nat, hi: nat): (r: Option<Grown>)
    requires ValidInode(ino) && lo <= hi <= MAXFILE
    ensures r.Some? ==> ValidInode(r.value.ino) && |r.value.store.disk| == |s.disk|
    decreases hi - lo
  {
    if lo == hi then Some(Grown(s, ino))
    else
      var b := FitBlock(s);
      if b == None then None
      else
        var (disk, ino1) := SetNth(s.disk, ino, lo, b.value);
        Grow(Taken(s, b.value).(disk := disk), ino1, lo + 1, hi)
  }

  /** Free blocks lo..hi-1 of the file. */
  function Shrink(s: Store, ino: Inode, lo: nat, hi: nat): Store
    requires ValidInode(ino) && lo <= hi <= MAXFILE
    decreases hi - lo
  {
    if lo == hi then s
    else Shrink(s.(used := s.used - {Nth(s.disk, ino, lo)}), ino, lo + 1, hi)
  }

  /** The kth block's worth of buf, filled up with zeros. */
  function Chunk(buf: Bytes, k: nat): Block {
    seq(512, i requires 0 <= i < 512 => if 512 * k + i < |buf| then buf[512 * k + i] else 0)
  }

  function Fill(disk: seq<Block>, ino: Inode, buf: Bytes, lo: nat, hi: nat): (r: seq<Block>)
    requires ValidInode(ino) && lo <= hi <= MAXFILE
    ensures |r| == |disk|
    decreases hi - lo
  {
    if lo == hi then disk
    else Fill(Poke(disk, Nth(disk, ino, lo), Chunk(buf, lo)), ino, buf, lo + 1, hi)
  }

  // ----- inodes ---------------------------------------------------------------------------------

  predicate IsInum(i: nat) {
    1 <= i <= INODE_NUM
  }

  function At(i: nat): nat {
    IBLOCK(i, BLOCK_NUM)
  }

  function InodeOf(s: Store, i: nat): (ino: Inode)
    ensures ValidInode(ino)
  {
    Decode(Peek(s.disk, At(i)))
  }

  function PutInode(s: Store, i: nat, ino: Inode): Store
    requires ValidInode(ino)
  {
    s.(disk := Poke(s.disk, At(i), Encode(Peek(s.disk, At(i)), ino)))
  }

  predicate Live(s: Store, i: nat) {
    IsInum(i) && InodeOf(s, i).kind != 0
  }

  // ----- files ------------------------------------------------------------------------------------

  /** get: the first size bytes of the file's blocks. */
  function ReadFile(s: Store, i: nat): Bytes
    requires InodeOf(s, i).size <= MAXBYTES
  {
    var ino := InodeOf(s, i);
    seq(ino.size, p requires 0 <= p < ino.size => Peek(s.disk, Nth(s.disk, ino, p / 512))[p % 512])
  }

  function Resized(s: Store, ino: Inode, lo: nat, hi: nat): (r: Option<Grown>)
    requires ValidInode(ino) && lo <= MAXFILE && hi <= MAXFILE
    ensures r.Some? ==> ValidInode(r.value.ino)
  {
    if hi < lo then Some(Grown(Shrink(s, ino, hi, lo), ino)) else Grow(s, ino, lo, hi)
  }

  /** The blocks being there, the data and the inode are written. */
  function Filled(g: Grown, i: nat, buf: Bytes): Store
    requires ValidInode(g.ino) && |buf| <= MAXBYTES
  {
    var ino := g.ino.(size := |buf|);
    PutInode(g.store.(disk := Fill(g.store.disk, ino, buf, 0, BlocksFor(|buf|))), i, ino)
  }

  /** put.  None: the disk is full and the program exits. */
  function WriteFile(s: Store, i: nat, buf: Bytes): Option<Store>
    requires InodeOf(s, i).size <= MAXBYTES && |buf| <= MAXBYTES
  {
    var ino := InodeOf(s, i);
    var n := BlocksFor(|buf|);
    match Resized(s, ino, BlocksFor(ino.size), n)
    case None => None
    case Some(g) => Some(Filled(g, i, buf))
  }

  /** remove.  None: the inode is free and the program exits. */
  function RemoveFile(s: Store, i: nat): Option<Store>
    requires InodeOf(s, i).size <= MAXBYTES
  {
    var ino := InodeOf(s, i);
    var s1 := Shrink(s, ino, 0, BlocksFor(ino.size));
    if ino.kind == 0 then None else Some(PutInode(s1, i, InodeOf(s1, i).(kind := 0)))
  }

  /** getattr's type: the kind as a signed short, made an unsigned word. */
  function Widened(kind: Half): Word {
    if kind < 0x8000 then kind else kind + 0xFFFF_0000
  }

  // ----- inode allocation -----------------------------------------------------------------------------

  /** The store with the number of the inode to look at first. */
  datatype Fs = Fs(store: Store, nextInum: nat)

  function FirstFreeInode(s: Store, lo: nat, hi: nat): (r: Option<nat>)
    ensures match r
            case Some(i) =>
              lo <= i < hi && InodeOf(s, i).kind == 0 && forall j :: lo <= j < i ==> InodeOf(s, j).kind != 0
            case None => forall j :: lo <= j < hi ==> InodeOf(s, j).kind != 0
    decreases hi - lo
  {
    if lo >= hi then None
    else if InodeOf(s, lo).kind == 0 then Some(lo)
    else FirstFreeInode(s, lo + 1, hi)
  }

  function FitInode(fs: Fs): Option<nat> {
    var i := FirstFreeInode(fs.store, fs.nextInum, INODE_NUM + 1);
    if i.Some? then i else FirstFreeInode(fs.store, 2, fs.nextInum)
  }

  /** create.  None: every inode is taken and the program exits.  The kind is cut to a
      short. */
  function AllocInode(fs: Fs, kind: nat): Option<(nat, Fs)> {
    match FitInode(fs)
    case None => None
    case Some(i) =>
      var ino := InodeOf(fs.store, i).(kind := kind % 0x1_0000, size := 0);
      Some((i, Fs(PutInode(fs.store, i, ino), if i + 1 > INODE_NUM then 2 else i + 1)))
  }

  /** The kind keeps its low half; above it are the sign's copies. */
  lemma WidenedSign(kind: Half)
    ensures Widened(kind) % 0x1_0000 == kind
    ensures if kind < 0x8000 then Widened(kind) < 0x8000 else Widened(kind) >= 0xFFFF_8000
  {
  }

  /** The numbers of a file's blocks, in bytes: the first 100 in the inode, the others four
      bytes each in the table. */
  lemma NthBytes(disk: seq<Block>, ino: Inode, nth: nat)
    requires ValidInode(ino) && nth < 228
    ensures nth < 100 ==> Nth(disk, ino, nth) == ino.blocks[nth]
    ensures nth >= 100 ==>
              var t, p := Peek(disk, ino.blocks[100]), 4 * (nth - 100);
              Nth(disk, ino, nth)
              == t[p] as int + 0x100 * t[p + 1] as int + 0x1_0000 * t[p + 2] as int + 0x100_0000 * t[p + 3] as int
  {
  }
}
