// The extent server on its disk (extent_server.cc).  Its calls are proved to do to the
// extents what extent_cache.dfy expects of the server behind the caches.

module ExtentServers {
  import opened Wrappers
  import opened Bytes
  import opened DiskLayout
  import opened FileSystem
  import opened BlockOwnership
  import opened FileStore
  import opened FileRuns
  import opened InodeManagers
  import Ec = ExtentCache

  /** Extent numbers lose their upper bits. */
  function Masked(id: Ec.ExtentId): nat {
    id % 0x8000_0000
  }

  ghost function StoredIn(m: map<nat, File>, id: Ec.ExtentId): Ec.Stored {
    if Masked(id) in m then Ec.Live(Widened(m[Masked(id)].kind), m[Masked(id)].data) else Ec.Dead
  }

  ghost predicate AllTaken(m: map<nat, File>) {
    forall j: nat :: 2 <= j <= INODE_NUM ==> j in m
  }

  /** What creating a file does to the extents. */
  ghost predicate Created(m: map<nat, File>, kind: nat, i: nat, m': map<nat, File>) {
    && 2 <= i <= INODE_NUM && i !in m
    && m' == if kind % 0x1_0000 == 0 then m else m[i := File(kind % 0x1_0000, [])]
  }

  lemma CreatedStored(m: map<nat, File>, kind: nat, i: nat, m': map<nat, File>)
    requires Created(m, kind, i, m')
    ensures StoredIn(m, i) == Ec.Dead
            && (kind % 0x1_0000 != 0 ==> StoredIn(m', i) == Ec.Live(Widened(kind % 0x1_0000), []))
    ensures forall e :: Masked(e) != i ==> StoredIn(m', e) == StoredIn(m, e)
  {
  }

  lemma CreateStores(fs: Fs, kind: nat)
    requires Good(fs)
    ensures AllocInode(fs, kind) == None <==> AllTaken(Files(fs.store))
    ensures AllocInode(fs, kind).Some? ==>
              var (i, fs') := AllocInode(fs, kind).value;
              Good(fs') && Created(Files(fs.store), kind, i, Files(fs'.store))
  {
    CreateFresh(fs, kind);
    LargeFiles(fs.store);
    if AllocInode(fs, kind) == None {
      forall j: nat | 2 <= j <= INODE_NUM ensures j in Files(fs.store) {
        assert Live(fs.store, j);
      }
    } else {
      var i := AllocInode(fs, kind).value.0;
      assert !Live(fs.store, i) && i !in Files(fs.store);
    }
  }

  lemma PutStores(s: Store, i: nat, buf: Bytes)
    requires Sound(s) && MayCall(Files(s), FileRuns.Put(i, buf))
    ensures IsInum(i) && InodeOf(s, i).size <= MAXBYTES && InodeOf(s, i).size == |Files(s)[i].data|
    ensures WriteFile(s, i, buf) == None <==> BlocksFor(|Files(s)[i].data|) + |FreeBlocks(s.used)| < BlocksFor(|buf|)
    ensures WriteFile(s, i, buf).Some? ==>
              var s' := WriteFile(s, i, buf).value;
              Sound(s') && Files(s') == Files(s)[i := File(Files(s)[i].kind, buf)]
  {
    LargeFiles(s);
    assert Live(s, i);
    WriteReads(s, i, buf);
  }

  lemma RemoveStores(s: Store, i: nat)
    requires Sound(s) && IsInum(i) && InodeOf(s, i).size <= MAXBYTES
    ensures RemoveFile(s, i).Some? <==> i in Files(s)
    ensures RemoveFile(s, i).Some? ==>
              var s' := RemoveFile(s, i).value;
              Sound(s') && Files(s') == Files(s) - {i}
  {
    LargeFiles(s);
    RemoveForgets(s, i);
  }

  /** The root of the formatted disk is a directory to the clients. */
  lemma RootIsDirectory(nblocks: Word, blocks: seq<Word>)
    requires |blocks| == NDIRECT + 1
    ensures Bounded(Start(nblocks, blocks).store)
    ensures StoredIn(Files(Start(nblocks, blocks).store), 1) == Ec.Live(Ec.T_DIR, [])
  {
    StartFiles(nblocks, blocks);
  }

  /** Numbers below 2 to the 31 stay, and those that far apart meet. */
  lemma MaskedBits(id: Ec.ExtentId)
    ensures id < 0x8000_0000 ==> Masked(id) == id
    ensures Masked(id + 0x8000_0000) == Masked(id)
  {
  }

  class ExtentServer {
    const im: InodeManager

    ghost predicate Valid()
      reads im, im.bm, im.bm.d.blocks
    {
      im.Valid() && Good(im.Whole())
    }

    ghost function Contents(): map<nat, File>
      reads im, im.bm, im.bm.d.blocks
      requires Valid()
    {
      Files(im.State())
    }

    ghost function StoredAt(id: Ec.ExtentId): Ec.Stored
      reads im, im.bm, im.bm.d.blocks
      requires Valid()
    {
      StoredIn(Contents(), id)
    }

    constructor (nblocks: Word, blocks: seq<Word>)
      requires |blocks| == NDIRECT + 1
      requires nblocks >= 8 * BPB && IsSpare(blocks[NDIRECT])
      ensures Valid() && fresh(im) && fresh(im.bm) && fresh(im.bm.d) && fresh(im.bm.d.blocks)
      ensures Contents() == map[1 := File(1, [])]
    {
      im := new InodeManager(nblocks, blocks);
      new;
      StartSound(nblocks, blocks);
    }

    /** None where the server exits: no inode is left. */
    method Create(kind: nat) returns (id: Option<Ec.ExtentId>)
      requires Valid()
      modifies im, im.bm.d.blocks
      ensures Valid()
      ensures id == None <==> AllTaken(old(Contents()))
      ensures id.Some? ==> Created(old(Contents()), kind, id.value, Contents())
      ensures id.Some? && kind % 0x1_0000 != 0 ==> StoredAt(id.value) == Ec.Live(Widened(kind % 0x1_0000), [])
      ensures forall e :: id == None || Masked(e) != id.value ==> StoredAt(e) == old(StoredAt(e))
    {
      ghost var fs := im.Whole();
      CreateStores(fs, kind);
      id := im.AllocInode(kind);
      if id.Some? {
        CreatedStored(Files(fs.store), kind, id.value, Contents());
      }
    }

    /** false where the server exits: the disk is full.  The extent and the others are as
        expected when the call may be made: the file exists, and is not the second one to
        need a table. */
    method Put(id: Ec.ExtentId, buf: Bytes) returns (ok: bool)
      requires Valid() && IsInum(Masked(id)) && |buf| <= MAXBYTES
      modifies im.bm, im.bm.d.blocks
      ensures ok <==> WriteFile(old(im.State()), Masked(id), buf).Some?
      ensures ok ==> im.State() == WriteFile(old(im.State()), Masked(id), buf).value
      ensures old(MayCall(Contents(), FileRuns.Put(Masked(id), buf))) ==>
                var had := BlocksFor(|old(Contents())[Masked(id)].data|);
                && (!ok <==> had + |FreeBlocks(old(im.State()).used)| < BlocksFor(|buf|))
                && (ok ==> Valid() && StoredAt(id) == Ec.StoredPut(old(StoredAt(id)), buf))
                && (ok ==> forall e :: Masked(e) == Masked(id) || StoredAt(e) == old(StoredAt(e)))
    {
      assert InodeOf(im.State(), Masked(id)).size <= MAXBYTES;
      if MayCall(Contents(), FileRuns.Put(Masked(id), buf)) {
        PutStores(im.State(), Masked(id), buf);
      }
      ok := im.WriteFile(Masked(id), buf);
    }

    method Get(id: Ec.ExtentId) returns (buf: Bytes)
      requires Valid() && IsInum(Masked(id))
      modifies im.bm.d.blocks
      ensures im.Whole() == old(im.Whole()) && Valid()
      ensures exists noise :: buf == Ec.Fetched(StoredAt(id), noise)
    {
      assert InodeOf(im.State(), Masked(id)).size <= MAXBYTES;
      var r := im.ReadFile(Masked(id));
      buf := r.value;
      assert buf == Ec.Fetched(StoredAt(id), buf);
    }

    /** Kind and size; zeros for a number that no inode has. */
    method GetAttr(id: Ec.ExtentId) returns (attr: Ec.Attr)
      requires Valid()
      ensures StoredAt(id).Live? ==> attr == Ec.FetchedAttr(StoredAt(id), [])
      ensures !IsInum(Masked(id)) ==> attr == Ec.Attr(0, 0)
    {
      var r := im.GetAttr(Masked(id));
      attr := if r == None then Ec.Attr(0, 0) else Ec.Attr(r.value.0, r.value.1);
    }

    /** false where the server exits: there is no such file. */
    method Remove(id: Ec.ExtentId) returns (ok: bool)
      requires Valid() && IsInum(Masked(id))
      modifies im.bm, im.bm.d.blocks
      ensures ok <==> old(StoredAt(id)).Live?
      ensures ok ==> Valid() && StoredAt(id) == Ec.Dead
      ensures ok ==> forall e :: Masked(e) == Masked(id) || StoredAt(e) == old(StoredAt(e))
    {
      assert InodeOf(im.State(), Masked(id)).size <= MAXBYTES;
      RemoveStores(im.State(), Masked(id));
      ok := im.RemoveFile(Masked(id));
    }
  }
}
