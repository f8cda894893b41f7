// The arithmetic of block ownership: the allocator never misses a free block, growing,
// shrinking and filling a file touch exactly their own blocks.

module BlockOwnership {
  import opened Wrappers
  import opened Bytes
  import opened DiskLayout
  import opened FileSystem

  // ----- exact ownership, of block lists ----------------------------------------------------

  /** The block list of every inode. */
  type Lists = map<nat, seq<nat>>

  predicate IsData(b: nat) {
    START <= b < BLOCK_NUM
  }

  predicate Has(ls: Lists, j: nat, k: nat) {
    j in ls && k < |ls[j]|
  }

  /** The used blocks are the disjoint union of the lists, all of them data blocks. */
  ghost predicate Exact(ls: Lists, used: set<nat>) {
    && (forall j: nat, k: nat :: Has(ls, j, k) ==> IsData(ls[j][k]) && ls[j][k] in used)
    && (forall j: nat, k: nat, j': nat, k': nat ::
          Has(ls, j, k) && Has(ls, j', k') && ls[j][k] == ls[j'][k'] ==> j == j' && k == k')
    && (forall b :: b in used ==> Owned(ls, b))
  }

  ghost predicate Owned(ls: Lists, b: nat) {
    exists j: nat, k: nat :: Has(ls, j, k) && ls[j][k] == b
  }

  /** Distinct data blocks, none of them in use. */
  ghost predicate Fresh(bs: seq<nat>, used: set<nat>) {
    && (forall k :: 0 <= k < |bs| ==> IsData(bs[k]) && bs[k] !in used)
    && (forall k, k' :: 0 <= k < k' < |bs| ==> bs[k] != bs[k'])
  }

  function Elems(bs: seq<nat>): set<nat> {
    set b | b in bs
  }

  lemma ExactAppend(ls: Lists, used: set<nat>, i: nat, bs: seq<nat>)
    requires Exact(ls, used) && i in ls && Fresh(bs, used)
    ensures Exact(ls[i := ls[i] + bs], used + Elems(bs))
  {
    var ls', used' := ls[i := ls[i] + bs], used + Elems(bs);
    forall j: nat, k: nat | Has(ls', j, k)
      ensures IsData(ls'[j][k]) && ls'[j][k] in used'
      ensures if j == i && k >= |ls[i]| then ls'[j][k] == bs[k - |ls[i]|] else Has(ls, j, k) && ls'[j][k] == ls[j][k]
    {
      if j != i || k < |ls[i]| { assert Has(ls, j, k) && ls'[j][k] == ls[j][k]; }
    }
    forall x | x in used' ensures Owned(ls', x) {
      if x in used {
        var j: nat, k: nat :| Has(ls, j, k) && ls[j][k] == x;
        assert Has(ls', j, k) && ls'[j][k] == x;
      } else {
        var m :| 0 <= m < |bs| && bs[m] == x;
        var k := |ls[i]| + m;
        assert Has(ls', i, k) && ls'[i][k] == x;
      }
    }
  }

  lemma ExactTruncate(ls: Lists, used: set<nat>, i: nat, n: nat)
    requires Exact(ls, used) && i in ls && n <= |ls[i]|
    ensures Exact(ls[i := ls[i][..n]], used - Elems(ls[i][n..]))
  {
    var gone := Elems(ls[i][n..]);
    var ls', used' := ls[i := ls[i][..n]], used - gone;
    forall x | x in gone ensures exists m: nat :: n <= m && Has(ls, i, m) && ls[i][m] == x {
      var m :| 0 <= m < |ls[i]| - n && ls[i][n..][m] == x;
      assert Has(ls, i, n + m);
    }
    forall m: nat | n <= m && Has(ls, i, m) ensures ls[i][m] in gone {
      assert ls[i][n..][m - n] == ls[i][m];
    }
    assert forall j: nat, k: nat :: Has(ls', j, k) ==> Has(ls, j, k) && ls'[j][k] == ls[j][k];
    forall x | x in used' ensures Owned(ls', x) {
      var j: nat, k: nat :| Has(ls, j, k) && ls[j][k] == x;
      assert Has(ls', j, k) && ls'[j][k] == x;
    }
  }

  // ----- the allocator -------------------------------------------------------------------------

  /** Where the search begins; past the end only while nothing is used yet. */
  predicate InRange(s: Store) {
    START <= s.next && (s.next < BLOCK_NUM || s.used == {})
  }

  /** Next fit then first fit find a free data block whenever there is one, and nothing
      else: the first one from where the search begins, going round at the end. */
  lemma AllocatorComplete(s: Store)
    requires InRange(s)
    ensures FitBlock(s) == None <==> forall b :: IsData(b) ==> b in s.used
    ensures FitBlock(s).Some? ==>
              var b := FitBlock(s).value;
              && IsData(b) && b !in s.used
              && Taken(s, b).used == s.used + {b} && IsData(Taken(s, b).next) && Taken(s, b).disk == s.disk
              && (forall x: nat ::
                    (if b >= s.next then s.next <= x < b else s.next <= x < BLOCK_NUM || START <= x < b) ==>
                      x in s.used)
  {
    var f := FirstFree(s.used, s.next, BLOCK_NUM);
    var g := FirstFree(s.used, START, s.next);
    if s.next >= BLOCK_NUM {
      assert f == None && g == Some(START);
      assert IsData(START);
    } else if f == None && g == None {
      forall b | IsData(b) ensures b in s.used {}
    } else {
      var b := FitBlock(s).value;
      assert IsData(b);
    }
  }

  function FreeBlocks(used: set<nat>): set<nat> {
    (set b: nat | b < BLOCK_NUM && IsData(b)) - used
  }

  lemma OneFewer(used: set<nat>, b: nat)
    requires IsData(b) && b !in used
    ensures |FreeBlocks(used + {b})| == |FreeBlocks(used)| - 1
  {
    assert b in FreeBlocks(used);
    assert FreeBlocks(used + {b}) == FreeBlocks(used) - {b};
  }

  // ----- growing and shrinking -----------------------------------------------------------------

  function Ids(disk: seq<Block>, ino: Inode, n: nat): seq<nat>
    requires ValidInode(ino) && n <= MAXFILE
  {
    seq(n, k requires 0 <= k < n => Nth(disk, ino, k) as nat)
  }

  /** The numbers of a file's blocks depend on its inode and, past the direct ones, on
      its table. */
  lemma IdsFrame(disk: seq<Block>, disk': seq<Block>, ino: Inode, n: nat)
    requires ValidInode(ino) && n <= MAXFILE
    requires n <= NDIRECT || Peek(disk, ino.blocks[NDIRECT]) == Peek(disk', ino.blocks[NDIRECT])
    ensures Ids(disk, ino, n) == Ids(disk', ino, n)
  {
  }

  lemma SetNthIds(disk: seq<Block>, ino: Inode, n: nat, b: Word)
    requires ValidInode(ino) && n < MAXFILE && |disk| == BLOCK_NUM && (n < NDIRECT || ino.blocks[NDIRECT] < BLOCK_NUM)
    ensures var (disk', ino') := SetNth(disk, ino, n, b);
            && Ids(disk', ino', n + 1) == Ids(disk, ino, n) + [b]
            && ino'.blocks[NDIRECT] == ino.blocks[NDIRECT] && ino'.kind == ino.kind
            && (forall x: nat :: x != ino.blocks[NDIRECT] || n < NDIRECT ==> Peek(disk', x) == Peek(disk, x))
  {
    var (disk', ino') := SetNth(disk, ino, n, b);
    forall k | 0 <= k < n + 1 ensures Nth(disk', ino', k) == if k == n then b else Nth(disk, ino, k) {
      if k >= NDIRECT && n >= NDIRECT {
        SetWordAt(Peek(disk, ino.blocks[NDIRECT]), n - NDIRECT, b, k - NDIRECT);
      }
    }
  }

  /** Growing writes at most the table. */
  lemma {:induction false} GrowKeeps(s: Store, ino: Inode, lo: nat, hi: nat)
    requires ValidInode(ino) && lo <= hi <= MAXFILE && Grow(s, ino, lo, hi).Some?
    ensures var Grown(s', ino') := Grow(s, ino, lo, hi).value;
            && ino'.blocks[NDIRECT] == ino.blocks[NDIRECT] && ino'.kind == ino.kind && |s'.disk| == |s.disk|
            && (forall x: nat :: x != ino.blocks[NDIRECT] || hi <= NDIRECT ==> Peek(s'.disk, x) == Peek(s.disk, x))
    decreases hi - lo
  {
    if lo < hi {
      var b := FitBlock(s).value;
      var (disk, ino1) := SetNth(s.disk, ino, lo, b);
      GrowKeeps(Taken(s, b).(disk := disk), ino1, lo + 1, hi);
    }
  }

  /** Growing fails only when too few blocks are left. */
  lemma {:induction false} GrowFails(s: Store, ino: Inode, lo: nat, hi: nat)
    requires InRange(s) && ValidInode(ino) && lo <= hi <= MAXFILE
    ensures Grow(s, ino, lo, hi) == None <==> |FreeBlocks(s.used)| < hi - lo
    decreases hi - lo
  {
    AllocatorComplete(s);
    if lo < hi {
      if FitBlock(s) == None {
        assert FreeBlocks(s.used) == {};
      } else {
        var b := FitBlock(s).value;
        var (disk, ino1) := SetNth(s.disk, ino, lo, b);
        OneFewer(s.used, b);
        GrowFails(Taken(s, b).(disk := disk), ino1, lo + 1, hi);
      }
    }
  }

  /** Growing adds that many fresh blocks and marks exactly those. */
  lemma {:induction false} GrowAdds(s: Store, ino: Inode, lo: nat, hi: nat)
    requires InRange(s) && |s.disk| == BLOCK_NUM
    requires ValidInode(ino) && lo <= hi <= MAXFILE && (hi <= NDIRECT || ino.blocks[NDIRECT] < BLOCK_NUM)
    requires Grow(s, ino, lo, hi).Some?
    ensures var Grown(s', ino') := Grow(s, ino, lo, hi).value;
            var ids := Ids(s'.disk, ino', hi);
            && ids[..lo] == Ids(s.disk, ino, lo) && Fresh(ids[lo..], s.used) && s'.used == s.used + Elems(ids[lo..])
            && InRange(s')
    decreases hi - lo
  {
    if lo < hi {
      AllocatorComplete(s);
      var b := FitBlock(s).value;
      var (disk, ino1) := SetNth(s.disk, ino, lo, b);
      var s1 := Taken(s, b).(disk := disk);
      SetNthIds(s.disk, ino, lo, b);
      GrowAdds(s1, ino1, lo + 1, hi);
      GrowStep(s, b, s1.used, Grow(s1, ino1, lo + 1, hi).value, Ids(s.disk, ino, lo), lo, hi);
    } else {
      assert Ids(s.disk, ino, hi)[..lo] == Ids(s.disk, ino, lo);
    }
  }

  lemma GrowStep(s: Store, b: nat, used1: set<nat>, g: Grown, before: seq<nat>, lo: nat, hi: nat)
    requires ValidInode(g.ino) && |before| == lo < hi <= MAXFILE && IsData(b) && b !in s.used && used1 == s.used + {b}
    requires Ids(g.store.disk, g.ino, hi)[..lo + 1] == before + [b]
    requires Fresh(Ids(g.store.disk, g.ino, hi)[lo + 1..], used1)
    requires g.store.used == used1 + Elems(Ids(g.store.disk, g.ino, hi)[lo + 1..])
    ensures Ids(g.store.disk, g.ino, hi)[..lo] == before
    ensures Fresh(Ids(g.store.disk, g.ino, hi)[lo..], s.used)
    ensures g.store.used == s.used + Elems(Ids(g.store.disk, g.ino, hi)[lo..])
  {
    var ids := Ids(g.store.disk, g.ino, hi);
    assert ids[..lo] == ids[..lo + 1][..lo] == before;
    assert ids[lo] == ids[..lo + 1][lo] == b;
    assert ids[lo..] == [b] + ids[lo + 1..];
  }

  lemma {:induction false} ShrinkDrops(s: Store, ino: Inode, lo: nat, hi: nat)
    requires ValidInode(ino) && lo <= hi <= MAXFILE
    ensures Shrink(s, ino, lo, hi) == s.(used := s.used - Elems(Ids(s.disk, ino, hi)[lo..]))
    decreases hi - lo
  {
    var ids := Ids(s.disk, ino, hi);
    if lo < hi {
      ShrinkDrops(s.(used := s.used - {Nth(s.disk, ino, lo)}), ino, lo + 1, hi);
      assert ids[lo..] == [ids[lo]] + ids[lo + 1..];
      assert s.used - {ids[lo]} - Elems(ids[lo + 1..]) == s.used - Elems(ids[lo..]);
    } else {
      assert s.used - Elems(ids[lo..]) == s.used;
    }
  }

  /** The numbers are distinct blocks of data. */
  ghost predicate Apart(bs: seq<nat>) {
    Fresh(bs, {})
  }

  lemma ApartTail(bs: seq<nat>, lo: nat)
    requires Apart(bs) && lo < |bs|
    ensures bs[lo..] == [bs[lo]] + bs[lo + 1..] && bs[lo] !in bs[lo + 1..]
  {
  }

  /** Filling writes the kth piece into the kth block and touches nothing else, unless the
      file's table is among its blocks. */
  lemma {:induction false} FillWrites(disk: seq<Block>, ino: Inode, buf: Bytes, lo: nat, hi: nat, ids: seq<nat>)
    requires ValidInode(ino) && lo <= hi <= MAXFILE && |disk| == BLOCK_NUM
    requires ids == Ids(disk, ino, hi) && Apart(ids) && (hi <= NDIRECT || ino.blocks[NDIRECT] !in ids)
    ensures forall k :: lo <= k < hi ==> Peek(Fill(disk, ino, buf, lo, hi), ids[k]) == Chunk(buf, k)
    ensures forall x: nat :: x !in ids[lo..] ==> Peek(Fill(disk, ino, buf, lo, hi), x) == Peek(disk, x)
    decreases hi - lo
  {
    if lo < hi {
      var b := ids[lo];
      assert b == Nth(disk, ino, lo) && IsData(b);
      var disk1 := disk[b := Chunk(buf, lo)];
      IdsFrame(disk, disk1, ino, hi);
      FillWrites(disk1, ino, buf, lo + 1, hi, ids);
      ApartTail(ids, lo);
    }
  }

  // ----- going round --------------------------------------------------------------------------

  /** m is passed on the way from i to j, going up and starting over at the end; all the way
      round when they are the same. */
  predicate Passed(i: nat, m: nat, j: nat) {
    if i < j then i < m < j else m > i || m < j
  }

  /** The search goes on behind the block given last: whatever was freed or used meanwhile,
      all data blocks passed on the way to the next one are in use. */
  lemma AllocatesRound(s: Store, s': Store)
    requires InRange(s) && FitBlock(s).Some? && s'.next == Taken(s, FitBlock(s).value).next && FitBlock(s').Some?
    ensures forall m :: IsData(m) && Passed(FitBlock(s).value, m, FitBlock(s').value) ==> m in s'.used
  {
    AllocatorComplete(s);
    AllocatorComplete(s');
    var i, j := FitBlock(s).value, FitBlock(s').value;
    forall m | IsData(m) && Passed(i, m, j) ensures m in s'.used {
      var f := FirstFree(s'.used, s'.next, BLOCK_NUM);
      var g := FirstFree(s'.used, START, s'.next);
      assert f.Some? ==> j == f.value;
    }
  }
}
