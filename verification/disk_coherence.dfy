// Everything together: all locks, all caches, and one disk behind them.  Each extent is
// coherent while the disk's ownership stays exact.

module DiskCoherence {
  import opened Wrappers
  import opened Bytes
  import opened LockTypes
  import opened LockSystem
  import opened Coherence
  import opened DiskLayout
  import opened FileSystem
  import opened FileStore
  import Runs = FileRuns
  import opened ExtentServers
  import Ec = ExtentCache

  /** The lock of every number, what the clients have cached of it, and the disk. */
  datatype Cluster = Cluster(locks: Number -> System, slots: Number -> map<ClientId, Ec.Extent>, fs: Fs)

  /** One number's part of it; its extent is whatever the disk holds under that number. */
  ghost function Part(r: Cluster, lid: Number): Shared
    requires Runs.Good(r.fs)
  {
    Shared(r.locks(lid), r.slots(lid), StoredIn(Files(r.fs.store), lid))
  }

  /** A move at one number, or the creation of an extent by some client. */
  datatype Deed = On(lid: Number, move: Move) | Creation(c: ClientId, kind: nat)

  predicate FlushesOf(m: Move) {
    match m
    case Protocol(step) => step.AtClient? && step.a == SendRelease
    case Access(_, op) => op.Flush?
    case Probe(_, _) => false
  }

  function ClientOfMove(m: Move): ClientId {
    match m
    case Protocol(step) => step.c
    case Access(c, _) => c
    case Probe(c, _) => c
  }

  /** The call that a flush of the entry makes, if any. */
  function FlushCall(lid: Number, slot: Ec.Slot): Option<Runs.Call> {
    match slot
    case None => None
    case Some(x) =>
      match x.state
      case MODIFIED => Some(Runs.Put(lid, x.data))
      case REMOVED => Some(Runs.Remove(lid))
      case NONE => None
      case UPDATE => None
  }

  /** What the server's disk does for a flush.  The file must be there and not too long,
      and not the second one to need a table. */
  ghost predicate DiskFlushes(fs: Fs, lid: Number, slot: Ec.Slot, fs': Fs)
    requires Runs.Good(fs)
  {
    match FlushCall(lid, slot)
    case None => fs' == fs
    case Some(call) => Runs.Does(fs, call, fs') && Runs.MayCall(Files(fs.store), call)
  }

  ghost predicate Moves(r: Cluster, lid: Number, m: Move, r': Cluster)
    requires Runs.Good(r.fs)
  {
    && CanMove(Part(r, lid), m)
    && (forall l :: r'.locks(l) == if l == lid then Moved(Part(r, lid), m).sys else r.locks(l))
    && (forall l :: r'.slots(l) == if l == lid then Moved(Part(r, lid), m).slots else r.slots(l))
    && if FlushesOf(m) then DiskFlushes(r.fs, lid, SlotOf(Part(r, lid), ClientOfMove(m)), r'.fs) else r'.fs == r.fs
  }

  /** Attributes only, beside whatever data an older entry had. */
  function Fresh(slots: map<ClientId, Ec.Extent>, c: ClientId, kind: nat): Ec.Extent {
    Ec.Extent(if c in slots then slots[c].data else [], Ec.NONE, Ec.Attr(kind, 0))
  }

  /** The server chooses the number; the client's entry for it has attributes only. */
  ghost predicate Creates(r: Cluster, c: ClientId, kind: nat, r': Cluster) {
    && AllocInode(r.fs, kind).Some? && r'.fs == AllocInode(r.fs, kind).value.1
    && var i := AllocInode(r.fs, kind).value.0;
       && (forall l :: r'.locks(l) == r.locks(l))
       && (forall l :: r'.slots(l) == if l == i then r.slots(l)[c := Fresh(r.slots(l), c, kind)] else r.slots(l))
  }

  ghost predicate Steps(r: Cluster, d: Deed, r': Cluster) {
    Runs.Good(r.fs) ==>
      match d
      case On(lid, m) => Moves(r, lid, m, r')
      case Creation(c, kind) => Creates(r, c, kind, r')
  }

  // ----- one deed -----------------------------------------------------------------------------

  lemma PutStored(m: map<nat, File>, lid: Number, data: Bytes, m': map<nat, File>)
    requires Runs.Maps(m, Runs.Put(lid, data), m')
    ensures StoredIn(m', lid) == Ec.StoredPut(StoredIn(m, lid), data)
    ensures forall l: Number :: l != lid ==> StoredIn(m', l) == StoredIn(m, l)
  {
  }

  lemma RemoveStored(m: map<nat, File>, lid: Number, m': map<nat, File>)
    requires Runs.Maps(m, Runs.Remove(lid), m')
    ensures StoredIn(m', lid) == Ec.Dead
    ensures forall l: Number :: l != lid ==> StoredIn(m', l) == StoredIn(m, l)
  {
  }

  /** What a flush does to the disk is what the caches expect of the server. */
  lemma FlushStores(fs: Fs, lid: Number, slot: Ec.Slot, fs': Fs)
    requires Runs.Good(fs) && DiskFlushes(fs, lid, slot, fs')
    ensures Runs.Good(fs')
    ensures StoredIn(Files(fs'.store), lid) == Ec.Flush(slot, StoredIn(Files(fs.store), lid)).0
    ensures forall l: Number :: l != lid ==> StoredIn(Files(fs'.store), l) == StoredIn(Files(fs.store), l)
  {
    match FlushCall(lid, slot)
    case None =>
    case Some(call) =>
      Runs.CallMaps(fs, call, fs');
      match slot.value.state {
        case MODIFIED => PutStored(Files(fs.store), lid, slot.value.data, Files(fs'.store));
        case REMOVED => RemoveStored(Files(fs.store), lid, Files(fs'.store));
      }
  }

  /** A move that flushes nothing leaves the server's extent alone; one that does, does to
      it what a flush does. */
  lemma MovedStored(w: Shared, m: Move)
    requires CanMove(w, m)
    ensures Moved(w, m).stored == if FlushesOf(m) then Ec.Flush(SlotOf(w, ClientOfMove(m)), w.stored).0 else w.stored
  {
  }

  lemma MovesPart(r: Cluster, lid: Number, m: Move, r': Cluster)
    requires Runs.Good(r.fs) && Moves(r, lid, m, r')
    ensures Runs.Good(r'.fs) && Part(r', lid) == Moved(Part(r, lid), m)
    ensures forall l: Number :: l != lid ==> Part(r', l) == Part(r, l)
  {
    MovedStored(Part(r, lid), m);
    if FlushesOf(m) {
      FlushStores(r.fs, lid, SlotOf(Part(r, lid), ClientOfMove(m)), r'.fs);
    }
  }

  lemma CreatedKeeps(m: map<nat, File>, kind: nat, i: nat, m': map<nat, File>)
    requires Created(m, kind, i, m')
    ensures forall l: Number :: l != i ==> StoredIn(m', l) == StoredIn(m, l)
  {
  }

  lemma CreatesPart(r: Cluster, c: ClientId, kind: nat, r': Cluster)
    requires Runs.Good(r.fs) && Creates(r, c, kind, r')
    ensures Runs.Good(r'.fs)
    ensures forall l: Number :: l != AllocInode(r.fs, kind).value.0 ==> Part(r', l) == Part(r, l)
  {
    var i := AllocInode(r.fs, kind).value.0;
    CreateStores(r.fs, kind);
    CreatedKeeps(Files(r.fs.store), kind, i, Files(r'.fs.store));
  }

  // ----- runs -----------------------------------------------------------------------------------

  ghost predicate Lives(rs: seq<Cluster>, ds: seq<Deed>) {
    && |rs| == |ds| + 1 && Runs.Good(rs[0].fs)
    && forall k :: 0 <= k < |ds| ==> Steps(rs[k], ds[k], rs[k + 1])
  }

  /** A deed that gives out the number. */
  predicate GivesNumber(r: Cluster, d: Deed, lid: Number) {
    d.Creation? && AllocInode(r.fs, d.kind).Some? && AllocInode(r.fs, d.kind).value.0 == lid
  }

  /** From deed k on the number is not given out. */
  ghost predicate Keeps(rs: seq<Cluster>, ds: seq<Deed>, lid: Number, k: nat)
    requires |rs| == |ds| + 1
  {
    forall m :: k <= m < |ds| ==> !GivesNumber(rs[m], ds[m], lid)
  }

  function Own(ds: seq<Deed>, lid: Number): seq<Move> {
    if ds == [] then []
    else if ds[0].On? && ds[0].lid == lid then [ds[0].move] + Own(ds[1..], lid)
    else Own(ds[1..], lid)
  }

  lemma LivesFrom(rs: seq<Cluster>, ds: seq<Deed>, lid: Number, k: nat)
    requires Lives(rs, ds) && k <= |ds| && Runs.Good(rs[k].fs)
    ensures Lives(rs[k..], ds[k..]) && (Keeps(rs, ds, lid, k) ==> Keeps(rs[k..], ds[k..], lid, 0))
  {
    forall m | 0 <= m < |ds| - k ensures Steps(rs[k..][m], ds[k..][m], rs[k..][m + 1]) {
      assert Steps(rs[k + m], ds[k + m], rs[k + m + 1]);
    }
    forall m | 0 <= m < |ds| - k && Keeps(rs, ds, lid, k) ensures !GivesNumber(rs[k..][m], ds[k..][m], lid) {
      assert !GivesNumber(rs[k + m], ds[k + m], lid);
    }
  }

  /** Every number's part of a run is a run of its lock, caches and extent. */
  lemma {:induction false} PartRuns(rs: seq<Cluster>, ds: seq<Deed>, lid: Number)
    requires Lives(rs, ds) && Keeps(rs, ds, lid, 0)
    ensures Runs.Good(rs[|ds|].fs)
    ensures Run(Part(rs[0], lid), Own(ds, lid)) && End(Part(rs[0], lid), Own(ds, lid)) == Part(rs[|ds|], lid)
    decreases |ds|
  {
    if ds != [] {
      assert Steps(rs[0], ds[0], rs[1]) && !GivesNumber(rs[0], ds[0], lid);
      match ds[0] {
        case On(l, m) => MovesPart(rs[0], l, m, rs[1]);
        case Creation(c, kind) => CreatesPart(rs[0], c, kind, rs[1]);
      }
      LivesFrom(rs, ds, lid, 1);
      PartRuns(rs[1..], ds[1..], lid);
      if ds[0].On? && ds[0].lid == lid {
        Cons(Part(rs[0], lid), ds[0].move, Own(ds[1..], lid));
      }
    }
  }

  /** End to end: whatever clients, threads, locks, caches and the disk do, the accesses made
      to an extent under its lock are answered like those to one shared variable; in the
      end whoever has the lock sees the variable, and so does the disk when nobody has;
      and every used block belongs to exactly one file. */
  lemma DiskCoherent(rs: seq<Cluster>, ds: seq<Deed>, lid: Number, v: Ec.Content)
    requires Lives(rs, ds) && Keeps(rs, ds, lid, 0) && Coherent(Part(rs[0], lid), v)
    ensures Run(Part(rs[0], lid), Own(ds, lid))
    ensures Legal(v, History(Part(rs[0], lid), Own(ds, lid)))
    ensures Runs.Good(rs[|ds|].fs) && Sound(rs[|ds|].fs.store)
    ensures Coherent(Part(rs[|ds|], lid), Final(v, History(Part(rs[0], lid), Own(ds, lid))))
  {
    PartRuns(rs, ds, lid);
    CoherentRuns(Part(rs[0], lid), Own(ds, lid), v);
  }

  // ----- extents made on the way -----------------------------------------------------------------

  /** Nobody has more than attributes of the number, whoever may hold its lock. */
  ghost predicate Idle(r: Cluster, lid: Number) {
    && Inv(r.locks(lid))
    && forall c :: c in r.slots(lid) ==> r.slots(lid)[c].state == Ec.NONE
  }

  /** As long as nobody gets or puts a number's extent it stays idle. */
  lemma MovesIdle(r: Cluster, lid: Number, m: Move, r': Cluster)
    requires Runs.Good(r.fs) && Moves(r, lid, m, r') && Idle(r, lid) && !m.Access?
    ensures Idle(r', lid)
  {
    var w := Part(r, lid);
    match m
    case Protocol(step) =>
      StepInv(w.sys, step);
      assert r'.slots(lid) == Moved(w, m).slots;
    case Probe(c, noise) =>
      assert r'.slots(lid) == Moved(w, m).slots;
  }

  lemma DeedIdle(r: Cluster, d: Deed, r': Cluster, lid: Number)
    requires Runs.Good(r.fs) && Steps(r, d, r') && Idle(r, lid)
    requires d.On? && d.lid == lid ==> !d.move.Access?
    ensures Runs.Good(r'.fs) && Idle(r', lid)
  {
    match d
    case On(l, m) =>
      MovesPart(r, l, m, r');
      if l == lid {
        MovesIdle(r, lid, m, r');
      }
    case Creation(c, kind) =>
      CreatesPart(r, c, kind, r');
  }

  lemma {:induction false} StaysGood(rs: seq<Cluster>, ds: seq<Deed>, k: nat)
    requires Lives(rs, ds) && k <= |ds|
    ensures Runs.Good(rs[k].fs)
  {
    if k > 0 {
      StaysGood(rs, ds, k - 1);
      assert Steps(rs[k - 1], ds[k - 1], rs[k]);
      match ds[k - 1]
      case On(l, m) => MovesPart(rs[k - 1], l, m, rs[k]);
      case Creation(c, kind) => CreatesPart(rs[k - 1], c, kind, rs[k]);
    }
  }

  /** Nobody gets or puts the number's extent by deeds i to k - 1. */
  ghost predicate Untouched(ds: seq<Deed>, lid: Number, i: nat, k: nat)
    requires k <= |ds|
  {
    forall m :: i <= m < k && ds[m].On? && ds[m].lid == lid ==> !ds[m].move.Access?
  }

  lemma {:induction false} StaysIdle(rs: seq<Cluster>, ds: seq<Deed>, lid: Number, i: nat, k: nat)
    requires Lives(rs, ds) && i <= k <= |ds| && Idle(rs[i], lid) && Untouched(ds, lid, i, k)
    ensures Runs.Good(rs[k].fs) && Idle(rs[k], lid)
    decreases k
  {
    StaysGood(rs, ds, k);
    if k > i {
      StaysIdle(rs, ds, lid, i, k - 1);
      assert Steps(rs[k - 1], ds[k - 1], rs[k]);
      DeedIdle(rs[k - 1], ds[k - 1], rs[k], lid);
    }
  }

  /** A coherent number whose lock nobody has is idle; so is one whose extent was removed and
      flushed, before its number is given out again. */
  lemma UnownedIdle(r: Cluster, lid: Number, v: Ec.Content)
    requires Runs.Good(r.fs) && Coherent(Part(r, lid), v) && Unowned(Part(r, lid))
    ensures Idle(r, lid)
  {
    forall c | c in r.slots(lid) ensures r.slots(lid)[c].state == Ec.NONE {
      assert !Has(Part(r, lid), c) && Bare(SlotOf(Part(r, lid), c));
    }
  }

  /** A new extent is coherent, and empty. */
  lemma CreationCoherent(r: Cluster, c: ClientId, kind: nat, r': Cluster, lid: Number)
    requires Runs.Good(r.fs) && Creates(r, c, kind, r') && Idle(r, lid)
    requires AllocInode(r.fs, kind).value.0 == lid && kind % 0x1_0000 != 0
    ensures Runs.Good(r'.fs) && Coherent(Part(r', lid), Ec.Present([]))
  {
    CreateStores(r.fs, kind);
    CreatedStored(Files(r.fs.store), kind, lid, Files(r'.fs.store));
    var w := Part(r', lid);
    assert w.sys == r.locks(lid) && Ec.ContentOf(w.stored) == Ec.Present([]);
    forall d ensures Bare(SlotOf(w, d)) {}
  }

  /** An extent made by deed k, of a number that was idle before, is coherent from then on,
      beginning empty, as long as its number is not given out again. */
  lemma MadeCoherent(rs: seq<Cluster>, ds: seq<Deed>, lid: Number, i: nat, k: nat)
    requires Lives(rs, ds) && i <= k < |ds| && Idle(rs[i], lid) && Untouched(ds, lid, i, k)
    requires GivesNumber(rs[k], ds[k], lid) && ds[k].kind % 0x1_0000 != 0 && Keeps(rs, ds, lid, k + 1)
    ensures Runs.Good(rs[k + 1].fs) && Runs.Good(rs[|ds|].fs)
    ensures var w, moves := Part(rs[k + 1], lid), Own(ds[k + 1..], lid);
            && Run(w, moves) && Legal(Ec.Present([]), History(w, moves))
            && Coherent(Part(rs[|ds|], lid), Final(Ec.Present([]), History(w, moves)))
  {
    StaysIdle(rs, ds, lid, i, k);
    assert Steps(rs[k], ds[k], rs[k + 1]);
    CreationCoherent(rs[k], ds[k].c, ds[k].kind, rs[k + 1], lid);
    CoherentFrom(rs, ds, lid, k + 1, Ec.Present([]));
  }

  lemma CoherentFrom(rs: seq<Cluster>, ds: seq<Deed>, lid: Number, k: nat, v: Ec.Content)
    requires Lives(rs, ds) && k <= |ds| && Runs.Good(rs[k].fs) && Keeps(rs, ds, lid, k) && Coherent(Part(rs[k], lid), v)
    ensures Runs.Good(rs[|ds|].fs)
    ensures var w, moves := Part(rs[k], lid), Own(ds[k..], lid);
            && Run(w, moves) && Legal(v, History(w, moves))
            && Coherent(Part(rs[|ds|], lid), Final(v, History(w, moves)))
  {
    LivesFrom(rs, ds, lid, k);
    assert rs[k..][0] == rs[k] && rs[k..][|ds| - k] == rs[|ds|];
    DiskCoherent(rs[k..], ds[k..], lid, v);
  }

  // ----- from the formatted disk --------------------------------------------------------------------

  /** Nobody has asked for a lock, nothing is cached, the disk is formatted. */
  ghost predicate Begins(r: Cluster, nblocks: Word, blocks: seq<Word>)
    requires |blocks| == NDIRECT + 1
  {
    && (forall lid: Number :: r.locks(lid) == INITIAL && r.slots(lid) == map[])
    && r.fs == Runs.Start(nblocks, blocks) && nblocks >= 8 * BPB && IsSpare(blocks[NDIRECT])
  }

  /** There the root is coherent and empty, and every number is idle: so every extent of every
      run, the root and all that are made, is coherent. */
  lemma BeginsIdle(r: Cluster, nblocks: Word, blocks: seq<Word>, lid: Number)
    requires |blocks| == NDIRECT + 1 && Begins(r, nblocks, blocks)
    ensures Runs.Good(r.fs) && Idle(r, lid) && Coherent(Part(r, 1), Ec.Present([]))
  {
    Runs.StartSound(nblocks, blocks);
    InitialInv();
    var w := Part(r, 1);
    assert w.sys == INITIAL && w.stored == Ec.Live(1, []);
    forall d ensures !Has(w, d) && SlotOf(w, d) == None {}
  }
}
