// The file system operations of one client (yfs_client.cc).  Each method is the body of
// an operation between the acquire and the release of its LockGuard: nobody else
// changes the extent meanwhile, and what other layers do before and after is theirs.
//
// `noise`, `junk...`: what the server returns for a removed extent, and what
// uninitialised variables hold.

module YfsClients {
  import opened Wrappers
  import opened Bytes
  import opened Directory
  import opened FileBytes
  import opened ExtentCache

  /** ENOENT and NOENT are the same number. */
  datatype Outcome = Ok | NoEnt | IoErr | Exist

  /** The entry of an extent, or of one removed by this client. */
  function Taken(slot: Slot, gone: bool, junk: Attr): Slot {
    if gone then Remove(slot, junk).0 else slot
  }

  lemma TakenAgain(slot: Slot, gone: bool, junk: Attr)
    ensures Remove(Taken(slot, gone, junk), junk).0 == Taken(slot, true, junk)
  {
  }

  /** The client sees the data; its cached size may be wrong. */
  predicate Showing(slot: Slot, stored: Stored, data: Bytes) {
    stored.Live? && Clean(slot, stored) && View(slot, stored) == Present(data)
  }

  /** The size that getattr answers. */
  function KnownSize(slot: Slot, stored: Stored): nat {
    if slot.Some? then slot.value.attr.size else if stored.Live? then |stored.data| else 0
  }

  lemma GetShowing(slot: Slot, stored: Stored, data: Bytes, noise: Bytes)
    requires Showing(slot, stored, data)
    ensures Showing(Get(slot, stored, noise).0, stored, data) && Get(slot, stored, noise).2 == Some(data)
    ensures Sized(slot, stored) ==> Sized(Get(slot, stored, noise).0, stored)
  {
  }

  lemma GetAttrShowing(slot: Slot, stored: Stored, data: Bytes, noise: Bytes)
    requires Showing(slot, stored, data)
    ensures Showing(GetAttr(slot, stored, noise).0, stored, data)
    ensures Sized(slot, stored) ==> Sized(GetAttr(slot, stored, noise).0, stored)
    ensures GetAttr(slot, stored, noise).1 == OK
    ensures GetAttr(slot, stored, noise).2 == Some(Attr(KindOf(slot, stored), KnownSize(slot, stored)))
  {
  }

  lemma PutShowing(slot: Slot, stored: Stored, data: Bytes, data': Bytes, junk: nat)
    requires Showing(slot, stored, data)
    ensures Showing(Put(slot, data', junk).0, stored, data') && Sized(Put(slot, data', junk).0, stored)
  {
  }

  function Inums(turns: seq<(Bytes, Bytes)>, junk: nat): set<nat> {
    set turn | turn in turns :: Number(turn.1, junk)
  }

  lemma ConsUnderstood(turn: (Bytes, Bytes), turns: seq<(Bytes, Bytes)>, junk: nat)
    ensures forall name :: Lookup([Understood(turn, junk)] + AllUnderstood(turns, junk), name) ==
              if Uncoded(turn.0) == name then Some(Number(turn.1, junk)) else Lookup(AllUnderstood(turns, junk), name)
    ensures AllUnderstood([turn] + turns, junk) == [Understood(turn, junk)] + AllUnderstood(turns, junk)
  {
  }

  /** What unlink has done when `rest` is still to be read. */
  ghost predicate Sorted(turns: seq<(Bytes, Bytes)>, rest: seq<(Bytes, Bytes)>, name: Bytes, junk: nat,
                         flag: bool, result: Bytes, gone: set<nat>) {
    && (flag || Matching(rest, name) != [] <==> Matching(turns, name) != [])
    && result + AllJoined(Others(rest, name)) == AllJoined(Others(turns, name))
    && gone + Inums(Matching(rest, name), junk) == Inums(Matching(turns, name), junk)
  }

  lemma SortOne(turns: seq<(Bytes, Bytes)>, turn: (Bytes, Bytes), rest: seq<(Bytes, Bytes)>, name: Bytes, junk: nat,
                flag: bool, result: Bytes, gone: set<nat>)
    requires Sorted(turns, [turn] + rest, name, junk, flag, result, gone)
    ensures Uncoded(turn.0) == name ==> Sorted(turns, rest, name, junk, true, result, gone + {Number(turn.1, junk)})
    ensures Uncoded(turn.0) != name ==> Sorted(turns, rest, name, junk, flag, result + Joined(turn), gone)
  {
    assert ([turn] + rest)[1..] == rest;
    if Uncoded(turn.0) == name {
      assert Matching([turn] + rest, name) == [turn] + Matching(rest, name);
      InumsCons(turn, Matching(rest, name), junk);
    } else {
      assert AllJoined([turn] + Others(rest, name)) == Joined(turn) + AllJoined(Others(rest, name));
    }
  }

  lemma InumsCons(turn: (Bytes, Bytes), turns: seq<(Bytes, Bytes)>, junk: nat)
    ensures Inums([turn] + turns, junk) == {Number(turn.1, junk)} + Inums(turns, junk)
  {
  }

  lemma NumberPrinted(es: seq<Entry>, junk: nat)
    requires Printable(es)
    ensures Inums(AllPrinted(es), junk) == set e | e in es :: e.inum
  {
    forall k | 0 <= k < |es|
      ensures Number(AllPrinted(es)[k].1, junk) == es[k].inum && AllPrinted(es)[k] in AllPrinted(es)
    {
      NumberDecimal(es[k].inum, junk);
    }
    forall i | i in Inums(AllPrinted(es), junk) ensures exists e :: e in es && e.inum == i {
      var k :| 0 <= k < |es| && Number(AllPrinted(es)[k].1, junk) == i;
      assert es[k] in es;
    }
  }

  /** The extents that unlinking a name from a printed directory removes. */
  lemma UnlinkedInums(es: seq<Entry>, name: Bytes, junk: nat)
    requires Printable(es)
    ensures Inums(Matching(Turns(|Print(es)|, First(Print(es))), name), junk) == set e | e in Named(es, name) :: e.inum
  {
    UnlinkPrinted(es, name);
    forall k | 0 <= k < |Named(es, name)| ensures Named(es, name)[k].inum < LIMIT && Named(es, name)[k].name != [] {
      assert Named(es, name)[k] in es;
    }
    NumberPrinted(Named(es, name), junk);
  }

  class YfsClient {
    const ec: ExtentClientCache

    constructor (ec: ExtentClientCache)
      ensures this.ec == ec
    {
      this.ec := ec;
    }

    /** The extent exists, and this client sees the data. */
    ghost predicate Shows(ino: ExtentId, data: Bytes)
      reads ec, ec.server
    {
      Showing(ec.SlotAt(ino), ec.server.StoredAt(ino), data)
    }

    /** And it knows the size. */
    ghost predicate Holds(ino: ExtentId, data: Bytes)
      reads ec, ec.server
    {
      Shows(ino, data) && Sized(ec.SlotAt(ino), ec.server.StoredAt(ino))
    }

    ghost function Shown(ino: ExtentId): Bytes
      reads ec, ec.server
    {
      if ec.Seen(ino).Present? then ec.Seen(ino).data else []
    }

    /** The type that getattr answers. */
    ghost function Kind(ino: ExtentId): nat
      reads ec, ec.server
    {
      KindOf(ec.SlotAt(ino), ec.server.StoredAt(ino))
    }

    ghost predicate Readable(ino: ExtentId)
      reads ec, ec.server
    {
      Shows(ino, Shown(ino))
    }

    // ----- names ------------------------------------------------------------------------------

    method Encode(code: Bytes) returns (buf: Bytes)
      ensures buf == Encoded(code)
    {
      buf := [];
      var i := 0;
      while i < |code|
        invariant i <= |code| && |buf| == 2 * i
        invariant forall k :: 0 <= k < |buf| ==> buf[k] == Encoded(code)[k]
      {
        EncodedAt(code, i);
        buf := buf + [Cut(97 + Quotient(Signed(code[i])))];
        buf := buf + [Cut(97 + Remainder(Signed(code[i])))];
        i := i + 1;
      }
    }

    method Uncode(code: Bytes) returns (buf: Bytes)
      ensures buf == Uncoded(code)
    {
      buf := [];
      var i := 0;
      while i < |code|
        invariant i == 2 * |buf| <= |code| + 1
        invariant forall k :: 0 <= k < |buf| ==> buf[k] == Uncoded(code)[k]
      {
        var next: Byte := if i + 1 < |code| then code[i + 1] else 0;
        buf := buf + [Cut((Signed(code[i]) - 97) * 16 + Signed(next) - 97)];
        i := i + 2;
      }
    }

    // ----- files ------------------------------------------------------------------------------

    /** get without a look at its status: the buffer keeps what it held. */
    method Fetch(ino: ExtentId, buf: Bytes, noise: Bytes) returns (r: Bytes)
      modifies ec
      ensures var (slot, _, data) := Get(old(ec.SlotAt(ino)), ec.server.StoredAt(ino), noise);
              ec.SlotAt(ino) == slot && r == if data.Some? then data.value else buf
      ensures old(Readable(ino)) ==> Shows(ino, old(Shown(ino))) && r == old(Shown(ino))
      ensures old(Holds(ino, Shown(ino))) ==> Holds(ino, old(Shown(ino)))
      ensures Kind(ino) == old(Kind(ino)) && ec.SlotAt(ino).Some?
      ensures forall e :: e != ino ==> ec.SlotAt(e) == old(ec.SlotAt(e))
    {
      GetKeepsKind(ec.SlotAt(ino), ec.server.StoredAt(ino), noise);
      if Readable(ino) {
        GetShowing(ec.SlotAt(ino), ec.server.StoredAt(ino), Shown(ino), noise);
      }
      var status, data := ec.GetExtent(ino, noise);
      r := if data.Some? then data.value else buf;
    }

    method Setattr(ino: ExtentId, size: nat, noise: Bytes) returns (r: Outcome)
      modifies ec
      ensures old(ec.SlotAt(ino)).Some? && old(ec.SlotAt(ino)).value.state == REMOVED ==>
                r == NoEnt && ec.SlotAt(ino) == old(ec.SlotAt(ino))
      ensures old(Readable(ino)) ==>
                var known := old(KnownSize(ec.SlotAt(ino), ec.server.StoredAt(ino)));
                && r == Ok && Holds(ino, Lengthened(old(Shown(ino)), known, size))
                && (|Shown(ino)| == size <==> Suits(|old(Shown(ino))|, known, size))
                && Kind(ino) == old(Kind(ino))
      ensures forall e :: e != ino ==> ec.SlotAt(e) == old(ec.SlotAt(e))
    {
      if Readable(ino) {
        GetAttrShowing(ec.SlotAt(ino), ec.server.StoredAt(ino), Shown(ino), noise);
      }
      var status, a := ec.GetAttrExtent(ino, noise);
      if status != OK {
        return NoEnt;
      }
      var buf := Fetch(ino, [], noise);
      if a.value.size < size {
        buf := buf + Zeroes(size - a.value.size);
      } else if a.value.size > size {
        buf := Substring(buf, 0, size);
      }
      var put := ec.PutExtent(ino, buf, 0);
      return Ok;
    }

    /** `data0`: what the caller's string held. */
    method Read(ino: ExtentId, size: nat, off: int, data0: Bytes, noise: Bytes) returns (data: Bytes)
      modifies ec
      ensures old(Readable(ino)) ==> data == Portion(old(Shown(ino)), size, off) && Shows(ino, old(Shown(ino)))
      ensures old(Holds(ino, Shown(ino))) ==> Holds(ino, old(Shown(ino)))
      ensures Kind(ino) == old(Kind(ino))
      ensures forall e :: e != ino ==> ec.SlotAt(e) == old(ec.SlotAt(e))
    {
      data := Fetch(ino, data0, noise);
      if off % WIDTH <= |data| {
        if (off % WIDTH + size) % WIDTH <= |data| {
          data := Substring(data, off % WIDTH, size);
        } else {
          data := Substring(data, off % WIDTH, |data| - off % WIDTH);
        }
      } else {
        data := [];
      }
    }

    /** The file is changed at the server too; a removed one is removed there.  None where
        the string class throws, `room` being the length of its longest string: then
        nothing is put. */
    method Write(ino: ExtentId, off: int, data: Bytes, room: nat, noise: Bytes) returns (written: Option<nat>)
      requires -WIDTH / 2 <= off < WIDTH / 2 && |data| <= room < WIDTH / 2
      modifies ec, ec.server
      ensures old(Readable(ino)) && |old(Shown(ino))| <= room ==>
                && (written == None <==> off < 0 || off + |data| > room)
                && (written == None ==>
                   Shows(ino, old(Shown(ino))) && ec.server.StoredAt(ino) == old(ec.server.StoredAt(ino)))
                && (written.Some? ==>
                      var after := Written(old(Shown(ino)), off, data);
                      && Holds(ino, after) && ContentOf(ec.server.StoredAt(ino)) == Present(after)
                      && Kind(ino) == old(ec.server.StoredAt(ino)).kind)
      ensures written.Some? ==> written.value == |data| && ec.SlotAt(ino) == None
      ensures old(ec.SlotAt(ino)).Some? && old(ec.SlotAt(ino)).value.state == REMOVED && written.Some? ==>
                ec.server.StoredAt(ino) == Dead
      ensures forall e :: e != ino ==>
              ec.SlotAt(e) == old(ec.SlotAt(e)) && ec.server.StoredAt(e) == old(ec.server.StoredAt(e))
    {
      var buf := Fetch(ino, [], noise);
      if |buf| <= room {
        RewrittenIs(buf, off, data, room);
      }
      var after := Splice(buf, off, data, room);
      if after == None {
        return None;
      }
      var put := ec.PutExtent(ino, after.value, 0);
      var flushed := ec.FlushExtent(ino);
      return Some(|data|);
    }

    /** resize and replace. */
    method Splice(prior: Bytes, off: int, data: Bytes, room: nat) returns (r: Option<Bytes>)
      ensures r == Rewritten(prior, off, data, room)
    {
      var buf := prior;
      var start, sum := off % WIDTH, (|data| + off) % WIDTH;
      if sum > |buf| {
        if sum > room {
          return None;
        }
        buf := buf + Zeroes(sum - |buf|);
      }
      if start > |buf| {
        return None;
      }
      return Some(buf[..start] + data + buf[start + Least(|data|, |buf| - start)..]);
    }

    // ----- directories ------------------------------------------------------------------------------

    /** `chosen`: the number the server gives the new extent. */
    method AddFile(parent: ExtentId, name: Bytes, kind: nat, chosen: ExtentId, noise: Bytes) returns (ino: ExtentId)
      requires chosen != parent
      modifies ec, ec.server
      ensures ino == chosen && ec.server.StoredAt(ino) == Live(kind, []) && Holds(ino, [])
      ensures ec.server.StoredAt(parent) == old(ec.server.StoredAt(parent))
      ensures old(Readable(parent)) ==> Holds(parent, AddTo(old(Shown(parent)), Entry(name, chosen)))
      ensures Kind(parent) == old(Kind(parent)) && Kind(ino) == kind
      ensures forall e :: e != parent && e != chosen ==>
                ec.SlotAt(e) == old(ec.SlotAt(e)) && ec.server.StoredAt(e) == old(ec.server.StoredAt(e))
    {
      ec.CreateExtent(chosen, kind);
      ino := chosen;
      var buf := Fetch(parent, [], noise);
      var code := Encode(name);
      assert buf + (code + [SPACE] + Decimal(ino) + [SPACE]) == AddTo(buf, Entry(name, chosen));
      buf := buf + (code + [SPACE] + Decimal(ino) + [SPACE]);
      var put := ec.PutExtent(parent, buf, 0);
    }

    method Create(parent: ExtentId, name: Bytes, chosen: ExtentId, noise: Bytes) returns (ino: ExtentId)
      requires chosen != parent
      modifies ec, ec.server
      ensures ino == chosen && Holds(ino, []) && Kind(ino) == 2 && Kind(parent) == old(Kind(parent))
      ensures ec.server.StoredAt(parent) == old(ec.server.StoredAt(parent))
      ensures old(Readable(parent)) ==> Holds(parent, AddTo(old(Shown(parent)), Entry(name, chosen)))
    {
      ino := AddFile(parent, name, T_FILE, chosen, noise);
    }

    method Mkdir(parent: ExtentId, name: Bytes, chosen: ExtentId, noise: Bytes) returns (ino: ExtentId)
      requires chosen != parent
      modifies ec, ec.server
      ensures ino == chosen && Holds(ino, []) && Kind(ino) == 1 && Kind(parent) == old(Kind(parent))
      ensures ec.server.StoredAt(parent) == old(ec.server.StoredAt(parent))
      ensures old(Readable(parent)) ==> Holds(parent, AddTo(old(Shown(parent)), Entry(name, chosen)))
    {
      ino := AddFile(parent, name, T_DIR, chosen, noise);
    }

    method Find(parent: ExtentId, name: Bytes, found0: bool, ino0: nat, junkKind: nat, junk: nat, noise: Bytes)
      returns (r: Outcome, found: bool, ino: nat)
      modifies ec
      ensures old(Readable(parent)) ==>
                var buf := old(Shown(parent));
                && Shows(parent, buf)
                && if old(Kind(parent)) != T_DIR then
                     (r, found, ino) == (Exist, found0, ino0)
                   else match Lookup(Parse(buf, junk), name)
                        case Some(i) => (r, found, ino) == (Ok, true, i)
                        case None => (r, found, ino) == (IoErr, false, ino0)
      ensures old(Readable(parent)) ==> Kind(parent) == old(Kind(parent))
      ensures forall e :: e != parent ==> ec.SlotAt(e) == old(ec.SlotAt(e))
    {
      found, ino := found0, ino0;
      if Readable(parent) {
        GetAttrShowing(ec.SlotAt(parent), ec.server.StoredAt(parent), Shown(parent), noise);
      }
      var status, attr := ec.GetAttrExtent(parent, noise);
      if (if attr.Some? then attr.value.kind else junkKind) != T_DIR {
        return Exist, found, ino;
      }
      var buf := Fetch(parent, [], noise);
      var inum := Search(buf, name, junk);
      found := inum.Some?;
      if !found {
        return IoErr, found, ino;
      }
      return Ok, found, inum.value;
    }

    /** `ss >> fileName >> inode`, in the turn of the loop at c. */
    method NextWords(ss: Stream, fileName: Bytes, inode: Bytes, ghost c: Cursor, ghost n: nat)
      returns (ss': Stream, fileName': Bytes, inode': Bytes, ghost c': Cursor)
      requires c.stream == ss && c.fileName == fileName && c.inode == inode && c.i < n
      ensures c' == Cursor(c.i + |fileName'| + |inode'| + 2, ss', fileName', inode')
      ensures Turns(n, c) == [(fileName', inode')] + Turns(n, c')
    {
      var (ss1, word1) := Extract(ss, fileName);
      var (ss2, word2) := Extract(ss1, inode);
      return ss2, word1, word2, Advance(c);
    }

    /** The loop of find. */
    method Search(buf: Bytes, name: Bytes, junk: nat) returns (r: Option<nat>)
      ensures r == Lookup(Parse(buf, junk), name)
    {
      var ss, fileName: Bytes, inode: Bytes := Stream(buf, true), [], [];
      var i := 0;
      ghost var c := First(buf);
      while i < |buf|
        invariant c == Cursor(i, ss, fileName, inode)
        invariant Lookup(Parse(buf, junk), name) == Lookup(AllUnderstood(Turns(|buf|, c), junk), name)
        decreases |buf| - i
      {
        ss, fileName, inode, c := NextWords(ss, fileName, inode, c, |buf|);
        ConsUnderstood((fileName, inode), Turns(|buf|, c), junk);
        var nameBuf := Uncode(fileName);
        if nameBuf == name {
          return Some(Number(inode, junk));
        }
        i := i + |fileName| + |inode| + 2;
      }
      return None;
    }

    method ReadDir(dir: ExtentId, junk: nat, noise: Bytes) returns (r: Outcome, list: seq<Entry>)
      modifies ec
      ensures old(Readable(dir)) ==>
                var buf := old(Shown(dir));
                && Shows(dir, buf)
                && if old(Kind(dir)) != T_DIR then (r, list) == (Exist, [])
                   else (r, list) == (Ok, Parse(buf, junk))
      ensures old(Readable(dir)) ==> Kind(dir) == old(Kind(dir))
      ensures forall e :: e != dir ==> ec.SlotAt(e) == old(ec.SlotAt(e))
    {
      list := [];
      if Readable(dir) {
        GetAttrShowing(ec.SlotAt(dir), ec.server.StoredAt(dir), Shown(dir), noise);
      }
      var status, attr := ec.GetAttrExtent(dir, noise);
      if status != OK || attr.value.kind != T_DIR {
        return Exist, list;
      }
      var buf := Fetch(dir, [], noise);
      list := Listed(buf, junk);
      return Ok, list;
    }

    /** The loop of readdir. */
    method Listed(buf: Bytes, junk: nat) returns (list: seq<Entry>)
      ensures list == Parse(buf, junk)
    {
      list := [];
      var ss, fileName: Bytes, inode: Bytes := Stream(buf, true), [], [];
      var i := 0;
      ghost var c := First(buf);
      while i < |buf|
        invariant c == Cursor(i, ss, fileName, inode)
        invariant Parse(buf, junk) == list + AllUnderstood(Turns(|buf|, c), junk)
        decreases |buf| - i
      {
        ss, fileName, inode, c := NextWords(ss, fileName, inode, c, |buf|);
        ConsUnderstood((fileName, inode), Turns(|buf|, c), junk);
        var nameBuf := Uncode(fileName);
        list := list + [Entry(nameBuf, Number(inode, junk))];
        i := i + |fileName| + |inode| + 2;
      }
    }

    /** Without an entry of that name nothing is put back. */
    method Unlink(parent: ExtentId, name: Bytes, junk: nat, junkAttr: ExtentId -> Attr, noise: Bytes)
        returns (r: Outcome)
      modifies ec
      ensures old(Readable(parent)) ==>
                var buf := old(Shown(parent));
                var gone := Matching(Turns(|buf|, First(buf)), name);
                && (r == if gone == [] then NoEnt else Ok)
                && (parent !in Inums(gone, junk) ==>
                      Shows(parent, UnlinkFrom(buf, name)) && Kind(parent) == old(Kind(parent)))
                && forall e :: e != parent ==>
                   ec.SlotAt(e) == Taken(old(ec.SlotAt(e)), e in Inums(gone, junk), junkAttr(e))
    {
      var buf := Fetch(parent, [], noise);
      var flag, result := TakeOut(buf, name, junk, junkAttr);
      if !flag {
        return NoEnt;
      }
      if old(Readable(parent)) && Readable(parent) {
        PutShowing(ec.SlotAt(parent), ec.server.StoredAt(parent), Shown(parent), result, 0);
      }
      var put := ec.PutExtent(parent, result, 0);
      return Ok;
    }

    /** The loop of unlink: the entries of the name are removed, the others kept as they
        were written. */
    method TakeOut(buf: Bytes, name: Bytes, junk: nat, junkAttr: ExtentId -> Attr) returns (flag: bool, result: Bytes)
      modifies ec
      ensures var turns := Turns(|buf|, First(buf));
              && (flag <==> Matching(turns, name) != [])
              && result == AllJoined(Others(turns, name))
              && forall e ::
                   ec.SlotAt(e) == Taken(old(ec.SlotAt(e)), e in Inums(Matching(turns, name), junk), junkAttr(e))
    {
      flag, result := false, [];
      ghost var turns := Turns(|buf|, First(buf));
      ghost var gone: set<nat> := {};
      var ss, fileName: Bytes, inode: Bytes := Stream(buf, true), [], [];
      var i := 0;
      ghost var c := First(buf);
      while i < |buf|
        invariant c == Cursor(i, ss, fileName, inode)
        invariant Sorted(turns, Turns(|buf|, c), name, junk, flag, result, gone)
        invariant forall e :: ec.SlotAt(e) == Taken(old(ec.SlotAt(e)), e in gone, junkAttr(e))
        decreases |buf| - i
      {
        ss, fileName, inode, c := NextWords(ss, fileName, inode, c, |buf|);
        SortOne(turns, (fileName, inode), Turns(|buf|, c), name, junk, flag, result, gone);
        var nameBuf := Uncode(fileName);
        if nameBuf == name {
          var eid := Number(inode, junk);
          TakenAgain(old(ec.SlotAt(eid)), eid in gone, junkAttr(eid));
          var removed := ec.RemoveExtent(eid, junkAttr(eid));
          flag := true;
          gone := gone + {eid};
        } else {
          result := result + (fileName + [SPACE] + inode + [SPACE]);
        }
        i := i + |fileName| + |inode| + 2;
      }
    }
  }
}
