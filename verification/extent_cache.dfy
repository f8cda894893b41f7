// The write-back extent cache of one client, in front of the extent server
// (extent_client_cache.cc).

module ExtentCache {
  import opened Wrappers
  import opened Bytes

  type ExtentId = nat

  /** NONE: only the attributes are cached. */
  datatype State = NONE | UPDATE | MODIFIED | REMOVED

  /** The attributes without their times. */
  datatype Attr = Attr(kind: nat, size: nat)

  datatype Extent = Extent(data: Bytes, state: State, attr: Attr)

  type Slot = Option<Extent>

  const T_DIR: nat := 1
  const T_FILE: nat := 2

  /** An extent at the server.  Nothing is promised about reading a removed one. */
  datatype Stored = Live(kind: nat, data: Bytes) | Dead

  datatype Status = OK | NOENT

  /** What a reader of the extent should see. */
  datatype Content = Present(data: Bytes) | Gone

  function ContentOf(stored: Stored): Content {
    match stored
    case Live(_, data) => Present(data)
    case Dead => Gone
  }

  /** The client's picture of the extent. */
  function View(slot: Slot, stored: Stored): Content {
    if slot == None || slot.value.state == NONE then ContentOf(stored)
    else if slot.value.state == REMOVED then Gone
    else Present(slot.value.data)
  }

  // ----- one extent: each call as a function of the slot and the server -----------------

  /** `noise` is what the server returns for a removed extent. */
  function Fetched(stored: Stored, noise: Bytes): Bytes {
    if stored.Live? then stored.data else noise
  }

  function FetchedAttr(stored: Stored, noise: Bytes): Attr {
    Attr(if stored.Live? then stored.kind else 0, |Fetched(stored, noise)|)
  }

  function Get(slot: Slot, stored: Stored, noise: Bytes): (Slot, Status, Option<Bytes>) {
    var fetched := Fetched(stored, noise);
    match slot
    case None => (Some(Extent(fetched, UPDATE, FetchedAttr(stored, noise))), OK, Some(fetched))
    case Some(x) =>
      match x.state
      case UPDATE => (slot, OK, Some(x.data))
      case MODIFIED => (slot, OK, Some(x.data))
      case NONE => (Some(Extent(fetched, UPDATE, x.attr.(size := |fetched|))), OK, Some(fetched))
      case REMOVED => (slot, NOENT, None)
  }

  function GetAttr(slot: Slot, stored: Stored, noise: Bytes): (Slot, Status, Option<Attr>) {
    match slot
    case None =>
      var attr := FetchedAttr(stored, noise);
      (Some(Extent([], NONE, attr)), OK, Some(attr))
    case Some(x) => if x.state == REMOVED then (slot, NOENT, None) else (slot, OK, Some(x.attr))
  }

  /** `junk` is the type field of a cache entry that put has just made. */
  function Put(slot: Slot, data: Bytes, junk: nat): (Slot, Status) {
    if slot.Some? && slot.value.state == REMOVED then (slot, NOENT)
    else
      var kind := if slot.Some? then slot.value.attr.kind else junk;
      (Some(Extent(data, MODIFIED, Attr(kind, |data|))), OK)
  }

  function Remove(slot: Slot, junk: Attr): (Slot, Status) {
    match slot
    case None => (Some(Extent([], REMOVED, junk)), OK)
    case Some(x) => if x.state == REMOVED then (slot, NOENT) else (Some(x.(state := REMOVED)), OK)
  }

  function StoredPut(stored: Stored, data: Bytes): Stored {
    Live(if stored.Live? then stored.kind else 0, data)
  }

  function Flush(slot: Slot, stored: Stored): (Stored, Status) {
    match slot
    case None => (stored, NOENT)
    case Some(x) =>
      match x.state
      case MODIFIED => (StoredPut(stored, x.data), OK)
      case REMOVED => (Dead, OK)
      case NONE => (stored, OK)
      case UPDATE => (stored, OK)
  }

  // ----- what keeps the cache sound -----------------------------------------------------

  /** A clean copy is the server's copy. */
  predicate Clean(slot: Slot, stored: Stored) {
    slot.Some? && slot.value.state == UPDATE ==> ContentOf(stored) == Present(slot.value.data)
  }

  /** A cached size is the length of what the client sees. */
  predicate Sized(slot: Slot, stored: Stored) {
    slot.Some? && View(slot, stored).Present? ==> slot.value.attr.size == |View(slot, stored).data|
  }

  predicate Sound(slot: Slot, stored: Stored) {
    Clean(slot, stored) && Sized(slot, stored)
  }

  /** get answers the view and changes neither it nor the soundness of the slot. */
  lemma GetReadsView(slot: Slot, stored: Stored, noise: Bytes)
    requires Clean(slot, stored) && stored.Live?
    ensures var (slot', status, buf) := Get(slot, stored, noise);
            && View(slot', stored) == View(slot, stored) && Clean(slot', stored)
            && (Sized(slot, stored) ==> Sized(slot', stored))
            && match View(slot, stored)
               case Present(data) => status == OK && buf == Some(data)
               case Gone => status == NOENT && buf == None
  {
  }

  lemma GetAttrReadsView(slot: Slot, stored: Stored, noise: Bytes)
    requires Sound(slot, stored) && stored.Live?
    ensures var (slot', status, attr) := GetAttr(slot, stored, noise);
            && View(slot', stored) == View(slot, stored) && Sound(slot', stored)
            && match View(slot, stored)
               case Present(data) => status == OK && attr.Some? && attr.value.size == |data|
               case Gone => status == NOENT && attr == None
  {
  }

  lemma PutWritesView(slot: Slot, stored: Stored, data: Bytes, junk: nat)
    requires stored.Live?
    ensures var (slot', status) := Put(slot, data, junk);
            if View(slot, stored) == Gone then slot' == slot && status == NOENT
            else View(slot', stored) == Present(data) && status == OK && Sound(slot', stored)
  {
  }

  lemma RemoveEmptiesView(slot: Slot, stored: Stored, junk: Attr)
    requires Sound(slot, stored) && stored.Live?
    ensures var (slot', status) := Remove(slot, junk);
            && View(slot', stored) == Gone && Sound(slot', stored)
            && (status == NOENT <==> View(slot, stored) == Gone)
  {
  }

  /** flush leaves the server with what the client saw; nothing stays in the cache. */
  lemma FlushKeepsView(slot: Slot, stored: Stored)
    requires Clean(slot, stored)
    ensures ContentOf(Flush(slot, stored).0) == View(slot, stored)
    ensures View(None, Flush(slot, stored).0) == View(slot, stored)
    ensures Flush(slot, stored).1 == NOENT <==> slot == None
  {
  }

  // ----- the type ---------------------------------------------------------------------------

  /** The type in the attributes that a client sees. */
  function KindOf(slot: Slot, stored: Stored): nat {
    if slot.Some? then slot.value.attr.kind else if stored.Live? then stored.kind else 0
  }

  /** It is what getattr answers. */
  lemma GetAttrReadsKind(slot: Slot, stored: Stored, noise: Bytes)
    requires slot.Some? ==> slot.value.state != REMOVED
    ensures GetAttr(slot, stored, noise).2.Some? && GetAttr(slot, stored, noise).2.value.kind == KindOf(slot, stored)
    ensures KindOf(GetAttr(slot, stored, noise).0, stored) == KindOf(slot, stored)
  {
  }

  /** get leaves the type as it is, on an extent not cached before, too. */
  lemma GetKeepsKind(slot: Slot, stored: Stored, noise: Bytes)
    ensures KindOf(Get(slot, stored, noise).0, stored) == KindOf(slot, stored)
  {
  }

  /** put leaves the type of a cached extent as it is. */
  lemma PutKeepsKind(slot: Slot, stored: Stored, data: Bytes, junk: nat)
    requires slot.Some?
    ensures KindOf(Put(slot, data, junk).0, stored) == KindOf(slot, stored)
  {
  }

  /** remove leaves the type, and flush leaves that of a live extent at the server. */
  lemma FlushKeepsKind(slot: Slot, stored: Stored, junk: Attr)
    requires slot.Some?
    ensures KindOf(Remove(slot, junk).0, stored) == KindOf(slot, stored)
    ensures stored.Live? && slot.value.state != REMOVED ==> KindOf(None, Flush(slot, stored).0) == stored.kind
  {
  }

  // ----- the objects ----------------------------------------------------------------------

  /** What the extent server offers its clients. */
  class ExtentStore {
    var contents: map<ExtentId, Stored>

    ghost function StoredAt(eid: ExtentId): Stored
      reads this
    {
      if eid in contents then contents[eid] else Dead
    }

    constructor ()
      ensures forall e :: StoredAt(e) == Dead
    {
      contents := map[];
    }

    method Create(eid: ExtentId, kind: nat)
      modifies this
      ensures StoredAt(eid) == Live(kind, [])
      ensures forall e :: e != eid ==> StoredAt(e) == old(StoredAt(e))
    {
      contents := contents[eid := Live(kind, [])];
    }

    method Put(eid: ExtentId, data: Bytes)
      modifies this
      ensures StoredAt(eid) == StoredPut(old(StoredAt(eid)), data)
      ensures forall e :: e != eid ==> StoredAt(e) == old(StoredAt(e))
    {
      var kind := if eid in contents && contents[eid].Live? then contents[eid].kind else 0;
      contents := contents[eid := Live(kind, data)];
    }

    method Get(eid: ExtentId, noise: Bytes) returns (data: Bytes)
      ensures data == Fetched(StoredAt(eid), noise)
    {
      data := if eid in contents && contents[eid].Live? then contents[eid].data else noise;
    }

    method GetAttr(eid: ExtentId, noise: Bytes) returns (attr: Attr)
      ensures attr == FetchedAttr(StoredAt(eid), noise)
    {
      var data := Get(eid, noise);
      attr := Attr(if eid in contents && contents[eid].Live? then contents[eid].kind else 0, |data|);
    }

    method Remove(eid: ExtentId)
      modifies this
      ensures StoredAt(eid) == Dead
      ensures forall e :: e != eid ==> StoredAt(e) == old(StoredAt(e))
    {
      contents := contents[eid := Dead];
    }
  }

  /** One client's cache.  Each method holds the mutex from start to end. */
  class ExtentClientCache {
    var table: map<ExtentId, Extent>
    const server: ExtentStore

    ghost function SlotAt(eid: ExtentId): Slot
      reads this
    {
      if eid in table then Some(table[eid]) else None
    }

    /** What this client sees of an extent. */
    ghost function Seen(eid: ExtentId): Content
      reads this, server
    {
      View(SlotAt(eid), server.StoredAt(eid))
    }

    ghost predicate SoundAt(eid: ExtentId)
      reads this, server
    {
      Sound(SlotAt(eid), server.StoredAt(eid))
    }

    constructor (server: ExtentStore)
      ensures this.server == server && forall e :: SlotAt(e) == None
    {
      this.server := server;
      table := map[];
    }

    /** The new extent's entry keeps whatever data an old entry of that number had. */
    method CreateExtent(eid: ExtentId, kind: nat)
      modifies this, server
      ensures server.StoredAt(eid) == Live(kind, [])
      ensures var data := if old(SlotAt(eid)).Some? then old(SlotAt(eid)).value.data else [];
              SlotAt(eid) == Some(Extent(data, NONE, Attr(kind, 0)))
      ensures Seen(eid) == Present([]) && SoundAt(eid)
      ensures forall e :: e != eid ==> SlotAt(e) == old(SlotAt(e)) && server.StoredAt(e) == old(server.StoredAt(e))
    {
      server.Create(eid, kind);
      table := table[eid := Extent(if eid in table then table[eid].data else [], NONE, Attr(kind, 0))];
    }

    method GetExtent(eid: ExtentId, noise: Bytes) returns (status: Status, buf: Option<Bytes>)
      modifies this
      ensures (SlotAt(eid), status, buf) == Get(old(SlotAt(eid)), server.StoredAt(eid), noise)
      ensures forall e :: e != eid ==> SlotAt(e) == old(SlotAt(e))
    {
      status := OK;
      if eid in table {
        match table[eid].state {
          case UPDATE => buf := Some(table[eid].data);
          case MODIFIED => buf := Some(table[eid].data);
          case NONE =>
            var data := server.Get(eid, noise);
            buf := Some(data);
            var x := table[eid];
            table := table[eid := Extent(data, UPDATE, x.attr.(size := |data|))];
          case REMOVED => return NOENT, None;
        }
      } else {
        var data := server.Get(eid, noise);
        buf := Some(data);
        var attr := server.GetAttr(eid, noise);
        table := table[eid := Extent(data, UPDATE, attr)];
      }
    }

    method GetAttrExtent(eid: ExtentId, noise: Bytes) returns (status: Status, attr: Option<Attr>)
      modifies this
      ensures (SlotAt(eid), status, attr) == GetAttr(old(SlotAt(eid)), server.StoredAt(eid), noise)
      ensures forall e :: e != eid ==> SlotAt(e) == old(SlotAt(e))
    {
      status := OK;
      if eid in table {
        if table[eid].state == REMOVED {
          return NOENT, None;
        }
        attr := Some(table[eid].attr);
      } else {
        var fetched := server.GetAttr(eid, noise);
        attr := Some(fetched);
        table := table[eid := Extent([], NONE, fetched)];
      }
    }

    method PutExtent(eid: ExtentId, data: Bytes, junk: nat) returns (status: Status)
      modifies this
      ensures (SlotAt(eid), status) == Put(old(SlotAt(eid)), data, junk)
      ensures forall e :: e != eid ==> SlotAt(e) == old(SlotAt(e))
    {
      var kind := junk;
      if eid in table {
        if table[eid].state == REMOVED {
          return NOENT;
        }
        kind := table[eid].attr.kind;
      }
      table := table[eid := Extent(data, MODIFIED, Attr(kind, |data|))];
      status := OK;
    }

    method RemoveExtent(eid: ExtentId, junk: Attr) returns (status: Status)
      modifies this
      ensures (SlotAt(eid), status) == Remove(old(SlotAt(eid)), junk)
      ensures forall e :: e != eid ==> SlotAt(e) == old(SlotAt(e))
    {
      if eid in table {
        if table[eid].state == REMOVED {
          return NOENT;
        }
        table := table[eid := table[eid].(state := REMOVED)];
      } else {
        table := table[eid := Extent([], REMOVED, junk)];
      }
      status := OK;
    }

    /** dorelease: what the lock client calls before it gives the lock back. */
    method FlushExtent(eid: ExtentId) returns (status: Status)
      modifies this, server
      ensures SlotAt(eid) == None
      ensures (server.StoredAt(eid), status) == Flush(old(SlotAt(eid)), old(server.StoredAt(eid)))
      ensures forall e :: e != eid ==> SlotAt(e) == old(SlotAt(e)) && server.StoredAt(e) == old(server.StoredAt(e))
      ensures old(SoundAt(eid)) ==> Seen(eid) == old(Seen(eid))
    {
      if eid !in table {
        return NOENT;
      }
      match table[eid].state {
        case MODIFIED => server.Put(eid, table[eid].data);
        case REMOVED => server.Remove(eid);
        case NONE =>
        case UPDATE =>
      }
      table := table - {eid};
      status := OK;
    }
  }
}
