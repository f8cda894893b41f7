// The caching lock server: one entry per lock, updated in place by the acquire
// and release handlers (lock_server_cache.cc).

module LockTypes {
  /** A client's "host:port" string.  `NoClient` is the empty string the server
      stores when nobody holds a lock. */
  datatype ClientId = NoClient | Host(address: string)

  type LockId = nat

  /** The two answers of the acquire call. */
  datatype Reply = OK | RETRY
}

module LockServer {
  import opened LockTypes
  import opened Wrappers

  datatype Status = FREE | LOCKED | WAITING

  datatype Entry = Entry(status: Status, holder: ClientId, queue: seq<ClientId>, members: set<ClientId>)

  /** What a lock that nobody ever asked for behaves like. */
  const UNUSED := Entry(FREE, NoClient, [], {})

  ghost predicate Distinct<T>(s: seq<T>) {
    forall i, j :: 0 <= i < j < |s| ==> s[i] != s[j]
  }

  /** The shape every entry keeps, whatever is called in whatever order. */
  ghost predicate WellFormed(e: Entry) {
    && (e.queue != [] <==> e.status == WAITING)
    && Distinct(e.queue)
    && (forall c :: c in e.members <==> c in e.queue)
  }

  /** `revoke` asks for a revoke call to the holder of the new entry. */
  datatype Acquired = Acquired(entry: Entry, reply: Reply, revoke: bool)

  function AcquireStep(e: Entry, id: ClientId): (r: Acquired)
    requires WellFormed(e)
    ensures WellFormed(r.entry)
  {
    match e.status
    case FREE =>
      Acquired(e.(status := LOCKED, holder := id), OK, false)
    case LOCKED =>
      Acquired(Enqueue(e, id).(status := WAITING), RETRY, true)
    case WAITING =>
      if e.queue[0] == id then
        var rest := e.queue[1..];
        assert forall c :: c in e.queue <==> c == id || c in rest;
        Acquired(Entry(if rest == [] then LOCKED else WAITING, id, rest, e.members - {id}), OK, rest != [])
      else if id in e.members then
        Acquired(e, RETRY, false)
      else
        Acquired(Enqueue(e, id), RETRY, false)
  }

  function Enqueue(e: Entry, id: ClientId): (r: Entry)
    requires Distinct(e.queue) && id !in e.queue
    requires forall c :: c in e.members <==> c in e.queue
    ensures Distinct(r.queue) && (forall c :: c in r.members <==> c in r.queue)
  {
    e.(queue := e.queue + [id], members := e.members + {id})
  }

  /** `retry` asks for a retry call to the front of the queue. */
  datatype Released = Released(entry: Entry, retry: bool)

  function ReleaseStep(e: Entry, id: ClientId): (r: Released)
    requires WellFormed(e)
    ensures WellFormed(r.entry)
  {
    if e.holder != id then Released(e, false)
    else match e.status
      case FREE => Released(e, false)
      case LOCKED => Released(e.(status := FREE, holder := NoClient), false)
      case WAITING => Released(e.(holder := NoClient), true)
  }

  /** What an acquire call by anybody is answered, and what it leaves: the lock goes to the
      front of the queue, or to whoever asks for one that is free; everybody else waits,
      each once.  The holder is asked to give the lock back when the first one starts to
      wait, or when it gets a lock that others still wait for. */
  lemma AcquireAnswers(e: Entry, id: ClientId)
    requires WellFormed(e)
    ensures var r, first := AcquireStep(e, id), if e.queue == [] then e.status == FREE else e.queue[0] == id;
            && (r.reply == OK <==> first)
            && (first ==> r.entry.holder == id && r.entry.queue == if e.queue == [] then [] else e.queue[1..])
            && (!first ==> r.entry.holder == e.holder)
            && (!first ==> r.entry.queue == if id in e.queue then e.queue else e.queue + [id])
            && (r.revoke <==> r.entry.queue != [] && (first || e.queue == []))
            && r.entry.status == if r.entry.queue == [] then LOCKED else WAITING
  {
  }

  /** A release by the holder makes the lock free, or leaves it to the front of the queue, who
      is told; one by anybody else does nothing. */
  lemma ReleaseAnswers(e: Entry, id: ClientId)
    requires WellFormed(e)
    ensures e.holder != id || e.status == FREE ==> ReleaseStep(e, id) == Released(e, false)
    ensures e.holder == id && e.status != FREE ==>
              var r := ReleaseStep(e, id);
              && r.entry.holder == NoClient && r.entry.queue == e.queue && r.retry == (e.queue != [])
              && r.entry.status == if e.queue == [] then FREE else WAITING
  {
  }

  // ----- FIFO order over arbitrary call sequences -----------------------------

  datatype Call = Acquire(id: ClientId) | Release(id: ClientId)

  function After(e: Entry, call: Call): (r: Entry)
    requires WellFormed(e)
    ensures WellFormed(r)
  {
    match call
    case Acquire(id) => AcquireStep(e, id).entry
    case Release(id) => ReleaseStep(e, id).entry
  }

  function Run(e: Entry, calls: seq<Call>): (r: Entry)
    requires WellFormed(e)
    ensures WellFormed(r)
    decreases |calls|
  {
    if calls == [] then e else Run(After(e, calls[0]), calls[1..])
  }

  /** The clients that got the lock while `calls` were handled, in order. */
  function Granted(e: Entry, calls: seq<Call>): seq<ClientId>
    requires WellFormed(e)
    decreases |calls|
  {
    if calls == [] then []
    else
      var rest := Granted(After(e, calls[0]), calls[1..]);
      if calls[0].Acquire? && AcquireStep(e, calls[0].id).reply == OK then [calls[0].id] + rest else rest
  }

  /** First come, first served: a client waiting at position p is granted the lock
      after exactly the p grants to the clients ahead of it, in queue order, no
      matter which clients call what in between; until then its place only moves up. */
  lemma {:induction false} BoundedBypass(e: Entry, calls: seq<Call>, p: nat)
    requires WellFormed(e) && p < |e.queue|
    ensures var g := Granted(e, calls);
            var q := Run(e, calls).queue;
            && (forall k :: 0 <= k < |g| && k <= p ==> g[k] == e.queue[k])
            && (|g| <= p ==> p - |g| < |q| && q[p - |g|] == e.queue[p])
    decreases |calls|
  {
    if calls != [] {
      var e1 := After(e, calls[0]);
      var popped := calls[0].Acquire? && calls[0].id == e.queue[0];
      if popped {
        assert e1.queue == e.queue[1..];
        if p > 0 { BoundedBypass(e1, calls[1..], p - 1); }
      } else {
        assert e.queue <= e1.queue;
        BoundedBypass(e1, calls[1..], p);
      }
    }
  }

  // ----- the server object ----------------------------------------------------

  /** The handlers.  The revoke and retry calls are made with the mutex dropped and
      change nothing here afterwards, so each handler returns whom it calls. */
  class LockServerCache {
    var table: map<LockId, Entry>

    ghost predicate Valid()
      reads this
    {
      forall l :: l in table ==> WellFormed(table[l])
    }

    ghost function EntryOf(lid: LockId): Entry
      reads this
    {
      if lid in table then table[lid] else UNUSED
    }

    constructor ()
      ensures Valid() && forall l :: EntryOf(l) == UNUSED
    {
      table := map[];
    }

    method Acquire(lid: LockId, id: ClientId) returns (ret: Reply, revoke: Option<ClientId>)
      requires Valid()
      modifies this
      ensures Valid()
      ensures var r := AcquireStep(old(EntryOf(lid)), id);
              && EntryOf(lid) == r.entry && ret == r.reply
              && revoke == if r.revoke then Some(r.entry.holder) else None
      ensures forall l :: l != lid ==> EntryOf(l) == old(EntryOf(l))
    {
      ret := OK;
      var needRevoke := false;
      if lid !in table {
        table := table[lid := Entry(LOCKED, id, [], {})];
      } else {
        var e := table[lid];
        match e.status {
          case FREE =>
            table := table[lid := e.(status := LOCKED, holder := id)];
          case LOCKED =>
            table := table[lid := e.(status := WAITING, queue := e.queue + [id], members := e.members + {id})];
            ret := RETRY;
            needRevoke := true;
          case WAITING =>
            if e.queue[0] == id {
              e := e.(holder := id, queue := e.queue[1..], members := e.members - {id});
              if e.queue == [] {
                e := e.(status := LOCKED);
              } else {
                needRevoke := true;
              }
              table := table[lid := e];
            } else {
              ret := RETRY;
              if id !in e.members {
                table := table[lid := e.(queue := e.queue + [id], members := e.members + {id})];
              }
            }
        }
      }
      revoke := if needRevoke then Some(table[lid].holder) else None;
    }

    method Release(lid: LockId, id: ClientId) returns (retry: Option<ClientId>)
      requires Valid()
      modifies this
      ensures Valid()
      ensures var r := ReleaseStep(old(EntryOf(lid)), id);
              && EntryOf(lid) == r.entry
              && retry == if r.retry then Some(r.entry.queue[0]) else None
      ensures forall l :: l != lid ==> EntryOf(l) == old(EntryOf(l))
    {
      retry := None;
      if lid in table && table[lid].holder == id {
        var e := table[lid];
        match e.status {
          case FREE =>
          case LOCKED =>
            table := table[lid := e.(status := FREE, holder := NoClient)];
          case WAITING =>
            table := table[lid := e.(holder := NoClient)];
            retry := Some(if e.queue == [] then NoClient else e.queue[0]);
        }
      }
    }
  }
}
