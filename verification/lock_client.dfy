// The caching lock client: the per-lock record that acquire, release and the two
// server-call handlers update (lock_client_cache.cc).  The code drops its mutex
// around every remote call and condition wait, so each operation is a chain of
// critical sections; every section is one function here and one method below.

module LockClient {
  import opened LockTypes

  datatype Status = NONE | FREE | LOCKED | ACQUIRING | RELEASING

  datatype Record = Record(status: Status, revoke: bool, retry: bool)

  const FRESH := Record(NONE, false, false)

  /** How a critical section ends. */
  datatype Exit =
    | Return           // the operation is over
    | WaitTurn         // sleep on `cond`
    | CallAcquire      // drop the mutex and call the server's acquire
    | WaitRetry        // sleep on `condForRetry`
    | FlushAndRelease  // drop the mutex, write the extent back, call the server's release

  /** acquire, from its start or from a wake-up on `cond`, up to the mutex drop.
      The request loop is guarded by the retry flag: were a stale flag set, acquire
      would return without asking the server. */
  function AcquireSection(r: Record): (Record, Exit) {
    match r.status
    case NONE => (r.(status := ACQUIRING), if r.retry then Return else CallAcquire)
    case FREE => (r.(status := LOCKED), Return)
    case LOCKED => (r, WaitTurn)
    case ACQUIRING => (r, WaitTurn)
    case RELEASING => (r, WaitTurn)
  }

  /** acquire, when the server has answered. */
  function ReplySection(r: Record, reply: Reply): (Record, Exit) {
    match reply
    case OK => (r.(status := LOCKED), Return)
    case RETRY => RetrySection(r)
  }

  /** acquire, at the test of the retry flag. */
  function RetrySection(r: Record): (Record, Exit) {
    if r.retry then (r.(retry := false), CallAcquire) else (r, WaitRetry)
  }

  /** release, up to the mutex drop; the flag says whether `cond` is signalled. */
  function ReleaseSection(r: Record): (Record, Exit, bool) {
    if r.revoke then (r.(revoke := false), FlushAndRelease, false)
    else match r.status
      case LOCKED => (r.(status := FREE), Return, true)
      case RELEASING => (r, FlushAndRelease, false)
      case FREE => (r, Return, false)
      case NONE => (r, Return, false)
      case ACQUIRING => (r, Return, false)
  }

  /** release or the revoke handler, when the release call has come back;
      `cond` is signalled. */
  function ReleasedSection(r: Record): Record {
    r.(status := NONE)
  }

  /** The revoke handler, up to the mutex drop. */
  function RevokeSection(r: Record): (Record, Exit) {
    match r.status
    case NONE => (r.(revoke := true), Return)
    case RELEASING => (r.(revoke := true), Return)
    case ACQUIRING => (r.(revoke := true), Return)
    case FREE => (r.(status := RELEASING), FlushAndRelease)
    case LOCKED => (r.(status := RELEASING), Return)
  }

  /** The retry handler; `condForRetry` is signalled. */
  function RetryCallSection(r: Record): Record {
    r.(retry := true)
  }

  /** A release by nobody inside, of a lock nobody asked for, does nothing: no status changes,
      no call goes out. */
  lemma StrayRelease(r: Record)
    requires r.status != LOCKED && r.status != RELEASING && !r.revoke
    ensures ReleaseSection(r) == (r, Return, false)
  {
  }

  /** A release obeys a revocation that was remembered, and forgets it. */
  lemma RevokedRelease(r: Record)
    requires r.revoke
    ensures ReleaseSection(r) == (r.(revoke := false), FlushAndRelease, false)
  {
  }

  /** A revoke call that finds the lock neither cached nor in use is remembered. */
  lemma EarlyRevoke(r: Record)
    requires r.status != FREE && r.status != LOCKED
    ensures RevokeSection(r) == (r.(revoke := true), Return)
  {
  }

  /** A stale retry flag would let acquire return without a word to the server. */
  lemma StaleRetry(r: Record)
    requires r.status == NONE
    ensures AcquireSection(r).0 == r.(status := ACQUIRING)
    ensures AcquireSection(r).1 == Return <==> r.retry
  {
  }

  /** The client object.  Every method is one critical section. */
  class LockClientCache {
    var table: map<LockId, Record>

    ghost function RecordOf(lid: LockId): Record
      reads this
    {
      if lid in table then table[lid] else FRESH
    }

    constructor ()
      ensures forall l :: RecordOf(l) == FRESH
    {
      table := map[];
    }

    method Acquire(lid: LockId) returns (exit: Exit)
      modifies this
      ensures (RecordOf(lid), exit) == AcquireSection(old(RecordOf(lid)))
      ensures forall l :: l != lid ==> RecordOf(l) == old(RecordOf(l))
    {
      var acquire := false;
      if lid !in table {
        acquire := true;
        table := table[lid := FRESH];
      }
      match table[lid].status {
        case NONE =>
          acquire := true;
          table := table[lid := table[lid].(status := ACQUIRING)];
        case FREE =>
          table := table[lid := table[lid].(status := LOCKED)];
        case LOCKED => return WaitTurn;
        case ACQUIRING => return WaitTurn;
        case RELEASING => return WaitTurn;
      }
      exit := if acquire && !table[lid].retry then CallAcquire else Return;
    }

    method OnReply(lid: LockId, reply: Reply) returns (exit: Exit)
      requires lid in table
      modifies this
      ensures (RecordOf(lid), exit) == ReplySection(old(RecordOf(lid)), reply)
      ensures forall l :: l != lid ==> RecordOf(l) == old(RecordOf(l))
      ensures lid in table
    {
      if reply == RETRY {
        exit := OnRetryWake(lid);
      } else {
        table := table[lid := table[lid].(status := LOCKED)];
        exit := Return;
      }
    }

    method OnRetryWake(lid: LockId) returns (exit: Exit)
      requires lid in table
      modifies this
      ensures (RecordOf(lid), exit) == RetrySection(old(RecordOf(lid)))
      ensures forall l :: l != lid ==> RecordOf(l) == old(RecordOf(l))
      ensures lid in table
    {
      if !table[lid].retry {
        return WaitRetry;
      }
      table := table[lid := table[lid].(retry := false)];
      exit := CallAcquire;
    }

    method Release(lid: LockId) returns (exit: Exit, signal: bool)
      modifies this
      ensures (RecordOf(lid), exit, signal) == ReleaseSection(old(RecordOf(lid)))
      ensures forall l :: l != lid ==> RecordOf(l) == old(RecordOf(l))
    {
      if lid !in table {
        return Return, false;
      }
      if table[lid].revoke {
        table := table[lid := table[lid].(revoke := false)];
        return FlushAndRelease, false;
      }
      match table[lid].status {
        case LOCKED =>
          table := table[lid := table[lid].(status := FREE)];
          return Return, true;
        case RELEASING =>
          return FlushAndRelease, false;
        case FREE => return Return, false;
        case NONE => return Return, false;
        case ACQUIRING => return Return, false;
      }
    }

    method OnReleased(lid: LockId)
      requires lid in table
      modifies this
      ensures RecordOf(lid) == ReleasedSection(old(RecordOf(lid)))
      ensures forall l :: l != lid ==> RecordOf(l) == old(RecordOf(l))
    {
      table := table[lid := table[lid].(status := NONE)];
    }

    method RevokeHandler(lid: LockId) returns (exit: Exit)
      modifies this
      ensures (RecordOf(lid), exit) == RevokeSection(old(RecordOf(lid)))
      ensures forall l :: l != lid ==> RecordOf(l) == old(RecordOf(l))
    {
      if lid !in table {
        table := table[lid := FRESH];
      }
      match table[lid].status {
        case FREE =>
          table := table[lid := table[lid].(status := RELEASING)];
          exit := FlushAndRelease;
        case LOCKED =>
          table := table[lid := table[lid].(status := RELEASING)];
          exit := Return;
        case NONE =>
          table := table[lid := table[lid].(revoke := true)];
          exit := Return;
        case RELEASING =>
          table := table[lid := table[lid].(revoke := true)];
          exit := Return;
        case ACQUIRING =>
          table := table[lid := table[lid].(revoke := true)];
          exit := Return;
      }
    }

    method RetryHandler(lid: LockId)
      modifies this
      ensures RecordOf(lid) == RetryCallSection(old(RecordOf(lid)))
      ensures forall l :: l != lid ==> RecordOf(l) == old(RecordOf(l))
    {
      if lid !in table {
        table := table[lid := FRESH];
      }
      table := table[lid := table[lid].(retry := true)];
    }
  }
}
