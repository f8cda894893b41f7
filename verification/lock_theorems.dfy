// What holds of the lock protocol in every reachable state, over all
// interleavings of clients, threads, handlers and messages.

module LockTheorems {
  import opened LockTypes
  import opened LockSystem
  import Srv = LockServer
  import Cl = LockClient

  /** `steps` lead from s to s'. */
  ghost predicate Run(s: System, steps: seq<Step>, s': System)
    decreases |steps|
  {
    if steps == [] then s' == s
    else Enabled(s, steps[0]) && Run(Apply(s, steps[0]), steps[1..], s')
  }

  ghost predicate Reachable(s: System) {
    exists steps :: Run(INITIAL, steps, s)
  }

  lemma {:induction false} RunInv(s: System, steps: seq<Step>, s': System)
    requires Inv(s) && Run(s, steps, s')
    ensures Inv(s')
    decreases |steps|
  {
    if steps != [] {
      StepInv(s, steps[0]);
      RunInv(Apply(s, steps[0]), steps[1..], s');
    }
  }

  lemma ReachableInv(s: System)
    requires Reachable(s)
    ensures Inv(s)
  {
    InitialInv();
    var steps :| Run(INITIAL, steps, s);
    RunInv(INITIAL, steps, s);
  }

  /** The stage can be read off the client itself. */
  function StageOf(cl: Client): Stage {
    match cl.record.status
    case NONE => Outside
    case FREE => Cached
    case ACQUIRING =>
      if AwaitRetry in cl.crew then Sleeping
      else if RetryWoken in cl.crew then Retrying
      else if Acquire in cl.mail then Asked
      else if Granted in cl.mail then Given
      else Turned
    case LOCKED => if Inside in cl.crew then Working else GivingUp(cl)
    case RELEASING => if Inside in cl.crew then Finishing else GivingUp(cl)
  }

  function GivingUp(cl: Client): Stage {
    if Flushing in cl.crew then Writing else if Release in cl.mail then Sending else Back
  }

  lemma StageIs(cl: Client, v: View, st: Stage)
    requires FitsAt(cl, v, st)
    ensures st == StageOf(cl)
  {
  }

  lemma AtStage(s: System, c: ClientId)
    requires Inv(s) && c != NoClient
    ensures FitsAt(ClientOf(s, c), ViewOf(s.server, c), StageOf(ClientOf(s, c)))
  {
    var st := SomeStage(s, c);
    StageIs(ClientOf(s, c), ViewOf(s.server, c), st);
  }

  // ----- mutual exclusion -----------------------------------------------------------

  /** Threads of a client that may touch the extent the lock protects. */
  function Users(cl: Client): nat {
    cl.crew[Inside] + cl.crew[Flushing]
  }

  /** c owns the lock: the grant is on its way, or c has it and the server has not yet
      served its release call. */
  predicate Owner(cl: Client) {
    Granted in cl.mail || cl.record.status == Cl.FREE || Users(cl) > 0 || Release in cl.mail
  }

  predicate Owns(s: System, c: ClientId) {
    Owner(ClientOf(s, c))
  }

  lemma OwnerHolds(cl: Client, v: View, st: Stage)
    requires FitsAt(cl, v, st)
    ensures (Owner(cl) <==> v.holds) && Users(cl) <= 1
  {
    match st {
      case Back =>
      case Sending =>
      case _ =>
    }
  }

  /** The clients that own the lock are exactly the holder the server has written down:
      so there is one at most, and at most one thread uses it. */
  lemma MutualExclusion(s: System, c: ClientId)
    requires Reachable(s) && c != NoClient
    ensures Owns(s, c) <==> s.server.holder == c
    ensures Users(ClientOf(s, c)) <= 1
  {
    ReachableInv(s);
    var st := SomeStage(s, c);
    OwnerHolds(ClientOf(s, c), ViewOf(s.server, c), st);
  }

  lemma OneOwner(s: System, c: ClientId, d: ClientId)
    requires Reachable(s) && c != NoClient && d != NoClient
    requires Owns(s, c) && Owns(s, d)
    ensures c == d
  {
    MutualExclusion(s, c);
    MutualExclusion(s, d);
  }

  /** Whenever the server answers an acquire call with OK, nobody owns the lock,
      although the WAITING branch does not look. */
  lemma UncheckedGrantIsSafe(s: System, c: ClientId, d: ClientId)
    requires Reachable(s) && Enabled(s, ServeAcquire(c)) && d != NoClient
    requires Srv.AcquireStep(s.server, c).reply == OK
    ensures s.server.holder == NoClient && !Owns(s, d)
  {
    ReachableInv(s);
    var st := SomeStage(s, c);
    Asker(ClientOf(s, c), ViewOf(s.server, c), st);
    AcquireViews(s.server, c, c);
    MutualExclusion(s, d);
  }

  // ----- nothing is lost or duplicated ------------------------------------------------

  predicate GivesBack(cl: Client) {
    || Flushing in cl.crew || Release in cl.mail
    || (Inside in cl.crew && cl.record.status == Cl.RELEASING)
  }

  /** What can move a contended lock on, counted at client c. */
  function Tokens(cl: Client, queued: bool): nat {
    Revokes(cl) + Num(GivesBack(cl)) + Retries(cl) + Num(queued && Acquire in cl.mail)
  }

  lemma TokenFits(cl: Client, v: View, st: Stage)
    requires FitsAt(cl, v, st)
    ensures Tokens(cl, v.queued) == Num(v.turn && v.queued) + Num(v.holds && v.contended)
  {
    match st {
      case Back =>
      case Sending =>
      case Writing =>
      case Working =>
      case _ =>
    }
  }

  /** Exactly one thing is under way for a lock that somebody waits for, at its holder
      or else at the front of the queue; nothing is under way for one nobody waits for. */
  lemma ExactlyOneToken(s: System, c: ClientId)
    requires Reachable(s) && c != NoClient
    ensures var e := s.server;
            Tokens(ClientOf(s, c), c in e.queue)
            == Num(e.status == Srv.WAITING && if e.holder != NoClient then c == e.holder else [c] <= e.queue)
  {
    ReachableInv(s);
    var st := SomeStage(s, c);
    TokenFits(ClientOf(s, c), ViewOf(s.server, c), st);
  }

  lemma RetryFits(cl: Client, v: View, st: Stage)
    requires FitsAt(cl, v, st)
    ensures cl.record.status == Cl.NONE ==> !cl.record.retry
    ensures cl.record.status == Cl.FREE ==> v.holds
    ensures AwaitRetry in cl.crew ==> !cl.record.retry
  {
  }

  /** A client that starts to acquire finds no stale retry flag, so its acquire returns
      at once only if it has the lock cached; and a thread that waits for the retry
      call never sleeps through it. */
  lemma RetryFlagsMatch(s: System, c: ClientId)
    requires Reachable(s) && c != NoClient
    ensures var cl := ClientOf(s, c);
            && (cl.record.status == Cl.NONE ==> !cl.record.retry)
            && (Cl.AcquireSection(cl.record).1 == Cl.Return ==> cl.record.status == Cl.FREE && s.server.holder == c)
            && (AwaitRetry in cl.crew ==> !cl.record.retry)
  {
    ReachableInv(s);
    var st := SomeStage(s, c);
    RetryFits(ClientOf(s, c), ViewOf(s.server, c), st);
  }

  lemma RevokeAtHolder(cl: Client, v: View, st: Stage)
    requires FitsAt(cl, v, st) && Revoke in cl.mail
    ensures v.holds && cl.record.status != Cl.NONE && cl.record.status != Cl.RELEASING && !cl.record.revoke
  {
  }

  /** A revoke call only reaches the holder, and never while it has not got the lock or
      is giving it back: two branches of the handler are never taken. */
  lemma RevokeReachesHolder(s: System, c: ClientId)
    requires Reachable(s) && c != NoClient && Revoke in ClientOf(s, c).mail
    ensures var r := ClientOf(s, c).record;
            && s.server.holder == c
            && r.status != Cl.NONE && r.status != Cl.RELEASING && !r.revoke
  {
    ReachableInv(s);
    var st := SomeStage(s, c);
    RevokeAtHolder(ClientOf(s, c), ViewOf(s.server, c), st);
  }

  /** A thread asleep on `cond` while the lock can be taken has a woken companion. */
  lemma NobodySleepsIn(s: System, c: ClientId)
    requires Reachable(s) && c != NoClient
    ensures NoLostWakeup(ClientOf(s, c))
  {
    ReachableInv(s);
    assert ClientOk(s, c);
  }
}
