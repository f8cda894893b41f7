// One lock, its server entry, every client with its threads, and the calls in
// flight between them.  The steps are the critical sections of the two objects;
// everything is proved of every reachable state.

module LockSystem {
  import opened LockTypes
  import opened Wrappers
  import Srv = LockServer
  import Cl = LockClient

  /** Where a thread of a client stands.  The thread that runs a revoke handler is a
      thread like the others; threads outside acquire and release have no place. */
  datatype Place =
    | Asleep      // waiting on `cond`
    | Woken       // signalled on `cond`, has not looked at the status yet
    | Calling     // its acquire call is out
    | AwaitRetry  // waiting on `condForRetry`
    | RetryWoken  // signalled on `condForRetry`, has not looked at the flag yet
    | Inside      // acquire has returned, release has not been called
    | Flushing    // mutex dropped, writing the extent back
    | Returning   // its release call is out

  /** What is in flight between a client and the server. */
  datatype Kind =
    | Acquire | Granted | Refused  // the acquire call; its replies OK and RETRY
    | Release | Released           // the release call and its reply
    | Revoke | Retry               // the server's own calls

  datatype Client = Client(record: Cl.Record, crew: multiset<Place>, mail: multiset<Kind>)

  datatype System = System(server: Srv.Entry, clients: map<ClientId, Client>)

  const NEWCOMER := Client(Cl.FRESH, multiset{}, multiset{})

  const INITIAL := System(Srv.UNUSED, map[])

  function ClientOf(s: System, c: ClientId): Client {
    if c in s.clients then s.clients[c] else NEWCOMER
  }

  // ----- steps -----------------------------------------------------------------

  datatype Action =
    | Enter           // a thread calls acquire
    | Recheck         // a thread woken on `cond` looks at the status
    | TakeGrant       // the reply OK arrives
    | TakeRefusal     // the reply RETRY arrives
    | RetryCheck      // a thread woken on `condForRetry` looks at the flag
    | Leave           // the thread inside calls release
    | SendRelease     // the extent is written back, the release call goes out
    | TakeReleased    // the release call comes back
    | TakeRevoke      // the revoke handler runs
    | TakeRetry       // the retry handler runs
    | Spurious        // a wake-up on `cond` without a signal
    | SpuriousRetry   // the same on `condForRetry`

  predicate CanAct(cl: Client, a: Action) {
    match a
    case Enter => true
    case Recheck => Woken in cl.crew
    case TakeGrant => Calling in cl.crew && Granted in cl.mail
    case TakeRefusal => Calling in cl.crew && Refused in cl.mail
    case RetryCheck => RetryWoken in cl.crew
    case Leave => Inside in cl.crew
    case SendRelease => Flushing in cl.crew
    case TakeReleased => Returning in cl.crew && Released in cl.mail
    case TakeRevoke => Revoke in cl.mail
    case TakeRetry => Retry in cl.mail
    case Spurious => Asleep in cl.crew
    case SpuriousRetry => AwaitRetry in cl.crew
  }

  /** One more, and one fewer, of something. */
  function Plus<T(==)>(m: multiset<T>, x: T): multiset<T> {
    m[x := m[x] + 1]
  }

  function Minus<T(==)>(m: multiset<T>, x: T): multiset<T>
    requires x in m
  {
    m[x := m[x] - 1]
  }

  /** A thread ends an acquire section: it is inside, sleeps, or calls the server. */
  function AcquireExit(record: Cl.Record, exit: Cl.Exit, crew: multiset<Place>, mail: multiset<Kind>): Client {
    match exit
    case Return => Client(record, Plus(crew, Inside), mail)
    case WaitTurn => Client(record, Plus(crew, Asleep), mail)
    case WaitRetry => Client(record, Plus(crew, AwaitRetry), mail)
    case CallAcquire => Client(record, Plus(crew, Calling), Plus(mail, Acquire))
    case FlushAndRelease => Client(record, Plus(crew, Flushing), mail)
  }

  /** A thread ends a release or revoke section: it is done, or gives the lock back. */
  function ReleaseExit(exit: Cl.Exit, crew: multiset<Place>): multiset<Place> {
    if exit == Cl.FlushAndRelease then Plus(crew, Flushing) else crew
  }

  /** A signal wakes one of the threads that sleep at `from`, if there is one. */
  function Signal(crew: multiset<Place>, from: Place, to: Place): multiset<Place> {
    if from in crew then Plus(Minus(crew, from), to) else crew
  }

  function Acquiring(cl: Client, crew: multiset<Place>): Client {
    var (r, exit) := Cl.AcquireSection(cl.record);
    AcquireExit(r, exit, crew, cl.mail)
  }

  function Replied(cl: Client, reply: Reply, k: Kind): Client
    requires Calling in cl.crew && k in cl.mail
  {
    var (r, exit) := Cl.ReplySection(cl.record, reply);
    AcquireExit(r, exit, Minus(cl.crew, Calling), Minus(cl.mail, k))
  }

  function RetryChecked(cl: Client): Client
    requires RetryWoken in cl.crew
  {
    var (r, exit) := Cl.RetrySection(cl.record);
    AcquireExit(r, exit, Minus(cl.crew, RetryWoken), cl.mail)
  }

  function Left(cl: Client): Client
    requires Inside in cl.crew
  {
    var (r, exit, signal) := Cl.ReleaseSection(cl.record);
    var crew := ReleaseExit(exit, Minus(cl.crew, Inside));
    Client(r, if signal then Signal(crew, Asleep, Woken) else crew, cl.mail)
  }

  function Returned(cl: Client): Client
    requires Returning in cl.crew && Released in cl.mail
  {
    Client(Cl.ReleasedSection(cl.record), Signal(Minus(cl.crew, Returning), Asleep, Woken), Minus(cl.mail, Released))
  }

  function RevokeTaken(cl: Client): Client
    requires Revoke in cl.mail
  {
    var (r, exit) := Cl.RevokeSection(cl.record);
    Client(r, ReleaseExit(exit, cl.crew), Minus(cl.mail, Revoke))
  }

  function RetryTaken(cl: Client): Client
    requires Retry in cl.mail
  {
    Client(Cl.RetryCallSection(cl.record), Signal(cl.crew, AwaitRetry, RetryWoken), Minus(cl.mail, Retry))
  }

  function Act(cl: Client, a: Action): Client
    requires CanAct(cl, a)
  {
    match a
    case Enter => Acquiring(cl, cl.crew)
    case Recheck => Acquiring(cl, Minus(cl.crew, Woken))
    case TakeGrant => Replied(cl, OK, Granted)
    case TakeRefusal => Replied(cl, RETRY, Refused)
    case RetryCheck => RetryChecked(cl)
    case Leave => Left(cl)
    case SendRelease => Client(cl.record, Plus(Minus(cl.crew, Flushing), Returning), Plus(cl.mail, Release))
    case TakeReleased => Returned(cl)
    case TakeRevoke => RevokeTaken(cl)
    case TakeRetry => RetryTaken(cl)
    case Spurious => Client(cl.record, Signal(cl.crew, Asleep, Woken), cl.mail)
    case SpuriousRetry => Client(cl.record, Signal(cl.crew, AwaitRetry, RetryWoken), cl.mail)
  }

  datatype Step =
    | AtClient(c: ClientId, a: Action)
    | ServeAcquire(c: ClientId)
    | ServeRelease(c: ClientId)

  ghost predicate Enabled(s: System, step: Step) {
    && step.c != NoClient
    && match step
       case AtClient(c, a) => CanAct(ClientOf(s, c), a)
       case ServeAcquire(c) => Srv.WellFormed(s.server) && Acquire in ClientOf(s, c).mail
       case ServeRelease(c) => Srv.WellFormed(s.server) && Release in ClientOf(s, c).mail
  }

  function With(s: System, c: ClientId, cl: Client): System {
    s.(clients := s.clients[c := cl])
  }

  function Told(cl: Client, k: Kind): Client {
    cl.(mail := Plus(cl.mail, k))
  }

  function Answered(cl: Client, reply: Reply): Client
    requires Acquire in cl.mail
  {
    cl.(mail := Plus(Minus(cl.mail, Acquire), if reply == OK then Granted else Refused))
  }

  function GivenBack(cl: Client): Client
    requires Release in cl.mail
  {
    cl.(mail := Plus(Minus(cl.mail, Release), Released))
  }

  /** The server answers c's acquire call.  The reply and the revoke call leave in one
      step: the reply may overtake the call here, though the server makes the call
      before it answers. */
  function ServedAcquire(s: System, c: ClientId): System
    requires Srv.WellFormed(s.server) && Acquire in ClientOf(s, c).mail
  {
    var r := Srv.AcquireStep(s.server, c);
    var s1 := With(s, c, Answered(ClientOf(s, c), r.reply)).(server := r.entry);
    if r.revoke then With(s1, r.entry.holder, Told(ClientOf(s1, r.entry.holder), Revoke)) else s1
  }

  function ServedRelease(s: System, c: ClientId): System
    requires Srv.WellFormed(s.server) && Release in ClientOf(s, c).mail
  {
    var r := Srv.ReleaseStep(s.server, c);
    var s1 := With(s, c, GivenBack(ClientOf(s, c))).(server := r.entry);
    if r.retry then With(s1, r.entry.queue[0], Told(ClientOf(s1, r.entry.queue[0]), Retry)) else s1
  }

  ghost function Apply(s: System, step: Step): System
    requires Enabled(s, step)
  {
    match step
    case AtClient(c, a) => With(s, c, Act(ClientOf(s, c), a))
    case ServeAcquire(c) => ServedAcquire(s, c)
    case ServeRelease(c) => ServedRelease(s, c)
  }

  // ----- the invariant ----------------------------------------------------------

  /** What the server thinks of a client.  `turn` says that nobody holds the lock and
      the client is next; `contended` that somebody waits. */
  datatype View = View(holds: bool, queued: bool, turn: bool, contended: bool)

  function ViewOf(e: Srv.Entry, c: ClientId): View {
    View(e.holder == c, c in e.queue, e.holder == NoClient && |e.queue| > 0 && e.queue[0] == c,
         e.status == Srv.WAITING)
  }

  function Num(b: bool): nat {
    if b then 1 else 0
  }

  /** Revocations on their way to the client or recorded there. */
  function Revokes(cl: Client): nat {
    cl.mail[Revoke] + Num(cl.record.revoke)
  }

  function Retries(cl: Client): nat {
    cl.mail[Retry] + Num(cl.record.retry)
  }

  predicate Outsider(cl: Client, v: View) {
    !v.holds && !v.queued && Revokes(cl) == 0 && Retries(cl) == 0
  }

  /** A new request, or the one that follows a retry. */
  predicate MayAsk(v: View) {
    !v.holds && (v.queued ==> v.turn)
  }

  predicate Asking(cl: Client, v: View) {
    MayAsk(v) && Revokes(cl) == 0 && Retries(cl) == 0
  }

  predicate Queued(cl: Client, v: View) {
    !v.holds && v.queued && Revokes(cl) == 0 && Retries(cl) == Num(v.turn)
  }

  predicate Holder(cl: Client, v: View) {
    v.holds && !v.queued && Retries(cl) == 0 && Revokes(cl) == Num(v.contended)
  }

  /** The revocation has been acted upon; the release call is yet to be served. */
  predicate Revoked(cl: Client, v: View) {
    v.holds && v.contended && !v.queued && Retries(cl) == 0 && Revokes(cl) == 0
  }

  /** The life of a client, as far as this lock is concerned. */
  datatype Stage =
    | Outside    // does not have the lock and has not asked
    | Cached     // has the lock, nobody inside
    | Asked      // acquire call in flight
    | Given      // its reply OK in flight
    | Turned     // its reply RETRY in flight
    | Sleeping   // a thread waits for the retry call
    | Retrying   // that thread is awake
    | Working    // a thread inside
    | Finishing  // a thread inside, the lock wanted back
    | Writing    // giving the lock back, before the release call
    | Sending    // release call in flight
    | Back       // its reply in flight

  /** The one place where an active thread can be, the others being asleep or woken. */
  function PlaceOf(st: Stage): Option<Place> {
    match st
    case Outside => None
    case Cached => None
    case Asked => Some(Calling)
    case Given => Some(Calling)
    case Turned => Some(Calling)
    case Sleeping => Some(AwaitRetry)
    case Retrying => Some(RetryWoken)
    case Working => Some(Inside)
    case Finishing => Some(Inside)
    case Writing => Some(Flushing)
    case Sending => Some(Returning)
    case Back => Some(Returning)
  }

  function CallOf(st: Stage): Option<Kind> {
    match st
    case Asked => Some(Acquire)
    case Given => Some(Granted)
    case Turned => Some(Refused)
    case Sending => Some(Release)
    case Back => Some(Released)
    case _ => None
  }

  predicate StatusOk(status: Cl.Status, st: Stage) {
    match status
    case NONE => st == Outside
    case FREE => st == Cached
    case ACQUIRING => st == Asked || st == Given || st == Turned || st == Sleeping || st == Retrying
    case LOCKED => st == Working || st == Writing || st == Sending || st == Back
    case RELEASING => st == Finishing || st == Writing || st == Sending || st == Back
  }

  predicate Agrees(cl: Client, v: View, st: Stage) {
    match st
    case Outside => Outsider(cl, v)
    case Cached => Holder(cl, v) && !cl.record.revoke
    case Asked => Asking(cl, v)
    case Given => Holder(cl, v)
    case Turned => Queued(cl, v)
    case Sleeping => Queued(cl, v) && !cl.record.retry
    case Retrying => Queued(cl, v)
    case Working => Holder(cl, v)
    case Finishing => Revoked(cl, v)
    case Writing => Revoked(cl, v)
    case Sending => Revoked(cl, v)
    case Back => Outsider(cl, v)
  }

  ghost predicate CrewAt(crew: multiset<Place>, st: Stage) {
    forall p :: p != Asleep && p != Woken ==> crew[p] == Num(PlaceOf(st) == Some(p))
  }

  ghost predicate MailAt(mail: multiset<Kind>, st: Stage) {
    forall k :: k != Revoke && k != Retry ==> mail[k] == Num(CallOf(st) == Some(k))
  }

  /** Everything about a client follows its stage: its one active thread, the one call
      it can have in flight, its status, and how the server sees it. */
  ghost predicate FitsAt(cl: Client, v: View, st: Stage) {
    CrewAt(cl.crew, st) && MailAt(cl.mail, st) && StatusOk(cl.record.status, st) && Agrees(cl, v, st)
  }

  /** No lost wake-up: while a thread sleeps on `cond` and the lock could be taken,
      some signalled thread has yet to look. */
  predicate NoLostWakeup(cl: Client) {
    (cl.record.status == Cl.NONE || cl.record.status == Cl.FREE) && Asleep in cl.crew ==> Woken in cl.crew
  }

  ghost predicate ClientOk(s: System, c: ClientId) {
    && (exists st :: FitsAt(ClientOf(s, c), ViewOf(s.server, c), st))
    && NoLostWakeup(ClientOf(s, c))
  }

  ghost predicate ServerOk(e: Srv.Entry) {
    && Srv.WellFormed(e)
    && NoClient !in e.queue
    && (e.status == Srv.FREE ==> e.holder == NoClient)
    && (e.status == Srv.LOCKED ==> e.holder != NoClient)
  }

  ghost predicate Inv(s: System) {
    && ServerOk(s.server)
    && NoClient !in s.clients
    && forall c :: c != NoClient ==> ClientOk(s, c)
  }

  lemma InitialInv()
    ensures Inv(INITIAL)
  {
    forall c | c != NoClient ensures ClientOk(INITIAL, c) {
      assert FitsAt(ClientOf(INITIAL, c), ViewOf(INITIAL.server, c), Outside);
    }
  }

  /** The stages from which an action can be taken, and where it leads. */
  predicate Leads(st: Stage, r: Cl.Record, a: Action, st': Stage) {
    match a
    case Enter =>
      || (r.status == Cl.NONE && !r.retry && st == Outside && st' == Asked)
      || (r.status == Cl.FREE && st == Cached && st' == Working)
      || (r.status != Cl.NONE && r.status != Cl.FREE && st' == st)
    case Recheck =>
      || (r.status == Cl.NONE && !r.retry && st == Outside && st' == Asked)
      || (r.status == Cl.FREE && st == Cached && st' == Working)
      || (r.status != Cl.NONE && r.status != Cl.FREE && st' == st)
    case TakeGrant => st == Given && st' == Working
    case TakeRefusal => st == Turned && st' == if r.retry then Asked else Sleeping
    case RetryCheck => st == Retrying && st' == if r.retry then Asked else Sleeping
    case Leave =>
      || (st == Working && r.status == Cl.LOCKED && st' == if r.revoke then Writing else Cached)
      || (st == Finishing && r.status == Cl.RELEASING && !r.revoke && st' == Writing)
    case SendRelease => st == Writing && st' == Sending
    case TakeReleased => st == Back && st' == Outside
    case TakeRevoke =>
      || (r.status == Cl.FREE && st == Cached && st' == Writing)
      || (r.status == Cl.LOCKED && st == Working && st' == Finishing)
      || (r.status == Cl.ACQUIRING && st == Given && st' == st)
    case TakeRetry =>
      (st == Turned || st == Sleeping || st == Retrying) && st' == if st == Sleeping then Retrying else st
    case Spurious => st' == st
    case SpuriousRetry => st == Sleeping && st' == Retrying
  }

  lemma ActLeads(cl: Client, v: View, st: Stage, a: Action) returns (st': Stage)
    requires FitsAt(cl, v, st) && CanAct(cl, a)
    ensures Leads(st, cl.record, a, st')
  {
    match a {
      case Enter => st' := if st == Outside then Asked else if st == Cached then Working else st;
      case Recheck => st' := if st == Outside then Asked else if st == Cached then Working else st;
      case TakeGrant => st' := Working;
      case TakeRefusal => st' := if cl.record.retry then Asked else Sleeping;
      case RetryCheck => st' := if cl.record.retry then Asked else Sleeping;
      case Leave => st' := if st == Working && !cl.record.revoke then Cached else Writing;
      case SendRelease => st' := Sending;
      case TakeReleased => st' := Outside;
      case TakeRevoke => st' := if st == Cached then Writing else if st == Working then Finishing else st;
      case TakeRetry => st' := if st == Sleeping then Retrying else st;
      case Spurious => st' := st;
      case SpuriousRetry => st' := Retrying;
    }
  }

  lemma CrewGone(crew: multiset<Place>, st: Stage, p: Place)
    requires CrewAt(crew, st) && PlaceOf(st) == Some(p) && p in crew
    ensures CrewAt(Minus(crew, p), Outside)
  {
  }

  lemma CrewCome(crew: multiset<Place>, st: Stage, p: Place)
    requires CrewAt(crew, Outside) && (p == Asleep || p == Woken || PlaceOf(st) == Some(p))
    requires p == Asleep || p == Woken ==> PlaceOf(st) == None
    ensures CrewAt(Plus(crew, p), st)
  {
  }

  lemma CrewSame(crew: multiset<Place>, st: Stage, st': Stage)
    requires CrewAt(crew, st) && PlaceOf(st) == PlaceOf(st')
    ensures CrewAt(crew, st') && CrewAt(Plus(crew, Asleep), st') && CrewAt(Signal(crew, Asleep, Woken), st')
    ensures Woken in crew ==> CrewAt(Minus(crew, Woken), st')
  {
  }

  lemma CrewRetry(crew: multiset<Place>, st: Stage, st': Stage)
    requires CrewAt(crew, st) && st' == if st == Sleeping then Retrying else st
    ensures CrewAt(Signal(crew, AwaitRetry, RetryWoken), st')
  {
  }

  lemma ActCrew(cl: Client, st: Stage, a: Action, st': Stage)
    requires CrewAt(cl.crew, st) && CanAct(cl, a) && Leads(st, cl.record, a, st')
    ensures CrewAt(Act(cl, a).crew, st')
  {
    match a {
      case Enter => EnterCrew(cl, cl.crew, st, Enter, st');
      case Recheck =>
        CrewSame(cl.crew, st, st);
        EnterCrew(cl, Minus(cl.crew, Woken), st, Recheck, st');
      case TakeGrant => ReplyCrew(cl.crew, st, Calling, Inside, st');
      case TakeRefusal => RetryPathCrew(cl, st, a, st');
      case RetryCheck => RetryPathCrew(cl, st, a, st');
      case SendRelease => ReplyCrew(cl.crew, st, Flushing, Returning, st');
      case Leave => LeftCrew(cl, st, st');
      case TakeReleased => LeaveCrew(cl.crew, st, st');
      case TakeRevoke => RevokedCrew(cl, st, st');
      case TakeRetry => CrewRetry(cl.crew, st, st');
      case Spurious => CrewSame(cl.crew, st, st');
      case SpuriousRetry => CrewRetry(cl.crew, st, st');
    }
  }

  lemma EnterCrew(cl: Client, crew: multiset<Place>, st: Stage, a: Action, st': Stage)
    requires CrewAt(crew, st) && Leads(st, cl.record, a, st') && (a == Enter || a == Recheck)
    ensures CrewAt(Acquiring(cl, crew).crew, st')
  {
    var exit := Cl.AcquireSection(cl.record).1;
    if exit == Cl.WaitTurn {
      CrewSame(crew, st, st');
    } else {
      CrewSame(crew, st, Outside);
      CrewCome(crew, st', if exit == Cl.Return then Inside else Calling);
    }
  }

  /** The active thread moves on. */
  lemma ReplyCrew(crew: multiset<Place>, st: Stage, p: Place, q: Place, st': Stage)
    requires CrewAt(crew, st) && p in crew && PlaceOf(st) == Some(p) && PlaceOf(st') == Some(q)
    ensures CrewAt(Plus(Minus(crew, p), q), st')
  {
    CrewGone(crew, st, p);
    CrewCome(Minus(crew, p), st', q);
  }

  lemma RetryPathCrew(cl: Client, st: Stage, a: Action, st': Stage)
    requires CrewAt(cl.crew, st) && CanAct(cl, a) && Leads(st, cl.record, a, st')
             && (a == TakeRefusal || a == RetryCheck)
    ensures CrewAt((if a == TakeRefusal then Replied(cl, RETRY, Refused) else RetryChecked(cl)).crew, st')
  {
    var p := if a == TakeRefusal then Calling else RetryWoken;
    if cl.record.retry {
      ReplyCrew(cl.crew, st, p, Calling, st');
    } else {
      ReplyCrew(cl.crew, st, p, AwaitRetry, st');
    }
  }

  /** The active thread is done, or gives the lock back. */
  lemma LeaveCrew(crew: multiset<Place>, st: Stage, st': Stage)
    requires CrewAt(crew, st) && PlaceOf(st).Some? && PlaceOf(st).value in crew
    ensures var rest := Minus(crew, PlaceOf(st).value);
            && (PlaceOf(st') == None ==> CrewAt(Signal(rest, Asleep, Woken), st'))
            && (PlaceOf(st') == Some(Flushing) ==> CrewAt(Plus(rest, Flushing), st'))
  {
    var rest := Minus(crew, PlaceOf(st).value);
    CrewGone(crew, st, PlaceOf(st).value);
    if PlaceOf(st') == None {
      CrewSame(rest, Outside, st');
    } else if PlaceOf(st') == Some(Flushing) {
      CrewCome(rest, st', Flushing);
    }
  }

  lemma LeftCrew(cl: Client, st: Stage, st': Stage)
    requires CrewAt(cl.crew, st) && Inside in cl.crew && Leads(st, cl.record, Leave, st')
    ensures CrewAt(Left(cl).crew, st')
  {
    LeaveCrew(cl.crew, st, st');
    if st' == Cached {
      assert Left(cl).crew == Signal(Minus(cl.crew, Inside), Asleep, Woken);
    } else {
      assert Left(cl).crew == Plus(Minus(cl.crew, Inside), Flushing);
    }
  }

  lemma RevokedCrew(cl: Client, st: Stage, st': Stage)
    requires CrewAt(cl.crew, st) && Revoke in cl.mail && Leads(st, cl.record, TakeRevoke, st')
    ensures CrewAt(RevokeTaken(cl).crew, st')
  {
    RevokeCrew(cl.crew, st, st');
    if st' == Writing {
      assert RevokeTaken(cl).crew == Plus(cl.crew, Flushing);
    } else {
      assert RevokeTaken(cl).crew == cl.crew;
    }
  }

  lemma RevokeCrew(crew: multiset<Place>, st: Stage, st': Stage)
    requires CrewAt(crew, st)
    ensures st == Cached && st' == Writing ==> CrewAt(Plus(crew, Flushing), st')
    ensures PlaceOf(st') == PlaceOf(st) ==> CrewAt(crew, st')
  {
    if st == Cached && st' == Writing {
      CrewSame(crew, Cached, Outside);
      CrewCome(crew, Writing, Flushing);
    }
  }

  /** Asking, or asking again. */
  lemma AskMail(cl: Client, st: Stage, a: Action, st': Stage)
    requires MailAt(cl.mail, st) && CanAct(cl, a) && Leads(st, cl.record, a, st')
    requires a == Enter || a == Recheck || a == RetryCheck
    ensures MailAt(Act(cl, a).mail, st')
  {
    assert MailAt(cl.mail, st') || (CallOf(st) == None && st' == Asked);
  }

  /** A reply, or a call of the server, is taken in. */
  lemma TakeMail(cl: Client, st: Stage, a: Action, st': Stage)
    requires MailAt(cl.mail, st) && CanAct(cl, a) && Leads(st, cl.record, a, st')
    requires a == TakeGrant || a == TakeReleased || a == TakeRevoke || a == TakeRetry
    ensures MailAt(Act(cl, a).mail, st')
  {
  }

  lemma ActMail(cl: Client, st: Stage, a: Action, st': Stage)
    requires MailAt(cl.mail, st) && CanAct(cl, a) && Leads(st, cl.record, a, st')
    ensures MailAt(Act(cl, a).mail, st')
  {
    match a {
      case Enter => AskMail(cl, st, a, st');
      case Recheck => AskMail(cl, st, a, st');
      case RetryCheck => AskMail(cl, st, a, st');
      case TakeGrant => TakeMail(cl, st, a, st');
      case TakeReleased => TakeMail(cl, st, a, st');
      case TakeRevoke => TakeMail(cl, st, a, st');
      case TakeRetry => TakeMail(cl, st, a, st');
      case _ =>
    }
  }

  lemma ActStatus(cl: Client, st: Stage, a: Action, st': Stage)
    requires StatusOk(cl.record.status, st) && CanAct(cl, a) && Leads(st, cl.record, a, st')
    ensures StatusOk(Act(cl, a).record.status, st')
  {
  }

  predicate Counts(a: Action) {
    a == TakeRefusal || a == RetryCheck || a == Leave || a == TakeRevoke || a == TakeRetry
  }

  lemma CountsAgree(cl: Client, v: View, st: Stage, a: Action, st': Stage)
    requires StatusOk(cl.record.status, st) && Agrees(cl, v, st) && CanAct(cl, a) && Leads(st, cl.record, a, st')
    requires Counts(a)
    ensures Agrees(Act(cl, a), v, st')
  {
    match a {
      case Leave =>
      case TakeRevoke =>
      case _ =>
    }
  }

  lemma OthersAgree(cl: Client, v: View, st: Stage, a: Action, st': Stage)
    requires StatusOk(cl.record.status, st) && Agrees(cl, v, st) && CanAct(cl, a) && Leads(st, cl.record, a, st')
    requires !Counts(a)
    ensures Agrees(Act(cl, a), v, st')
  {
  }

  lemma ActAgrees(cl: Client, v: View, st: Stage, a: Action, st': Stage)
    requires StatusOk(cl.record.status, st) && Agrees(cl, v, st) && CanAct(cl, a) && Leads(st, cl.record, a, st')
    ensures Agrees(Act(cl, a), v, st')
  {
    if Counts(a) {
      CountsAgree(cl, v, st, a, st');
    } else {
      OthersAgree(cl, v, st, a, st');
    }
  }

  lemma ActFits(cl: Client, v: View, st: Stage, a: Action) returns (st': Stage)
    requires FitsAt(cl, v, st) && CanAct(cl, a)
    ensures Leads(st, cl.record, a, st') && FitsAt(Act(cl, a), v, st')
  {
    st' := ActLeads(cl, v, st, a);
    ActCrew(cl, st, a, st');
    ActMail(cl, st, a, st');
    ActStatus(cl, st, a, st');
    ActAgrees(cl, v, st, a, st');
  }

  lemma ActWakes(cl: Client, a: Action)
    requires NoLostWakeup(cl) && CanAct(cl, a)
    ensures NoLostWakeup(Act(cl, a))
  {
    match a {
      case Enter =>
      case Recheck =>
      case Leave =>
      case TakeReleased =>
      case TakeRevoke =>
      case TakeRetry =>
      case Spurious =>
      case SpuriousRetry =>
      case _ =>
    }
  }

  // ----- the server's steps -------------------------------------------------------

  lemma AfterAcquire(s: System, c: ClientId, d: ClientId)
    requires Srv.WellFormed(s.server) && Acquire in ClientOf(s, c).mail
    ensures var r := Srv.AcquireStep(s.server, c);
            var cl := if d == c then Answered(ClientOf(s, c), r.reply) else ClientOf(s, d);
            && ServedAcquire(s, c).server == r.entry
            && ClientOf(ServedAcquire(s, c), d) == if r.revoke && d == r.entry.holder then Told(cl, Revoke) else cl
  {
  }

  lemma AfterRelease(s: System, c: ClientId, d: ClientId)
    requires Srv.WellFormed(s.server) && Release in ClientOf(s, c).mail
    ensures var r := Srv.ReleaseStep(s.server, c);
            var cl := if d == c then GivenBack(ClientOf(s, c)) else ClientOf(s, d);
            && ServedRelease(s, c).server == r.entry
            && ClientOf(ServedRelease(s, c), d) == if r.retry && d == r.entry.queue[0] then Told(cl, Retry) else cl
  {
  }

  /** A client whose mail does not change stays fit as long as the server's view of it
      changes at most in whether others wait for a lock it does not hold. */
  lemma BystanderFits(cl: Client, v: View, st: Stage, v': View)
    requires FitsAt(cl, v, st)
    requires v'.holds == v.holds && v'.queued == v.queued && v'.turn == v.turn
    requires v.holds ==> v'.contended == v.contended
    ensures FitsAt(cl, v', st)
  {
  }

  /** The holder is told once, when somebody starts to wait. */
  lemma RevokeFits(cl: Client, v: View, st: Stage, v': View)
    requires FitsAt(cl, v, st) && v.holds && !v.contended && v' == v.(contended := true)
    ensures FitsAt(Told(cl, Revoke), v', st)
  {
  }

  /** The one client next in line is told once, when the lock has come back. */
  lemma RetryFits(cl: Client, v: View, st: Stage, v': View)
    requires FitsAt(cl, v, st) && !v.holds && v.queued && !v.turn && v' == v.(turn := true)
    ensures FitsAt(Told(cl, Retry), v', st)
  {
  }

  lemma Asker(cl: Client, v: View, st: Stage)
    requires FitsAt(cl, v, st) && Acquire in cl.mail
    ensures st == Asked && MayAsk(v)
  {
  }

  lemma AnswerFits(cl: Client, v: View, reply: Reply, v': View)
    requires FitsAt(cl, v, Asked) && Acquire in cl.mail
    requires v'.holds == (reply == OK) && v'.queued == (reply == RETRY) && !v'.turn
    requires reply == OK ==> !v'.contended
    ensures FitsAt(Answered(cl, reply), v', if reply == OK then Given else Turned)
  {
  }

  lemma Giver(cl: Client, v: View, st: Stage)
    requires FitsAt(cl, v, st) && Release in cl.mail
    ensures st == Sending && v.holds && v.contended && !v.queued
  {
  }

  lemma GivenBackFits(cl: Client, v: View, v': View)
    requires FitsAt(cl, v, Sending) && Release in cl.mail && !v'.holds && !v'.queued
    ensures FitsAt(GivenBack(cl), v', Back)
  {
  }

  /** What serving an acquire call does to the server's view of everybody. */
  lemma AcquireViews(e: Srv.Entry, c: ClientId, d: ClientId)
    requires ServerOk(e) && c != NoClient && d != NoClient
    requires MayAsk(ViewOf(e, c))
    ensures var r := Srv.AcquireStep(e, c);
            var v, v' := ViewOf(e, d), ViewOf(r.entry, d);
            && ServerOk(r.entry)
            && (d == c ==> v'.holds == (r.reply == OK) && v'.queued == (r.reply == RETRY) && !v'.turn
                           && (r.reply == OK ==> v'.contended == r.revoke))
            && (d == c && r.reply == RETRY ==> !v.queued)
            && (d != c ==> v'.holds == v.holds && v'.queued == v.queued && v'.turn == v.turn)
            && (d != c && v.holds ==> if r.revoke then !v.contended && v'.contended else v'.contended == v.contended)
            && (r.revoke ==> r.entry.holder != NoClient)
            && (r.reply == OK ==> e.holder == NoClient)
  {
    if e.status == Srv.WAITING && e.queue[0] == c {
      assert forall x :: x in e.queue <==> x == c || x in e.queue[1..];
    }
  }

  lemma ReleaseViews(e: Srv.Entry, c: ClientId, d: ClientId)
    requires ServerOk(e) && c != NoClient && d != NoClient
    requires e.holder == c && e.status == Srv.WAITING && c !in e.queue
    ensures var r := Srv.ReleaseStep(e, c);
            var v, v' := ViewOf(e, d), ViewOf(r.entry, d);
            && ServerOk(r.entry) && r.retry && r.entry.queue == e.queue
            && e.queue[0] != c && e.queue[0] != NoClient
            && (d == c ==> !v'.holds && !v'.queued)
            && (d != c ==> !v.holds && !v.turn && v' == v.(turn := d == e.queue[0]))
            && (d == e.queue[0] ==> v.queued)
  {
    assert e.queue[0] in e.queue;
  }

  lemma AcquireFits(s: System, c: ClientId, d: ClientId, st: Stage, askerStage: Stage) returns (st': Stage)
    requires ServerOk(s.server) && c != NoClient && d != NoClient && Acquire in ClientOf(s, c).mail
    requires FitsAt(ClientOf(s, c), ViewOf(s.server, c), askerStage)
    requires FitsAt(ClientOf(s, d), ViewOf(s.server, d), st)
    ensures var s' := ServedAcquire(s, c);
            FitsAt(ClientOf(s', d), ViewOf(s'.server, d), st')
  {
    var cl, e, r := ClientOf(s, d), s.server, Srv.AcquireStep(s.server, c);
    var v, v' := ViewOf(e, d), ViewOf(r.entry, d);
    Asker(ClientOf(s, c), ViewOf(e, c), askerStage);
    AcquireViews(e, c, d);
    AfterAcquire(s, c, d);
    if d == c {
      Asker(cl, v, st);
      var calm := v'.(contended := v'.contended && r.reply == RETRY);
      st' := if r.reply == OK then Given else Turned;
      AnswerFits(cl, v, r.reply, calm);
      if r.reply == OK && r.revoke {
        RevokeFits(Answered(cl, r.reply), calm, st', v');
      }
    } else {
      st' := st;
      if r.revoke && d == r.entry.holder {
        RevokeFits(cl, v, st, v');
      } else {
        BystanderFits(cl, v, st, v');
      }
    }
  }

  lemma ReleaseFits(s: System, c: ClientId, d: ClientId, st: Stage, giverStage: Stage) returns (st': Stage)
    requires ServerOk(s.server) && c != NoClient && d != NoClient && Release in ClientOf(s, c).mail
    requires FitsAt(ClientOf(s, c), ViewOf(s.server, c), giverStage)
    requires FitsAt(ClientOf(s, d), ViewOf(s.server, d), st)
    ensures var s' := ServedRelease(s, c);
            FitsAt(ClientOf(s', d), ViewOf(s'.server, d), st')
  {
    var cl, e, r := ClientOf(s, d), s.server, Srv.ReleaseStep(s.server, c);
    var v, v' := ViewOf(e, d), ViewOf(r.entry, d);
    Giver(ClientOf(s, c), ViewOf(e, c), giverStage);
    ReleaseViews(e, c, d);
    AfterRelease(s, c, d);
    if d == c {
      Giver(cl, v, st);
      GivenBackFits(cl, v, v');
      st' := Back;
    } else {
      st' := st;
      if d == e.queue[0] {
        RetryFits(cl, v, st, v');
      } else {
        BystanderFits(cl, v, st, v');
      }
    }
  }

  // ----- every step keeps the invariant --------------------------------------------

  lemma SomeStage(s: System, c: ClientId) returns (st: Stage)
    requires Inv(s) && c != NoClient
    ensures FitsAt(ClientOf(s, c), ViewOf(s.server, c), st)
  {
    assert ClientOk(s, c);
    st :| FitsAt(ClientOf(s, c), ViewOf(s.server, c), st);
  }

  /** A client is well if some stage fits it. */
  lemma Well(s: System, c: ClientId, cl: Client, v: View, st: Stage)
    requires cl == ClientOf(s, c) && v == ViewOf(s.server, c)
    requires FitsAt(cl, v, st) && NoLostWakeup(cl)
    ensures ClientOk(s, c)
  {
  }

  lemma ActedOk(s: System, c: ClientId, a: Action, d: ClientId)
    requires Inv(s) && c != NoClient && d != NoClient && CanAct(ClientOf(s, c), a)
    ensures ClientOk(With(s, c, Act(ClientOf(s, c), a)), d)
  {
    var cl, v := ClientOf(s, d), ViewOf(s.server, d);
    var st := SomeStage(s, d);
    assert ClientOk(s, d);
    if d == c {
      var cl' := Act(cl, a);
      var st' := ActFits(cl, v, st, a);
      ActWakes(cl, a);
      Well(With(s, c, cl'), c, cl', v, st');
    } else {
      Well(With(s, c, Act(ClientOf(s, c), a)), d, cl, v, st);
    }
  }

  lemma ServedAcquireOk(s: System, c: ClientId, d: ClientId)
    requires Inv(s) && c != NoClient && d != NoClient && Acquire in ClientOf(s, c).mail
    ensures ClientOk(ServedAcquire(s, c), d)
  {
    var asker := SomeStage(s, c);
    var st := SomeStage(s, d);
    assert ClientOk(s, d);
    st := AcquireFits(s, c, d, st, asker);
    AfterAcquire(s, c, d);
    Well(ServedAcquire(s, c), d, ClientOf(ServedAcquire(s, c), d), ViewOf(ServedAcquire(s, c).server, d), st);
  }

  lemma ServedReleaseOk(s: System, c: ClientId, d: ClientId)
    requires Inv(s) && c != NoClient && d != NoClient && Release in ClientOf(s, c).mail
    ensures ClientOk(ServedRelease(s, c), d)
  {
    var giver := SomeStage(s, c);
    var st := SomeStage(s, d);
    assert ClientOk(s, d);
    st := ReleaseFits(s, c, d, st, giver);
    AfterRelease(s, c, d);
    Well(ServedRelease(s, c), d, ClientOf(ServedRelease(s, c), d), ViewOf(ServedRelease(s, c).server, d), st);
  }

  lemma StepServerOk(s: System, step: Step)
    requires Inv(s) && Enabled(s, step)
    ensures ServerOk(Apply(s, step).server) && NoClient !in Apply(s, step).clients
  {
    match step
    case AtClient(c, a) =>
    case ServeAcquire(c) =>
      var st := SomeStage(s, c);
      Asker(ClientOf(s, c), ViewOf(s.server, c), st);
      AcquireViews(s.server, c, c);
    case ServeRelease(c) =>
      var st := SomeStage(s, c);
      Giver(ClientOf(s, c), ViewOf(s.server, c), st);
      ReleaseViews(s.server, c, c);
  }

  lemma StepInv(s: System, step: Step)
    requires Inv(s) && Enabled(s, step)
    ensures Inv(Apply(s, step))
  {
    StepServerOk(s, step);
    forall d | d != NoClient ensures ClientOk(Apply(s, step), d) {
      match step
      case AtClient(c, a) => ActedOk(s, c, a, d);
      case ServeAcquire(c) => ServedAcquireOk(s, c, d);
      case ServeRelease(c) => ServedReleaseOk(s, c, d);
    }
  }
}
