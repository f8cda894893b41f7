// The lock protocol cannot get stuck and cannot run in circles: left alone it comes
// to rest after a bounded number of steps, and at rest everybody who waits, waits
// for a thread that is inside.

module LockProgress {
  import opened LockTypes
  import opened LockSystem
  import opened LockTheorems
  import Srv = LockServer
  import Cl = LockClient

  /** Steps the protocol takes by itself: no new acquire or release by a user, no
      spurious wake-up. */
  predicate Internal(step: Step) {
    step.AtClient? ==>
      step.a != Enter && step.a != Leave && step.a != Spurious && step.a != SpuriousRetry
  }

  ghost predicate AtRest(s: System) {
    forall step: Step :: Internal(step) ==> !Enabled(s, step)
  }

  /** At rest nothing is in flight and nobody is about to move. */
  predicate Still(cl: Client) {
    && Woken !in cl.crew && RetryWoken !in cl.crew && Flushing !in cl.crew
    && Revoke !in cl.mail && Retry !in cl.mail
    && Acquire !in cl.mail && Release !in cl.mail
    && (Calling in cl.crew ==> Granted !in cl.mail && Refused !in cl.mail)
    && (Returning in cl.crew ==> Released !in cl.mail)
  }

  lemma RestIsStill(s: System, c: ClientId)
    requires Inv(s) && AtRest(s) && c != NoClient
    ensures Still(ClientOf(s, c))
  {
    assert !Enabled(s, ServeAcquire(c)) && !Enabled(s, ServeRelease(c));
    assert !Enabled(s, AtClient(c, Recheck)) && !Enabled(s, AtClient(c, RetryCheck));
    assert !Enabled(s, AtClient(c, SendRelease)) && !Enabled(s, AtClient(c, TakeReleased));
    assert !Enabled(s, AtClient(c, TakeGrant)) && !Enabled(s, AtClient(c, TakeRefusal));
    assert !Enabled(s, AtClient(c, TakeRevoke)) && !Enabled(s, AtClient(c, TakeRetry));
  }

  /** What a client that holds the lock, or is next for it, must be doing at rest. */
  lemma StillStage(cl: Client, v: View, st: Stage)
    requires FitsAt(cl, v, st) && Still(cl) && NoLostWakeup(cl)
    ensures v.holds ==> st == Working || st == Finishing || (st == Cached && !v.contended)
    ensures v.queued ==> st == Sleeping && !v.turn
    ensures st == Outside || st == Cached ==> cl.crew == multiset{}
    ensures st == Working || st == Finishing ==> Inside in cl.crew
    ensures st == Outside || st == Cached || st == Working || st == Finishing || st == Sleeping
    ensures st == Sleeping ==> v.queued
  {
    if st == Outside || st == Cached {
      assert forall p :: cl.crew[p] == 0;
    }
  }

  lemma Resting(s: System, c: ClientId)
    requires Inv(s) && AtRest(s) && c != NoClient
    ensures var cl, v := ClientOf(s, c), ViewOf(s.server, c);
            FitsAt(cl, v, StageOf(cl)) && Still(cl) && NoLostWakeup(cl)
  {
    assert ClientOk(s, c);
    AtStage(s, c);
    RestIsStill(s, c);
  }

  /** No stuck state: when the protocol has come to rest, either no thread of c is in
      acquire or release, or the holder has a thread inside the lock. */
  lemma RestMeansBusy(s: System, c: ClientId)
    requires Inv(s) && AtRest(s) && c != NoClient && ClientOf(s, c).crew != multiset{}
    ensures s.server.holder != NoClient && Inside in ClientOf(s, s.server.holder).crew
  {
    Resting(s, c);
    var cl, e := ClientOf(s, c), s.server;
    StillStage(cl, ViewOf(e, c), StageOf(cl));
    if StageOf(cl) == Sleeping {
      if e.holder == NoClient {
        var f := e.queue[0];
        assert f in e.queue;
        Resting(s, f);
        StillStage(ClientOf(s, f), ViewOf(e, f), StageOf(ClientOf(s, f)));
      } else {
        Resting(s, e.holder);
        StillStage(ClientOf(s, e.holder), ViewOf(e, e.holder), StageOf(ClientOf(s, e.holder)));
      }
    }
  }

  // ----- the protocol comes to rest ---------------------------------------------------

  /** How far a client is from a place where only a user can move it on. */
  function Rank(st: Stage, queued: bool): nat {
    match st
    case Cached => 12
    case Writing => 11
    case Sending => 10
    case Back => 9
    case Outside => 8
    case Asked => if queued then 3 else 7
    case Turned => 5
    case Sleeping => 4
    case Retrying => 4
    case Given => 2
    case Working => 1
    case Finishing => 0
  }

  /** Calls to the client that it has not seen, and threads about to look around. */
  function Unseen(cl: Client): nat {
    cl.mail[Revoke] + cl.mail[Retry]
  }

  function Awake(cl: Client): nat {
    cl.crew[Woken] + cl.crew[RetryWoken]
  }

  function Weight(cl: Client, queued: bool): nat {
    4 * Rank(StageOf(cl), queued) + 2 * Unseen(cl) + Awake(cl)
  }

  predicate Advances(a: Action) {
    a == TakeGrant || a == TakeRefusal || a == SendRelease || a == TakeReleased
  }

  lemma RankFalls(st: Stage, r: Cl.Record, a: Action, st': Stage, queued: bool)
    requires Leads(st, r, a, st') && Internal(AtClient(NoClient, a))
    requires st == Turned || st == Retrying ==> queued
    ensures Rank(st', queued) <= Rank(st, queued)
    ensures Advances(a) ==> Rank(st', queued) < Rank(st, queued)
  {
  }

  lemma UnseenFalls(cl: Client, a: Action)
    requires CanAct(cl, a) && Internal(AtClient(NoClient, a))
    ensures Unseen(Act(cl, a)) == Unseen(cl) - Num(a == TakeRevoke || a == TakeRetry)
  {
  }

  lemma SignalWakes(crew: multiset<Place>)
    ensures var c := Signal(crew, Asleep, Woken);
            c[Woken] <= crew[Woken] + 1 && c[RetryWoken] == crew[RetryWoken]
    ensures var c := Signal(crew, AwaitRetry, RetryWoken);
            c[RetryWoken] <= crew[RetryWoken] + 1 && c[Woken] == crew[Woken]
  {
  }

  lemma AcquireExitAwake(r: Cl.Record, exit: Cl.Exit, crew: multiset<Place>, mail: multiset<Kind>)
    ensures Awake(AcquireExit(r, exit, crew, mail)) == crew[Woken] + crew[RetryWoken]
  {
  }

  lemma AwakeFalls(cl: Client, a: Action)
    requires CanAct(cl, a) && Internal(AtClient(NoClient, a))
    ensures Awake(Act(cl, a)) <= Awake(cl) + match a
            case Recheck => -1
            case RetryCheck => -1
            case TakeRetry => 1
            case TakeReleased => 1
            case _ => 0
  {
    match a {
      case Recheck =>
        var (r, exit) := Cl.AcquireSection(cl.record);
        AcquireExitAwake(r, exit, Minus(cl.crew, Woken), cl.mail);
      case TakeGrant =>
        var (r, exit) := Cl.ReplySection(cl.record, OK);
        AcquireExitAwake(r, exit, Minus(cl.crew, Calling), Minus(cl.mail, Granted));
      case TakeRefusal =>
        var (r, exit) := Cl.ReplySection(cl.record, RETRY);
        AcquireExitAwake(r, exit, Minus(cl.crew, Calling), Minus(cl.mail, Refused));
      case RetryCheck =>
        var (r, exit) := Cl.RetrySection(cl.record);
        AcquireExitAwake(r, exit, Minus(cl.crew, RetryWoken), cl.mail);
      case TakeReleased => SignalWakes(Minus(cl.crew, Returning));
      case TakeRetry => SignalWakes(cl.crew);
      case _ =>
    }
  }

  lemma ActLightens(cl: Client, v: View, st: Stage, a: Action)
    requires FitsAt(cl, v, st) && CanAct(cl, a) && Internal(AtClient(NoClient, a))
    ensures Weight(Act(cl, a), v.queued) < Weight(cl, v.queued)
  {
    var st' := ActFits(cl, v, st, a);
    StageIs(cl, v, st);
    StageIs(Act(cl, a), v, st');
    RankFalls(st, cl.record, a, st', v.queued);
    UnseenFalls(cl, a);
    AwakeFalls(cl, a);
  }

  function WeightAt(s: System, c: ClientId): nat {
    Weight(ClientOf(s, c), c in s.server.queue)
  }

  ghost function Total(s: System, cs: set<ClientId>): nat {
    if cs == {} then 0
    else
      var c :| c in cs;
      WeightAt(s, c) + Total(s, cs - {c})
  }

  lemma {:induction false} TotalSplit(s: System, cs: set<ClientId>, c: ClientId)
    requires c in cs
    ensures Total(s, cs) == WeightAt(s, c) + Total(s, cs - {c})
  {
    var d :| d in cs && Total(s, cs) == WeightAt(s, d) + Total(s, cs - {d});
    if d != c {
      TotalSplit(s, cs - {d}, c);
      TotalSplit(s, cs - {c}, d);
      assert cs - {d} - {c} == cs - {c} - {d};
    }
  }

  lemma {:induction false} TotalSame(s: System, s': System, cs: set<ClientId>)
    requires forall x :: x in cs ==> WeightAt(s', x) == WeightAt(s, x)
    ensures Total(s', cs) == Total(s, cs)
  {
    if cs != {} {
      var c :| c in cs;
      TotalSplit(s, cs, c);
      TotalSplit(s', cs, c);
      TotalSame(s, s', cs - {c});
    }
  }

  /** Only the weights of c and d change, and together they fall. */
  lemma TotalFalls(s: System, s': System, cs: set<ClientId>, c: ClientId, d: ClientId)
    requires c in cs && d in cs
    requires forall x :: x in cs && x != c && x != d ==> WeightAt(s', x) == WeightAt(s, x)
    requires if c == d then WeightAt(s', c) < WeightAt(s, c)
             else WeightAt(s', c) + WeightAt(s', d) < WeightAt(s, c) + WeightAt(s, d)
    ensures Total(s', cs) < Total(s, cs)
  {
    TotalSplit(s, cs, c);
    TotalSplit(s', cs, c);
    if c == d {
      TotalSame(s, s', cs - {c});
    } else {
      TotalSplit(s, cs - {c}, d);
      TotalSplit(s', cs - {c}, d);
      TotalSame(s, s', cs - {c} - {d});
    }
  }

  /** A client somebody has to do with is in the table. */
  lemma Known(s: System, c: ClientId)
    requires Inv(s) && c != NoClient
    requires var cl, v := ClientOf(s, c), ViewOf(s.server, c);
             cl.crew != multiset{} || cl.mail != multiset{} || v.holds || v.queued
    ensures c in s.clients
  {
    var st := SomeStage(s, c);
  }

  /** A step that changes the weights of c and d, both known, so that they fall. */
  lemma Lightens(s: System, s': System, c: ClientId, d: ClientId)
    requires c in s.clients && d in s.clients
    requires forall x :: x in s.clients && x != c && x != d ==> WeightAt(s', x) == WeightAt(s, x)
    requires if c == d then WeightAt(s', c) < WeightAt(s, c)
             else WeightAt(s', c) + WeightAt(s', d) < WeightAt(s, c) + WeightAt(s, d)
    ensures Total(s', s.clients.Keys) < Total(s, s.clients.Keys)
  {
    forall x | x in s.clients.Keys && x != c && x != d ensures WeightAt(s', x) == WeightAt(s, x) {
    }
    TotalFalls(s, s', s.clients.Keys, c, d);
  }

  lemma Engaged(cl: Client, a: Action)
    requires CanAct(cl, a) && a != Enter
    ensures cl.crew != multiset{} || cl.mail != multiset{}
  {
  }

  lemma PutTotal(s: System, c: ClientId, cl': Client)
    requires c in s.clients && Weight(cl', c in s.server.queue) < WeightAt(s, c)
    ensures var s' := With(s, c, cl');
            s'.clients.Keys == s.clients.Keys && Total(s', s.clients.Keys) < Total(s, s.clients.Keys)
  {
    Lightens(s, With(s, c, cl'), c, c);
  }

  lemma ActTotal(s: System, c: ClientId, a: Action)
    requires Inv(s) && c != NoClient && CanAct(ClientOf(s, c), a) && Internal(AtClient(c, a))
    ensures var s' := With(s, c, Act(ClientOf(s, c), a));
            s'.clients.Keys == s.clients.Keys && Total(s', s.clients.Keys) < Total(s, s.clients.Keys)
  {
    var cl := ClientOf(s, c);
    Engaged(cl, a);
    Known(s, c);
    var st := SomeStage(s, c);
    ActLightens(cl, ViewOf(s.server, c), st, a);
    PutTotal(s, c, Act(cl, a));
  }

  /** A call to a client weighs two. */
  lemma CallWeighs(cl: Client, k: Kind, queued: bool)
    requires k == Revoke || k == Retry
    ensures Weight(Told(cl, k), queued) == Weight(cl, queued) + 2
  {
  }

  /** An answered request weighs at least four less. */
  lemma AnswerLightens(cl: Client, v: View, st: Stage, reply: Reply, v': View)
    requires FitsAt(cl, v, st) && Acquire in cl.mail
    requires v'.holds == (reply == OK) && v'.queued == (reply == RETRY) && !v'.turn
    requires reply == RETRY ==> !v.queued
    ensures Weight(Answered(cl, reply), v'.queued) + 4 <= Weight(cl, v.queued)
  {
    Asker(cl, v, st);
    var calm := v'.(contended := false);
    AnswerFits(cl, v, reply, calm);
    StageIs(cl, v, Asked);
    StageIs(Answered(cl, reply), calm, if reply == OK then Given else Turned);
  }

  lemma AcquireWeights(s: System, c: ClientId, d: ClientId)
    requires Inv(s) && c != NoClient && d != NoClient && Acquire in ClientOf(s, c).mail
    ensures var s', r := ServedAcquire(s, c), Srv.AcquireStep(s.server, c);
            var told := if r.revoke && r.entry.holder == d then 2 else 0;
            if d == c then WeightAt(s', c) + 4 <= WeightAt(s, c) + told else WeightAt(s', d) == WeightAt(s, d) + told
  {
    var e, r := s.server, Srv.AcquireStep(s.server, c);
    var st := SomeStage(s, c);
    Asker(ClientOf(s, c), ViewOf(e, c), st);
    AcquireViews(e, c, d);
    AfterAcquire(s, c, d);
    if d == c {
      AnswerLightens(ClientOf(s, c), ViewOf(e, c), st, r.reply, ViewOf(r.entry, c));
      CallWeighs(Answered(ClientOf(s, c), r.reply), Revoke, c in r.entry.queue);
    } else {
      CallWeighs(ClientOf(s, d), Revoke, d in r.entry.queue);
    }
  }

  lemma AcquireKeys(s: System, c: ClientId)
    requires Inv(s) && c != NoClient && Acquire in ClientOf(s, c).mail
    ensures var r := Srv.AcquireStep(s.server, c);
            && c in s.clients && ServedAcquire(s, c).clients.Keys == s.clients.Keys
            && (r.revoke ==> r.entry.holder in s.clients)
  {
    var r := Srv.AcquireStep(s.server, c);
    Known(s, c);
    if r.revoke && r.entry.holder != c {
      var st := SomeStage(s, c);
      Asker(ClientOf(s, c), ViewOf(s.server, c), st);
      AcquireViews(s.server, c, r.entry.holder);
      Known(s, r.entry.holder);
    }
  }

  lemma AcquireTotal(s: System, c: ClientId)
    requires Inv(s) && c != NoClient && Acquire in ClientOf(s, c).mail
    ensures Total(ServedAcquire(s, c), s.clients.Keys) < Total(s, s.clients.Keys)
  {
    var s', r := ServedAcquire(s, c), Srv.AcquireStep(s.server, c);
    var d := if r.revoke then r.entry.holder else c;
    AcquireKeys(s, c);
    AcquireWeights(s, c, c);
    AcquireWeights(s, c, d);
    forall x | x in s.clients && x != c && x != d ensures WeightAt(s', x) == WeightAt(s, x) {
      AcquireWeights(s, c, x);
    }
    Lightens(s, s', c, d);
  }

  lemma ReleaseWeights(s: System, c: ClientId, d: ClientId)
    requires Inv(s) && c != NoClient && d != NoClient && Release in ClientOf(s, c).mail
    ensures s.server.queue != [] && s.server.queue[0] != c && ViewOf(s.server, s.server.queue[0]).queued
    ensures var s' := ServedRelease(s, c);
            && (d == c ==> WeightAt(s', c) + 4 <= WeightAt(s, c))
            && (d != c ==> WeightAt(s', d) == WeightAt(s, d) + if d == s.server.queue[0] then 2 else 0)
  {
    var e, cl := s.server, ClientOf(s, c);
    var v, v' := ViewOf(e, c), ViewOf(Srv.ReleaseStep(e, c).entry, c);
    var st := SomeStage(s, c);
    Giver(cl, v, st);
    ReleaseViews(e, c, c);
    ReleaseViews(e, c, d);
    AfterRelease(s, c, d);
    if d == c {
      GivenBackFits(cl, v, v');
      StageIs(cl, v, Sending);
      StageIs(GivenBack(cl), v', Back);
    } else {
      CallWeighs(ClientOf(s, d), Retry, d in e.queue);
    }
  }

  lemma ReleaseTotal(s: System, c: ClientId)
    requires Inv(s) && c != NoClient && Release in ClientOf(s, c).mail
    ensures var s' := ServedRelease(s, c);
            s'.clients.Keys == s.clients.Keys && Total(s', s.clients.Keys) < Total(s, s.clients.Keys)
  {
    var s' := ServedRelease(s, c);
    ReleaseWeights(s, c, c);
    var f := s.server.queue[0];
    assert f in s.server.queue;
    ReleaseWeights(s, c, f);
    Known(s, c);
    Known(s, f);
    forall x | x in s.clients && x != c && x != f ensures WeightAt(s', x) == WeightAt(s, x) {
      ReleaseWeights(s, c, x);
    }
    Lightens(s, s', c, f);
  }

  lemma InternalFalls(s: System, step: Step)
    requires Inv(s) && Enabled(s, step) && Internal(step)
    ensures var s' := Apply(s, step);
            s'.clients.Keys == s.clients.Keys && Total(s', s.clients.Keys) < Total(s, s.clients.Keys)
  {
    match step
    case AtClient(c, a) => ActTotal(s, c, a);
    case ServeAcquire(c) =>
      AcquireKeys(s, c);
      AcquireTotal(s, c);
    case ServeRelease(c) => ReleaseTotal(s, c);
  }

  /** However the protocol goes on by itself, it takes no more than Total steps. */
  lemma {:induction false} Bounded(s: System, steps: seq<Step>, s': System)
    requires Inv(s) && Run(s, steps, s')
    requires forall step :: step in steps ==> Internal(step)
    ensures |steps| <= Total(s, s.clients.Keys)
    decreases |steps|
  {
    if steps != [] {
      InternalFalls(s, steps[0]);
      StepInv(s, steps[0]);
      Bounded(Apply(s, steps[0]), steps[1..], s');
    }
  }

  lemma {:induction false} GoOn(s: System) returns (steps: seq<Step>, s': System)
    requires Inv(s)
    ensures Run(s, steps, s') && (forall step :: step in steps ==> Internal(step))
    ensures AtRest(s') && Inv(s')
    decreases Total(s, s.clients.Keys)
  {
    if AtRest(s) {
      return [], s;
    }
    var step :| Internal(step) && Enabled(s, step);
    InternalFalls(s, step);
    StepInv(s, step);
    var more;
    more, s' := GoOn(Apply(s, step));
    steps := [step] + more;
    assert steps[0] == step && steps[1..] == more;
  }

  /** From every reachable state the protocol can go on by itself until it rests, in a
      bounded number of steps, and then whoever is still in acquire or release waits
      for a thread inside the lock. */
  lemma ComesToRest(s: System) returns (steps: seq<Step>, s': System)
    requires Reachable(s)
    ensures Run(s, steps, s') && (forall step :: step in steps ==> Internal(step))
    ensures AtRest(s') && |steps| <= Total(s, s.clients.Keys)
    ensures forall c :: c != NoClient && ClientOf(s', c).crew != multiset{} ==>
              s'.server.holder != NoClient && Inside in ClientOf(s', s'.server.holder).crew
  {
    ReachableInv(s);
    steps, s' := GoOn(s);
    Bounded(s, steps, s');
    forall c | c != NoClient && ClientOf(s', c).crew != multiset{}
      ensures s'.server.holder != NoClient && Inside in ClientOf(s', s'.server.holder).crew
    {
      RestMeansBusy(s', c);
    }
  }
}
