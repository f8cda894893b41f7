// How long a client waits: each time the protocol rests and the user of the lock leaves,
// the queue moves on.

module LockFairness {
  import opened LockTypes
  import opened LockSystem
  import opened LockTheorems
  import opened LockProgress
  import Srv = LockServer

  // ----- what the server sees of a run ---------------------------------------------------------

  function CallOfStep(step: Step): seq<Srv.Call> {
    match step
    case AtClient(_, _) => []
    case ServeAcquire(c) => [Srv.Call.Acquire(c)]
    case ServeRelease(c) => [Srv.Call.Release(c)]
  }

  function Calls(steps: seq<Step>): seq<Srv.Call> {
    if steps == [] then [] else CallOfStep(steps[0]) + Calls(steps[1..])
  }

  lemma {:induction false} ServerParts(e: Srv.Entry, a: seq<Srv.Call>, b: seq<Srv.Call>)
    requires Srv.WellFormed(e)
    ensures Srv.Run(e, a + b) == Srv.Run(Srv.Run(e, a), b)
    ensures Srv.Granted(e, a + b) == Srv.Granted(e, a) + Srv.Granted(Srv.Run(e, a), b)
    decreases |a|
  {
    if a == [] {
      assert a + b == b;
    } else {
      assert (a + b)[0] == a[0] && (a + b)[1..] == a[1..] + b;
      ServerParts(Srv.After(e, a[0]), a[1..], b);
    }
  }

  lemma ServerStep(s: System, step: Step)
    requires Inv(s) && Enabled(s, step)
    ensures Apply(s, step).server == Srv.Run(s.server, CallOfStep(step))
  {
    match step
    case AtClient(c, a) =>
    case ServeAcquire(c) =>
      AfterAcquire(s, c, c);
      assert CallOfStep(step)[1..] == [];
    case ServeRelease(c) =>
      AfterRelease(s, c, c);
      assert CallOfStep(step)[1..] == [];
  }

  lemma {:induction false} ServerRuns(s: System, steps: seq<Step>, s': System)
    requires Inv(s) && Run(s, steps, s')
    ensures Inv(s') && s'.server == Srv.Run(s.server, Calls(steps))
    decreases |steps|
  {
    if steps != [] {
      StepInv(s, steps[0]);
      ServerStep(s, steps[0]);
      ServerRuns(Apply(s, steps[0]), steps[1..], s');
      ServerParts(s.server, CallOfStep(steps[0]), Calls(steps[1..]));
    }
  }

  // ----- a holder that has been asked to give the lock back ----------------------------------------

  /** A thread is inside, and when it leaves the lock goes back. */
  predicate Tied(cl: Client) {
    StageOf(cl) == Finishing || (StageOf(cl) == Working && cl.record.revoke)
  }

  /** It cannot get inside without a grant. */
  predicate Gone(cl: Client) {
    var st := StageOf(cl);
    st != Given && st != Working && st != Finishing && st != Cached
  }

  lemma TiedActs(cl: Client, v: View, a: Action)
    requires FitsAt(cl, v, StageOf(cl)) && Tied(cl) && CanAct(cl, a)
    ensures if a == Leave then Gone(Act(cl, a)) else Tied(Act(cl, a))
  {
    var st' := ActFits(cl, v, StageOf(cl), a);
    StageIs(Act(cl, a), v, st');
  }

  lemma GoneActs(cl: Client, v: View, a: Action)
    requires FitsAt(cl, v, StageOf(cl)) && Gone(cl) && CanAct(cl, a)
    ensures Gone(Act(cl, a))
  {
    var st' := ActFits(cl, v, StageOf(cl), a);
    StageIs(Act(cl, a), v, st');
  }

  /** Being told something changes neither. */
  lemma ToldKeeps(cl: Client, k: Kind)
    requires k == Revoke || k == Retry
    ensures StageOf(Told(cl, k)) == StageOf(cl) && Told(cl, k).record == cl.record
  {
  }

  lemma RefusedStage(cl: Client, v: View)
    requires FitsAt(cl, v, StageOf(cl)) && Acquire in cl.mail
    ensures StageOf(cl) == Asked && Gone(Answered(cl, RETRY))
  {
    Asker(cl, v, StageOf(cl));
  }

  lemma GivenBackStage(cl: Client, v: View)
    requires FitsAt(cl, v, StageOf(cl)) && Release in cl.mail
    ensures StageOf(cl) == Sending && Gone(GivenBack(cl))
  {
    Giver(cl, v, StageOf(cl));
  }

  // ----- until the next grant -----------------------------------------------------------------------

  /** h had the lock, somebody waits; `left` says that h's thread has left. */
  ghost predicate Awaiting(s: System, h: ClientId, c: ClientId, left: bool) {
    && h != NoClient && c in s.server.queue
    && (s.server.holder == h || s.server.holder == NoClient)
    && if left then Gone(ClientOf(s, h)) else Tied(ClientOf(s, h))
  }

  lemma ActAwaits(s: System, h: ClientId, c: ClientId, left: bool, d: ClientId, a: Action)
    requires Inv(s) && Awaiting(s, h, c, left) && Enabled(s, AtClient(d, a))
    ensures Awaiting(Apply(s, AtClient(d, a)), h, c, left || (d == h && a == Leave))
  {
    if d == h {
      AtStage(s, h);
      if left {
        GoneActs(ClientOf(s, h), ViewOf(s.server, h), a);
      } else {
        TiedActs(ClientOf(s, h), ViewOf(s.server, h), a);
      }
    }
  }

  /** A refusal leaves the holder, and everybody who waits. */
  lemma Refusal(e: Srv.Entry, d: ClientId, c: ClientId)
    requires Srv.WellFormed(e) && Srv.AcquireStep(e, d).reply != OK && c in e.queue
    ensures Srv.AcquireStep(e, d).entry.holder == e.holder && c in Srv.AcquireStep(e, d).entry.queue
  {
  }

  lemma RefusedHolder(cl: Client, v: View, asks: bool, told: bool, left: bool)
    requires FitsAt(cl, v, StageOf(cl)) && (asks ==> Acquire in cl.mail)
    requires if left then Gone(cl) else Tied(cl)
    ensures var cl1 := if asks then Answered(cl, RETRY) else cl;
            var cl2 := if told then Told(cl1, Revoke) else cl1;
            if left then Gone(cl2) else Tied(cl2)
  {
    if asks { RefusedStage(cl, v); }
    ToldKeeps(if asks then Answered(cl, RETRY) else cl, Revoke);
  }

  lemma ReturnedHolder(cl: Client, v: View, gives: bool, told: bool, left: bool)
    requires FitsAt(cl, v, StageOf(cl)) && (gives ==> Release in cl.mail)
    requires if left then Gone(cl) else Tied(cl)
    ensures var cl1 := if gives then GivenBack(cl) else cl;
            var cl2 := if told then Told(cl1, Retry) else cl1;
            if left then Gone(cl2) else Tied(cl2)
  {
    if gives { GivenBackStage(cl, v); }
    ToldKeeps(if gives then GivenBack(cl) else cl, Retry);
  }

  lemma RefusalAwaits(s: System, h: ClientId, c: ClientId, left: bool, d: ClientId)
    requires Inv(s) && Awaiting(s, h, c, left) && Enabled(s, ServeAcquire(d))
             && Srv.AcquireStep(s.server, d).reply != OK
    ensures Awaiting(ServedAcquire(s, d), h, c, left)
  {
    var r := Srv.AcquireStep(s.server, d);
    AfterAcquire(s, d, h);
    AtStage(s, h);
    Refusal(s.server, d, c);
    RefusedHolder(ClientOf(s, h), ViewOf(s.server, h), d == h, r.revoke && h == r.entry.holder, left);
  }

  /** A release leaves the queue, and at most the holder goes. */
  lemma Return(e: Srv.Entry, d: ClientId)
    requires Srv.WellFormed(e)
    ensures Srv.ReleaseStep(e, d).entry.queue == e.queue
    ensures Srv.ReleaseStep(e, d).entry.holder == e.holder || Srv.ReleaseStep(e, d).entry.holder == NoClient
  {
  }

  lemma ReturnAwaits(s: System, h: ClientId, c: ClientId, left: bool, d: ClientId)
    requires Inv(s) && Awaiting(s, h, c, left) && Enabled(s, ServeRelease(d))
    ensures Awaiting(ServedRelease(s, d), h, c, left)
  {
    AfterRelease(s, d, h);
    AtStage(s, h);
    Return(s.server, d);
    var told := Srv.ReleaseStep(s.server, d).retry && h == s.server.queue[0];
    ReturnedHolder(ClientOf(s, h), ViewOf(s.server, h), d == h, told, left);
  }

  lemma NoGrantFirst(e: Srv.Entry, step: Step, rest: seq<Srv.Call>)
    requires Srv.WellFormed(e) && Srv.Granted(e, CallOfStep(step) + rest) == []
    ensures Srv.Granted(Srv.Run(e, CallOfStep(step)), rest) == []
    ensures step.ServeAcquire? ==> Srv.AcquireStep(e, step.c).reply != OK
  {
    ServerParts(e, CallOfStep(step), rest);
    if step.ServeAcquire? {
      assert CallOfStep(step)[1..] == [];
    }
  }

  /** As long as nobody is granted the lock, it goes from h back to the server at most. */
  lemma {:induction false} StillAwaits(s: System, steps: seq<Step>, s': System, h: ClientId, c: ClientId, left: bool)
    requires Inv(s) && Awaiting(s, h, c, left) && Run(s, steps, s') && Srv.Granted(s.server, Calls(steps)) == []
    ensures Inv(s') && Awaiting(s', h, c, left || AtClient(h, Leave) in steps)
    decreases |steps|
  {
    if steps != [] {
      var step := steps[0];
      StepInv(s, step);
      ServerStep(s, step);
      NoGrantFirst(s.server, step, Calls(steps[1..]));
      match step {
        case AtClient(d, a) => ActAwaits(s, h, c, left, d, a);
        case ServeAcquire(d) => RefusalAwaits(s, h, c, left, d);
        case ServeRelease(d) => ReturnAwaits(s, h, c, left, d);
      }
      StillAwaits(Apply(s, step), steps[1..], s', h, c, left || step == AtClient(h, Leave));
    }
  }

  // ----- rounds --------------------------------------------------------------------------------------

  /** At rest, with c waiting, a thread of the holder is inside and has been told to give
      the lock back. */
  lemma RestTies(s: System, c: ClientId)
    requires Inv(s) && AtRest(s) && c in s.server.queue
    ensures s.server.holder != NoClient && Tied(ClientOf(s, s.server.holder))
    ensures Inside in ClientOf(s, s.server.holder).crew
  {
    var e := s.server;
    Resting(s, c);
    StillStage(ClientOf(s, c), ViewOf(e, c), StageOf(ClientOf(s, c)));
    assert AwaitRetry in ClientOf(s, c).crew;
    RestMeansBusy(s, c);
    Resting(s, e.holder);
    StillStage(ClientOf(s, e.holder), ViewOf(e, e.holder), StageOf(ClientOf(s, e.holder)));
  }

  /** From rest to rest, if the holder's thread leaves in between, somebody is granted the
      lock. */
  lemma RoundGrants(s: System, steps: seq<Step>, s': System, c: ClientId)
    requires Inv(s) && AtRest(s) && c in s.server.queue
    requires Run(s, steps, s') && AtRest(s') && AtClient(s.server.holder, Leave) in steps
    ensures Srv.Granted(s.server, Calls(steps)) != []
  {
    var h := s.server.holder;
    RestTies(s, c);
    if Srv.Granted(s.server, Calls(steps)) == [] {
      StillAwaits(s, steps, s', h, c, false);
      RestTies(s', c);
      assert false;
    }
  }

  function AllCalls(rounds: seq<seq<Step>>): seq<Srv.Call> {
    if rounds == [] then [] else AllCalls(rounds[..|rounds| - 1]) + Calls(rounds[|rounds| - 1])
  }

  /** From rest to rest; while c waits, the user of the lock leaves at least once. */
  ghost predicate Rounds(states: seq<System>, rounds: seq<seq<Step>>, c: ClientId) {
    && |states| == |rounds| + 1
    && (forall k :: 0 <= k < |states| ==> AtRest(states[k]))
    && (forall k :: 0 <= k < |rounds| ==> Round(states[k], rounds[k], states[k + 1], c))
  }

  ghost predicate Round(s: System, steps: seq<Step>, s': System, c: ClientId) {
    Run(s, steps, s') && (c in s.server.queue ==> AtClient(s.server.holder, Leave) in steps)
  }

  /** Such a round can always be had. */
  lemma RoundExists(s: System, c: ClientId) returns (steps: seq<Step>, s': System)
    requires Inv(s) && AtRest(s) && c in s.server.queue
    ensures Round(s, steps, s', c) && AtRest(s') && Inv(s')
  {
    RestTies(s, c);
    var step := AtClient(s.server.holder, Leave);
    StepInv(s, step);
    var rest;
    rest, s' := GoOn(Apply(s, step));
    steps := [step] + rest;
    assert steps[0] == step && steps[1..] == rest;
  }

  /** Not granted the lock yet, c is still in the queue. */
  lemma WaitsStill(e: Srv.Entry, calls: seq<Srv.Call>, c: ClientId, p: nat)
    requires Srv.WellFormed(e) && p < |e.queue| && e.queue[p] == c && |Srv.Granted(e, calls)| <= p
    ensures c in Srv.Run(e, calls).queue
  {
    Srv.BoundedBypass(e, calls, p);
    assert Srv.Run(e, calls).queue[p - |Srv.Granted(e, calls)|] == c;
  }

  lemma OneMore(e: Srv.Entry, s: System, steps: seq<Step>, s': System, before: seq<Srv.Call>, c: ClientId, p: nat)
    requires Srv.WellFormed(e) && Inv(s) && s.server == Srv.Run(e, before)
    requires Round(s, steps, s', c) && AtRest(s) && AtRest(s')
    requires p < |e.queue| && e.queue[p] == c
    ensures Inv(s') && s'.server == Srv.Run(e, before + Calls(steps))
    ensures var n := |Srv.Granted(e, before)|;
            |Srv.Granted(e, before + Calls(steps))| >= if n <= p then n + 1 else n
  {
    ServerRuns(s, steps, s');
    ServerParts(e, before, Calls(steps));
    if |Srv.Granted(e, before)| <= p {
      WaitsStill(e, before, c, p);
      RoundGrantsOne(s, steps, s', c);
    }
  }

  lemma RoundGrantsOne(s: System, steps: seq<Step>, s': System, c: ClientId)
    requires Inv(s) && AtRest(s) && c in s.server.queue && Round(s, steps, s', c) && AtRest(s')
    ensures |Srv.Granted(s.server, Calls(steps))| >= 1
  {
    RoundGrants(s, steps, s', c);
  }

  lemma {:induction false} RoundsGrant(states: seq<System>, rounds: seq<seq<Step>>, c: ClientId, p: nat, n: nat)
    requires Rounds(states, rounds, c) && Inv(states[0]) && n <= |rounds|
    requires p < |states[0].server.queue| && states[0].server.queue[p] == c
    ensures Inv(states[n]) && states[n].server == Srv.Run(states[0].server, AllCalls(rounds[..n]))
    ensures |Srv.Granted(states[0].server, AllCalls(rounds[..n]))| >= if n <= p then n else p + 1
    decreases n
  {
    if n > 0 {
      RoundsGrant(states, rounds, c, p, n - 1);
      assert Round(states[n - 1], rounds[n - 1], states[n], c);
      assert rounds[..n][..n - 1] == rounds[..n - 1] && rounds[..n][n - 1] == rounds[n - 1];
      OneMore(states[0].server, states[n - 1], rounds[n - 1], states[n], AllCalls(rounds[..n - 1]), c, p);
    }
  }

  /** A client that waits behind p others has been granted the lock after p + 1 rounds at
      the latest: it waits for p + 1 users, each of whom leaves once, whatever else
      happens. */
  lemma WaitsItsTurn(states: seq<System>, rounds: seq<seq<Step>>, c: ClientId, p: nat)
    requires Rounds(states, rounds, c) && |rounds| == p + 1 && Reachable(states[0])
    requires p < |states[0].server.queue| && states[0].server.queue[p] == c
    ensures Inv(states[0]) && c in Srv.Granted(states[0].server, AllCalls(rounds))
  {
    ReachableInv(states[0]);
    RoundsGrant(states, rounds, c, p, p + 1);
    assert rounds[..p + 1] == rounds;
    Srv.BoundedBypass(states[0].server, AllCalls(rounds), p);
    assert Srv.Granted(states[0].server, AllCalls(rounds))[p] == c;
  }

  // ----- without rest -----------------------------------------------------------------------------

  /** How many release calls the server has handled. */
  function Releases(steps: seq<Step>): nat {
    if steps == [] then 0 else (if steps[0].ServeRelease? then 1 else 0) + Releases(steps[1..])
  }

  lemma StepBalance(s: System, step: Step)
    requires Inv(s) && Enabled(s, step)
    ensures Num(step.ServeRelease?) + Num(Apply(s, step).server.holder != NoClient)
            <= |Srv.Granted(s.server, CallOfStep(step))| + Num(s.server.holder != NoClient)
  {
    ServerStep(s, step);
    match step
    case AtClient(c, a) =>
    case ServeAcquire(c) =>
      assert CallOfStep(step)[1..] == [];
      if Srv.AcquireStep(s.server, c).reply == OK {
        assert |Srv.Granted(s.server, CallOfStep(step))| == 1;
        AtStage(s, c);
        Asker(ClientOf(s, c), ViewOf(s.server, c), StageOf(ClientOf(s, c)));
        AcquireViews(s.server, c, c);
      }
    case ServeRelease(c) =>
      assert CallOfStep(step)[1..] == [];
      AtStage(s, c);
      Giver(ClientOf(s, c), ViewOf(s.server, c), StageOf(ClientOf(s, c)));
  }

  /** Between two releases there is a grant. */
  lemma {:induction false} ReleasesGrant(s: System, steps: seq<Step>, s': System)
    requires Inv(s) && Run(s, steps, s')
    ensures Releases(steps) + Num(s'.server.holder != NoClient)
            <= |Srv.Granted(s.server, Calls(steps))| + Num(s.server.holder != NoClient)
    decreases |steps|
  {
    if steps != [] {
      var step := steps[0];
      StepInv(s, step);
      StepBalance(s, step);
      ServerStep(s, step);
      ReleasesGrant(Apply(s, step), steps[1..], s');
      ServerParts(s.server, CallOfStep(step), Calls(steps[1..]));
    }
  }

  /** In any run, resting or not, a client that waits behind p others has been granted the
      lock when the server has handled the holder's release, if there is a holder, and
      p + 1 more. */
  lemma WaitsForReleases(s: System, steps: seq<Step>, s': System, c: ClientId, p: nat)
    requires Reachable(s) && Run(s, steps, s') && p < |s.server.queue| && s.server.queue[p] == c
    requires Releases(steps) >= p + 1 + Num(s.server.holder != NoClient)
    ensures Inv(s) && c in Srv.Granted(s.server, Calls(steps))
  {
    ReachableInv(s);
    ReleasesGrant(s, steps, s');
    Srv.BoundedBypass(s.server, Calls(steps), p);
    assert Srv.Granted(s.server, Calls(steps))[p] == c;
  }
}
