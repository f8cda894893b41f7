// A run in which a client is told a wrong size inside the lock, because it once asked
// for the attributes outside.

module StaleSize {
  import opened Wrappers
  import opened LockTypes
  import opened LockSystem
  import opened Coherence
  import opened Atomicity
  import Srv = LockServer
  import Cl = LockClient
  import Ec = ExtentCache

  /** The lock's entry at the server and two clients. */
  ghost predicate Stands(w: Shared, a: ClientId, b: ClientId, e: Srv.Entry, ca: Client, cb: Client) {
    && a != b && a != NoClient && b != NoClient && Srv.WellFormed(e)
    && w.sys.server == e && ClientOf(w.sys, a) == ca && ClientOf(w.sys, b) == cb
  }

  /** The moves lead from w to w', with these answers. */
  ghost predicate Brings(w: Shared, moves: seq<Move>, w': Shared, es: seq<Event>) {
    Run(w, moves) && End(w, moves) == w' && History(w, moves) == es
  }

  lemma Further(w: Shared, moves: seq<Move>, w1: Shared, es: seq<Event>, m: Move)
    requires Brings(w, moves, w1, es) && CanMove(w1, m)
    ensures Brings(w, moves + [m], Moved(w1, m), es + EventOf(w1, m))
  {
    assert [m][1..] == [];
    assert Run(Moved(w1, m), []) && Run(w1, [m]);
    Joins(w, moves, [m]);
  }

  ghost function EventOf(w: Shared, m: Move): seq<Event> {
    if m.Access? then [Event(m.op, Do(SlotOf(w, m.c), w.stored, m.op).2)] else []
  }

  lemma {:induction false} Joins(w: Shared, a: seq<Move>, b: seq<Move>)
    requires Run(w, a) && Run(End(w, a), b)
    ensures Run(w, a + b)
    ensures End(w, a + b) == End(End(w, a), b) && History(w, a + b) == History(w, a) + History(End(w, a), b)
    decreases |a|
  {
    if a == [] {
      assert a + b == b;
    } else {
      assert (a + b)[0] == a[0] && (a + b)[1..] == a[1..] + b;
      Joins(Moved(w, a[0]), a[1..], b);
      RunParts(w, a, b);
      HistoryParts(w, a, b);
    }
  }

  // ----- single steps ----------------------------------------------------------------------

  lemma Acts(w: Shared, a: ClientId, b: ClientId, e: Srv.Entry, ca: Client, cb: Client, act: Action)
    requires Stands(w, a, b, e, ca, cb) && CanAct(ca, act)
    ensures CanMove(w, Protocol(AtClient(a, act)))
    ensures Stands(Moved(w, Protocol(AtClient(a, act))), a, b, e, Act(ca, act), cb)
    ensures act != SendRelease ==>
              Moved(w, Protocol(AtClient(a, act))).slots == w.slots
              && Moved(w, Protocol(AtClient(a, act))).stored == w.stored
  {
  }

  function AskingClient(): Client {
    Client(Cl.Record(Cl.ACQUIRING, false, false), multiset{Calling}, multiset{Acquire})
  }

  function WorkingClient(): Client {
    Client(Cl.Record(Cl.LOCKED, false, false), multiset{Inside}, multiset{})
  }

  function SendingClient(): Client {
    Client(Cl.Record(Cl.RELEASING, false, false), multiset{Returning}, multiset{Release})
  }

  lemma EnterActs()
    ensures Act(NEWCOMER, Enter) == AskingClient()
    ensures Answered(AskingClient(), OK) == Client(AskingClient().record, multiset{Calling}, multiset{Granted})
    ensures CanAct(Answered(AskingClient(), OK), TakeGrant)
            && Act(Answered(AskingClient(), OK), TakeGrant) == WorkingClient()
  {
  }

  function FinishingClient(): Client {
    Client(Cl.Record(Cl.RELEASING, false, false), multiset{Inside}, multiset{})
  }

  function FlushingClient(): Client {
    Client(Cl.Record(Cl.RELEASING, false, false), multiset{Flushing}, multiset{})
  }

  lemma RevokeActs()
    ensures CanAct(Told(WorkingClient(), Revoke), TakeRevoke)
    ensures Act(Told(WorkingClient(), Revoke), TakeRevoke) == FinishingClient()
  {
  }

  lemma LeaveActs()
    ensures CanAct(FinishingClient(), Leave) && Act(FinishingClient(), Leave) == FlushingClient()
    ensures CanAct(FlushingClient(), SendRelease) && Act(FlushingClient(), SendRelease) == SendingClient()
  {
  }

  lemma RetryActs()
    ensures var t := Told(Answered(AskingClient(), RETRY), Retry);
            && CanAct(t, TakeRetry) && CanAct(Act(t, TakeRetry), TakeRefusal)
            && Act(Act(t, TakeRetry), TakeRefusal) == AskingClient()
  {
    var t := Told(Answered(AskingClient(), RETRY), Retry);
    assert Act(t, TakeRetry) == Client(Cl.Record(Cl.ACQUIRING, false, true), multiset{Calling}, multiset{Refused});
  }

  // ----- the server's steps ------------------------------------------------------------------

  /** The server answers OK to the only one who asks. */
  lemma ServesFirst(w: Shared, a: ClientId, b: ClientId, e: Srv.Entry, ca: Client)
    requires Stands(w, a, b, e, ca, AskingClient())
             && (e == Srv.UNUSED || e == Srv.Entry(Srv.WAITING, NoClient, [b], {b}))
    ensures CanMove(w, Protocol(ServeAcquire(b)))
    ensures Stands(Moved(w, Protocol(ServeAcquire(b))), a, b, Srv.Entry(Srv.LOCKED, b, [], {}), ca,
            Answered(AskingClient(), OK))
    ensures Moved(w, Protocol(ServeAcquire(b))).slots == w.slots
            && Moved(w, Protocol(ServeAcquire(b))).stored == w.stored
  {
    AfterAcquire(w.sys, b, a);
    AfterAcquire(w.sys, b, b);
  }

  /** It answers RETRY while b has the lock, and asks for it back. */
  lemma ServesSecond(w: Shared, a: ClientId, b: ClientId)
    requires Stands(w, a, b, Srv.Entry(Srv.LOCKED, b, [], {}), AskingClient(), WorkingClient())
    ensures CanMove(w, Protocol(ServeAcquire(a)))
    ensures Stands(Moved(w, Protocol(ServeAcquire(a))), a, b, Srv.Entry(Srv.WAITING, b, [a], {a}),
                   Answered(AskingClient(), RETRY), Told(WorkingClient(), Revoke))
    ensures Moved(w, Protocol(ServeAcquire(a))).slots == w.slots
            && Moved(w, Protocol(ServeAcquire(a))).stored == w.stored
  {
    AfterAcquire(w.sys, a, a);
    AfterAcquire(w.sys, a, b);
    assert Srv.AcquireStep(w.sys.server, a).entry == Srv.Entry(Srv.WAITING, b, [a], {a});
  }

  /** Having it back, it tells a to retry. */
  lemma ServesBack(w: Shared, a: ClientId, b: ClientId)
    requires Stands(w, a, b, Srv.Entry(Srv.WAITING, b, [a], {a}), Answered(AskingClient(), RETRY), SendingClient())
    ensures CanMove(w, Protocol(ServeRelease(b)))
    ensures Stands(Moved(w, Protocol(ServeRelease(b))), a, b, Srv.Entry(Srv.WAITING, NoClient, [a], {a}),
                   Told(Answered(AskingClient(), RETRY), Retry), GivenBack(SendingClient()))
    ensures Moved(w, Protocol(ServeRelease(b))).slots == w.slots
            && Moved(w, Protocol(ServeRelease(b))).stored == w.stored
  {
    AfterRelease(w.sys, b, a);
    AfterRelease(w.sys, b, b);
  }

  // ----- parts of the run ----------------------------------------------------------------------

  /** A client gets in when it is the only one to ask. */
  lemma GetsIn(w0: Shared, before: seq<Move>, w: Shared, es: seq<Event>, a: ClientId, b: ClientId, e: Srv.Entry,
      ca: Client)
    returns (moves: seq<Move>, w': Shared)
    requires Brings(w0, before, w, es) && Stands(w, a, b, e, ca, AskingClient())
    requires e == Srv.UNUSED || e == Srv.Entry(Srv.WAITING, NoClient, [b], {b})
    ensures Brings(w0, moves, w', es) && Stands(w', a, b, Srv.Entry(Srv.LOCKED, b, [], {}), ca, WorkingClient())
    ensures w'.slots == w.slots && w'.stored == w.stored
  {
    var m1, m2 := Protocol(ServeAcquire(b)), Protocol(AtClient(b, TakeGrant));
    EnterActs();
    ServesFirst(w, a, b, e, ca);
    Further(w0, before, w, es, m1);
    var w1 := Moved(w, m1);
    Acts(w1, b, a, Srv.Entry(Srv.LOCKED, b, [], {}), Answered(AskingClient(), OK), ca, TakeGrant);
    Further(w0, before + [m1], w1, es, m2);
    moves, w' := before + [m1] + [m2], Moved(w1, m2);
  }

  /** c takes an action that leaves the caches alone. */
  lemma TakesAction(w0: Shared, before: seq<Move>, w: Shared, es: seq<Event>, c: ClientId, d: ClientId,
                    e: Srv.Entry, cc: Client, cd: Client, act: Action)
    returns (moves: seq<Move>, w': Shared)
    requires Brings(w0, before, w, es) && Stands(w, c, d, e, cc, cd) && CanAct(cc, act) && act != SendRelease
    ensures Brings(w0, moves, w', es) && Stands(w', c, d, e, Act(cc, act), cd) && Stands(w', d, c, e, cd, Act(cc, act))
    ensures w'.slots == w.slots && w'.stored == w.stored
  {
    var m := Protocol(AtClient(c, act));
    Acts(w, c, d, e, cc, cd, act);
    Further(w0, before, w, es, m);
    moves, w' := before + [m], Moved(w, m);
  }

  /** a asks while b is inside, and b is asked to give the lock back. */
  lemma Disturbs(w0: Shared, before: seq<Move>, w: Shared, es: seq<Event>, a: ClientId, b: ClientId)
    returns (moves: seq<Move>, w': Shared)
    requires Brings(w0, before, w, es)
    requires Stands(w, a, b, Srv.Entry(Srv.LOCKED, b, [], {}), NEWCOMER, WorkingClient())
    ensures Brings(w0, moves, w', es)
    ensures Stands(w', b, a, Srv.Entry(Srv.WAITING, b, [a], {a}), Told(WorkingClient(), Revoke),
            Answered(AskingClient(), RETRY))
    ensures w'.slots == w.slots && w'.stored == w.stored
  {
    EnterActs();
    var moves1, w1 := TakesAction(w0, before, w, es, a, b, Srv.Entry(Srv.LOCKED, b, [], {}), NEWCOMER,
        WorkingClient(), Enter);
    var m := Protocol(ServeAcquire(a));
    ServesSecond(w1, a, b);
    Further(w0, moves1, w1, es, m);
    moves, w' := moves1 + [m], Moved(w1, m);
  }

  /** b takes in the revocation and leaves. */
  lemma Leaving(w0: Shared, before: seq<Move>, w: Shared, es: seq<Event>, a: ClientId, b: ClientId)
    returns (moves: seq<Move>, w': Shared)
    requires Brings(w0, before, w, es)
    requires Stands(w, b, a, Srv.Entry(Srv.WAITING, b, [a], {a}), Told(WorkingClient(), Revoke),
             Answered(AskingClient(), RETRY))
    ensures Brings(w0, moves, w', es)
    ensures Stands(w', b, a, Srv.Entry(Srv.WAITING, b, [a], {a}), FlushingClient(), Answered(AskingClient(), RETRY))
    ensures w'.slots == w.slots && w'.stored == w.stored
  {
    RevokeActs();
    LeaveActs();
    var e, ca := Srv.Entry(Srv.WAITING, b, [a], {a}), Answered(AskingClient(), RETRY);
    var moves1, w1 := TakesAction(w0, before, w, es, b, a, e, Told(WorkingClient(), Revoke), ca, TakeRevoke);
    moves, w' := TakesAction(w0, moves1, w1, es, b, a, e, FinishingClient(), ca, Leave);
  }

  /** b flushes, and its release call goes out. */
  lemma Flushes(w0: Shared, before: seq<Move>, w: Shared, es: seq<Event>, a: ClientId, b: ClientId, e: Srv.Entry,
      ca: Client)
    returns (moves: seq<Move>, w': Shared)
    requires Brings(w0, before, w, es) && Stands(w, b, a, e, FlushingClient(), ca)
    ensures Brings(w0, moves, w', es) && Stands(w', a, b, e, ca, SendingClient())
    ensures SlotOf(w', a) == SlotOf(w, a) && w'.stored == Ec.Flush(SlotOf(w, b), w.stored).0
  {
    LeaveActs();
    var send := Protocol(AtClient(b, SendRelease));
    Acts(w, b, a, e, FlushingClient(), ca, SendRelease);
    FlushTakes(w, b, a);
    Further(w0, before, w, es, send);
    moves, w' := before + [send], Moved(w, send);
  }

  /** a is told to retry, and asks again. */
  lemma AsksAgain(w0: Shared, before: seq<Move>, w: Shared, es: seq<Event>, a: ClientId, b: ClientId)
    returns (moves: seq<Move>, w': Shared)
    requires Brings(w0, before, w, es)
    requires Stands(w, a, b, Srv.Entry(Srv.WAITING, b, [a], {a}), Answered(AskingClient(), RETRY), SendingClient())
    ensures Brings(w0, moves, w', es)
    ensures Stands(w', b, a, Srv.Entry(Srv.WAITING, NoClient, [a], {a}), GivenBack(SendingClient()), AskingClient())
    ensures w'.slots == w.slots && w'.stored == w.stored
  {
    RetryActs();
    var m := Protocol(ServeRelease(b));
    ServesBack(w, a, b);
    Further(w0, before, w, es, m);
    var e, ca, cb := Srv.Entry(Srv.WAITING, NoClient, [a], {a}), Told(Answered(AskingClient(), RETRY), Retry),
        GivenBack(SendingClient());
    var moves2, w2 := TakesAction(w0, before + [m], Moved(w, m), es, a, b, e, ca, cb, TakeRetry);
    moves, w' := TakesAction(w0, moves2, w2, es, a, b, e, Act(ca, TakeRetry), cb, TakeRefusal);
  }

  // ----- the run --------------------------------------------------------------------------------

  function StaleEntry(): Ec.Slot {
    Some(Ec.Extent([], Ec.NONE, Ec.Attr(2, 0)))
  }

  lemma ProbeCaches(w: Shared, a: ClientId)
    requires a != NoClient && SlotOf(w, a) == None && w.stored == Ec.Live(2, [])
    ensures SlotOf(Moved(w, Probe(a, [])), a) == StaleEntry() && Moved(w, Probe(a, [])).stored == w.stored
    ensures forall b :: b != a ==> SlotOf(Moved(w, Probe(a, [])), b) == SlotOf(w, b)
  {
  }

  /** The first to ask gets in. */
  lemma FirstIn(w0: Shared, before: seq<Move>, w: Shared, a: ClientId, b: ClientId)
      returns (moves: seq<Move>, w': Shared)
    requires Brings(w0, before, w, []) && Stands(w, a, b, Srv.UNUSED, NEWCOMER, NEWCOMER)
    ensures Brings(w0, moves, w', []) && Stands(w', a, b, Srv.Entry(Srv.LOCKED, b, [], {}), NEWCOMER, WorkingClient())
    ensures w'.slots == w.slots && w'.stored == w.stored
  {
    EnterActs();
    moves, w' := TakesAction(w0, before, w, [], b, a, Srv.UNUSED, NEWCOMER, NEWCOMER, Enter);
    moves, w' := GetsIn(w0, moves, w', [], a, b, Srv.UNUSED, NEWCOMER);
  }

  /** A looks at the attributes of an empty extent without the lock, and B gets the lock. */
  lemma Probes(a: ClientId, b: ClientId) returns (w0: Shared, moves: seq<Move>, w: Shared)
    requires a != b && a != NoClient && b != NoClient
    ensures Initial(w0, Ec.Present([])) && Brings(w0, moves, w, [])
    ensures Stands(w, a, b, Srv.Entry(Srv.LOCKED, b, [], {}), NEWCOMER, WorkingClient())
    ensures SlotOf(w, a) == StaleEntry() && SlotOf(w, b) == None && w.stored == Ec.Live(2, [])
  {
    w0 := Shared(INITIAL, map[], Ec.Live(2, []));
    var probe := Probe(a, []);
    ProbeCaches(w0, a);
    Further(w0, [], w0, [], probe);
    assert [] + EventOf(w0, probe) == [];
    moves, w := FirstIn(w0, [] + [probe], Moved(w0, probe), a, b);
  }

  lemma PutCaches(w: Shared, a: ClientId, b: ClientId)
    requires a != b && b != NoClient && Inside in ClientOf(w.sys, b).crew && SlotOf(w, b) == None
    ensures var put := Access(b, Put([7], 2));
            && CanMove(w, put) && EventOf(w, put) == [Event(put.op, Done)]
            && Moved(w, put).sys == w.sys && Moved(w, put).stored == w.stored
            && SlotOf(Moved(w, put), a) == SlotOf(w, a)
            && SlotOf(Moved(w, put), b) == Some(Ec.Extent([7], Ec.MODIFIED, Ec.Attr(2, 1)))
  {
  }

  /** B writes one byte; A asks for the lock, B flushes and gives it back, A gets it. */
  lemma ProbedThenIn(a: ClientId, b: ClientId) returns (w0: Shared, moves: seq<Move>, w: Shared)
    requires a != b && a != NoClient && b != NoClient
    ensures Initial(w0, Ec.Present([])) && Brings(w0, moves, w, [Event(Put([7], 2), Done)])
    ensures Inside in ClientOf(w.sys, a).crew && SlotOf(w, a) == StaleEntry() && a != NoClient
  {
    w0, moves, w := Probes(a, b);
    var put := Access(b, Put([7], 2));
    var es := [Event(put.op, Done)];
    PutCaches(w, a, b);
    Further(w0, moves, w, [], put);
    assert [] + es == es;
    moves, w := Disturbs(w0, moves + [put], Moved(w, put), es, a, b);
    moves, w := Leaving(w0, moves, w, es, a, b);
    moves, w := Flushes(w0, moves, w, es, a, b, Srv.Entry(Srv.WAITING, b, [a], {a}), Answered(AskingClient(), RETRY));
    moves, w := AsksAgain(w0, moves, w, es, a, b);
    moves, w := GetsIn(w0, moves, w, es, b, a, Srv.Entry(Srv.WAITING, NoClient, [a], {a}), GivenBack(SendingClient()));
  }

  lemma TwoEvents(v: Ec.Content, e: Event, f: Event)
    ensures Final(v, [e] + [f]) == Updated(Updated(v, e), f)
    ensures !AllowedExactly(Updated(v, e), f) ==> !LegalExactly(v, [e] + [f])
  {
    var v1, v2 := Updated(v, e), Updated(Updated(v, e), f);
    assert ([e] + [f])[0] == e && ([e] + [f])[1..] == [f] && [f][1..] == [];
    assert Final(v1, [f]) == Final(v2, []) == v2;
  }

  /** There A asks for the attributes, and is told that the extent is empty. */
  lemma ProbedSizeGoesStale(a: ClientId, b: ClientId)
    requires a != b && a != NoClient && b != NoClient
    ensures exists w, v, moves ::
              && Initial(w, v) && Run(w, moves) && Final(v, History(w, moves)) == Ec.Present([7])
              && Legal(v, History(w, moves)) && !LegalExactly(v, History(w, moves))
  {
    var w0, moves, w := ProbedThenIn(a, b);
    var v, ask := Ec.Present([]), Access(a, GetAttr([]));
    var first, second := Event(Put([7], 2), Done), Event(GetAttr([]), Size(0));
    Further(w0, moves, w, [first], ask);
    assert History(w0, moves + [ask]) == [first] + [second];
    TwoEvents(v, first, second);
    Coherence.Coherence(w0, moves + [ask], v);
  }

  /** A probe while an owner has not flushed misses what it wrote: with nothing changed
      since, the size it caches is not the length of the variable. */
  lemma ProbeMissesUnflushed(a: ClientId, b: ClientId)
    requires a != b && a != NoClient && b != NoClient
    ensures exists w, v, moves ::
              && Initial(w, v) && Run(w, moves) && SlotOf(End(w, moves), a) == None
              && End(w, moves).stored == Ec.Live(2, []) && Final(v, History(w, moves)) == Ec.Present([7])
              && Coherent(End(w, moves), Ec.Present([7]))
  {
    var w0, v := Shared(INITIAL, map[], Ec.Live(2, [])), Ec.Present([]);
    var moves, w := FirstIn(w0, [], w0, a, b);
    var put := Access(b, Put([7], 2));
    var e := Event(put.op, Done);
    assert SlotOf(w, a) == None;
    PutCaches(w, a, b);
    Further(w0, moves, w, [], put);
    assert [] + [e] == [e] && [e][1..] == [];
    assert Final(v, [e]) == Final(Updated(v, e), []) == Ec.Present([7]);
    Coherence.Coherence(w0, moves + [put], v);
  }
}
