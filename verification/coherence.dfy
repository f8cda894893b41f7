// The lock protocol and the write-back caches together: for one extent and the lock
// of the same number, all caches and the server behave as one shared variable.

module Coherence {
  import opened Wrappers
  import opened Bytes
  import opened LockTypes
  import opened LockSystem
  import Srv = LockServer
  import Ec = ExtentCache

  datatype Shared = Shared(sys: System, slots: map<ClientId, Ec.Extent>, stored: Ec.Stored)

  function SlotOf(w: Shared, c: ClientId): Ec.Slot {
    if c in w.slots then Some(w.slots[c]) else None
  }

  function SetSlot(slots: map<ClientId, Ec.Extent>, c: ClientId, slot: Ec.Slot): map<ClientId, Ec.Extent> {
    match slot
    case Some(x) => slots[c := x]
    case None => slots - {c}
  }

  /** A call on the extent cache, with what uninitialised memory and reads of a removed
      extent contribute. */
  datatype Op =
    | Get(noise: Bytes)
    | GetAttr(noise: Bytes)
    | Put(data: Bytes, junk: nat)
    | Remove(attr: Ec.Attr)
    | Flush

  datatype Answer = Data(data: Bytes) | Size(size: nat) | Done | NoEntry

  function Do(slot: Ec.Slot, stored: Ec.Stored, op: Op): (Ec.Slot, Ec.Stored, Answer) {
    match op
    case Get(noise) =>
      var (slot', _, buf) := Ec.Get(slot, stored, noise);
      (slot', stored, if buf.Some? then Data(buf.value) else NoEntry)
    case GetAttr(noise) =>
      var (slot', _, attr) := Ec.GetAttr(slot, stored, noise);
      (slot', stored, if attr.Some? then Size(attr.value.size) else NoEntry)
    case Put(data, junk) =>
      var (slot', status) := Ec.Put(slot, data, junk);
      (slot', stored, if status.OK? then Done else NoEntry)
    case Remove(attr) =>
      var (slot', status) := Ec.Remove(slot, attr);
      (slot', stored, if status.OK? then Done else NoEntry)
    case Flush =>
      (None, Ec.Flush(slot, stored).0, Done)
  }

  /** A step of the protocol, an access by the thread inside the lock, or an attribute
      probe by a thread that does not care about the lock. */
  datatype Move =
    | Protocol(step: Step)
    | Access(c: ClientId, op: Op)
    | Probe(c: ClientId, noise: Bytes)

  ghost predicate CanMove(w: Shared, m: Move) {
    match m
    case Protocol(step) => Enabled(w.sys, step)
    case Access(c, _) => c != NoClient && Inside in ClientOf(w.sys, c).crew
    case Probe(c, _) => c != NoClient
  }

  function After(w: Shared, c: ClientId, op: Op): Shared {
    var (slot, stored, _) := Do(SlotOf(w, c), w.stored, op);
    Shared(w.sys, SetSlot(w.slots, c, slot), stored)
  }

  /** Giving a lock back flushes the extent before the release call goes out. */
  ghost function Moved(w: Shared, m: Move): Shared
    requires CanMove(w, m)
  {
    match m
    case Protocol(step) =>
      var w1 := if step.AtClient? && step.a == SendRelease then After(w, step.c, Flush) else w;
      w1.(sys := Apply(w.sys, step))
    case Access(c, op) => After(w, c, op)
    case Probe(c, noise) => After(w, c, GetAttr(noise))
  }

  ghost predicate Run(w: Shared, moves: seq<Move>)
    decreases |moves|
  {
    moves != [] ==> CanMove(w, moves[0]) && Run(Moved(w, moves[0]), moves[1..])
  }

  ghost function End(w: Shared, moves: seq<Move>): Shared
    requires Run(w, moves)
    decreases |moves|
  {
    if moves == [] then w else End(Moved(w, moves[0]), moves[1..])
  }

  // ----- the shared variable -------------------------------------------------------------

  datatype Event = Event(op: Op, answer: Answer)

  /** What the accesses of a run were answered, in order. */
  ghost function History(w: Shared, moves: seq<Move>): seq<Event>
    requires Run(w, moves)
    decreases |moves|
  {
    if moves == [] then []
    else
      var rest := History(Moved(w, moves[0]), moves[1..]);
      if moves[0].Access? then
        [Event(moves[0].op, Do(SlotOf(w, moves[0].c), w.stored, moves[0].op).2)] + rest
      else rest
  }

  /** The content of the variable after an answered call. */
  function Updated(v: Ec.Content, e: Event): Ec.Content {
    if e.op.Put? && e.answer.Done? then Ec.Present(e.op.data)
    else if e.op.Remove? && e.answer.Done? then Ec.Gone
    else v
  }

  /** The answers a variable with content v may give; after a removal none is promised. */
  predicate Allowed(v: Ec.Content, e: Event) {
    v.Present? ==>
      match e.op
      case Get(_) => e.answer == Data(v.data)
      case GetAttr(_) => e.answer.Size?
      case Put(_, _) => e.answer == Done
      case Remove(_) => e.answer == Done
      case Flush => true
  }

  function Final(v: Ec.Content, es: seq<Event>): Ec.Content
    decreases |es|
  {
    if es == [] then v else Final(Updated(v, es[0]), es[1..])
  }

  predicate Legal(v: Ec.Content, es: seq<Event>)
    decreases |es|
  {
    es == [] || (Allowed(v, es[0]) && Legal(Updated(v, es[0]), es[1..]))
  }

  // ----- the invariant --------------------------------------------------------------------

  /** The client has the lock and has not flushed for it yet. */
  predicate Possesses(cl: Client) {
    cl.record.status.FREE? || Inside in cl.crew || Flushing in cl.crew
  }

  predicate Has(w: Shared, c: ClientId) {
    Possesses(ClientOf(w.sys, c))
  }

  /** At most the attributes are cached. */
  predicate Bare(slot: Ec.Slot) {
    slot.Some? ==> slot.value.state == Ec.NONE
  }

  ghost predicate Unowned(w: Shared) {
    forall c :: !Has(w, c)
  }

  /** The client in possession sees the variable; the others have cached nothing but
      attributes; without anybody in possession the server has the variable. */
  ghost predicate Coherent(w: Shared, v: Ec.Content) {
    && Inv(w.sys)
    && (forall c :: Has(w, c) && v.Present? ==>
          Ec.View(SlotOf(w, c), w.stored) == v && Ec.Clean(SlotOf(w, c), w.stored))
    && (forall c :: !Has(w, c) ==> Bare(SlotOf(w, c)))
    && (Unowned(w) && v.Present? ==> Ec.ContentOf(w.stored) == v)
  }

  /** One extent call keeps the view of the client that makes it in step. */
  lemma DoIsAllowed(slot: Ec.Slot, stored: Ec.Stored, op: Op, v: Ec.Content)
    requires v.Present? ==> Ec.View(slot, stored) == v && Ec.Clean(slot, stored)
    ensures var (slot', stored', answer) := Do(slot, stored, op);
            var e := Event(op, answer);
            && Allowed(v, e)
            && (Updated(v, e).Present? ==> Ec.View(slot', stored') == Updated(v, e) && Ec.Clean(slot', stored'))
  {
  }

  lemma OneOwner(w: Shared, c: ClientId, d: ClientId)
    requires Inv(w.sys) && Has(w, c) && Has(w, d)
    ensures c == d
  {
    Holding(w, c);
    Holding(w, d);
  }

  predicate HasAt(st: Stage) {
    st == Cached || st == Working || st == Finishing || st == Writing
  }

  lemma HasFits(cl: Client, v: View, st: Stage)
    requires FitsAt(cl, v, st)
    ensures (Possesses(cl) <==> HasAt(st)) && (HasAt(st) ==> v.holds)
  {
  }

  lemma Holding(w: Shared, c: ClientId)
    requires Inv(w.sys) && Has(w, c)
    ensures c != NoClient && w.sys.server.holder == c
  {
    if c != NoClient {
      var st := SomeStage(w.sys, c);
      HasFits(ClientOf(w.sys, c), ViewOf(w.sys.server, c), st);
    }
  }

  /** Possession begins with a grant and ends when the release call goes out. */
  lemma Possession(cl: Client, v: View, st: Stage, a: Action)
    requires FitsAt(cl, v, st) && CanAct(cl, a)
    ensures a == TakeGrant ==> !Possesses(cl) && Possesses(Act(cl, a)) && v.holds
    ensures a == SendRelease ==> Possesses(cl) && !Possesses(Act(cl, a))
    ensures a != TakeGrant && a != SendRelease ==> Possesses(Act(cl, a)) == Possesses(cl)
  {
    var st' := ActFits(cl, v, st, a);
    HasFits(cl, v, st);
    HasFits(Act(cl, a), v, st');
  }

  lemma ServingKeepsHas(s: System, c: ClientId, d: ClientId)
    requires Srv.WellFormed(s.server)
    ensures Acquire in ClientOf(s, c).mail ==> Possesses(ClientOf(ServedAcquire(s, c), d)) == Possesses(ClientOf(s, d))
    ensures Release in ClientOf(s, c).mail ==> Possesses(ClientOf(ServedRelease(s, c), d)) == Possesses(ClientOf(s, d))
  {
    if Acquire in ClientOf(s, c).mail { AfterAcquire(s, c, d); }
    if Release in ClientOf(s, c).mail { AfterRelease(s, c, d); }
  }

  /** Whatever the rest of the world is, moving possession nowhere keeps coherence. */
  lemma SameHands(w: Shared, w': Shared, v: Ec.Content)
    requires Coherent(w, v) && Inv(w'.sys) && w'.slots == w.slots && w'.stored == w.stored
    requires forall c :: Has(w', c) == Has(w, c)
    ensures Coherent(w', v)
  {
    forall c ensures SlotOf(w', c) == SlotOf(w, c) { }
    if !Unowned(w) {
      var c :| Has(w, c);
      assert Has(w', c);
    }
  }

  function Acting(w: Shared, c: ClientId, a: Action): Shared
    requires CanAct(ClientOf(w.sys, c), a)
  {
    w.(sys := With(w.sys, c, Act(ClientOf(w.sys, c), a)))
  }

  lemma ActedHas(w: Shared, c: ClientId, a: Action)
    requires Inv(w.sys) && c != NoClient && CanAct(ClientOf(w.sys, c), a)
    ensures forall d :: d != c ==> Has(Acting(w, c, a), d) == Has(w, d)
    ensures a == TakeGrant ==> w.sys.server.holder == c && !Has(w, c) && Has(Acting(w, c, a), c)
    ensures a == SendRelease ==> Has(w, c) && !Has(Acting(w, c, a), c)
    ensures a != TakeGrant && a != SendRelease ==> Has(Acting(w, c, a), c) == Has(w, c)
  {
    var st := SomeStage(w.sys, c);
    Possession(ClientOf(w.sys, c), ViewOf(w.sys.server, c), st, a);
    assert ClientOf(Acting(w, c, a).sys, c) == Act(ClientOf(w.sys, c), a);
  }

  lemma GrantedHas(w: Shared, c: ClientId)
    requires Inv(w.sys) && c != NoClient && CanAct(ClientOf(w.sys, c), TakeGrant)
    ensures Unowned(w)
  {
    ActedHas(w, c, TakeGrant);
    forall d ensures !Has(w, d) {
      if Has(w, d) { Holding(w, d); }
    }
  }

  lemma SentHas(w: Shared, c: ClientId)
    requires Inv(w.sys) && c != NoClient && CanAct(ClientOf(w.sys, c), SendRelease)
    ensures Has(w, c) && Unowned(Acting(w, c, SendRelease))
  {
    ActedHas(w, c, SendRelease);
    forall d ensures !Has(Acting(w, c, SendRelease), d) {
      if d != c && Has(w, d) { OneOwner(w, c, d); }
    }
  }

  lemma ProtocolKeeps(w: Shared, step: Step, v: Ec.Content)
    requires Coherent(w, v) && CanMove(w, Protocol(step))
    ensures Coherent(Moved(w, Protocol(step)), v)
  {
    StepInv(w.sys, step);
    match step
    case AtClient(c, a) =>
      ActedHas(w, c, a);
      if a == TakeGrant {
        GrantKeeps(w, c, v);
      } else if a == SendRelease {
        FlushKeeps(w, c, v);
      } else {
        SameHands(w, Moved(w, Protocol(step)), v);
      }
    case ServeAcquire(c) =>
      forall d ensures Has(w.(sys := ServedAcquire(w.sys, c)), d) == Has(w, d) { ServingKeepsHas(w.sys, c, d); }
      SameHands(w, Moved(w, Protocol(step)), v);
    case ServeRelease(c) =>
      forall d ensures Has(w.(sys := ServedRelease(w.sys, c)), d) == Has(w, d) { ServingKeepsHas(w.sys, c, d); }
      SameHands(w, Moved(w, Protocol(step)), v);
  }

  /** The new owner has cached nothing but attributes, and the server is up to date. */
  lemma GrantKeeps(w: Shared, c: ClientId, v: Ec.Content)
    requires Coherent(w, v) && CanMove(w, Protocol(AtClient(c, TakeGrant)))
    requires Inv(Moved(w, Protocol(AtClient(c, TakeGrant))).sys)
    ensures Coherent(Moved(w, Protocol(AtClient(c, TakeGrant))), v)
  {
    var w' := Moved(w, Protocol(AtClient(c, TakeGrant)));
    ActedHas(w, c, TakeGrant);
    GrantedHas(w, c);
    forall d ensures SlotOf(w', d) == SlotOf(w, d) && (Has(w', d) ==> d == c) { }
  }

  lemma FlushTakes(w: Shared, c: ClientId, d: ClientId)
    ensures SlotOf(After(w, c, Flush), d) == if d == c then None else SlotOf(w, d)
    ensures After(w, c, Flush).stored == Ec.Flush(SlotOf(w, c), w.stored).0
  {
  }

  /** The flush leaves the server with what the owner saw. */
  lemma FlushKeeps(w: Shared, c: ClientId, v: Ec.Content)
    requires Coherent(w, v) && CanMove(w, Protocol(AtClient(c, SendRelease)))
    requires Inv(Moved(w, Protocol(AtClient(c, SendRelease))).sys)
    ensures Coherent(Moved(w, Protocol(AtClient(c, SendRelease))), v)
  {
    var w' := Moved(w, Protocol(AtClient(c, SendRelease)));
    SentHas(w, c);
    if v.Present? {
      Ec.FlushKeepsView(SlotOf(w, c), w.stored);
    }
    forall d ensures SlotOf(w', d) == (if d == c then None else SlotOf(w, d)) && !Has(w', d) {
      FlushTakes(w, c, d);
      assert !Has(Acting(w, c, SendRelease), d);
    }
  }

  lemma ProbeSees(slot: Ec.Slot, stored: Ec.Stored, noise: Bytes)
    ensures var slot' := Ec.GetAttr(slot, stored, noise).0;
            && Ec.View(slot', stored) == Ec.View(slot, stored)
            && (Ec.Clean(slot, stored) ==> Ec.Clean(slot', stored)) && (Bare(slot) ==> Bare(slot'))
  {
  }

  lemma ProbeKeeps(w: Shared, c: ClientId, noise: Bytes, v: Ec.Content)
    requires Coherent(w, v) && c != NoClient
    ensures Coherent(Moved(w, Probe(c, noise)), v)
  {
    var w' := Moved(w, Probe(c, noise));
    ProbeSees(SlotOf(w, c), w.stored, noise);
    forall d
      ensures SlotOf(w', d) == if d == c then Ec.GetAttr(SlotOf(w, c), w.stored, noise).0 else SlotOf(w, d)
      ensures Has(w', d) == Has(w, d)
    {
    }
    assert Unowned(w') ==> Unowned(w);
  }

  lemma AccessKeeps(w: Shared, c: ClientId, op: Op, v: Ec.Content)
    requires Coherent(w, v) && CanMove(w, Access(c, op))
    ensures var e := Event(op, Do(SlotOf(w, c), w.stored, op).2);
            Allowed(v, e) && Coherent(Moved(w, Access(c, op)), Updated(v, e))
  {
    var w' := Moved(w, Access(c, op));
    var (slot', stored', answer) := Do(SlotOf(w, c), w.stored, op);
    DoIsAllowed(SlotOf(w, c), w.stored, op, v);
    assert Has(w, c) && Has(w', c);
    forall d
      ensures SlotOf(w', d) == if d == c then slot' else SlotOf(w, d)
      ensures (Has(w', d) ==> d == c) && Has(w', d) == Has(w, d)
    {
      if Has(w, d) { OneOwner(w, c, d); }
    }
  }

  lemma MoveKeeps(w: Shared, m: Move, v: Ec.Content)
    requires Coherent(w, v) && CanMove(w, m)
    ensures var w' := Moved(w, m);
            match m
            case Access(c, op) =>
              var e := Event(op, Do(SlotOf(w, c), w.stored, op).2);
              Allowed(v, e) && Coherent(w', Updated(v, e))
            case _ => Coherent(w', v)
  {
    match m
    case Protocol(step) => ProtocolKeeps(w, step, v);
    case Access(c, op) => AccessKeeps(w, c, op, v);
    case Probe(c, noise) => ProbeKeeps(w, c, noise, v);
  }

  // ----- coherence over whole runs -----------------------------------------------------------

  /** Nobody has started; the caches are empty. */
  ghost predicate Initial(w: Shared, v: Ec.Content) {
    w.sys == INITIAL && w.slots == map[] && Ec.ContentOf(w.stored) == v
  }

  /** Every run is a history of one shared variable: whatever clients, threads, calls and
      attribute probes interleave, each access made inside the lock is answered as if
      there were no caches. */
  lemma {:induction false} CoherentRuns(w: Shared, moves: seq<Move>, v: Ec.Content)
    requires Coherent(w, v) && Run(w, moves)
    ensures Legal(v, History(w, moves))
    ensures Coherent(End(w, moves), Final(v, History(w, moves)))
    decreases |moves|
  {
    if moves != [] {
      var m := moves[0];
      MoveKeeps(w, m, v);
      if m.Access? {
        var e := Event(m.op, Do(SlotOf(w, m.c), w.stored, m.op).2);
        CoherentRuns(Moved(w, m), moves[1..], Updated(v, e));
        assert History(w, moves)[0] == e;
        assert History(w, moves)[1..] == History(Moved(w, m), moves[1..]);
      } else {
        CoherentRuns(Moved(w, m), moves[1..], v);
      }
    }
  }

  lemma Coherence(w: Shared, moves: seq<Move>, v: Ec.Content)
    requires Initial(w, v) && Run(w, moves)
    ensures Legal(v, History(w, moves))
    ensures Coherent(End(w, moves), Final(v, History(w, moves)))
  {
    InitialInv();
    CoherentRuns(w, moves, v);
  }

  /** In particular a get is answered with the data of the latest put, by whichever
      client, unless a remove came after it. */
  lemma {:induction false} LatestPut(v: Ec.Content, es: seq<Event>, i: nat, j: nat)
    requires Legal(v, es) && i < j < |es|
    requires es[i].op.Put? && es[i].answer == Done && es[j].op.Get?
    requires forall k :: i < k < j ==> !es[k].op.Put? && !es[k].op.Remove?
    ensures es[j].answer == Data(es[i].op.data)
    decreases i
  {
    if i > 0 {
      LatestPut(Updated(v, es[0]), es[1..], i - 1, j - 1);
    } else {
      Unchanged(Updated(v, es[0]), es[1..], j - 1);
    }
  }

  lemma {:induction false} Unchanged(v: Ec.Content, es: seq<Event>, j: nat)
    requires Legal(v, es) && j < |es| && v.Present? && es[j].op.Get?
    requires forall k :: 0 <= k < j ==> !es[k].op.Put? && !es[k].op.Remove?
    ensures es[j].answer == Data(v.data)
    decreases j
  {
    if j > 0 {
      Unchanged(Updated(v, es[0]), es[1..], j - 1);
    }
  }

  // ----- attribute sizes ------------------------------------------------------------------

  /** The same variable, whose length getattr answers as well. */
  predicate AllowedExactly(v: Ec.Content, e: Event) {
    Allowed(v, e) && (v.Present? && e.op.GetAttr? ==> e.answer == Size(|v.data|))
  }

  predicate LegalExactly(v: Ec.Content, es: seq<Event>)
    decreases |es|
  {
    es == [] || (AllowedExactly(v, es[0]) && LegalExactly(Updated(v, es[0]), es[1..]))
  }

  /** Only the client in possession caches anything, and its sizes are right. */
  ghost predicate Tight(w: Shared) {
    forall c :: if Has(w, c) then Ec.Sized(SlotOf(w, c), w.stored) else SlotOf(w, c) == None
  }

  lemma TightMove(w: Shared, m: Move)
    requires Inv(w.sys) && Tight(w) && CanMove(w, m) && !m.Probe?
    ensures Tight(Moved(w, m))
  {
    match m
    case Protocol(step) => TightProtocol(w, step);
    case Access(c, op) =>
      var w' := Moved(w, m);
      assert Has(w, c) && Has(w', c);
      forall d ensures if Has(w', d) then Ec.Sized(SlotOf(w', d), w'.stored) else SlotOf(w', d) == None {
        assert Has(w', d) == Has(w, d);
        if d != c && Has(w, d) { OneOwner(w, c, d); }
      }
  }

  lemma TightActing(w: Shared, c: ClientId, a: Action)
    requires Inv(w.sys) && Tight(w) && c != NoClient && CanAct(ClientOf(w.sys, c), a) && a != SendRelease
    ensures Tight(Acting(w, c, a))
  {
    ActedHas(w, c, a);
    forall d ensures if Has(Acting(w, c, a), d) then Ec.Sized(SlotOf(w, d), w.stored) else SlotOf(w, d) == None {
      assert d != c ==> Has(Acting(w, c, a), d) == Has(w, d);
    }
  }

  lemma TightSending(w: Shared, c: ClientId)
    requires Inv(w.sys) && Tight(w) && CanMove(w, Protocol(AtClient(c, SendRelease)))
    ensures Tight(Moved(w, Protocol(AtClient(c, SendRelease))))
  {
    var w' := Moved(w, Protocol(AtClient(c, SendRelease)));
    SentHas(w, c);
    forall d ensures !Has(w', d) && SlotOf(w', d) == None {
      assert !Has(Acting(w, c, SendRelease), d);
      if d != c && Has(w, d) { OneOwner(w, c, d); }
    }
  }

  lemma TightProtocol(w: Shared, step: Step)
    requires Inv(w.sys) && Tight(w) && CanMove(w, Protocol(step))
    ensures Tight(Moved(w, Protocol(step)))
  {
    match step
    case AtClient(c, a) =>
      if a == SendRelease { TightSending(w, c); } else { TightActing(w, c, a); }
    case ServeAcquire(c) =>
      forall d ensures Has(w.(sys := ServedAcquire(w.sys, c)), d) == Has(w, d) { ServingKeepsHas(w.sys, c, d); }
    case ServeRelease(c) =>
      forall d ensures Has(w.(sys := ServedRelease(w.sys, c)), d) == Has(w, d) { ServingKeepsHas(w.sys, c, d); }
  }

  /** Without attribute probes outside the lock, sizes are coherent too. */
  lemma {:induction false} CoherentSizes(w: Shared, moves: seq<Move>, v: Ec.Content)
    requires Coherent(w, v) && Tight(w) && Run(w, moves)
    requires forall m :: m in moves ==> !m.Probe?
    ensures LegalExactly(v, History(w, moves))
    decreases |moves|
  {
    if moves != [] {
      var m := moves[0];
      MoveKeeps(w, m, v);
      TightMove(w, m);
      if m.Access? {
        var e := Event(m.op, Do(SlotOf(w, m.c), w.stored, m.op).2);
        assert Has(w, m.c);
        CoherentSizes(Moved(w, m), moves[1..], Updated(v, e));
        assert History(w, moves)[0] == e;
        assert History(w, moves)[1..] == History(Moved(w, m), moves[1..]);
      } else {
        CoherentSizes(Moved(w, m), moves[1..], v);
      }
    }
  }

  /** Move m gives c's entry up: a flush, by itself or before the release call. */
  predicate GivesUp(m: Move, c: ClientId) {
    m == Protocol(AtClient(c, SendRelease)) || (m.Access? && m.c == c && m.op.Flush?)
  }

  /** c gets or puts the data. */
  predicate Handles(m: Move, c: ClientId) {
    m.Access? && m.c == c && (m.op.Get? || m.op.Put?)
  }

  /** An entry with data and its size, or of a removed extent. */
  predicate Knows(slot: Ec.Slot) {
    && slot.Some? && slot.value.state != Ec.NONE
    && (slot.value.state != Ec.REMOVED ==> slot.value.attr.size == |slot.value.data|)
  }

  predicate OnlySize(slot: Ec.Slot) {
    slot.Some? && slot.value.state == Ec.NONE
  }

  /** Handling the data makes the size known; nothing else changes an entry of attributes but
      removing the extent. */
  lemma EntryMoves(w: Shared, m: Move, c: ClientId)
    requires CanMove(w, m) && !GivesUp(m, c) && (OnlySize(SlotOf(w, c)) || Knows(SlotOf(w, c)))
    ensures Handles(m, c) || Knows(SlotOf(w, c)) ==> Knows(SlotOf(Moved(w, m), c))
    ensures !Handles(m, c) && OnlySize(SlotOf(w, c)) ==>
              SlotOf(Moved(w, m), c) == SlotOf(w, c)
              || (m.Access? && m.c == c && Knows(SlotOf(Moved(w, m), c))
                 && SlotOf(Moved(w, m), c).value.state == Ec.REMOVED)
  {
    if m.Access? && m.c == c {
      assert SlotOf(Moved(w, m), c) == Do(SlotOf(w, c), w.stored, m.op).0;
    } else if m.Probe? && m.c == c {
      assert SlotOf(Moved(w, m), c) == SlotOf(w, c);
    } else {
      assert SlotOf(Moved(w, m), c) == SlotOf(w, c);
    }
  }

  lemma {:induction false} KnowsStays(w: Shared, moves: seq<Move>, c: ClientId)
    requires Run(w, moves) && Knows(SlotOf(w, c)) && forall m :: m in moves ==> !GivesUp(m, c)
    ensures Knows(SlotOf(End(w, moves), c))
    decreases |moves|
  {
    if moves != [] {
      EntryMoves(w, moves[0], c);
      KnowsStays(Moved(w, moves[0]), moves[1..], c);
    }
  }

  lemma {:induction false} RemovedEntry(w: Shared, moves: seq<Move>, c: ClientId)
    requires Run(w, moves) && SlotOf(w, c).Some? && SlotOf(w, c).value.state == Ec.REMOVED
    requires forall m :: m in moves ==> !GivesUp(m, c)
    ensures SlotOf(End(w, moves), c).Some? && SlotOf(End(w, moves), c).value.state == Ec.REMOVED
    decreases |moves|
  {
    if moves != [] {
      EntryMoves(w, moves[0], c);
      RemovedMove(w, moves[0], c);
      RemovedEntry(Moved(w, moves[0]), moves[1..], c);
    }
  }

  lemma RemovedMove(w: Shared, m: Move, c: ClientId)
    requires CanMove(w, m) && !GivesUp(m, c) && SlotOf(w, c).Some? && SlotOf(w, c).value.state == Ec.REMOVED
    ensures SlotOf(Moved(w, m), c) == SlotOf(w, c)
  {
    if m.Access? && m.c == c {
      assert SlotOf(Moved(w, m), c) == Do(SlotOf(w, c), w.stored, m.op).0;
    }
  }

  /** What becomes of c's attributes while c does not give the entry up: they stay until c
      handles the data or removes the extent. */
  lemma {:induction false} EntryStays(w: Shared, moves: seq<Move>, c: ClientId)
    requires Run(w, moves) && OnlySize(SlotOf(w, c)) && forall m :: m in moves ==> !GivesUp(m, c)
    ensures var slot := SlotOf(End(w, moves), c);
            && (slot == SlotOf(w, c) || Knows(slot))
            && ((exists m :: m in moves && Handles(m, c)) ==> Knows(slot))
            && ((forall m :: m in moves ==> !Handles(m, c)) && slot != SlotOf(w, c) ==> slot.value.state == Ec.REMOVED)
            && ((forall m :: m in moves ==> !(m.Access? && m.c == c)) ==> slot == SlotOf(w, c))
    decreases |moves|
  {
    if moves != [] {
      var m, w1 := moves[0], Moved(w, moves[0]);
      EntryMoves(w, m, c);
      if Knows(SlotOf(w1, c)) {
        KnowsStays(w1, moves[1..], c);
        if SlotOf(w1, c).value.state == Ec.REMOVED {
          RemovedEntry(w1, moves[1..], c);
        }
      } else {
        EntryStays(w1, moves[1..], c);
        assert forall x :: x in moves ==> x == m || x in moves[1..];
      }
    }
  }

  /** With probes the promise fails.  c probes an extent it has nothing of, and later, inside
      the lock, asks for the attributes, not having given its entry up in between.  The
      answer is right exactly if c has gotten or put the data by then, or else the data
      that the server had at the probe is as long as the data is now.  The server's data is
      the variable's when nobody is in possession; with an owner who has not flushed it
      need not be, and then the answer can be wrong though nothing changed after the
      probe. */
  lemma ProbedSizeStays(w: Shared, moves: seq<Move>, v: Ec.Content, c: ClientId, probe: Bytes, noise: Bytes)
    requires Coherent(w, v) && c != NoClient && SlotOf(w, c) == None && Run(w, [Probe(c, probe)] + moves)
    requires forall m :: m in moves ==> !GivesUp(m, c)
    requires Final(v, History(w, [Probe(c, probe)] + moves)).Present?
    requires Has(End(w, [Probe(c, probe)] + moves), c) || forall m :: m in moves ==> !(m.Access? && m.c == c)
    ensures var w', v' := End(w, [Probe(c, probe)] + moves), Final(v, History(w, [Probe(c, probe)] + moves));
            var answer := Do(SlotOf(w', c), w'.stored, GetAttr(noise)).2;
            AllowedExactly(v', Event(GetAttr(noise), answer))
            <==> (exists m :: m in moves && Handles(m, c)) || |Ec.Fetched(w.stored, probe)| == |v'.data|
    ensures Unowned(w) && v.Present? ==> Ec.Fetched(w.stored, probe) == v.data
  {
    var m, whole := Probe(c, probe), [Probe(c, probe)] + moves;
    assert whole[0] == m && whole[1..] == moves;
    CoherentRuns(w, whole, v);
    EntryStays(Moved(w, m), moves, c);
    AnswersSize(End(w, whole), Final(v, History(w, whole)), c, noise);
  }

  /** What a client is told: the size in its entry. */
  lemma AnswersSize(w: Shared, v: Ec.Content, c: ClientId, noise: Bytes)
    requires Coherent(w, v) && v.Present? && (OnlySize(SlotOf(w, c)) || (Has(w, c) && Knows(SlotOf(w, c))))
    ensures SlotOf(w, c).value.state != Ec.REMOVED
    ensures AllowedExactly(v, Event(GetAttr(noise), Do(SlotOf(w, c), w.stored, GetAttr(noise)).2))
            <==> Knows(SlotOf(w, c)) || SlotOf(w, c).value.attr.size == |v.data|
  {
  }

  lemma Cons(w: Shared, m: Move, rest: seq<Move>)
    requires CanMove(w, m) && Run(Moved(w, m), rest)
    ensures Run(w, [m] + rest) && End(w, [m] + rest) == End(Moved(w, m), rest)
    ensures History(w, [m] + rest)
            == (if m.Access? then [Event(m.op, Do(SlotOf(w, m.c), w.stored, m.op).2)] else [])
               + History(Moved(w, m), rest)
  {
    assert ([m] + rest)[0] == m && ([m] + rest)[1..] == rest;
  }

  // ----- all extents together -----------------------------------------------------------------

  /** Entries, locks and calls of different numbers do not meet. */
  type World = Number -> Shared

  /** Numbers the extent server keeps apart. */
  type Number = n: LockId | n < 0x8000_0000

  datatype WorldMove = WorldMove(lid: Number, move: Move)

  ghost function WorldMoved(world: World, m: WorldMove): World
    requires CanMove(world(m.lid), m.move)
  {
    var w := Moved(world(m.lid), m.move);
    (l: Number) => if l == m.lid then w else world(l)
  }

  ghost predicate WorldRun(world: World, moves: seq<WorldMove>)
    decreases |moves|
  {
    moves != [] ==> CanMove(world(moves[0].lid), moves[0].move) && WorldRun(WorldMoved(world, moves[0]), moves[1..])
  }

  function Concerning(moves: seq<WorldMove>, lid: Number): seq<Move> {
    if moves == [] then []
    else if moves[0].lid == lid then [moves[0].move] + Concerning(moves[1..], lid)
    else Concerning(moves[1..], lid)
  }

  lemma {:induction false} Project(world: World, moves: seq<WorldMove>, lid: Number)
    requires WorldRun(world, moves)
    ensures Run(world(lid), Concerning(moves, lid))
    decreases |moves|
  {
    if moves != [] {
      var m := moves[0];
      Project(WorldMoved(world, m), moves[1..], lid);
      if m.lid == lid {
        Cons(world(lid), m.move, Concerning(moves[1..], lid));
      }
    }
  }

  /** End to end: however the calls of all clients on all extents interleave, the accesses
      made to an extent under its lock are answered like those to one shared variable. */
  lemma EveryExtentCoherent(world: World, moves: seq<WorldMove>, lid: Number, v: Ec.Content)
    requires WorldRun(world, moves) && Initial(world(lid), v)
    ensures Run(world(lid), Concerning(moves, lid))
    ensures Legal(v, History(world(lid), Concerning(moves, lid)))
  {
    Project(world, moves, lid);
    Coherence(world(lid), Concerning(moves, lid), v);
  }
}
