// What a LockGuard gives the file system operations: from acquire to release, no other
// client touches the extent, so that reading, changing and putting back is one change.

module Atomicity {
  import opened Bytes
  import opened LockTypes
  import opened LockSystem
  import opened Coherence
  import Ec = ExtentCache

  // ----- runs in parts -----------------------------------------------------------------------

  lemma {:induction false} RunParts(w: Shared, a: seq<Move>, b: seq<Move>)
    requires Run(w, a + b)
    ensures Run(w, a) && Run(End(w, a), b)
    ensures End(w, a + b) == End(End(w, a), b)
    decreases |a|
  {
    if a == [] {
      assert a + b == b;
    } else {
      assert (a + b)[0] == a[0] && (a + b)[1..] == a[1..] + b;
      RunParts(Moved(w, a[0]), a[1..], b);
    }
  }

  lemma {:induction false} HistoryParts(w: Shared, a: seq<Move>, b: seq<Move>)
    requires Run(w, a + b) && Run(w, a) && Run(End(w, a), b)
    ensures History(w, a + b) == History(w, a) + History(End(w, a), b)
    decreases |a|
  {
    if a == [] {
      assert a + b == b;
    } else {
      assert (a + b)[0] == a[0] && (a + b)[1..] == a[1..] + b;
      RunParts(Moved(w, a[0]), a[1..], b);
      HistoryParts(Moved(w, a[0]), a[1..], b);
    }
  }

  lemma {:induction false} FinalParts(v: Ec.Content, a: seq<Event>, b: seq<Event>)
    ensures Final(v, a + b) == Final(Final(v, a), b)
    decreases |a|
  {
    if a == [] {
      assert a + b == b;
    } else {
      assert (a + b)[0] == a[0] && (a + b)[1..] == a[1..] + b;
      FinalParts(Updated(v, a[0]), a[1..], b);
    }
  }

  // ----- a thread inside ------------------------------------------------------------------------

  predicate IsInside(w: Shared, c: ClientId) {
    c != NoClient && Inside in ClientOf(w.sys, c).crew
  }

  predicate Leaves(m: Move, c: ClientId) {
    m == Protocol(AtClient(c, Leave))
  }

  lemma ActStaysInside(cl: Client, a: Action)
    requires CanAct(cl, a) && a != Leave && Inside in cl.crew
    ensures Inside in Act(cl, a).crew
  {
    match a
    case Enter =>
    case Recheck =>
    case TakeGrant =>
    case TakeRefusal =>
    case RetryCheck =>
    case SendRelease =>
    case TakeReleased =>
    case TakeRevoke =>
    case TakeRetry =>
    case Spurious =>
    case SpuriousRetry =>
  }

  lemma ServedCrew(s: System, c: ClientId, d: ClientId)
    requires Enabled(s, ServeAcquire(c)) || Enabled(s, ServeRelease(c))
    ensures Enabled(s, ServeAcquire(c)) ==> ClientOf(ServedAcquire(s, c), d).crew == ClientOf(s, d).crew
    ensures Enabled(s, ServeRelease(c)) ==> ClientOf(ServedRelease(s, c), d).crew == ClientOf(s, d).crew
  {
    if Enabled(s, ServeAcquire(c)) { AfterAcquire(s, c, d); }
    if Enabled(s, ServeRelease(c)) { AfterRelease(s, c, d); }
  }

  /** Only its own release takes a thread out; while it is inside, only its client has
      access. */
  lemma MoveInside(w: Shared, m: Move, c: ClientId)
    requires Inv(w.sys) && CanMove(w, m) && IsInside(w, c) && !Leaves(m, c)
    ensures Inv(Moved(w, m).sys) && IsInside(Moved(w, m), c)
    ensures m.Access? ==> m.c == c
  {
    match m
    case Protocol(step) =>
      StepInv(w.sys, step);
      match step {
        case AtClient(d, a) => if d == c { ActStaysInside(ClientOf(w.sys, c), a); }
        case ServeAcquire(d) => ServedCrew(w.sys, d, c);
        case ServeRelease(d) => ServedCrew(w.sys, d, c);
      }
    case Access(d, op) =>
      assert Has(w, c) && Has(w, d);
      OneOwner(w, c, d);
    case Probe(d, noise) =>
  }

  lemma {:induction false} GuardExcludes(w: Shared, moves: seq<Move>, c: ClientId)
    requires Inv(w.sys) && Run(w, moves) && IsInside(w, c)
    requires forall m :: m in moves ==> !Leaves(m, c)
    ensures Inv(End(w, moves).sys) && IsInside(End(w, moves), c)
    ensures forall m :: m in moves && m.Access? ==> m.c == c
    decreases |moves|
  {
    if moves != [] {
      MoveInside(w, moves[0], c);
      GuardExcludes(Moved(w, moves[0]), moves[1..], c);
    }
  }

  // ----- read, change, put back -----------------------------------------------------------------

  predicate Changes(m: Move) {
    m.Access? && (m.op.Put? || m.op.Remove?)
  }

  lemma {:induction false} NothingChanges(w: Shared, moves: seq<Move>, v: Ec.Content)
    requires Run(w, moves) && forall m :: m in moves ==> !Changes(m)
    ensures Final(v, History(w, moves)) == v
    decreases |moves|
  {
    if moves != [] {
      var m := moves[0];
      NothingChanges(Moved(w, m), moves[1..], v);
      if m.Access? {
        assert m in moves && !Changes(m);
        var e := Event(m.op, Do(SlotOf(w, m.c), w.stored, m.op).2);
        assert History(w, moves) == [e] + History(Moved(w, m), moves[1..]);
        assert Updated(v, e) == v && ([e] + History(Moved(w, m), moves[1..]))[1..] == History(Moved(w, m), moves[1..]);
      }
    }
  }

  predicate ChangesBy(m: Move, c: ClientId) {
    Changes(m) && m.c == c
  }

  /** A change to the extent as the operations make it: client c, inside the lock, gets the
      data, does not leave while others do what they will, and puts back what it made of
      the data. */
  datatype Update = Update(c: ClientId, noise: Bytes, between: seq<Move>, change: Bytes -> Bytes, junk: nat)

  /** What the get is answered; nothing when the extent is gone. */
  ghost function Gotten(w: Shared, u: Update): Bytes {
    var answer := Do(SlotOf(w, u.c), w.stored, Get(u.noise)).2;
    if answer.Data? then answer.data else []
  }

  ghost function Middle(w: Shared, u: Update): seq<Move> {
    [Access(u.c, Get(u.noise))] + u.between
  }

  /** From w, the state at the get. */
  ghost function GetAndPut(w: Shared, u: Update): seq<Move> {
    Middle(w, u) + [Access(u.c, Put(u.change(Gotten(w, u)), u.junk))]
  }

  /** Nobody else is asked to hold back: between get and put only c itself must not
      leave or change the extent. */
  predicate Guarded(u: Update) {
    forall m :: m in u.between ==> !Leaves(m, u.c) && !ChangesBy(m, u.c)
  }

  /** Whatever other clients do meanwhile, what is put back replaces what was gotten. */
  lemma NoLostUpdate(w: Shared, u: Update, v: Ec.Content)
    requires Coherent(w, v) && v.Present? && Run(w, GetAndPut(w, u))
    requires Guarded(u)
    ensures Gotten(w, u) == v.data
    ensures Final(v, History(w, GetAndPut(w, u))) == Ec.Present(u.change(v.data))
    ensures Coherent(End(w, GetAndPut(w, u)), Ec.Present(u.change(v.data)))
  {
    var get, put := Access(u.c, Get(u.noise)), Access(u.c, Put(u.change(Gotten(w, u)), u.junk));
    var middle := Middle(w, u);
    RunParts(w, middle, [put]);
    HistoryParts(w, middle, [put]);
    RunParts(w, [get], u.between);
    assert CanMove(w, get);
    MoveKeeps(w, get, v);
    assert Moved(w, get) == End(w, [get]);
    assert IsInside(End(w, [get]), u.c);
    GuardExcludes(End(w, [get]), u.between, u.c);
    assert forall m :: m in middle ==> !Changes(m);
    NothingChanges(w, middle, v);
    CoherentRuns(w, middle, v);
    PutLast(End(w, middle), u.c, u.change(v.data), u.junk, v);
    FinalParts(v, History(w, middle), History(End(w, middle), [put]));
  }

  lemma PutLast(w: Shared, c: ClientId, data: Bytes, junk: nat, v: Ec.Content)
    requires Coherent(w, v) && v.Present? && CanMove(w, Access(c, Put(data, junk)))
    ensures Run(w, [Access(c, Put(data, junk))])
    ensures Final(v, History(w, [Access(c, Put(data, junk))])) == Ec.Present(data)
    ensures Coherent(End(w, [Access(c, Put(data, junk))]), Ec.Present(data))
  {
    var m := Access(c, Put(data, junk));
    MoveKeeps(w, m, v);
    var e := Event(m.op, Do(SlotOf(w, c), w.stored, m.op).2);
    assert Updated(v, e) == Ec.Present(data);
    assert [m][1..] == [];
    assert History(w, [m]) == [e];
  }

  // ----- any number of updates, in any run --------------------------------------------------------

  /** The shared state after the first k moves, and what the next one is answered. */
  ghost function At(w: Shared, moves: seq<Move>, k: nat): Shared
    requires Run(w, moves) && k <= |moves|
  {
    Prefix(w, moves, k);
    End(w, moves[..k])
  }

  lemma Prefix(w: Shared, moves: seq<Move>, k: nat)
    requires Run(w, moves) && k <= |moves|
    ensures Run(w, moves[..k]) && Run(End(w, moves[..k]), moves[k..])
  {
    assert moves == moves[..k] + moves[k..];
    RunParts(w, moves[..k], moves[k..]);
  }

  /** Move k puts back what its client made of the data it got by move i, and in between
      that client neither left the lock nor changed the extent.  The others may have
      done anything. */
  ghost predicate PutsBack(w: Shared, moves: seq<Move>, i: nat, k: nat, change: Bytes -> Bytes)
    requires Run(w, moves) && i < k < |moves|
  {
    && moves[i].Access? && moves[i].op.Get? && moves[k].Access? && moves[k].op.Put? && moves[k].c == moves[i].c
    && Do(SlotOf(At(w, moves, i), moves[i].c), At(w, moves, i).stored, moves[i].op).2.Data?
    && moves[k].op.data == change(Do(SlotOf(At(w, moves, i), moves[i].c), At(w, moves, i).stored, moves[i].op).2.data)
    && forall j :: i < j < k ==> !Leaves(moves[j], moves[i].c) && !ChangesBy(moves[j], moves[i].c)
  }

  /** Every change is an update: move k, if it changes the extent, applies `changes(k)`
      to what its client had read. */
  ghost predicate AllUpdates(w: Shared, moves: seq<Move>, changes: nat -> Bytes -> Bytes)
    requires Run(w, moves)
  {
    forall k :: 0 <= k < |moves| && Changes(moves[k]) ==> exists i :: 0 <= i < k && PutsBack(w, moves, i, k, changes(k))
  }

  /** The changes among the first n moves, one after the other. */
  function Folded(data: Bytes, moves: seq<Move>, changes: nat -> Bytes -> Bytes, n: nat): Bytes
    requires n <= |moves|
  {
    if n == 0 then data
    else
      var before := Folded(data, moves, changes, n - 1);
      if Changes(moves[n - 1]) then changes(n - 1)(before) else before
  }

  lemma {:induction false} FoldedSame(data: Bytes, moves: seq<Move>, changes: nat -> Bytes -> Bytes, i: nat, n: nat)
    requires i <= n <= |moves| && forall j :: i <= j < n ==> !Changes(moves[j])
    ensures Folded(data, moves, changes, n) == Folded(data, moves, changes, i)
  {
    if i < n {
      FoldedSame(data, moves, changes, i, n - 1);
    }
  }

  lemma LastMove(w: Shared, moves: seq<Move>, m: Move)
    requires Run(w, moves + [m])
    ensures Run(w, moves) && CanMove(End(w, moves), m) && End(w, moves + [m]) == Moved(End(w, moves), m)
  {
    RunParts(w, moves, [m]);
    assert [m][1..] == [];
  }

  /** One move further along a run. */
  lemma OneFurther(w: Shared, moves: seq<Move>, k: nat)
    requires Run(w, moves) && k < |moves|
    ensures CanMove(At(w, moves, k), moves[k]) && At(w, moves, k + 1) == Moved(At(w, moves, k), moves[k])
  {
    Prefix(w, moves, k + 1);
    assert moves[..k + 1] == moves[..k] + [moves[k]];
    LastMove(w, moves[..k], moves[k]);
  }

  /** While c is inside from move i on, the accesses up to move k are c's. */
  lemma {:induction false} OnlyMine(w: Shared, moves: seq<Move>, i: nat, k: nat, c: ClientId)
    requires Run(w, moves) && i <= k <= |moves|
    requires Inv(At(w, moves, i).sys) && IsInside(At(w, moves, i), c)
    requires forall j :: i <= j < k ==> !Leaves(moves[j], c)
    ensures Inv(At(w, moves, k).sys) && IsInside(At(w, moves, k), c)
    ensures forall j :: i <= j < k && moves[j].Access? ==> moves[j].c == c
  {
    if i < k {
      OnlyMine(w, moves, i, k - 1, c);
      OneFurther(w, moves, k - 1);
      MoveInside(At(w, moves, k - 1), moves[k - 1], c);
    }
  }

  /** One change on the way: what it replaces is what its client had read. */
  lemma PutsBackFolds(w: Shared, moves: seq<Move>, changes: nat -> Bytes -> Bytes, data: Bytes, i: nat, k: nat)
    requires Run(w, moves) && i < k < |moves| && PutsBack(w, moves, i, k, changes(k))
    requires Coherent(At(w, moves, i), Ec.Present(Folded(data, moves, changes, i)))
    ensures moves[k].op.data == changes(k)(Folded(data, moves, changes, k))
  {
    var get, c := moves[i], moves[i].c;
    var w1 := At(w, moves, i);
    OneFurther(w, moves, i);
    MoveKeeps(w1, get, Ec.Present(Folded(data, moves, changes, i)));
    OnlyMine(w, moves, i, k, c);
    assert forall j :: i < j < k && Changes(moves[j]) ==> ChangesBy(moves[j], c);
    FoldedSame(data, moves, changes, i, k);
  }

  /** What the first k + 1 moves make of the variable. */
  lemma FinalFurther(w: Shared, moves: seq<Move>, k: nat, v: Ec.Content)
    requires Run(w, moves) && k < |moves| && Run(w, moves[..k]) && Run(w, moves[..k + 1])
    ensures var before, m := Final(v, History(w, moves[..k])), moves[k];
            var w1 := At(w, moves, k);
            Final(v, History(w, moves[..k + 1]))
            == if m.Access? then Updated(before, Event(m.op, Do(SlotOf(w1, m.c), w1.stored, m.op).2)) else before
  {
    var m := moves[k];
    assert moves[..k + 1] == moves[..k] + [m];
    RunParts(w, moves[..k], [m]);
    HistoryParts(w, moves[..k], [m]);
    FinalParts(v, History(w, moves[..k]), History(End(w, moves[..k]), [m]));
    OneEvent(End(w, moves[..k]), m, Final(v, History(w, moves[..k])));
  }

  lemma OneEvent(w: Shared, m: Move, v: Ec.Content)
    requires Run(w, [m])
    ensures Final(v, History(w, [m]))
            == if m.Access? then Updated(v, Event(m.op, Do(SlotOf(w, m.c), w.stored, m.op).2)) else v
  {
    assert [m][1..] == [];
    if m.Access? {
      var e := Event(m.op, Do(SlotOf(w, m.c), w.stored, m.op).2);
      assert History(w, [m]) == [e];
      assert [e][1..] == [];
    }
  }

  /** However the clients that update an extent under its lock interleave, the content is
      always that of their updates one after the other, in the order of the puts: no
      update is lost. */
  lemma {:induction false} UpdatesSerialize(w: Shared, moves: seq<Move>, changes: nat -> Bytes -> Bytes, data: Bytes,
      n: nat)
    requires Coherent(w, Ec.Present(data)) && Run(w, moves) && AllUpdates(w, moves, changes) && n <= |moves|
    ensures Run(w, moves[..n])
            && Final(Ec.Present(data), History(w, moves[..n])) == Ec.Present(Folded(data, moves, changes, n))
    ensures Coherent(At(w, moves, n), Ec.Present(Folded(data, moves, changes, n)))
    decreases n
  {
    Prefix(w, moves, n);
    if n == 0 {
      assert moves[..0] == [];
    } else {
      var k := n - 1;
      UpdatesSerialize(w, moves, changes, data, k);
      OneFurther(w, moves, k);
      FinalFurther(w, moves, k, Ec.Present(data));
      MoveKeeps(At(w, moves, k), moves[k], Ec.Present(Folded(data, moves, changes, k)));
      if Changes(moves[k]) {
        var i :| 0 <= i < k && PutsBack(w, moves, i, k, changes(k));
        UpdatesSerialize(w, moves, changes, data, i);
        PutsBackFolds(w, moves, changes, data, i, k);
      }
    }
  }

  /** The same for a whole run. */
  lemma NoUpdateLost(w: Shared, moves: seq<Move>, changes: nat -> Bytes -> Bytes, data: Bytes)
    requires Coherent(w, Ec.Present(data)) && Run(w, moves) && AllUpdates(w, moves, changes)
    ensures Final(Ec.Present(data), History(w, moves)) == Ec.Present(Folded(data, moves, changes, |moves|))
    ensures Coherent(End(w, moves), Ec.Present(Folded(data, moves, changes, |moves|)))
  {
    UpdatesSerialize(w, moves, changes, data, |moves|);
    assert moves[..|moves|] == moves;
  }
}
