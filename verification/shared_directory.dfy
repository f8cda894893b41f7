// Many clients add to and unlink from one directory under its lock: no entry is lost.

module SharedDirectory {
  import opened Bytes
  import opened Directory
  import opened Coherence
  import opened Atomicity
  import Ec = ExtentCache

  /** Each client's update of the text, as addfile and unlink make it. */
  function Rewrites(changes: nat -> Change): nat -> Bytes -> Bytes {
    (k: nat) => (buf: Bytes) => ChangedBytes(buf, changes(k))
  }

  /** What the first n moves make of the list of entries. */
  function Entries(es: seq<Entry>, moves: seq<Move>, changes: nat -> Change, n: nat): seq<Entry>
    requires n <= |moves|
  {
    if n == 0 then es
    else
      var before := Entries(es, moves, changes, n - 1);
      if Changes(moves[n - 1]) then ChangedList(before, changes(n - 1)) else before
  }

  ghost predicate AllPrintable(moves: seq<Move>, changes: nat -> Change) {
    forall k :: 0 <= k < |moves| && Changes(moves[k]) ==> PrintableChange(changes(k))
  }

  lemma {:induction false} FoldedPrints(es: seq<Entry>, moves: seq<Move>, changes: nat -> Change, n: nat)
    requires Printable(es) && AllPrintable(moves, changes) && n <= |moves|
    ensures Folded(Print(es), moves, Rewrites(changes), n) == Print(Entries(es, moves, changes, n))
    ensures Printable(Entries(es, moves, changes, n))
  {
    if n > 0 {
      FoldedPrints(es, moves, changes, n - 1);
      var before := Entries(es, moves, changes, n - 1);
      if Changes(moves[n - 1]) {
        ChangePrints(before, changes(n - 1));
      }
    }
  }

  /** However the clients interleave, the directory's text is the printed list of all their
      changes in the order of the puts, and reads back as it. */
  lemma DirectorySerializes(w: Shared, moves: seq<Move>, changes: nat -> Change, es: seq<Entry>, junk: nat)
    requires Printable(es) && Coherent(w, Ec.Present(Print(es)))
    requires Run(w, moves) && AllUpdates(w, moves, Rewrites(changes)) && AllPrintable(moves, changes)
    ensures var after := Entries(es, moves, changes, |moves|);
            && Coherent(End(w, moves), Ec.Present(Print(after)))
            && Final(Ec.Present(Print(es)), History(w, moves)) == Ec.Present(Print(after))
            && Parse(Print(after), junk) == after
  {
    NoUpdateLost(w, moves, Rewrites(changes), Print(es));
    FoldedPrints(es, moves, changes, |moves|);
    ParsePrint(Entries(es, moves, changes, |moves|), junk);
  }

  /** A name that some client added is found until some client unlinks it, whoever else adds
      and unlinks other names meanwhile. */
  lemma {:induction false} AddedStays(es: seq<Entry>, moves: seq<Move>, changes: nat -> Change, k: nat, n: nat)
    requires k < n <= |moves| && Changes(moves[k]) && changes(k).Add?
    requires forall j :: k < j < n && Changes(moves[j]) ==> changes(j) != Unlink(changes(k).entry.name)
    ensures Lookup(Entries(es, moves, changes, n), changes(k).entry.name).Some?
    decreases n
  {
    var name := changes(k).entry.name;
    var before := Entries(es, moves, changes, n - 1);
    if n - 1 == k {
      LookupAdded(before, changes(k).entry, name);
    } else {
      AddedStays(es, moves, changes, k, n - 1);
      if Changes(moves[n - 1]) {
        match changes(n - 1) {
          case Add(e) => LookupAdded(before, e, name);
          case Unlink(other) => LookupRemoved(before, other, name);
        }
      }
    }
  }
}
