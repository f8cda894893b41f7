// Operations one after the other, as a user of one client sees them.

module YfsUses {
  import opened Wrappers
  import opened Bytes
  import opened Directory
  import opened ExtentCache
  import opened YfsClients

  /** A new client finds the names in the root of a server whose root is a directory. */
  method LooksUpInRoot(server: ExtentStore, es: seq<Entry>, name: Bytes, junk: nat, noise: Bytes)
    returns (y: YfsClient, r: Outcome, found: bool, ino: nat)
    requires server.StoredAt(1) == Live(1, Print(es)) && Printable(es)
    ensures fresh(y) && fresh(y.ec) && y.ec.server == server && y.Shows(1, Print(es))
    ensures match Lookup(es, name)
            case Some(i) => (r, found, ino) == (Ok, true, i)
            case None => r == IoErr && !found
  {
    var ec := new ExtentClientCache(server);
    y := new YfsClient(ec);
    assert y.Shows(1, Print(es));
    ParsePrint(es, junk);
    r, found, ino := y.Find(1, name, false, 0, 0, junk, noise);
  }

  /** A file, once made, is found under its name; the listing of its directory has one entry
      more. */
  method MadeIsFound(y: YfsClient, parent: ExtentId, es: seq<Entry>, name: Bytes, chosen: ExtentId, junk: nat,
                     noise: Bytes)
    returns (r: Outcome, found: bool, ino: nat, listed: Outcome, list: seq<Entry>)
    requires y.Shows(parent, Print(es)) && y.Kind(parent) == 1 && Printable(es)
    requires name != [] && chosen < LIMIT && chosen != parent && Lookup(es, name) == None
    modifies y.ec, y.ec.server
    ensures (r, found, ino) == (Ok, true, chosen)
    ensures (listed, list) == (Ok, es + [Entry(name, chosen)])
  {
    var made := y.Create(parent, name, chosen, noise);
    AddedFound(es, Entry(name, chosen), junk);
    PrintAppend(es, Entry(name, chosen));
    ParsePrint(es + [Entry(name, chosen)], junk);
    r, found, ino := y.Find(parent, name, false, 0, 0, junk, noise);
    listed, list := y.ReadDir(parent, junk, noise);
  }

  /** A directory, once made, is searched and listed, and empty. */
  method MadeDirectoryIsEmpty(y: YfsClient, parent: ExtentId, name: Bytes, chosen: ExtentId, other: Bytes, junk: nat,
                              noise: Bytes)
    returns (r: Outcome, found: bool, ino: nat, listed: Outcome, list: seq<Entry>)
    requires chosen != parent
    modifies y.ec, y.ec.server
    ensures r == IoErr && !found && (listed, list) == (Ok, [])
  {
    var made := y.Mkdir(parent, name, chosen, noise);
    r, found, ino := y.Find(made, other, false, 0, 0, junk, noise);
    listed, list := y.ReadDir(made, junk, noise);
  }

  /** In a file nothing can be looked up. */
  method FileIsNoDirectory(y: YfsClient, parent: ExtentId, name: Bytes, chosen: ExtentId, other: Bytes, junk: nat,
                           noise: Bytes)
    returns (r: Outcome, found: bool, ino: nat, listed: Outcome, list: seq<Entry>)
    requires chosen != parent
    modifies y.ec, y.ec.server
    ensures r == Exist && listed == Exist
  {
    var made := y.Create(parent, name, chosen, noise);
    r, found, ino := y.Find(made, other, false, 0, 0, junk, noise);
    listed, list := y.ReadDir(made, junk, noise);
  }

  /** A name, once unlinked, is not found. */
  method UnlinkedIsGone(y: YfsClient, parent: ExtentId, es: seq<Entry>, name: Bytes, junk: nat,
                        junkAttr: ExtentId -> Attr, noise: Bytes)
    returns (r: Outcome, found: bool, ino: nat)
    requires y.Shows(parent, Print(es)) && y.Kind(parent) == 1 && Printable(es)
    requires forall k :: 0 <= k < |es| ==> es[k].inum != parent
    modifies y.ec
    ensures r == IoErr && !found
  {
    var removed := y.Unlink(parent, name, junk, junkAttr, noise);
    UnlinkedInums(es, name, junk);
    UnlinkPrinted(es, name);
    ParsePrint(Without(es, name), junk);
    LookupRemoved(es, name, name);
    r, found, ino := y.Find(parent, name, false, 0, 0, junk, noise);
  }
}
