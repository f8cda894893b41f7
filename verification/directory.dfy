// How a directory lies in the bytes of its extent: every entry is the encoded name, a
// space, the inode number in decimal, and a space; it is read back with a string
// stream (yfs_client.cc).

module Directory {
  import opened Wrappers
  import opened Bytes

  // ----- characters -------------------------------------------------------------------------

  const SPACE: Byte := 32

  predicate IsSpace(c: Byte) {
    c == SPACE || 9 <= c <= 13
  }

  predicate NoSpace(s: Bytes) {
    forall k :: 0 <= k < |s| ==> !IsSpace(s[k])
  }

  /** A char is signed. */
  function Signed(c: Byte): int {
    if c < 128 then c else c - 256
  }

  /** An int cut to a char. */
  function Cut(x: int): Byte {
    x % 256
  }

  /** Division rounds towards zero, and the remainder has the sign of the dividend. */
  function Quotient(x: int): int {
    if x >= 0 then x / 16 else -(-x / 16)
  }

  function Remainder(x: int): int {
    x - 16 * Quotient(x)
  }

  // ----- names ------------------------------------------------------------------------------

  function High(c: Byte): Byte {
    Cut(97 + Quotient(Signed(c)))
  }

  function Low(c: Byte): Byte {
    Cut(97 + Remainder(Signed(c)))
  }

  function Pair(high: Byte, low: Byte): Byte {
    Cut((Signed(high) - 97) * 16 + Signed(low) - 97)
  }

  function Encoded(name: Bytes): Bytes {
    seq(2 * |name|, k requires 0 <= k < 2 * |name| => if k % 2 == 0 then High(name[k / 2]) else Low(name[k / 2]))
  }

  /** Past the end of a string there is a 0. */
  function Uncoded(code: Bytes): Bytes {
    seq((|code| + 1) / 2, k requires 0 <= k < (|code| + 1) / 2 =>
      Pair(code[2 * k], if 2 * k + 1 < |code| then code[2 * k + 1] else 0))
  }

  lemma HalvesOf(c: Byte)
    ensures High(c) == 97 + Quotient(Signed(c)) && 89 <= High(c) <= 104
    ensures Low(c) == 97 + Remainder(Signed(c)) && 82 <= Low(c) <= 112
  {
    var s := Signed(c);
    if s >= 0 {
      assert 0 <= s / 16 <= 7;
    } else {
      assert 0 <= -s / 16 <= 8;
    }
  }

  lemma CutSigned(c: Byte)
    ensures Cut(Signed(c)) == c
  {
  }

  lemma PairOf(c: Byte)
    ensures Pair(High(c), Low(c)) == c && !IsSpace(High(c)) && !IsSpace(Low(c))
  {
    HalvesOf(c);
    var h, l := Signed(High(c)), Signed(Low(c));
    assert h == 97 + Quotient(Signed(c)) && l == 97 + Remainder(Signed(c));
    assert (h - 97) * 16 + l - 97 == Signed(c);
    CutSigned(c);
  }

  lemma EncodedAt(name: Bytes, k: nat)
    requires k < |name|
    ensures Encoded(name)[2 * k] == High(name[k]) && Encoded(name)[2 * k + 1] == Low(name[k])
  {
    assert 2 * k / 2 == k && (2 * k + 1) / 2 == k && 2 * k % 2 == 0 && (2 * k + 1) % 2 == 1;
  }

  lemma UncodedAt(code: Bytes, k: nat)
    requires 2 * k + 1 < |code|
    ensures k < |Uncoded(code)| && Uncoded(code)[k] == Pair(code[2 * k], code[2 * k + 1])
  {
  }

  lemma EncodedNoSpace(name: Bytes)
    ensures NoSpace(Encoded(name))
  {
    forall c: Byte ensures !IsSpace(High(c)) && !IsSpace(Low(c)) {
      PairOf(c);
    }
  }

  /** Every name survives, bytes from 128 on included, and its code has no white space. */
  lemma UncodeEncode(name: Bytes)
    ensures Uncoded(Encoded(name)) == name && NoSpace(Encoded(name))
  {
    forall k: nat | k < |name| ensures Uncoded(Encoded(name))[k] == name[k] {
      EncodedAt(name, k);
      UncodedAt(Encoded(name), k);
      PairOf(name[k]);
    }
    EncodedNoSpace(name);
  }

  /** The two letters of a byte, counted from 'a', are the quotient and remainder by 16 of the
      signed byte, both rounded towards zero. */
  lemma CodeDigits(name: Bytes, k: nat)
    requires k < |name|
    ensures var s := if name[k] < 128 then name[k] as int else name[k] as int - 256;
            var h, l := Encoded(name)[2 * k] as int - 97, Encoded(name)[2 * k + 1] as int - 97;
            && s == 16 * h + l && -16 < l < 16 && (s >= 0 ==> l >= 0) && (s < 0 ==> l <= 0)
  {
    EncodedAt(name, k);
    HalvesOf(name[k]);
  }

  /** A code of odd length is read as if a 0 followed. */
  lemma UncodedOdd(code: Bytes)
    requires |code| % 2 == 1
    ensures Uncoded(code) == Uncoded(code + [0])
  {
  }

  // ----- numbers ----------------------------------------------------------------------------

  const LIMIT: nat := 0x1_0000_0000_0000_0000

  predicate IsDigit(c: Byte) {
    48 <= c <= 57
  }

  predicate AllDigits(s: Bytes) {
    forall k :: 0 <= k < |s| ==> IsDigit(s[k])
  }

  function Decimal(n: nat): (s: Bytes)
    ensures |s| > 0 && AllDigits(s)
  {
    if n < 10 then [48 + n] else Decimal(n / 10) + [48 + n % 10]
  }

  function Value(s: Bytes): nat
    requires AllDigits(s)
  {
    if s == [] then 0 else 10 * Value(s[..|s| - 1]) + s[|s| - 1] - 48
  }

  /** The longest beginning that is all digits. */
  function DigitsOf(s: Bytes): (d: Bytes)
    ensures AllDigits(d)
  {
    if s == [] || !IsDigit(s[0]) then [] else [s[0]] + DigitsOf(s[1..])
  }

  /** Extraction of an unsigned long long.  Without any characters the result keeps the
      value it had; without digits it is 0; out of range it is the greatest. */
  function Number(s: Bytes, junk: nat): nat {
    var t := SkipSpace(s);
    if t == [] then junk else Figure(t)
  }

  lemma {:induction false} AllDigitsOf(s: Bytes)
    requires AllDigits(s)
    ensures DigitsOf(s) == s
  {
    if s != [] {
      AllDigitsOf(s[1..]);
    }
  }

  lemma {:induction false} ValueDecimal(n: nat)
    ensures Value(Decimal(n)) == n
  {
    if n >= 10 {
      ValueDecimal(n / 10);
      assert Decimal(n)[..|Decimal(n)| - 1] == Decimal(n / 10);
    }
  }

  /** A printed inode number reads back. */
  lemma NumberDecimal(n: nat, junk: nat)
    requires n < 0x1_0000_0000_0000_0000
    ensures Number(Decimal(n), junk) == n && NoSpace(Decimal(n))
  {
    var s := Decimal(n);
    ValueDecimal(n);
    AllDigitsOf(s);
    assert IsDigit(s[0]);
  }

  /** No leading zeros. */
  lemma {:induction false} DecimalShape(n: nat)
    ensures n < 10 <==> |Decimal(n)| == 1
    ensures Decimal(n)[0] == 48 <==> n == 0
  {
    if n >= 10 {
      DecimalShape(n / 10);
    }
  }

  lemma {:induction false} SkipLead(lead: Bytes, s: Bytes)
    requires (forall k :: 0 <= k < |lead| ==> IsSpace(lead[k])) && (s == [] || !IsSpace(s[0]))
    ensures SkipSpace(lead + s) == s
  {
    if lead != [] {
      assert (lead + s)[1..] == lead[1..] + s;
      SkipLead(lead[1..], s);
    } else {
      assert lead + s == s;
    }
  }

  lemma {:induction false} DigitsThen(d: Bytes, rest: Bytes)
    requires AllDigits(d) && (rest == [] || !IsDigit(rest[0]))
    ensures DigitsOf(d + rest) == d
  {
    if d != [] {
      assert (d + rest)[1..] == d[1..] + rest;
      DigitsThen(d[1..], rest);
    } else {
      assert d + rest == rest;
    }
  }

  /** The number of a text without white space in front. */
  function Figure(t: Bytes): nat
    requires t != []
  {
    Fitted(Value(DigitsOf(if t[0] == 43 || t[0] == 45 then t[1..] else t)), t[0] == 45)
  }

  function Fitted(v: nat, minus: bool): nat {
    if v >= LIMIT then LIMIT - 1 else if minus then (LIMIT - v) % LIMIT else v
  }

  lemma FittedIs(v: nat, minus: bool)
    ensures Fitted(v, minus) ==
            if v >= 0x1_0000_0000_0000_0000 then 0xFFFF_FFFF_FFFF_FFFF
            else if minus && v > 0 then 0x1_0000_0000_0000_0000 - v
            else v
  {
  }

  lemma FigureReads(sign: Bytes, d: Bytes, rest: Bytes)
    requires (sign == [] || sign == [43] || sign == [45]) && AllDigits(d) && (rest == [] || !IsDigit(rest[0]))
    requires sign == [] && d == [] ==> rest != [] && rest[0] != 43 && rest[0] != 45
    ensures sign + (d + rest) != []
    ensures Figure(sign + (d + rest)) == Fitted(Value(d), sign == [45])
  {
    DigitsThen(d, rest);
    var t := sign + (d + rest);
    if sign != [] {
      assert t[1..] == d + rest && t[0] == sign[0];
    } else {
      assert t == d + rest && (d != [] ==> t[0] == d[0] && IsDigit(t[0]));
    }
  }

  /** What n2i makes of any text: white space, a sign, digits, and something else.  A minus
      sign is taken modulo 2 to the 64; too great a number gives the greatest; without
      digits the number is 0, and without text what it was. */
  lemma NumberReads(lead: Bytes, sign: Bytes, d: Bytes, rest: Bytes, junk: nat)
    requires forall k :: 0 <= k < |lead| ==> IsSpace(lead[k])
    requires (sign == [] || sign == [43] || sign == [45]) && AllDigits(d)
    requires rest == [] || !IsDigit(rest[0])
    requires sign == [] && d == [] && rest != [] ==> !IsSpace(rest[0]) && rest[0] != 43 && rest[0] != 45
    ensures Number(lead + (sign + (d + rest)), junk) ==
            if sign == [] && d == [] && rest == [] then junk
            else if Value(d) >= 0x1_0000_0000_0000_0000 then 0xFFFF_FFFF_FFFF_FFFF
            else if sign == [45] && Value(d) > 0 then 0x1_0000_0000_0000_0000 - Value(d)
            else Value(d)
  {
    var t := sign + (d + rest);
    if sign == [] && d == [] && rest == [] {
      SkipLead(lead, t);
    } else {
      FigureReads(sign, d, rest);
      FittedIs(Value(d), sign == [45]);
      assert t[0] == if sign != [] then sign[0] else if d != [] then d[0] else rest[0];
      SkipLead(lead, t);
      assert Number(lead + t, junk) == Figure(t);
    }
  }

  // ----- string streams -----------------------------------------------------------------------

  function SkipSpace(s: Bytes): (r: Bytes)
    ensures r != [] ==> !IsSpace(r[0])
  {
    if s != [] && IsSpace(s[0]) then SkipSpace(s[1..]) else s
  }

  function TokenLength(s: Bytes): (n: nat)
    ensures n <= |s| && NoSpace(s[..n]) && (n < |s| ==> IsSpace(s[n]))
  {
    if s == [] || IsSpace(s[0]) then 0
    else
      var n := TokenLength(s[1..]);
      assert s[..n + 1] == [s[0]] + s[1..][..n];
      n + 1
  }

  /** What is left to read; not good once the end was reached. */
  datatype Stream = Stream(rest: Bytes, good: bool)

  /** `>>` into a string.  When it fails the string keeps what it held. */
  function Extract(st: Stream, prior: Bytes): (Stream, Bytes) {
    if !st.good then (st, prior)
    else
      var s := SkipSpace(st.rest);
      var n := TokenLength(s);
      if s == [] then (Stream([], false), prior) else (Stream(s[n..], n < |s|), s[..n])
  }

  /** White space is what C calls so. */
  lemma WhiteSpace(c: Byte)
    ensures IsSpace(c) <==> c in {9, 10, 11, 12, 13, 32}
  {
  }

  /** Extraction from any text: white space, a word, and what is left.  The stream stays good
      if something is left. */
  lemma ExtractSplits(lead: Bytes, w: Bytes, rest: Bytes, prior: Bytes)
    requires forall k :: 0 <= k < |lead| ==> IsSpace(lead[k])
    requires NoSpace(w) && (rest != [] ==> w != [] && IsSpace(rest[0]))
    ensures Extract(Stream(lead + (w + rest), true), prior)
            == if w == [] then (Stream([], false), prior) else (Stream(rest, rest != []), w)
  {
    SkipLead(lead, w + rest);
    if rest != [] {
      TokenOf(w, rest);
    } else {
      assert w + rest == w;
      TokenEnds(w);
    }
    assert (w + rest)[|w|..] == rest && (w + rest)[..|w|] == w;
  }

  lemma {:induction false} TokenEnds(w: Bytes)
    requires NoSpace(w)
    ensures TokenLength(w) == |w|
  {
    if w != [] {
      TokenEnds(w[1..]);
    }
  }

  // ----- reading a directory ------------------------------------------------------------------

  /** The loop of find, readdir and unlink: its index, its stream, its two strings. */
  datatype Cursor = Cursor(i: nat, stream: Stream, fileName: Bytes, inode: Bytes)

  function First(buf: Bytes): Cursor {
    Cursor(0, Stream(buf, true), [], [])
  }

  function Advance(c: Cursor): Cursor {
    var (st1, fileName) := Extract(c.stream, c.fileName);
    var (st2, inode) := Extract(st1, c.inode);
    Cursor(c.i + |fileName| + |inode| + 2, st2, fileName, inode)
  }

  /** The strings of every turn of the loop, over a buffer of n bytes. */
  function Turns(n: nat, c: Cursor): seq<(Bytes, Bytes)>
    decreases n - c.i
  {
    if c.i >= n then []
    else
      var c' := Advance(c);
      [(c'.fileName, c'.inode)] + Turns(n, c')
  }

  function LastIndex(n: nat, c: Cursor): nat
    decreases n - c.i
  {
    if c.i >= n then c.i else LastIndex(n, Advance(c))
  }

  datatype Entry = Entry(name: Bytes, inum: nat)

  function Understood(turn: (Bytes, Bytes), junk: nat): Entry {
    Entry(Uncoded(turn.0), Number(turn.1, junk))
  }

  function AllUnderstood(turns: seq<(Bytes, Bytes)>, junk: nat): seq<Entry> {
    seq(|turns|, k requires 0 <= k < |turns| => Understood(turns[k], junk))
  }

  /** What readdir makes of a buffer. */
  function Parse(buf: Bytes, junk: nat): seq<Entry> {
    AllUnderstood(Turns(|buf|, First(buf)), junk)
  }

  /** At the end of the stream every further turn repeats the last words. */
  lemma {:induction false} TurnsRepeat(n: nat, c: Cursor, k: nat)
    requires !c.stream.good && k < |Turns(n, c)|
    ensures Turns(n, c)[k] == (c.fileName, c.inode)
    decreases k
  {
    if k > 0 {
      TurnsRepeat(n, Advance(c), k - 1);
    }
  }

  // ----- printing a directory -------------------------------------------------------------------

  function Joined(turn: (Bytes, Bytes)): Bytes {
    turn.0 + [SPACE] + turn.1 + [SPACE]
  }

  function AllJoined(turns: seq<(Bytes, Bytes)>): Bytes {
    if turns == [] then [] else Joined(turns[0]) + AllJoined(turns[1..])
  }

  function Printed(e: Entry): (Bytes, Bytes) {
    (Encoded(e.name), Decimal(e.inum))
  }

  function AllPrinted(es: seq<Entry>): seq<(Bytes, Bytes)> {
    seq(|es|, k requires 0 <= k < |es| => Printed(es[k]))
  }

  function Print(es: seq<Entry>): Bytes {
    AllJoined(AllPrinted(es))
  }

  /** Two words that a stream reads back. */
  predicate Words(turn: (Bytes, Bytes)) {
    turn.0 != [] && turn.1 != [] && NoSpace(turn.0) && NoSpace(turn.1)
  }

  lemma {:induction false} TokenOf(w: Bytes, rest: Bytes)
    requires NoSpace(w) && rest != [] && IsSpace(rest[0])
    ensures TokenLength(w + rest) == |w|
  {
    if w != [] {
      assert (w + rest)[1..] == w[1..] + rest;
      TokenOf(w[1..], rest);
    } else {
      assert w + rest == rest;
    }
  }

  /** A word after at most one space is extracted, and the space after it left. */
  lemma ExtractWord(lead: Bytes, w: Bytes, rest: Bytes, prior: Bytes)
    requires w != [] && NoSpace(w) && (lead == [] || lead == [SPACE])
    ensures Extract(Stream(lead + w + [SPACE] + rest, true), prior) == (Stream([SPACE] + rest, true), w)
  {
    var s := w + ([SPACE] + rest);
    TokenOf(w, [SPACE] + rest);
    assert s[0] == w[0] && SkipSpace(s) == s;
    assert lead + w + [SPACE] + rest == lead + s;
    if lead != [] {
      assert (lead + s)[1..] == s;
    } else {
      assert lead + s == s;
    }
    assert s[|w|..] == [SPACE] + rest && s[..|w|] == w;
  }

  /** One turn of the loop reads one joined pair, and its index moves as far. */
  lemma AdvanceJoined(lead: Bytes, turn: (Bytes, Bytes), rest: Bytes, c: Cursor)
    requires Words(turn) && (lead == [] || lead == [SPACE])
    requires c.stream == Stream(lead + (Joined(turn) + rest), true)
    ensures Advance(c) == Cursor(c.i + |Joined(turn)|, Stream([SPACE] + rest, true), turn.0, turn.1)
  {
    var (name, inode) := turn;
    assert lead + (Joined(turn) + rest) == lead + name + [SPACE] + (inode + [SPACE] + rest);
    ExtractWord(lead, name, inode + [SPACE] + rest, c.fileName);
    assert [SPACE] + (inode + [SPACE] + rest) == [SPACE] + inode + [SPACE] + rest;
    ExtractWord([SPACE], inode, rest, c.inode);
  }

  /** Joined words are read back in order.  The index stays with the stream, at most one
      space ahead, and ends exactly at the end of the buffer. */
  lemma {:induction false} TurnsJoined(turns: seq<(Bytes, Bytes)>, lead: Bytes, n: nat, c: Cursor)
    requires forall k :: 0 <= k < |turns| ==> Words(turns[k])
    requires lead == [] || lead == [SPACE]
    requires c.stream == Stream(lead + AllJoined(turns), true) && n == c.i + |AllJoined(turns)|
    ensures Turns(n, c) == turns && LastIndex(n, c) == n
  {
    if turns != [] {
      AdvanceJoined(lead, turns[0], AllJoined(turns[1..]), c);
      TurnsJoined(turns[1..], [SPACE], n, Advance(c));
    }
  }

  predicate Printable(es: seq<Entry>) {
    forall k :: 0 <= k < |es| ==> es[k].name != [] && es[k].inum < LIMIT
  }

  lemma PrintedWords(e: Entry, junk: nat)
    requires e.name != [] && e.inum < LIMIT
    ensures Words(Printed(e)) && Understood(Printed(e), junk) == e
  {
    UncodeEncode(e.name);
    NumberDecimal(e.inum, junk);
  }

  /** Parsing what was printed gives the entries back; the loop's index ends at the end. */
  lemma ParsePrint(es: seq<Entry>, junk: nat)
    requires Printable(es)
    ensures Turns(|Print(es)|, First(Print(es))) == AllPrinted(es)
    ensures LastIndex(|Print(es)|, First(Print(es))) == |Print(es)|
    ensures Parse(Print(es), junk) == es
  {
    forall k | 0 <= k < |es| ensures Words(AllPrinted(es)[k]) && Understood(AllPrinted(es)[k], junk) == es[k] {
      PrintedWords(es[k], junk);
    }
    assert Print(es) == [] + AllJoined(AllPrinted(es));
    TurnsJoined(AllPrinted(es), [], |Print(es)|, First(Print(es)));
  }

  lemma {:induction false} SkippedAll(s: Bytes, k: nat)
    requires k < |s| && !IsSpace(s[k])
    ensures SkipSpace(s) != []
  {
    if k > 0 {
      SkippedAll(s[1..], k - 1);
    }
  }

  /** Once the stream has given a word, no turn has an empty name. */
  lemma {:induction false} NamesNeverEmpty(n: nat, c: Cursor, k: nat)
    requires c.fileName != [] || (c.stream.good && SkipSpace(c.stream.rest) != [])
    requires k < |Turns(n, c)|
    ensures Turns(n, c)[k].0 != []
    decreases k
  {
    assert Advance(c).fileName != [];
    if k > 0 {
      NamesNeverEmpty(n, Advance(c), k - 1);
    }
  }

  /** So the round trip holds exactly for lists without empty names. */
  lemma ParsePrintExactly(es: seq<Entry>, junk: nat)
    requires forall k :: 0 <= k < |es| ==> es[k].inum < LIMIT
    ensures Parse(Print(es), junk) == es <==> forall k :: 0 <= k < |es| ==> es[k].name != []
  {
    if k :| 0 <= k < |es| && es[k].name == [] {
      var buf := Print(es);
      var turns := Turns(|buf|, First(buf));
      var at := |Encoded(es[0].name)| + 1;
      var rest := AllJoined(AllPrinted(es)[1..]);
      assert buf == Joined(Printed(es[0])) + rest;
      assert buf[at] == Decimal(es[0].inum)[0];
      SkippedAll(buf, at);
      if k < |turns| {
        NamesNeverEmpty(|buf|, First(buf), k);
        assert |Uncoded(turns[k].0)| > 0;
        assert Parse(buf, junk)[k] == Understood(turns[k], junk);
      }
    } else {
      ParsePrint(es, junk);
    }
  }

  lemma {:induction false} AllJoinedAppend(turns: seq<(Bytes, Bytes)>, turn: (Bytes, Bytes))
    ensures AllJoined(turns + [turn]) == AllJoined(turns) + Joined(turn)
  {
    if turns != [] {
      assert (turns + [turn])[1..] == turns[1..] + [turn];
      AllJoinedAppend(turns[1..], turn);
    } else {
      assert AllJoined([turn]) == Joined(turn) + AllJoined([]);
    }
  }

  /** What addfile appends is one entry more. */
  lemma PrintAppend(es: seq<Entry>, e: Entry)
    ensures Print(es + [e]) == Print(es) + Joined(Printed(e))
    ensures Joined(Printed(e)) == Encoded(e.name) + [32] + Decimal(e.inum) + [32]
  {
    assert AllPrinted(es + [e]) == AllPrinted(es) + [Printed(e)];
    AllJoinedAppend(AllPrinted(es), Printed(e));
  }

  // ----- the directory as a list -------------------------------------------------------------------

  /** The first entry of that name. */
  function Lookup(es: seq<Entry>, name: Bytes): (r: Option<nat>)
    ensures r == None <==> forall k :: 0 <= k < |es| ==> es[k].name != name
  {
    if es == [] then None
    else if es[0].name == name then Some(es[0].inum)
    else Lookup(es[1..], name)
  }

  /** The entries of every other name, in order. */
  function Without(es: seq<Entry>, name: Bytes): (r: seq<Entry>)
    ensures forall e :: e in r <==> e in es && e.name != name
  {
    if es == [] then []
    else if es[0].name == name then Without(es[1..], name)
    else [es[0]] + Without(es[1..], name)
  }

  function Named(es: seq<Entry>, name: Bytes): (r: seq<Entry>)
    ensures forall e :: e in r <==> e in es && e.name == name
  {
    if es == [] then []
    else if es[0].name == name then [es[0]] + Named(es[1..], name)
    else Named(es[1..], name)
  }

  function Matching(turns: seq<(Bytes, Bytes)>, name: Bytes): seq<(Bytes, Bytes)> {
    if turns == [] then []
    else if Uncoded(turns[0].0) == name then [turns[0]] + Matching(turns[1..], name)
    else Matching(turns[1..], name)
  }

  function Others(turns: seq<(Bytes, Bytes)>, name: Bytes): seq<(Bytes, Bytes)> {
    if turns == [] then []
    else if Uncoded(turns[0].0) == name then Others(turns[1..], name)
    else [turns[0]] + Others(turns[1..], name)
  }

  /** Adding makes the name known unless it was, and leaves every other name alone. */
  lemma {:induction false} LookupAdded(es: seq<Entry>, e: Entry, name: Bytes)
    ensures Lookup(es + [e], name) ==
            if Lookup(es, name).Some? || e.name != name then Lookup(es, name) else Some(e.inum)
  {
    if es != [] {
      assert (es + [e])[1..] == es[1..] + [e];
      LookupAdded(es[1..], e, name);
    }
  }

  /** Removing makes the name unknown and leaves every other name alone. */
  lemma {:induction false} LookupRemoved(es: seq<Entry>, gone: Bytes, name: Bytes)
    ensures Lookup(Without(es, gone), name) == if name == gone then None else Lookup(es, name)
  {
    if es != [] {
      LookupRemoved(es[1..], gone, name);
      if es[0].name != gone {
        assert Without(es, gone)[1..] == Without(es[1..], gone);
      }
    }
  }

  /** Adding a fresh name and removing it is nothing. */
  lemma {:induction false} WithoutAdded(es: seq<Entry>, e: Entry)
    requires Lookup(es, e.name) == None
    ensures Without(es + [e], e.name) == es
  {
    if es != [] {
      assert (es + [e])[1..] == es[1..] + [e];
      WithoutAdded(es[1..], e);
    }
  }

  lemma PrintedCons(e: Entry, es: seq<Entry>)
    ensures AllPrinted([e] + es) == [Printed(e)] + AllPrinted(es)
  {
  }

  /** Unlinking in the printed form is removing from the list. */
  lemma {:induction false} OthersPrinted(es: seq<Entry>, name: Bytes)
    requires Printable(es)
    ensures Others(AllPrinted(es), name) == AllPrinted(Without(es, name)) && Printable(Without(es, name))
  {
    if es == [] {
      assert AllPrinted(es) == [];
    } else {
      var e := es[0];
      UncodeEncode(e.name);
      assert es == [e] + es[1..];
      PrintedCons(e, es[1..]);
      OthersPrinted(es[1..], name);
      PrintedCons(e, Without(es[1..], name));
    }
  }

  /** The entries that unlink takes out are those of the name, in order. */
  lemma {:induction false} MatchingPrinted(es: seq<Entry>, name: Bytes)
    requires Printable(es)
    ensures Matching(AllPrinted(es), name) == AllPrinted(Named(es, name))
    ensures Named(es, name) == [] <==> Lookup(es, name) == None
  {
    if es == [] {
      assert AllPrinted(es) == [];
    } else {
      var e := es[0];
      UncodeEncode(e.name);
      assert es == [e] + es[1..];
      PrintedCons(e, es[1..]);
      MatchingPrinted(es[1..], name);
      PrintedCons(e, Named(es[1..], name));
    }
  }

  /** A fresh name, once added, is read back with its number. */
  lemma AddedFound(es: seq<Entry>, e: Entry, junk: nat)
    requires Printable(es) && e.name != [] && e.inum < 0x1_0000_0000_0000_0000 && Lookup(es, e.name) == None
    ensures Lookup(Parse(Print(es) + Joined(Printed(e)), junk), e.name) == Some(e.inum)
  {
    PrintAppend(es, e);
    ParsePrint(es + [e], junk);
    LookupAdded(es, e, e.name);
  }

  // ----- runs of directory operations ------------------------------------------------------------

  datatype Change = Add(entry: Entry) | Unlink(name: Bytes)

  function AddTo(buf: Bytes, e: Entry): Bytes {
    buf + Joined(Printed(e))
  }

  /** Without a match nothing is written. */
  function UnlinkFrom(buf: Bytes, name: Bytes): Bytes {
    var turns := Turns(|buf|, First(buf));
    if Matching(turns, name) == [] then buf else AllJoined(Others(turns, name))
  }

  function ChangedBytes(buf: Bytes, change: Change): Bytes {
    match change
    case Add(e) => AddTo(buf, e)
    case Unlink(name) => UnlinkFrom(buf, name)
  }

  function ChangedList(es: seq<Entry>, change: Change): seq<Entry> {
    match change
    case Add(e) => es + [e]
    case Unlink(name) => Without(es, name)
  }

  function BytesAfter(buf: Bytes, changes: seq<Change>): Bytes
    decreases |changes|
  {
    if changes == [] then buf else BytesAfter(ChangedBytes(buf, changes[0]), changes[1..])
  }

  function ListAfter(es: seq<Entry>, changes: seq<Change>): seq<Entry>
    decreases |changes|
  {
    if changes == [] then es else ListAfter(ChangedList(es, changes[0]), changes[1..])
  }

  lemma {:induction false} WithoutNone(es: seq<Entry>, name: Bytes)
    requires Lookup(es, name) == None
    ensures Without(es, name) == es
  {
    if es != [] {
      WithoutNone(es[1..], name);
    }
  }

  lemma UnlinkPrinted(es: seq<Entry>, name: Bytes)
    requires Printable(es)
    ensures UnlinkFrom(Print(es), name) == Print(Without(es, name)) && Printable(Without(es, name))
    ensures Matching(Turns(|Print(es)|, First(Print(es))), name) == AllPrinted(Named(es, name))
  {
    ParsePrint(es, 0);
    OthersPrinted(es, name);
    MatchingPrinted(es, name);
    if Named(es, name) == [] {
      WithoutNone(es, name);
    } else {
      assert AllPrinted(Named(es, name))[0] == Printed(Named(es, name)[0]);
    }
  }

  predicate PrintableChange(change: Change) {
    change.Add? ==> change.entry.name != [] && change.entry.inum < LIMIT
  }

  /** One change of the text is one change of the list. */
  lemma ChangePrints(es: seq<Entry>, change: Change)
    requires Printable(es) && PrintableChange(change)
    ensures ChangedBytes(Print(es), change) == Print(ChangedList(es, change)) && Printable(ChangedList(es, change))
  {
    match change
    case Add(e) => PrintAppend(es, e);
    case Unlink(name) => UnlinkPrinted(es, name);
  }

  predicate PrintableChanges(changes: seq<Change>) {
    forall k :: 0 <= k < |changes| ==> PrintableChange(changes[k])
  }

  /** Over any run of changes the bytes are those of the list, and they read back as it. */
  lemma {:induction false} DirectoryRuns(es: seq<Entry>, changes: seq<Change>, junk: nat)
    requires Printable(es) && PrintableChanges(changes)
    ensures BytesAfter(Print(es), changes) == Print(ListAfter(es, changes))
    ensures Parse(BytesAfter(Print(es), changes), junk) == ListAfter(es, changes)
    decreases |changes|
  {
    if changes == [] {
      ParsePrint(es, junk);
    } else {
      ChangePrints(es, changes[0]);
      DirectoryRuns(ChangedList(es, changes[0]), changes[1..], junk);
    }
  }
}
