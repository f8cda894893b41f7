// The byte ranges of a file: what read, write and setattr make of its content
// (yfs_client.cc).

module FileBytes {
  import opened Wrappers
  import opened Bytes

  function Least(a: nat, b: nat): nat {
    if a < b then a else b
  }

  function Greatest(a: nat, b: nat): nat {
    if a < b then b else a
  }

  // ----- reading ------------------------------------------------------------------------------

  const WIDTH: int := 0x1_0000_0000_0000_0000

  /** substr. */
  function Substring(s: Bytes, off: nat, n: nat): Bytes
    requires off <= |s|
  {
    s[off..off + Least(n, |s| - off)]
  }

  /** The offset is signed, but compared and added as an unsigned 64-bit number. */
  function Portion(data: Bytes, size: nat, off: int): Bytes {
    var start := off % WIDTH;
    if start <= |data| then
      if (start + size) % WIDTH <= |data| then Substring(data, start, size) else Substring(data, start, |data| - start)
    else []
  }

  /** A read gives the bytes of the range that the file has; where the sum wraps round, the
      other branch gives the same. */
  lemma PortionIsRange(data: Bytes, size: nat, off: int)
    requires |data| < WIDTH / 2 && size < WIDTH && -WIDTH / 2 <= off < WIDTH / 2
    ensures Portion(data, size, off) == if 0 <= off <= |data| then data[off..Least(off + size, |data|)] else []
  {
    if off < 0 {
      assert off % WIDTH == off + WIDTH;
    } else if off <= |data| {
      assert off % WIDTH == off;
      if off + size >= WIDTH {
        assert (off + size) % WIDTH == off + size - WIDTH;
      }
    }
  }

  // ----- writing ------------------------------------------------------------------------------

  /** resize, then replace. */
  function Written(prior: Bytes, off: nat, data: Bytes): Bytes {
    var buf := if |data| + off > |prior| then prior + Zeroes(off + |data| - |prior|) else prior;
    buf[..off] + data + buf[off + |data|..]
  }

  /** The same in 64-bit arithmetic, on strings of at most `room` characters: growing beyond
      that throws, and so does replacing behind the end. */
  function Rewritten(prior: Bytes, off: int, data: Bytes, room: nat): Option<Bytes> {
    var start, sum := off % WIDTH, (|data| + off) % WIDTH;
    if sum > |prior| && sum > room then None
    else
      var buf := if sum > |prior| then prior + Zeroes(sum - |prior|) else prior;
      if start > |buf| then None
      else Some(buf[..start] + data + buf[start + Least(|data|, |buf| - start)..])
  }

  /** It throws exactly for negative offsets and ends out of room; the wrap is harmless. */
  lemma RewrittenIs(prior: Bytes, off: int, data: Bytes, room: nat)
    requires |prior| <= room && |data| <= room && room < WIDTH / 2 && -WIDTH / 2 <= off < WIDTH / 2
    ensures Rewritten(prior, off, data, room) == None <==> off < 0 || off + |data| > room
    ensures Rewritten(prior, off, data, room).Some? ==>
            Rewritten(prior, off, data, room).value == Written(prior, off, data)
  {
    if off < 0 {
      assert off % WIDTH == off + WIDTH;
      if |data| + off < 0 {
        assert (|data| + off) % WIDTH == |data| + off + WIDTH;
      } else {
        assert (|data| + off) % WIDTH == |data| + off;
      }
    } else {
      assert off % WIDTH == off && (|data| + off) % WIDTH == |data| + off;
    }
  }

  /** Byte for byte: the range holds the data, what was there before stays, a gap is 0. */
  lemma WrittenAt(prior: Bytes, off: nat, data: Bytes)
    ensures |Written(prior, off, data)| == Greatest(|prior|, off + |data|)
    ensures forall k :: 0 <= k < |Written(prior, off, data)| ==>
              Written(prior, off, data)[k] ==
              if off <= k < off + |data| then data[k - off] else if k < |prior| then prior[k] else 0
  {
  }

  /** What was written is read, whole. */
  lemma ReadBack(prior: Bytes, off: nat, data: Bytes)
    requires |prior| < WIDTH / 2 && off + |data| < WIDTH / 2
    ensures Portion(Written(prior, off, data), |data|, off) == data
  {
    WrittenAt(prior, off, data);
    PortionIsRange(Written(prior, off, data), |data|, off);
  }

  /** A range apart from the written one reads as before, but for zeros in a gap. */
  lemma ReadApart(prior: Bytes, off: nat, data: Bytes, size: nat, at: nat)
    requires |prior| < WIDTH / 2 && off + |data| < WIDTH / 2 && at + size < WIDTH / 2
    requires at + size <= off || off + |data| <= at
    ensures var now, before := Portion(Written(prior, off, data), size, at), Portion(prior, size, at);
            && |before| <= |now| && now[..|before|] == before
            && forall k :: |before| <= k < |now| ==> now[k] == 0
  {
    WrittenAt(prior, off, data);
    PortionIsRange(Written(prior, off, data), size, at);
    PortionIsRange(prior, size, at);
    var now, before := Portion(Written(prior, off, data), size, at), Portion(prior, size, at);
    assert forall k :: 0 <= k < |before| ==> now[k] == before[k];
  }

  /** Writes to ranges apart from each other may be done in either order. */
  lemma WritesApart(prior: Bytes, off: nat, data: Bytes, off': nat, data': Bytes)
    requires off + |data| <= off' || off' + |data'| <= off
    ensures Written(Written(prior, off, data), off', data') == Written(Written(prior, off', data'), off, data)
  {
    var a, b := Written(prior, off, data), Written(prior, off', data');
    WrittenAt(prior, off, data);
    WrittenAt(prior, off', data');
    WrittenAt(a, off', data');
    WrittenAt(b, off, data);
  }

  // ----- setting the length -----------------------------------------------------------------------

  /** `cached` is the size in the attributes. */
  function Lengthened(data: Bytes, cached: nat, size: nat): Bytes {
    if cached < size then data + Zeroes(size - cached)
    else if cached > size then Substring(data, 0, size)
    else data
  }

  predicate Suits(length: nat, cached: nat, size: nat) {
    if cached > size then length >= size else length == cached
  }

  /** The new length is the one asked for exactly when the cached size is right, or, when
      the file is cut, when there is enough to cut. */
  lemma LengthExactly(data: Bytes, cached: nat, size: nat)
    ensures |Lengthened(data, cached, size)| == size <==> Suits(|data|, cached, size)
  {
  }

  /** With the right cached size the bytes up to the new length stay, and any after the
      old length are 0. */
  lemma LengthenedAt(data: Bytes, size: nat)
    ensures |Lengthened(data, |data|, size)| == size
    ensures forall k :: 0 <= k < size ==> Lengthened(data, |data|, size)[k] == if k < |data| then data[k] else 0
  {
  }
}
