/** The connection buffer: headroom, readable bytes, writable bytes, in one array that is compacted
    and grown in place. */
module IoBuffers {
  import opened Basics

  /** The positions that compaction writes: none when the bytes are in place already. */
  function CompactionRange(start: nat, headroom: nat, size: nat): (nat, nat)
  {
    if start == headroom then (headroom, headroom) else (headroom, headroom + size)
  }

  /** Compaction writes inside the array if and only if headroom and readable bytes fit together. */
  lemma CompactionFits(length: nat, start: nat, headroom: nat, size: nat)
    requires headroom < length && start + size <= length
    ensures CompactionRange(start, headroom, size).1 <= length <==> headroom + size <= length
  {
  }

  /** The room behind the bytes after compaction as the unsigned subtraction yields it. */
  function UnsignedRoom(length: nat, headroom: nat, size: nat): nat
  {
    (length - headroom - size) % TWO_64
  }

  /** When compaction has written outside the array, the room looks larger than any request, so the
      growth that would have been needed does not happen either; otherwise it is the true room. */
  lemma RoomWraps(length: nat, headroom: nat, size: nat, atLeast: nat)
    requires headroom < length && size <= length && length + atLeast <= TWO_64 / 2
    ensures headroom + size <= length ==> UnsignedRoom(length, headroom, size) == length - headroom - size
    ensures headroom + size > length ==> UnsignedRoom(length, headroom, size) >= atLeast
  {
  }

  class IoBuffer {
    var buf: array<byte>
    const headroom: nat
    var start: nat
    var size: nat

    ghost predicate Valid()
      reads this
    {
      headroom < buf.Length && start + size <= buf.Length
    }

    /** The state of every buffer that never prepends: nothing sits inside the headroom. */
    ghost predicate PastHeadroom()
      reads this
    {
      Valid() && headroom <= start
    }

    ghost function Readable(): seq<byte>
      requires Valid()
      reads this, buf
    {
      buf[start..start + size]
    }

    function WritableBytes(): nat
      requires Valid()
      reads this
    {
      buf.Length - start - size
    }

    constructor (cap: nat, headroom: nat)
      ensures PastHeadroom() && fresh(buf) && Readable() == []
      ensures buf.Length == Max(cap, headroom + 1) && this.headroom == headroom == start
    {
      buf := new byte[Max(cap, headroom + 1)](i => 0);
      this.headroom := headroom;
      start, size := headroom, 0;
    }

    /** memmove of the readable bytes to another offset. */
    method MoveTo(offset: nat)
      requires Valid() && offset + size <= buf.Length
      modifies this`start, buf
      ensures Valid() && start == offset && Readable() == old(Readable())
    {
      var bytes := buf[start..start + size];
      forall i | 0 <= i < size {
        buf[offset + i] := bytes[i];
      }
      start := offset;
      assert buf[start..start + size] == bytes;
    }

    /** Moves the readable bytes to the headroom. When they do not fit behind it the move would write
        outside the array: that is reported and nothing is modelled of it. */
    method Compact() returns (ok: bool)
      requires Valid()
      modifies this`start, buf
      ensures Valid() && Readable() == old(Readable())
      ensures ok <==> CompactionRange(old(start), headroom, size).1 <= buf.Length
      ensures if ok then start == headroom else start == old(start) && buf[..] == old(buf[..])
    {
      CompactionFits(buf.Length, start, headroom, size);
      ok := headroom + size <= buf.Length;
      if ok && start != headroom {
        MoveTo(headroom);
      }
    }

    method Grow(need: nat)
      requires Valid()
      modifies this`buf, this`start
      ensures Valid() && fresh(buf) && start == headroom && Readable() == old(Readable())
      ensures need <= buf.Length && 2 * old(buf.Length) <= buf.Length
    {
      var cap := buf.Length * 2;
      while cap < need
        invariant cap >= 2 * buf.Length
        decreases need - cap
      {
        cap := cap * 2;
      }
      var bytes := buf[start..start + size];
      var bigger := new byte[cap](i => 0);
      forall i | 0 <= i < size {
        bigger[headroom + i] := bytes[i];
      }
      buf := bigger;
      start := headroom;
      assert buf[start..start + size] == bytes;
    }

    /** Makes room for at least that many bytes behind the readable ones without changing those, unless
        that needs a compaction which does not fit. */
    method Writable(atLeast: nat) returns (ok: bool)
      requires Valid()
      modifies this`buf, this`start, buf
      ensures Valid() && Readable() == old(Readable()) && (buf == old(buf) || fresh(buf))
      ensures ok <==> old(WritableBytes()) >= atLeast || headroom + size <= old(buf.Length)
      ensures ok ==> WritableBytes() >= atLeast
      ensures old(PastHeadroom()) ==> ok && PastHeadroom()
    {
      if buf.Length - start - size >= atLeast {
        return true;
      }
      CompactionFits(buf.Length, start, headroom, size);
      ok := Compact();
      if ok && buf.Length - headroom - size < atLeast {
        Grow(headroom + size + atLeast);
      }
    }

    /** The bytes a receive put into the writable region become readable. */
    method Commit(data: seq<byte>)
      requires Valid() && |data| <= WritableBytes()
      modifies this`size, buf
      ensures Valid() && Readable() == old(Readable()) + data && size == old(size) + |data|
    {
      var end := start + size;
      forall i | 0 <= i < |data| {
        buf[end + i] := data[i];
      }
      size := size + |data|;
      assert buf[end..end + |data|] == data;
      assert buf[start..start + size] == buf[start..end] + buf[end..start + size];
    }

    method Consume(n: nat)
      requires Valid()
      modifies this`start, this`size
      ensures Valid() && Readable() == old(Readable())[if n < old(size) then n else old(size)..]
      ensures old(PastHeadroom()) ==> PastHeadroom()
    {
      var k := if n < size then n else size;
      ghost var rest := Readable()[k..];
      assert rest == buf[start + k..start + size];
      start := start + k;
      size := size - k;
      if size == 0 {
        start := headroom;
        assert buf[start..start] == [];
      }
      assert Readable() == rest;
    }

    /** Makes sure that at least `n` bytes precede the readable ones. */
    method RoomInFront(n: nat)
      requires Valid()
      modifies this`buf, this`start, buf
      ensures Valid() && n <= start && Readable() == old(Readable())
      ensures buf == old(buf) || fresh(buf)
      ensures n <= old(start) ==> start == old(start) && buf == old(buf)
    {
      if start < n {
        var offset := Max(n, headroom);
        if offset + size > buf.Length {
          Grow(offset + size);
        }
        MoveTo(offset);
      }
    }

    /** Puts a header in front of the readable bytes, shifting or growing when there is no room. */
    method Prepend(header: seq<byte>)
      requires Valid()
      modifies this, buf
      ensures Valid() && Readable() == header + old(Readable()) && size == old(size) + |header|
      ensures buf == old(buf) || fresh(buf)
      ensures |header| <= old(start) ==> start == old(start) - |header| && buf == old(buf)
    {
      RoomInFront(|header|);
      WriteInFront(header);
    }

    method WriteInFront(header: seq<byte>)
      requires Valid() && |header| <= start
      modifies this`start, this`size, buf
      ensures Valid() && Readable() == header + old(Readable())
      ensures start == old(start) - |header| && size == old(size) + |header|
    {
      var n := |header|;
      WriteAt(buf, start - n, header);
      WrittenInFront(old(buf[..]), start - n, header, size);
      start := start - n;
      size := size + n;
    }
  }

  method WriteAt(a: array<byte>, at: nat, data: seq<byte>)
    requires at + |data| <= a.Length
    modifies a
    ensures a[..] == old(a[..])[..at] + data + old(a[..])[at + |data|..]
  {
    forall i | 0 <= i < |data| {
      a[at + i] := data[i];
    }
  }

  lemma WrittenInFront(s: seq<byte>, at: nat, data: seq<byte>, size: nat)
    requires at + |data| + size <= |s|
    ensures (s[..at] + data + s[at + |data|..])[at..at + |data| + size] == data + s[at + |data|..at + |data| + size]
  {
  }

  /** A full buffer after a prepend into the headroom: making room for one more byte moves the bytes past
      the end of the array, and growth is not even considered. */
  method PrependedTooFar() returns (b: IoBuffer)
    ensures fresh(b) && b.Valid() && b.WritableBytes() == 0
    ensures CompactionRange(b.start, b.headroom, b.size) == (64, 164) && b.buf.Length == 100
    ensures UnsignedRoom(b.buf.Length, b.headroom, b.size) >= 1
  {
    b := new IoBuffer(100, 64);
    b.Commit(seq(36, i => 1));
    b.Prepend(seq(64, i => 2));
  }
}
