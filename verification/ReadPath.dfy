/** The connection's read path: receive completions are committed to the buffer, framed, and handed
    over in batches; what that delivers depends on the cuts between completions only at an error. */
module ReadPath {
  import opened Basics
  import Arith
  import opened Framing
  import opened IoBuffers

  /** The messages of the batches that were already full; a batch cut short by an error is dropped. */
  function WholeBatches<M>(messages: seq<M>, capacity: nat): seq<M>
    requires capacity > 0
  {
    messages[..|messages| - |messages| % capacity]
  }

  /** What one completion after another hands over, starting from undecided bytes. */
  function Delivered<M, E>(parse: seq<byte> -> ParseResult<M, E>, capacity: nat, pending: seq<byte>,
                           chunks: seq<seq<byte>>): seq<M>
    requires capacity > 0
    decreases |chunks|
  {
    if chunks == [] then []
    else
      var p := ParseAll(parse, pending + chunks[0]);
      if p.error.Some? then WholeBatches(p.messages, capacity)
      else p.messages + Delivered(parse, capacity, p.rest, chunks[1..])
  }

  /** How many messages the completion that runs into the error has framed before it. */
  function FramedAtError<M, E>(parse: seq<byte> -> ParseResult<M, E>, pending: seq<byte>, chunks: seq<seq<byte>>): nat
    decreases |chunks|
  {
    if chunks == [] then 0
    else
      var p := ParseAll(parse, pending + chunks[0]);
      if p.error.Some? then |p.messages| else FramedAtError(parse, p.rest, chunks[1..])
  }

  function Concat(chunks: seq<seq<byte>>): seq<byte>
  {
    if chunks == [] then [] else chunks[0] + Concat(chunks[1..])
  }

  /** An undecided rest stays undecided until more bytes arrive. */
  lemma {:induction false} RestIsUndecided<M(!new), E(!new)>(parse: seq<byte> -> ParseResult<M, E>, s: seq<byte>)
    requires PrefixStable(parse) && ParseAll(parse, s).error.None?
    ensures ParseAll(parse, ParseAll(parse, s).rest) == Parsed([], ParseAll(parse, s).rest, None)
    decreases |s|
  {
    hide PrefixStable;
    StableAt(parse, s, []);
    if parse(s).Message? {
      RestIsUndecided(parse, s[parse(s).consumed..]);
    }
  }

  /** The delivered messages are all but the last `lost` ones. */
  ghost predicate ShortBy<M>(delivered: seq<M>, messages: seq<M>, lost: nat)
  {
    lost <= |messages| && delivered == messages[..|messages| - lost]
  }

  ghost function Lost<M, E>(parse: seq<byte> -> ParseResult<M, E>, capacity: nat, pending: seq<byte>,
                            chunks: seq<seq<byte>>, error: Option<E>): nat
    requires capacity > 0
  {
    if error.Some? then FramedAtError(parse, pending, chunks) % capacity else 0
  }

  /** Chunking invariance: without an error the batches concatenate to the one-shot parse, for every
      cut; with one they are short by exactly the unfinished batch of the failing completion. */
  lemma {:induction false} ChunkingInvariance<M(!new), E(!new)>(parse: seq<byte> -> ParseResult<M, E>, capacity: nat,
                                                                pending: seq<byte>, chunks: seq<seq<byte>>)
    requires PrefixStable(parse) && capacity > 0
    requires ParseAll(parse, pending) == Parsed([], pending, None)
    ensures var whole := ParseAll(parse, pending + Concat(chunks));
            ShortBy(Delivered(parse, capacity, pending, chunks), whole.messages,
                    Lost(parse, capacity, pending, chunks, whole.error))
    decreases |chunks|
  {
    hide PrefixStable, ParseAll, ShortBy;
    if chunks == [] {
      assert pending + Concat(chunks) == pending;
      NothingLost(parse, capacity, pending);
    } else {
      var s, t := pending + chunks[0], Concat(chunks[1..]);
      assert pending + Concat(chunks) == s + t;
      ParseAllResumes(parse, s, t);
      var first := ParseAll(parse, s);
      if first.error.Some? {
        OpenBatchLost(first.messages, capacity);
      } else {
        RestIsUndecided(parse, s);
        ChunkingInvariance(parse, capacity, first.rest, chunks[1..]);
        var second := ParseAll(parse, first.rest + t);
        PrependedShortBy(first.messages, Delivered(parse, capacity, first.rest, chunks[1..]), second.messages,
                         Lost(parse, capacity, first.rest, chunks[1..], second.error));
      }
    }
  }

  lemma NothingLost<M(!new), E(!new)>(parse: seq<byte> -> ParseResult<M, E>, capacity: nat, pending: seq<byte>)
    requires capacity > 0
    ensures ShortBy(Delivered(parse, capacity, pending, []), [], 0)
  {
  }

  lemma OpenBatchLost<M>(messages: seq<M>, capacity: nat)
    requires capacity > 0
    ensures ShortBy(WholeBatches(messages, capacity), messages, |messages| % capacity)
  {
  }

  lemma PrependedShortBy<M>(first: seq<M>, delivered: seq<M>, messages: seq<M>, lost: nat)
    requires ShortBy(delivered, messages, lost)
    ensures ShortBy(first + delivered, first + messages, lost)
  {
    var all := first + messages;
    assert all[..|all| - lost] == first + messages[..|messages| - lost];
  }

  /** With an error in the stream the delivered messages match the one-shot parse exactly when the
      failing completion had framed whole batches. */
  lemma ErrorLosesOpenBatch<M(!new), E(!new)>(parse: seq<byte> -> ParseResult<M, E>, capacity: nat, chunks: seq<seq<byte>>)
    requires PrefixStable(parse) && capacity > 0 && ParseAll(parse, []) == Parsed([], [], None)
    ensures var whole := ParseAll(parse, Concat(chunks));
            whole.error.Some? ==>
              (Delivered(parse, capacity, [], chunks) == whole.messages <==> FramedAtError(parse, [], chunks) % capacity == 0)
  {
    ChunkingInvariance(parse, capacity, [], chunks);
    assert [] + Concat(chunks) == Concat(chunks);
  }

  /** A one-byte protocol: 0 is a complete message, anything else is an error. */
  function OneByte(s: seq<byte>): ParseResult<byte, byte>
  {
    if s == [] then NeedMore(1) else if s[0] == 0 then Message(0, 1) else Error(s[0])
  }

  /** The same two bytes deliver one message in two completions and none in one. */
  lemma CutsMatterAtAnError()
    ensures PrefixStable(OneByte)
    ensures Delivered(OneByte, 64, [], [[0], [1]]) == [0]
    ensures Delivered(OneByte, 64, [], [[0, 1]]) == []
  {
    var nothing: seq<byte> := [];
    var good: seq<byte>, bad: seq<byte>, both: seq<byte> := [0], [1], [0, 1];
    assert [good, bad][1..] == [bad];
    assert nothing + good == good && nothing + bad == bad && nothing + both == both;
    assert good[1..] == nothing && both[1..] == bad;
    assert ParseAll(OneByte, good) == Parsed([0], nothing, None);
    assert ParseAll(OneByte, both) == Parsed([0], bad, Some(1));
  }

  // ---- the read loop

  /** A parse that has framed some messages and still has bytes to look at. */
  ghost predicate Midway<M, E>(parse: seq<byte> -> ParseResult<M, E>, whole: Parsed<M, E>, framed: seq<M>, left: seq<byte>)
  {
    var tail := ParseAll(parse, left);
    whole == tail.(messages := framed + tail.messages)
  }

  lemma FrameOne<M(!new), E(!new)>(parse: seq<byte> -> ParseResult<M, E>, whole: Parsed<M, E>, framed: seq<M>, left: seq<byte>)
    requires PrefixStable(parse) && Midway(parse, whole, framed, left) && parse(left).Message?
    ensures 0 < parse(left).consumed <= |left|
    ensures Midway(parse, whole, framed + [parse(left).message], left[parse(left).consumed..])
  {
    var m, n := parse(left).message, parse(left).consumed;
    StableAt(parse, left, []);
    var tail := ParseAll(parse, left[n..]);
    assert framed + ([m] + tail.messages) == framed + [m] + tail.messages;
  }

  lemma FramingEnds<M, E>(parse: seq<byte> -> ParseResult<M, E>, whole: Parsed<M, E>, framed: seq<M>, left: seq<byte>)
    requires Midway(parse, whole, framed, left) && !parse(left).Message?
    ensures whole == Parsed(framed, left, if parse(left).Error? then Some(parse(left).error) else None)
  {
    assert framed + [] == framed;
  }

  /** The handed-over messages are whole batches and the open batch holds what was framed since. */
  ghost predicate Batched<M>(framed: seq<M>, given: seq<M>, batch: seq<M>, capacity: nat)
  {
    capacity > 0 && framed == given + batch && |batch| < capacity && |given| % capacity == 0
  }

  lemma BatchOne<M>(framed: seq<M>, given: seq<M>, batch: seq<M>, capacity: nat, m: M)
    requires Batched(framed, given, batch, capacity)
    ensures var full := batch + [m];
            if |full| == capacity then Batched(framed + [m], given + full, [], capacity)
            else Batched(framed + [m], given, full, capacity)
  {
    var full := batch + [m];
    assert framed + [m] == given + full;
    if |full| == capacity {
      assert given + full + [] == given + full;
      MoreBatches(|given|, capacity);
    }
  }

  lemma MoreBatches(n: nat, capacity: nat)
    requires capacity > 0 && n % capacity == 0
    ensures (n + capacity) % capacity == 0
  {
    assert n + capacity == (n / capacity + 1) * capacity;
    Arith.QuotientIsUnique(n + capacity, capacity, n / capacity + 1, 0);
  }

  lemma BatchedIsWhole<M>(framed: seq<M>, given: seq<M>, batch: seq<M>, capacity: nat)
    requires Batched(framed, given, batch, capacity)
    ensures given == WholeBatches(framed, capacity) && framed == given + batch
  {
    var k := |given| / capacity;
    Arith.QuotientIsUnique(|framed|, capacity, k, |batch|);
    assert |framed| % capacity == |batch|;
    assert framed[..|given|] == given;
  }

  class Connection<M(!new), E(!new)> {
    const parse: seq<byte> -> ParseResult<M, E>
    const capacity: nat
    const readBuf: IoBuffer
    var parseNeed: nat
    var handed: seq<M>
    var failure: Option<E>

    ghost predicate Valid()
      reads this, readBuf
    {
      capacity > 0 && readBuf.PastHeadroom()
    }

    constructor (parse: seq<byte> -> ParseResult<M, E>, bufferSize: nat)
      ensures Valid() && fresh(readBuf) && fresh(readBuf.buf) && readBuf.Readable() == []
      ensures this.parse == parse && capacity == 64 && handed == [] && failure == None
    {
      this.parse := parse;
      capacity := 64;
      readBuf := new IoBuffer(bufferSize, 64);
      parseNeed, handed, failure := 0, [], None;
    }

    /** Asks the framer about the readable bytes and consumes the message it finds, if any. */
    method NextFrame() returns (r: ParseResult<M, E>)
      requires Valid() && PrefixStable(parse)
      modifies readBuf`start, readBuf`size
      ensures Valid() && r == parse(old(readBuf.Readable())) && StableOn(parse, old(readBuf.Readable()), [])
      ensures readBuf.Readable() == if r.Message? then old(readBuf.Readable())[r.consumed..] else old(readBuf.Readable())
    {
      var bytes := readBuf.buf[readBuf.start..readBuf.start + readBuf.size];
      r := parse(bytes);
      StableAt(parse, bytes, []);
      if r.Message? {
        readBuf.Consume(r.consumed);
      }
    }

    /** Frames what is readable, handing over each batch that fills up; returns the open one. */
    method FrameReadable() returns (batch: seq<M>)
      requires Valid() && PrefixStable(parse) && failure.None?
      modifies this, readBuf`start, readBuf`size
      ensures Valid()
      ensures var p := ParseAll(parse, old(readBuf.Readable()));
              && failure == p.error && readBuf.Readable() == p.rest
              && handed == old(handed) + WholeBatches(p.messages, capacity)
              && p.messages == WholeBatches(p.messages, capacity) + batch
              && (p.error.None? ==> parse(p.rest) == NeedMore(parseNeed))
    {
      hide PrefixStable, ParseAll, Midway, Batched, WholeBatches, IoBuffer.Readable;
      ghost var whole := ParseAll(parse, readBuf.Readable());
      ghost var framed: seq<M>, given: seq<M> := [], [];
      batch := [];
      NothingFramed(parse, readBuf.Readable(), capacity);
      var r := NeedMore(0);
      while true
        invariant Valid() && failure.None? && handed == old(handed) + given
        invariant Midway(parse, whole, framed, readBuf.Readable())
        invariant Batched(framed, given, batch, capacity)
        decreases |readBuf.Readable()|
      {
        ghost var left := readBuf.Readable();
        r := NextFrame();
        if !r.Message? {
          break;
        }
        FrameOne(parse, whole, framed, left);
        BatchOne(framed, given, batch, capacity, r.message);
        batch := batch + [r.message];
        framed := framed + [r.message];
        parseNeed := 0;
        if |batch| == capacity {
          handed := handed + batch;
          given := given + batch;
          batch := [];
        }
      }
      FramingEnds(parse, whole, framed, readBuf.Readable());
      BatchedIsWhole(framed, given, batch, capacity);
      match r
      case NeedMore(need) => parseNeed := need;
      case Error(e) => failure := Some(e);
    }

    /** One receive completion: commit, frame, hand over the last batch unless framing failed. */
    method OnRecv(data: seq<byte>)
      requires Valid() && PrefixStable(parse) && failure.None? && |data| <= readBuf.WritableBytes()
      modifies this, readBuf, readBuf.buf
      ensures Valid() && readBuf.buf == old(readBuf.buf)
      ensures var p := ParseAll(parse, old(readBuf.Readable()) + data);
              && failure == p.error && readBuf.Readable() == p.rest
              && handed == old(handed) + (if p.error.Some? then WholeBatches(p.messages, capacity) else p.messages)
              && (p.error.None? ==> parse(p.rest) == NeedMore(parseNeed))
    {
      hide PrefixStable, ParseAll, WholeBatches, IoBuffer.Readable;
      readBuf.Commit(data);
      var batch := FrameReadable();
      if failure.None? && batch != [] {
        handed := handed + batch;
      }
    }

    /** Offers room for what the framer asked for, or a page, and takes in what the kernel puts there. */
    method Receive(stream: seq<byte>, size: Size) returns (n: nat)
      requires Valid() && PrefixStable(parse) && failure.None?
      modifies this, readBuf, readBuf.buf
      ensures Valid() && n <= |stream| && (readBuf.buf == old(readBuf.buf) || fresh(readBuf.buf))
      ensures Min(size, Min(Max(old(parseNeed), 4096), |stream|)) <= n <= size && (stream != [] ==> n > 0)
      ensures var p := ParseAll(parse, old(readBuf.Readable()) + stream[..n]);
              && failure == p.error && readBuf.Readable() == p.rest
              && handed == old(handed) + (if p.error.Some? then WholeBatches(p.messages, capacity) else p.messages)
    {
      hide PrefixStable, ParseAll, WholeBatches, IoBuffer.Readable;
      var ok := readBuf.Writable(Max(parseNeed, 4096));
      n := Min(size, Min(readBuf.WritableBytes(), |stream|));
      OnRecv(stream[..n]);
    }

    /** Receives until the stream, the kernel's patience or the parser gives out. The kernel fills as
        much of the offered space as it likes: `sizes` says how much each time. */
    method Serve(stream: seq<byte>, sizes: seq<Size>) returns (taken: nat, ghost chunks: seq<seq<byte>>)
      requires Valid() && PrefixStable(parse) && failure.None?
      requires ParseAll(parse, readBuf.Readable()) == Parsed([], readBuf.Readable(), None)
      modifies this, readBuf, readBuf.buf
      ensures Valid() && taken <= |stream| && Concat(chunks) == stream[..taken]
      ensures taken == |stream| || |chunks| == |sizes| || failure.Some?
      ensures handed == old(handed) + Delivered(parse, capacity, old(readBuf.Readable()), chunks)
      ensures var whole := ParseAll(parse, old(readBuf.Readable()) + stream[..taken]);
              && failure == whole.error
              && (failure.None? ==> handed == old(handed) + whole.messages && readBuf.Readable() == whole.rest)
      decreases |sizes|
    {
      hide PrefixStable, ParseAll, WholeBatches, IoBuffer.Readable, Delivered, Concat;
      ghost var pending := readBuf.Readable();
      if sizes == [] || stream == [] {
        taken, chunks := 0, [];
        assert pending + stream[..0] == pending;
        ServedNothing(parse, capacity, pending);
        return;
      }
      var n := Receive(stream, sizes[0]);
      if failure.Some? {
        taken, chunks := n, [stream[..n]];
        ServedError(parse, capacity, pending, stream[..n]);
      } else {
        RestIsUndecided(parse, pending + stream[..n]);
        var more: nat;
        ghost var others;
        more, others := Serve(stream[n..], sizes[1..]);
        taken, chunks := n + more, [stream[..n]] + others;
        assert stream[..taken] == stream[..n] + stream[n..][..more];
        ServedMore(parse, capacity, pending, stream[..n], stream[n..][..more], others);
      }
    }
  }

  lemma ServedNothing<M, E>(parse: seq<byte> -> ParseResult<M, E>, capacity: nat, pending: seq<byte>)
    requires capacity > 0
    ensures Delivered(parse, capacity, pending, []) == [] && Concat([]) == []
  {
  }

  lemma ServedError<M, E>(parse: seq<byte> -> ParseResult<M, E>, capacity: nat, pending: seq<byte>, first: seq<byte>)
    requires capacity > 0 && ParseAll(parse, pending + first).error.Some?
    ensures Delivered(parse, capacity, pending, [first]) == WholeBatches(ParseAll(parse, pending + first).messages, capacity)
    ensures Concat([first]) == first
  {
  }

  lemma ServedMore<M(!new), E(!new)>(parse: seq<byte> -> ParseResult<M, E>, capacity: nat, pending: seq<byte>,
                                     first: seq<byte>, more: seq<byte>, others: seq<seq<byte>>)
    requires PrefixStable(parse) && capacity > 0 && ParseAll(parse, pending + first).error.None?
    ensures var p := ParseAll(parse, pending + first);
            && Delivered(parse, capacity, pending, [first] + others) == p.messages + Delivered(parse, capacity, p.rest, others)
            && var second := ParseAll(parse, p.rest + more);
               ParseAll(parse, pending + (first + more)) == second.(messages := p.messages + second.messages)
    ensures Concat([first] + others) == first + Concat(others)
  {
    hide PrefixStable, ParseAll;
    assert ([first] + others)[1..] == others;
    assert pending + (first + more) == pending + first + more;
    ParseAllResumes(parse, pending + first, more);
  }

  /** What a successful receive returns: at least one byte (none at all means the peer has closed). */
  type Size = n: nat | n > 0 witness 1

  lemma NothingFramed<M, E>(parse: seq<byte> -> ParseResult<M, E>, left: seq<byte>, capacity: nat)
    requires capacity > 0
    ensures Midway(parse, ParseAll(parse, left), [], left) && Batched<M>([], [], [], capacity)
  {
    var tail := ParseAll(parse, left);
    assert [] + tail.messages == tail.messages;
  }
}
