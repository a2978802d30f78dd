/** Framing: parsers over a growing prefix of a byte stream, the one-shot parse of a stream, and why
    a prefix-stable parser gives the same messages however the stream is cut up. */
module Framing {
  import opened Basics

  /** What a framer answers: a message and the bytes it used, a demand for at least `need` more
      bytes, or an error. */
  datatype ParseResult<M, E> = Message(message: M, consumed: nat) | NeedMore(need: nat) | Error(error: E)

  /** A decision, once taken, does not change when more bytes follow; a message uses up input; and
      nothing is decided before as many bytes as demanded have followed. */
  ghost predicate StableOn<M, E>(parse: seq<byte> -> ParseResult<M, E>, s: seq<byte>, t: seq<byte>)
  {
    && (!parse(s).NeedMore? ==> parse(s + t) == parse(s))
    && (parse(s).Message? ==> 0 < parse(s).consumed <= |s|)
    && (parse(s).NeedMore? && |t| < parse(s).need ==> parse(s + t).NeedMore?)
  }

  ghost predicate PrefixStable<M(!new), E(!new)>(parse: seq<byte> -> ParseResult<M, E>)
  {
    forall s: seq<byte>, t: seq<byte> :: StableOn(parse, s, t)
  }

  /** Messages of a stream up to the first error or the end of what is decided; what is left. */
  datatype Parsed<M, E> = Parsed(messages: seq<M>, rest: seq<byte>, error: Option<E>)

  function ParseAll<M, E>(parse: seq<byte> -> ParseResult<M, E>, s: seq<byte>): Parsed<M, E>
    decreases |s|
  {
    match parse(s)
    case NeedMore(_) => Parsed([], s, None)
    case Error(e) => Parsed([], s, Some(e))
    case Message(m, n) =>
      if 0 < n <= |s| then
        var tail := ParseAll(parse, s[n..]);
        tail.(messages := [m] + tail.messages)
      else Parsed([], s, None)
  }

  /** Parsing may stop and resume at any cut: the undecided rest carries over, an error is final. */
  ghost predicate Resumes<M, E>(first: Parsed<M, E>, t: seq<byte>, second: Parsed<M, E>, whole: Parsed<M, E>)
  {
    whole == if first.error.Some? then first.(rest := first.rest + t)
             else second.(messages := first.messages + second.messages)
  }

  lemma {:induction false} ParseAllResumes<M(!new), E(!new)>(parse: seq<byte> -> ParseResult<M, E>, s: seq<byte>, t: seq<byte>)
    requires PrefixStable(parse)
    ensures var first := ParseAll(parse, s);
            Resumes(first, t, ParseAll(parse, first.rest + t), ParseAll(parse, s + t))
    decreases |s|
  {
    hide PrefixStable;
    StableAt(parse, s, t);
    if parse(s).Message? {
      var n := parse(s).consumed;
      assert (s + t)[n..] == s[n..] + t;
      ParseAllResumes(parse, s[n..], t);
      var first := ParseAll(parse, s[n..]);
      ConsResumes(parse(s).message, first, t, ParseAll(parse, first.rest + t), ParseAll(parse, s[n..] + t));
    }
  }

  lemma ConsResumes<M, E>(m: M, first: Parsed<M, E>, t: seq<byte>, second: Parsed<M, E>, whole: Parsed<M, E>)
    requires Resumes(first, t, second, whole)
    ensures Resumes(first.(messages := [m] + first.messages), t, second, whole.(messages := [m] + whole.messages))
  {
    assert [m] + (first.messages + second.messages) == [m] + first.messages + second.messages;
  }

  lemma StableAt<M(!new), E(!new)>(parse: seq<byte> -> ParseResult<M, E>, s: seq<byte>, t: seq<byte>)
    requires PrefixStable(parse)
    ensures StableOn(parse, s, t)
  {
  }

  // ---- the fixed-header framer

  /** A protocol with a fixed-size header: validation and the body size, either of which may fail. */
  datatype HeaderProtocol<E> = HeaderProtocol(headerSize: nat, validate: seq<byte> -> Option<E>,
                                              bodySize: seq<byte> -> Result<nat, E>)

  datatype Result<T, E> = Ok(value: T) | Err(reason: E)

  datatype Frame = Frame(header: seq<byte>, body: seq<byte>)

  function ParseFrame<E>(p: HeaderProtocol<E>, s: seq<byte>): ParseResult<Frame, E>
  {
    if |s| < p.headerSize then NeedMore(p.headerSize - |s|)
    else
      var h := s[..p.headerSize];
      if p.validate(h).Some? then Error(p.validate(h).value)
      else
        match p.bodySize(h)
        case Err(e) => Error(e)
        case Ok(n) =>
          if |s| < p.headerSize + n then NeedMore(p.headerSize + n - |s|)
          else Message(Frame(h, s[p.headerSize..p.headerSize + n]), p.headerSize + n)
  }

  /** The framer as a function value, ready for the read path. */
  function Framer<E>(p: HeaderProtocol<E>): seq<byte> -> ParseResult<Frame, E>
  {
    (s: seq<byte>) => ParseFrame(p, s)
  }

  /** A header that is not empty makes the framer prefix-stable, with exact demands. */
  lemma FramerIsStable<E(!new)>(p: HeaderProtocol<E>)
    requires p.headerSize > 0
    ensures PrefixStable(Framer(p))
  {
    forall s: seq<byte>, t: seq<byte> ensures StableOn(Framer(p), s, t) {
      if |s| >= p.headerSize {
        assert (s + t)[..p.headerSize] == s[..p.headerSize];
        var b := p.bodySize(s[..p.headerSize]);
        if b.Ok? && |s| >= p.headerSize + b.value {
          assert (s + t)[p.headerSize..p.headerSize + b.value] == s[p.headerSize..p.headerSize + b.value];
        }
      }
    }
  }

  // ---- what frames hold

  /** A frame as a sender writes it: a header that passes, announcing exactly the body that follows. */
  predicate Sendable<E>(p: HeaderProtocol<E>, f: Frame)
  {
    |f.header| == p.headerSize && p.validate(f.header).None? && p.bodySize(f.header) == Ok(|f.body|)
  }

  /** A header for which the protocol has no frame. */
  predicate Refused<E>(p: HeaderProtocol<E>, h: seq<byte>) { p.validate(h).Some? || p.bodySize(h).Err? }

  /** A frame written out is read back, header and body, whatever follows it. */
  lemma FrameRoundTrip<E>(p: HeaderProtocol<E>, f: Frame, rest: seq<byte>)
    requires Sendable(p, f)
    ensures ParseFrame(p, f.header + f.body + rest) == Message(f, |f.header| + |f.body|)
  {
    var s := f.header + f.body + rest;
    assert s[..p.headerSize] == f.header;
    assert s[p.headerSize..p.headerSize + |f.body|] == f.body;
  }

  predicate StartsWithFrame<E>(p: HeaderProtocol<E>, s: seq<byte>, f: Frame)
  {
    Sendable(p, f) && f.header + f.body <= s
  }

  predicate StartsWithRefused<E>(p: HeaderProtocol<E>, s: seq<byte>, h: seq<byte>)
  {
    |h| == p.headerSize && h <= s && Refused(p, h)
  }

  /** A message is answered if and only if the input starts with a written frame, and is that frame. */
  lemma MessagesAreFrames<E>(p: HeaderProtocol<E>, s: seq<byte>)
    ensures ParseFrame(p, s).Message? <==> exists f: Frame :: StartsWithFrame(p, s, f)
    ensures forall f: Frame :: StartsWithFrame(p, s, f) ==> ParseFrame(p, s) == Message(f, |f.header| + |f.body|)
  {
    hide ParseFrame;
    forall f: Frame | StartsWithFrame(p, s, f) ensures ParseFrame(p, s) == Message(f, |f.header| + |f.body|) {
      var rest := s[|f.header + f.body|..];
      assert s == f.header + f.body + rest;
      FrameRoundTrip(p, f, rest);
    }
    if ParseFrame(p, s).Message? {
      MessageIsPrefix(p, s);
    }
  }

  lemma MessageIsPrefix<E>(p: HeaderProtocol<E>, s: seq<byte>)
    requires ParseFrame(p, s).Message?
    ensures StartsWithFrame(p, s, ParseFrame(p, s).message)
  {
    var f := ParseFrame(p, s).message;
    assert f.header + f.body == s[..p.headerSize + |f.body|];
  }

  /** An error is answered if and only if the input starts with a refused header, validation speaking
      first. */
  lemma ErrorsAreRefusals<E>(p: HeaderProtocol<E>, s: seq<byte>)
    ensures ParseFrame(p, s).Error? <==> exists h: seq<byte> :: StartsWithRefused(p, s, h)
    ensures forall h: seq<byte> :: StartsWithRefused(p, s, h) ==>
              ParseFrame(p, s) == Error(if p.validate(h).Some? then p.validate(h).value else p.bodySize(h).reason)
  {
    forall h: seq<byte> | StartsWithRefused(p, s, h) ensures h == s[..p.headerSize] {
    }
    if ParseFrame(p, s).Error? {
      assert StartsWithRefused(p, s, s[..p.headerSize]);
    }
  }

  /** A demand completes the header, or, once that is there, the frame. */
  lemma FrameDemandIsExact<E>(p: HeaderProtocol<E>, s: seq<byte>, t: seq<byte>)
    requires ParseFrame(p, s).NeedMore? && |t| == ParseFrame(p, s).need
    ensures t != [] && if |s| < p.headerSize then |s + t| == p.headerSize else ParseFrame(p, s + t).Message?
  {
    if |s| >= p.headerSize {
      assert (s + t)[..p.headerSize] == s[..p.headerSize];
    }
  }

  function Written(frames: seq<Frame>): seq<byte>
  {
    if frames == [] then [] else frames[0].header + frames[0].body + Written(frames[1..])
  }

  /** Reading the first message and going on behind it. */
  lemma FirstMessage<M, E>(parse: seq<byte> -> ParseResult<M, E>, s: seq<byte>, t: seq<byte>, m: M)
    requires s != [] && parse(s + t) == Message(m, |s|)
    ensures ParseAll(parse, s + t) == ParseAll(parse, t).(messages := [m] + ParseAll(parse, t).messages)
  {
    assert (s + t)[|s|..] == t;
  }

  /** A stream of written frames is read back as those frames, in order, and what follows them is read
      as if they had not been there. */
  lemma {:induction false} StreamRoundTrip<E>(p: HeaderProtocol<E>, frames: seq<Frame>, rest: seq<byte>)
    requires p.headerSize > 0 && forall i :: 0 <= i < |frames| ==> Sendable(p, frames[i])
    ensures var after := ParseAll(Framer(p), rest);
            ParseAll(Framer(p), Written(frames) + rest) == after.(messages := frames + after.messages)
    decreases |frames|
  {
    hide ParseAll, ParseFrame;
    var after := ParseAll(Framer(p), rest);
    if frames == [] {
      assert Written(frames) + rest == rest && frames + after.messages == after.messages;
    } else {
      var f, tail := frames[0], Written(frames[1..]) + rest;
      assert Written(frames) + rest == f.header + f.body + tail;
      FrameRoundTrip(p, f, tail);
      FirstMessage(Framer(p), f.header + f.body, tail, f);
      StreamRoundTrip(p, frames[1..], rest);
      assert frames + after.messages == [f] + (frames[1..] + after.messages);
    }
  }
}
