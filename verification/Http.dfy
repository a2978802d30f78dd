/** The admin endpoint's HTTP/1.1 request framer: how it cuts a head out of a growing buffer, which
    heads it accepts, and why its answer never changes once it is given. */
module Http {
  import opened Basics
  import opened Framing

  const CR: byte := 13
  const LF: byte := 10
  const TAB: byte := 9
  const SPACE: byte := 32
  const COLON: byte := 58
  const COMMA: byte := 44
  const QUESTION: byte := 63
  const CRLF: seq<byte> := [CR, LF]
  const BLANK_LINE: seq<byte> := [CR, LF, CR, LF]
  const CONTENT_LENGTH: seq<byte> := [99, 111, 110, 116, 101, 110, 116, 45, 108, 101, 110, 103, 116, 104]

  datatype HttpProto = HttpProto(maxHead: nat, maxBody: nat)

  datatype HttpError = BadRequest | FrameTooLarge

  datatype Request = Request(verb: seq<byte>, path: seq<byte>, query: seq<byte>, version: seq<byte>,
                             body: seq<byte>, contentLength: nat)

  /** What the head alone decides. */
  datatype Head = Head(verb: seq<byte>, path: seq<byte>, query: seq<byte>, version: seq<byte>)

  // ---- searching

  predicate OccursAt(s: seq<byte>, pat: seq<byte>, i: nat)
  {
    i + |pat| <= |s| && s[i..i + |pat|] == pat
  }

  function Find(s: seq<byte>, pat: seq<byte>, from: nat): (r: Option<nat>)
    ensures r.Some? ==> from <= r.value && OccursAt(s, pat, r.value)
    ensures forall j: nat :: from <= j && (r.Some? ==> j < r.value) ==> !OccursAt(s, pat, j)
    decreases |s| - from
  {
    if from + |pat| > |s| then None
    else if OccursAt(s, pat, from) then Some(from)
    else Find(s, pat, from + 1)
  }

  /** The search finds the occurrence that has none before it. */
  lemma {:induction false} FindIs(s: seq<byte>, pat: seq<byte>, from: nat, i: nat)
    requires from <= i && OccursAt(s, pat, i) && (forall j: nat :: from <= j < i ==> !OccursAt(s, pat, j))
    ensures Find(s, pat, from) == Some(i)
  {
    var r := Find(s, pat, from);
    assert r.Some? && r.value <= i;
  }

  lemma OccursInPrefix(s: seq<byte>, t: seq<byte>, pat: seq<byte>, i: nat)
    requires i + |pat| <= |s|
    ensures OccursAt(s + t, pat, i) == OccursAt(s, pat, i)
  {
    assert (s + t)[i..i + |pat|] == s[i..i + |pat|];
  }

  /** Index of the last space. */
  function LastSpace(s: seq<byte>): (r: Option<nat>)
    ensures r.Some? ==> r.value < |s| && s[r.value] == SPACE
    ensures forall j :: 0 <= j < |s| && (r.Some? ==> r.value < j) ==> s[j] != SPACE
  {
    if s == [] then None
    else if s[|s| - 1] == SPACE then Some(|s| - 1)
    else LastSpace(s[..|s| - 1])
  }

  // ---- Content-Length

  predicate IsBlank(b: byte) { b == SPACE || b == TAB }

  function TrimFront(v: seq<byte>): seq<byte>
  {
    if v != [] && IsBlank(v[0]) then TrimFront(v[1..]) else v
  }

  function TrimBack(v: seq<byte>): seq<byte>
  {
    if v != [] && IsBlank(v[|v| - 1]) then TrimBack(v[..|v| - 1]) else v
  }

  predicate AllDigits(v: seq<byte>)
  {
    forall i :: 0 <= i < |v| ==> 48 <= v[i] <= 57
  }

  function Decimal(v: seq<byte>): nat
    requires AllDigits(v)
  {
    if v == [] then 0 else Decimal(v[..|v| - 1]) * 10 + (v[|v| - 1] - 48)
  }

  /** The value of a length field: one to ten digits, blanks around them tolerated. */
  function LengthValue(v: seq<byte>): Option<nat>
  {
    var t := TrimBack(TrimFront(v));
    if t == [] || |t| > 10 || !AllDigits(t) then None else Some(Decimal(t))
  }

  method ParseContentLength(value: seq<byte>) returns (r: Option<nat>)
    ensures r == LengthValue(value)
  {
    var v := value;
    while v != [] && IsBlank(v[0])
      invariant TrimFront(v) == TrimFront(value)
    {
      v := v[1..];
    }
    ghost var front := v;
    while v != [] && IsBlank(v[|v| - 1])
      invariant TrimBack(v) == TrimBack(front)
    {
      v := v[..|v| - 1];
    }
    if v == [] || |v| > 10 {
      return None;
    }
    var n: nat := 0;
    for i := 0 to |v|
      invariant AllDigits(v[..i]) && n == Decimal(v[..i])
    {
      if v[i] < 48 || v[i] > 57 {
        return None;
      }
      assert v[..i + 1][..i] == v[..i];
      n := n * 10 + (v[i] - 48);
    }
    assert v[..|v|] == v;
    return Some(n);
  }

  /** A byte with bit 5 set, as the name comparison folds it. */
  function Fold(b: byte): byte
  {
    if b / 32 % 2 == 0 then b + 32 else b
  }

  predicate SameName(a: seq<byte>, b: seq<byte>)
  {
    |a| == |b| && forall i :: 0 <= i < |a| ==> Fold(a[i]) == Fold(b[i])
  }

  method EqualNames(a: seq<byte>, b: seq<byte>) returns (r: bool)
    ensures r == SameName(a, b)
  {
    if |a| != |b| {
      return false;
    }
    for i := 0 to |a|
      invariant forall j :: 0 <= j < i ==> Fold(a[j]) == Fold(b[j])
    {
      if Fold(a[i]) != Fold(b[i]) {
        return false;
      }
    }
    return true;
  }

  /** Equal up to the case of a letter. */
  predicate SameLetter(a: byte, b: byte)
  {
    a == b || (97 <= b <= 122 && a + 32 == b)
  }

  /** The comparison ignores case and nothing else, except that the hyphen also matches a carriage
      return: the two differ in the folded bit only. */
  lemma NameIsContentLength(name: seq<byte>)
    ensures SameName(name, CONTENT_LENGTH) <==>
            |name| == |CONTENT_LENGTH| &&
            forall i :: 0 <= i < |name| ==> SameLetter(name[i], CONTENT_LENGTH[i]) || (i == 7 && name[i] == CR)
  {
    if |name| == |CONTENT_LENGTH| {
      forall i | 0 <= i < |name|
        ensures Fold(name[i]) == Fold(CONTENT_LENGTH[i]) <==>
                SameLetter(name[i], CONTENT_LENGTH[i]) || (i == 7 && name[i] == CR)
      {
        FoldedLetter(name[i], CONTENT_LENGTH[i]);
      }
    }
  }

  lemma FoldedLetter(a: byte, b: byte)
    requires b == 45 || 97 <= b <= 122
    ensures Fold(a) == Fold(b) <==> SameLetter(a, b) || (b == 45 && a == CR)
  {
  }

  datatype Field = Other | Malformed | Length(length: nat)

  /** What one header line says about the body. */
  function FieldOf(line: seq<byte>): Field
  {
    match Find(line, [COLON], 0)
    case None => Other
    case Some(colon) =>
      if !SameName(line[..colon], CONTENT_LENGTH) then Other
      else
        match LengthValue(line[colon + 1..])
        case None => Malformed
        case Some(n) => Length(n)
  }

  /** The header lines from a position on: the last length given wins, a malformed one is final. */
  function LengthFrom(head: seq<byte>, pos: nat, soFar: nat): Option<nat>
    decreases |head| - pos
  {
    if pos + 2 >= |head| then Some(soFar)
    else
      match Find(head, CRLF, pos)
      case None => Some(soFar)
      case Some(nl) =>
        match FieldOf(head[pos..nl])
        case Other => LengthFrom(head, nl + 2, soFar)
        case Malformed => None
        case Length(n) => LengthFrom(head, nl + 2, n)
  }

  method ParseField(line: seq<byte>) returns (r: Field)
    ensures r == FieldOf(line)
  {
    var colon := Find(line, [COLON], 0);
    if colon.None? {
      return Other;
    }
    var same := EqualNames(line[..colon.value], CONTENT_LENGTH);
    if !same {
      return Other;
    }
    var n := ParseContentLength(line[colon.value + 1..]);
    return if n.None? then Malformed else Length(n.value);
  }

  method ParseFields(head: seq<byte>, start: nat) returns (r: Option<nat>)
    ensures r == LengthFrom(head, start, 0)
  {
    hide FieldOf, OccursAt;
    var contentLength: nat, pos := 0, start;
    while pos + 2 < |head|
      invariant LengthFrom(head, pos, contentLength) == LengthFrom(head, start, 0)
      decreases |head| - pos
    {
      var nl := Find(head, CRLF, pos);
      if nl.None? {
        break;
      }
      FoundInside(head, CRLF, pos);
      var field := ParseField(head[pos..nl.value]);
      pos := nl.value + 2;
      match field
      case Other =>
      case Malformed => return None;
      case Length(n) => contentLength := n;
    }
    return Some(contentLength);
  }

  lemma FoundInside(s: seq<byte>, pat: seq<byte>, from: nat)
    ensures Find(s, pat, from).Some? ==> from <= Find(s, pat, from).value <= |s| - |pat|
  {
  }

  // ---- the request line

  /** Method, target and version: the text before the first space, between it and the last one, and
      after that. The first question mark separates path and query. */
  function RequestLine(line: seq<byte>): Option<Head>
  {
    var sp1, sp2 := Find(line, [SPACE], 0), LastSpace(line);
    if sp1.None? || sp1 == sp2 then None
    else
      assert line[sp1.value..sp1.value + 1][0] == SPACE;
      var target := line[sp1.value + 1..sp2.value];
      match Find(target, [QUESTION], 0)
      case Some(q) => Some(Head(line[..sp1.value], target[..q], target[q + 1..], line[sp2.value + 1..]))
      case None => Some(Head(line[..sp1.value], target, [], line[sp2.value + 1..]))
  }

  // ---- the framer

  /** Where the head ends: behind the first blank line within the size limit. */
  function HeadEnd(s: seq<byte>, maxHead: nat): Option<nat>
  {
    match Find(s[..if |s| < maxHead then |s| else maxHead], BLANK_LINE, 0)
    case None => None
    case Some(i) => Some(i + 4)
  }

  method ScanHead(s: seq<byte>, maxHead: nat) returns (r: Option<nat>)
    ensures r == HeadEnd(s, maxHead)
  {
    var scan := if |s| < maxHead then |s| else maxHead;
    var i := 0;
    while i + 3 < scan
      invariant Find(s[..scan], BLANK_LINE, i) == Find(s[..scan], BLANK_LINE, 0)
    {
      if s[i] == CR && s[i + 1] == LF && s[i + 2] == CR && s[i + 3] == LF {
        assert s[..scan][i..i + 4] == BLANK_LINE;
        return Some(i + 4);
      }
      assert s[..scan][i..i + 4] == [s[i], s[i + 1], s[i + 2], s[i + 3]];
      i := i + 1;
    }
    return None;
  }

  /** The request line and the body length that a complete head announces. */
  function ParseHead(head: seq<byte>): Option<(Head, nat)>
  {
    match Find(head, CRLF, 0)
    case None => None
    case Some(eol) =>
      match RequestLine(head[..eol])
      case None => None
      case Some(h) =>
        match LengthFrom(head, eol + 2, 0)
        case None => None
        case Some(n) => Some((h, n))
  }

  function ParseRequest(p: HttpProto, s: seq<byte>): ParseResult<Request, HttpError>
  {
    match HeadEnd(s, p.maxHead)
    case None => if |s| >= p.maxHead then Error(FrameTooLarge) else NeedMore(1)
    case Some(end) =>
      assert end <= |s|;
      match ParseHead(s[..end])
      case None => Error(BadRequest)
      case Some((h, n)) =>
        if n > p.maxBody then Error(FrameTooLarge)
        else if |s| < end + n then NeedMore(end + n - |s|)
        else Message(Request(h.verb, h.path, h.query, h.version, s[end..end + n], n), end + n)
  }

  method Parse(p: HttpProto, s: seq<byte>) returns (r: ParseResult<Request, HttpError>)
    ensures r == ParseRequest(p, s)
  {
    hide Find, RequestLine, LengthFrom;
    var end := ScanHead(s, p.maxHead);
    if end.None? {
      return if |s| >= p.maxHead then Error(FrameTooLarge) else NeedMore(1);
    }
    var head := s[..end.value];
    var eol := Find(head, CRLF, 0);
    if eol.None? {
      return Error(BadRequest);
    }
    var h := RequestLine(head[..eol.value]);
    if h.None? {
      return Error(BadRequest);
    }
    var n := ParseFields(head, eol.value + 2);
    if n.None? {
      return Error(BadRequest);
    }
    if n.value > p.maxBody {
      return Error(FrameTooLarge);
    }
    var total := end.value + n.value;
    if |s| < total {
      return NeedMore(total - |s|);
    }
    return Message(Request(h.value.verb, h.value.path, h.value.query, h.value.version,
                           s[end.value..total], n.value), total);
  }

  // ---- prefix stability

  /** A head that is complete stays the same head when more bytes follow. */
  lemma HeadStays(s: seq<byte>, t: seq<byte>, maxHead: nat)
    ensures HeadEnd(s, maxHead).Some? ==> HeadEnd(s, maxHead).value <= |s| && HeadEnd(s + t, maxHead) == HeadEnd(s, maxHead)
    ensures HeadEnd(s, maxHead).None? && |s| >= maxHead ==> HeadEnd(s + t, maxHead).None?
  {
    var a := s[..if |s| < maxHead then |s| else maxHead];
    var all := s + t;
    var b := all[..if |all| < maxHead then |all| else maxHead];
    if |s| >= maxHead {
      assert a == b;
    } else if Find(a, BLANK_LINE, 0).Some? {
      var i := Find(a, BLANK_LINE, 0).value;
      assert b == a + b[|a|..];
      forall j: nat | j <= i ensures OccursAt(b, BLANK_LINE, j) == OccursAt(a, BLANK_LINE, j) {
        OccursInPrefix(a, b[|a|..], BLANK_LINE, j);
      }
      FindIs(b, BLANK_LINE, 0, i);
    }
  }

  function HttpFramer(p: HttpProto): seq<byte> -> ParseResult<Request, HttpError>
  {
    (s: seq<byte>) => ParseRequest(p, s)
  }

  /** Messages, errors and demands of the request framer survive every extension of the input. */
  lemma HttpIsStable(p: HttpProto)
    ensures PrefixStable(HttpFramer(p))
  {
    forall s: seq<byte>, t: seq<byte> ensures StableOn(HttpFramer(p), s, t) {
      StableRequest(p, s, t);
    }
  }

  lemma StableRequest(p: HttpProto, s: seq<byte>, t: seq<byte>)
    ensures StableOn(HttpFramer(p), s, t)
  {
    hide HeadEnd, ParseHead;
    HeadStays(s, t, p.maxHead);
    HeadIsLong(s, p.maxHead);
    var end := HeadEnd(s, p.maxHead);
    if end.Some? {
      assert (s + t)[..end.value] == s[..end.value];
      var head := ParseHead(s[..end.value]);
      if head.Some? && |s| >= end.value + head.value.1 {
        assert (s + t)[end.value..end.value + head.value.1] == s[end.value..end.value + head.value.1];
      }
    } else {
      assert t == [] ==> s + t == s;
    }
  }

  lemma HeadIsLong(s: seq<byte>, maxHead: nat)
    ensures HeadEnd(s, maxHead).Some? ==> 4 <= HeadEnd(s, maxHead).value <= |s|
  {
  }

  /** Once the head is complete the demand is exact: that many more bytes make the message. */
  lemma DemandIsExact(p: HttpProto, s: seq<byte>, t: seq<byte>)
    requires HeadEnd(s, p.maxHead).Some? && ParseRequest(p, s).NeedMore? && |t| >= ParseRequest(p, s).need
    ensures ParseRequest(p, s + t).Message? && ParseRequest(p, s + t).consumed == |s| + ParseRequest(p, s).need
  {
    hide HeadEnd, ParseHead;
    HeadStays(s, t, p.maxHead);
    var end := HeadEnd(s, p.maxHead).value;
    assert (s + t)[..end] == s[..end];
  }

  // ---- which heads there are

  ghost predicate Plain(line: seq<byte>)
  {
    forall j: nat :: !OccursAt(line, CRLF, j)
  }

  ghost predicate FieldLines(fields: seq<seq<byte>>)
  {
    forall i :: 0 <= i < |fields| ==> fields[i] != [] && Plain(fields[i])
  }

  function Lines(lines: seq<seq<byte>>): seq<byte>
  {
    if lines == [] then [] else lines[0] + CRLF + Lines(lines[1..])
  }

  /** A head written out: the request line, the header lines, a blank line. */
  function HeadText(line: seq<byte>, fields: seq<seq<byte>>): seq<byte>
  {
    line + CRLF + Lines(fields) + CRLF
  }

  /** The body length that a list of header lines announces. */
  function AnnouncedLength(fields: seq<seq<byte>>, soFar: nat): Option<nat>
  {
    if fields == [] then Some(soFar)
    else
      match FieldOf(fields[0])
      case Other => AnnouncedLength(fields[1..], soFar)
      case Malformed => None
      case Length(n) => AnnouncedLength(fields[1..], n)
  }

  lemma OccursMeans(s: seq<byte>, i: nat)
    ensures OccursAt(s, CRLF, i) <==> i + 2 <= |s| && s[i] == CR && s[i + 1] == LF
    ensures OccursAt(s, BLANK_LINE, i) <==> OccursAt(s, CRLF, i) && OccursAt(s, CRLF, i + 2)
  {
    if i + 4 <= |s| {
      assert s[i..i + 4] == s[i..i + 2] + s[i + 2..i + 4];
      assert s[i..i + 4][..2] == s[i..i + 2] && s[i..i + 4][2..] == s[i + 2..i + 4];
    }
  }

  /** No line end begins inside a plain line that is followed by a line end. */
  lemma LineEndsAtEnd(before: seq<byte>, line: seq<byte>, after: seq<byte>, j: nat)
    requires Plain(line) && |before| <= j <= |before| + |line|
    ensures OccursAt(before + (line + CRLF + after), CRLF, j) <==> j == |before| + |line|
  {
    var s := before + (line + CRLF + after);
    OccursMeans(s, j);
    var k := j - |before|;
    OccursMeans(line, k);
    assert !OccursAt(line, CRLF, k);
    assert s[j] == (line + CRLF + after)[k];
  }

  /** The line end that a search from the start of a line finds is that line's own. */
  lemma FindsLineEnd(before: seq<byte>, line: seq<byte>, after: seq<byte>)
    requires Plain(line)
    ensures Find(before + (line + CRLF + after), CRLF, |before|) == Some(|before| + |line|)
  {
    hide OccursAt, Plain, Find;
    var s, end := before + (line + CRLF + after), |before| + |line|;
    forall j: nat | |before| <= j <= end ensures OccursAt(s, CRLF, j) <==> j == end {
      LineEndsAtEnd(before, line, after, j);
    }
    FindIs(s, CRLF, |before|, end);
  }

  /** The header loop reads exactly the header lines. */
  lemma {:induction false} LengthOfLines(before: seq<byte>, fields: seq<seq<byte>>, soFar: nat)
    requires FieldLines(fields)
    ensures LengthFrom(before + (Lines(fields) + CRLF), |before|, soFar) == AnnouncedLength(fields, soFar)
    decreases |fields|
  {
    hide OccursAt, Plain, FieldOf, Find;
    var s := before + (Lines(fields) + CRLF);
    if fields != [] {
      var f, after := fields[0], Lines(fields[1..]) + CRLF;
      assert Lines(fields) + CRLF == f + CRLF + after;
      FindsLineEnd(before, f, after);
      assert s[|before|..|before| + |f|] == f;
      var next := before + f + CRLF;
      assert s == next + after;
      var n := match FieldOf(f) case Length(n) => n case _ => soFar;
      LengthOfLines(next, fields[1..], n);
    }
  }

  /** A blank line begins only at the end of the written head. */
  lemma {:induction false} BlankLineIsLast(before: seq<byte>, line: seq<byte>, fields: seq<seq<byte>>, rest: seq<byte>, j: nat)
    requires Plain(line) && FieldLines(fields) && |before| <= j < |before| + |HeadText(line, fields)| - 4
    ensures !OccursAt(before + (HeadText(line, fields) + rest), BLANK_LINE, j)
    decreases |fields|
  {
    hide OccursAt, Plain;
    var s := before + (HeadText(line, fields) + rest);
    var after := Lines(fields) + CRLF + rest;
    assert HeadText(line, fields) + rest == line + CRLF + after;
    OccursMeans(s, j);
    if j <= |before| + |line| {
      LineEndsAtEnd(before, line, after, j);
    }
    if fields != [] {
      var next := before + (line + CRLF);
      assert HeadText(line, fields) == line + CRLF + HeadText(fields[0], fields[1..]);
      assert s == next + (HeadText(fields[0], fields[1..]) + rest);
      if j == |before| + |line| {
        var later := Lines(fields[1..]) + CRLF + rest;
        assert HeadText(fields[0], fields[1..]) + rest == fields[0] + CRLF + later;
        LineEndsAtEnd(next, fields[0], later, |next|);
      } else if j == |before| + |line| + 1 {
        OccursMeans(s, j);
        assert s[j] == LF;
      } else if j >= |next| {
        BlankLineIsLast(next, fields[0], fields[1..], rest, j);
      }
    }
  }

  /** Every written head is found and understood, whatever follows it. */
  lemma HeadIsFound(line: seq<byte>, fields: seq<seq<byte>>, rest: seq<byte>, maxHead: nat)
    requires Plain(line) && FieldLines(fields)
    ensures var text := HeadText(line, fields);
            HeadEnd(text + rest, maxHead) == if |text| <= maxHead then Some(|text|) else None
  {
    hide OccursAt, Plain;
    var text := HeadText(line, fields);
    var n := |text| - 4;
    var all := text + rest;
    var scan := all[..if |all| < maxHead then |all| else maxHead];
    forall j: nat | j < n ensures !OccursAt(scan, BLANK_LINE, j) {
      BlankLineIsLast([], line, fields, rest, j);
      assert [] + all == all;
      PrefixOccurs(all, |scan|, BLANK_LINE, j);
    }
    BlankLineAtEnd(line, fields, rest);
    if |text| <= maxHead {
      PrefixOccurs(all, |scan|, BLANK_LINE, n);
      FindIs(scan, BLANK_LINE, 0, n);
    } else {
      FoundInside(scan, BLANK_LINE, 0);
    }
  }

  lemma PrefixOccurs(s: seq<byte>, n: nat, pat: seq<byte>, i: nat)
    requires n <= |s|
    ensures OccursAt(s[..n], pat, i) <==> i + |pat| <= n && OccursAt(s, pat, i)
  {
    if i + |pat| <= n {
      assert s[..n][i..i + |pat|] == s[i..i + |pat|];
    }
  }

  lemma {:induction false} BlankLineAtEnd(line: seq<byte>, fields: seq<seq<byte>>, rest: seq<byte>)
    ensures |HeadText(line, fields)| >= 4
    ensures OccursAt(HeadText(line, fields) + rest, BLANK_LINE, |HeadText(line, fields)| - 4)
    decreases |fields|
  {
    var text := HeadText(line, fields);
    if fields == [] {
      assert text + rest == line + BLANK_LINE + rest;
    } else {
      var tail := HeadText(fields[0], fields[1..]);
      BlankLineAtEnd(fields[0], fields[1..], rest);
      assert text == line + CRLF + tail;
      assert text + rest == (line + CRLF) + (tail + rest);
      OccursLater(line + CRLF, tail + rest, BLANK_LINE, |tail| - 4);
    }
  }

  lemma OccursLater(s: seq<byte>, t: seq<byte>, pat: seq<byte>, i: nat)
    ensures OccursAt(s + t, pat, |s| + i) == OccursAt(t, pat, i)
  {
    if i + |pat| <= |t| {
      assert (s + t)[|s| + i..|s| + i + |pat|] == t[i..i + |pat|];
    }
  }

  /** The framer reads back what a written head says: request line and announced length. */
  lemma HeadRoundTrip(line: seq<byte>, fields: seq<seq<byte>>)
    requires Plain(line) && FieldLines(fields)
    ensures var h, n := RequestLine(line), AnnouncedLength(fields, 0);
            ParseHead(HeadText(line, fields)) == if h.None? || n.None? then None else Some((h.value, n.value))
  {
    hide OccursAt, Plain, FieldOf, Find, RequestLine, LengthFrom, AnnouncedLength;
    var text := HeadText(line, fields);
    FindsLineEnd([], line, Lines(fields) + CRLF);
    assert text == [] + (line + CRLF + (Lines(fields) + CRLF));
    assert text[..|line|] == line;
    LengthOfLines(line + CRLF, fields, 0);
    assert text == (line + CRLF) + (Lines(fields) + CRLF);
  }

  /** Conversely, whatever ends with its first blank line is a written head. */
  lemma {:induction false} SplitHead(s: seq<byte>) returns (line: seq<byte>, fields: seq<seq<byte>>)
    requires |s| >= 4 && Find(s, BLANK_LINE, 0) == Some(|s| - 4)
    ensures Plain(line) && FieldLines(fields) && s == HeadText(line, fields)
    decreases |s|
  {
    hide Find;
    var nl := FirstLineEnd(s);
    line := s[..nl];
    if nl == |s| - 4 {
      fields := [];
      assert s == line + CRLF + CRLF by { OccursMeans(s, nl); OccursMeans(s, nl + 2); }
    } else {
      var tail := s[nl + 2..];
      assert s == s[..nl + 2] + tail;
      assert s[..nl + 2] == line + CRLF;
      TailBlankLine(s, nl);
      var first, others := SplitHead(tail);
      OccursMeans(s, nl + 2);
      assert tail[|first|] == CR && tail[|first| + 1] == LF;
      fields := [first] + others;
      assert fields[1..] == others;
      assert HeadText(line, fields) == line + CRLF + HeadText(first, others);
    }
  }

  lemma FirstLineEnd(s: seq<byte>) returns (nl: nat)
    requires |s| >= 4 && OccursAt(s, BLANK_LINE, |s| - 4)
    ensures nl <= |s| - 4 && OccursAt(s, CRLF, nl) && Plain(s[..nl])
  {
    OccursMeans(s, |s| - 4);
    nl := Find(s, CRLF, 0).value;
    forall j: nat ensures !OccursAt(s[..nl], CRLF, j) {
      PrefixOccurs(s, nl, CRLF, j);
    }
  }

  /** Behind a line end that is not part of the blank line, a non-empty line begins. */
  lemma TailBlankLine(s: seq<byte>, nl: nat)
    requires |s| >= 4 && Find(s, BLANK_LINE, 0) == Some(|s| - 4)
    requires nl < |s| - 4 && OccursAt(s, CRLF, nl)
    ensures |s| - nl - 2 >= 4 && Find(s[nl + 2..], BLANK_LINE, 0) == Some(|s| - nl - 2 - 4)
    ensures !OccursAt(s, CRLF, nl + 2)
  {
    hide Find, OccursAt;
    OccursMeans(s, nl);
    OccursMeans(s, |s| - 4);
    assert nl != |s| - 5;
    var tail := s[nl + 2..];
    assert s == s[..nl + 2] + tail;
    forall j: nat ensures OccursAt(tail, BLANK_LINE, j) == OccursAt(s, BLANK_LINE, nl + 2 + j) {
      OccursLater(s[..nl + 2], tail, BLANK_LINE, j);
    }
    FindIs(tail, BLANK_LINE, 0, |tail| - 4);
    assert !OccursAt(s, BLANK_LINE, nl);
  }

  /** The heads that the framer finds are exactly the written heads within the size limit. */
  lemma HeadsAreTexts(s: seq<byte>, maxHead: nat)
    ensures HeadEnd(s, maxHead).Some? <==>
            exists line: seq<byte>, fields: seq<seq<byte>> {:trigger HeadText(line, fields)} ::
              Plain(line) && FieldLines(fields) && |HeadText(line, fields)| <= maxHead && HeadText(line, fields) <= s
  {
    hide Plain;
    var end := HeadEnd(s, maxHead);
    if end.Some? {
      var scan := s[..if |s| < maxHead then |s| else maxHead];
      var head := s[..end.value];
      FirstIsLast(scan, end.value - 4);
      assert scan[..end.value] == head;
      var line, fields := SplitHead(head);
      assert HeadText(line, fields) <= s;
    }
    if line: seq<byte>, fields: seq<seq<byte>> {:trigger HeadText(line, fields)} :|
      Plain(line) && FieldLines(fields) && |HeadText(line, fields)| <= maxHead && HeadText(line, fields) <= s
    {
      var text := HeadText(line, fields);
      assert s == text + s[|text|..];
      HeadIsFound(line, fields, s[|text|..], maxHead);
    }
  }

  lemma FirstIsLast(s: seq<byte>, i: nat)
    requires Find(s, BLANK_LINE, 0) == Some(i)
    ensures i + 4 <= |s| && Find(s[..i + 4], BLANK_LINE, 0) == Some(i)
  {
    hide Find, OccursAt;
    FoundInside(s, BLANK_LINE, 0);
    var t := s[..i + 4];
    forall j: nat | j <= i ensures OccursAt(t, BLANK_LINE, j) == OccursAt(s, BLANK_LINE, j) {
      PrefixOccurs(s, i + 4, BLANK_LINE, j);
    }
    FindIs(t, BLANK_LINE, 0, i);
  }

  /** A request written out is read back whole, and nothing behind it is touched. */
  lemma RequestRoundTrip(p: HttpProto, line: seq<byte>, fields: seq<seq<byte>>, body: seq<byte>, rest: seq<byte>)
    requires Plain(line) && RequestLine(line).Some? && FieldLines(fields)
    requires AnnouncedLength(fields, 0) == Some(|body|) && |body| <= p.maxBody && |HeadText(line, fields)| <= p.maxHead
    ensures var h, text := RequestLine(line).value, HeadText(line, fields);
            ParseRequest(p, text + body + rest) ==
            Message(Request(h.verb, h.path, h.query, h.version, body, |body|), |text| + |body|)
  {
    hide Plain, RequestLine, AnnouncedLength, ParseHead, HeadEnd;
    var text := HeadText(line, fields);
    var s := text + body + rest;
    assert s == text + (body + rest);
    HeadIsFound(line, fields, body + rest, p.maxHead);
    assert s[..|text|] == text;
    HeadRoundTrip(line, fields);
    assert s[|text|..|text| + |body|] == body;
  }

  /** What a complete head decides: a bad request line or length is an error, a length beyond the limit is
      another; else the demand is exactly the missing part of the body, and the message holds it all. */
  lemma HeadDecides(p: HttpProto, line: seq<byte>, fields: seq<seq<byte>>, rest: seq<byte>)
    requires Plain(line) && FieldLines(fields) && |HeadText(line, fields)| <= p.maxHead
    ensures var h, n, text := RequestLine(line), AnnouncedLength(fields, 0), HeadText(line, fields);
            var r := ParseRequest(p, text + rest);
            if h.None? || n.None? then r == Error(BadRequest)
            else if n.value > p.maxBody then r == Error(FrameTooLarge)
            else if |rest| < n.value then r == NeedMore(n.value - |rest|)
            else r == Message(Request(h.value.verb, h.value.path, h.value.query, h.value.version, rest[..n.value], n.value),
                              |text| + n.value)
  {
    hide Plain, RequestLine, AnnouncedLength, ParseHead, HeadEnd, HeadText;
    var text := HeadText(line, fields);
    HeadIsFound(line, fields, rest, p.maxHead);
    assert (text + rest)[..|text|] == text;
    HeadRoundTrip(line, fields);
    var n := AnnouncedLength(fields, 0);
    assert n.Some? && n.value <= |rest| ==> (text + rest)[|text|..|text| + n.value] == rest[..n.value];
  }

  /** Without a head within the size limit the framer waits, or gives up once that many bytes are there. */
  lemma NoHeadDecides(p: HttpProto, s: seq<byte>)
    requires forall line: seq<byte>, fields: seq<seq<byte>> {:trigger HeadText(line, fields)} ::
               Plain(line) && FieldLines(fields) && |HeadText(line, fields)| <= p.maxHead ==> !(HeadText(line, fields) <= s)
    ensures ParseRequest(p, s) == if |s| >= p.maxHead then Error(FrameTooLarge) else NeedMore(1)
  {
    hide Plain, FieldLines, HeadText, HeadEnd, ParseHead;
    HeadsAreTexts(s, p.maxHead);
  }

  // ---- numbers

  /** Decimal notation, as the response writes its own length. */
  function Digits(n: nat): seq<byte>
  {
    if n < 10 then [48 + n] else Digits(n / 10) + [48 + n % 10]
  }

  function Pow10(k: nat): nat { if k == 0 then 1 else 10 * Pow10(k - 1) }

  lemma {:induction false} DigitsAreDecimal(n: nat)
    ensures AllDigits(Digits(n)) && Decimal(Digits(n)) == n && Digits(n) != []
  {
    if n >= 10 {
      DigitsAreDecimal(n / 10);
      assert Digits(n)[..|Digits(n)| - 1] == Digits(n / 10);
    } else {
      assert Digits(n)[..0] == [];
    }
  }

  lemma {:induction false} DigitCount(n: nat, k: nat)
    requires k > 0
    ensures |Digits(n)| <= k <==> n < Pow10(k)
    decreases k
  {
    if k == 1 {
      assert Pow10(1) == 10;
      if n >= 10 { DigitsAreDecimal(n / 10); }
    } else {
      DigitCount(n / 10, k - 1);
      PowIsPositive(k - 1);
    }
  }

  lemma {:induction false} PowIsPositive(k: nat)
    ensures Pow10(k) >= 1
  {
    if k > 0 { PowIsPositive(k - 1); }
  }

  /** A length in decimal notation, blanks around it or not, is read back exactly when it has at most
      ten digits. */
  lemma LengthRoundTrip(n: nat)
    ensures LengthValue(Digits(n)) == LengthValue([SPACE] + Digits(n)) == if n < Pow10(10) then Some(n) else None
  {
    hide TrimFront, TrimBack, Pow10, Digits, AllDigits, Decimal;
    DigitsAreDecimal(n);
    DigitCount(n, 10);
    NothingToTrim(Digits(n));
  }

  lemma NothingToTrim(v: seq<byte>)
    requires v != [] && AllDigits(v)
    ensures TrimFront(v) == v && TrimBack(v) == v && TrimFront([SPACE] + v) == v
  {
    assert !IsBlank(v[0]) && !IsBlank(v[|v| - 1]);
    assert ([SPACE] + v)[1..] == v;
  }
}
