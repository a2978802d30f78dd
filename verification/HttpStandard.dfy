/** What RFC 9112 says about a request's line and body length, read apart from the framer, and when the
    framer agrees with it. */
module HttpStandard {
  import opened Basics
  import opened Http
  import opened Framing

  // ---- the request line of section 3

  function LineText(verb: seq<byte>, target: seq<byte>, version: seq<byte>): seq<byte>
  {
    verb + [SPACE] + target + [SPACE] + version
  }

  predicate IsDigit(b: byte) { 48 <= b <= 57 }

  predicate IsLetter(b: byte) { 65 <= b <= 90 || 97 <= b <= 122 }

  /** The characters of a token. */
  predicate IsTokenChar(b: byte)
  {
    IsDigit(b) || IsLetter(b) || b in {33, 35, 36, 37, 38, 39, 42, 43, 45, 46, 94, 95, 96, 124, 126}
  }

  predicate IsToken(s: seq<byte>)
  {
    s != [] && forall i :: 0 <= i < |s| ==> IsTokenChar(s[i])
  }

  /** A target holds no white space. */
  predicate IsTarget(s: seq<byte>)
  {
    s != [] && forall i :: 0 <= i < |s| ==> s[i] != SPACE && !(9 <= s[i] <= 13)
  }

  /** HTTP, a slash, a digit, a dot, a digit. */
  predicate IsVersion(s: seq<byte>)
  {
    |s| == 8 && s[..5] == [72, 84, 84, 80, 47] && IsDigit(s[5]) && s[6] == 46 && IsDigit(s[7])
  }

  ghost predicate HasSectionForm(line: seq<byte>)
  {
    exists verb: seq<byte>, target: seq<byte>, version: seq<byte> ::
      line == LineText(verb, target, version) && FormOf(verb, target, version)
  }

  predicate FormOf(verb: seq<byte>, target: seq<byte>, version: seq<byte>)
  {
    IsToken(verb) && IsTarget(target) && IsVersion(version)
  }

  /** The two spaces that the framer splits at. */
  lemma Splits(verb: seq<byte>, target: seq<byte>, version: seq<byte>)
    requires SPACE !in verb && SPACE !in version
    ensures var line := LineText(verb, target, version);
            Find(line, [SPACE], 0) == Some(|verb|) && LastSpace(line) == Some(|verb| + 1 + |target|)
  {
    hide Find;
    var line := LineText(verb, target, version);
    forall j: nat | j < |verb| ensures !OccursAt(line, [SPACE], j) {
      assert line[j..j + 1][0] == verb[j];
    }
    assert line[|verb|..|verb| + 1] == [SPACE];
    FindIs(line, [SPACE], 0, |verb|);
    var k := |verb| + 1 + |target|;
    assert line[k] == SPACE;
    assert forall j :: k < j < |line| ==> line[j] == version[j - k - 1];
  }

  /** What the framer makes of a request line: the text before the first space, the path up to the first
      question mark, the query behind it, and the text behind the last space. */
  lemma RequestLineReads(verb: seq<byte>, path: seq<byte>, query: Option<seq<byte>>, version: seq<byte>)
    requires SPACE !in verb && SPACE !in version && QUESTION !in path
    ensures var target := path + if query.Some? then [QUESTION] + query.value else [];
            RequestLine(LineText(verb, target, version)) ==
            Some(Head(verb, path, if query.Some? then query.value else [], version))
  {
    hide Find, LastSpace;
    var target := path + if query.Some? then [QUESTION] + query.value else [];
    var line := LineText(verb, target, version);
    Splits(verb, target, version);
    assert line[..|verb|] == verb && line[|verb| + 1..|verb| + 1 + |target|] == target;
    assert line[|verb| + 1 + |target| + 1..] == version;
    forall j: nat | j < |path| ensures !OccursAt(target, [QUESTION], j) {
      assert target[j..j + 1][0] == path[j];
    }
    if query.Some? {
      assert target[|path|..|path| + 1] == [QUESTION];
      FindIs(target, [QUESTION], 0, |path|);
      assert target[..|path|] == path && target[|path| + 1..] == query.value;
    } else {
      assert target == path;
      NotFound(path);
    }
  }

  lemma NotFound(path: seq<byte>)
    requires QUESTION !in path
    ensures Find(path, [QUESTION], 0).None?
  {
    FoundByte(path, QUESTION);
  }

  /** The first and the last space of a line. */
  lemma Spaces(line: seq<byte>)
    ensures var sp1, sp2 := Find(line, [SPACE], 0), LastSpace(line);
            && (sp1.Some? <==> SPACE in line) && (sp2.Some? <==> SPACE in line)
            && (sp1.Some? ==>
                  sp1.value < |line| && line[sp1.value] == SPACE && forall j :: 0 <= j < sp1.value ==> line[j] != SPACE)
  {
    var sp1 := Find(line, [SPACE], 0);
    assert forall j: nat :: j < |line| ==> line[j..j + 1] == [line[j]];
    assert forall j: nat :: j < |line| ==> (OccursAt(line, [SPACE], j) <==> line[j] == SPACE);
  }

  /** A line is accepted if and only if it has two spaces, and then it is split at the outermost. */
  lemma AcceptedLines(line: seq<byte>) returns (verb: seq<byte>, target: seq<byte>, version: seq<byte>)
    ensures RequestLine(line).Some? <==> exists i, j :: 0 <= i < j < |line| && line[i] == SPACE && line[j] == SPACE
    ensures RequestLine(line).Some? ==>
              && line == LineText(verb, target, version) && SPACE !in verb && SPACE !in version
              && RequestLine(line).value.verb == verb && RequestLine(line).value.version == version
  {
    hide Find, LastSpace, OccursAt;
    verb, target, version := [], [], [];
    var sp1, sp2 := Find(line, [SPACE], 0), LastSpace(line);
    Spaces(line);
    if sp1.Some? && sp1 != sp2 {
      var i, j := sp1.value, sp2.value;
      verb, target, version := line[..i], line[i + 1..j], line[j + 1..];
      assert line == LineText(verb, target, version);
    }
  }

  /** An accepted line has the section's form if and only if its parts have. */
  lemma AcceptedHasForm(line: seq<byte>, verb: seq<byte>, target: seq<byte>, version: seq<byte>)
    requires line == LineText(verb, target, version) && SPACE !in verb && SPACE !in version
    ensures RequestLine(line).Some? && (HasSectionForm(line) <==> FormOf(verb, target, version))
  {
    hide Find, LastSpace, IsVersion, IsTarget;
    Splits(verb, target, version);
    if v: seq<byte>, t: seq<byte>, w: seq<byte> :| line == LineText(v, t, w) && FormOf(v, t, w) {
      TokensHaveNoSpace(v, w);
      Splits(v, t, w);
      assert verb == line[..|verb|] && target == line[|verb| + 1..|verb| + 1 + |target|];
      assert version == line[|verb| + 1 + |target| + 1..];
      assert v == line[..|v|] && t == line[|v| + 1..|v| + 1 + |t|] && w == line[|v| + 1 + |t| + 1..];
    }
  }

  lemma TokensHaveNoSpace(verb: seq<byte>, version: seq<byte>)
    requires IsToken(verb) && IsVersion(version)
    ensures SPACE !in verb && SPACE !in version
  {
    assert forall i :: 0 <= i < 5 ==> version[i] == version[..5][i];
  }

  /** A request written out from its parts is read back as those parts, whatever follows it. */
  lemma WrittenRequest(p: HttpProto, verb: seq<byte>, path: seq<byte>, query: Option<seq<byte>>, version: seq<byte>,
                       fields: seq<seq<byte>>, body: seq<byte>, rest: seq<byte>)
    requires SPACE !in verb && SPACE !in version && QUESTION !in path && FieldLines(fields)
    requires AnnouncedLength(fields, 0) == Some(|body|) && |body| <= p.maxBody
    requires var line := LineText(verb, path + if query.Some? then [QUESTION] + query.value else [], version);
             Plain(line) && |HeadText(line, fields)| <= p.maxHead
    ensures var line := LineText(verb, path + if query.Some? then [QUESTION] + query.value else [], version);
            ParseRequest(p, HeadText(line, fields) + body + rest) ==
            Message(Request(verb, path, if query.Some? then query.value else [], version, body, |body|),
                    |HeadText(line, fields)| + |body|)
  {
    hide Plain, FieldLines, AnnouncedLength, RequestLine, ParseRequest, HeadText;
    var line := LineText(verb, path + if query.Some? then [QUESTION] + query.value else [], version);
    RequestLineReads(verb, path, query, version);
    RequestRoundTrip(p, line, fields, body, rest);
  }

  /** Three spaces are accepted, with a space in the target. */
  lemma SpacesInTarget()
    ensures var line := LineText([71, 69, 84], [97, SPACE, 98], [72, 84, 84, 80, 47, 49, 46, 49]);
            RequestLine(line) == Some(Head([71, 69, 84], [97, SPACE, 98], [], [72, 84, 84, 80, 47, 49, 46, 49])) &&
            !HasSectionForm(line)
  {
    var verb: seq<byte>, target: seq<byte> := [71, 69, 84], [97, SPACE, 98];
    var version: seq<byte> := [72, 84, 84, 80, 47, 49, 46, 49];
    RequestLineReads(verb, target, None, version);
    assert target + [] == target;
    AcceptedHasForm(LineText(verb, target, version), verb, target, version);
    assert target[1] == SPACE;
  }

  // ---- the body length that section 6.3 of RFC 9112 prescribes

  const TRANSFER_ENCODING: seq<byte> :=
    [116, 114, 97, 110, 115, 102, 101, 114, 45, 101, 110, 99, 111, 100, 105, 110, 103]

  /** A field of that name, in any case. */
  predicate IsField(line: seq<byte>, name: seq<byte>)
  {
    |line| > |name| && line[|name|] == COLON && forall i :: 0 <= i < |name| ==> SameLetter(line[i], name[i])
  }

  ghost predicate HasCoding(fields: seq<seq<byte>>)
  {
    exists i :: 0 <= i < |fields| && IsField(fields[i], TRANSFER_ENCODING)
  }

  function Trimmed(v: seq<byte>): seq<byte> { TrimBack(TrimFront(v)) }

  /** The elements of a comma-separated list. */
  function Elements(v: seq<byte>): (r: seq<seq<byte>>)
    ensures r != []
    decreases |v|
  {
    match Find(v, [COMMA], 0)
    case None => [v]
    case Some(i) => [v[..i]] + Elements(v[i + 1..])
  }

  predicate ElementIs(e: seq<byte>, n: nat)
  {
    Trimmed(e) == [] || (AllDigits(Trimmed(e)) && Decimal(Trimmed(e)) == n)
  }

  /** A length as the standard reads it: digits, any number of them, or a list that repeats one length. */
  ghost predicate ListIs(v: seq<byte>, n: nat)
  {
    && (exists i :: 0 <= i < |Elements(v)| && Trimmed(Elements(v)[i]) != [])
    && (forall i :: 0 <= i < |Elements(v)| ==> ElementIs(Elements(v)[i], n))
  }

  ghost predicate LengthLine(line: seq<byte>, n: nat)
  {
    IsField(line, CONTENT_LENGTH) && ListIs(line[15..], n)
  }

  ghost predicate BadLine(line: seq<byte>)
  {
    IsField(line, CONTENT_LENGTH) && forall n: nat :: !ListIs(line[15..], n)
  }

  ghost predicate HasMalformed(fields: seq<seq<byte>>)
  {
    exists i :: 0 <= i < |fields| && BadLine(fields[i])
  }

  ghost predicate AllLengthsAre(fields: seq<seq<byte>>, n: nat)
  {
    forall i, m: nat :: 0 <= i < |fields| && LengthLine(fields[i], m) ==> m == n
  }

  ghost predicate HasLength(fields: seq<seq<byte>>)
  {
    exists i, m: nat :: 0 <= i < |fields| && LengthLine(fields[i], m)
  }

  ghost predicate LengthsAgree(fields: seq<seq<byte>>)
  {
    exists n: nat :: AllLengthsAre(fields, n)
  }

  /** A transfer coding overrides every length; otherwise the length fields must be well formed and
      agree, and without any the body is empty. */
  ghost predicate Prescribes(fields: seq<seq<byte>>, n: nat)
  {
    !HasCoding(fields) && !HasMalformed(fields) && AllLengthsAre(fields, n) && (!HasLength(fields) ==> n == 0)
  }

  /** The message is to be rejected for its length fields. */
  ghost predicate Rejects(fields: seq<seq<byte>>)
  {
    !HasCoding(fields) && (HasMalformed(fields) || !LengthsAgree(fields))
  }

  /** The framer takes the length that the standard prescribes, or rejects when the standard does. */
  ghost predicate Conforms(fields: seq<seq<byte>>)
  {
    var n := AnnouncedLength(fields, 0);
    if n.Some? then Prescribes(fields, n.value) else Rejects(fields)
  }

  // ---- where the framer's reading of a line differs

  /** A line taken for a length field only because a carriage return passes for the hyphen. */
  predicate Folded(line: seq<byte>)
  {
    |line| > 14 && line[14] == COLON && line[7] == CR && SameName(line[..14], CONTENT_LENGTH)
  }

  /** A length field that the framer refuses and the standard does not: over ten digits, or a list. */
  ghost predicate Unread(line: seq<byte>)
  {
    && IsField(line, CONTENT_LENGTH) && (exists n: nat :: ListIs(line[15..], n))
    && (|Trimmed(line[15..])| > 10 || COMMA in line[15..])
  }

  /** What the framer makes of every line, in the standard's terms. */
  lemma LineReading(line: seq<byte>)
    ensures Folded(line) ==> !IsField(line, CONTENT_LENGTH)
    ensures FieldOf(line) == Other <==> !IsField(line, CONTENT_LENGTH) && !Folded(line)
    ensures FieldOf(line).Malformed? <==> BadLine(line) || Unread(line) || FoldedBad(line)
    ensures IsField(line, CONTENT_LENGTH) && FieldOf(line).Length? ==>
              forall m: nat :: LengthLine(line, m) <==> m == FieldOf(line).length
    ensures Folded(line) && FieldOf(line).Length? ==> FoldedLength(line, FieldOf(line).length)
  {
    hide LengthValue, ListIs, Find, SameName;
    NamedLine(line);
    if IsField(line, CONTENT_LENGTH) {
      ValueReading(line[15..]);
    }
  }

  /** The name in front of the first colon, as the framer and as the standard see it. */
  lemma NamedLine(line: seq<byte>)
    ensures Folded(line) ==> !IsField(line, CONTENT_LENGTH)
    ensures IsField(line, CONTENT_LENGTH) || Folded(line) ==>
              |line| > 14 && Find(line, [COLON], 0) == Some(14) && SameName(line[..14], CONTENT_LENGTH)
    ensures var colon := Find(line, [COLON], 0);
            colon.Some? && SameName(line[..colon.value], CONTENT_LENGTH) ==> IsField(line, CONTENT_LENGTH) || Folded(line)
  {
    hide Find;
    if IsField(line, CONTENT_LENGTH) || Folded(line) {
      NameHasNoColon(line);
    }
    var colon := Find(line, [COLON], 0);
    if colon.Some? && SameName(line[..colon.value], CONTENT_LENGTH) {
      NameIsContentLength(line[..colon.value]);
      assert line[14..15][0] == COLON;
    }
  }

  lemma NameHasNoColon(line: seq<byte>)
    requires IsField(line, CONTENT_LENGTH) || Folded(line)
    ensures Find(line, [COLON], 0) == Some(14) && SameName(line[..14], CONTENT_LENGTH)
  {
    hide Find;
    var name := line[..14];
    NameIsContentLength(name);
    forall j: nat | j < 14 ensures !OccursAt(line, [COLON], j) {
      assert line[j] == name[j] && (SameLetter(name[j], CONTENT_LENGTH[j]) || name[j] == CR);
      assert line[j..j + 1][0] == line[j];
    }
    assert line[14..15] == [COLON];
    FindIs(line, [COLON], 0, 14);
  }

  /** The two readings of a value. */
  lemma ValueReading(v: seq<byte>)
    ensures LengthValue(v).Some? ==> forall m: nat :: ListIs(v, m) <==> m == LengthValue(v).value
    ensures LengthValue(v).None? <==> (forall n: nat :: !ListIs(v, n)) || |Trimmed(v)| > 10 || COMMA in v
  {
    hide TrimFront, TrimBack, Decimal;
    if COMMA in v {
      CommaStays(v);
    } else {
      FoundByte(v, COMMA);
      OneElement(v);
      var t := Trimmed(v);
      if t != [] && AllDigits(t) {
        assert ListIs(v, Decimal(t));
      }
    }
  }

  lemma OneElement(v: seq<byte>)
    requires Elements(v) == [v]
    ensures forall n: nat :: ListIs(v, n) <==> Trimmed(v) != [] && ElementIs(v, n)
  {
    hide Trimmed;
    forall n: nat ensures ListIs(v, n) <==> Trimmed(v) != [] && ElementIs(v, n) {
      assert Elements(v)[0] == v;
    }
  }

  lemma FoundByte(v: seq<byte>, b: byte)
    ensures Find(v, [b], 0).Some? ==> b in v
  {
    var r := Find(v, [b], 0);
    if r.Some? {
      assert v[r.value..r.value + 1][0] == b;
    }
  }

  /** Trimming blanks never takes a comma away, and a comma is no digit. */
  lemma CommaStays(v: seq<byte>)
    requires COMMA in v
    ensures COMMA in Trimmed(v) && !AllDigits(Trimmed(v)) && LengthValue(v).None?
  {
    FrontKeeps(v);
    BackKeeps(TrimFront(v));
  }

  lemma {:induction false} FrontKeeps(v: seq<byte>)
    requires COMMA in v
    ensures COMMA in TrimFront(v)
  {
    if v != [] && IsBlank(v[0]) {
      FrontKeeps(v[1..]);
    }
  }

  lemma {:induction false} BackKeeps(v: seq<byte>)
    requires COMMA in v
    ensures COMMA in TrimBack(v)
  {
    if v != [] && IsBlank(v[|v| - 1]) {
      BackKeeps(v[..|v| - 1]);
    }
  }

  // ---- when the framer conforms

  predicate Named(line: seq<byte>) { IsField(line, CONTENT_LENGTH) || Folded(line) }

  ghost predicate LastNamed(fields: seq<seq<byte>>, i: nat)
  {
    i < |fields| && Named(fields[i]) && forall j :: i < j < |fields| ==> !Named(fields[j])
  }

  predicate FoldedBad(line: seq<byte>) { Folded(line) && LengthValue(line[15..]).None? }

  predicate FoldedLength(line: seq<byte>, n: nat) { Folded(line) && LengthValue(line[15..]) == Some(n) }

  /** Some line makes the framer reject although the standard finds nothing wrong with it. */
  ghost predicate Refuses(fields: seq<seq<byte>>)
  {
    exists i :: 0 <= i < |fields| && (Unread(fields[i]) || FoldedBad(fields[i]))
  }

  /** The lengths agree, and a folded name has not the last word with another one. */
  ghost predicate LastFits(fields: seq<seq<byte>>, n: nat)
  {
    && AllLengthsAre(fields, n) && (!HasLength(fields) ==> n == 0)
    && forall i: nat :: LastNamed(fields, i) && Folded(fields[i]) ==> FoldedLength(fields[i], n)
  }

  /** What the header loop announces: nothing as soon as one line is malformed, else the last length. */
  lemma {:induction false} AnnouncedIs(fields: seq<seq<byte>>, soFar: nat)
    ensures AnnouncedLength(fields, soFar).None? <==> exists i :: 0 <= i < |fields| && FieldOf(fields[i]).Malformed?
    ensures AnnouncedLength(fields, soFar).Some? ==>
              var n := AnnouncedLength(fields, soFar).value;
              && (forall i: nat :: LastNamed(fields, i) ==> FieldOf(fields[i]) == Length(n))
              && ((forall i :: 0 <= i < |fields| ==> !Named(fields[i])) ==> n == soFar)
  {
    hide FieldOf, Named;
    if fields != [] {
      var f := FieldOf(fields[0]);
      var rest := fields[1..];
      var next := if f.Length? then f.length else soFar;
      NamedIsRead(fields[0]);
      AnnouncedIs(rest, next);
      assert forall i :: 0 <= i < |rest| ==> rest[i] == fields[i + 1];
      if i :| 0 <= i < |rest| && FieldOf(rest[i]).Malformed? {
        assert FieldOf(fields[i + 1]).Malformed?;
      }
      forall i: nat | LastNamed(fields, i) && AnnouncedLength(fields, soFar).Some?
        ensures FieldOf(fields[i]) == Length(AnnouncedLength(fields, soFar).value)
      {
        if i > 0 {
          assert LastNamed(rest, i - 1);
        }
      }
    }
  }

  lemma NamedIsRead(line: seq<byte>)
    ensures Named(line) <==> FieldOf(line) != Other
  {
    hide FieldOf, IsField, Folded;
    LineReading(line);
  }

  lemma {:induction false} SomeLastNamed(fields: seq<seq<byte>>, i: nat) returns (k: nat)
    requires i < |fields| && Named(fields[i])
    ensures LastNamed(fields, k)
    decreases |fields| - i
  {
    hide Named;
    if j :| i < j < |fields| && Named(fields[j]) {
      k := SomeLastNamed(fields, j);
    } else {
      k := i;
    }
  }

  /** For every list of header lines: the framer conforms to the standard if and only if there is no
      transfer coding and either a length field is malformed, or the framer refuses a line and the
      lengths disagree, or it refuses none and the last length it reads is the one they agree on. */
  lemma LengthIsPrescribed(fields: seq<seq<byte>>)
    ensures Conforms(fields) <==>
            && !HasCoding(fields)
            && (HasMalformed(fields) ||
                if Refuses(fields) then !LengthsAgree(fields) else exists n: nat :: LastFits(fields, n))
  {
    hide FieldOf, AnnouncedLength, BadLine, Unread, FoldedBad, LengthLine, IsField, LengthValue, HasCoding, LastFits;
    AnnouncedIs(fields, 0);
    forall i | 0 <= i < |fields|
      ensures FieldOf(fields[i]).Malformed? <==> BadLine(fields[i]) || Unread(fields[i]) || FoldedBad(fields[i])
    {
      LineReading(fields[i]);
    }
    if !HasMalformed(fields) && !Refuses(fields) {
      AcceptedFits(fields);
    }
  }

  /** Where nothing is malformed or refused, the announced length is prescribed exactly when it fits. */
  lemma AcceptedFits(fields: seq<seq<byte>>)
    requires !HasMalformed(fields) && AnnouncedLength(fields, 0).Some?
    ensures var v := AnnouncedLength(fields, 0).value;
            (AllLengthsAre(fields, v) && (!HasLength(fields) ==> v == 0)) <==> exists n: nat :: LastFits(fields, n)
  {
    hide FieldOf, AnnouncedLength, Folded, FoldedLength, IsField, LengthLine;
    AnnouncedIs(fields, 0);
    var v := AnnouncedLength(fields, 0).value;
    forall i: nat | LastNamed(fields, i) ensures LastReading(fields[i], v) && (Folded(fields[i]) ==> FoldedLength(fields[i], v)) {
      LastIsRead(fields[i], v);
    }
    if AllLengthsAre(fields, v) && (!HasLength(fields) ==> v == 0) {
      assert LastFits(fields, v);
    }
    if n: nat :| LastFits(fields, n) {
      LastDecides(fields, v, n);
    }
  }

  ghost predicate LastReading(line: seq<byte>, v: nat)
  {
    LengthLine(line, v) || FoldedLength(line, v)
  }

  lemma LastIsRead(line: seq<byte>, v: nat)
    requires Named(line) && FieldOf(line) == Length(v)
    ensures LastReading(line, v) && (Folded(line) ==> FoldedLength(line, v))
  {
    hide FieldOf, Folded, FoldedLength, IsField, LengthLine;
    LineReading(line);
    assert IsField(line, CONTENT_LENGTH) ==> LengthLine(line, v);
  }

  lemma LastDecides(fields: seq<seq<byte>>, v: nat, n: nat)
    requires LastFits(fields, n) && forall i: nat :: LastNamed(fields, i) ==> LastReading(fields[i], v)
    requires (forall i :: 0 <= i < |fields| ==> !Named(fields[i])) ==> v == 0
    ensures v == n
  {
    hide IsField, LengthValue, LengthLine, Named;
    if i :| 0 <= i < |fields| && Named(fields[i]) {
      var k := SomeLastNamed(fields, i);
      assert LastReading(fields[k], v);
    } else {
      NoNameNoLength(fields);
    }
  }

  lemma NoNameNoLength(fields: seq<seq<byte>>)
    requires forall i :: 0 <= i < |fields| ==> !Named(fields[i])
    ensures !HasLength(fields)
  {
    hide IsField, Folded, ListIs;
  }

  /** For lines that both read alike: no transfer coding, and lengths that are malformed or agree. */
  lemma PlainLengthIsPrescribed(fields: seq<seq<byte>>)
    requires forall i :: 0 <= i < |fields| ==> !Folded(fields[i]) && !Unread(fields[i])
    ensures Conforms(fields) <==> !HasCoding(fields) && (HasMalformed(fields) || LengthsAgree(fields))
  {
    hide Folded, FoldedBad, FoldedLength, Unread, BadLine, LengthLine, HasCoding, Conforms;
    NothingRefused(fields);
    LengthIsPrescribed(fields);
    if n: nat :| AllLengthsAre(fields, n) {
      if HasLength(fields) {
        assert LastFits(fields, n);
      } else {
        assert AllLengthsAre(fields, 0) && LastFits(fields, 0);
      }
    }
  }

  lemma NothingRefused(fields: seq<seq<byte>>)
    requires forall i :: 0 <= i < |fields| ==> !Folded(fields[i]) && !Unread(fields[i])
    ensures !Refuses(fields)
  {
    hide Folded, Unread, LengthValue;
  }

  /** Two differing lengths are to be rejected, but the framer takes the last. */
  lemma LastLengthWins()
    ensures var fields := [CONTENT_LENGTH + [COLON, 49], CONTENT_LENGTH + [COLON, 50]];
            AnnouncedLength(fields, 0) == Some(2) && !LengthsAgree(fields)
  {
    LengthField(49);
    LengthField(50);
    var one, two := CONTENT_LENGTH + [COLON, 49], CONTENT_LENGTH + [COLON, 50];
    var both: seq<seq<byte>>, second: seq<seq<byte>> := [one, two], [two];
    assert both[1..] == second && second[1..] == [];
    assert AnnouncedLength(second, 1) == AnnouncedLength(second[1..], 2);
    assert FieldOf(both[0]) == Length(1) && FieldOf(both[1]) == Length(2);
    assert LengthLine(both[0], 1) && LengthLine(both[1], 2);
  }

  lemma LengthField(digit: byte)
    requires 48 <= digit <= 57
    ensures FieldOf(CONTENT_LENGTH + [COLON, digit]) == Length(digit - 48)
    ensures LengthLine(CONTENT_LENGTH + [COLON, digit], digit - 48)
  {
    var line := CONTENT_LENGTH + [COLON, digit];
    assert line[14..15] == [COLON];
    forall j: nat | j < 14 ensures !OccursAt(line, [COLON], j) {
      assert line[j..j + 1][0] == CONTENT_LENGTH[j] != COLON;
    }
    FindIs(line, [COLON], 0, 14);
    assert line[..14] == CONTENT_LENGTH && line[15..] == [digit];
    assert [digit][..0] == [];
    assert Decimal([digit]) == digit - 48;
    LineReading(line);
  }

  /** A transfer coding is not recognised: the body is taken to be empty. */
  lemma CodingIsIgnored(value: seq<byte>)
    ensures var fields := [TRANSFER_ENCODING + [COLON] + value];
            AnnouncedLength(fields, 0) == Some(0) && HasCoding(fields)
  {
    var line := TRANSFER_ENCODING + [COLON] + value;
    assert line[17..18] == [COLON];
    forall j: nat | j < 17 ensures !OccursAt(line, [COLON], j) {
      assert line[j..j + 1][0] == TRANSFER_ENCODING[j] != COLON;
    }
    FindIs(line, [COLON], 0, 17);
    assert |line[..17]| != |CONTENT_LENGTH|;
    assert IsField([line][0], TRANSFER_ENCODING);
  }

  /** The body of a head whose one header line is a length field, for the standard. */
  lemma OneLengthLine(line: seq<byte>, n: nat)
    requires LengthLine(line, n) && !IsField(line, TRANSFER_ENCODING)
    requires forall m: nat :: LengthLine(line, m) ==> m == n
    ensures Prescribes([line], n)
  {
    hide LengthLine, ListIs, IsField;
    assert [line][0] == line;
    assert !BadLine(line) by { assert LengthLine(line, n); GoodLine(line, n); }
  }

  lemma GoodLine(line: seq<byte>, n: nat)
    requires LengthLine(line, n)
    ensures !BadLine(line)
  {
    hide ListIs;
  }

  /** Ten digits are the framer's limit: a longer length is refused, whatever its value. */
  lemma OverlongIsRefused(v: seq<byte>)
    requires |v| > 10 && AllDigits(v)
    ensures var fields := [CONTENT_LENGTH + [COLON] + v];
            AnnouncedLength(fields, 0) == None && Prescribes(fields, Decimal(v))
  {
    var line := CONTENT_LENGTH + [COLON] + v;
    NothingToTrim(v);
    assert COMMA !in v;
    FoundByte(v, COMMA);
    OneElement(v);
    LengthFieldLine(v);
    LineReading(line);
    ValueReading(v);
    OneLengthLine(line, Decimal(v));
    assert [line][0] == line;
  }

  /** A field line with that value: its name, its value, and that it is no transfer coding. */
  lemma LengthFieldLine(v: seq<byte>)
    ensures var line := CONTENT_LENGTH + [COLON] + v;
            IsField(line, CONTENT_LENGTH) && line[15..] == v && !IsField(line, TRANSFER_ENCODING)
  {
    var line := CONTENT_LENGTH + [COLON] + v;
    assert line[0] == 99;
  }

  lemma {:induction false} LeadingZeros(k: nat, digit: byte)
    requires 48 <= digit <= 57
    ensures var v := seq(k, i => 48) + [digit];
            AllDigits(v) && Decimal(v) == digit - 48
  {
    var v := seq(k, i => 48) + [digit];
    assert v[..k] == seq(k, i => 48);
    AllZeros(k);
  }

  lemma {:induction false} AllZeros(k: nat)
    ensures AllDigits(seq(k, i => 48)) && Decimal(seq(k, i => 48)) == 0
  {
    if k > 0 {
      AllZeros(k - 1);
      assert seq(k, i => 48)[..k - 1] == seq(k - 1, i => 48);
    }
  }

  /** Eleven digits that say five. */
  lemma ElevenDigits()
    ensures var fields := [CONTENT_LENGTH + [COLON] + (seq(10, i => 48) + [53])];
            AnnouncedLength(fields, 0) == None && Prescribes(fields, 5)
  {
    LeadingZeros(10, 53);
    OverlongIsRefused(seq(10, i => 48) + [53]);
  }

  /** A list that repeats one length is refused too. */
  lemma ListIsRefused()
    ensures var fields := [CONTENT_LENGTH + [COLON] + [53, COMMA, 53]];
            AnnouncedLength(fields, 0) == None && Prescribes(fields, 5)
  {
    var v: seq<byte> := [53, COMMA, 53];
    var line := CONTENT_LENGTH + [COLON] + v;
    ListOfTwo(v);
    CommaStays(v);
    LengthFieldLine(v);
    LineReading(line);
    ValueReading(v);
    OneLengthLine(line, 5);
    assert [line][0] == line;
  }

  lemma ListOfTwo(v: seq<byte>)
    requires v == [53, COMMA, 53]
    ensures forall m: nat :: ListIs(v, m) <==> m == 5
  {
    assert v[1..2] == [COMMA] && v[0..1] == [53];
    FindIs(v, [COMMA], 0, 1);
    var five: seq<byte> := [53];
    assert v[..1] == five && v[2..] == five;
    FoundByte(five, COMMA);
    assert Elements(v) == [five, five];
    NothingToTrim(five);
    assert five[..0] == [];
    assert Decimal(five) == 5;
    assert Trimmed(Elements(v)[0]) == five;
    forall m: nat ensures ListIs(v, m) <==> m == 5 {
      assert ElementIs(Elements(v)[0], m) <==> m == 5;
    }
  }

  /** No length field at all for the standard, and so no body; the framer takes five bytes. */
  lemma CarriageReturnIsRead()
    ensures var fields := [CONTENT_LENGTH[7 := CR] + [COLON, 53]];
            AnnouncedLength(fields, 0) == Some(5) && Prescribes(fields, 0)
  {
    var line := CONTENT_LENGTH[7 := CR] + [COLON, 53];
    assert line[..14] == CONTENT_LENGTH[7 := CR] && line[15..] == [53];
    assert Folded(line) && line[0] == 99 && line[7] != 45;
    var five: seq<byte> := [53];
    NothingToTrim(five);
    assert five[..0] == [];
    assert LengthValue(five) == Some(5);
    LineReading(line);
    var fields: seq<seq<byte>> := [line];
    assert fields[0] == line && fields[1..] == [];
  }
}
