/** Sending over the readiness backend: an immediate write, a queue for what the kernel did not take,
    and the connection's write buffer on top. */
module EpollSend {
  import opened Basics

  /** What the kernel answers to one write: how much it takes at most, that it would block, that a
      signal came first, or that the socket is broken. */
  datatype Answer = Accepts(limit: nat) | WouldBlock | Interrupted | Fails(errno: Errno)

  /** The error numbers that a write can answer with; a cancelled request is not one of them. */
  type Errno = e: int | e > 0 && e != ECANCELED witness 1

  const ECANCELED: int := 125

  const EINTR: Errno := 4
  const MAX_PARTS: nat := 64

  datatype Completion = Completion(ud: nat, result: int)

  datatype SendReq = SendReq(ud: nat, bytes: seq<byte>, off: nat)

  datatype Fate = Queued | Sent | Broken

  /** A submission as its caller sees it: the bytes, how many of them the first write and all writes
      together took, and what became of it. */
  datatype Submission = Submission(data: seq<byte>, first: nat, accepted: nat, fate: Fate)

  function Join(parts: seq<seq<byte>>): seq<byte>
  {
    if parts == [] then [] else Join(parts[..|parts| - 1]) + parts[|parts| - 1]
  }

  function Offered(parts: seq<seq<byte>>): seq<byte>
  {
    Join(parts[..Min(|parts|, MAX_PARTS)])
  }

  // ---- gathering the parts

  lemma JoinSplits(parts: seq<seq<byte>>, i: nat)
    requires i < |parts|
    ensures Join(parts[..i + 1]) == Join(parts[..i]) + parts[i]
  {
    assert parts[..i + 1][..i] == parts[..i];
  }

  lemma {:induction false} JoinPrefix(parts: seq<seq<byte>>, i: nat)
    requires i <= |parts|
    ensures Join(parts[..i]) <= Join(parts)
    decreases |parts| - i
  {
    if i < |parts| {
      JoinSplits(parts, i);
      JoinPrefix(parts, i + 1);
    } else {
      assert parts[..i] == parts;
    }
  }

  method TotalSize(parts: seq<seq<byte>>) returns (total: nat)
    ensures total == |Join(parts)|
  {
    total := 0;
    for i := 0 to |parts|
      invariant total == |Join(parts[..i])|
    {
      JoinSplits(parts, i);
      total := total + |parts[i]|;
    }
    assert parts[..|parts|] == parts;
  }

  lemma JoinNone(parts: seq<seq<byte>>)
    ensures Join(parts[..0]) == []
  {
  }

  lemma TailStays(a: seq<byte>, b: seq<byte>, sent: nat, skip: nat)
    requires skip >= |b| && sent <= |a| + skip && (skip > 0 ==> |a| + skip == sent)
    ensures skip == |b| ==> (a + b)[sent..] == if skip == 0 then a[sent..] else []
  {
  }

  lemma TailGrows(a: seq<byte>, b: seq<byte>, sent: nat, skip: nat)
    requires skip < |b| && (skip == 0 ==> sent <= |a|) && (skip > 0 ==> |a| + skip == sent)
    ensures (a + b)[sent..] == (if skip == 0 then a[sent..] + b else b[skip..])
  {
  }

  /** memcpy into the request buffer. */
  method Copy(to: array<byte>, at: nat, from: seq<byte>)
    requires at + |from| <= to.Length
    modifies to
    ensures to[..at + |from|] == old(to[..at]) + from
  {
    forall i | 0 <= i < |from| {
      to[at + i] := from[i];
    }
  }

  /** Copies what the first `sent` bytes left over, part by part, into a buffer of exactly that size. */
  method GatherTail(parts: seq<seq<byte>>, sent: nat) returns (bytes: seq<byte>)
    requires sent <= |Join(parts)|
    ensures bytes == Join(parts)[sent..]
  {
    hide Join;
    var total := TotalSize(parts);
    var buf := new byte[total - sent](i => 0);
    var wpos: nat, skip: nat := 0, sent;
    JoinNone(parts);
    for i := 0 to |parts|
      invariant |Join(parts[..i])| + skip == sent + wpos && (wpos > 0 ==> skip == 0)
      invariant wpos <= buf.Length && (skip == 0 ==> buf[..wpos] == Join(parts[..i])[sent..])
    {
      JoinSplits(parts, i);
      JoinPrefix(parts, i + 1);
      if skip >= |parts[i]| {
        TailStays(Join(parts[..i]), parts[i], sent, skip);
        skip := skip - |parts[i]|;
      } else {
        var take := |parts[i]| - skip;
        TailGrows(Join(parts[..i]), parts[i], sent, skip);
        Copy(buf, wpos, parts[i][skip..]);
        wpos := wpos + take;
        skip := 0;
      }
    }
    assert parts[..|parts|] == parts;
    assert wpos == buf.Length;
    bytes := buf[..];
  }

  // ---- the queue of one descriptor

  /** The submissions in order, which of them are queued, their queue entries, and the bytes the kernel
      has taken. */
  datatype Sends = Sends(subs: seq<Submission>, ids: seq<nat>, sendq: seq<SendReq>, wire: seq<byte>)

  /** What the kernel took of each submission, in submission order. */
  ghost function Taken(subs: seq<Submission>): seq<byte>
    requires WithinData(subs)
  {
    if subs == [] then [] else
    var last := subs[|subs| - 1];
    Taken(subs[..|subs| - 1]) + last.data[..last.accepted]
  }

  ghost predicate WithinData(subs: seq<Submission>)
  {
    forall i :: 0 <= i < |subs| ==> subs[i].first <= subs[i].accepted <= |subs[i].data|
  }

  ghost predicate Matches(s: Submission, r: SendReq)
  {
    && s.fate == Queued && s.first <= s.accepted <= |s.data|
    && r.bytes == s.data[s.first..] && s.accepted == s.first + r.off
  }

  ghost predicate IdsHold(subs: seq<Submission>, ids: seq<nat>)
  {
    && (forall k :: 0 <= k < |ids| ==> ids[k] < |subs|)
    && (forall k, l :: 0 <= k < l < |ids| ==> ids[k] < ids[l])
    && (forall i :: 0 <= i < |subs| && subs[i].fate == Queued ==> i in ids)
    && (forall i :: 0 <= i < |subs| && ids != [] && ids[0] < i ==> subs[i].accepted == 0)
  }

  ghost predicate QueueMatches(subs: seq<Submission>, ids: seq<nat>, sendq: seq<SendReq>)
  {
    |ids| == |sendq| && forall k :: 0 <= k < |ids| ==> ids[k] < |subs| && Matches(subs[ids[k]], sendq[k])
  }

  ghost predicate SentInFull(subs: seq<Submission>)
  {
    forall i :: 0 <= i < |subs| && subs[i].fate == Sent ==> subs[i].accepted == |subs[i].data|
  }

  ghost predicate SendsHold(v: Sends)
  {
    && WithinData(v.subs) && v.wire == Taken(v.subs) && SentInFull(v.subs)
    && IdsHold(v.subs, v.ids) && QueueMatches(v.subs, v.ids, v.sendq)
  }

  /** A submission at the end: `first` bytes of it are on the wire; it is queued unless settled. */
  ghost function Submitted(v: Sends, ud: nat, data: seq<byte>, first: nat, fate: Fate): Sends
    requires first <= |data|
  {
    var subs := v.subs + [Submission(data, first, first, fate)];
    var wire := v.wire + data[..first];
    if fate == Queued then Sends(subs, v.ids + [|v.subs|], v.sendq + [SendReq(ud, data[first..], 0)], wire)
    else Sends(subs, v.ids, v.sendq, wire)
  }

  lemma SubmittedKeeps(v: Sends, ud: nat, data: seq<byte>, first: nat, fate: Fate)
    requires SendsHold(v) && first <= |data| && (v.sendq != [] ==> first == 0 && fate == Queued)
    requires fate == Sent ==> first == |data|
    ensures SendsHold(Submitted(v, ud, data, first, fate))
  {
    hide Taken, WithinData, IdsHold, QueueMatches, SentInFull;
    var s := Submission(data, first, first, fate);
    AppendSub(v.subs, s);
    SameLength(v.subs, v.ids, v.sendq);
    AppendIds(v.subs, v.ids, s);
    AppendMatches(v.subs, v.ids, v.sendq, s, SendReq(ud, data[first..], 0));
  }

  lemma SameLength(subs: seq<Submission>, ids: seq<nat>, sendq: seq<SendReq>)
    requires QueueMatches(subs, ids, sendq)
    ensures |ids| == |sendq|
  {
  }

  lemma AppendSub(subs: seq<Submission>, s: Submission)
    requires WithinData(subs) && SentInFull(subs) && s.first == s.accepted <= |s.data|
    requires s.fate == Sent ==> s.first == |s.data|
    ensures WithinData(subs + [s]) && SentInFull(subs + [s])
    ensures Taken(subs + [s]) == Taken(subs) + s.data[..s.first]
  {
    assert (subs + [s])[..|subs|] == subs;
  }

  lemma AppendIds(subs: seq<Submission>, ids: seq<nat>, s: Submission)
    requires IdsHold(subs, ids) && (ids != [] ==> s.accepted == 0)
    ensures IdsHold(subs + [s], if s.fate == Queued then ids + [|subs|] else ids)
  {
    var subs', ids' := subs + [s], if s.fate == Queued then ids + [|subs|] else ids;
    forall i | 0 <= i < |subs'| && subs'[i].fate == Queued ensures i in ids' {
      if i < |subs| { assert i in ids; } else { assert ids'[|ids|] == i; }
    }
  }

  lemma AppendMatches(subs: seq<Submission>, ids: seq<nat>, sendq: seq<SendReq>, s: Submission, r: SendReq)
    requires QueueMatches(subs, ids, sendq)
    ensures QueueMatches(subs + [s], ids, sendq)
    ensures Matches(s, r) ==> QueueMatches(subs + [s], ids + [|subs|], sendq + [r])
  {
    hide Matches;
  }

  /** The front request advances by what the kernel took; at its end it leaves the queue. */
  ghost function FrontTook(v: Sends, n: nat): Sends
    requires SendsHold(v) && v.sendq != [] && n <= |v.sendq[0].bytes| - v.sendq[0].off
  {
    var id, r := v.ids[0], v.sendq[0];
    var s := v.subs[id];
    var wire := v.wire + r.bytes[r.off..r.off + n];
    if r.off + n == |r.bytes| then
      Sends(v.subs[id := s.(accepted := s.accepted + n, fate := Sent)], v.ids[1..], v.sendq[1..], wire)
    else
      Sends(v.subs[id := s.(accepted := s.accepted + n)], v.ids, v.sendq[0 := r.(off := r.off + n)], wire)
  }

  /** The front request is given up. */
  ghost function FrontBroke(v: Sends): Sends
    requires SendsHold(v) && v.sendq != []
  {
    var id := v.ids[0];
    Sends(v.subs[id := v.subs[id].(fate := Broken)], v.ids[1..], v.sendq[1..], v.wire)
  }

  /** Taking more of a submission that has nothing taken behind it extends the stream. */
  lemma TookNothing(subs: seq<Submission>)
    requires WithinData(subs) && subs != [] && subs[|subs| - 1].accepted == 0
    ensures Taken(subs) == Taken(subs[..|subs| - 1])
  {
    assert subs[|subs| - 1].data[..0] == [];
  }

  lemma LastGrows(before: seq<byte>, data: seq<byte>, from: nat, to: nat)
    requires from <= to <= |data|
    ensures before + data[..to] == before + data[..from] + data[from..to]
  {
    assert data[..to] == data[..from] + data[from..to];
  }

  lemma {:induction false} TakenGrows(subs: seq<Submission>, id: nat, s: Submission)
    requires WithinData(subs) && id < |subs| && s.data == subs[id].data && s.first == subs[id].first
    requires subs[id].accepted <= s.accepted <= |s.data|
    requires forall i :: id < i < |subs| ==> subs[i].accepted == 0
    ensures WithinData(subs[id := s])
    ensures Taken(subs[id := s]) == Taken(subs) + s.data[subs[id].accepted..s.accepted]
    decreases |subs|
  {
    var n := |subs| - 1;
    var last := subs[n];
    if id == n {
      assert subs[id := s][..n] == subs[..n];
      LastGrows(Taken(subs[..n]), s.data, last.accepted, s.accepted);
    } else {
      assert subs[id := s][..n] == subs[..n][id := s];
      TakenGrows(subs[..n], id, s);
      TookNothing(subs);
      TookNothing(subs[id := s]);
    }
  }

  lemma FrontTookKeeps(v: Sends, n: nat)
    requires SendsHold(v) && v.sendq != [] && n <= |v.sendq[0].bytes| - v.sendq[0].off
    ensures SendsHold(FrontTook(v, n))
  {
    hide Taken, WithinData, IdsHold, QueueMatches, SentInFull;
    FrontMatches(v);
    var id, r := v.ids[0], v.sendq[0];
    var s := v.subs[id];
    var done := r.off + n == |r.bytes|;
    var t := if done then s.(accepted := s.accepted + n, fate := Sent) else s.(accepted := s.accepted + n);
    LaterUntouched(v.subs, v.ids);
    TakenGrows(v.subs, id, t);
    assert r.bytes[r.off..r.off + n] == s.data[s.accepted..s.accepted + n];
    FrontIds(v.subs, v.ids, t);
    FrontInFull(v.subs, id, t);
    FrontUpdated(v.subs, v.ids, v.sendq, t, r.(off := r.off + n));
  }

  lemma FrontBrokeKeeps(v: Sends)
    requires SendsHold(v) && v.sendq != []
    ensures SendsHold(FrontBroke(v))
  {
    hide Taken, WithinData, IdsHold, QueueMatches, SentInFull;
    FrontMatches(v);
    var id := v.ids[0];
    var s := v.subs[id];
    var t := s.(fate := Broken);
    LaterUntouched(v.subs, v.ids);
    TakenGrows(v.subs, id, t);
    assert s.data[s.accepted..s.accepted] == [];
    FrontIds(v.subs, v.ids, t);
    FrontInFull(v.subs, id, t);
    FrontUpdated(v.subs, v.ids, v.sendq, t, v.sendq[0]);
  }

  lemma FrontMatches(v: Sends)
    requires SendsHold(v) && v.sendq != []
    ensures |v.ids| == |v.sendq| && v.ids[0] < |v.subs| && Matches(v.subs[v.ids[0]], v.sendq[0])
  {
  }

  lemma LaterUntouched(subs: seq<Submission>, ids: seq<nat>)
    requires IdsHold(subs, ids) && ids != []
    ensures forall i :: ids[0] < i < |subs| ==> subs[i].accepted == 0
  {
  }

  lemma FrontInFull(subs: seq<Submission>, id: nat, t: Submission)
    requires SentInFull(subs) && id < |subs| && (t.fate == Sent ==> t.accepted == |t.data|)
    ensures SentInFull(subs[id := t])
  {
  }

  lemma FrontUpdated(subs: seq<Submission>, ids: seq<nat>, sendq: seq<SendReq>, t: Submission, r: SendReq)
    requires QueueMatches(subs, ids, sendq) && IdsHold(subs, ids) && ids != []
    ensures QueueMatches(subs[ids[0] := t], ids[1..], sendq[1..])
    ensures Matches(t, r) ==> QueueMatches(subs[ids[0] := t], ids, sendq[0 := r])
  {
    hide Matches;
  }

  /** Queue order survives an update of the front and its removal once settled. */
  lemma FrontIds(subs: seq<Submission>, ids: seq<nat>, t: Submission)
    requires IdsHold(subs, ids) && ids != []
    ensures IdsHold(subs[ids[0] := t], if t.fate == Queued then ids else ids[1..])
  {
    var subs', ids' := subs[ids[0] := t], if t.fate == Queued then ids else ids[1..];
    forall i | 0 <= i < |subs'| && subs'[i].fate == Queued ensures i in ids' {
      assert i in ids;
    }
  }

  // ---- order

  ghost function AllData(subs: seq<Submission>): seq<byte>
  {
    if subs == [] then [] else AllData(subs[..|subs| - 1]) + subs[|subs| - 1].data
  }

  ghost function Pending(sendq: seq<SendReq>): seq<byte>
    requires OffsetsHold(sendq)
  {
    if sendq == [] then [] else
    var r := sendq[|sendq| - 1];
    Pending(sendq[..|sendq| - 1]) + r.bytes[r.off..]
  }

  ghost predicate OffsetsHold(sendq: seq<SendReq>)
  {
    forall k :: 0 <= k < |sendq| ==> sendq[k].off <= |sendq[k].bytes|
  }

  ghost predicate NoneBroken(subs: seq<Submission>)
  {
    forall i :: 0 <= i < |subs| ==> subs[i].fate != Broken
  }

  /** Unless a write has failed, what is on the wire followed by what is queued is exactly the
      concatenation of everything submitted: no byte lost, doubled or out of order. */
  lemma {:induction false} WireIsOrdered(subs: seq<Submission>, ids: seq<nat>, sendq: seq<SendReq>)
    requires WithinData(subs) && SentInFull(subs) && IdsHold(subs, ids) && QueueMatches(subs, ids, sendq)
    requires NoneBroken(subs)
    ensures OffsetsHold(sendq) && Taken(subs) + Pending(sendq) == AllData(subs)
    decreases |subs|
  {
    hide IdsHold, QueueMatches, Matches, OffsetsHold;
    OffsetsFit(subs, ids, sendq);
    if subs == [] {
      NothingQueued(ids, sendq);
    } else {
      var n := |subs| - 1;
      var last := subs[n];
      if last.fate == Queued {
        LastQueued(subs, ids, sendq);
        var m := |ids| - 1;
        WireIsOrdered(subs[..n], ids[..m], sendq[..m]);
        QueuedStep(Taken(subs[..n]), Pending(sendq[..m]), last, sendq[m]);
      } else {
        LastSettled(subs, ids, sendq);
        WireIsOrdered(subs[..n], ids, sendq);
        SettledStep(Taken(subs[..n]), Pending(sendq), last);
      }
    }
  }

  lemma OffsetsFit(subs: seq<Submission>, ids: seq<nat>, sendq: seq<SendReq>)
    requires QueueMatches(subs, ids, sendq)
    ensures OffsetsHold(sendq) && |ids| == |sendq|
  {
    forall k | 0 <= k < |sendq| ensures sendq[k].off <= |sendq[k].bytes| {
      assert Matches(subs[ids[k]], sendq[k]);
    }
  }

  lemma NothingQueued(ids: seq<nat>, sendq: seq<SendReq>)
    requires QueueMatches([], ids, sendq)
    ensures sendq == []
  {
    if sendq != [] { FirstIsKnown([], ids, sendq); }
  }

  lemma FirstIsKnown(subs: seq<Submission>, ids: seq<nat>, sendq: seq<SendReq>)
    requires QueueMatches(subs, ids, sendq) && sendq != []
    ensures |subs| > 0
  {
    assert ids[0] < |subs|;
  }

  lemma QueuedStep(taken: seq<byte>, pending: seq<byte>, last: Submission, r: SendReq)
    requires Matches(last, r) && (pending != [] ==> last.accepted == 0)
    ensures taken + last.data[..last.accepted] + (pending + r.bytes[r.off..]) == taken + pending + last.data
  {
    var front, back := last.data[..last.accepted], r.bytes[r.off..];
    assert back == last.data[last.accepted..];
    assert last.data == front + back;
    Regroup(taken, front, pending, back);
  }

  lemma Regroup(a: seq<byte>, b: seq<byte>, c: seq<byte>, d: seq<byte>)
    requires b == [] || c == []
    ensures a + b + (c + d) == a + c + (b + d)
  {
    if b == [] {
      assert a + b == a && b + d == d;
    } else {
      assert c + d == d && a + c == a;
    }
  }

  lemma SettledStep(taken: seq<byte>, pending: seq<byte>, last: Submission)
    requires last.accepted == |last.data| && (pending != [] ==> last.accepted == 0)
    ensures taken + last.data[..last.accepted] + pending == taken + pending + last.data
  {
    assert last.data[..last.accepted] == last.data;
    assert last.data + pending == pending + last.data;
    assert taken + last.data + pending == taken + (last.data + pending);
    assert taken + pending + last.data == taken + (pending + last.data);
  }

  lemma LastIsLargest(ids: seq<nat>, k: nat)
    requires k < |ids| && forall i, j :: 0 <= i < j < |ids| ==> ids[i] < ids[j]
    ensures ids[k] <= ids[|ids| - 1] && (ids[k] == ids[|ids| - 1] ==> k == |ids| - 1)
  {
  }

  lemma LastQueued(subs: seq<Submission>, ids: seq<nat>, sendq: seq<SendReq>)
    requires subs != [] && subs[|subs| - 1].fate == Queued && IdsHold(subs, ids) && QueueMatches(subs, ids, sendq)
    ensures var n, m := |subs| - 1, |ids| - 1;
            && m >= 0 && ids[m] == n && (m > 0 ==> subs[n].accepted == 0)
            && IdsHold(subs[..n], ids[..m]) && QueueMatches(subs[..n], ids[..m], sendq[..m])
            && Matches(subs[n], sendq[m])
  {
    hide Matches;
    var n, m := |subs| - 1, |ids| - 1;
    assert n in ids;
    var k :| 0 <= k < |ids| && ids[k] == n;
    LastIsLargest(ids, k);
    forall i | 0 <= i < n && subs[..n][i].fate == Queued ensures i in ids[..m] {
      assert i in ids;
    }
  }

  lemma LastSettled(subs: seq<Submission>, ids: seq<nat>, sendq: seq<SendReq>)
    requires subs != [] && subs[|subs| - 1].fate != Queued && IdsHold(subs, ids) && QueueMatches(subs, ids, sendq)
    ensures var n := |subs| - 1;
            && IdsHold(subs[..n], ids) && QueueMatches(subs[..n], ids, sendq)
            && (ids != [] ==> subs[n].accepted == 0)
  {
    var n := |subs| - 1;
    forall k | 0 <= k < |ids| ensures ids[k] < n {
      assert Matches(subs[ids[k]], sendq[k]);
    }
  }

  // ---- the operations

  /** How much of a submission the first write takes, and what becomes of it right away. */
  function FirstWrite(idle: bool, parts: seq<seq<byte>>, answer: Answer): nat
  {
    if idle && answer.Accepts? then Min(answer.limit, |Offered(parts)|) else 0
  }

  function FirstFate(idle: bool, parts: seq<seq<byte>>, answer: Answer): Fate
  {
    if !idle then Queued
    else if answer.Interrupted? || answer.Fails? then Broken
    else if FirstWrite(idle, parts, answer) == |Join(parts)| then Sent
    else Queued
  }

  function ErrnoOf(answer: Answer): Errno
  {
    if answer.Fails? then answer.errno else EINTR
  }

  function FirstCompletions(ud: nat, size: nat, fate: Fate, answer: Answer): seq<Completion>
  {
    match fate
    case Queued => []
    case Sent => [Completion(ud, size)]
    case Broken => [Completion(ud, -(ErrnoOf(answer) as int))]
  }

  /** One answer for the front of the queue. */
  ghost function Answered(v: Sends, answer: Answer): Sends
    requires SendsHold(v) && v.sendq != []
  {
    match answer
    case Accepts(limit) =>
      FrontMatches(v);
      FrontTook(v, Min(limit, |v.sendq[0].bytes| - v.sendq[0].off))
    case Fails(_) => FrontBroke(v)
    case _ => v
  }

  lemma AnsweredKeeps(v: Sends, answer: Answer)
    requires SendsHold(v) && v.sendq != []
    ensures SendsHold(Answered(v, answer))
  {
    hide SendsHold;
    FrontMatches(v);
    match answer
    case Accepts(limit) => FrontTookKeeps(v, Min(limit, |v.sendq[0].bytes| - v.sendq[0].off));
    case Fails(_) => FrontBrokeKeeps(v);
    case _ =>
  }

  /** The completion that an answer for the front causes, if any. */
  function Settles(r: SendReq, answer: Answer): seq<Completion>
  {
    match answer
    case Accepts(limit) => if r.off + limit >= |r.bytes| then [Completion(r.ud, |r.bytes|)] else []
    case Fails(errno) => [Completion(r.ud, -(errno as int))]
    case _ => []
  }

  /** The queue after a run of answers, which ends when the kernel would block. */
  ghost function Drained(v: Sends, answers: seq<Answer>): (w: Sends)
    requires SendsHold(v)
    ensures SendsHold(w)
    decreases |answers|
  {
    if v.sendq == [] || answers == [] || answers[0].WouldBlock? then v
    else
      AnsweredKeeps(v, answers[0]);
      Drained(Answered(v, answers[0]), answers[1..])
  }

  ghost function Settled(v: Sends, answers: seq<Answer>): seq<Completion>
    requires SendsHold(v)
    decreases |answers|
  {
    if v.sendq == [] || answers == [] || answers[0].WouldBlock? then []
    else
      AnsweredKeeps(v, answers[0]);
      Settles(v.sendq[0], answers[0]) + Settled(Answered(v, answers[0]), answers[1..])
  }

  /** What becomes of a submission of which the kernel was offered `offered` bytes: behind a queue it joins it;
      a failure is completed with its error; else what was accepted is on the wire, and the rest queued or,
      when there is none, the send completed in full. */
  ghost predicate IsSubmitted(v: Sends, ready: seq<Completion>, ud: nat, data: seq<byte>, offered: nat, answer: Answer,
                              w: Sends, ready': seq<Completion>)
  {
    if v.sendq != [] then
      w.wire == v.wire && w.sendq == v.sendq + [SendReq(ud, data, 0)] && ready' == ready
    else
      match answer
      case Fails(errno) => w.wire == v.wire && w.sendq == [] && ready' == ready + [Completion(ud, -(errno as int))]
      case Interrupted => w.wire == v.wire && w.sendq == [] && ready' == ready + [Completion(ud, -(EINTR as int))]
      case WouldBlock => TookFirst(v, ready, ud, data, 0, w, ready')
      case Accepts(limit) => TookFirst(v, ready, ud, data, Min(limit, offered), w, ready')
  }

  ghost predicate TookFirst(v: Sends, ready: seq<Completion>, ud: nat, data: seq<byte>, taken: nat, w: Sends,
                            ready': seq<Completion>)
  {
    && taken <= |data| && w.wire == v.wire + data[..taken]
    && if taken == |data| then w.sendq == [] && ready' == ready + [Completion(ud, |data|)]
       else w.sendq == [SendReq(ud, data[taken..], 0)] && ready' == ready
  }

  /** What an answer to a write from the front does: what was accepted is on the wire and, when nothing is
      left, the request completed with its size; a failure completes it with the error. */
  ghost predicate IsAnswered(v: Sends, answer: Answer, w: Sends, done: seq<Completion>)
    requires v.sendq != []
  {
    var r := v.sendq[0];
    match answer
    case Accepts(limit) =>
      && r.off <= |r.bytes|
      && var end := r.off + Min(limit, |r.bytes| - r.off);
      && w.wire == v.wire + r.bytes[r.off..end]
      && if end == |r.bytes| then w.sendq == v.sendq[1..] && done == [Completion(r.ud, |r.bytes|)]
         else w.sendq == [r.(off := end)] + v.sendq[1..] && done == []
    case Fails(errno) => w.wire == v.wire && w.sendq == v.sendq[1..] && done == [Completion(r.ud, -(errno as int))]
    case _ => w.wire == v.wire && w.sendq == v.sendq && done == []
  }

  lemma SubmitMeans(v: Sends, ready: seq<Completion>, ud: nat, parts: seq<seq<byte>>, answer: Answer)
    ensures var data, idle := Join(parts), v.sendq == [];
            var first, fate := FirstWrite(idle, parts, answer), FirstFate(idle, parts, answer);
            first <= |data| && IsSubmitted(v, ready, ud, data, |Join(parts[..Min(|parts|, 64)])|, answer,
                                           Submitted(v, ud, data, first, fate), ready + FirstCompletions(ud, |data|, fate, answer))
  {
    JoinPrefix(parts, Min(|parts|, MAX_PARTS));
    var data := Join(parts);
    assert data[0..] == data && v.wire + data[..0] == v.wire && ready + [] == ready;
  }

  lemma AnswerMeans(v: Sends, answer: Answer)
    requires SendsHold(v) && v.sendq != []
    ensures IsAnswered(v, answer, Answered(v, answer), Settles(v.sendq[0], answer))
  {
    hide SendsHold;
    FrontMatches(v);
    var r := v.sendq[0];
    assert forall off :: v.sendq[0 := r.(off := off)] == [r.(off := off)] + v.sendq[1..];
  }

  class SendQueue {
    var sendq: seq<SendReq>
    var ready: seq<Completion>
    var wire: seq<byte>
    ghost var subs: seq<Submission>
    ghost var ids: seq<nat>

    ghost function View(): Sends
      reads this
    {
      Sends(subs, ids, sendq, wire)
    }

    ghost predicate Valid()
      reads this
    {
      SendsHold(View())
    }

    constructor ()
      ensures Valid() && View() == Sends([], [], [], []) && ready == []
    {
      sendq, ready, wire, subs, ids := [], [], [], [], [];
    }

    /** The bytes go out behind everything submitted earlier: at once as far as the kernel takes them
        (the first 64 parts are offered), the rest through the queue. */
    method Submit(ud: nat, parts: seq<seq<byte>>, answer: Answer)
      requires Valid()
      modifies this
      ensures Valid()
      ensures FirstWrite(old(sendq) == [], parts, answer) <= |Join(parts)|
      ensures View() == Submitted(old(View()), ud, Join(parts), FirstWrite(old(sendq) == [], parts, answer),
                                  FirstFate(old(sendq) == [], parts, answer))
      ensures ready == old(ready) + FirstCompletions(ud, |Join(parts)|, FirstFate(old(sendq) == [], parts, answer), answer)
      ensures IsSubmitted(old(View()), old(ready), ud, Join(parts), |Join(parts[..Min(|parts|, 64)])|, answer, View(), ready)
    {
      hide SendsHold, IsSubmitted;
      SubmitMeans(View(), ready, ud, parts, answer);
      var total := TotalSize(parts);
      JoinPrefix(parts, Min(|parts|, MAX_PARTS));
      ghost var first, fate := FirstWrite(sendq == [], parts, answer), FirstFate(sendq == [], parts, answer);
      SubmittedKeeps(View(), ud, Join(parts), first, fate);
      ghost var after := Submitted(View(), ud, Join(parts), first, fate);
      if sendq != [] {
        var bytes := GatherTail(parts, 0);
        sendq := sendq + [SendReq(ud, bytes, 0)];
        wire := wire + [];
      } else if answer.Interrupted? || answer.Fails? {
        ready := ready + [Completion(ud, -(ErrnoOf(answer) as int))];
        wire := wire + [];
      } else {
        var offered := Offered(parts);
        var sent := if answer.Accepts? then Min(answer.limit, |offered|) else 0;
        wire := wire + offered[..sent];
        assert offered[..sent] == Join(parts)[..sent];
        if sent == total {
          ready := ready + [Completion(ud, sent)];
        } else {
          var bytes := GatherTail(parts, sent);
          sendq := sendq + [SendReq(ud, bytes, 0)];
        }
      }
      subs, ids := after.subs, after.ids;
    }

    /** The kernel's answer to a write from the front of the queue. */
    method WriteFront(answer: Answer) returns (done: seq<Completion>)
      requires Valid() && sendq != []
      modifies this
      ensures Valid() && View() == Answered(old(View()), answer) && done == Settles(old(sendq)[0], answer)
      ensures IsAnswered(old(View()), answer, View(), done) && ready == old(ready)
    {
      hide SendsHold, IsAnswered;
      AnswerMeans(View(), answer);
      AnsweredKeeps(View(), answer);
      FrontMatches(View());
      ghost var after := Answered(View(), answer);
      var req := sendq[0];
      done := [];
      match answer {
        case Accepts(limit) =>
          var w := Min(limit, |req.bytes| - req.off);
          wire := wire + req.bytes[req.off..req.off + w];
          req := req.(off := req.off + w);
          sendq := sendq[0 := req];
          if req.off == |req.bytes| {
            done := [Completion(req.ud, |req.bytes|)];
            sendq := sendq[1..];
            assert sendq == after.sendq;
          }
        case Fails(errno) =>
          done := [Completion(req.ud, -(errno as int))];
          sendq := sendq[1..];
        case _ =>
      }
      subs, ids := after.subs, after.ids;
    }

    /** Writes until the queue is empty or the kernel would block. Completions beyond the caller's
        room are not kept anywhere. */
    method OnWritable(answers: seq<Answer>, room: nat) returns (out: seq<Completion>)
      requires Valid()
      modifies this
      ensures Valid() && View() == Drained(old(View()), answers) && ready == old(ready)
      ensures var settled := Settled(old(View()), answers);
              out == settled[..Min(|settled|, room)]
    {
      hide SendsHold, Answered, Settles, Drained, Settled;
      out := [];
      var i := 0;
      ghost var start := View();
      ghost var settled: seq<Completion> := [];
      while sendq != [] && i < |answers| && !answers[i].WouldBlock?
        invariant i <= |answers| && Valid() && ready == old(ready)
        invariant Drained(View(), answers[i..]) == Drained(start, answers)
        invariant settled + Settled(View(), answers[i..]) == Settled(start, answers)
        invariant out == settled[..Min(|settled|, room)]
        decreases |answers| - i
      {
        ghost var now := View();
        DrainGoesOn(now, answers, i);
        var done := WriteFront(answers[i]);
        RoomForOne(settled, now.sendq[0], answers[i], room);
        assert settled + (done + Settled(View(), answers[i + 1..])) == settled + done + Settled(View(), answers[i + 1..]);
        settled := settled + done;
        out := if |out| < room then out + done else out;
        i := i + 1;
      }
      DrainEnds(View(), answers[i..]);
    }
  }

  lemma DrainGoesOn(v: Sends, answers: seq<Answer>, i: nat)
    requires SendsHold(v) && v.sendq != [] && i < |answers| && !answers[i].WouldBlock?
    ensures SendsHold(Answered(v, answers[i]))
    ensures Drained(v, answers[i..]) == Drained(Answered(v, answers[i]), answers[i + 1..])
    ensures Settled(v, answers[i..]) == Settles(v.sendq[0], answers[i]) + Settled(Answered(v, answers[i]), answers[i + 1..])
  {
    hide SendsHold, Answered, Settles;
    AnsweredKeeps(v, answers[i]);
    assert answers[i..][1..] == answers[i + 1..];
  }

  lemma DrainEnds(v: Sends, answers: seq<Answer>)
    requires SendsHold(v) && (v.sendq == [] || answers == [] || answers[0].WouldBlock?)
    ensures Drained(v, answers) == v && Settled(v, answers) == []
  {
  }

  lemma RoomForOne(settled: seq<Completion>, r: SendReq, answer: Answer, room: nat)
    ensures var done, out := Settles(r, answer), settled[..Min(|settled|, room)];
            (if |out| < room then out + done else out) == (settled + done)[..Min(|settled + done|, room)]
  {
  }

  // ---- what completions report

  /** The completion of a queued send reports the bytes that went through the queue: all bytes of the
      submission exactly when the first write took none. */
  lemma ResultIsTail(v: Sends, limit: nat)
    requires SendsHold(v) && v.sendq != [] && Settles(v.sendq[0], Accepts(limit)) != []
    ensures var s := v.subs[v.ids[0]];
            && Answered(v, Accepts(limit)).subs[v.ids[0]].fate == Sent
            && Settles(v.sendq[0], Accepts(limit)) == [Completion(v.sendq[0].ud, |s.data| - s.first)]
  {
    hide SendsHold;
    FrontMatches(v);
  }

  /** Every request is settled or still queued. */
  lemma {:induction false} SettledOrQueued(v: Sends, answers: seq<Answer>)
    requires SendsHold(v)
    ensures |Settled(v, answers)| + |Drained(v, answers).sendq| == |v.sendq|
    decreases |answers|
  {
    hide SendsHold;
    if v.sendq != [] && answers != [] && !answers[0].WouldBlock? {
      AnsweredKeeps(v, answers[0]);
      FrontMatches(v);
      SettledOrQueued(Answered(v, answers[0]), answers[1..]);
    }
  }

  /** A kernel that takes whole requests settles the queue in one call. */
  lemma {:induction false} AllTaken(v: Sends, limit: nat, n: nat)
    requires SendsHold(v) && n == |v.sendq| && forall k :: 0 <= k < |v.sendq| ==> |v.sendq[k].bytes| <= limit
    ensures |Settled(v, seq(n, i => Accepts(limit)))| == n
    decreases n
  {
    hide SendsHold;
    if n > 0 {
      var answers := seq(n, i => Accepts(limit));
      assert answers[0] == Accepts(limit) && answers[1..] == seq(n - 1, i => Accepts(limit));
      AnsweredKeeps(v, Accepts(limit));
      FrontMatches(v);
      var w := Answered(v, Accepts(limit));
      assert w.sendq == v.sendq[1..];
      AllTaken(w, limit, n - 1);
    }
  }

  ghost function LargestOf(sendq: seq<SendReq>): (limit: nat)
    ensures forall k :: 0 <= k < |sendq| ==> |sendq[k].bytes| <= limit
  {
    if sendq == [] then 0 else Max(LargestOf(sendq[..|sendq| - 1]), |sendq[|sendq| - 1].bytes|)
  }

  /** Every completion of a call is certain to be reported, whatever the kernel answers, if and only if
      there is room for as many as requests are queued. */
  lemma CompletionsFit(v: Sends, room: nat)
    requires SendsHold(v)
    ensures (forall answers: seq<Answer> :: |Settled(v, answers)| <= room) <==> |v.sendq| <= room
    ensures forall answers: seq<Answer> :: |Settled(v, answers)| <= room ==>
              Settled(v, answers)[..Min(|Settled(v, answers)|, room)] == Settled(v, answers)
  {
    hide SendsHold, Settled, Drained;
    forall answers: seq<Answer> ensures |Settled(v, answers)| <= |v.sendq| {
      SettledOrQueued(v, answers);
    }
    AllTaken(v, LargestOf(v.sendq), |v.sendq|);
  }

  /** Two requests finishing in one call with room for one completion: the second is settled, gone from
      the queue, and missing from what the call returns. */
  lemma DroppedCompletion()
    ensures var v := Submitted(Submitted(Sends([], [], [], []), 1, [7], 0, Queued), 2, [8], 0, Queued);
            && SendsHold(v)
            && var settled := Settled(v, [Accepts(1), Accepts(1)]);
            && settled == [Completion(1, 1), Completion(2, 1)] && settled[..Min(|settled|, 1)] == [Completion(1, 1)]
            && Drained(v, [Accepts(1), Accepts(1)]).sendq == [] && |v.sendq| == 2
  {
    hide SendsHold, Settled, Drained;
    var empty := Sends([], [], [], []);
    var one := Submitted(empty, 1, [7], 0, Queued);
    var two := Submitted(one, 2, [8], 0, Queued);
    EmptyHolds();
    SubmittedKeeps(empty, 1, [7], 0, Queued);
    SubmittedKeeps(one, 2, [8], 0, Queued);
    DropStep(two);
  }

  lemma EmptyHolds()
    ensures SendsHold(Sends([], [], [], []))
  {
  }

  lemma DropStep(v: Sends)
    requires SendsHold(v) && v.sendq == [SendReq(1, [7], 0), SendReq(2, [8], 0)]
    ensures Settled(v, [Accepts(1), Accepts(1)]) == [Completion(1, 1), Completion(2, 1)]
    ensures Drained(v, [Accepts(1), Accepts(1)]).sendq == []
  {
    hide SendsHold;
    var both := [Accepts(1), Accepts(1)];
    assert both[1..] == [Accepts(1)];
    AnsweredKeeps(v, Accepts(1));
    var w := Answered(v, Accepts(1));
    assert w.sendq == [SendReq(2, [8], 0)];
    AnsweredKeeps(w, Accepts(1));
    assert Settled(w, [Accepts(1)]) == [Completion(2, 1)];
  }

  // ---- whole runs

  datatype SendStep = SubmitParts(ud: nat, parts: seq<seq<byte>>, answer: Answer) | Writable(answers: seq<Answer>, room: nat)

  /** All bytes handed to the backend, in order. */
  function HandedIn(steps: seq<SendStep>): seq<byte>
  {
    if steps == [] then [] else
    var last := steps[|steps| - 1];
    HandedIn(steps[..|steps| - 1]) + if last.SubmitParts? then Join(last.parts) else []
  }

  predicate Harmless(step: SendStep)
  {
    match step
    case SubmitParts(_, _, answer) => !answer.Interrupted? && !answer.Fails?
    case Writable(answers, _) => forall i :: 0 <= i < |answers| ==> !answers[i].Fails?
  }

  /** Submissions keep their bytes, and none breaks unless the kernel says so. */
  ghost predicate SameData(a: seq<Submission>, b: seq<Submission>)
  {
    |a| == |b| && forall i :: 0 <= i < |a| ==> a[i].data == b[i].data
  }

  lemma {:induction false} SameDataJoins(a: seq<Submission>, b: seq<Submission>)
    requires SameData(a, b)
    ensures AllData(a) == AllData(b)
  {
    if a != [] {
      SameDataJoins(a[..|a| - 1], b[..|b| - 1]);
    }
  }

  lemma {:induction false} DrainedData(v: Sends, answers: seq<Answer>)
    requires SendsHold(v)
    ensures SameData(v.subs, Drained(v, answers).subs)
    ensures NoneBroken(v.subs) && Harmless(Writable(answers, 0)) ==> NoneBroken(Drained(v, answers).subs)
    decreases |answers|
  {
    hide SendsHold;
    if v.sendq != [] && answers != [] && !answers[0].WouldBlock? {
      AnsweredKeeps(v, answers[0]);
      FrontMatches(v);
      DrainedData(Answered(v, answers[0]), answers[1..]);
    }
  }

  lemma SubmittedData(subs: seq<Submission>, s: Submission)
    ensures AllData(subs + [s]) == AllData(subs) + s.data
    ensures NoneBroken(subs) && s.fate != Broken ==> NoneBroken(subs + [s])
  {
    assert (subs + [s])[..|subs|] == subs;
  }

  lemma HandedInOne(steps: seq<SendStep>, i: nat)
    requires i < |steps|
    ensures HandedIn(steps[..i + 1]) == HandedIn(steps[..i]) + if steps[i].SubmitParts? then Join(steps[i].parts) else []
  {
    assert steps[..i + 1][..i] == steps[..i];
  }

  // ---- whose completions

  function UdsOf(done: seq<Completion>): seq<nat>
  {
    seq(|done|, i requires 0 <= i < |done| => done[i].ud)
  }

  function QueuedUds(sendq: seq<SendReq>): seq<nat>
  {
    seq(|sendq|, i requires 0 <= i < |sendq| => sendq[i].ud)
  }

  /** Who submitted, in order. */
  function SubmittedUds(steps: seq<SendStep>): seq<nat>
  {
    if steps == [] then []
    else
      var last := steps[|steps| - 1];
      SubmittedUds(steps[..|steps| - 1]) + if last.SubmitParts? then [last.ud] else []
  }

  lemma SubmittedUdsOne(steps: seq<SendStep>, i: nat)
    requires i < |steps|
    ensures SubmittedUds(steps[..i + 1]) == SubmittedUds(steps[..i]) + if steps[i].SubmitParts? then [steps[i].ud] else []
  {
    assert steps[..i + 1][..i] == steps[..i];
  }

  /** A submission is completed at once or goes to the end of the queue. */
  lemma SubmitUds(v: Sends, ud: nat, data: seq<byte>, first: nat, fate: Fate, answer: Answer)
    requires first <= |data| && (v.sendq != [] ==> fate == Queued)
    ensures UdsOf(FirstCompletions(ud, |data|, fate, answer)) + QueuedUds(Submitted(v, ud, data, first, fate).sendq) ==
            QueuedUds(v.sendq) + [ud]
  {
  }

  lemma AnswerUds(v: Sends, answer: Answer)
    requires SendsHold(v) && v.sendq != []
    ensures UdsOf(Settles(v.sendq[0], answer)) + QueuedUds(Answered(v, answer).sendq) == QueuedUds(v.sendq)
  {
    hide SendsHold;
    FrontMatches(v);
  }

  /** What a run of answers settles are the first in the queue, in order. */
  lemma {:induction false} SettledUds(v: Sends, answers: seq<Answer>)
    requires SendsHold(v)
    ensures UdsOf(Settled(v, answers)) + QueuedUds(Drained(v, answers).sendq) == QueuedUds(v.sendq)
    decreases |answers|
  {
    hide SendsHold, Answered, Settles;
    if v.sendq != [] && answers != [] && !answers[0].WouldBlock? {
      AnswerUds(v, answers[0]);
      AnsweredKeeps(v, answers[0]);
      var w, rest := Answered(v, answers[0]), answers[1..];
      SettledUds(w, rest);
      UdsJoin(Settles(v.sendq[0], answers[0]), Settled(w, rest), QueuedUds(Drained(w, rest).sendq));
    } else {
      assert UdsOf([]) + QueuedUds(v.sendq) == QueuedUds(v.sendq);
    }
  }

  lemma UdsJoin(a: seq<Completion>, b: seq<Completion>, rest: seq<nat>)
    ensures UdsOf(a + b) + rest == UdsOf(a) + (UdsOf(b) + rest)
  {
    assert UdsOf(a + b) == UdsOf(a) + UdsOf(b);
  }

  /** One more step: completed so far, completed now, still queued. */
  lemma UdsGoOn(done: seq<Completion>, more: seq<Completion>, before: seq<nat>, after: seq<nat>, handedIn: seq<nat>,
                now: seq<nat>)
    requires UdsOf(done) + before == handedIn && UdsOf(more) + after == before + now
    ensures UdsOf(done + more) + after == handedIn + now
  {
    UdsJoin(done, more, after);
    assert UdsOf(done) + (before + now) == UdsOf(done) + before + now;
  }

  lemma NobodyYet()
    ensures UdsOf([]) + QueuedUds([]) == SubmittedUds([])
  {
  }

  /** One step: what it completes, and what of that is reported. */
  method Perform(q: SendQueue, step: SendStep) returns (done: seq<Completion>, ghost settled: seq<Completion>)
    requires q.Valid()
    modifies q
    ensures q.Valid() && |q.sendq| <= |old(q.sendq)| + 1
    ensures UdsOf(settled) + QueuedUds(q.sendq) == QueuedUds(old(q.sendq)) + if step.SubmitParts? then [step.ud] else []
    ensures (step.Writable? ==> |old(q.sendq)| <= step.room) ==> done == settled
    ensures AllData(q.subs) == AllData(old(q.subs)) + if step.SubmitParts? then Join(step.parts) else []
    ensures NoneBroken(old(q.subs)) && Harmless(step) ==> NoneBroken(q.subs)
  {
    hide SendsHold, Harmless, AllData, NoneBroken, UdsOf, QueuedUds, Settled, Drained, FirstCompletions;
    match step {
      case SubmitParts(ud, parts, answer) =>
        ghost var first, fate := FirstWrite(q.sendq == [], parts, answer), FirstFate(q.sendq == [], parts, answer);
        SubmittedStep(q.View(), step, q.sendq == []);
        SubmitUds(q.View(), ud, Join(parts), first, fate, answer);
        var before := |q.ready|;
        q.Submit(ud, parts, answer);
        settled := FirstCompletions(ud, |Join(parts)|, fate, answer);
        done := q.ready[before..];
      case Writable(answers, room) =>
        DrainedStep(q.View(), step);
        SettledUds(q.View(), answers);
        SettledOrQueued(q.View(), answers);
        settled := Settled(q.View(), answers);
        done := q.OnWritable(answers, room);
    }
  }

  /** For every sequence of submissions, readiness events and short writes without hard errors, the
      bytes the kernel took, followed by the queue, are all the bytes submitted, in order. Every submission
      is completed once, in order, or still queued; and all completions are reported when each readiness
      event has room for as many as there are steps. */
  method Drive(steps: seq<SendStep>) returns (q: SendQueue, reported: seq<Completion>, ghost completed: seq<Completion>)
    ensures q.Valid() && AllData(q.subs) == HandedIn(steps)
    ensures (forall i :: 0 <= i < |steps| ==> Harmless(steps[i])) ==>
              OffsetsHold(q.sendq) && q.wire + Pending(q.sendq) == HandedIn(steps)
    ensures UdsOf(completed) + QueuedUds(q.sendq) == SubmittedUds(steps)
    ensures (forall i :: 0 <= i < |steps| && steps[i].Writable? ==> |steps| <= steps[i].room) ==> reported == completed
  {
    hide SendsHold, Harmless, AllData, NoneBroken, UdsOf, QueuedUds, SubmittedUds;
    q := new SendQueue();
    reported, completed := [], [];
    NobodyYet();
    StartsEmpty();
    for i := 0 to |steps|
      invariant fresh(q) && q.Valid() && AllData(q.subs) == HandedIn(steps[..i])
      invariant (forall j :: 0 <= j < i ==> Harmless(steps[j])) ==> NoneBroken(q.subs)
      invariant UdsOf(completed) + QueuedUds(q.sendq) == SubmittedUds(steps[..i]) && |q.sendq| <= i
      invariant (forall j :: 0 <= j < i && steps[j].Writable? ==> |steps| <= steps[j].room) ==> reported == completed
    {
      HandedInOne(steps, i);
      SubmittedUdsOne(steps, i);
      ghost var queued := QueuedUds(q.sendq);
      var done, settled := Perform(q, steps[i]);
      UdsGoOn(completed, settled, queued, QueuedUds(q.sendq), SubmittedUds(steps[..i]),
              if steps[i].SubmitParts? then [steps[i].ud] else []);
      reported, completed := reported + done, completed + settled;
    }
    assert steps[..|steps|] == steps;
    if forall i :: 0 <= i < |steps| ==> Harmless(steps[i]) {
      WireOfValid(q.View());
    }
  }

  lemma StartsEmpty()
    ensures AllData([]) == [] && NoneBroken([])
  {
  }

  lemma SubmittedStep(v: Sends, step: SendStep, idle: bool)
    requires step.SubmitParts?
    ensures FirstWrite(idle, step.parts, step.answer) <= |Join(step.parts)|
    ensures var w := Submitted(v, step.ud, Join(step.parts), FirstWrite(idle, step.parts, step.answer),
                               FirstFate(idle, step.parts, step.answer));
            && AllData(w.subs) == AllData(v.subs) + Join(step.parts)
            && (NoneBroken(v.subs) && Harmless(step) ==> NoneBroken(w.subs))
  {
    var first := FirstWrite(idle, step.parts, step.answer);
    JoinPrefix(step.parts, Min(|step.parts|, MAX_PARTS));
    SubmittedData(v.subs, Submission(Join(step.parts), first, first, FirstFate(idle, step.parts, step.answer)));
  }

  lemma DrainedStep(v: Sends, step: SendStep)
    requires step.Writable? && SendsHold(v)
    ensures var w := Drained(v, step.answers);
            && AllData(w.subs) == AllData(v.subs)
            && (NoneBroken(v.subs) && Harmless(step) ==> NoneBroken(w.subs))
  {
    DrainedData(v, step.answers);
    SameDataJoins(v.subs, Drained(v, step.answers).subs);
  }

  lemma WireOfValid(v: Sends)
    requires SendsHold(v) && NoneBroken(v.subs)
    ensures OffsetsHold(v.sendq) && v.wire + Pending(v.sendq) == AllData(v.subs)
  {
    WireIsOrdered(v.subs, v.ids, v.sendq);
  }
}
