/** The connection's write half on top of the send queue: buffer, one send in flight, consume what
    the completion reports. What reaches the wire is what was written, unless the kernel took part
    of a send right away. */
module WritePath {
  import opened Basics
  import opened EpollSend

  /** Bytes that are sent again because the completion does not report what the first write took. */
  ghost function Resent(s: Submission): nat
  {
    if s.fate == Sent && s.first < |s.data| then s.first else 0
  }

  ghost function Repeated(subs: seq<Submission>): nat
  {
    if subs == [] then 0 else Repeated(subs[..|subs| - 1]) + Resent(subs[|subs| - 1])
  }

  /** The books of one connection: sent, in flight and still buffered bytes against those written. */
  ghost predicate Accounted(wire: seq<byte>, flying: seq<byte>, later: seq<byte>, written: seq<byte>, repeated: nat)
  {
    && |wire| + |flying| + |later| == |written| + repeated
    && (repeated == 0 ==> wire + flying + later == written)
  }

  datatype Half = Half(sends: Sends, ready: seq<Completion>, buffer: seq<byte>, inflight: nat, written: seq<byte>)

  ghost predicate Idle(h: Half)
  {
    && h.inflight == 0 && h.sends.sendq == [] && h.ready == []
    && Accounted(h.sends.wire, [], h.buffer, h.written, Repeated(h.sends.subs))
  }

  ghost predicate Flying(h: Half)
  {
    var v := h.sends;
    && 0 < h.inflight <= |h.buffer| && h.ready == [] && |v.sendq| == 1 && v.subs != [] && v.ids == [|v.subs| - 1]
    && Matches(v.subs[|v.subs| - 1], v.sendq[0]) && |v.subs[|v.subs| - 1].data| == h.inflight
    && v.subs[|v.subs| - 1].first < h.inflight
    && Accounted(v.wire, v.sendq[0].bytes[v.sendq[0].off..], h.buffer[h.inflight..], h.written, Repeated(v.subs))
  }

  ghost predicate Landed(h: Half)
  {
    && 0 < h.inflight <= |h.buffer| && h.sends.sendq == [] && |h.ready| == 1 && Reported(h, h.ready[0])
  }

  function Released(c: Completion): nat { if c.result > 0 then c.result else 0 }

  predicate Closes(c: Completion) { c.result < 0 && c.result != -ECANCELED }

  /** A completion closes the connection, or the books balance once the bytes it reports are released; a
      cancelled send reports none. */
  ghost predicate Reported(h: Half, c: Completion)
  {
    || Closes(c)
    || (c.result <= |h.buffer| &&
        Accounted(h.sends.wire, [], h.buffer[Released(c)..], h.written, Repeated(h.sends.subs)))
  }

  ghost predicate HalfHolds(h: Half)
  {
    SendsHold(h.sends) && (Idle(h) || Flying(h) || Landed(h))
  }

  // ---- the steps on values

  lemma WriteKeeps(h: Half, data: seq<byte>)
    requires HalfHolds(h)
    ensures HalfHolds(h.(buffer := h.buffer + data, written := h.written + data))
  {
    hide SendsHold;
    var g := h.(buffer := h.buffer + data, written := h.written + data);
    if Idle(h) {
      LaterGrows(h.sends.wire, [], h.buffer, h.written, Repeated(h.sends.subs), data);
    } else if Flying(h) {
      var r := h.sends.sendq[0];
      assert g.buffer[h.inflight..] == h.buffer[h.inflight..] + data;
      LaterGrows(h.sends.wire, r.bytes[r.off..], h.buffer[h.inflight..], h.written, Repeated(h.sends.subs), data);
    } else if Landed(h) && !Closes(h.ready[0]) {
      assert Reported(h, h.ready[0]);
      var n := Released(h.ready[0]);
      assert g.buffer[n..] == h.buffer[n..] + data;
      LaterGrows(h.sends.wire, [], h.buffer[n..], h.written, Repeated(h.sends.subs), data);
    }
  }

  lemma LaterGrows(wire: seq<byte>, flying: seq<byte>, later: seq<byte>, written: seq<byte>, repeated: nat, data: seq<byte>)
    requires Accounted(wire, flying, later, written, repeated)
    ensures Accounted(wire, flying, later + data, written + data, repeated)
  {
    assert wire + flying + later + data == wire + flying + (later + data);
  }

  lemma RepeatedAppends(subs: seq<Submission>, s: Submission)
    ensures Repeated(subs + [s]) == Repeated(subs) + Resent(s)
  {
    assert (subs + [s])[..|subs|] == subs;
  }

  /** The whole buffer is submitted unless a send is in flight already. */
  ghost function FlushedHalf(h: Half, answer: Answer): Half
  {
    if h.inflight != 0 || h.buffer == [] then h
    else
      var first, fate := FirstWrite(true, [h.buffer], answer), FirstFate(true, [h.buffer], answer);
      FirstIsSound(h.buffer, answer);
      Half(Submitted(h.sends, 0, h.buffer, first, fate), FirstCompletions(0, |h.buffer|, fate, answer),
           h.buffer, |h.buffer|, h.written)
  }

  lemma FlushKeeps(h: Half, answer: Answer)
    requires HalfHolds(h)
    ensures HalfHolds(FlushedHalf(h, answer))
  {
    hide SendsHold;
    if h.inflight == 0 && h.buffer != [] {
      var first, fate := FirstWrite(true, [h.buffer], answer), FirstFate(true, [h.buffer], answer);
      FirstIsSound(h.buffer, answer);
      SubmittedBuffer(h, first, fate, answer);
    }
  }

  lemma FirstIsSound(data: seq<byte>, answer: Answer)
    ensures Join([data]) == data
    ensures FirstWrite(true, [data], answer) <= |data|
    ensures FirstFate(true, [data], answer) == Broken ==> FirstWrite(true, [data], answer) == 0
    ensures FirstFate(true, [data], answer) == Sent ==> FirstWrite(true, [data], answer) == |data|
    ensures FirstFate(true, [data], answer) == Queued ==> FirstWrite(true, [data], answer) < |data|
  {
    assert [data][..1] == [data];
  }

  lemma SubmittedBuffer(h: Half, first: nat, fate: Fate, answer: Answer)
    requires SendsHold(h.sends) && Idle(h) && h.buffer != [] && first <= |h.buffer|
    requires fate == Sent <==> (first == |h.buffer|)
    requires fate == Broken ==> first == 0
    ensures HalfHolds(Half(Submitted(h.sends, 0, h.buffer, first, fate), FirstCompletions(0, |h.buffer|, fate, answer),
                           h.buffer, |h.buffer|, h.written))
  {
    hide SendsHold, Repeated, Accounted;
    var v := h.sends;
    SubmittedKeeps(v, 0, h.buffer, first, fate);
    RepeatedAppends(v.subs, Submission(h.buffer, first, first, fate));
    EmptyQueue(v);
    BufferSplits(v.wire, h.buffer, first, h.written, Repeated(v.subs));
    assert h.buffer[first..][0..] == h.buffer[first..];
  }

  lemma BufferSplits(wire: seq<byte>, buffer: seq<byte>, first: nat, written: seq<byte>, repeated: nat)
    requires Accounted(wire, [], buffer, written, repeated) && first <= |buffer|
    ensures Accounted(wire + buffer[..first], buffer[first..], buffer[|buffer|..], written, repeated)
    ensures first == |buffer| ==> Accounted(wire + buffer[..first], [], buffer[|buffer|..], written, repeated)
    ensures first == 0 ==> Accounted(wire + buffer[..first], [], buffer[0..], written, repeated)
  {
    var sent, tail := buffer[..first], buffer[first..];
    assert buffer == sent + tail;
    assert wire + [] + (sent + tail) == wire + sent + tail + [];
  }

  lemma EmptyQueue(v: Sends)
    requires SendsHold(v) && v.sendq == []
    ensures v.ids == []
  {
  }

  /** One send in flight: a run of answers advances it, finishes it, or breaks it. */
  ghost predicate Advanced(v: Sends, w: Sends, done: seq<Completion>)
    requires v.sendq != [] && v.subs != []
  {
    var n, r := |v.subs| - 1, v.sendq[0];
    var s := v.subs[n];
    && r.off <= |r.bytes| && |w.subs| == |v.subs| && w.subs[..n] == v.subs[..n]
    && w.subs[n].data == s.data && w.subs[n].first == s.first
    && (|| (done == [] && w.subs[n].fate == Queued && w.ids == v.ids && |w.sendq| == 1
            && r.off <= w.sendq[0].off <= |r.bytes| && w.sendq[0] == r.(off := w.sendq[0].off)
            && w.wire == v.wire + r.bytes[r.off..w.sendq[0].off])
        || (w.subs[n].fate == Sent && w.sendq == [] && done == [Completion(r.ud, |r.bytes|)]
            && w.wire == v.wire + r.bytes[r.off..])
        || (w.subs[n].fate == Broken && w.sendq == [] && |done| == 1 && Closes(done[0])))
  }

  lemma {:induction false} OneInFlight(v: Sends, answers: seq<Answer>)
    requires SendsHold(v) && |v.sendq| == 1 && v.subs != [] && v.ids == [|v.subs| - 1]
    ensures Advanced(v, Drained(v, answers), Settled(v, answers))
    decreases |answers|
  {
    hide SendsHold;
    FrontMatches(v);
    if answers == [] || answers[0].WouldBlock? {
      assert v.sendq[0].bytes[v.sendq[0].off..v.sendq[0].off] == [];
    } else {
      AnsweredKeeps(v, answers[0]);
      var w := Answered(v, answers[0]);
      OneAnswer(v, answers[0]);
      if w.sendq != [] {
        OneInFlight(w, answers[1..]);
        hide Advanced;
        AdvancesChain(v, w, Drained(w, answers[1..]), Settled(w, answers[1..]));
      }
    }
  }

  lemma OneAnswer(v: Sends, answer: Answer)
    requires SendsHold(v) && |v.sendq| == 1 && v.subs != [] && v.ids == [|v.subs| - 1] && !answer.WouldBlock?
    ensures Advanced(v, Answered(v, answer), Settles(v.sendq[0], answer))
    ensures Answered(v, answer).sendq != [] ==> Settles(v.sendq[0], answer) == [] && Answered(v, answer).ids == v.ids
  {
    hide SendsHold;
    FrontMatches(v);
    var r := v.sendq[0];
    assert r.bytes[r.off..r.off] == [];
  }

  lemma AdvancesChain(v: Sends, w: Sends, x: Sends, done: seq<Completion>)
    requires v.sendq != [] && v.subs != [] && Advanced(v, w, []) && w.sendq != [] && Advanced(w, x, done)
    ensures Advanced(v, x, done)
  {
    var r, q := v.sendq[0], w.sendq[0];
    assert r.bytes[r.off..] == r.bytes[r.off..q.off] + r.bytes[q.off..];
    if x.sendq != [] {
      var o := x.sendq[0].off;
      assert r.bytes[r.off..o] == r.bytes[r.off..q.off] + r.bytes[q.off..o];
    }
  }

  lemma RepeatedLast(subs: seq<Submission>, subs': seq<Submission>)
    requires subs != [] && |subs'| == |subs| && subs'[..|subs| - 1] == subs[..|subs| - 1]
    ensures Repeated(subs') == Repeated(subs) - Resent(subs[|subs| - 1]) + Resent(subs'[|subs| - 1])
  {
  }

  lemma FlyingAccounted(h: Half, w: Sends)
    requires Flying(h) && SendsHold(w) && Advanced(h.sends, w, []) && w.sendq != []
    ensures Flying(h.(sends := w))
  {
    hide Repeated, Accounted, SendsHold;
    FrontMatches(w);
    RepeatedLast(h.sends.subs, w.subs);
    FlyingMoves(h.sends.wire, h.sends.sendq[0], w.sendq[0].off, h.buffer[h.inflight..], h.written, Repeated(w.subs));
  }

  lemma FlyingMoves(wire: seq<byte>, r: SendReq, o: nat, later: seq<byte>, written: seq<byte>, repeated: nat)
    requires r.off <= o <= |r.bytes| && Accounted(wire, r.bytes[r.off..], later, written, repeated)
    ensures Accounted(wire + r.bytes[r.off..o], r.bytes[o..], later, written, repeated)
  {
    var a, b := r.bytes[r.off..o], r.bytes[o..];
    assert r.bytes[r.off..] == a + b;
    assert wire + (a + b) == wire + a + b;
  }

  /** When the queued bytes are all sent, the completion leaves in the buffer what the first write
      had taken already. */
  lemma LandedAccounted(h: Half, w: Sends, c: Completion)
    requires Flying(h) && Advanced(h.sends, w, [c])
    ensures w.sendq == [] && Reported(h.(sends := w), c)
  {
    hide Repeated;
    if c.result >= 0 {
      RepeatedLast(h.sends.subs, w.subs);
      var r := h.sends.sendq[0];
      assert h.sends.wire + r.bytes[r.off..] + [] == h.sends.wire + r.bytes[r.off..];
    }
  }

  /** A completion ends the send in flight and releases the bytes it reports. */
  ghost function ReportedHalf(h: Half, c: Completion): Half
  {
    h.(inflight := 0, buffer := if c.result < 0 then h.buffer else h.buffer[Min(c.result, |h.buffer|)..])
  }

  ghost function WritableHalf(h: Half, answers: seq<Answer>): Half
    requires SendsHold(h.sends)
  {
    var g, done := h.(sends := Drained(h.sends, answers)), Settled(h.sends, answers);
    if done == [] then g else ReportedHalf(g, done[0])
  }

  /** Whether the completion that these answers cause closes the connection. */
  ghost predicate ClosesOn(h: Half, answers: seq<Answer>)
    requires SendsHold(h.sends)
  {
    var done := Settled(h.sends, answers);
    done != [] && Closes(done[0])
  }

  lemma WritableKeeps(h: Half, answers: seq<Answer>)
    requires HalfHolds(h)
    ensures var w, done := h.(sends := Drained(h.sends, answers)), Settled(h.sends, answers);
            if done == [] then HalfHolds(w)
            else |done| == 1 && h.inflight != 0 && h.ready == [] && w.sends.sendq == [] && Reported(w, done[0])
  {
    hide SendsHold;
    if Flying(h) {
      hide Flying, Reported, Accounted, Repeated;
      OneInFlight(h.sends, answers);
      var w, done := Drained(h.sends, answers), Settled(h.sends, answers);
      if done == [] {
        FlyingAccounted(h, w);
      } else {
        LandedAccounted(h, w, done[0]);
      }
    }
  }

  lemma NothingWritten()
    ensures HalfHolds(Half(Sends([], [], [], []), [], [], 0, []))
  {
    hide SendsHold;
    EmptyHolds();
  }

  // ---- the write half

  datatype WriteStep = Write(data: seq<byte>) | Flush(answer: Answer) | Writable(answers: seq<Answer>) | Reap

  class WriteHalf {
    const queue: SendQueue
    var buffer: seq<byte>
    var inflight: nat
    var closed: bool
    ghost var written: seq<byte>

    ghost function View(): Half
      reads this, queue
    {
      Half(queue.View(), queue.ready, buffer, inflight, written)
    }

    /** While the connection is open its books balance. */
    ghost predicate Valid()
      reads this, queue
    {
      queue.Valid() && (!closed ==> HalfHolds(View()))
    }

    constructor ()
      ensures Valid() && !closed && fresh(queue) && View() == Half(Sends([], [], [], []), [], [], 0, [])
    {
      hide SendsHold, HalfHolds;
      queue := new SendQueue();
      buffer, inflight, closed, written := [], 0, false, [];
      NothingWritten();
    }

    method Append(data: seq<byte>)
      requires Valid() && !closed
      modifies this
      ensures Valid() && !closed
      ensures View() == old(View()).(buffer := old(buffer) + data, written := old(written) + data)
    {
      hide SendsHold, Idle, Flying, Landed;
      WriteKeeps(View(), data);
      buffer := buffer + data;
      written := written + data;
    }

    method FlushBuffer(answer: Answer)
      requires Valid() && !closed
      modifies this, queue
      ensures Valid() && !closed && View() == FlushedHalf(old(View()), answer)
      ensures if old(inflight) != 0 || old(buffer) == [] then View() == old(View())
              else inflight == |buffer| && buffer == old(buffer) &&
                   IsSubmitted(old(queue.View()), [], 0, buffer, |buffer|, answer, queue.View(), queue.ready)
    {
      hide SendsHold, Reported, Accounted, IsSubmitted;
      FlushKeeps(View(), answer);
      if inflight != 0 || buffer == [] {
        return;
      }
      FirstIsSound(buffer, answer);
      inflight := |buffer|;
      queue.Submit(0, [buffer], answer);
      ghost var done := FirstCompletions(0, |buffer|, FirstFate(true, [buffer], answer), answer);
      assert [] + done == done;
    }

    method OnSent(c: Completion)
      requires queue.Valid() && !closed && inflight != 0 && queue.sendq == [] && queue.ready == [] && Reported(View(), c)
      modifies this
      ensures Valid() && View() == ReportedHalf(old(View()), c) && closed == Closes(c)
    {
      hide SendsHold, Flying, Accounted;
      inflight := 0;
      if c.result < 0 {
        if c.result == -ECANCELED {
          return;
        }
        closed := true;
        return;
      }
      buffer := buffer[c.result..];
    }

    /** Hands over the completion of a send that was settled when it was submitted. */
    method ReapCompletion()
      requires Valid() && !closed
      modifies this, queue
      ensures Valid()
      ensures View() == if old(queue.ready) == [] then old(View())
                        else ReportedHalf(old(View()), old(queue.ready)[0]).(ready := [])
      ensures closed == (old(queue.ready) != [] && Closes(old(queue.ready)[0]))
    {
      hide SendsHold, Accounted;
      if queue.ready != [] {
        var c := queue.ready[0];
        queue.ready := queue.ready[1..];
        OnSent(c);
      }
    }

    method OnWritable(answers: seq<Answer>)
      requires Valid() && !closed
      modifies this, queue
      ensures Valid() && View() == WritableHalf(old(View()), answers)
      ensures closed == ClosesOn(old(View()), answers)
    {
      hide SendsHold, Drained, Settled, Idle, Flying, Landed, Reported;
      WritableKeeps(View(), answers);
      var out := queue.OnWritable(answers, 1);
      if out != [] {
        OnSent(out[0]);
      }
    }
  }

  datatype ConnState = ConnState(half: Half, closed: bool)

  /** What one step does; a closed connection ignores it. */
  ghost predicate Stepped(s: ConnState, step: WriteStep, s': ConnState)
  {
    && SendsHold(s.half.sends)
    && if s.closed then s' == s
       else
         match step
         case Write(data) => s' == ConnState(s.half.(buffer := s.half.buffer + data, written := s.half.written + data), false)
         case Flush(answer) => s' == ConnState(FlushedHalf(s.half, answer), false)
         case Writable(answers) => s' == ConnState(WritableHalf(s.half, answers), ClosesOn(s.half, answers))
         case Reap =>
           if s.half.ready == [] then s' == s
           else s' == ConnState(ReportedHalf(s.half, s.half.ready[0]).(ready := []), Closes(s.half.ready[0]))
  }

  ghost predicate IsRun(states: seq<ConnState>, steps: seq<WriteStep>)
  {
    && |states| == |steps| + 1 && states[0] == ConnState(Half(Sends([], [], [], []), [], [], 0, []), false)
    && forall i :: 0 <= i < |steps| ==> Stepped(states[i], steps[i], states[i + 1])
  }

  /** All that the application wrote. */
  function WrittenBy(steps: seq<WriteStep>): seq<byte>
  {
    if steps == [] then [] else
    var last := steps[|steps| - 1];
    WrittenBy(steps[..|steps| - 1]) + if last.Write? then last.data else []
  }

  /** While a connection is open its record of what was written is exactly that. */
  lemma {:induction false} OpenWasWritten(states: seq<ConnState>, steps: seq<WriteStep>)
    requires IsRun(states, steps) && !states[|steps|].closed
    ensures states[|steps|].half.written == WrittenBy(steps)
    decreases |steps|
  {
    if steps != [] {
      var n := |steps| - 1;
      assert Stepped(states[n], steps[n], states[n + 1]);
      StepWrites(states[n], steps[n], states[n + 1]);
      RunBefore(states, steps);
      OpenWasWritten(states[..n + 1], steps[..n]);
    }
  }

  lemma RunBefore(states: seq<ConnState>, steps: seq<WriteStep>)
    requires IsRun(states, steps) && steps != []
    ensures IsRun(states[..|steps|], steps[..|steps| - 1])
  {
    hide Stepped;
    var n := |steps| - 1;
    var before, first := states[..n + 1], steps[..n];
    forall i | 0 <= i < n ensures Stepped(before[i], first[i], before[i + 1]) {
      assert Stepped(states[i], steps[i], states[i + 1]);
    }
  }

  lemma StepWrites(s: ConnState, step: WriteStep, s': ConnState)
    requires Stepped(s, step, s') && !s'.closed
    ensures !s.closed && s'.half.written == s.half.written + if step.Write? then step.data else []
  {
    hide SendsHold, Submitted, Drained, Settled;
    assert s.half.written + [] == s.half.written;
  }

  lemma RunGrows(states: seq<ConnState>, steps: seq<WriteStep>, step: WriteStep, s: ConnState)
    requires IsRun(states, steps) && Stepped(states[|steps|], step, s)
    ensures IsRun(states + [s], steps + [step])
  {
    hide Stepped;
  }

  /** One step on the connection. */
  method Perform(w: WriteHalf, step: WriteStep)
    requires w.Valid()
    modifies w, w.queue
    ensures w.Valid() && Stepped(ConnState(old(w.View()), old(w.closed)), step, ConnState(w.View(), w.closed))
  {
    hide SendsHold, HalfHolds, Drained, Settled, Submitted;
    if !w.closed {
      match step
      case Write(data) => w.Append(data);
      case Flush(answer) => w.FlushBuffer(answer);
      case Writable(answers) => w.OnWritable(answers);
      case Reap => w.ReapCompletion();
    }
  }

  /** Whole runs: whatever is written, flushed, answered and reaped, in any order, each step has its exact
      effect, and an open connection at rest has sent what was written if and only if no send was split. */
  method Drive(steps: seq<WriteStep>) returns (w: WriteHalf, ghost states: seq<ConnState>)
    ensures w.Valid() && IsRun(states, steps) && states[|steps|] == ConnState(w.View(), w.closed)
    ensures !w.closed ==> w.written == WrittenBy(steps)
    ensures !w.closed && Idle(w.View()) ==>
              (w.queue.wire + w.buffer == WrittenBy(steps) <==> TookNoneOrAll(w.queue.subs))
  {
    hide SendsHold, Flying, Landed, Accounted, Stepped, HalfHolds;
    w := new WriteHalf();
    states := [ConnState(w.View(), w.closed)];
    for i := 0 to |steps|
      invariant fresh(w) && fresh(w.queue) && w.Valid()
      invariant |states| == i + 1 && states[i] == ConnState(w.View(), w.closed) && IsRun(states, steps[..i])
    {
      Perform(w, steps[i]);
      RunGrows(states, steps[..i], steps[i], ConnState(w.View(), w.closed));
      assert steps[..i] + [steps[i]] == steps[..i + 1];
      states := states + [ConnState(w.View(), w.closed)];
    }
    assert steps[..|steps|] == steps;
    if !w.closed {
      OpenWasWritten(states, steps);
      if Idle(w.View()) {
        StreamIsExact(w.View());
      }
    }
  }

  ghost predicate TookNoneOrAll(subs: seq<Submission>)
  {
    forall i :: 0 <= i < |subs| && subs[i].fate == Sent ==> subs[i].first == 0 || subs[i].first == |subs[i].data|
  }

  /** At rest, the wire followed by the buffer is exactly what was written if and only if the kernel
      took all or nothing of every completed send right away. */
  lemma StreamIsExact(h: Half)
    requires HalfHolds(h) && Idle(h)
    ensures h.sends.wire + h.buffer == h.written <==> TookNoneOrAll(h.sends.subs)
    ensures |h.sends.wire| + |h.buffer| == |h.written| + Repeated(h.sends.subs)
  {
    hide Repeated, Taken, IdsHold, QueueMatches, SentInFull;
    NothingRepeated(h.sends.subs);
    assert h.sends.wire + [] + h.buffer == h.sends.wire + h.buffer;
  }

  lemma {:induction false} NothingRepeated(subs: seq<Submission>)
    requires WithinData(subs)
    ensures Repeated(subs) == 0 <==> TookNoneOrAll(subs)
  {
    if subs != [] {
      var n := |subs| - 1;
      NothingRepeated(subs[..n]);
      if TookNoneOrAll(subs) {
        assert forall i :: 0 <= i < n ==> subs[..n][i] == subs[i];
      }
    }
  }

  /** A send of two bytes of which the kernel takes one, then the other: the second byte stays in the
      buffer and the next flush sends it again. */
  lemma ByteSentTwice()
    ensures var h := Half(Sends([], [], [], []), [], [7, 8], 0, [7, 8]);
            var flushed := FlushedHalf(h, Accepts(1));
            HalfHolds(h) && HalfHolds(flushed) &&
            FlushedHalf(WritableHalf(flushed, [Accepts(1)]), Accepts(1)).sends.wire == [7, 8, 8]
  {
    hide SendsHold, FlushedHalf, Idle, Flying, Landed;
    var h := Half(Sends([], [], [], []), [], [7, 8], 0, [7, 8]);
    StartsIdle(h);
    FlushKeeps(h, Accepts(1));
    FlushTakesOne(h, 7, [8]);
    var flushed := FlushedHalf(h, Accepts(1));
    SecondByte(flushed.sends);
    var landed := WritableHalf(flushed, [Accepts(1)]);
    assert landed.buffer == [8];
    FlushTakesOne(landed, 8, []);
  }

  lemma StartsIdle(h: Half)
    requires h == Half(Sends([], [], [], []), [], h.buffer, 0, h.buffer)
    ensures HalfHolds(h)
  {
    assert [] + [] + h.buffer == h.buffer;
  }

  lemma FlushTakesOne(h: Half, b: byte, rest: seq<byte>)
    requires h.inflight == 0 && h.buffer == [b] + rest
    ensures var f := FlushedHalf(h, Accepts(1));
            && f.sends.wire == h.sends.wire + [b] && f.buffer == h.buffer
            && (rest != [] ==> f.sends.sendq == h.sends.sendq + [SendReq(0, rest, 0)])
  {
    FirstIsSound(h.buffer, Accepts(1));
    assert h.buffer[..1] == [b] && h.buffer[1..] == rest;
    assert Offered([h.buffer]) == h.buffer by { assert [h.buffer][..1] == [h.buffer]; }
  }

  lemma SecondByte(v: Sends)
    requires SendsHold(v) && v.sendq == [SendReq(0, [8], 0)] && v.wire == [7]
    ensures Settled(v, [Accepts(1)]) == [Completion(0, 1)] && Drained(v, [Accepts(1)]).wire == [7, 8]
  {
    hide SendsHold;
    AnsweredKeeps(v, Accepts(1));
    assert [Accepts(1)][1..] == [];
    assert Answered(v, Accepts(1)).sendq == [];
  }
}
