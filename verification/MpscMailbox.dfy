/** The bounded multi-producer ring and the arm/block mailbox protocol around it, as interleaved
    atomic steps of any number of producers and one consumer under sequential consistency. */
module MpscMailbox {
  import opened Arith

  // ---- cell index

  /** The cell a position uses; for a power-of-two capacity this is `pos & mask` (MaskIsModulo). */
  function Idx(pos: nat, cap: nat): (i: nat)
    requires cap > 0
    ensures i < cap
  {
    pos % cap
  }

  /** Positions less than one lap apart use different cells; one lap apart, the same. */
  lemma IdxWindow(cap: nat)
    requires cap > 0
    ensures forall p: nat, q: nat :: p < q < p + cap ==> Idx(p, cap) != Idx(q, cap)
    ensures forall p: nat :: Idx(p + cap, cap) == Idx(p, cap)
  {
    forall p: nat, q: nat | p < q < p + cap ensures Idx(p, cap) != Idx(q, cap) {
      DivBounds(p, cap);
      DivBounds(q, cap);
      if p / cap < q / cap {
        MulMonotone(p / cap + 1, q / cap, cap);
      } else {
        MulMonotone(q / cap, p / cap, cap);
      }
    }
    forall p: nat ensures Idx(p + cap, cap) == Idx(p, cap) {
      DivBounds(p, cap);
      QuotientIsUnique(p + cap, cap, p / cap + 1, p % cap);
    }
  }

  function Pow2(k: nat): (r: nat) ensures r > 0 { if k == 0 then 1 else 2 * Pow2(k - 1) }

  /** Bitwise conjunction of naturals. */
  function BitAnd(x: nat, y: nat): nat
  {
    if x == 0 || y == 0 then 0 else 2 * BitAnd(x / 2, y / 2) + (if x % 2 == 1 && y % 2 == 1 then 1 else 0)
  }

  lemma {:induction false} MaskIsModulo(pos: nat, k: nat)
    ensures BitAnd(pos, Pow2(k) - 1) == Idx(pos, Pow2(k))
    decreases k
  {
    if k == 0 {
    } else if pos == 0 {
    } else {
      var m := Pow2(k - 1);
      MaskIsModulo(pos / 2, k - 1);
      assert (2 * m - 1) / 2 == m - 1 && (2 * m - 1) % 2 == 1;
      HalvedRemainder(pos, m);
    }
  }

  lemma HalvedRemainder(x: nat, m: nat)
    requires m > 0
    ensures x % (2 * m) == 2 * (x / 2 % m) + x % 2
  {
    var q, r := x / 2 / m, x / 2 % m;
    DivBounds(x / 2, m);
    assert q * (2 * m) == 2 * (q * m);
    QuotientIsUnique(x, 2 * m, q, 2 * r + x % 2);
  }

  // ---- state

  /** A cell's sequence number, here its `turn`, and its payload. */
  datatype Cell = Cell(turn: nat, data: nat)

  function At(cells: seq<Cell>, pos: nat): Cell
    requires cells != []
  {
    cells[Idx(pos, |cells|)]
  }

  /** Where a producer is inside a post: about to load the enqueue position, about to load the
      cell's sequence number, about to compare-and-swap, about to write, about to publish, at a full
      ring, about to load the mailbox state, about to wake. */
  datatype Pc = Quiet | Start | HavePos(pos: nat) | HaveSeq(pos: nat) | Claimed(pos: nat) | Written(pos: nat)
              | SawFull | Check | Waking

  /** `batch` is what is left to push; `owes` says that something was published since the last
      look at the mailbox state. */
  datatype Producer = Producer(pc: Pc, batch: seq<nat>, owes: bool)

  /** The consumer: running; in try_pop having seen a published cell, advanced the dequeue position,
      taken the item; armed (Blocked stored, ring not rechecked); asleep; returned from the wait. */
  datatype Consumer = Running | Seen(pos: nat) | Advanced(pos: nat) | Taken(pos: nat) | Armed | Asleep | Woken

  datatype Mailbox = MailRunning | MailBlocked

  /** `claimed` lists the items in the order their positions were claimed, `popped` those handed to
      the consumer, `freed` counts the cells given back; they are history, not machine state. */
  datatype State = State(cap: nat, cells: seq<Cell>, enq: nat, deq: nat, producers: map<nat, Producer>,
                         consumer: Consumer, mailbox: Mailbox, wake: bool,
                         claimed: seq<nat>, popped: seq<nat>, freed: nat)
  {
    predicate Shape() { cap > 0 && |cells| == cap }

    function Put(pos: nat, c: Cell): State
      requires Shape()
    {
      this.(cells := cells[Idx(pos, cap) := c])
    }

    function With(p: nat, producer: Producer): State
    {
      this.(producers := producers[p := producer])
    }

    /** What the consumer looks for: the cell at the dequeue position is published. */
    predicate HeadPublished()
      requires Shape()
    {
      At(cells, deq).turn == deq + 1
    }
  }

  function Init(cap: nat, pids: set<nat>): State
    requires cap > 0
  {
    State(cap, seq(cap, i requires 0 <= i < cap => Cell(i, 0)), 0, 0, map p | p in pids :: Producer(Quiet, [], false),
          Running, MailRunning, false, [], [], 0)
  }

  // ---- steps

  datatype Step =
    | Post(p: nat, items: seq<nat>)
    | LoadPos(p: nat)
    | LoadSeq(p: nat)
    | Cas(p: nat, spurious: bool)
    | Write(p: nat)
    | Publish(p: nat)
    | Retry(p: nat)
    | GiveUp(p: nat)
    | LoadState(p: nat)
    | Wake(p: nat)
    | Peek
    | Advance
    | Take
    | Free
    | Block
    | Recheck
    | Return(consume: bool)
    | Resume
    | ForeignWake

  predicate Enabled(s: State, step: Step)
  {
    && s.Shape()
    && match step
       case Post(p, items) => p in s.producers && s.producers[p].pc.Quiet? && items != []
       case LoadPos(p) => p in s.producers && s.producers[p].pc.Start?
       case LoadSeq(p) => p in s.producers && s.producers[p].pc.HavePos?
       case Cas(p, _) => p in s.producers && s.producers[p].pc.HaveSeq? && s.producers[p].batch != []
       case Write(p) => p in s.producers && s.producers[p].pc.Claimed? && s.producers[p].batch != []
       case Publish(p) => p in s.producers && s.producers[p].pc.Written? && s.producers[p].batch != []
       case Retry(p) => p in s.producers && s.producers[p].pc.SawFull?
       case GiveUp(p) => p in s.producers && s.producers[p].pc.SawFull?
       case LoadState(p) => p in s.producers && s.producers[p].pc.Check?
       case Wake(p) => p in s.producers && s.producers[p].pc.Waking?
       case Peek => s.consumer.Running?
       case Advance => s.consumer.Seen?
       case Take => s.consumer.Advanced?
       case Free => s.consumer.Taken?
       case Block => s.consumer.Running?
       case Recheck => s.consumer.Armed?
       case Return(_) => s.consumer.Asleep?
       case Resume => s.consumer.Woken?
       case ForeignWake => true
  }

  function Apply(s: State, step: Step): State
    requires Enabled(s, step)
  {
    match step
    case Post(p, items) => s.With(p, Producer(Start, items, false))
    case LoadPos(p) => s.With(p, s.producers[p].(pc := HavePos(s.enq)))
    case LoadSeq(p) =>
      var pos := s.producers[p].pc.pos;
      var seen := At(s.cells, pos).turn;
      s.With(p, s.producers[p].(pc := if seen == pos then HaveSeq(pos) else if seen < pos then SawFull else Start))
    case Cas(p, spurious) =>
      var pr := s.producers[p];
      if s.enq == pr.pc.pos && !spurious then
        s.With(p, pr.(pc := Claimed(pr.pc.pos))).(enq := s.enq + 1, claimed := s.claimed + [pr.batch[0]])
      else s.With(p, pr.(pc := HavePos(s.enq)))
    case Write(p) =>
      var pr := s.producers[p];
      s.Put(pr.pc.pos, At(s.cells, pr.pc.pos).(data := pr.batch[0])).With(p, pr.(pc := Written(pr.pc.pos)))
    case Publish(p) =>
      var pr := s.producers[p];
      s.Put(pr.pc.pos, At(s.cells, pr.pc.pos).(turn := pr.pc.pos + 1))
       .With(p, Producer(if |pr.batch| == 1 then Check else Start, pr.batch[1..], true))
    case Retry(p) => s.With(p, s.producers[p].(pc := Start))
    case GiveUp(p) => s.With(p, s.producers[p].(pc := if s.producers[p].owes then Check else Quiet, batch := []))
    case LoadState(p) =>
      if s.mailbox.MailBlocked? then s.With(p, s.producers[p].(pc := Waking))
      else s.With(p, Producer(Quiet, [], false))
    case Wake(p) => s.With(p, Producer(Quiet, [], false)).(wake := true)
    case Peek => if s.HeadPublished() then s.(consumer := Seen(s.deq)) else s
    case Advance => s.(deq := s.consumer.pos + 1, consumer := Advanced(s.consumer.pos))
    case Take => s.(popped := s.popped + [At(s.cells, s.consumer.pos).data], consumer := Taken(s.consumer.pos))
    case Free =>
      s.Put(s.consumer.pos, At(s.cells, s.consumer.pos).(turn := s.consumer.pos + s.cap))
       .(freed := s.freed + 1, consumer := Running)
    case Block => s.(mailbox := MailBlocked, consumer := Armed)
    case Recheck => if s.HeadPublished() then s.(mailbox := MailRunning, consumer := Running) else s.(consumer := Asleep)
    case Return(consume) => s.(consumer := Woken, wake := s.wake && !consume)
    case Resume => s.(mailbox := MailRunning, consumer := Running)
    case ForeignWake => s.(wake := true)
  }

  // ---- invariant

  /** Claimed but not yet published by this producer. */
  predicate Holds(pr: Producer, pos: nat) { pr.pc == Claimed(pos) || pr.pc == Written(pos) }

  ghost predicate Window(s: State)
  {
    && s.Shape() && s.cap >= 2
    && s.freed <= s.deq <= s.enq <= s.freed + s.cap
    && |s.claimed| == s.enq
    && (match s.consumer
        case Seen(pos) => pos == s.deq == s.freed < s.enq && At(s.cells, pos).turn == pos + 1
        case Advanced(pos) => pos == s.freed && s.deq == pos + 1 && At(s.cells, pos).turn == pos + 1
        case Taken(pos) => pos == s.freed && s.deq == pos + 1 && At(s.cells, pos).turn == pos + 1
        case _ => s.deq == s.freed)
  }

  /** A claimed position is published with its item, or its producer still holds it; a position
      beyond the claimed ones is free for its lap. */
  ghost predicate CellsMatch(s: State)
    requires s.Shape()
  {
    && (forall p: nat :: s.freed <= p < s.enq && p < |s.claimed| ==> ClaimedCell(s, p))
    && (forall p: nat :: s.enq <= p < s.freed + s.cap ==> At(s.cells, p).turn == p)
  }

  ghost predicate ClaimedCell(s: State, pos: nat)
    requires s.Shape() && pos < |s.claimed|
  {
    || (At(s.cells, pos).turn == pos + 1 && At(s.cells, pos).data == s.claimed[pos])
    || (At(s.cells, pos).turn == pos && exists p :: p in s.producers && Holds(s.producers[p], pos))
  }

  ghost predicate ProducerMatches(s: State, pr: Producer)
    requires s.Shape()
  {
    match pr.pc
    case Quiet => !pr.owes
    case Start => pr.batch != []
    case HavePos(pos) => pos <= s.enq && pr.batch != []
    case HaveSeq(pos) => pos <= s.enq && pos < s.freed + s.cap && pr.batch != []
    case Claimed(pos) => HeldCell(s, pr, pos)
    case Written(pos) => HeldCell(s, pr, pos) && At(s.cells, pos).data == pr.batch[0]
    case SawFull => pr.batch != []
    case Check => pr.owes
    case Waking => pr.owes
  }

  ghost predicate HeldCell(s: State, pr: Producer, pos: nat)
    requires s.Shape()
  {
    s.freed <= pos < s.enq && pos < |s.claimed| && At(s.cells, pos).turn == pos && pr.batch != [] && s.claimed[pos] == pr.batch[0]
  }

  ghost predicate ProducersMatch(s: State)
    requires s.Shape()
  {
    && (forall p :: p in s.producers ==> ProducerMatches(s, s.producers[p]))
    && (forall p, q, pos :: p in s.producers && q in s.producers && Holds(s.producers[p], pos) && Holds(s.producers[q], pos) ==>
          p == q)
  }

  /** What the consumer got is exactly the oldest claimed items, in claim order. */
  ghost predicate Delivered(s: State)
  {
    s.popped <= s.claimed && |s.popped| == if s.consumer.Taken? then s.freed + 1 else s.freed
  }

  /** A sleeping consumer with a published head is about to be woken. */
  ghost predicate WakeIsComing(s: State)
    requires s.Shape()
  {
    && (s.consumer.Armed? || s.consumer.Asleep? ==> s.mailbox.MailBlocked?)
    && (s.consumer.Asleep? && s.HeadPublished() ==> s.wake || exists p :: p in s.producers && s.producers[p].owes)
  }

  ghost predicate Inv(s: State)
  {
    Window(s) && CellsMatch(s) && ProducersMatch(s) && Delivered(s) && WakeIsComing(s)
  }

  // ---- every step keeps the invariant

  lemma InitHolds(cap: nat, pids: set<nat>)
    requires cap >= 2
    ensures Inv(Init(cap, pids))
  {
    forall p: nat | p < cap ensures Idx(p, cap) == p {
      QuotientIsUnique(p, cap, 0, p);
    }
  }

  /** A producer step that touches neither the ring nor a claim. */
  lemma ProducerMoves(s: State, p: nat, pr: Producer, wake: bool)
    requires Inv(s) && p in s.producers && ProducerMatches(s, pr)
    requires forall pos :: !Holds(pr, pos) && !Holds(s.producers[p], pos)
    requires s.wake ==> wake
    requires s.producers[p].owes ==> pr.owes || wake || s.mailbox.MailRunning?
    ensures Inv(s.With(p, pr).(wake := wake))
  {
    hide Idx;
    var r := s.With(p, pr).(wake := wake);
    forall pos: nat | r.freed <= pos < r.enq ensures ClaimedCell(r, pos) {
      assert ClaimedCell(s, pos);
      if At(s.cells, pos).turn == pos {
        var q :| q in s.producers && Holds(s.producers[q], pos);
        assert q in r.producers && Holds(r.producers[q], pos);
      }
    }
    forall q | q in r.producers ensures ProducerMatches(r, r.producers[q]) {
      if q != p {
        assert ProducerMatches(s, s.producers[q]);
      }
    }
    if s.consumer.Asleep? && s.HeadPublished() && !wake {
      var q :| q in s.producers && s.producers[q].owes;
      assert r.producers[q].owes;
    }
  }

  lemma ClaimCells(s: State, p: nat)
    requires Inv(s) && Enabled(s, Cas(p, false)) && s.enq == s.producers[p].pc.pos
    ensures CellsMatch(Apply(s, Cas(p, false))) && Window(Apply(s, Cas(p, false)))
  {
    hide At, WakeIsComing, Delivered;
    var r := Apply(s, Cas(p, false));
    assert ProducerMatches(s, s.producers[p]) && At(s.cells, s.enq).turn == s.enq;
    forall pos: nat | r.freed <= pos < r.enq ensures ClaimedCell(r, pos) {
      if pos == s.enq {
        assert Holds(r.producers[p], pos);
      } else {
        assert ClaimedCell(s, pos);
        if At(s.cells, pos).turn == pos {
          var q :| q in s.producers && Holds(s.producers[q], pos);
          assert q in r.producers && Holds(r.producers[q], pos);
        }
      }
    }
  }

  lemma ClaimKeeps(s: State, p: nat)
    requires Inv(s) && Enabled(s, Cas(p, false)) && s.enq == s.producers[p].pc.pos
    ensures Inv(Apply(s, Cas(p, false)))
  {
    hide At;
    var r := Apply(s, Cas(p, false));
    assert ProducerMatches(s, s.producers[p]) && At(s.cells, s.enq).turn == s.enq;
    ClaimCells(s, p);
    forall q | q in r.producers ensures ProducerMatches(r, r.producers[q]) {
      assert ProducerMatches(s, s.producers[q]);
    }
    if s.consumer.Asleep? && r.HeadPublished() && !s.wake {
      var q :| q in s.producers && s.producers[q].owes;
      assert r.producers[q].owes;
    }
  }

  /** Writing a cell changes no other position within a lap. */
  lemma PutElsewhere(s: State, pos: nat, c: Cell)
    requires s.Shape()
    ensures At(s.Put(pos, c).cells, pos) == c
    ensures forall q: nat :: q < pos + s.cap && pos < q + s.cap && q != pos ==> At(s.Put(pos, c).cells, q) == At(s.cells, q)
  {
    hide Idx;
    IdxWindow(s.cap);
  }

  lemma WriteCells(s: State, p: nat)
    requires Inv(s) && Enabled(s, Write(p))
    ensures CellsMatch(Apply(s, Write(p))) && Window(Apply(s, Write(p)))
  {
    hide At, WakeIsComing, Delivered;
    var r := Apply(s, Write(p));
    var pr := s.producers[p];
    assert ProducerMatches(s, pr) && Holds(s.producers[p], pr.pc.pos);
    PutElsewhere(s, pr.pc.pos, At(s.cells, pr.pc.pos).(data := pr.batch[0]));
    forall pos: nat | r.freed <= pos < r.enq ensures ClaimedCell(r, pos) {
      assert ClaimedCell(s, pos);
      if At(s.cells, pos).turn == pos {
        var q :| q in s.producers && Holds(s.producers[q], pos);
        assert q in r.producers && Holds(r.producers[q], pos);
      }
    }
  }

  lemma WriteKeeps(s: State, p: nat)
    requires Inv(s) && Enabled(s, Write(p))
    ensures Inv(Apply(s, Write(p)))
  {
    hide At, CellsMatch;
    var r := Apply(s, Write(p));
    var pr := s.producers[p];
    assert ProducerMatches(s, pr) && Holds(s.producers[p], pr.pc.pos);
    WriteCells(s, p);
    PutElsewhere(s, pr.pc.pos, At(s.cells, pr.pc.pos).(data := pr.batch[0]));
    forall q | q in r.producers ensures ProducerMatches(r, r.producers[q]) {
      assert ProducerMatches(s, s.producers[q]);
    }
    if s.consumer.Asleep? && r.HeadPublished() && !s.wake {
      var q :| q in s.producers && s.producers[q].owes;
      assert r.producers[q].owes;
    }
  }

  lemma PublishCells(s: State, p: nat)
    requires Inv(s) && Enabled(s, Publish(p))
    ensures CellsMatch(Apply(s, Publish(p))) && Window(Apply(s, Publish(p)))
  {
    hide At, WakeIsComing, Delivered;
    var r := Apply(s, Publish(p));
    var pr := s.producers[p];
    assert ProducerMatches(s, pr) && Holds(s.producers[p], pr.pc.pos);
    PutElsewhere(s, pr.pc.pos, At(s.cells, pr.pc.pos).(turn := pr.pc.pos + 1));
    forall pos: nat | r.freed <= pos < r.enq ensures ClaimedCell(r, pos) {
      assert ClaimedCell(s, pos);
      if pos != pr.pc.pos && At(s.cells, pos).turn == pos {
        var q :| q in s.producers && Holds(s.producers[q], pos);
        assert q in r.producers && Holds(r.producers[q], pos);
      }
    }
  }

  lemma PublishKeeps(s: State, p: nat)
    requires Inv(s) && Enabled(s, Publish(p))
    ensures Inv(Apply(s, Publish(p)))
  {
    hide At, CellsMatch;
    var r := Apply(s, Publish(p));
    var pr := s.producers[p];
    assert ProducerMatches(s, pr) && Holds(s.producers[p], pr.pc.pos);
    PublishCells(s, p);
    PutElsewhere(s, pr.pc.pos, At(s.cells, pr.pc.pos).(turn := pr.pc.pos + 1));
    forall q | q in r.producers ensures ProducerMatches(r, r.producers[q]) {
      assert ProducerMatches(s, s.producers[q]);
    }
    assert r.producers[p].owes;
  }

  /** A consumer step that leaves ring and claims alone. */
  lemma ConsumerMoves(s: State, r: State)
    requires Inv(s) && Window(r) && Delivered(r) && WakeIsComing(r)
    requires r.cells == s.cells && r.cap == s.cap && r.enq == s.enq && r.freed == s.freed
    requires r.claimed == s.claimed && r.producers == s.producers
    ensures Inv(r)
  {
    hide Idx;
    forall pos: nat | r.freed <= pos < r.enq ensures ClaimedCell(r, pos) {
      assert ClaimedCell(s, pos);
    }
    forall q | q in r.producers ensures ProducerMatches(r, r.producers[q]) {
      assert ProducerMatches(s, s.producers[q]);
    }
  }

  /** Freeing a cell opens its next lap. */
  lemma FreeKeeps(s: State)
    requires Inv(s) && Enabled(s, Free)
    ensures Inv(Apply(s, Free))
  {
    hide At;
    var r := Apply(s, Free);
    var pos := s.consumer.pos;
    PutElsewhere(s, pos, At(s.cells, pos).(turn := pos + s.cap));
    NextLap(r.cells, pos);
    forall q: nat | r.freed <= q < r.enq ensures ClaimedCell(r, q) {
      assert ClaimedCell(s, q);
      if At(s.cells, q).turn == q {
        var o :| o in s.producers && Holds(s.producers[o], q);
        assert o in r.producers && Holds(r.producers[o], q);
      }
    }
    forall q | q in r.producers ensures ProducerMatches(r, r.producers[q]) {
      assert ProducerMatches(s, s.producers[q]);
    }
  }

  lemma NextLap(cells: seq<Cell>, pos: nat)
    requires cells != []
    ensures At(cells, pos + |cells|) == At(cells, pos)
  {
    hide Idx;
    IdxWindow(|cells|);
  }

  /** try_push reports a full ring only while exactly `cap` items are claimed and not freed. */
  lemma FullIsFull(s: State, p: nat)
    requires Inv(s) && Enabled(s, LoadSeq(p)) && Apply(s, LoadSeq(p)).producers[p].pc.SawFull?
    ensures s.producers[p].pc.pos == s.enq == s.freed + s.cap
  {
    hide Idx;
    var pos := s.producers[p].pc.pos;
    assert ProducerMatches(s, s.producers[p]);
    assert s.freed <= pos < s.enq ==> ClaimedCell(s, pos);
    if pos < s.freed {
      StaleCell(s, pos);
    }
  }

  /** The cell of a position that was freed has moved on to a later lap. */
  lemma {:induction false} StaleCell(s: State, pos: nat)
    requires Inv(s) && pos < s.freed
    ensures At(s.cells, pos).turn > pos
    decreases s.freed - pos
  {
    hide At;
    NextLap(s.cells, pos);
    var next := pos + s.cap;
    if next < s.freed {
      StaleCell(s, next);
    } else if next < s.enq {
      assert ClaimedCell(s, next);
    } else {
      assert At(s.cells, next).turn == next;
    }
  }

  /** A free cell seen at a position that is still unclaimed means there is room. */
  lemma SeenFree(s: State, p: nat)
    requires Inv(s) && Enabled(s, LoadSeq(p))
    requires At(s.cells, s.producers[p].pc.pos).turn == s.producers[p].pc.pos
    ensures s.producers[p].pc.pos < s.freed + s.cap
  {
    hide At;
    var pos := s.producers[p].pc.pos;
    assert ProducerMatches(s, s.producers[p]);
    NextLap(s.cells, s.freed);
    assert s.freed < s.enq ==> ClaimedCell(s, s.freed);
  }

  /** The producer steps that touch neither the ring nor a claim. */
  lemma ProducerKeeps(s: State, step: Step, p: nat)
    requires Inv(s) && Enabled(s, step)
    requires step.Post? || step.LoadPos? || step.LoadSeq? || step.Retry? || step.GiveUp? || step.LoadState? || step.Wake?
    requires step.p == p
    ensures Inv(Apply(s, step))
  {
    hide At, Window, CellsMatch, Delivered;
    assert s.Shape() && ProducerMatches(s, s.producers[p]) by { InvParts(s, p); }
    if step.LoadSeq? && At(s.cells, s.producers[p].pc.pos).turn == s.producers[p].pc.pos {
      SeenFree(s, p);
    }
    var r := Apply(s, step);
    ProducerMoves(s, p, r.producers[p], r.wake);
  }

  lemma InvParts(s: State, p: nat)
    requires Inv(s) && p in s.producers
    ensures s.Shape() && ProducerMatches(s, s.producers[p])
  {
  }

  /** The steps of try_pop that leave the cells alone. */
  lemma PopKeeps(s: State, step: Step)
    requires Inv(s) && Enabled(s, step) && (step.Peek? || step.Advance? || step.Take?)
    ensures Inv(Apply(s, step))
  {
    hide At;
    assert s.deq == s.enq < s.freed + s.cap ==> At(s.cells, s.deq).turn == s.deq;
    assert s.freed < s.enq ==> ClaimedCell(s, s.freed);
    ConsumerMoves(s, Apply(s, step));
  }

  /** Arming, rechecking, sleeping and waking. */
  lemma SleepKeeps(s: State, step: Step)
    requires Inv(s) && Enabled(s, step)
    requires step.Block? || step.Recheck? || step.Return? || step.Resume? || step.ForeignWake?
    ensures Inv(Apply(s, step))
  {
    hide At, CellsMatch, ProducersMatch;
    ConsumerMoves(s, Apply(s, step));
  }

  lemma StepKeeps(s: State, step: Step)
    requires Inv(s) && Enabled(s, step)
    ensures Inv(Apply(s, step))
  {
    match step
    case Post(p, items) => ProducerKeeps(s, step, p);
    case LoadPos(p) => ProducerKeeps(s, step, p);
    case LoadSeq(p) => ProducerKeeps(s, step, p);
    case Cas(p, spurious) =>
      if s.enq == s.producers[p].pc.pos && !spurious {
        ClaimKeeps(s, p);
      } else {
        ProducerMoves(s, p, s.producers[p].(pc := HavePos(s.enq)), s.wake);
      }
    case Write(p) => WriteKeeps(s, p);
    case Publish(p) => PublishKeeps(s, p);
    case Retry(p) => ProducerKeeps(s, step, p);
    case GiveUp(p) => ProducerKeeps(s, step, p);
    case LoadState(p) => ProducerKeeps(s, step, p);
    case Wake(p) => ProducerKeeps(s, step, p);
    case Free => FreeKeeps(s);
    case Peek => PopKeeps(s, step);
    case Advance => PopKeeps(s, step);
    case Take => PopKeeps(s, step);
    case _ => SleepKeeps(s, step);
  }

  // ---- whole runs

  ghost predicate IsRun(s: State, steps: seq<Step>)
    decreases |steps|
  {
    steps == [] || (Enabled(s, steps[0]) && IsRun(Apply(s, steps[0]), steps[1..]))
  }

  ghost function After(s: State, steps: seq<Step>): State
    requires IsRun(s, steps)
    decreases |steps|
  {
    if steps == [] then s else After(Apply(s, steps[0]), steps[1..])
  }

  lemma {:induction false} RunKeeps(s: State, steps: seq<Step>)
    requires Inv(s) && IsRun(s, steps)
    ensures Inv(After(s, steps))
    decreases |steps|
  {
    hide Inv, Enabled, Apply;
    if steps != [] {
      StepKeeps(s, steps[0]);
      RunKeeps(Apply(s, steps[0]), steps[1..]);
    }
  }

  /** The ring as a bounded queue: what was popped is the oldest part of the claim order, at most
      `cap` claimed items are unfreed, and every other claimed item is still in its cell or about to
      be written there by exactly one producer. */
  ghost predicate BoundedFifo(s: State)
  {
    && s.Shape() && |s.claimed| == s.enq && s.popped <= s.claimed
    && s.freed <= |s.popped| <= s.freed + 1 && s.enq <= s.freed + s.cap
    && forall pos: nat :: |s.popped| <= pos < s.enq ==> Kept(s, pos)
  }

  ghost predicate Kept(s: State, pos: nat)
    requires s.Shape() && pos < |s.claimed|
  {
    || At(s.cells, pos) == Cell(pos + 1, s.claimed[pos])
    || exists p :: p in s.producers && HoldsAlone(s, p, pos)
  }

  ghost predicate HoldsAlone(s: State, p: nat, pos: nat)
    requires p in s.producers && pos < |s.claimed|
  {
    && Holds(s.producers[p], pos) && s.producers[p].batch != [] && s.producers[p].batch[0] == s.claimed[pos]
    && forall q :: q in s.producers && Holds(s.producers[q], pos) ==> q == p
  }

  lemma InvIsBoundedFifo(s: State)
    requires Inv(s)
    ensures BoundedFifo(s)
  {
    hide At;
    forall pos: nat | |s.popped| <= pos < s.enq ensures Kept(s, pos) {
      assert ClaimedCell(s, pos);
      if At(s.cells, pos).turn == pos {
        var p :| p in s.producers && Holds(s.producers[p], pos);
        assert ProducerMatches(s, s.producers[p]);
        assert HoldsAlone(s, p, pos);
      }
    }
  }

  /** In every interleaving the mailbox is a bounded queue in claim order. */
  lemma RunIsBoundedFifo(cap: nat, pids: set<nat>, steps: seq<Step>)
    requires cap >= 2 && IsRun(Init(cap, pids), steps)
    ensures BoundedFifo(After(Init(cap, pids), steps))
  {
    InitHolds(cap, pids);
    RunKeeps(Init(cap, pids), steps);
    InvIsBoundedFifo(After(Init(cap, pids), steps));
  }

  /** In every interleaving a sleeping consumer whose head cell is published is about to be woken:
      a wake is pending, or some producer has published and not yet acted on the mailbox state. */
  lemma NoLostWake(cap: nat, pids: set<nat>, steps: seq<Step>)
    requires cap >= 2 && IsRun(Init(cap, pids), steps)
    ensures var s := After(Init(cap, pids), steps);
            s.Shape() && (s.consumer.Asleep? && s.HeadPublished() ==>
              s.wake || exists p :: p in s.producers && s.producers[p].owes && !s.producers[p].pc.Quiet?)
  {
    var s := After(Init(cap, pids), steps);
    InitHolds(cap, pids);
    RunKeeps(Init(cap, pids), steps);
    if s.consumer.Asleep? && s.HeadPublished() && !s.wake {
      var p :| p in s.producers && s.producers[p].owes;
      InvParts(s, p);
    }
  }

  /** Nothing is left behind: once every producer is done and the consumer sleeps with no wake
      pending, everything ever claimed has been handed over. */
  lemma QuiescentIsEmpty(cap: nat, pids: set<nat>, steps: seq<Step>)
    requires cap >= 2 && IsRun(Init(cap, pids), steps)
    requires var s := After(Init(cap, pids), steps);
             s.consumer.Asleep? && !s.wake && forall p :: p in s.producers ==> s.producers[p].pc.Quiet?
    ensures var s := After(Init(cap, pids), steps);
            s.popped == s.claimed && s.deq == s.enq
  {
    var s := After(Init(cap, pids), steps);
    InitHolds(cap, pids);
    RunKeeps(Init(cap, pids), steps);
    QuiescentState(s);
  }

  lemma QuiescentState(s: State)
    requires Inv(s) && s.consumer.Asleep? && !s.wake
    requires forall p :: p in s.producers ==> s.producers[p].pc.Quiet?
    ensures s.popped == s.claimed && s.deq == s.enq
  {
    hide At;
    assert forall p :: p in s.producers ==> ProducerMatches(s, s.producers[p]);
    if s.deq < s.enq {
      HeadIsClaimed(s);
    }
  }

  lemma HeadIsClaimed(s: State)
    requires Inv(s) && s.deq < s.enq
    ensures s.Shape() && s.deq < |s.claimed| && ClaimedCell(s, s.deq)
  {
  }

  // ---- why the capacity must be at least two

  /** With one cell, "published" and "free for the next lap" are the same number. */
  function OverwritingRun(): seq<Step>
  {
    [Post(0, [7]), LoadPos(0), LoadSeq(0), Cas(0, false), Write(0), Publish(0),
     Post(1, [8]), LoadPos(1), LoadSeq(1), Cas(1, false)]
  }

  function OneCell(cell: Cell, enq: nat, first: Producer, second: Producer, claimed: seq<nat>): State
  {
    State(1, [cell], enq, 0, map[0 := first, 1 := second], Running, MailRunning, false, claimed, [], 0)
  }

  lemma OneCellOverruns()
    ensures IsRun(Init(1, {0, 1}), OverwritingRun())
    ensures !BoundedFifo(After(Init(1, {0, 1}), OverwritingRun()))
  {
    hide Enabled, Apply;
    var idle := Producer(Quiet, [], false);
    var s0 := OneCell(Cell(0, 0), 0, idle, idle, []);
    assert Init(1, {0, 1}).producers == s0.producers;
    assert Init(1, {0, 1}) == s0;
    var run := OverwritingRun();
    FirstClaim(s0);
    FirstPublish(After(s0, run[..3]));
    Chain(s0, run[..3], run[3..6]);
    assert run[..3] + run[3..6] == run[..6];
    SecondPush(After(s0, run[..6]));
    Chain(s0, run[..6], run[6..]);
    assert run[..6] + run[6..] == run;
  }

  lemma FirstClaim(s0: State)
    requires s0 == OneCell(Cell(0, 0), 0, Producer(Quiet, [], false), Producer(Quiet, [], false), [])
    ensures IsRun(s0, OverwritingRun()[..3])
    ensures After(s0, OverwritingRun()[..3])
         == OneCell(Cell(0, 0), 0, Producer(HaveSeq(0), [7], false), Producer(Quiet, [], false), [])
  {
    var idle := Producer(Quiet, [], false);
    var s1 := OneCell(Cell(0, 0), 0, Producer(Start, [7], false), idle, []);
    var s2 := OneCell(Cell(0, 0), 0, Producer(HavePos(0), [7], false), idle, []);
    var s3 := OneCell(Cell(0, 0), 0, Producer(HaveSeq(0), [7], false), idle, []);
    Unroll(s0, OverwritingRun()[..3], [s1, s2, s3]);
  }

  lemma FirstPublish(s3: State)
    requires s3 == OneCell(Cell(0, 0), 0, Producer(HaveSeq(0), [7], false), Producer(Quiet, [], false), [])
    ensures IsRun(s3, OverwritingRun()[3..6])
    ensures After(s3, OverwritingRun()[3..6])
         == OneCell(Cell(1, 7), 1, Producer(Check, [], true), Producer(Quiet, [], false), [7])
  {
    hide Enabled, Apply;
    var idle := Producer(Quiet, [], false);
    var s4 := OneCell(Cell(0, 0), 1, Producer(Claimed(0), [7], false), idle, [7]);
    var s5 := OneCell(Cell(0, 7), 1, Producer(Written(0), [7], false), idle, [7]);
    var s6 := OneCell(Cell(1, 7), 1, Producer(Check, [], true), idle, [7]);
    FirstCas(s3, s4);
    FirstWrite(s4, s5);
    FirstTurn(s5, s6);
    Unroll(s3, OverwritingRun()[3..6], [s4, s5, s6]);
  }

  lemma FirstCas(s: State, r: State)
    requires s == OneCell(Cell(0, 0), 0, Producer(HaveSeq(0), [7], false), Producer(Quiet, [], false), [])
    requires r == OneCell(Cell(0, 0), 1, Producer(Claimed(0), [7], false), Producer(Quiet, [], false), [7])
    ensures Enabled(s, Cas(0, false)) && Apply(s, Cas(0, false)) == r
  {
  }

  lemma FirstWrite(s: State, r: State)
    requires s == OneCell(Cell(0, 0), 1, Producer(Claimed(0), [7], false), Producer(Quiet, [], false), [7])
    requires r == OneCell(Cell(0, 7), 1, Producer(Written(0), [7], false), Producer(Quiet, [], false), [7])
    ensures Enabled(s, Write(0)) && Apply(s, Write(0)) == r
  {
    assert s.cells[0 := Cell(0, 7)] == r.cells;
  }

  lemma FirstTurn(s: State, r: State)
    requires s == OneCell(Cell(0, 7), 1, Producer(Written(0), [7], false), Producer(Quiet, [], false), [7])
    requires r == OneCell(Cell(1, 7), 1, Producer(Check, [], true), Producer(Quiet, [], false), [7])
    ensures Enabled(s, Publish(0)) && Apply(s, Publish(0)) == r
  {
    assert [7][1..] == [] && s.cells[0 := Cell(1, 7)] == r.cells;
  }

  lemma SecondPush(s6: State)
    requires s6 == OneCell(Cell(1, 7), 1, Producer(Check, [], true), Producer(Quiet, [], false), [7])
    ensures IsRun(s6, OverwritingRun()[6..])
    ensures After(s6, OverwritingRun()[6..]).enq == 2 && After(s6, OverwritingRun()[6..]).freed == 0
    ensures After(s6, OverwritingRun()[6..]).cap == 1
  {
    var done := Producer(Check, [], true);
    var s7 := OneCell(Cell(1, 7), 1, done, Producer(Start, [8], false), [7]);
    var s8 := OneCell(Cell(1, 7), 1, done, Producer(HavePos(1), [8], false), [7]);
    var s9 := OneCell(Cell(1, 7), 1, done, Producer(HaveSeq(1), [8], false), [7]);
    var s10 := OneCell(Cell(1, 7), 2, done, Producer(Claimed(1), [8], false), [7, 8]);
    Unroll(s6, OverwritingRun()[6..], [s7, s8, s9, s10]);
  }

  lemma {:induction false} Chain(s: State, first: seq<Step>, second: seq<Step>)
    requires IsRun(s, first) && IsRun(After(s, first), second)
    ensures IsRun(s, first + second) && After(s, first + second) == After(After(s, first), second)
    decreases |first|
  {
    hide Enabled, Apply;
    if first == [] {
      assert first + second == second;
    } else {
      Chain(Apply(s, first[0]), first[1..], second);
      assert (first + second)[1..] == first[1..] + second;
    }
  }

  lemma {:induction false} Unroll(s: State, steps: seq<Step>, states: seq<State>)
    requires |states| == |steps|
    requires steps != [] ==> Enabled(s, steps[0]) && states[0] == Apply(s, steps[0])
    requires forall i :: 1 <= i < |steps| ==> Enabled(states[i - 1], steps[i]) && states[i] == Apply(states[i - 1], steps[i])
    ensures IsRun(s, steps)
    ensures After(s, steps) == if steps == [] then s else states[|states| - 1]
    decreases |steps|
  {
    hide Enabled, Apply;
    if steps != [] {
      Unroll(states[0], steps[1..], states[1..]);
    }
  }

  /** The queue guarantee holds of every run exactly when the ring has at least two cells. */
  lemma CapacityIsExact(cap: nat)
    requires cap > 0
    ensures cap >= 2 <==>
            forall pids: set<nat>, steps: seq<Step> :: IsRun(Init(cap, pids), steps) ==> BoundedFifo(After(Init(cap, pids), steps))
  {
    hide BoundedFifo, IsRun, After, Init;
    if cap >= 2 {
      forall pids: set<nat>, steps: seq<Step> | IsRun(Init(cap, pids), steps)
        ensures BoundedFifo(After(Init(cap, pids), steps))
      {
        RunIsBoundedFifo(cap, pids, steps);
      }
    } else {
      OneCellOverruns();
    }
  }
}
