/** What the source does when a callback reschedules its own timer although that timer is no longer
    armed: the records and the linked nodes step by step, as reschedule and fire_timer update them. */
module SpentTimers {
  import opened Basics
  import opened TimerWheels
  import opened TimerBook

  /** The records and the nodes linked in wheel or heap, consistent or not. */
  datatype Raw = Raw(book: Book, linked: set<Node>)

  function Armed(expiry: int, period: int, mode: RepeatMode, precise: bool, tick: nat): Raw
    requires tick > 0
  {
    var b := ArmIn(Book(map[], map[], [], [], 0, 0), expiry, TickOf(expiry, tick), period, mode, None, precise);
    Raw(b, {NodeOf(0, b.timers[0])})
  }

  /** fire_timer up to the callback, for a node popped from its structure. */
  function Begun(r: Raw, n: Node, now: int, tick: nat): Raw
    requires tick > 0 && n.id in r.book.timers
  {
    var b := BeginFireIn(r.book, n.id, now, tick);
    Raw(b, r.linked - {n} + NodesOf(n.id, b.timers[n.id]))
  }

  /** reschedule, whatever the state of the timer. */
  function Rescheduled(r: Raw, id: nat, expiry: int, tick: nat): Raw
    requires tick > 0 && id in r.book.timers
  {
    var b := RescheduleIn(r.book, id, expiry, TickOf(expiry, tick));
    Raw(b, r.linked - {NodeOf(id, r.book.timers[id])} + {NodeOf(id, b.timers[id])})
  }

  /** fire_timer after the callback. */
  function Ended(r: Raw, id: nat, now: int, tick: nat): Raw
    requires tick > 0 && id in r.book.timers
  {
    var b := EndFireIn(r.book, id, now, tick);
    Raw(b, r.linked + NodesOf(id, b.timers[id]))
  }

  /** A firing at `now` whose callback reschedules the timer itself. */
  function FiredWithReschedule(r: Raw, n: Node, now: int, delay: int, tick: nat): (s: Raw)
    requires tick > 0 && n.id in r.book.timers
    ensures n.id in s.book.timers
  {
    Ended(Rescheduled(Begun(r, n, now, tick), n.id, now + delay, tick), n.id, now, tick)
  }

  /** Whenever a one-shot that has fired is fired again, the history is unsafe. */
  lemma FiringAgain(b: Book, id: nat, now: int, tick: nat, i: nat)
    requires tick > 0 && id in b.timers && i < |b.log| && Ends(b.log[i]) && b.log[i].id == id
    ensures !HistorySafe(BeginFireIn(b, id, now, tick).log)
  {
    var log := BeginFireIn(b, id, now, tick).log;
    assert log[i] == b.log[i] && log[|b.log|].Fired? && log[|b.log|].id == id;
  }

  /** A one-shot that is due at 5, armed with an exact deadline and a 10 ns tick, rescheduled by its own
      callback without delay: the poll finds it due again and the one-shot fires a second time. */
  lemma OneShotFiresTwice()
    ensures var r := Armed(5, 0, FixedRate, true, 10);
            var n := Node(0, 5, 1);
            var s := FiredWithReschedule(r, n, 5, 0, 10);
            && BookHolds(r.book, 10, r.linked) && r.linked == {n} && HistorySafe(s.book.log)
            && n in s.linked && n.expiry <= 5
            && !HistorySafe(Begun(s, n, 5, 10).book.log)
  {
    var r, n := Armed(5, 0, FixedRate, true, 10), Node(0, 5, 1);
    EmptyBookHolds(10);
    ArmKeeps(Book(map[], map[], [], [], 0, 0), 10, {}, 5, 0, FixedRate, None, true);
    assert {} + {n} == {n};
    var s := FiredWithReschedule(r, n, 5, 0, 10);
    var fired := Fired(0, 5, 5, 0, 0, FixedRate);
    assert s.book.log == [fired, Moved(0)];
    FiringAgain(s.book, 0, 5, 10, 0);
  }

  /** With a delay the same one-shot is released while its node is still linked. */
  lemma ReleasedWhileLinked()
    ensures var s := FiredWithReschedule(Armed(5, 0, FixedRate, true, 10), Node(0, 5, 1), 5, 20, 10);
            Node(0, 25, 3) in s.linked && 0 in s.book.dead && 0 !in ReclaimIn(s.book).timers
  {
  }

  /** A timer repeating every 10 ns at fixed delay, with a 10 ns tick, fires at its tick 1; its callback
      reschedules it by 3 ns. That call links it for tick 2, and when the callback returns it is linked
      for tick 2 once more: the same node twice in one bucket. */
  lemma DelayedLinkedTwice()
    ensures var r := Armed(10, 10, FixedDelay, false, 10);
            var s := FiredWithReschedule(r, Node(0, 10, 1), 10, 3, 10);
            && BookHolds(r.book, 10, r.linked) && r.linked == {Node(0, 10, 1)}
            && Node(0, 13, 2) in s.linked && Node(0, 20, 2) in s.linked
            && forall linked: set<Node> :: s.linked <= linked ==> !BookHolds(s.book, 10, linked)
  {
    EmptyBookHolds(10);
    ArmKeeps(Book(map[], map[], [], [], 0, 0), 10, {}, 10, 10, FixedDelay, None, false);
    var s := FiredWithReschedule(Armed(10, 10, FixedDelay, false, 10), Node(0, 10, 1), 10, 3, 10);
    assert s.book.timers[0].expiry == 20;
    forall linked: set<Node> | s.linked <= linked ensures !BookHolds(s.book, 10, linked) {
      assert Node(0, 13, 2) in linked;
    }
  }
}
