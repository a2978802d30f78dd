/** The timer layer of the event manager: arm, cancel, cancel_group, reschedule and firing over the
    wheel and the heap, with callbacks that may call back into it. Wheel and heap together refine the
    plain agenda of appointments. */
module EventManagers {
  import opened Basics
  import opened Arith
  import opened WheelPlacement
  import opened TimerWheels
  import opened TimerHeaps
  import opened TimerBook
  import opened TimerAgenda
  import opened TimerCalls

  /** Nothing became due at or before `tick` that was not already linked there. */
  ghost predicate NoNewDue(before: map<Node, Place>, after: map<Node, Place>, tick: nat)
  {
    forall n :: n in after ==> after[n].due > tick || (n in before && before[n] == after[n])
  }

  lemma NothingMoved(at: map<Node, Place>, tick: nat)
    ensures NoNewDue(at, at, tick)
  {
  }

  lemma NoNewDueTransitive(a: map<Node, Place>, b: map<Node, Place>, c: map<Node, Place>, tick: nat)
    requires NoNewDue(a, b, tick) && NoNewDue(b, c, tick)
    ensures NoNewDue(a, c, tick)
  {
  }

  lemma LessIsNotNew(a: map<Node, Place>, b: map<Node, Place>, tick: nat)
    requires forall n :: n in b ==> n in a && b[n] == a[n]
    ensures NoNewDue(a, b, tick)
  {
  }

  lemma FreshId(b: Book, tick: nat, linked: set<Node>)
    requires BookHolds(b, tick, linked)
    ensures b.nextId !in b.timers
  {
  }

  lemma CancelGroupEvolves(b: Book, tick: nat, linked: set<Node>, g: nat)
    requires BookHolds(b, tick, linked) && g in b.groups
    ensures Evolves(b, CancelAllIn(b, b.groups[g]))
  {
    CancelGroupWithdraws(b, tick, linked, g);
    LogGrows(b, b.groups[g]);
  }

  lemma {:induction false} LogGrows(b: Book, ids: seq<nat>)
    ensures b.log <= CancelAllIn(b, ids).log
    decreases ids
  {
    if ids != [] {
      LogGrows(if Withdrawable(b, ids[0]) then CancelIn(b, ids[0]) else b, ids[1..]);
    }
  }

  /** A node that the structures hand out belongs to an armed timer, under its current deadline. */
  lemma PoppedTimer(b: Book, tick: nat, linked: set<Node>, n: Node)
    requires n !in linked && BookHolds(b, tick, linked + {n})
    ensures n.id in b.timers && b.timers[n.id].state.Armed? && n == NodeOf(n.id, b.timers[n.id])
    ensures forall m :: m in linked ==> m.id != n.id
    ensures tick > 0 && n.expiry == b.timers[n.id].expiry && n.expiryTick == TickOf(n.expiry, tick)
  {
    assert n in linked + {n};
    assert forall m :: m in linked ==> m in linked + {n};
  }

  lemma LinkedAlready(b: Book, tick: nat, linked: set<Node>, id: nat)
    requires BookHolds(b, tick, linked) && id in b.timers
    ensures linked + NodesOf(id, b.timers[id]) == linked
  {
  }

  lemma BeganFiring(b: Book, id: nat, now: int, tick: nat)
    requires tick > 0 && id in b.timers && b.timers[id].state.Armed?
    ensures var r := BeginFireIn(b, id, now, tick);
            && id in r.timers && r.log == b.log + [FiredEvent(id, b.timers[id], now)] && AfterBegin(r.timers[id])
  {
  }

  /** A timer between the start of its callback and the end of its firing, unless withdrawn. */
  ghost predicate AfterBegin(t: Timer)
  {
    !t.state.Done? && (t.state.Armed? ==> t.Repeats() && t.mode.FixedRate?)
  }

  lemma AfterCallback(b: Book, b': Book, id: nat)
    requires id in b.timers && AfterBegin(b.timers[id]) && Evolves(b, b')
    ensures id in b'.timers && AfterBegin(b'.timers[id]) && b.log <= b'.log
  {
  }

  lemma EndFireKeepsLog(b: Book, id: nat, now: int, tick: nat)
    requires id in b.timers && tick > 0
    ensures EndFireIn(b, id, now, tick).log == b.log
  {
  }

  ghost function DueTicks(at: map<Node, Place>, tick: nat): set<Node>
  {
    set n | n in at && at[n].due <= tick
  }

  lemma PoppedShrinks(at: map<Node, Place>, at': map<Node, Place>, tick: nat, n: Node)
    requires n in at && at' == at - {n} && at[n].due <= tick
    ensures DueTicks(at', tick) == DueTicks(at, tick) - {n} && n in DueTicks(at, tick)
  {
  }

  lemma DueTicksShrink(at: map<Node, Place>, at': map<Node, Place>, tick: nat)
    requires NoNewDue(at, at', tick)
    ensures DueTicks(at', tick) <= DueTicks(at, tick)
  {
  }

  /** The agenda agrees with the books, and those are consistent with what is linked. */
  ghost predicate Sound(a: Agenda, tick: nat)
  {
    AgendaHolds(a, tick) && exists linked: set<Node> :: BookHolds(a.book, tick, linked)
  }

  /** The largest time point. */
  const MAX_TIME := 0x7FFF_FFFF_FFFF_FFFF

  /** What a signed 64-bit variable keeps of a number. */
  function Int64(x: int): int
  {
    (x + 0x8000_0000_0000_0000) % TWO_64 - 0x8000_0000_0000_0000
  }

  /** The start of a tick in nanoseconds. */
  function InstantOf(t: nat, tick: nat): nat { t * tick }

  lemma TimesOf(at: map<Node, Place>, t: nat, tick: nat)
    requires forall n :: n in at ==> t <= at[n].due
    ensures forall n :: n in at ==> InstantOf(t, tick) <= InstantOf(at[n].due, tick)
  {
    forall n | n in at ensures InstantOf(t, tick) <= InstantOf(at[n].due, tick) {
      MulMonotone(t, at[n].due, tick);
    }
  }

  lemma Int64Keeps(x: nat)
    ensures x <= MAX_TIME ==> Int64(x) == x
  {
  }

  /** 24 hours in nanoseconds. */
  const DAY := 86_400_000_000_000

  class EventManager {
    const tick: nat
    const wheel: TimerWheel
    const heap: TimerHeap
    var now: int
    var timers: Timers
    var groups: map<nat, seq<nat>>
    var dead: seq<nat>
    var nextId: nat
    var nextGroup: nat
    /** Every firing, move and withdrawal so far. */
    ghost var log: seq<Event>
    /** The effective time of every armed timer. */
    ghost var plan: map<nat, When>

    ghost function Linked(): set<Node>
      reads this, wheel, heap
    {
      wheel.at.Keys + heap.idx.Keys
    }

    ghost function Books(): Book
      reads this
    {
      Book(timers, groups, dead, log, nextId, nextGroup)
    }

    ghost function Appointments(): Agenda
      reads this
    {
      Agenda(Books(), plan)
    }

    ghost function TheClock(): Clock
      reads this, wheel
    {
      Clock(tick, now, wheel.nowTick)
    }

    ghost function View(): Desk
      reads this, wheel
    {
      Desk(Appointments(), wheel.nowTick, wheel.primed, now, wheel.maxTicksPerCall)
    }

    ghost predicate Structures()
      reads this, wheel, wheel.buckets, heap
    {
      tick > 0 && wheel.Sweeping(3) && heap.Valid() && wheel.at.Keys !! heap.idx.Keys
    }

    ghost predicate Planned()
      reads this, wheel, heap
    {
      PlanHolds(plan, timers, wheel.at, heap.idx.Keys)
    }

    /** The invariant, also inside callbacks. */
    ghost predicate Valid()
      reads this, wheel, wheel.buckets, heap
    {
      Structures() && BookHolds(Books(), tick, Linked()) && Planned()
    }

    constructor (tick: nat, now: int)
      requires tick > 0
      ensures Valid() && wheel.Valid() && fresh(wheel) && fresh(wheel.buckets) && fresh(heap) && this.tick == tick
      ensures View() == Desk(Agenda(Book(map[], map[], [], [], 0, 0), map[]), 0, false, now, 4096)
    {
      this.tick, this.now := tick, now;
      wheel := new TimerWheel();
      heap := new TimerHeap();
      timers, groups, dead, log, nextId, nextGroup, plan := map[], map[], [], [], 0, 0, map[];
      new;
      hide TimerWheel.Sweeping, TimerHeap.Valid, BookHolds;
      EmptyBookHolds(tick);
      assert Linked() == {};
    }

    /** insert_timer: the wheel when the deadline fits and need not be precise, else the heap. */
    method InsertTimer(n: Node, precise: bool)
      requires Structures() && n !in Linked()
      modifies wheel`count, wheel`at, wheel.buckets, heap
      ensures Structures() && Linked() == old(Linked()) + {n}
      ensures old(wheel.Valid()) ==> wheel.Valid()
      ensures NoNewDue(old(wheel.at), wheel.at, wheel.nowTick)
      ensures Inserted(n, precise, wheel.nowTick, old(wheel.at), old(heap.idx.Keys), wheel.at, heap.idx.Keys)
    {
      hide TimerWheel.Linked, Kept, Indexed, Ordered;
      if Fits(n.expiryTick, wheel.nowTick) && !precise {
        wheel.Insert(n);
      } else {
        heap.Push(n);
      }
    }

    /** unlink_timer: out of whichever structure holds the node. */
    method UnlinkTimer(n: Node)
      requires Structures()
      modifies wheel`count, wheel`at, wheel.buckets, heap
      ensures Structures() && Linked() == old(Linked()) - {n}
      ensures old(wheel.Valid()) ==> wheel.Valid()
      ensures wheel.at == old(wheel.at) - {n} && heap.idx.Keys == old(heap.idx.Keys) - {n}
    {
      hide TimerWheel.Linked, Kept, Indexed, Ordered;
      if n in heap.idx {
        heap.Remove(n);
      } else {
        wheel.Unlink(n);
      }
    }

    /** Links a timer that is not linked and puts its effective time on the agenda. */
    method Schedule(id: nat, t: Timer)
      requires Structures() && Planned() && t.state.Armed? && t.expiryTick == TickOf(t.expiry, tick)
      requires forall n :: n in Linked() ==> n.id != id
      modifies this`timers, this`plan, wheel`count, wheel`at, wheel.buckets, heap
      ensures Structures() && Planned() && Linked() == old(Linked()) + {NodeOf(id, t)}
      ensures old(wheel.Valid()) ==> wheel.Valid()
      ensures NoNewDue(old(wheel.at), wheel.at, wheel.nowTick)
      ensures timers == old(timers)[id := t] && plan == old(plan)[id := Effective(TheClock(), t.expiry, t.precise)]
    {
      hide TimerWheel.Sweeping, TimerWheel.Valid, TimerHeap.Valid, TickOf, Fits, Effective, PlanHolds, Inserted, NoNewDue;
      timers := timers[id := t];
      InsertTimer(NodeOf(id, t), t.precise);
      PlanInsert(plan, old(timers), old(wheel.at), old(heap.idx.Keys), wheel.at, heap.idx.Keys, TheClock(), id, t);
      plan := plan[id := Effective(TheClock(), t.expiry, t.precise)];
    }

    method Arm(expiry: int, period: int, mode: RepeatMode, home: Option<nat>, precise: bool) returns (id: nat)
      requires Valid()
      modifies this`timers, this`groups, this`nextId, this`plan, wheel`count, wheel`at, wheel.buckets, heap
      ensures Valid() && (old(wheel.Valid()) ==> wheel.Valid())
      ensures NoNewDue(old(wheel.at), wheel.at, wheel.nowTick)
      ensures id == old(nextId) && IsArmed(old(Appointments()), TheClock(), Appointments(), expiry, period, mode, home, precise)
      ensures Appointments() == ArmAt(old(Appointments()), TheClock(), expiry, period, mode, home, precise)
    {
      hide TimerWheel.Sweeping, TimerWheel.Valid, TimerHeap.Valid, TickOf, Fits, Effective, BookHolds, PlanHolds, NoNewDue,
        IsArmed;
      ArmMeans(Appointments(), TheClock(), expiry, period, mode, home, precise, Linked());
      ArmKeeps(Books(), tick, Linked(), expiry, period, mode, home, precise);
      OnlyNode(Books(), tick, Linked(), nextId);
      id := nextId;
      nextId := nextId + 1;
      var t := Timer(expiry, TickOf(expiry, tick), period, mode, precise, None, Armed);
      if home.Some? && home.value in groups {
        groups := groups[home.value := groups[home.value] + [id]];
        t := t.(home := home);
      }
      Schedule(id, t);
    }

    /** Withdraws a timer; also answers true for a one-shot that fired but is not reclaimed yet. */
    method Cancel(id: nat) returns (ok: bool)
      requires Valid()
      modifies this`timers, this`groups, this`dead, this`log, this`plan, wheel`count, wheel`at, wheel.buckets, heap
      ensures Valid() && (old(wheel.Valid()) ==> wheel.Valid())
      ensures NoNewDue(old(wheel.at), wheel.at, wheel.nowTick)
      ensures ok <==> id in old(timers) && !old(timers)[id].state.Cancelled?
      ensures if ok then IsWithdrawn(old(Appointments()), Appointments(), id) else Appointments() == old(Appointments())
      ensures Appointments() == CancelAt(old(Appointments()), id)
    {
      hide TimerWheel.Sweeping, TimerWheel.Valid, TimerHeap.Valid, BookHolds, PlanHolds, NoNewDue, Leave, IsWithdrawn;
      NothingMoved(wheel.at, wheel.nowTick);
      if id !in timers || timers[id].state.Cancelled? {
        return false;
      }
      CancelMeans(Appointments(), tick, id, Linked());
      CancelKeeps(Books(), tick, Linked(), id);
      OnlyNode(Books(), tick, Linked(), id);
      var t := timers[id];
      ghost var t' := t.(state := Cancelled);
      timers := timers[id := t.(state := Cancelled)];
      UnlinkTimer(NodeOf(id, t));
      LessIsNotNew(old(wheel.at), wheel.at, wheel.nowTick);
      PlanRemove(plan, old(timers), old(wheel.at), old(heap.idx.Keys), wheel.at, heap.idx.Keys, id, t');
      plan := plan - {id};
      groups := Leave(groups, id, t.home);
      dead := dead + [id];
      log := log + [Withdrawn(id)];
      return true;
    }

    /** Consistency survives exactly the rescheduling of an armed (or unknown or withdrawn) timer. */
    method Reschedule(id: nat, delay: int) returns (ok: bool)
      requires Valid()
      modifies this`timers, this`log, this`plan, wheel`count, wheel`at, wheel.buckets, heap
      ensures Structures() && (old(wheel.Valid()) ==> wheel.Valid())
      ensures NoNewDue(old(wheel.at), wheel.at, wheel.nowTick)
      ensures ok <==> id in old(timers) && !old(timers)[id].state.Cancelled?
      ensures if ok then IsMoved(old(Appointments()), TheClock(), Appointments(), id, delay)
              else Appointments() == old(Appointments())
      ensures Appointments() == if ok then RescheduleAt(old(Appointments()), TheClock(), id, delay) else old(Appointments())
      ensures Linked() == if ok then old(Linked() - {NodeOf(id, timers[id])}) + {NodeOf(id, timers[id])} else old(Linked())
      ensures Valid() <==> !ok || old(timers)[id].state.Armed?
    {
      hide TimerWheel.Sweeping, TimerWheel.Valid, TimerHeap.Valid, TickOf, Fits, Effective, BookHolds, PlanHolds, NoNewDue,
        Inserted, IsMoved;
      NothingMoved(wheel.at, wheel.nowTick);
      if id !in timers || timers[id].state.Cancelled? {
        return false;
      }
      MoveMeans(Appointments(), TheClock(), id, delay);
      RescheduleKeeps(Books(), tick, Linked(), id, now + delay);
      OnlyNode(Books(), tick, Linked(), id);
      var t := timers[id].(expiry := now + delay, expiryTick := TickOf(now + delay, tick));
      UnlinkTimer(NodeOf(id, timers[id]));
      ghost var at1, keys1 := wheel.at, heap.idx.Keys;
      LessIsNotNew(old(wheel.at), at1, wheel.nowTick);
      log := log + [Moved(id)];
      timers := timers[id := t];
      InsertTimer(NodeOf(id, t), t.precise);
      NoNewDueTransitive(old(wheel.at), at1, wheel.at, wheel.nowTick);
      if t.state.Armed? {
        PlanSubset(plan, old(timers), old(wheel.at), old(heap.idx.Keys), at1, keys1);
        PlanInsert(plan, old(timers), at1, keys1, wheel.at, heap.idx.Keys, TheClock(), id, t);
      }
      plan := plan[id := Effective(TheClock(), t.expiry, t.precise)];
      return true;
    }

    method MakeGroup() returns (g: nat)
      requires Valid()
      modifies this`groups, this`nextGroup
      ensures Valid() && Appointments() == old(Appointments()).(book := MakeGroupIn(old(Books())))
      ensures g !in old(groups) && groups == old(groups)[g := []]
    {
      hide TimerWheel.Sweeping, TimerHeap.Valid, BookHolds, PlanHolds;
      FreshIds(Books(), tick, Linked());
      MakeGroupKeeps(Books(), tick, Linked());
      g := nextGroup;
      groups := groups[g := []];
      nextGroup := nextGroup + 1;
    }

    /** Withdraws the members of a group one by one until the group is empty. */
    method CancelGroup(g: nat) returns (n: nat)
      requires Valid()
      modifies this`timers, this`groups, this`dead, this`log, this`plan, wheel`count, wheel`at, wheel.buckets, heap
      ensures Valid() && (old(wheel.Valid()) ==> wheel.Valid())
      ensures NoNewDue(old(wheel.at), wheel.at, wheel.nowTick)
      ensures n == if g in old(groups) then |old(groups)[g]| else 0
      ensures if g in old(groups) then GroupIsWithdrawn(old(Appointments()), Appointments(), g)
              else Appointments() == old(Appointments())
      ensures Appointments() == CancelGroupAt(old(Appointments()), g)
    {
      hide Structures, BookHolds, PlanHolds, TimerWheel.Valid, NoNewDue, GroupIsWithdrawn;
      n := 0;
      NothingMoved(wheel.at, wheel.nowTick);
      if g !in groups {
        return;
      }
      CancelGroupMeans(Appointments(), tick, g, Linked());
      while groups[g] != []
        invariant Valid() && (old(wheel.Valid()) ==> wheel.Valid())
        invariant NoNewDue(old(wheel.at), wheel.at, wheel.nowTick)
        invariant g in groups && n + |groups[g]| == |old(groups)[g]|
        invariant CancelAllAt(Appointments(), groups[g]) == CancelAllAt(old(Appointments()), old(groups)[g])
        decreases |groups[g]|
      {
        ghost var at1 := wheel.at;
        FirstMember(Books(), tick, Linked(), g);
        var ok := Cancel(groups[g][0]);
        NoNewDueTransitive(old(wheel.at), at1, wheel.at, wheel.nowTick);
        n := n + 1;
      }
    }

    /** One call a callback makes, as the agenda has it. */
    method Run(op: Op)
      requires Valid()
      modifies this`timers, this`groups, this`dead, this`log, this`nextId, this`nextGroup, this`plan
      modifies wheel`count, wheel`at, wheel.buckets, heap
      ensures Valid() && (old(wheel.Valid()) ==> wheel.Valid())
      ensures NoNewDue(old(wheel.at), wheel.at, wheel.nowTick)
      ensures Appointments() == CallAt(old(Appointments()), TheClock(), op) && Evolves(old(Books()), Books())
    {
      hide Structures, BookHolds, PlanHolds, TimerWheel.Valid, NoNewDue, TickOf, Fits, Effective;
      NothingMoved(wheel.at, wheel.nowTick);
      match op
      case OpArm(expiry, period, mode, home, precise) =>
        assert BookHolds(Books(), tick, Linked());
        FreshId(Books(), tick, Linked());
        var id := Arm(expiry, period, mode, home, precise);
      case OpCancel(id) =>
        var ok := Cancel(id);
      case OpCancelGroup(g) =>
        if g in groups {
          CancelGroupEvolves(Books(), tick, Linked(), g);
          CancelAllBook(Appointments(), groups[g]);
        }
        var n := CancelGroup(g);
      case OpReschedule(id, delay) =>
        if id !in timers || timers[id].state.Armed? || timers[id].state.Cancelled? {
          var ok := Reschedule(id, delay);
        }
      case OpMakeGroup =>
        var g := MakeGroup();
    }

    /** A callback: any finite sequence of calls. */
    method RunCallback(script: seq<Op>)
      requires Valid()
      modifies this`timers, this`groups, this`dead, this`log, this`nextId, this`nextGroup, this`plan
      modifies wheel`count, wheel`at, wheel.buckets, heap
      ensures Valid() && (old(wheel.Valid()) ==> wheel.Valid())
      ensures NoNewDue(old(wheel.at), wheel.at, wheel.nowTick)
      ensures Appointments() == CallsAt(old(Appointments()), TheClock(), script) && Evolves(old(Books()), Books())
    {
      hide TimerWheel.Sweeping, TimerHeap.Valid, BookHolds, PlanHolds, TimerWheel.Valid, CallAt, NoNewDue;
      NothingMoved(wheel.at, wheel.nowTick);
      assert script[..0] == [];
      for i := 0 to |script|
        invariant Valid() && (old(wheel.Valid()) ==> wheel.Valid())
        invariant NoNewDue(old(wheel.at), wheel.at, wheel.nowTick)
        invariant Appointments() == CallsAt(old(Appointments()), TheClock(), script[..i]) && Evolves(old(Books()), Books())
      {
        ghost var at1 := wheel.at;
        assert script[..i + 1][..i] == script[..i];
        Run(script[i]);
        NoNewDueTransitive(old(wheel.at), at1, wheel.at, wheel.nowTick);
      }
      assert script[..|script|] == script;
    }

    /** The catch-up loop of a fixed-rate timer. */
    method Coalesce(expiry: int, period: int) returns (next: int, missed: nat)
      requires period > 0 && expiry <= now
      ensures next == NextDeadline(expiry, period, now) && missed == Missed(expiry, period, now)
    {
      next, missed := expiry + period, 0;
      while next <= now
        invariant next == expiry + (missed + 1) * period && next - period <= now
        decreases now - next
      {
        next, missed := next + period, missed + 1;
      }
      MissedIsUnique(expiry, period, now, missed);
    }

    /** A node taken out of its structure, its timer otherwise untouched. */
    ghost predicate Popped(n: Node)
      reads this, wheel, wheel.buckets, heap
    {
      Structures() && Planned() && n !in Linked() && BookHolds(Books(), tick, Linked() + {n})
    }

    /** The part of fire_timer before the callback, for a node already unlinked. */
    method BeginFire(n: Node)
      requires Popped(n) && n.expiry <= now
      modifies this`timers, this`log, this`plan, wheel`count, wheel`at, wheel.buckets, heap
      ensures Valid() && (old(wheel.Valid()) ==> wheel.Valid())
      ensures NoNewDue(old(wheel.at), wheel.at, wheel.nowTick)
      ensures n.id in old(timers) && Appointments() == BeginAt(old(Appointments()), TheClock(), n.id)
    {
      hide TimerWheel.Sweeping, TimerWheel.Valid, TimerHeap.Valid, BookHolds, PlanHolds, TickOf, Fits, Effective, NoNewDue,
        Missed, NextDeadline;
      ghost var linked := Linked();
      NothingMoved(wheel.at, wheel.nowTick);
      PoppedTimer(Books(), tick, linked, n);
      BeginFireKeeps(Books(), tick, linked, n.id, now);
      var t := timers[n.id];
      if t.period > 0 && t.mode.FixedRate? {
        var next, missed := Coalesce(t.expiry, t.period);
        log := log + [Fired(n.id, t.expiry, now, missed, t.period, t.mode)];
        Schedule(n.id, t.(expiry := next, expiryTick := TickOf(next, tick)));
      } else {
        log := log + [Fired(n.id, t.expiry, now, 0, t.period, t.mode)];
        PlanRemove(plan, timers, wheel.at, heap.idx.Keys, wheel.at, heap.idx.Keys, n.id, t.(state := InCallback));
        timers := timers[n.id := t.(state := InCallback)];
        plan := plan - {n.id};
        assert linked + {} == linked;
      }
    }

    /** The part of fire_timer after the callback. */
    method EndFire(id: nat)
      requires Valid() && id in timers && AfterBegin(timers[id])
      modifies this`timers, this`groups, this`dead, this`plan, wheel`count, wheel`at, wheel.buckets, heap
      ensures Valid() && (old(wheel.Valid()) ==> wheel.Valid())
      ensures NoNewDue(old(wheel.at), wheel.at, wheel.nowTick)
      ensures Appointments() == EndAt(old(Appointments()), TheClock(), id)
    {
      hide TimerWheel.Sweeping, TimerWheel.Valid, TimerHeap.Valid, BookHolds, PlanHolds, TickOf, Fits, Effective, NoNewDue,
        Leave;
      ghost var linked := Linked();
      NothingMoved(wheel.at, wheel.nowTick);
      EndFireKeeps(Books(), tick, linked, id, now);
      OnlyNode(Books(), tick, linked, id);
      var t := timers[id];
      if t.period > 0 && t.mode.FixedDelay? && !t.state.Cancelled? {
        Schedule(id, t.(expiry := now + t.period, expiryTick := TickOf(now + t.period, tick), state := Armed));
      } else {
        LinkedAlready(Books(), tick, linked, id);
        if t.period <= 0 && !t.state.Cancelled? {
          DonePlan(plan, timers, wheel.at, heap.idx.Keys, id, t.(state := Done));
          groups := Leave(groups, id, t.home);
          timers := timers[id := t.(state := Done)];
          dead := dead + [id];
          assert linked + {} == linked;
        }
      }
    }

    /** fire_timer: a repeat at fixed rate is linked again before the callback, one at fixed delay
        after it; a one-shot is done after it. The agenda changes exactly by that firing. */
    method FireTimer(n: Node, script: seq<Op>)
      requires Popped(n) && n.expiry <= now
      modifies this`timers, this`groups, this`dead, this`log, this`nextId, this`nextGroup, this`plan
      modifies wheel`count, wheel`at, wheel.buckets, heap
      ensures Valid() && (old(wheel.Valid()) ==> wheel.Valid())
      ensures NoNewDue(old(wheel.at), wheel.at, wheel.nowTick)
      ensures Appointments() == FireAt(old(Appointments()), TheClock(), n.id, script)
      ensures n.id in old(timers) && old(log) + [FiredEvent(n.id, old(timers)[n.id], now)] <= log
    {
      hide BookHolds, PlanHolds, TimerWheel.Sweeping, TimerHeap.Valid, TimerWheel.Valid, NodeOf, NoNewDue, Evolves, EndFireIn,
        BeginFireIn, FiredEvent, AfterBegin, BeginAt, EndAt, CallsAt;
      PoppedTimer(Books(), tick, Linked(), n);
      BeganFiring(Books(), n.id, now, tick);
      BeginBook(Appointments(), TheClock(), n.id);
      BeginFire(n);
      ghost var began, at1 := Books(), wheel.at;
      RunCallback(script);
      ghost var at2 := wheel.at;
      AfterCallback(began, Books(), n.id);
      EndFireKeepsLog(Books(), n.id, now, tick);
      EndBook(Appointments(), TheClock(), n.id);
      EndFire(n.id);
      NoNewDueTransitive(old(wheel.at), at1, at2, wheel.nowTick);
      NoNewDueTransitive(old(wheel.at), at2, wheel.at, wheel.nowTick);
    }

    /** The instant of this poll; firings carry their own coarse tick. */
    ghost function Instant(): Clock
      reads this
    {
      Clock(tick, now, 0)
    }

    /** Fires a node taken from a structure as the next of a run of firings. */
    method FireNext(n: Node, scripts: seq<seq<Op>>, k: nat, shots: seq<Shot>, ghost start: Agenda) returns (more: seq<Shot>)
      requires Popped(n) && 0 <= now && n.expiry <= now
      requires AllDue(start, Instant(), shots, scripts, k) && Appointments() == FireAllAt(start, Instant(), shots, scripts, k)
      requires ShotDue(Appointments(), Instant(), Shot(n.id, wheel.nowTick))
      modifies this`timers, this`groups, this`dead, this`log, this`nextId, this`nextGroup, this`plan
      modifies wheel`count, wheel`at, wheel.buckets, heap
      ensures Valid() && (old(wheel.Valid()) ==> wheel.Valid())
      ensures NoNewDue(old(wheel.at), wheel.at, wheel.nowTick) && old(log) <= log
      ensures more == shots + [Shot(n.id, wheel.nowTick)]
      ensures AllDue(start, Instant(), more, scripts, k) && Appointments() == FireAllAt(start, Instant(), more, scripts, k)
      ensures Appointments() == FireAt(old(Appointments()), TheClock(), n.id, ScriptAt(scripts, k + |shots|))
    {
      hide BookHolds, PlanHolds, TimerWheel.Sweeping, TimerHeap.Valid, TimerWheel.Valid, NoNewDue, FireAt, FireAllAt, AllDue,
        ShotDue, FiredEvent;
      OneMoreShot(start, Instant(), shots, scripts, k, Shot(n.id, wheel.nowTick));
      more := shots + [Shot(n.id, wheel.nowTick)];
      FireTimer(n, ScriptAt(scripts, k + |shots|));
    }

    /** The next node of the current slot: its appointment is for exactly this tick. */
    method TakeDue() returns (n: Node)
      requires Valid() && 0 <= now && wheel.nowTick <= now / tick && wheel.CurrentSlot() != []
      modifies wheel`count, wheel`at, wheel.buckets
      ensures Popped(n) && n.expiry <= now && ShotDue(Appointments(), Instant(), Shot(n.id, wheel.nowTick))
      ensures n in old(wheel.at) && wheel.at == old(wheel.at) - {n} && old(wheel.at)[n].due == wheel.nowTick
    {
      hide BookHolds, PlanHolds, TimerHeap.Valid, TimerWheel.Sweeping, TickOf;
      n := wheel.PopDue();
      assert Linked() + {n} == old(Linked());
      PlanSubset(plan, timers, old(wheel.at), heap.idx.Keys, wheel.at, heap.idx.Keys);
      PlannedTick(plan, timers, old(wheel.at), heap.idx.Keys, n);
      PoppedTimer(Books(), tick, Linked(), n);
      TickIsNotEarly(n.expiry, tick, now);
    }

    /** The root of the heap, past its deadline. */
    method TakeTop() returns (n: Node)
      requires Valid() && 0 <= now && heap.heap != [] && heap.heap[0].expiry <= now
      modifies heap
      ensures Popped(n) && n.expiry <= now && ShotDue(Appointments(), Instant(), Shot(n.id, wheel.nowTick))
      ensures n.id in DueTimes(plan, now) && n.id in timers && timers[n.id].expiry == n.expiry
    {
      hide BookHolds, PlanHolds, TimerHeap.Valid, TimerWheel.Sweeping;
      n := heap.heap[0];
      heap.TopIsLinked();
      heap.Remove(n);
      assert Linked() + {n} == old(Linked());
      PlanSubset(plan, timers, wheel.at, old(heap.idx.Keys), wheel.at, heap.idx.Keys);
      PlannedTime(plan, timers, wheel.at, old(heap.idx.Keys), n);
      PoppedTimer(Books(), tick, Linked(), n);
    }

    /** Drains the slot of the current tick, firing each node; `k` counts callbacks so far. */
    method DrainSlot(scripts: seq<seq<Op>>, k: nat) returns (shots: seq<Shot>)
      requires Valid() && 0 <= now && wheel.nowTick <= now / tick
      modifies this`timers, this`groups, this`dead, this`log, this`nextId, this`nextGroup, this`plan
      modifies wheel`count, wheel`at, wheel.buckets, heap
      ensures Valid() && wheel.Valid() && old(log) <= log && InTickOrder(shots, wheel.nowTick, wheel.nowTick)
      ensures AllDue(old(Appointments()), Instant(), shots, scripts, k)
      ensures Appointments() == FireAllAt(old(Appointments()), Instant(), shots, scripts, k)
    {
      hide BookHolds, PlanHolds, TimerHeap.Valid, TimerWheel.Sweeping, NoNewDue, DueTicks, TickOf, FireAt, FireAllAt, AllDue;
      shots := [];
      ghost var start := Appointments();
      NoShots(start, Instant(), scripts, k);
      while wheel.CurrentSlot() != []
        invariant Valid() && old(log) <= log && InTickOrder(shots, wheel.nowTick, wheel.nowTick)
        invariant AllDue(start, Instant(), shots, scripts, k) && Appointments() == FireAllAt(start, Instant(), shots, scripts, k)
        decreases DueTicks(wheel.at, wheel.nowTick)
      {
        ghost var at0 := wheel.at;
        var n := TakeDue();
        ghost var at1 := wheel.at;
        PoppedShrinks(at0, at1, wheel.nowTick, n);
        shots := FireNext(n, scripts, k, shots, start);
        DueTicksShrink(at1, wheel.at, wheel.nowTick);
      }
      wheel.DrainedIsValid();
    }

    /** One step of advance: the clock, its cascades and the slot of the new tick. */
    method TickOnce(scripts: seq<seq<Op>>, k: nat) returns (shots: seq<Shot>)
      requires Valid() && wheel.Valid() && wheel.primed && 0 <= now && wheel.nowTick < now / tick
      modifies this`timers, this`groups, this`dead, this`log, this`nextId, this`nextGroup, this`plan
      modifies wheel`nowTick, wheel`count, wheel`at, wheel.buckets, heap
      ensures Valid() && wheel.Valid() && wheel.nowTick == old(wheel.nowTick) + 1
      ensures old(log) <= log && InTickOrder(shots, wheel.nowTick, wheel.nowTick)
      ensures AllDue(old(Appointments()), Instant(), shots, scripts, k)
      ensures Appointments() == FireAllAt(old(Appointments()), Instant(), shots, scripts, k)
    {
      hide BookHolds, PlanHolds, TimerHeap.Valid, TimerWheel.Sweeping, FireAllAt, AllDue;
      wheel.BeginTick();
      assert Linked() == old(Linked());
      PlanSubset(plan, timers, old(wheel.at), heap.idx.Keys, wheel.at, heap.idx.Keys);
      shots := DrainSlot(scripts, k);
    }

    /** The stepping loop of advance, firing as it goes. */
    method StepTo(scripts: seq<seq<Op>>) returns (shots: seq<Shot>)
      requires Valid() && wheel.Valid() && wheel.primed && 0 <= now
      modifies this`timers, this`groups, this`dead, this`log, this`nextId, this`nextGroup, this`plan
      modifies wheel`nowTick, wheel`count, wheel`at, wheel.buckets, heap
      ensures Valid() && wheel.Valid()
      ensures wheel.nowTick == StopTick(old(wheel.nowTick), now / tick, false, wheel.maxTicksPerCall)
      ensures old(log) <= log && InTickOrder(shots, old(wheel.nowTick), wheel.nowTick)
      ensures AllDue(old(Appointments()), Instant(), shots, scripts, 0)
      ensures Appointments() == FireAllAt(old(Appointments()), Instant(), shots, scripts, 0)
    {
      hide BookHolds, PlanHolds, TimerHeap.Valid, TimerWheel.Sweeping, TimerWheel.Valid, FireAllAt, AllDue, InTickOrder;
      shots := [];
      ghost var start := Appointments();
      NoShots(start, Instant(), scripts, 0);
      var steps := 0;
      while wheel.nowTick < now / tick && steps < wheel.maxTicksPerCall
        invariant Valid() && wheel.Valid()
        invariant wheel.nowTick == old(wheel.nowTick) + steps && steps <= wheel.maxTicksPerCall
        invariant steps > 0 ==> wheel.nowTick <= now / tick
        invariant old(log) <= log && InTickOrder(shots, old(wheel.nowTick), wheel.nowTick)
        invariant AllDue(start, Instant(), shots, scripts, 0) && Appointments() == FireAllAt(start, Instant(), shots, scripts, 0)
      {
        ghost var tick0 := wheel.nowTick;
        var more := TickOnce(scripts, |shots|);
        MoreShots(start, Instant(), shots, more, scripts, 0);
        TickOrderMore(shots, more, old(wheel.nowTick), tick0, wheel.nowTick);
        shots := shots + more;
        steps := steps + 1;
      }
    }

    /** wheel_.advance up to the current tick, firing as it goes. */
    method ExpireWheel(scripts: seq<seq<Op>>) returns (shots: seq<Shot>)
      requires Valid() && wheel.Valid() && 0 <= now
      modifies this`timers, this`groups, this`dead, this`log, this`nextId, this`nextGroup, this`plan
      modifies wheel`nowTick, wheel`primed, wheel`count, wheel`at, wheel.buckets, heap
      ensures Valid() && wheel.Valid() && wheel.primed
      ensures wheel.nowTick == StopTick(old(StartTickOf(View(), now / tick)), now / tick, old(wheel.at) == map[],
                                        wheel.maxTicksPerCall)
      ensures old(log) <= log && InTickOrder(shots, old(StartTickOf(View(), now / tick)), wheel.nowTick)
      ensures AllDue(old(PollStart(View(), now / tick)), Instant(), shots, scripts, 0)
      ensures Appointments() == FireAllAt(old(PollStart(View(), now / tick)), Instant(), shots, scripts, 0)
    {
      hide BookHolds, PlanHolds, TimerHeap.Valid, TimerWheel.Sweeping, FireAllAt, AllDue, Anchored;
      var target := now / tick;
      shots := [];
      if !wheel.primed {
        PlanKeeps(old(wheel.at));
        wheel.Prime(target);
        assert Linked() == old(Linked());
        PlanAnchored(Appointments(), tick, old(wheel.at), heap.idx.Keys, wheel.at, target);
        AnchorBook(Appointments(), target);
        plan := Anchored(Appointments(), target).plan;
      }
      NoShots(Appointments(), Instant(), scripts, 0);
      wheel.CountIsSize();
      assert old(wheel.at) == map[] <==> old(wheel.at.Keys) == {};
      if wheel.count == 0 {
        wheel.Snap(target);
      } else {
        shots := StepTo(scripts);
      }
    }

    /** heap_.expire, firing as it goes, for any run of it in which finitely many callbacks make calls;
        `k` callbacks ran before. */
    method ExpireHeap(scripts: seq<seq<Op>>, k: nat) returns (shots: seq<Shot>)
      requires Valid() && wheel.Valid() && 0 <= now
      modifies this`timers, this`groups, this`dead, this`log, this`nextId, this`nextGroup, this`plan
      modifies wheel`count, wheel`at, wheel.buckets, heap
      ensures Valid() && wheel.Valid() && old(log) <= log && InTickOrder(shots, wheel.nowTick, wheel.nowTick)
      ensures forall n :: n in heap.idx ==> n.expiry > now
      ensures AllDue(old(Appointments()), Instant(), shots, scripts, k)
      ensures Appointments() == FireAllAt(old(Appointments()), Instant(), shots, scripts, k)
    {
      hide BookHolds, PlanHolds, TimerHeap.Valid, TimerWheel.Sweeping, TimerWheel.Valid, NoNewDue, FireAt, FireAllAt, AllDue,
        DueTimes, ShotDue;
      shots := [];
      ghost var start := Appointments();
      NoShots(start, Instant(), scripts, k);
      while heap.heap != [] && heap.heap[0].expiry <= now
        invariant Valid() && wheel.Valid() && old(log) <= log && InTickOrder(shots, wheel.nowTick, wheel.nowTick)
        invariant AllDue(start, Instant(), shots, scripts, k) && Appointments() == FireAllAt(start, Instant(), shots, scripts, k)
        decreases if k + |shots| < |scripts| then |scripts| - k - |shots| else 0, DueTimes(plan, now)
      {
        var n := TakeTop();
        if k + |shots| >= |scripts| {
          LaterShotShrinks(Appointments(), TheClock(), n.id, []);
        }
        shots := FireNext(n, scripts, k, shots, start);
      }
      heap.TopIsEarliest();
    }

    /** heap_.expire with callbacks that never stop making calls: when none of them makes an exact
        appointment for a deadline that has passed, it ends, after at most as many firings as exact
        deadlines were due. */
    method ExpireHeapLater(callback: nat -> seq<Op>) returns (fired: seq<Node>)
      requires Valid() && wheel.Valid() && 0 <= now
      requires forall k: nat :: LaterCalls(TheClock(), callback(k))
      modifies this`timers, this`groups, this`dead, this`log, this`nextId, this`nextGroup, this`plan
      modifies wheel`count, wheel`at, wheel.buckets, heap
      ensures Valid() && wheel.Valid() && old(log) <= log
      ensures forall n :: n in heap.idx ==> n.expiry > now
      ensures |fired| <= |old(DueTimes(plan, now))|
    {
      hide BookHolds, PlanHolds, TimerHeap.Valid, TimerWheel.Sweeping, TimerWheel.Valid, NoNewDue, FireAt, DueTimes, ShotDue,
        LaterCalls, FiredEvent;
      fired := [];
      while heap.heap != [] && heap.heap[0].expiry <= now
        invariant Valid() && wheel.Valid() && old(log) <= log
        invariant |fired| + |DueTimes(plan, now)| <= |old(DueTimes(plan, now))|
        decreases DueTimes(plan, now)
      {
        ghost var due0 := DueTimes(plan, now);
        var n := TakeTop();
        LaterShotShrinks(Appointments(), TheClock(), n.id, callback(|fired|));
        FireTimer(n, callback(|fired|));
        SmallerSet(DueTimes(plan, now), due0, n.id);
        fired := fired + [n];
      }
      heap.TopIsEarliest();
    }

    /** Stage 2 of a poll: the wheel, then the heap, one run of firings of what is due, after which
        nothing is due at the tick reached. */
    method ExpireTimers(scripts: seq<seq<Op>>) returns (shots: seq<Shot>)
      requires Valid() && wheel.Valid() && 0 <= now
      modifies this`timers, this`groups, this`dead, this`log, this`nextId, this`nextGroup, this`plan
      modifies wheel`nowTick, wheel`primed, wheel`count, wheel`at, wheel.buckets, heap
      ensures Valid() && wheel.Valid() && wheel.primed && old(log) <= log
      ensures wheel.nowTick == StopTick(old(StartTickOf(View(), now / tick)), now / tick, old(NoTicks(plan)),
                                        wheel.maxTicksPerCall)
      ensures InTickOrder(shots, old(StartTickOf(View(), now / tick)), wheel.nowTick)
      ensures AllDue(old(PollStart(View(), now / tick)), Instant(), shots, scripts, 0)
      ensures Appointments() == FireAllAt(old(PollStart(View(), now / tick)), Instant(), shots, scripts, 0)
      ensures forall id :: id in plan ==> !DueBy(plan[id], wheel.nowTick, now)
    {
      hide BookHolds, PlanHolds, TimerHeap.Valid, TimerWheel.Sweeping, FireAllAt, AllDue, InTickOrder, PollStart, NoTicks, DueBy;
      ghost var start, from := PollStart(View(), now / tick), StartTickOf(View(), now / tick);
      NoTicksIsEmpty(Books(), plan, tick, wheel.at, heap.idx.Keys);
      var first := ExpireWheel(scripts);
      ghost var mid := wheel.nowTick;
      var second := ExpireHeap(scripts, |first|);
      shots := first + second;
      MoreShots(start, Instant(), first, second, scripts, 0);
      TickOrderMore(first, second, from, mid, wheel.nowTick);
      NothingDue(Books(), plan, tick, wheel.at, heap.idx.Keys, wheel.nowTick, now);
    }

    /** The reclamation part of bookkeeping. */
    method Reclaim()
      requires Valid()
      modifies this`timers, this`dead
      ensures Valid() && Appointments() == ReclaimAt(old(Appointments())) && dead == []
      ensures forall id :: id in timers ==> timers[id].Member()
    {
      hide TimerWheel.Sweeping, TimerHeap.Valid, BookHolds, PlanHolds;
      ReclaimKeeps(Books(), tick, Linked());
      ReclaimPlan(Books(), plan, tick, Linked(), wheel.at, heap.idx.Keys);
      timers := timers - (set id | id in dead);
      dead := [];
    }

    /** ExpireTimers, as a step of the agenda. */
    method Expire(scripts: seq<seq<Op>>) returns (shots: seq<Shot>)
      requires Valid() && wheel.Valid() && 0 <= now
      modifies this`timers, this`groups, this`dead, this`log, this`nextId, this`nextGroup, this`plan
      modifies wheel`nowTick, wheel`primed, wheel`count, wheel`at, wheel.buckets, heap
      ensures Valid() && wheel.Valid() && old(log) <= log
      ensures Expired(old(View()), View(), tick, scripts, shots)
      ensures scripts == [] ==> ExpiresExactly(old(View()), View(), tick, shots)
    {
      hide BookHolds, PlanHolds, TimerHeap.Valid, TimerWheel.Sweeping, FireAllAt, AllDue, InTickOrder, AgendaHolds, DueBy,
        ExpiresExactly, Anchored, NoTicks, StopTick;
      ghost var d := View();
      Agreed();
      shots := ExpireTimers(scripts);
      if scripts == [] {
        QuietExpiry(d, View(), tick, shots);
      }
    }

    /** One loop iteration at a new clock reading, as far as timers are concerned: the posted tasks, expiry,
        the I/O and the deferred callbacks, reclamation. When expiry keeps up and its callbacks leave
        timers alone, exactly what is due at that instant fires. */
    method Poll(clock: int, posted: seq<Op>, scripts: seq<seq<Op>>, rest: seq<Op>) returns (shots: seq<Shot>, ghost mid: Desk)
      requires Valid() && wheel.Valid() && 0 <= clock
      modifies this, wheel`nowTick, wheel`primed, wheel`count, wheel`at, wheel.buckets, heap
      ensures Valid() && wheel.Valid() && dead == [] && old(log) <= log
      ensures Polled(old(View()), mid, View(), clock, tick, posted, scripts, rest, shots)
      ensures forall id :: id in timers ==> timers[id].Member()
    {
      hide BookHolds, PlanHolds, TimerHeap.Valid, TimerWheel.Sweeping, TimerWheel.Valid, AgendaHolds, Expired, ExpiresExactly,
        CallsAt, NoNewDue;
      now := clock;
      RunCallback(posted);
      shots := Expire(scripts);
      mid := View();
      RunCallback(rest);
      Reclaim();
    }

    /** Exactly the armed timers have an appointment, none before its deadline. */
    lemma Agreed()
      requires Valid()
      ensures Sound(Appointments(), tick) && AgendaHolds(Appointments(), tick) && HistorySafe(log) && Steady(log)
    {
      AgendaOf(Books(), plan, tick, wheel.at, heap.idx.Keys);
      assert BookHolds(Books(), tick, Linked());
    }

    /** When a linked node can fire at the earliest: its effective tick, or its exact deadline. */
    ghost function EffectiveTime(n: Node): int
      requires n in Linked()
      reads this, wheel, heap
    {
      if n in wheel.at then InstantOf(wheel.at[n].due, tick) else n.expiry
    }

    /** An instant at which the wheel touches some node: it fires or cascades. */
    ghost predicate TouchedAt(time: int)
      reads this, wheel
    {
      exists n :: n in wheel.at && wheel.at[n].level < LEVELS && time == InstantOf(wheel.Touched(n), tick)
    }

    /** Every coarse appointment is a representable instant. */
    ghost predicate Representable()
      reads this, wheel
    {
      forall n :: n in wheel.at ==> InstantOf(wheel.at[n].due, tick) <= MAX_TIME
    }

    method WheelWakeup() returns (time: int)
      requires wheel.Valid() && wheel.count > 0 && forall n :: n in wheel.at ==> wheel.at[n].due <= NEVER
      ensures Representable() ==> TouchedAt(time) && forall n :: n in wheel.at ==> time <= InstantOf(wheel.at[n].due, tick)
    {
      hide TimerWheel.Sweeping, TimerWheel.Touched, Int64, InstantOf;
      wheel.CountIsSize();
      var t := wheel.NextDueTick();
      time := Int64(InstantOf(t, tick));
      TimesOf(wheel.at, t, tick);
      ghost var m :| m in wheel.at && wheel.at[m].level < LEVELS && t == wheel.Touched(m);
      Int64Keeps(InstantOf(t, tick));
      assert InstantOf(t, tick) <= InstantOf(wheel.at[m].due, tick);
    }

    /** Reads the clock; then the earliest instant at which a timer could fire never overshoots one that
        is linked, as long as the coarse appointments are representable instants. */
    method NextWakeup(clock: int) returns (nd: int)
      requires Valid() && wheel.Valid() && forall n :: n in wheel.at ==> wheel.at[n].due <= NEVER
      modifies this`now
      ensures now == clock && Valid()
      ensures Representable() ==> forall n :: n in Linked() ==> nd <= EffectiveTime(n)
      ensures Representable() && nd < MAX_TIME ==>
                (exists n :: n in heap.idx && nd == n.expiry) || TouchedAt(nd)
    {
      hide BookHolds, PlanHolds, TimerWheel.Sweeping, TimerHeap.Valid, TouchedAt;
      now := clock;
      nd := MAX_TIME;
      heap.TopIsEarliest();
      if heap.heap != [] {
        heap.TopIsLinked();
        nd := heap.heap[0].expiry;
      }
      wheel.CountIsSize();
      if wheel.count > 0 {
        var w := WheelWakeup();
        if w < nd {
          nd := w;
        }
      }
    }

    /** The first instant for which the loop has to wake up: the earliest exact deadline or, with anything in
        the wheel, the next tick; else the end of time. */
    ghost predicate WakesAt(time: int)
      reads this, wheel, heap
    {
      && time <= MAX_TIME && (forall n :: n in heap.idx ==> time <= n.expiry)
      && (wheel.at != map[] ==> time <= InstantOf(wheel.nowTick + 1, tick))
      && (time == MAX_TIME || (exists n :: n in heap.idx && time == n.expiry)
          || (wheel.at != map[] && time == InstantOf(wheel.nowTick + 1, tick)))
    }

    /** The blocking timeout: exactly until the loop has to wake up, and so never past a linked timer. */
    method NextDeadlineTimeout() returns (timeout: int)
      requires Valid() && wheel.Valid()
      ensures timeout >= 0
      ensures (forall n :: n in heap.idx ==> n.expiry <= MAX_TIME) ==>
                exists time :: WakesAt(time) && timeout == if time == MAX_TIME then DAY else if time > now then time - now else 0
      ensures forall n :: n in Linked() && EffectiveTime(n) < MAX_TIME ==> timeout == 0 || now + timeout <= EffectiveTime(n)
      ensures Linked() == {} ==> timeout == DAY
    {
      hide BookHolds, PlanHolds, TimerWheel.Sweeping, TimerHeap.Valid;
      var nd := MAX_TIME;
      heap.TopIsEarliest();
      if heap.heap != [] {
        heap.TopIsLinked();
        nd := heap.heap[0].expiry;
      }
      wheel.CountIsSize();
      if wheel.count > 0 {
        var w := InstantOf(wheel.nowTick + 1, tick);
        TimesOf(wheel.at, wheel.nowTick + 1, tick);
        if w < nd {
          nd := w;
        }
      }
      assert wheel.at == map[] <==> wheel.at.Keys == {};
      assert (forall n :: n in heap.idx ==> n.expiry <= MAX_TIME) ==> WakesAt(nd);
      timeout := if nd == MAX_TIME then DAY else if nd > now then nd - now else 0;
    }

    lemma PlanKeeps(at: map<Node, Place>)
      requires Valid() && at == wheel.at
      ensures BookHolds(Books(), tick, at.Keys + heap.idx.Keys)
    {
    }
  }

  lemma DonePlan(plan: map<nat, When>, timers: Timers, at: map<Node, Place>, heap: set<Node>, id: nat, t: Timer)
    requires PlanHolds(plan, timers, at, heap) && id in timers && !timers[id].state.Armed? && !t.state.Armed?
    ensures PlanHolds(plan, timers[id := t], at, heap)
  {
  }

  lemma BeginBook(a: Agenda, c: Clock, id: nat)
    requires c.tick > 0 && id in a.book.timers
    ensures BeginAt(a, c, id).book == BeginFireIn(a.book, id, c.now, c.tick)
  {
  }

  lemma EndBook(a: Agenda, c: Clock, id: nat)
    requires c.tick > 0 && id in a.book.timers
    ensures EndAt(a, c, id).book == EndFireIn(a.book, id, c.now, c.tick)
  {
  }

  lemma NoShots(a: Agenda, c: Clock, scripts: seq<seq<Op>>, k: nat)
    requires c.tick > 0
    ensures AllDue(a, c, [], scripts, k) && FireAllAt(a, c, [], scripts, k) == a
    ensures forall t: nat, u: nat :: InTickOrder([], t, u)
  {
  }

  lemma PlannedTick(plan: map<nat, When>, timers: Timers, at: map<Node, Place>, heap: set<Node>, n: Node)
    requires PlanHolds(plan, timers, at, heap) && n in at
    ensures n.id in plan && plan[n.id] == AtTick(at[n].due)
  {
  }

  lemma PlannedTime(plan: map<nat, When>, timers: Timers, at: map<Node, Place>, heap: set<Node>, n: Node)
    requires PlanHolds(plan, timers, at, heap) && n in heap
    ensures n.id in plan && plan[n.id] == AtTime(n.expiry)
  {
  }

  lemma AnchorBook(a: Agenda, target: nat)
    ensures Anchored(a, target).book == a.book
  {
  }

  lemma SmallerSet(a: set<nat>, b: set<nat>, x: nat)
    requires a <= b - {x} && x in b
    ensures |a| < |b|
  {
    CardinalityBelow(a, b - {x});
  }

  lemma {:induction false} CardinalityBelow(a: set<nat>, b: set<nat>)
    requires a <= b
    ensures |a| <= |b|
    decreases b
  {
    if a != {} {
      var x :| x in a;
      CardinalityBelow(a - {x}, b - {x});
    }
  }

  lemma ReclaimPlan(b: Book, plan: map<nat, When>, tick: nat, linked: set<Node>, at: map<Node, Place>, heap: set<Node>)
    requires BookHolds(b, tick, linked) && PlanHolds(plan, b.timers, at, heap)
    ensures PlanHolds(plan, ReclaimIn(b).timers, at, heap)
  {
  }

  // ---- whole runs

  /** What drives the timers from outside: calls between polls, and polls. */
  datatype Command = Call(op: Op) | PollAt(clock: nat, posted: seq<Op>, scripts: seq<seq<Op>>, rest: seq<Op>)

  /** One command on the plain agenda. */
  ghost predicate Stepped(d: Desk, command: Command, d': Desk, tick: nat)
  {
    tick > 0 &&
    match command
    case Call(op) => d' == d.(agenda := CallAt(d.agenda, Clock(tick, d.now, d.wheelTick), op))
    case PollAt(clock, posted, scripts, rest) =>
      exists mid: Desk, shots: seq<Shot> :: Polled(d, mid, d', clock, tick, posted, scripts, rest, shots)
  }

  /** A run of the plain agenda from an empty desk. */
  ghost predicate IsRun(states: seq<Desk>, commands: seq<Command>, tick: nat, start: int)
  {
    && |states| == |commands| + 1
    && states[0] == Desk(Agenda(Book(map[], map[], [], [], 0, 0), map[]), 0, false, start, 4096)
    && (forall i :: 0 <= i < |commands| ==> Stepped(states[i], commands[i], states[i + 1], tick))
    && (forall i :: 0 <= i < |states| ==> Sound(states[i].agenda, tick))
  }

  /** Whole runs: whatever is called and whatever the clock and the callbacks do, wheel and heap do what
      the plain agenda does, each poll that keeps up fires exactly what is due, nothing fires early or
      after it ended, and fixed-rate timers stay on their grid. */
  method Drive(tick: nat, start: int, commands: seq<Command>) returns (em: EventManager, ghost states: seq<Desk>)
    requires tick > 0
    ensures em.Valid() && em.wheel.Valid() && IsRun(states, commands, tick, start)
    ensures states[|commands|] == em.View() && HistorySafe(em.log) && Steady(em.log)
  {
    hide Evolves, NoNewDue, BookHolds, PlanHolds, TimerWheel.Sweeping, TimerHeap.Valid, Polled, CallAt, AgendaHolds,
      Stepped, Sound;
    em := new EventManager(tick, start);
    em.Agreed();
    states := [em.View()];
    for i := 0 to |commands|
      invariant fresh(em) && fresh(em.wheel) && fresh(em.wheel.buckets) && fresh(em.heap)
      invariant em.Valid() && em.wheel.Valid() && em.tick == tick
      invariant |states| == i + 1 && states[i] == em.View() && IsRun(states, commands[..i], tick, start)
    {
      ghost var d := em.View();
      match commands[i] {
        case Call(op) =>
          em.Run(op);
          CallSteps(d, op, em.View(), tick);
        case PollAt(clock, posted, scripts, rest) =>
          var shots, mid := em.Poll(clock, posted, scripts, rest);
          PollSteps(d, mid, clock, posted, scripts, rest, em.View(), tick, shots);
      }
      em.Agreed();
      RunGrows(states, commands[..i], tick, start, commands[i], em.View());
      assert commands[..i] + [commands[i]] == commands[..i + 1];
      states := states + [em.View()];
    }
    assert commands[..|commands|] == commands;
    em.Agreed();
  }

  lemma CallSteps(d: Desk, op: Op, d': Desk, tick: nat)
    requires tick > 0 && d' == d.(agenda := CallAt(d.agenda, Clock(tick, d.now, d.wheelTick), op))
    ensures Stepped(d, Call(op), d', tick)
  {
    hide CallAt;
  }

  lemma PollSteps(d: Desk, mid: Desk, clock: nat, posted: seq<Op>, scripts: seq<seq<Op>>, rest: seq<Op>, d': Desk,
                  tick: nat, shots: seq<Shot>)
    requires Polled(d, mid, d', clock, tick, posted, scripts, rest, shots)
    ensures Stepped(d, PollAt(clock, posted, scripts, rest), d', tick)
  {
    hide Expired, ExpiresExactly, Called;
  }

  lemma RunGrows(states: seq<Desk>, commands: seq<Command>, tick: nat, start: int, command: Command, d: Desk)
    requires IsRun(states, commands, tick, start) && Stepped(states[|commands|], command, d, tick) && Sound(d.agenda, tick)
    ensures IsRun(states + [d], commands + [command], tick, start)
  {
    hide Stepped, Sound;
  }
}
