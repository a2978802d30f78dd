/** What each call on the agenda means for its caller, in terms of timers, groups and deadlines. */
module TimerCalls {
  import opened Basics
  import opened Lists
  import opened TimerWheels
  import opened TimerBook
  import opened TimerAgenda

  /** Every other timer, its appointment and, unless said otherwise, its group stay as they are. */
  ghost predicate OthersStay(a: Agenda, b: Agenda, id: nat)
  {
    b.book.timers - {id} == a.book.timers - {id} && b.plan - {id} == a.plan - {id}
  }

  /** A timer with exactly the properties asked for, last in its group, due when its deadline says. */
  ghost predicate IsArmed(a: Agenda, c: Clock, b: Agenda, expiry: int, period: int, mode: RepeatMode,
                          home: Option<nat>, precise: bool)
  {
    var id, known := a.book.nextId, home.Some? && home.value in a.book.groups;
    && id !in a.book.timers && id in b.book.timers && id in b.plan && OthersStay(a, b, id)
    && (0 <= expiry ==> OnTime(b.plan[id], c, expiry, precise))
    && var t := b.book.timers[id];
    && t.expiry == expiry && t.period == period && t.mode == mode && t.precise == precise && t.state.Armed?
    && t.home == (if known then home else None)
    && b.book.log == a.book.log && b.book.dead == a.book.dead
    && b.book.groups == if known then a.book.groups[home.value := a.book.groups[home.value] + [id]] else a.book.groups
  }

  ghost predicate IsWithdrawn(a: Agenda, b: Agenda, id: nat)
  {
    && id in a.book.timers && id in b.book.timers && id !in b.plan && OthersStay(a, b, id)
    && b.book.timers[id] == a.book.timers[id].(state := Cancelled) && b.book.log == a.book.log + [Withdrawn(id)]
    && forall g :: g in b.book.groups ==> id !in b.book.groups[g]
  }

  /** Exactly the timers armed into the group that have not ended are withdrawn. */
  ghost predicate GroupIsWithdrawn(a: Agenda, b: Agenda, g: nat)
  {
    && b.book.timers.Keys == a.book.timers.Keys && g in b.book.groups && b.book.groups[g] == []
    && (forall id :: id in a.book.timers ==>
          if Listed(a, g, id) then b.book.timers[id] == a.book.timers[id].(state := Cancelled) && id !in b.plan
          else b.book.timers[id] == a.book.timers[id])
    && (forall id :: id in b.plan ==> id in a.plan && b.plan[id] == a.plan[id])
    && (forall id :: id in a.plan && !(id in a.book.timers && Listed(a, g, id)) ==> id in b.plan)
  }

  predicate Listed(a: Agenda, g: nat, id: nat)
    requires id in a.book.timers
  {
    a.book.timers[id].home == Some(g) && a.book.timers[id].Member()
  }

  ghost predicate IsMoved(a: Agenda, c: Clock, b: Agenda, id: nat, delay: int)
  {
    && id in a.book.timers && id in b.book.timers && id in b.plan && OthersStay(a, b, id)
    && b.book.timers[id] == a.book.timers[id].(expiry := c.now + delay, expiryTick := b.book.timers[id].expiryTick)
    && (0 <= c.now + delay ==> OnTime(b.plan[id], c, c.now + delay, a.book.timers[id].precise))
    && b.book.groups == a.book.groups && b.book.log == a.book.log + [Moved(id)]
  }

  /** What a call is for; a call that names nothing it can change changes nothing. */
  ghost predicate Means(a: Agenda, c: Clock, op: Op, b: Agenda)
  {
    match op
    case OpArm(expiry, period, mode, home, precise) => IsArmed(a, c, b, expiry, period, mode, home, precise)
    case OpCancel(id) => if id in a.book.timers && !a.book.timers[id].state.Cancelled? then IsWithdrawn(a, b, id) else b == a
    case OpCancelGroup(g) => if g in a.book.groups then GroupIsWithdrawn(a, b, g) else b == a
    case OpReschedule(id, delay) =>
      if id in a.book.timers && a.book.timers[id].state.Armed? then IsMoved(a, c, b, id, delay) else b == a
    case OpMakeGroup =>
      && a.book.nextGroup !in a.book.groups && b.plan == a.plan && b.book.timers == a.book.timers
      && b.book.groups == a.book.groups[a.book.nextGroup := []]
  }

  lemma CallMeans(a: Agenda, c: Clock, op: Op, linked: set<Node>)
    requires BookHolds(a.book, c.tick, linked)
    ensures c.tick > 0 && Means(a, c, op, CallAt(a, c, op))
  {
    hide BookHolds, OnTime, Effective, TickOf, CancelAllAt, CancelIn, ArmIn, GroupIsWithdrawn, IsWithdrawn, IsArmed, IsMoved;
    FreshIds(a.book, c.tick, linked);
    match op
    case OpArm(expiry, period, mode, home, precise) => ArmMeans(a, c, expiry, period, mode, home, precise, linked);
    case OpCancel(id) =>
      if Withdrawable(a.book, id) {
        CancelMeans(a, c.tick, id, linked);
      }
    case OpCancelGroup(g) =>
      if g in a.book.groups {
        CancelGroupMeans(a, c.tick, g, linked);
      }
    case OpReschedule(id, delay) =>
      if id in a.book.timers {
        MoveMeans(a, c, id, delay);
      }
    case OpMakeGroup =>
  }

  lemma ArmMeans(a: Agenda, c: Clock, expiry: int, period: int, mode: RepeatMode, home: Option<nat>, precise: bool,
                 linked: set<Node>)
    requires BookHolds(a.book, c.tick, linked)
    ensures c.tick > 0 && IsArmed(a, c, ArmAt(a, c, expiry, period, mode, home, precise), expiry, period, mode, home, precise)
  {
    hide OnTime, Effective, TickOf, BookHolds;
    FreshIds(a.book, c.tick, linked);
    if 0 <= expiry {
      EffectiveIsOnTime(c, expiry, precise);
    }
  }

  lemma FreshIds(b: Book, tick: nat, linked: set<Node>)
    requires BookHolds(b, tick, linked)
    ensures tick > 0 && b.nextId !in b.timers && b.nextGroup !in b.groups
  {
  }

  lemma CancelMeans(a: Agenda, tick: nat, id: nat, linked: set<Node>)
    requires BookHolds(a.book, tick, linked) && Withdrawable(a.book, id)
    ensures IsWithdrawn(a, CancelAt(a, id), id)
  {
    hide BookHolds, Leave;
    CancelKeeps(a.book, tick, linked, id);
    InNoGroup(CancelIn(a.book, id), tick, linked - {NodeOf(id, a.book.timers[id])}, id);
  }

  lemma InNoGroup(b: Book, tick: nat, linked: set<Node>, id: nat)
    requires BookHolds(b, tick, linked) && id in b.timers && b.timers[id].state.Cancelled?
    ensures forall g :: g in b.groups ==> id !in b.groups[g]
  {
    forall g | g in b.groups ensures id !in b.groups[g] {
      assert GroupMatches(b.timers, g, b.groups[g]);
    }
  }

  lemma CancelGroupMeans(a: Agenda, tick: nat, g: nat, linked: set<Node>)
    requires BookHolds(a.book, tick, linked) && g in a.book.groups
    ensures GroupIsWithdrawn(a, CancelGroupAt(a, g), g)
  {
    hide BookHolds, CancelAllAt, CancelAllIn;
    var ids := a.book.groups[g];
    MembersAreListed(a, tick, g, linked);
    CancelGroupWithdraws(a.book, tick, linked, g);
    CancelAllBook(a, ids);
    CancelAllPlan(a, ids);
  }

  lemma MembersAreListed(a: Agenda, tick: nat, g: nat, linked: set<Node>)
    requires BookHolds(a.book, tick, linked) && g in a.book.groups
    ensures Distinct(a.book.groups[g]) && forall id :: id in a.book.groups[g] <==> id in a.book.timers && Listed(a, g, id)
  {
    assert GroupMatches(a.book.timers, g, a.book.groups[g]);
  }

  lemma {:induction false} CancelAllPlan(a: Agenda, ids: seq<nat>)
    requires Distinct(ids) && forall id :: id in ids ==> Withdrawable(a.book, id)
    ensures CancelAllAt(a, ids).plan == a.plan - (set id | id in ids)
    decreases ids
  {
    if ids == [] {
      assert a.plan - (set id | id in ids) == a.plan;
    } else {
      var b := CancelAt(a, ids[0]);
      assert forall id :: id in ids[1..] ==> id in ids && id != ids[0];
      CancelAllPlan(b, ids[1..]);
      assert a.plan - (set id | id in ids) == a.plan - {ids[0]} - (set id | id in ids[1..]);
    }
  }

  lemma MoveMeans(a: Agenda, c: Clock, id: nat, delay: int)
    requires c.tick > 0 && id in a.book.timers
    ensures IsMoved(a, c, RescheduleAt(a, c, id, delay), id, delay)
  {
    hide OnTime, Effective, TickOf;
    if 0 <= c.now + delay {
      EffectiveIsOnTime(c, c.now + delay, a.book.timers[id].precise);
    }
  }
}
