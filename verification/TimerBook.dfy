/** The event manager's bookkeeping about timers, as values: what it knows about every timer, how
    that must match the scheduling structures and the groups, and what its history promises. */
module TimerBook {
  import opened Basics
  import opened Arith
  import opened Lists
  import opened TimerWheels

  /** Integer division that truncates toward zero, as the source language does. */
  function TruncDiv(a: int, b: int): int
    requires b > 0
  {
    if a >= 0 then a / b else -((-a) / b)
  }

  /** A deadline rounded up to its tick; a negative quotient wraps into the unsigned range. */
  function TickOf(ns: int, tick: nat): (t: nat)
    requires tick > 0
  {
    var q := TruncDiv(ns + tick - 1, tick);
    if q >= 0 then q else if q + TWO_64 >= 0 then q + TWO_64 else 0
  }

  /** The tick of a deadline is the first one not before it; up to two ticks before zero it is zero. */
  lemma TickIsCeiling(ns: int, tick: nat)
    requires tick > 0
    ensures ns >= 0 ==> (TickOf(ns, tick) - 1) * tick < ns <= TickOf(ns, tick) * tick
    ensures 1 - 2 * tick < ns < 0 ==> TickOf(ns, tick) == 0
  {
    hide TruncDiv, TickOf;
    var x := ns + tick - 1;
    if ns >= 0 {
      DivBounds(x, tick);
      TruncatesDown(x, tick);
      TickOfQuotient(ns, tick, x / tick);
      MulDistributes(x / tick, -1, tick);
    } else if 1 - 2 * tick < ns {
      TruncatesToZero(x, tick);
      TickOfQuotient(ns, tick, 0);
    }
  }

  lemma TickOfQuotient(ns: int, tick: nat, q: nat)
    requires tick > 0 && TruncDiv(ns + tick - 1, tick) == q
    ensures TickOf(ns, tick) == q
  {
    hide TruncDiv;
  }

  lemma TruncatesDown(x: nat, tick: nat)
    requires tick > 0
    ensures TruncDiv(x, tick) == x / tick >= 0
  {
  }

  lemma TruncatesToZero(x: int, tick: nat)
    requires tick > 0 && -x < tick && x < tick
    ensures TruncDiv(x, tick) == 0
  {
    if x >= 0 {
      QuotientIsUnique(x, tick, 0, x);
    } else {
      QuotientIsUnique(-x, tick, 0, -x);
    }
  }

  lemma TickAtMost(ns: nat, tick: nat, t: nat, k: nat)
    requires tick > 0 && (t - 1) * tick < ns <= t * tick
    ensures t <= k <==> ns <= k * tick
  {
    if t <= k {
      MulMonotone(t, k, tick);
    } else {
      MulMonotone(k, t - 1, tick);
    }
  }

  /** A tick is never before the deadline it stands for, and a deadline after `now` is past the
      tick that contains `now`. */
  lemma TickIsNotEarly(ns: int, tick: nat, now: int)
    requires tick > 0 && now >= 0
    ensures ns <= TickOf(ns, tick) * tick && (ns >= 0 ==> (TickOf(ns, tick) - 1) * tick < ns)
    ensures TickOf(ns, tick) <= now / tick ==> ns <= now
    ensures now < ns ==> now / tick < TickOf(ns, tick)
  {
    hide TickOf;
    if ns >= 0 {
      TickIsCeiling(ns, tick);
      TickAtMost(ns, tick, TickOf(ns, tick), now / tick);
      DivBounds(now, tick);
    } else {
      MulMonotone(0, TickOf(ns, tick), tick);
    }
  }

  /** A deadline a whole tick or more in the past, rounded toward zero, wraps into the unsigned range. */
  lemma TickWraps(ns: int, tick: nat, k: nat)
    requires tick > 0 && 0 < k < TWO_64 && k * tick <= -(ns + tick - 1) < (k + 1) * tick
    ensures TickOf(ns, tick) == TWO_64 - k
  {
    MulMonotone(1, k, tick);
    QuotientIsUnique(-(ns + tick - 1), tick, k, -(ns + tick - 1) - k * tick);
  }

  datatype RepeatMode = FixedRate | FixedDelay

  /** Armed: linked in the wheel or the heap. InCallback: its callback runs and it is not linked again
      yet. Done: a one-shot that completed. Cancelled and Done await reclamation. */
  datatype TimerState = Armed | InCallback | Done | Cancelled

  /** A timer node; `home` is the group it was armed into. */
  datatype Timer = Timer(expiry: int, expiryTick: nat, period: int, mode: RepeatMode, precise: bool,
                         home: Option<nat>, state: TimerState)
  {
    predicate Repeats() { period > 0 }
    predicate Member() { state.Armed? || state.InCallback? }
  }

  datatype Event =
    | Fired(id: nat, scheduled: int, at: int, missed: nat, period: int, mode: RepeatMode)
    | Withdrawn(id: nat)
    | Moved(id: nat)

  /** What a callback may do to timers. */
  datatype Op =
    | OpArm(expiry: int, period: int, mode: RepeatMode, home: Option<nat>, precise: bool)
    | OpCancel(id: nat)
    | OpCancelGroup(g: nat)
    | OpReschedule(id: nat, delay: int)
    | OpMakeGroup

  type Timers = map<nat, Timer>

  function NodeOf(id: nat, t: Timer): Node { Node(id, t.expiry, t.expiryTick) }

  /** The node a timer has linked: none unless it is armed. */
  function NodesOf(id: nat, t: Timer): set<Node> { if t.state.Armed? then {NodeOf(id, t)} else {} }

  function LinkedNode(timers: Timers, id: nat): set<Node>
  {
    if id in timers then NodesOf(id, timers[id]) else {}
  }

  /** Exactly the armed timers are linked, each under its current deadline. */
  ghost predicate LinksMatch(timers: Timers, linked: set<Node>)
  {
    && (forall n :: n in linked ==> n.id in timers && n in NodesOf(n.id, timers[n.id]))
    && (forall id :: id in timers ==> NodesOf(id, timers[id]) <= linked)
  }

  /** A group lists, once each, exactly the timers armed into it that are neither withdrawn nor
      completed; a timer whose callback is running is still listed. */
  ghost predicate GroupsMatch(timers: Timers, groups: map<nat, seq<nat>>)
  {
    && (forall g :: g in groups ==> GroupMatches(timers, g, groups[g]))
    && (forall id :: id in timers && timers[id].home.Some? ==> timers[id].home.value in groups)
  }

  ghost predicate GroupMatches(timers: Timers, g: nat, members: seq<nat>)
  {
    && Distinct(members)
    && forall id :: id in members <==> id in timers && timers[id].home == Some(g) && timers[id].Member()
  }

  /** Exactly the withdrawn and the completed timers await reclamation. */
  ghost predicate DeadMatches(timers: Timers, dead: seq<nat>)
  {
    forall id :: id in dead <==> id in timers && !timers[id].Member()
  }

  /** The last thing that may happen to a timer: it is withdrawn, or fires as a one-shot. */
  predicate Ends(e: Event) { e.Withdrawn? || (e.Fired? && e.period <= 0) }

  /** No timer fires early, and none fires after it was withdrawn or fired as a one-shot. */
  ghost predicate HistorySafe(log: seq<Event>)
  {
    && (forall i :: 0 <= i < |log| && log[i].Fired? ==> log[i].scheduled <= log[i].at)
    && (forall i, j :: 0 <= i < j < |log| && Ends(log[i]) && log[j].Fired? ==> log[i].id != log[j].id)
  }

  ghost predicate EventMatches(e: Event, t: Timer)
  {
    && (e.Withdrawn? ==> t.state.Cancelled?)
    && (e.Fired? ==> e.period == t.period && e.mode == t.mode && (e.period <= 0 ==> !t.state.Armed?))
  }

  /** Timers whose history has ended are not linked, and identities are never reused. */
  ghost predicate HistoryMatches(log: seq<Event>, timers: Timers, nextId: nat)
  {
    && (forall i :: 0 <= i < |log| ==> log[i].id < nextId)
    && (forall i :: 0 <= i < |log| && log[i].id in timers ==> EventMatches(log[i], timers[log[i].id]))
    && (forall id :: id in timers ==> id < nextId)
  }

  // ---- fixed-rate timers in the history

  /** The last thing that happened to a timer. */
  ghost function LastOf(log: seq<Event>, id: nat): Option<Event>
  {
    if log == [] then None
    else if log[|log| - 1].id == id then Some(log[|log| - 1])
    else LastOf(log[..|log| - 1], id)
  }

  predicate Rated(e: Event) { e.Fired? && e.mode.FixedRate? && e.period > 0 }

  /** The deadline that follows a firing at fixed rate. */
  function FollowUp(e: Event): int
    requires e.Fired?
  {
    e.scheduled + (e.missed + 1) * e.period
  }

  /** Unless moved, a fixed-rate timer next fires for the deadline its last firing set, and each firing
      counts the periods that were over by then. */
  ghost predicate Steady(log: seq<Event>)
  {
    log == [] ||
    var before, e := log[..|log| - 1], log[|log| - 1];
    && Steady(before)
    && (Rated(e) ==> e.scheduled <= e.at && e.missed == Missed(e.scheduled, e.period, e.at))
    && (Rated(e) && LastOf(before, e.id).Some? && Rated(LastOf(before, e.id).value) ==>
          e.period == LastOf(before, e.id).value.period && e.scheduled == FollowUp(LastOf(before, e.id).value))
  }

  ghost predicate SteadyTimer(log: seq<Event>, id: nat, t: Timer)
  {
    t.Repeats() && t.mode.FixedRate? && LastOf(log, id).Some? && Rated(LastOf(log, id).value) ==>
      t.period == LastOf(log, id).value.period && t.expiry == FollowUp(LastOf(log, id).value)
  }

  ghost predicate RatesMatch(log: seq<Event>, timers: Timers)
  {
    Steady(log) && forall id :: id in timers ==> SteadyTimer(log, id, timers[id])
  }

  lemma LogOne(log: seq<Event>, e: Event)
    ensures (log + [e])[..|log|] == log && (log + [e])[|log|] == e
    ensures forall id :: LastOf(log + [e], id) == if id == e.id then Some(e) else LastOf(log, id)
  {
    assert (log + [e])[..|log|] == log;
  }

  /** A timer that the history does not know yet. */
  lemma {:induction false} NothingOf(log: seq<Event>, id: nat)
    requires forall i :: 0 <= i < |log| ==> log[i].id != id
    ensures LastOf(log, id).None?
  {
    if log != [] {
      NothingOf(log[..|log| - 1], id);
    }
  }

  /** An event that is no fixed-rate firing. */
  lemma PlainRates(log: seq<Event>, timers: Timers, e: Event, t: Timer)
    requires RatesMatch(log, timers) && !Rated(e)
    ensures RatesMatch(log + [e], timers[e.id := t])
  {
    LogOne(log, e);
    var timers' := timers[e.id := t];
    forall id | id in timers' ensures SteadyTimer(log + [e], id, timers'[id]) {
      if id != e.id {
        assert SteadyTimer(log, id, timers[id]);
      }
    }
  }

  /** A fixed-rate firing at the timer's deadline, after which the timer has the follow-up deadline. */
  lemma FiringRates(log: seq<Event>, timers: Timers, e: Event, t: Timer)
    requires RatesMatch(log, timers) && Rated(e) && e.id in timers
    requires timers[e.id].Repeats() && timers[e.id].mode.FixedRate? && timers[e.id].period == e.period
    requires timers[e.id].expiry == e.scheduled <= e.at && e.missed == Missed(e.scheduled, e.period, e.at)
    requires t.period == e.period && t.expiry == FollowUp(e)
    ensures RatesMatch(log + [e], timers[e.id := t])
  {
    LogOne(log, e);
    assert SteadyTimer(log, e.id, timers[e.id]);
    var timers' := timers[e.id := t];
    forall id | id in timers' ensures SteadyTimer(log + [e], id, timers'[id]) {
      if id != e.id {
        assert SteadyTimer(log, id, timers[id]);
      }
    }
  }

  /** Everything the event manager records about timers. */
  datatype Book = Book(timers: Timers, groups: map<nat, seq<nat>>, dead: seq<nat>, log: seq<Event>,
                       nextId: nat, nextGroup: nat)

  ghost predicate TicksMatch(timers: Timers, tick: nat)
    requires tick > 0
  {
    forall id :: id in timers ==> timers[id].expiryTick == TickOf(timers[id].expiry, tick)
  }

  /** The book is consistent and agrees with the set of linked nodes. */
  ghost predicate BookHolds(b: Book, tick: nat, linked: set<Node>)
  {
    && tick > 0
    && LinksMatch(b.timers, linked) && GroupsMatch(b.timers, b.groups) && DeadMatches(b.timers, b.dead)
    && HistorySafe(b.log) && HistoryMatches(b.log, b.timers, b.nextId) && TicksMatch(b.timers, tick)
    && RatesMatch(b.log, b.timers)
    && (forall g :: g in b.groups ==> g < b.nextGroup)
  }

  /** Replacing one timer replaces its linked node and no other. */
  lemma SetTimerLinks(timers: Timers, linked: set<Node>, id: nat, t: Timer)
    requires LinksMatch(timers, linked)
    ensures LinksMatch(timers[id := t], linked - LinkedNode(timers, id) + NodesOf(id, t))
  {
  }

  /** A timer that keeps its membership leaves every group as it is. */
  lemma SetTimerGroups(timers: Timers, groups: map<nat, seq<nat>>, id: nat, t: Timer)
    requires GroupsMatch(timers, groups) && id in timers
    requires t.home == timers[id].home && t.Member() == timers[id].Member()
    ensures GroupsMatch(timers[id := t], groups)
  {
    forall g | g in groups ensures GroupMatches(timers[id := t], g, groups[g]) {
      assert GroupMatches(timers, g, groups[g]);
    }
  }

  /** The group lists after a timer leaves them: glist_unlink. */
  function Leave(groups: map<nat, seq<nat>>, id: nat, home: Option<nat>): (r: map<nat, seq<nat>>)
    ensures r.Keys == groups.Keys
  {
    if home.Some? && home.value in groups then groups[home.value := Without(groups[home.value], id)] else groups
  }

  lemma LeaveGroups(timers: Timers, groups: map<nat, seq<nat>>, id: nat, t: Timer)
    requires GroupsMatch(timers, groups) && id in timers
    requires t.home == timers[id].home && !t.Member()
    ensures GroupsMatch(timers[id := t], Leave(groups, id, t.home))
  {
    var left := Leave(groups, id, t.home);
    forall g | g in left ensures GroupMatches(timers[id := t], g, left[g]) {
      assert GroupMatches(timers, g, groups[g]);
      WithoutRemoves(groups[g], id);
    }
  }

  lemma JoinGroups(timers: Timers, groups: map<nat, seq<nat>>, id: nat, t: Timer)
    requires GroupsMatch(timers, groups) && id !in timers && t.Member()
    requires t.home.Some? ==> t.home.value in groups
    ensures GroupsMatch(timers[id := t],
              if t.home.Some? then groups[t.home.value := groups[t.home.value] + [id]] else groups)
  {
    var joined := if t.home.Some? then groups[t.home.value := groups[t.home.value] + [id]] else groups;
    forall g | g in joined ensures GroupMatches(timers[id := t], g, joined[g]) {
      assert GroupMatches(timers, g, groups[g]);
      AppendKeepsDistinct(groups[g], id);
    }
  }

  /** Recording one more event keeps the history safe when a firing is on time and of an armed timer. */
  lemma Record(log: seq<Event>, timers: Timers, nextId: nat, e: Event)
    requires HistorySafe(log) && HistoryMatches(log, timers, nextId)
    requires e.id in timers
    requires e.Fired? ==> timers[e.id].state.Armed? && e.scheduled <= e.at
    ensures HistorySafe(log + [e])
  {
  }

  /** Recording an event together with the change of its timer. */
  lemma RecordMatches(log: seq<Event>, timers: Timers, nextId: nat, e: Event, t: Timer)
    requires HistoryMatches(log, timers, nextId) && e.id in timers && EventMatches(e, t)
    requires t.period == timers[e.id].period && t.mode == timers[e.id].mode
    requires timers[e.id].state.Cancelled? ==> t.state.Cancelled?
    requires timers[e.id].state.Armed? || !t.state.Armed?
    ensures HistoryMatches(log + [e], timers[e.id := t], nextId)
  {
    var timers' := timers[e.id := t];
    forall i | 0 <= i < |log + [e]| && (log + [e])[i].id in timers'
      ensures EventMatches((log + [e])[i], timers'[(log + [e])[i].id])
    {
      if i < |log| {
        assert EventMatches(log[i], timers[log[i].id]);
      }
    }
  }

  lemma SetTimerDead(timers: Timers, dead: seq<nat>, id: nat, t: Timer)
    requires DeadMatches(timers, dead) && id in timers
    ensures t.Member() == timers[id].Member() ==> DeadMatches(timers[id := t], dead)
    ensures !t.Member() ==> DeadMatches(timers[id := t], dead + [id])
  {
  }

  lemma SetTimerTicks(timers: Timers, tick: nat, id: nat, t: Timer)
    requires tick > 0 && TicksMatch(timers, tick) && t.expiryTick == TickOf(t.expiry, tick)
    ensures TicksMatch(timers[id := t], tick)
  {
  }

  lemma EmptyBookHolds(tick: nat)
    requires tick > 0
    ensures BookHolds(Book(map[], map[], [], [], 0, 0), tick, {})
  {
  }

  // ---- what each operation does to the book

  function ArmIn(b: Book, expiry: int, expiryTick: nat, period: int, mode: RepeatMode, home: Option<nat>,
                 precise: bool): Book
  {
    var joins := if home.Some? && home.value in b.groups then home else None;
    b.(timers := b.timers[b.nextId := Timer(expiry, expiryTick, period, mode, precise, joins, Armed)],
       groups := if joins.Some? then b.groups[joins.value := b.groups[joins.value] + [b.nextId]] else b.groups,
       nextId := b.nextId + 1)
  }

  lemma ArmKeeps(b: Book, tick: nat, linked: set<Node>, expiry: int, period: int, mode: RepeatMode,
                 home: Option<nat>, precise: bool)
    requires BookHolds(b, tick, linked)
    ensures Node(b.nextId, expiry, TickOf(expiry, tick)) !in linked
    ensures BookHolds(ArmIn(b, expiry, TickOf(expiry, tick), period, mode, home, precise), tick,
                      linked + {Node(b.nextId, expiry, TickOf(expiry, tick))})
    ensures home.Some? && home.value in b.groups ==>
              var r := ArmIn(b, expiry, TickOf(expiry, tick), period, mode, home, precise);
              r.groups[home.value] == b.groups[home.value] + [b.nextId]
  {
    hide TickOf, Steady, LastOf;
    var r := ArmIn(b, expiry, TickOf(expiry, tick), period, mode, home, precise);
    var t := r.timers[b.nextId];
    NothingOf(b.log, b.nextId);
    SetTimerLinks(b.timers, linked, b.nextId, t);
    JoinGroups(b.timers, b.groups, b.nextId, t);
    assert linked - LinkedNode(b.timers, b.nextId) == linked;
  }

  /** A timer that can still be withdrawn: known and not withdrawn yet, even if it already fired. */
  predicate Withdrawable(b: Book, id: nat) { id in b.timers && !b.timers[id].state.Cancelled? }

  function CancelIn(b: Book, id: nat): Book
    requires Withdrawable(b, id)
  {
    var t := b.timers[id];
    b.(timers := b.timers[id := t.(state := Cancelled)], groups := Leave(b.groups, id, t.home),
       dead := b.dead + [id], log := b.log + [Withdrawn(id)])
  }

  lemma CancelKeeps(b: Book, tick: nat, linked: set<Node>, id: nat)
    requires BookHolds(b, tick, linked) && Withdrawable(b, id)
    ensures BookHolds(CancelIn(b, id), tick, linked - {NodeOf(id, b.timers[id])})
  {
    hide LinksMatch, GroupsMatch, DeadMatches, HistorySafe, HistoryMatches, TicksMatch, RatesMatch;
    var t := b.timers[id].(state := Cancelled);
    SetTimerLinks(b.timers, linked, id, t);
    LeaveGroups(b.timers, b.groups, id, t);
    SetTimerDead(b.timers, b.dead, id, t);
    Record(b.log, b.timers, b.nextId, Withdrawn(id));
    RecordMatches(b.log, b.timers, b.nextId, Withdrawn(id), t);
    TimerTick(b.timers, tick, id);
    SetTimerTicks(b.timers, tick, id, t);
    PlainRates(b.log, b.timers, Withdrawn(id), t);
    CancelledNode(b.timers, linked, id);
  }

  lemma TimerTick(timers: Timers, tick: nat, id: nat)
    requires tick > 0 && TicksMatch(timers, tick) && id in timers
    ensures timers[id].expiryTick == TickOf(timers[id].expiry, tick)
  {
  }

  lemma CancelledNode(timers: Timers, linked: set<Node>, id: nat)
    requires LinksMatch(timers, linked) && id in timers
    ensures linked - LinkedNode(timers, id) + {} == linked - {NodeOf(id, timers[id])}
  {
  }

  /** Withdrawing a list of timers one after the other, as cancel_group walks its members. */
  function CancelAllIn(b: Book, ids: seq<nat>): Book
    decreases ids
  {
    if ids == [] then b
    else CancelAllIn(if Withdrawable(b, ids[0]) then CancelIn(b, ids[0]) else b, ids[1..])
  }

  /** Rescheduling changes the deadline and nothing else, whatever the timer's state. */
  function RescheduleIn(b: Book, id: nat, expiry: int, expiryTick: nat): Book
    requires id in b.timers
  {
    b.(timers := b.timers[id := b.timers[id].(expiry := expiry, expiryTick := expiryTick)], log := b.log + [Moved(id)])
  }

  /** Linking the rescheduled node keeps the book consistent exactly when the timer was armed. For
      a completed one-shot, reclamation then leaves a linked node whose timer is gone. */
  lemma RescheduleKeeps(b: Book, tick: nat, linked: set<Node>, id: nat, expiry: int)
    requires BookHolds(b, tick, linked) && Withdrawable(b, id)
    ensures var r := RescheduleIn(b, id, expiry, TickOf(expiry, tick));
            var relinked := linked - {NodeOf(id, b.timers[id])} + {NodeOf(id, r.timers[id])};
            && (BookHolds(r, tick, relinked) <==> b.timers[id].state.Armed?)
            && NodeOf(id, r.timers[id]) !in linked - {NodeOf(id, b.timers[id])}
            && (b.timers[id].state.Done? ==> NodeOf(id, r.timers[id]) in relinked && id !in ReclaimIn(r).timers)
  {
    hide LinksMatch, GroupsMatch, DeadMatches, HistorySafe, HistoryMatches, TicksMatch, RatesMatch, TickOf;
    var t := b.timers[id].(expiry := expiry, expiryTick := TickOf(expiry, tick));
    RescheduledLinks(b.timers, linked, id, t);
    SetTimerGroups(b.timers, b.groups, id, t);
    SetTimerDead(b.timers, b.dead, id, t);
    Record(b.log, b.timers, b.nextId, Moved(id));
    RecordMatches(b.log, b.timers, b.nextId, Moved(id), t);
    SetTimerTicks(b.timers, tick, id, t);
    PlainRates(b.log, b.timers, Moved(id), t);
    DoneIsDead(b.timers, b.dead, id);
  }

  /** The relinked node matches exactly when the timer was linked before. */
  lemma RescheduledLinks(timers: Timers, linked: set<Node>, id: nat, t: Timer)
    requires LinksMatch(timers, linked) && id in timers && t.state == timers[id].state
    ensures NodeOf(id, t) !in linked - {NodeOf(id, timers[id])}
    ensures LinksMatch(timers[id := t], linked - {NodeOf(id, timers[id])} + {NodeOf(id, t)}) <==> t.state.Armed?
  {
    var relinked := linked - {NodeOf(id, timers[id])} + {NodeOf(id, t)};
    if t.state.Armed? {
      SetTimerLinks(timers, linked, id, t);
      assert relinked == linked - LinkedNode(timers, id) + NodesOf(id, t);
    } else {
      assert NodeOf(id, t) in relinked;
    }
  }

  lemma DoneIsDead(timers: Timers, dead: seq<nat>, id: nat)
    requires DeadMatches(timers, dead) && id in timers
    ensures timers[id].state.Done? ==> id in dead
  {
  }

  function MakeGroupIn(b: Book): Book
  {
    b.(groups := b.groups[b.nextGroup := []], nextGroup := b.nextGroup + 1)
  }

  lemma MakeGroupKeeps(b: Book, tick: nat, linked: set<Node>)
    requires BookHolds(b, tick, linked)
    ensures BookHolds(MakeGroupIn(b), tick, linked)
  {
    var r := MakeGroupIn(b);
    forall g | g in r.groups ensures GroupMatches(r.timers, g, r.groups[g]) {
      if g in b.groups {
        assert GroupMatches(b.timers, g, b.groups[g]);
      }
    }
  }

  /** Releases the timers that await reclamation. */
  function ReclaimIn(b: Book): Book
  {
    b.(timers := b.timers - (set id | id in b.dead), dead := [])
  }

  lemma ReclaimKeeps(b: Book, tick: nat, linked: set<Node>)
    requires BookHolds(b, tick, linked)
    ensures BookHolds(ReclaimIn(b), tick, linked)
    ensures forall id :: id in ReclaimIn(b).timers ==> b.timers[id].Member()
  {
    var r := ReclaimIn(b);
    forall g | g in r.groups ensures GroupMatches(r.timers, g, r.groups[g]) {
      assert GroupMatches(b.timers, g, b.groups[g]);
    }
  }

  // ---- firing

  /** How many further periods are already over when a deadline is served at `now`. */
  function Missed(expiry: int, period: int, now: int): (k: nat)
    requires period > 0
  {
    if expiry <= now then (now - expiry) / period else 0
  }

  /** The next deadline of a fixed-rate timer: the first multiple of its period after `now`. */
  function NextDeadline(expiry: int, period: int, now: int): (next: int)
    requires period > 0
    ensures expiry <= now ==> next > now && next - period <= now
  {
    expiry + (Missed(expiry, period, now) + 1) * period
  }

  /** The catch-up loop stops at the one count that brackets `now`. */
  lemma MissedIsUnique(expiry: int, period: int, now: int, k: nat)
    requires period > 0 && expiry <= now
    requires expiry + k * period <= now < expiry + (k + 1) * period
    ensures k == Missed(expiry, period, now)
  {
    var m := Missed(expiry, period, now);
    assert m * period <= now - expiry < (m + 1) * period;
    if k < m {
      MulMonotone(k + 1, m, period);
    } else if m < k {
      MulMonotone(m + 1, k, period);
    }
  }

  /** A popped timer at the moment its callback starts. */
  function FiringTimer(t: Timer, now: int, tick: nat): Timer
    requires tick > 0
  {
    if t.Repeats() && t.mode.FixedRate? then
      var next := NextDeadline(t.expiry, t.period, now);
      t.(expiry := next, expiryTick := TickOf(next, tick))
    else t.(state := InCallback)
  }

  function FiredEvent(id: nat, t: Timer, now: int): Event
  {
    Fired(id, t.expiry, now,
          if t.Repeats() && t.mode.FixedRate? then Missed(t.expiry, t.period, now) else 0, t.period, t.mode)
  }

  function BeginFireIn(b: Book, id: nat, now: int, tick: nat): Book
    requires id in b.timers && tick > 0
  {
    b.(timers := b.timers[id := FiringTimer(b.timers[id], now, tick)], log := b.log + [FiredEvent(id, b.timers[id], now)])
  }

  lemma BeginFireKeeps(b: Book, tick: nat, linked: set<Node>, id: nat, now: int)
    requires id in b.timers && b.timers[id].state.Armed? && b.timers[id].expiry <= now
    requires NodeOf(id, b.timers[id]) !in linked && BookHolds(b, tick, linked + {NodeOf(id, b.timers[id])})
    ensures var r := BeginFireIn(b, id, now, tick);
            BookHolds(r, tick, linked + NodesOf(id, r.timers[id]))
  {
    hide LinksMatch, GroupsMatch, DeadMatches, HistorySafe, HistoryMatches, TicksMatch, RatesMatch, TickOf, Missed;
    var t := b.timers[id];
    var r := BeginFireIn(b, id, now, tick);
    var t', e := r.timers[id], FiredEvent(id, t, now);
    SetTimerLinks(b.timers, linked + {NodeOf(id, t)}, id, t');
    assert linked + {NodeOf(id, t)} - LinkedNode(b.timers, id) + NodesOf(id, t') == linked + NodesOf(id, t');
    SetTimerGroups(b.timers, b.groups, id, t');
    SetTimerDead(b.timers, b.dead, id, t');
    Record(b.log, b.timers, b.nextId, e);
    RecordMatches(b.log, b.timers, b.nextId, e, t');
    TimerTick(b.timers, tick, id);
    SetTimerTicks(b.timers, tick, id, t');
    if Rated(e) {
      FiringRates(b.log, b.timers, e, t');
    } else {
      PlainRates(b.log, b.timers, e, t');
    }
  }

  /** After the callback: a fixed-delay timer is armed again, a one-shot is done, unless withdrawn. */
  function EndFireIn(b: Book, id: nat, now: int, tick: nat): Book
    requires id in b.timers && tick > 0
  {
    var t := b.timers[id];
    if t.state.Cancelled? then b
    else if !t.Repeats() then
      b.(timers := b.timers[id := t.(state := Done)], groups := Leave(b.groups, id, t.home), dead := b.dead + [id])
    else if t.mode.FixedDelay? then
      b.(timers := b.timers[id := t.(expiry := now + t.period, expiryTick := TickOf(now + t.period, tick), state := Armed)])
    else b
  }

  lemma EndFireKeeps(b: Book, tick: nat, linked: set<Node>, id: nat, now: int)
    requires BookHolds(b, tick, linked) && id in b.timers && !b.timers[id].state.Done?
    requires b.timers[id].state.Armed? ==> b.timers[id].Repeats() && b.timers[id].mode.FixedRate?
    ensures var r := EndFireIn(b, id, now, tick);
            BookHolds(r, tick, linked + NodesOf(id, r.timers[id]))
  {
    var t := b.timers[id];
    assert NodesOf(id, t) <= linked;
    if !t.state.Cancelled? && !t.Repeats() {
      FinishKeeps(b, tick, linked, id);
      assert linked + {} == linked;
    } else if !t.state.Cancelled? && t.mode.FixedDelay? {
      RearmKeeps(b, tick, linked, id, now);
    } else {
      assert linked + NodesOf(id, t) == linked;
    }
  }

  lemma FinishKeeps(b: Book, tick: nat, linked: set<Node>, id: nat)
    requires BookHolds(b, tick, linked) && id in b.timers && b.timers[id].state.InCallback? && !b.timers[id].Repeats()
    ensures BookHolds(EndFireIn(b, id, 0, tick), tick, linked)
  {
    var t' := b.timers[id].(state := Done);
    SetTimerLinks(b.timers, linked, id, t');
    assert linked - LinkedNode(b.timers, id) + NodesOf(id, t') == linked;
    LeaveGroups(b.timers, b.groups, id, t');
  }

  lemma RearmKeeps(b: Book, tick: nat, linked: set<Node>, id: nat, now: int)
    requires BookHolds(b, tick, linked) && id in b.timers && b.timers[id].state.InCallback?
    requires b.timers[id].Repeats() && b.timers[id].mode.FixedDelay?
    ensures var r := EndFireIn(b, id, now, tick);
            BookHolds(r, tick, linked + NodesOf(id, r.timers[id]))
  {
    var t' := EndFireIn(b, id, now, tick).timers[id];
    SetTimerLinks(b.timers, linked, id, t');
    assert linked - LinkedNode(b.timers, id) + NodesOf(id, t') == linked + NodesOf(id, t');
    SetTimerGroups(b.timers, b.groups, id, t');
  }

  // ---- group cancellation

  /** The first member of a group can be withdrawn, and leaves the rest of the group in place. */
  lemma FirstMember(b: Book, tick: nat, linked: set<Node>, g: nat)
    requires BookHolds(b, tick, linked) && g in b.groups && b.groups[g] != []
    ensures var id := b.groups[g][0];
            && Withdrawable(b, id) && id !in b.groups[g][1..]
            && CancelIn(b, id).groups[g] == b.groups[g][1..] && CancelIn(b, id).groups.Keys == b.groups.Keys
  {
    assert GroupMatches(b.timers, g, b.groups[g]);
    assert b.groups[g][0] in b.groups[g];
  }

  /** Cancelling a group withdraws exactly its members and empties it. */
  lemma {:induction false} CancelGroupWithdraws(b: Book, tick: nat, linked: set<Node>, g: nat)
    requires BookHolds(b, tick, linked) && g in b.groups
    ensures var r := CancelAllIn(b, b.groups[g]);
            && r.timers.Keys == b.timers.Keys && r.groups.Keys == b.groups.Keys && r.groups[g] == []
            && r.dead == b.dead + b.groups[g]
            && (forall id :: id in b.timers ==>
                  r.timers[id] == if id in b.groups[g] then b.timers[id].(state := Cancelled) else b.timers[id])
    decreases |b.groups[g]|
  {
    hide BookHolds, Leave;
    if b.groups[g] != [] {
      var id := b.groups[g][0];
      FirstMember(b, tick, linked, g);
      CancelKeeps(b, tick, linked, id);
      CancelGroupWithdraws(CancelIn(b, id), tick, linked - {NodeOf(id, b.timers[id])}, g);
      assert b.groups[g] == [id] + b.groups[g][1..];
      assert b.dead + b.groups[g] == b.dead + [id] + b.groups[g][1..];
    }
  }

  // ---- what callbacks leave in place

  ghost predicate Continues(t: Timer, t': Timer)
  {
    && t'.period == t.period && t'.mode == t.mode && t'.home == t.home && t'.precise == t.precise
    && (t'.state == t.state || t'.state.Cancelled?)
  }

  /** No timer disappears or changes its nature; it may be withdrawn or get a new deadline. */
  ghost predicate Evolves(b: Book, b': Book)
  {
    && (forall id :: id in b.timers ==> id in b'.timers && Continues(b.timers[id], b'.timers[id]))
    && b.log <= b'.log
  }
}
