/** What stays true of a timer over whole runs: a firing is recorded once and settles its timer, identities
    are not reused, and what has ended never fires again. */
module TimerLaws {
  import opened Basics
  import opened Arith
  import opened TimerWheels
  import opened TimerBook
  import opened TimerAgenda
  import opened TimerCalls
  import opened EventManagers

  // ---- what stays true of a timer

  /** Over for good: withdrawn, completed, or released. */
  predicate Ended(a: Agenda, id: nat) { id in a.book.timers ==> !a.book.timers[id].Member() }

  /** Exactly the armed timers have appointments, only one-shots complete, only what ended awaits release,
      and new identities are new. */
  ghost predicate Consistent(a: Agenda)
  {
    && (forall id :: id in a.plan <==> id in a.book.timers && a.book.timers[id].state.Armed?)
    && (forall id :: id in a.book.timers ==>
          id < a.book.nextId && (a.book.timers[id].state.Done? ==> !a.book.timers[id].Repeats()))
    && (forall id :: id in a.book.dead ==> id in a.book.timers && !a.book.timers[id].Member())
  }

  predicate IsFiring(e: Event, id: nat) { e.Fired? && e.id == id }

  /** One agenda after another: no identity comes back, no timer changes its group, and what has ended
      stays so and does not fire. */
  ghost predicate Later(a: Agenda, b: Agenda)
  {
    && a.book.nextId <= b.book.nextId && a.book.log <= b.book.log
    && (forall id: nat :: id < a.book.nextId && id in b.book.timers ==>
          id in a.book.timers && b.book.timers[id].home == a.book.timers[id].home)
    && (forall id: nat :: id < a.book.nextId && Ended(a, id) ==> Ended(b, id) && Silent(a, b, id))
  }

  ghost predicate Silent(a: Agenda, b: Agenda, id: nat)
  {
    forall i :: |a.book.log| <= i < |b.book.log| ==> !IsFiring(b.book.log[i], id)
  }

  lemma LaterTransitive(a: Agenda, b: Agenda, c: Agenda)
    requires Later(a, b) && Later(b, c)
    ensures Later(a, c)
  {
    hide Ended, IsFiring;
    forall id: nat | id < a.book.nextId && Ended(a, id) ensures Ended(c, id) && Silent(a, c, id) {
      assert Ended(b, id) && Silent(a, b, id) && Silent(b, c, id);
      forall i | |a.book.log| <= i < |c.book.log| ensures !IsFiring(c.book.log[i], id) {
        assert i < |b.book.log| ==> b.book.log[i] == c.book.log[i];
      }
    }
  }

  /** No call removes a timer or changes its state but to withdraw it. */
  ghost predicate StatesStay(a: Agenda, b: Agenda)
  {
    forall id :: id in a.book.timers ==> id in b.book.timers && Continues(a.book.timers[id], b.book.timers[id])
  }

  ghost predicate Followed(a: Agenda, b: Agenda) { Consistent(b) && Later(a, b) && StatesStay(a, b) }

  lemma FollowedTransitive(a: Agenda, b: Agenda, c: Agenda)
    requires Followed(a, b) && Followed(b, c)
    ensures Followed(a, c)
  {
    hide Later, Consistent;
    LaterTransitive(a, b, c);
  }

  lemma CancelFollows(a: Agenda, id: nat)
    requires Consistent(a)
    ensures Followed(a, CancelAt(a, id))
  {
  }

  lemma {:induction false} CancelAllFollows(a: Agenda, ids: seq<nat>)
    requires Consistent(a)
    ensures Followed(a, CancelAllAt(a, ids))
    decreases ids
  {
    if ids != [] {
      hide Consistent, Later, StatesStay, CancelAt;
      CancelFollows(a, ids[0]);
      CancelAllFollows(CancelAt(a, ids[0]), ids[1..]);
      FollowedTransitive(a, CancelAt(a, ids[0]), CancelAllAt(a, ids));
    }
  }

  lemma ArmFollows(a: Agenda, c: Clock, expiry: int, period: int, mode: RepeatMode, home: Option<nat>, precise: bool)
    requires c.tick > 0 && Consistent(a)
    ensures Followed(a, ArmAt(a, c, expiry, period, mode, home, precise))
  {
    hide TickOf, Effective;
  }

  lemma MoveFollows(a: Agenda, c: Clock, id: nat, delay: int)
    requires c.tick > 0 && Consistent(a) && id in a.plan
    ensures Followed(a, RescheduleAt(a, c, id, delay))
  {
    hide TickOf, Effective;
  }

  lemma MakeGroupFollows(a: Agenda)
    requires Consistent(a)
    ensures Followed(a, a.(book := MakeGroupIn(a.book)))
  {
  }

  lemma CallFollows(a: Agenda, c: Clock, op: Op)
    requires c.tick > 0 && Consistent(a)
    ensures Followed(a, CallAt(a, c, op))
  {
    hide Followed, CancelAllAt, ArmAt, RescheduleAt, CancelAt, MakeGroupIn;
    match op
    case OpArm(expiry, period, mode, home, precise) => ArmFollows(a, c, expiry, period, mode, home, precise);
    case OpCancel(id) => CancelFollows(a, id);
    case OpCancelGroup(g) =>
      if g in a.book.groups {
        CancelAllFollows(a, a.book.groups[g]);
      } else {
        FollowsItself(a);
      }
    case OpReschedule(id, delay) =>
      if id in a.plan {
        MoveFollows(a, c, id, delay);
      } else {
        FollowsItself(a);
      }
    case OpMakeGroup => MakeGroupFollows(a);
  }

  lemma {:induction false} CallsFollow(a: Agenda, c: Clock, script: seq<Op>)
    requires c.tick > 0 && Consistent(a)
    ensures Followed(a, CallsAt(a, c, script))
  {
    hide Consistent, Later, StatesStay, CallAt;
    if script == [] {
      FollowsItself(a);
    } else {
      var n := |script| - 1;
      var b := CallsAt(a, c, script[..n]);
      CallsFollow(a, c, script[..n]);
      CallFollows(b, c, script[n]);
      FollowedTransitive(a, b, CallsAt(a, c, script));
    }
  }

  lemma FollowsItself(a: Agenda)
    requires Consistent(a)
    ensures Followed(a, a)
  {
  }

  // ---- one firing

  /** While its callback runs: linked again at fixed rate, else out of the plan. */
  ghost predicate Firing(t: Timer)
  {
    t.state.InCallback? || t.state.Cancelled? || (t.state.Armed? && t.Repeats() && t.mode.FixedRate?)
  }

  lemma BeginFollows(a: Agenda, c: Clock, id: nat)
    requires c.tick > 0 && Consistent(a) && id in a.plan
    ensures var b := BeginAt(a, c, id);
            Consistent(b) && Later(a, b) && id in b.book.timers && Firing(b.book.timers[id])
  {
    hide TickOf, Effective, NextDeadline, Missed;
  }

  lemma EndFollows(a: Agenda, c: Clock, id: nat)
    requires c.tick > 0 && Consistent(a) && id in a.book.timers && Firing(a.book.timers[id])
    ensures Consistent(EndAt(a, c, id)) && Later(a, EndAt(a, c, id))
  {
    hide TickOf, Effective, Leave;
  }

  lemma FireFollows(a: Agenda, c: Clock, id: nat, script: seq<Op>)
    requires c.tick > 0 && Consistent(a) && id in a.plan
    ensures Consistent(FireAt(a, c, id, script)) && Later(a, FireAt(a, c, id, script))
  {
    hide Consistent, Later, BeginAt, EndAt, CallsAt;
    var b := BeginAt(a, c, id);
    var d := CallsAt(b, c, script);
    BeginFollows(a, c, id);
    CallsFollow(b, c, script);
    EndFollows(d, c, id);
    LaterTransitive(a, b, d);
    LaterTransitive(a, d, EndAt(d, c, id));
  }

  /** What a firing means for its own timer: it is recorded once, first, at the current instant and with its
      deadline; afterwards a one-shot is over, a fixed-delay timer is due one period after this instant,
      and one withdrawn by its callback has no appointment. */
  ghost predicate FiredOnce(a: Agenda, c: Clock, id: nat, b: Agenda)
    requires id in a.book.timers
  {
    var t := a.book.timers[id];
    && |a.book.log| < |b.book.log| && a.book.log == b.book.log[..|a.book.log|]
    && (var e := b.book.log[|a.book.log|];
        && IsFiring(e, id) && e.scheduled == t.expiry && e.at == c.now && e.period == t.period && e.mode == t.mode
        && if t.Repeats() && t.mode.FixedRate?
           then t.expiry <= c.now ==> t.expiry + e.missed * t.period <= c.now < t.expiry + (e.missed + 1) * t.period
           else e.missed == 0)
    && id in b.book.timers && var t' := b.book.timers[id];
    && t'.home == t.home && t'.period == t.period && t'.mode == t.mode && t'.precise == t.precise
    && (t'.state.Cancelled? ==> id !in b.plan)
    && (!t'.state.Cancelled? && !t.Repeats() ==> t'.state.Done? && id !in b.plan)
    && (!t'.state.Cancelled? && t.Repeats() ==> t'.state.Armed? && id in b.plan)
    && (!t'.state.Cancelled? && t.Repeats() && t.mode.FixedDelay? ==>
          t'.expiry == c.now + t.period && (0 <= t'.expiry ==> OnTime(b.plan[id], c, t'.expiry, t.precise)))
  }

  /** What a firing at fixed rate means: the next deadline is the first one after this instant that is whole
      periods from the old one, and the timer has that appointment before its callback runs. */
  lemma RateMeans(a: Agenda, c: Clock, id: nat)
    requires c.tick > 0 && Consistent(a) && id in a.plan && a.book.timers[id].expiry <= c.now
    requires a.book.timers[id].Repeats() && a.book.timers[id].mode.FixedRate?
    ensures var t, b := a.book.timers[id], BeginAt(a, c, id);
            && id in b.book.timers && id in b.plan
            && var t' := b.book.timers[id];
            && (exists k: nat :: k > 0 && t'.expiry == t.expiry + k * t.period) && t'.expiry - t.period <= c.now < t'.expiry
            && (0 <= t'.expiry ==> OnTime(b.plan[id], c, t'.expiry, t.precise))
  {
    hide TickOf, Effective, OnTime, Missed;
    var t := a.book.timers[id];
    var next := NextDeadline(t.expiry, t.period, c.now);
    assert next == t.expiry + (Missed(t.expiry, t.period, c.now) + 1) * t.period;
    if 0 <= next {
      EffectiveIsOnTime(c, next, t.precise);
    }
  }

  lemma FireMeans(a: Agenda, c: Clock, id: nat, script: seq<Op>)
    requires c.tick > 0 && Consistent(a) && id in a.plan
    ensures FiredOnce(a, c, id, FireAt(a, c, id, script))
  {
    hide Consistent, Later, BeginAt, EndAt, CallsAt, OnTime, Missed;
    var b := BeginAt(a, c, id);
    var d := CallsAt(b, c, script);
    BeginFollows(a, c, id);
    BeginMeans(a, c, id);
    MissedBrackets(a.book.timers[id], c.now);
    CallsFollow(b, c, script);
    LogsOn(b, d);
    EndFollows(d, c, id);
    EndMeans(d, c, id);
  }

  lemma MissedBrackets(t: Timer, now: int)
    ensures t.Repeats() && t.expiry <= now ==>
              var k := Missed(t.expiry, t.period, now);
              t.expiry + k * t.period <= now < t.expiry + (k + 1) * t.period
  {
    if t.Repeats() && t.expiry <= now {
      DivBounds(now - t.expiry, t.period);
      MulDistributes(Missed(t.expiry, t.period, now), 1, t.period);
    }
  }

  lemma LogsOn(a: Agenda, b: Agenda)
    requires Later(a, b)
    ensures a.book.log <= b.book.log
  {
  }

  lemma BeginMeans(a: Agenda, c: Clock, id: nat)
    requires c.tick > 0 && Consistent(a) && id in a.plan
    ensures id in a.book.timers && id in BeginAt(a, c, id).book.timers
    ensures var t, b := a.book.timers[id], BeginAt(a, c, id);
            var t' := b.book.timers[id];
            && b.book.log == a.book.log + [FiredEvent(id, t, c.now)]
            && t'.home == t.home && t'.period == t.period && t'.mode == t.mode && t'.precise == t.precise
            && (t'.state.Armed? <==> t.Repeats() && t.mode.FixedRate?)
  {
    hide TickOf, Effective, NextDeadline, Missed;
  }

  lemma EndMeans(a: Agenda, c: Clock, id: nat)
    requires c.tick > 0 && Consistent(a) && id in a.book.timers && Firing(a.book.timers[id])
    ensures id in EndAt(a, c, id).book.timers
    ensures var t, b := a.book.timers[id], EndAt(a, c, id);
            var t' := b.book.timers[id];
            && b.book.log == a.book.log
            && t'.home == t.home && t'.period == t.period && t'.mode == t.mode && t'.precise == t.precise
            && (t.state.Cancelled? ==> t' == t && id !in b.plan)
            && (!t.state.Cancelled? && !t.Repeats() ==> t'.state.Done? && id !in b.plan)
            && (!t.state.Cancelled? && t.Repeats() && t.mode.FixedDelay? ==>
                  t'.state.Armed? && id in b.plan && t'.expiry == c.now + t.period
                  && (0 <= t'.expiry ==> OnTime(b.plan[id], c, t'.expiry, t.precise)))
            && (t.state.Armed? ==> t' == t && id in b.plan)
  {
    hide TickOf, Effective, Leave, OnTime;
    var t := a.book.timers[id];
    if 0 <= c.now + t.period {
      EffectiveIsOnTime(c, c.now + t.period, t.precise);
    }
  }

  // ---- whole runs

  ghost predicate After(a: Agenda, b: Agenda) { Consistent(b) && Later(a, b) }

  lemma AfterTransitive(a: Agenda, b: Agenda, c: Agenda)
    requires After(a, b) && After(b, c)
    ensures After(a, c)
  {
    hide Consistent, Later;
    LaterTransitive(a, b, c);
  }

  lemma {:induction false} FireAllFollows(a: Agenda, c: Clock, shots: seq<Shot>, scripts: seq<seq<Op>>, k: nat)
    requires c.tick > 0 && Consistent(a) && AllDue(a, c, shots, scripts, k)
    ensures After(a, FireAllAt(a, c, shots, scripts, k))
    decreases |shots|
  {
    hide Consistent, Later, FireAt, FireAllAt, AllDue;
    FireAllEnds(a, c, shots, scripts, k);
    if shots == [] {
      FollowsItself(a);
    } else {
      var n := |shots| - 1;
      DueBefore(a, c, shots, scripts, k);
      FireAllFollows(a, c, shots[..n], scripts, k);
      var b := FireAllAt(a, c, shots[..n], scripts, k);
      FireFollows(b, c.(wheelTick := shots[n].wheelTick), shots[n].id, ScriptAt(scripts, k + n));
      AfterTransitive(a, b, FireAllAt(a, c, shots, scripts, k));
    }
  }

  lemma AnchorFollows(d: Desk, target: nat)
    requires Consistent(d.agenda)
    ensures After(d.agenda, PollStart(d, target))
  {
  }

  lemma ReclaimFollows(a: Agenda)
    requires Consistent(a)
    ensures After(a, ReclaimAt(a))
  {
  }

  lemma PollFollows(d: Desk, mid: Desk, d': Desk, clock: int, tick: nat, posted: seq<Op>, scripts: seq<seq<Op>>,
                    rest: seq<Op>, shots: seq<Shot>)
    requires Polled(d, mid, d', clock, tick, posted, scripts, rest, shots) && Consistent(d.agenda)
    ensures After(d.agenda, d'.agenda)
  {
    hide Consistent, Later, CallsAt, ReclaimAt, FireAllAt, AllDue, PollStart, InTickOrder, DueBy, StopTick, NoTicks,
      ExpiresExactly;
    var ready := Called(d.(now := clock), tick, posted);
    CallsFollow(d.agenda, Clock(tick, clock, d.wheelTick), posted);
    var target := clock / tick;
    var start := PollStart(ready, target);
    AnchorFollows(ready, target);
    AfterTransitive(d.agenda, ready.agenda, start);
    FireAllFollows(start, Clock(tick, clock, 0), shots, scripts, 0);
    AfterTransitive(d.agenda, start, mid.agenda);
    var late := Called(mid, tick, rest).agenda;
    CallsFollow(mid.agenda, Clock(tick, clock, mid.wheelTick), rest);
    AfterTransitive(d.agenda, mid.agenda, late);
    ReclaimFollows(late);
    AfterTransitive(d.agenda, late, ReclaimAt(late));
  }

  lemma StepFollows(d: Desk, command: Command, d': Desk, tick: nat)
    requires Stepped(d, command, d', tick) && Consistent(d.agenda)
    ensures After(d.agenda, d'.agenda)
  {
    hide Consistent, Later, Polled, CallAt;
    match command
    case Call(op) => CallFollows(d.agenda, Clock(tick, d.now, d.wheelTick), op);
    case PollAt(clock, posted, scripts, rest) =>
      var mid: Desk, shots: seq<Shot> :| Polled(d, mid, d', clock, tick, posted, scripts, rest, shots);
      PollFollows(d, mid, d', clock, tick, posted, scripts, rest, shots);
  }

  /** Over any stretch of any run: no identity comes back, and what has ended stays so and does not fire. */
  lemma {:induction false} RunFollows(states: seq<Desk>, commands: seq<Command>, tick: nat, start: int, i: nat, j: nat)
    requires IsRun(states, commands, tick, start) && i <= j < |states|
    ensures Consistent(states[i].agenda) && After(states[i].agenda, states[j].agenda)
    decreases j
  {
    hide Consistent, Later, Stepped, AgendaHolds;
    if j == 0 {
      EmptyIsConsistent();
      FollowsItself(states[0].agenda);
    } else if i == j {
      RunFollows(states, commands, tick, start, i - 1, j - 1);
      assert Stepped(states[j - 1], commands[j - 1], states[j], tick);
      StepFollows(states[j - 1], commands[j - 1], states[j], tick);
      FollowsItself(states[j].agenda);
    } else {
      RunFollows(states, commands, tick, start, i, j - 1);
      assert Stepped(states[j - 1], commands[j - 1], states[j], tick);
      StepFollows(states[j - 1], commands[j - 1], states[j], tick);
      AfterTransitive(states[i].agenda, states[j - 1].agenda, states[j].agenda);
    }
  }

  lemma EmptyIsConsistent()
    ensures Consistent(Agenda(Book(map[], map[], [], [], 0, 0), map[]))
  {
  }

  /** In every run every call means what it is for. */
  lemma RunCallsMean(states: seq<Desk>, commands: seq<Command>, tick: nat, start: int, i: nat)
    requires IsRun(states, commands, tick, start) && i < |commands| && commands[i].Call?
    ensures var d := states[i];
            Means(d.agenda, Clock(tick, d.now, d.wheelTick), commands[i].op, states[i + 1].agenda)
  {
    hide Means, CallAt, BookHolds, AgendaHolds;
    var d := states[i];
    assert Stepped(d, commands[i], states[i + 1], tick) && Sound(d.agenda, tick);
    var linked: set<Node> :| BookHolds(d.agenda.book, tick, linked);
    CallMeans(d.agenda, Clock(tick, d.now, d.wheelTick), commands[i].op, linked);
  }

  /** In every run: once a group was cancelled, no timer armed into it before that has an appointment or
      fires any more, whatever is called and whatever the clock does. */
  lemma GroupCancelIsFinal(states: seq<Desk>, commands: seq<Command>, tick: nat, start: int, i: nat, k: nat, m: nat, g: nat)
    requires IsRun(states, commands, tick, start) && i < k < m < |states|
    requires commands[i].Call? && commands[i].op.OpArm? && commands[i].op.home == Some(g) && g in states[i].agenda.book.groups
    requires commands[k] == Call(OpCancelGroup(g))
    ensures var id := states[i].agenda.book.nextId;
            && id !in states[m].agenda.plan && states[k + 1].agenda.book.log <= states[m].agenda.book.log
            && Silent(states[k + 1].agenda, states[m].agenda, id)
  {
    hide Consistent, Later, Means, CallAt, Stepped, Sound, Ended, Silent;
    var id := states[i].agenda.book.nextId;
    RunCallsMean(states, commands, tick, start, i);
    RunFollows(states, commands, tick, start, i + 1, k);
    JoinedIsHome(states[i].agenda, Clock(tick, states[i].now, states[i].wheelTick), commands[i].op, states[i + 1].agenda, g);
    RunCallsMean(states, commands, tick, start, k);
    RunFollows(states, commands, tick, start, k, k + 1);
    RunFollows(states, commands, tick, start, k + 1, m);
    assert Sound(states[k].agenda, tick);
    HomesAreKnown(states[k].agenda, tick);
    GroupEnds(states[i + 1].agenda, states[k].agenda, Clock(tick, states[k].now, states[k].wheelTick), states[k + 1].agenda,
              g, id);
    EndedStays(states[k + 1].agenda, states[m].agenda, id);
  }

  lemma JoinedIsHome(a: Agenda, c: Clock, op: Op, b: Agenda, g: nat)
    requires op.OpArm? && op.home == Some(g) && g in a.book.groups && Means(a, c, op, b) && Consistent(b)
    ensures var id := a.book.nextId;
            id in b.book.timers && id < b.book.nextId && b.book.timers[id].home == Some(g)
  {
    hide OnTime;
  }

  lemma HomesAreKnown(a: Agenda, tick: nat)
    requires Sound(a, tick)
    ensures forall i :: i in a.book.timers && a.book.timers[i].home.Some? ==> a.book.timers[i].home.value in a.book.groups
  {
    var linked: set<Node> :| BookHolds(a.book, tick, linked);
  }

  lemma GroupEnds(a: Agenda, b: Agenda, c: Clock, d: Agenda, g: nat, id: nat)
    requires id in a.book.timers && id < a.book.nextId && a.book.timers[id].home == Some(g)
    requires Later(a, b) && Later(b, d) && Means(b, c, OpCancelGroup(g), d)
    requires forall i :: i in b.book.timers && b.book.timers[i].home.Some? ==> b.book.timers[i].home.value in b.book.groups
    ensures id < d.book.nextId && Ended(d, id)
  {
  }

  lemma EndedStays(a: Agenda, b: Agenda, id: nat)
    requires After(a, b) && id < a.book.nextId && Ended(a, id)
    ensures id !in b.plan && a.book.log <= b.book.log && Silent(a, b, id)
  {
    assert Ended(b, id);
  }

  /** In every run: a timer that was cancelled has no appointment and does not fire any more. */
  lemma CancelIsFinal(states: seq<Desk>, commands: seq<Command>, tick: nat, start: int, k: nat, m: nat, id: nat)
    requires IsRun(states, commands, tick, start) && k < m < |states| && commands[k] == Call(OpCancel(id))
    requires id < states[k].agenda.book.nextId
    ensures id !in states[m].agenda.plan && states[k + 1].agenda.book.log <= states[m].agenda.book.log
    ensures Silent(states[k + 1].agenda, states[m].agenda, id)
  {
    hide Consistent, Later, Means, CallAt, Stepped, Sound, Ended, Silent;
    RunCallsMean(states, commands, tick, start, k);
    RunFollows(states, commands, tick, start, k, k + 1);
    RunFollows(states, commands, tick, start, k + 1, m);
    CancelEnds(states[k].agenda, Clock(tick, states[k].now, states[k].wheelTick), states[k + 1].agenda, id);
    EndedStays(states[k + 1].agenda, states[m].agenda, id);
  }

  lemma CancelEnds(a: Agenda, c: Clock, b: Agenda, id: nat)
    requires Later(a, b) && Means(a, c, OpCancel(id), b) && id < a.book.nextId
    ensures id < b.book.nextId && Ended(b, id)
  {
  }
}
