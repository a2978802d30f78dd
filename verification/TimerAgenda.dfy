/** The timers as a plain list of appointments: for every armed timer the one time at which it is to
    fire. What each call, each firing and each poll does to it, without wheel or heap. */
module TimerAgenda {
  import opened Basics
  import opened Lists
  import opened WheelPlacement
  import opened TimerWheels
  import opened TimerBook

  /** An effective time: a tick of the coarse clock, or an exact deadline. */
  datatype When = AtTick(t: nat) | AtTime(time: int)

  datatype Agenda = Agenda(book: Book, plan: map<nat, When>)

  /** The granularity, the current instant, and how far the coarse clock has got. */
  datatype Clock = Clock(tick: nat, now: int, wheelTick: nat)

  /** Deadlines that fit are rounded up to a tick, and never to one the coarse clock has reached; precise
      and very far ones are exact. */
  function Effective(c: Clock, expiry: int, precise: bool): When
    requires c.tick > 0
  {
    var t := TickOf(expiry, c.tick);
    if Fits(t, c.wheelTick) && !precise then AtTick(Max(t, c.wheelTick + 1)) else AtTime(expiry)
  }

  /** When a timer is to fire, in terms of its deadline alone: exactly then if it must be precise or lies
      beyond the coarse horizon; else at the next tick if the coarse clock has reached the deadline, and
      at the first tick not before it if not. */
  ghost predicate OnTime(w: When, c: Clock, expiry: int, precise: bool)
  {
    var exact := precise || expiry > (c.wheelTick + HORIZON - 1) * c.tick;
    match w
    case AtTime(time) => exact && time == expiry
    case AtTick(t) =>
      !exact && if expiry <= c.wheelTick * c.tick then t == c.wheelTick + 1 else (t - 1) * c.tick < expiry <= t * c.tick
  }

  /** The effective time is the one time that is on time; so a coarse appointment made before its tick lies
      less than one tick after its deadline. */
  lemma EffectiveIsOnTime(c: Clock, expiry: int, precise: bool)
    requires c.tick > 0 && 0 <= expiry
    ensures OnTime(Effective(c, expiry, precise), c, expiry, precise)
    ensures forall w: When :: OnTime(w, c, expiry, precise) ==> w == Effective(c, expiry, precise)
  {
    var t := TickOf(expiry, c.tick);
    TickIsCeiling(expiry, c.tick);
    TickAtMost(expiry, c.tick, t, c.wheelTick + HORIZON - 1);
    TickAtMost(expiry, c.tick, t, c.wheelTick);
    forall w: When | OnTime(w, c, expiry, precise) ensures w == Effective(c, expiry, precise) {
      if w.AtTick? && expiry > c.wheelTick * c.tick {
        TickAtMost(expiry, c.tick, t, w.t);
        TickAtMost(expiry, c.tick, w.t, t);
      }
    }
  }

  predicate DueBy(w: When, limit: int, now: int)
  {
    match w
    case AtTick(t) => t <= limit
    case AtTime(time) => time <= now
  }

  ghost function DueIds(plan: map<nat, When>, limit: int, now: int): set<nat>
  {
    set id | id in plan && DueBy(plan[id], limit, now)
  }

  // ---- what calls do

  function ArmAt(a: Agenda, c: Clock, expiry: int, period: int, mode: RepeatMode, home: Option<nat>, precise: bool): Agenda
    requires c.tick > 0
  {
    Agenda(ArmIn(a.book, expiry, TickOf(expiry, c.tick), period, mode, home, precise),
           a.plan[a.book.nextId := Effective(c, expiry, precise)])
  }

  function CancelAt(a: Agenda, id: nat): Agenda
  {
    if Withdrawable(a.book, id) then Agenda(CancelIn(a.book, id), a.plan - {id}) else a
  }

  function CancelAllAt(a: Agenda, ids: seq<nat>): Agenda
    decreases ids
  {
    if ids == [] then a else CancelAllAt(CancelAt(a, ids[0]), ids[1..])
  }

  function CancelGroupAt(a: Agenda, g: nat): Agenda
  {
    if g in a.book.groups then CancelAllAt(a, a.book.groups[g]) else a
  }

  function RescheduleAt(a: Agenda, c: Clock, id: nat, delay: int): Agenda
    requires c.tick > 0 && id in a.book.timers
  {
    Agenda(RescheduleIn(a.book, id, c.now + delay, TickOf(c.now + delay, c.tick)),
           a.plan[id := Effective(c, c.now + delay, a.book.timers[id].precise)])
  }

  /** One call. Rescheduling takes effect on armed timers; on a timer that is in its callback or done
      the source goes wrong (see the SpentTimers module), and such calls are passed over here. */
  function CallAt(a: Agenda, c: Clock, op: Op): Agenda
    requires c.tick > 0
  {
    match op
    case OpArm(expiry, period, mode, home, precise) => ArmAt(a, c, expiry, period, mode, home, precise)
    case OpCancel(id) => CancelAt(a, id)
    case OpCancelGroup(g) => CancelGroupAt(a, g)
    case OpReschedule(id, delay) =>
      if id in a.book.timers && a.book.timers[id].state.Armed? then RescheduleAt(a, c, id, delay) else a
    case OpMakeGroup => a.(book := MakeGroupIn(a.book))
  }

  function CallsAt(a: Agenda, c: Clock, script: seq<Op>): Agenda
    requires c.tick > 0
  {
    if script == [] then a else CallAt(CallsAt(a, c, script[..|script| - 1]), c, script[|script| - 1])
  }

  // ---- what firings do

  /** Before the callback: a fixed-rate timer has its next appointment, any other has none. */
  function BeginAt(a: Agenda, c: Clock, id: nat): Agenda
    requires c.tick > 0
  {
    if id !in a.book.timers then a else
    var t := FiringTimer(a.book.timers[id], c.now, c.tick);
    Agenda(BeginFireIn(a.book, id, c.now, c.tick),
           if t.state.Armed? then a.plan[id := Effective(c, t.expiry, t.precise)] else a.plan - {id})
  }

  predicate Rearms(t: Timer) { t.Repeats() && t.mode.FixedDelay? && !t.state.Cancelled? }

  /** After the callback: a fixed-delay timer that was not withdrawn has its next appointment. */
  function EndAt(a: Agenda, c: Clock, id: nat): Agenda
    requires c.tick > 0
  {
    if id !in a.book.timers then a else
    var t := a.book.timers[id];
    Agenda(EndFireIn(a.book, id, c.now, c.tick),
           if Rearms(t) then a.plan[id := Effective(c, c.now + t.period, t.precise)] else a.plan)
  }

  function FireAt(a: Agenda, c: Clock, id: nat, script: seq<Op>): Agenda
    requires c.tick > 0
  {
    EndAt(CallsAt(BeginAt(a, c, id), c, script), c, id)
  }

  /** A firing and the coarse tick at which it happens. */
  datatype Shot = Shot(id: nat, wheelTick: nat)

  /** The callback of the k-th firing: what is left unsaid does nothing to timers. */
  function ScriptAt(scripts: seq<seq<Op>>, k: nat): seq<Op>
  {
    if k < |scripts| then scripts[k] else []
  }

  /** A run of firings; `k` callbacks ran before. */
  function FireAllAt(a: Agenda, c: Clock, shots: seq<Shot>, scripts: seq<seq<Op>>, k: nat): Agenda
    requires c.tick > 0
  {
    if shots == [] then a
    else
      var n := |shots| - 1;
      FireAt(FireAllAt(a, c, shots[..n], scripts, k), c.(wheelTick := shots[n].wheelTick), shots[n].id,
             ScriptAt(scripts, k + n))
  }

  /** The timer is due: at exactly this tick of the coarse clock, or by its exact deadline. */
  predicate ShotDue(a: Agenda, c: Clock, s: Shot)
    requires c.tick > 0
  {
    s.id in a.plan &&
    match a.plan[s.id]
    case AtTick(t) => t == s.wheelTick <= c.now / c.tick
    case AtTime(time) => time <= c.now
  }

  /** Each firing is of a timer that is due when its turn comes. */
  ghost predicate AllDue(a: Agenda, c: Clock, shots: seq<Shot>, scripts: seq<seq<Op>>, k: nat)
    requires c.tick > 0
  {
    forall i {:trigger shots[i]} :: 0 <= i < |shots| ==> ShotDue(FireAllAt(a, c, shots[..i], scripts, k), c, shots[i])
  }

  lemma OneMoreShot(a: Agenda, c: Clock, shots: seq<Shot>, scripts: seq<seq<Op>>, k: nat, s: Shot)
    requires c.tick > 0 && AllDue(a, c, shots, scripts, k)
    requires ShotDue(FireAllAt(a, c, shots, scripts, k), c, s)
    ensures AllDue(a, c, shots + [s], scripts, k)
    ensures FireAllAt(a, c, shots + [s], scripts, k) ==
            FireAt(FireAllAt(a, c, shots, scripts, k), c.(wheelTick := s.wheelTick), s.id, ScriptAt(scripts, k + |shots|))
  {
    hide FireAt, ShotDue;
    var all := shots + [s];
    assert all[..|shots|] == shots;
    forall i | 0 <= i < |all| ensures ShotDue(FireAllAt(a, c, all[..i], scripts, k), c, all[i]) {
      if i < |shots| {
        assert all[..i] == shots[..i];
        assert all[i] == shots[i];
      }
    }
  }

  lemma {:induction false} MoreShots(a: Agenda, c: Clock, first: seq<Shot>, second: seq<Shot>, scripts: seq<seq<Op>>, k: nat)
    requires c.tick > 0 && AllDue(a, c, first, scripts, k)
    requires AllDue(FireAllAt(a, c, first, scripts, k), c, second, scripts, k + |first|)
    ensures AllDue(a, c, first + second, scripts, k)
    ensures FireAllAt(a, c, first + second, scripts, k) ==
            FireAllAt(FireAllAt(a, c, first, scripts, k), c, second, scripts, k + |first|)
    decreases |second|
  {
    hide FireAt, ShotDue, AllDue, FireAllAt;
    var mid := FireAllAt(a, c, first, scripts, k);
    FireAllEnds(mid, c, second, scripts, k + |first|);
    if second == [] {
      assert first + second == first;
    } else {
      var n := |second| - 1;
      var before, last := second[..n], second[n];
      DueBefore(mid, c, second, scripts, k + |first|);
      MoreShots(a, c, first, before, scripts, k);
      OneMoreShot(a, c, first + before, scripts, k, last);
      assert first + before + [last] == first + second;
    }
  }

  lemma FireAllEnds(a: Agenda, c: Clock, shots: seq<Shot>, scripts: seq<seq<Op>>, k: nat)
    requires c.tick > 0
    ensures shots == [] ==> FireAllAt(a, c, shots, scripts, k) == a
    ensures shots != [] ==>
              var n := |shots| - 1;
              FireAllAt(a, c, shots, scripts, k) ==
              FireAt(FireAllAt(a, c, shots[..n], scripts, k), c.(wheelTick := shots[n].wheelTick), shots[n].id,
                     ScriptAt(scripts, k + n))
  {
  }

  lemma DueBefore(a: Agenda, c: Clock, shots: seq<Shot>, scripts: seq<seq<Op>>, k: nat)
    requires c.tick > 0 && AllDue(a, c, shots, scripts, k) && shots != []
    ensures var n := |shots| - 1;
            AllDue(a, c, shots[..n], scripts, k) && ShotDue(FireAllAt(a, c, shots[..n], scripts, k), c, shots[n])
  {
    hide FireAt, ShotDue;
    var n := |shots| - 1;
    var before := shots[..n];
    forall i | 0 <= i < n ensures ShotDue(FireAllAt(a, c, before[..i], scripts, k), c, before[i]) {
      assert before[..i] == shots[..i];
      assert before[i] == shots[i];
    }
  }

  // ---- polls whose callbacks leave timers alone

  /** Exactly the armed timers have an appointment, and it is not before their deadline. */
  ghost predicate AgendaHolds(a: Agenda, tick: nat)
  {
    && tick > 0 && TicksMatch(a.book.timers, tick)
    && (forall id :: id in a.plan <==> id in a.book.timers && a.book.timers[id].state.Armed?)
    && (forall id :: id in a.plan && id in a.book.timers ==> WhenHolds(a.plan[id], a.book.timers[id].expiry, tick))
  }

  predicate WhenHolds(w: When, expiry: int, tick: nat)
    requires tick > 0
  {
    match w
    case AtTick(t) => TickOf(expiry, tick) <= t
    case AtTime(time) => time == expiry
  }

  /** A timer that is due is past its deadline. */
  lemma DueIsLate(a: Agenda, c: Clock, s: Shot)
    requires AgendaHolds(a, c.tick) && 0 <= c.now && ShotDue(a, c, s)
    ensures s.id in a.plan && s.id in a.book.timers && a.book.timers[s.id].state.Armed? && a.book.timers[s.id].expiry <= c.now
    ensures DueBy(a.plan[s.id], c.now / c.tick, c.now)
  {
    hide TickOf;
    assert WhenHolds(a.plan[s.id], a.book.timers[s.id].expiry, c.tick);
    TickIsNotEarly(a.book.timers[s.id].expiry, c.tick, c.now);
  }

  /** An appointment made for a later deadline is not due yet. */
  lemma LaterIsNotDue(c: Clock, expiry: int, precise: bool)
    requires c.tick > 0 && 0 <= c.now < expiry
    ensures !DueBy(Effective(c, expiry, precise), c.now / c.tick, c.now)
    ensures WhenHolds(Effective(c, expiry, precise), expiry, c.tick)
  {
    hide TickOf;
    TickIsNotEarly(expiry, c.tick, c.now);
  }

  /** The agenda after one timer changed, with the appointment that fits its new state. */
  lemma SetAppointment(a: Agenda, tick: nat, id: nat, t: Timer, w: When, b: Agenda)
    requires AgendaHolds(a, tick) && t.expiryTick == TickOf(t.expiry, tick)
    requires b.book.timers == a.book.timers[id := t]
    requires if t.state.Armed? then b.plan == a.plan[id := w] && WhenHolds(w, t.expiry, tick) else b.plan == a.plan - {id}
    ensures AgendaHolds(b, tick)
  {
    hide TickOf, WhenHolds;
  }

  /** A quiet firing settles the timer that fired and touches no other appointment. */
  lemma QuietShot(a: Agenda, c: Clock, id: nat)
    requires AgendaHolds(a, c.tick) && 0 <= c.now && id in a.plan && a.book.timers[id].expiry <= c.now
    ensures var b := FireAt(a, c, id, []);
            && AgendaHolds(b, c.tick) && b.plan - {id} == a.plan - {id}
            && (id in b.plan ==> !DueBy(b.plan[id], c.now / c.tick, c.now))
  {
    hide TickOf, Effective, WhenHolds, DueBy, NextDeadline;
    var t := a.book.timers[id];
    var b := FireAt(a, c, id, []);
    var t' := b.book.timers[id];
    assert b.book.timers == a.book.timers[id := t'];
    NextIsLater(t.expiry, t.period, c.now);
    if t.Repeats() {
      LaterIsNotDue(c, t'.expiry, t.precise);
      SetAppointment(a, c.tick, id, t', Effective(c, t'.expiry, t.precise), b);
    } else {
      SetAppointment(a, c.tick, id, t', AtTime(0), b);
    }
  }

  lemma NextIsLater(expiry: int, period: int, now: int)
    requires expiry <= now
    ensures period > 0 ==> NextDeadline(expiry, period, now) > now
  {
  }

  ghost function IdsOf(shots: seq<Shot>): seq<nat>
  {
    seq(|shots|, i requires 0 <= i < |shots| => shots[i].id)
  }

  /** A quiet run fires each timer once and settles exactly the timers it fires. */
  lemma {:induction false} QuietShots(a: Agenda, c: Clock, shots: seq<Shot>, k: nat)
    requires c.tick > 0 && AgendaHolds(a, c.tick) && 0 <= c.now && AllDue(a, c, shots, [], k)
    ensures var b, limit := FireAllAt(a, c, shots, [], k), c.now / c.tick;
            && AgendaHolds(b, c.tick) && Distinct(IdsOf(shots))
            && (forall id :: id in IdsOf(shots) ==> id in DueIds(a.plan, limit, c.now))
            && (forall id :: id in DueIds(b.plan, limit, c.now) <==> id in DueIds(a.plan, limit, c.now) && id !in IdsOf(shots))
            && (forall id :: id in a.plan && id !in IdsOf(shots) ==> id in b.plan && b.plan[id] == a.plan[id])
    decreases |shots|
  {
    hide FireAt, ShotDue, AllDue, FireAllAt, AgendaHolds, DueBy;
    FireAllEnds(a, c, shots, [], k);
    if shots != [] {
      var n := |shots| - 1;
      DueBefore(a, c, shots, [], k);
      QuietShots(a, c, shots[..n], k);
      var mid := FireAllAt(a, c, shots[..n], [], k);
      DueIsLate(mid, c, shots[n]);
      QuietShotStep(mid, c, shots[n]);
      assert IdsOf(shots) == IdsOf(shots[..n]) + [shots[n].id];
      AppendKeepsDistinct(IdsOf(shots[..n]), shots[n].id);
    }
  }

  lemma QuietShotStep(a: Agenda, c: Clock, s: Shot)
    requires AgendaHolds(a, c.tick) && 0 <= c.now && ShotDue(a, c, s)
    ensures var b, limit := FireAt(a, c.(wheelTick := s.wheelTick), s.id, []), c.now / c.tick;
            && AgendaHolds(b, c.tick) && s.id in DueIds(a.plan, limit, c.now)
            && DueIds(b.plan, limit, c.now) == DueIds(a.plan, limit, c.now) - {s.id}
            && (forall id :: id in a.plan && id != s.id ==> id in b.plan && b.plan[id] == a.plan[id])
  {
    hide FireAt, ShotDue, DueBy, WhenHolds;
    DueIsLate(a, c, s);
    QuietShot(a, c.(wheelTick := s.wheelTick), s.id);
    var b := FireAt(a, c.(wheelTick := s.wheelTick), s.id, []);
    assert forall id :: id != s.id ==> (id in b.plan <==> id in b.plan - {s.id});
    assert forall id :: id != s.id ==> (id in a.plan <==> id in a.plan - {s.id});
    assert forall id :: id != s.id && id in b.plan ==> b.plan[id] == (b.plan - {s.id})[id];
    assert forall id :: id != s.id && id in a.plan ==> a.plan[id] == (a.plan - {s.id})[id];
  }

  // ---- whole polls

  /** The agenda, where the coarse clock stands, whether it was anchored, the instant of the last poll,
      and how many coarse ticks one poll may cover. */
  datatype Desk = Desk(agenda: Agenda, wheelTick: nat, primed: bool, now: int, cap: nat)

  predicate NoTicks(plan: map<nat, When>) { forall id :: id in plan ==> plan[id].AtTime? }

  /** The first poll anchors the coarse clock: what was rounded to an earlier tick moves to it. */
  function Anchored(a: Agenda, target: nat): Agenda
  {
    a.(plan := map id | id in a.plan ::
         if a.plan[id].AtTick? && id in a.book.timers then AtTick(Max(a.book.timers[id].expiryTick, Max(target, 1)))
         else a.plan[id])
  }

  function PollStart(d: Desk, target: nat): Agenda
  {
    if d.primed then d.agenda else Anchored(d.agenda, target)
  }

  function StartTickOf(d: Desk, target: nat): nat
  {
    if d.primed then d.wheelTick else AnchorTick(target)
  }

  /** Whether one poll reaches the current tick, as known before it. */
  predicate KeepsUp(d: Desk, target: nat)
  {
    NoTicks(d.agenda.plan) || target <= StartTickOf(d, target) + d.cap
  }

  function ReclaimAt(a: Agenda): Agenda { a.(book := ReclaimIn(a.book)) }

  /** Expiry at the desk's instant: a run of firings of timers that are due, coarse ones at their own tick
      and in tick order, until nothing is due at the tick reached. */
  ghost predicate Expired(d: Desk, d': Desk, tick: nat, scripts: seq<seq<Op>>, shots: seq<Shot>)
  {
    && tick > 0 && 0 <= d.now && d'.primed && d'.now == d.now && d'.cap == d.cap
    && var target, c := d.now / tick, Clock(tick, d.now, 0);
    && AllDue(PollStart(d, target), c, shots, scripts, 0)
    && d'.agenda == FireAllAt(PollStart(d, target), c, shots, scripts, 0)
    && d'.wheelTick == StopTick(StartTickOf(d, target), target, NoTicks(d.agenda.plan), d.cap)
    && InTickOrder(shots, StartTickOf(d, target), d'.wheelTick)
    && (forall id :: id in d'.agenda.plan ==> !DueBy(d'.agenda.plan[id], d'.wheelTick, d.now))
  }

  /** Calls made at the desk's instant outside timer callbacks. */
  function Called(d: Desk, tick: nat, calls: seq<Op>): Desk
    requires tick > 0
  {
    d.(agenda := CallsAt(d.agenda, Clock(tick, d.now, d.wheelTick), calls))
  }

  /** One loop iteration at `clock`: the calls of the posted tasks, expiry, the calls of the I/O and the
      deferred callbacks, and then the release of what ended. Expiry whose callbacks leave timers alone
      is exact. */
  ghost predicate Polled(d: Desk, mid: Desk, d': Desk, clock: int, tick: nat, posted: seq<Op>, scripts: seq<seq<Op>>,
                         rest: seq<Op>, shots: seq<Shot>)
  {
    && tick > 0
    && var ready := Called(d.(now := clock), tick, posted);
    && Expired(ready, mid, tick, scripts, shots) && (scripts == [] ==> ExpiresExactly(ready, mid, tick, shots))
    && d' == mid.(agenda := ReclaimAt(Called(mid, tick, rest).agenda))
  }

  ghost predicate InTickOrder(shots: seq<Shot>, from: nat, to: nat)
  {
    && (forall i :: 0 <= i < |shots| ==> from <= shots[i].wheelTick <= to)
    && (forall i, j :: 0 <= i < j < |shots| ==> shots[i].wheelTick <= shots[j].wheelTick)
  }

  /** The shots are, once each, exactly the timers whose effective time has come. */
  ghost predicate FiresExactly(shots: seq<Shot>, due: set<nat>)
  {
    Distinct(IdsOf(shots)) && forall id :: id in IdsOf(shots) <==> id in due
  }

  /** An expiry known to keep up fires exactly the timers whose effective time has come at that instant,
      and leaves every other appointment as it is. */
  ghost predicate ExpiresExactly(d: Desk, d': Desk, tick: nat, shots: seq<Shot>)
  {
    && tick > 0 && 0 <= d.now
    && var target := d.now / tick;
       var plan := PollStart(d, target).plan;
    KeepsUp(d, target) ==>
      && FiresExactly(shots, DueIds(plan, target, d.now))
      && forall id :: id in plan && id !in IdsOf(shots) ==> id in d'.agenda.plan && d'.agenda.plan[id] == plan[id]
  }

  /** An expiry whose callbacks leave timers alone does so. */
  lemma QuietExpiry(d: Desk, d': Desk, tick: nat, shots: seq<Shot>)
    requires Expired(d, d', tick, [], shots) && AgendaHolds(d.agenda, tick)
    ensures ExpiresExactly(d, d', tick, shots)
  {
    hide AllDue, FireAllAt, DueBy, AgendaHolds, InTickOrder, PollStart, FiresExactly, NoTicks, StopTick;
    if KeepsUp(d, d.now / tick) {
      QuietExpiryKeepsUp(d, d', tick, shots);
    }
  }

  lemma QuietExpiryKeepsUp(d: Desk, d': Desk, tick: nat, shots: seq<Shot>)
    requires Expired(d, d', tick, [], shots) && AgendaHolds(d.agenda, tick) && KeepsUp(d, d.now / tick)
    ensures ExpiresExactly(d, d', tick, shots)
  {
    hide AllDue, FireAllAt, DueBy, AgendaHolds;
    var target, c := d.now / tick, Clock(tick, d.now, 0);
    AnchoredHolds(d, target, tick);
    QuietShots(PollStart(d, target), c, shots, 0);
    var b := d'.agenda;
    forall id | id in b.plan ensures !DueBy(b.plan[id], target, d.now) {
      LaterLimit(b.plan[id], target, d'.wheelTick, d.now);
    }
    assert DueIds(b.plan, target, d.now) == {};
  }

  lemma LaterLimit(w: When, limit: int, limit': int, now: int)
    requires limit <= limit' && !DueBy(w, limit', now)
    ensures !DueBy(w, limit, now)
  {
  }

  lemma AnchoredHolds(d: Desk, target: nat, tick: nat)
    requires AgendaHolds(d.agenda, tick)
    ensures AgendaHolds(PollStart(d, target), tick)
  {
    hide TickOf;
    var a, b := d.agenda, PollStart(d, target);
    forall id | id in b.plan && id in b.book.timers ensures WhenHolds(b.plan[id], b.book.timers[id].expiry, tick) {
      assert WhenHolds(a.plan[id], a.book.timers[id].expiry, tick);
    }
  }

  // ---- when the heap loop ends

  ghost function DueTimes(plan: map<nat, When>, now: int): set<nat>
  {
    set id | id in plan && plan[id].AtTime? && plan[id].time <= now
  }

  /** A call that makes no exact appointment for a deadline that has passed. */
  predicate LaterCall(c: Clock, op: Op)
    requires c.tick > 0
  {
    match op
    case OpArm(expiry, _, _, _, precise) => expiry > c.now || Effective(c, expiry, precise).AtTick?
    case OpReschedule(_, delay) => delay > 0
    case _ => true
  }

  predicate LaterCalls(c: Clock, script: seq<Op>)
    requires c.tick > 0
  {
    forall i :: 0 <= i < |script| ==> LaterCall(c, script[i])
  }

  lemma {:induction false} CancelsShrink(a: Agenda, ids: seq<nat>)
    ensures CancelAllAt(a, ids).plan.Keys <= a.plan.Keys
    ensures forall id :: id in CancelAllAt(a, ids).plan ==> CancelAllAt(a, ids).plan[id] == a.plan[id]
    decreases ids
  {
    if ids != [] {
      CancelsShrink(CancelAt(a, ids[0]), ids[1..]);
    }
  }

  lemma LaterCallAddsNothing(a: Agenda, c: Clock, op: Op)
    requires c.tick > 0 && LaterCall(c, op)
    ensures DueTimes(CallAt(a, c, op).plan, c.now) <= DueTimes(a.plan, c.now)
  {
    hide TickOf, Fits;
    if op.OpCancelGroup? && op.g in a.book.groups {
      CancelsShrink(a, a.book.groups[op.g]);
    }
  }

  lemma {:induction false} LaterCallsAddNothing(a: Agenda, c: Clock, script: seq<Op>)
    requires c.tick > 0 && LaterCalls(c, script)
    ensures DueTimes(CallsAt(a, c, script).plan, c.now) <= DueTimes(a.plan, c.now)
  {
    hide CallAt, DueTimes, LaterCall;
    if script != [] {
      var n := |script| - 1;
      LaterCallsAddNothing(a, c, script[..n]);
      LaterCallAddsNothing(CallsAt(a, c, script[..n]), c, script[n]);
    }
  }

  /** With such callbacks each firing leaves fewer exact deadlines due, so the loop over the heap ends
      after at most as many firings as deadlines were due. */
  lemma LaterShotShrinks(a: Agenda, c: Clock, id: nat, script: seq<Op>)
    requires c.tick > 0 && LaterCalls(c, script) && id in a.book.timers && a.book.timers[id].expiry <= c.now
    ensures DueTimes(FireAt(a, c, id, script).plan, c.now) <= DueTimes(a.plan, c.now) - {id}
  {
    hide TickOf, Fits, CallsAt, NextDeadline, LaterCalls;
    var b := BeginAt(a, c, id);
    NextIsLater(a.book.timers[id].expiry, a.book.timers[id].period, c.now);
    assert DueTimes(b.plan, c.now) <= DueTimes(a.plan, c.now) - {id};
    LaterCallsAddNothing(b, c, script);
  }

  /** A callback that arms an exact timer for the current instant. */
  function Rearming(now: int): seq<Op> { [OpArm(now, 0, FixedRate, None, true)] }

  /** With such a callback something is due after every firing: the loop over the heap never ends. */
  lemma RearmingNeverEnds(a: Agenda, c: Clock, shots: seq<Shot>, scripts: seq<seq<Op>>, k: nat)
    requires c.tick > 0 && shots != [] && k + |shots| <= |scripts|
    requires forall i :: 0 <= i < |scripts| ==> scripts[i] == Rearming(c.now)
    ensures DueTimes(FireAllAt(a, c, shots, scripts, k).plan, c.now) != {}
  {
    hide FireAt, FireAllAt;
    FireAllEnds(a, c, shots, scripts, k);
    var n := |shots| - 1;
    RearmedIsDue(FireAllAt(a, c, shots[..n], scripts, k), c.(wheelTick := shots[n].wheelTick), shots[n].id);
  }

  lemma RearmedIsDue(a: Agenda, c: Clock, id: nat)
    requires c.tick > 0
    ensures DueTimes(FireAt(a, c, id, Rearming(c.now)).plan, c.now) != {}
  {
    hide TickOf, Fits, NextDeadline;
    var b := BeginAt(a, c, id);
    var script := Rearming(c.now);
    assert script[..0] == [];
    assert CallsAt(b, c, script[..0]) == b;
    assert CallsAt(b, c, script) == CallAt(b, c, script[0]);
    assert b.book.nextId in DueTimes(FireAt(a, c, id, script).plan, c.now);
  }

  // ---- the agenda and the structures

  /** The wheel holds the coarse appointments under their tick, the heap the exact ones. */
  ghost predicate PlanHolds(plan: map<nat, When>, timers: Timers, at: map<Node, Place>, heap: set<Node>)
  {
    && (forall n :: n in at ==> n.id in plan && plan[n.id] == AtTick(at[n].due))
    && (forall n :: n in heap ==> n.id in plan && plan[n.id] == AtTime(n.expiry))
    && (forall id :: id in plan <==> id in timers && timers[id].state.Armed?)
  }

  /** What insert_timer does: the wheel takes what fits and need not be precise, the heap the rest. */
  ghost predicate Inserted(n: Node, precise: bool, wheelTick: nat, at: map<Node, Place>, heap: set<Node>,
                           at': map<Node, Place>, heap': set<Node>)
  {
    if Fits(n.expiryTick, wheelTick) && !precise
    then heap' == heap && n in at' && at' == at[n := at'[n]] && at'[n].due == Max(n.expiryTick, wheelTick + 1)
    else at' == at && heap' == heap + {n}
  }

  lemma PlanInsert(plan: map<nat, When>, timers: Timers, at: map<Node, Place>, heap: set<Node>, at': map<Node, Place>,
                   heap': set<Node>, c: Clock, id: nat, t: Timer)
    requires PlanHolds(plan, timers, at, heap) && c.tick > 0 && t.state.Armed?
    requires (forall n :: n in at ==> n.id != id) && (forall n :: n in heap ==> n.id != id)
    requires t.expiryTick == TickOf(t.expiry, c.tick)
    requires Inserted(NodeOf(id, t), t.precise, c.wheelTick, at, heap, at', heap')
    ensures PlanHolds(plan[id := Effective(c, t.expiry, t.precise)], timers[id := t], at', heap')
    ensures 0 <= t.expiry ==> OnTime(Effective(c, t.expiry, t.precise), c, t.expiry, t.precise)
  {
    hide TickOf, Fits, OnTime;
    if 0 <= t.expiry {
      EffectiveIsOnTime(c, t.expiry, t.precise);
    }
  }

  lemma PlanRemove(plan: map<nat, When>, timers: Timers, at: map<Node, Place>, heap: set<Node>, at': map<Node, Place>,
                   heap': set<Node>, id: nat, t: Timer)
    requires PlanHolds(plan, timers, at, heap) && !t.state.Armed?
    requires forall n :: n in at' ==> n in at && at'[n] == at[n] && n.id != id
    requires forall n :: n in heap' ==> n in heap && n.id != id
    ensures PlanHolds(plan - {id}, timers[id := t], at', heap')
  {
  }

  lemma PlanSubset(plan: map<nat, When>, timers: Timers, at: map<Node, Place>, heap: set<Node>, at': map<Node, Place>,
                   heap': set<Node>)
    requires PlanHolds(plan, timers, at, heap) && heap' <= heap
    requires forall n :: n in at' ==> n in at && at'[n].due == at[n].due
    ensures PlanHolds(plan, timers, at', heap')
  {
  }

  /** At most one node of a timer is linked. */
  lemma OnlyNode(b: Book, tick: nat, linked: set<Node>, id: nat)
    requires BookHolds(b, tick, linked)
    ensures forall n :: n in linked && n.id == id ==> id in b.timers && n in NodesOf(id, b.timers[id])
    ensures forall n :: n in linked ==> n.id < b.nextId
  {
  }

  lemma AgendaOf(b: Book, plan: map<nat, When>, tick: nat, at: map<Node, Place>, heap: set<Node>)
    requires BookHolds(b, tick, at.Keys + heap) && PlanHolds(plan, b.timers, at, heap)
    requires forall n :: n in at ==> n.expiryTick <= at[n].due
    ensures AgendaHolds(Agenda(b, plan), tick)
  {
    hide TickOf;
    forall id | id in plan && id in b.timers ensures WhenHolds(plan[id], b.timers[id].expiry, tick) {
      var n := NodeOf(id, b.timers[id]);
      assert n in NodesOf(id, b.timers[id]) && n in at.Keys + heap;
    }
  }

  /** The coarse appointments are what the wheel holds. */
  lemma NoTicksIsEmpty(b: Book, plan: map<nat, When>, tick: nat, at: map<Node, Place>, heap: set<Node>)
    requires BookHolds(b, tick, at.Keys + heap) && PlanHolds(plan, b.timers, at, heap)
    ensures NoTicks(plan) <==> at == map[]
  {
    if at == map[] {
      forall id | id in plan ensures plan[id].AtTime? {
        assert NodeOf(id, b.timers[id]) in NodesOf(id, b.timers[id]) && NodeOf(id, b.timers[id]) in at.Keys + heap;
      }
    } else {
      assert at.Keys != {};
      var n :| n in at;
    }
  }

  /** Nothing linked is due, so nothing on the agenda is. */
  lemma NothingDue(b: Book, plan: map<nat, When>, tick: nat, at: map<Node, Place>, heap: set<Node>, limit: int, now: int)
    requires BookHolds(b, tick, at.Keys + heap) && PlanHolds(plan, b.timers, at, heap)
    requires (forall n :: n in at ==> at[n].due > limit) && (forall n :: n in heap ==> n.expiry > now)
    ensures forall id :: id in plan ==> !DueBy(plan[id], limit, now)
  {
    forall id | id in plan ensures !DueBy(plan[id], limit, now) {
      assert NodeOf(id, b.timers[id]) in NodesOf(id, b.timers[id]) && NodeOf(id, b.timers[id]) in at.Keys + heap;
    }
  }

  /** Priming re-clamps what the wheel holds. */
  lemma PlanAnchored(a: Agenda, tick: nat, at: map<Node, Place>, heap: set<Node>, at': map<Node, Place>, target: nat)
    requires BookHolds(a.book, tick, at.Keys + heap) && PlanHolds(a.plan, a.book.timers, at, heap)
    requires at'.Keys == at.Keys && forall n :: n in at' ==> at'[n].due == Max(n.expiryTick, Max(target, 1))
    ensures PlanHolds(Anchored(a, target).plan, a.book.timers, at', heap)
  {
    forall n | n in at' ensures n.id in a.book.timers && n.expiryTick == a.book.timers[n.id].expiryTick {
      assert n in at.Keys + heap;
    }
  }

  lemma {:induction false} CancelAllBook(a: Agenda, ids: seq<nat>)
    ensures CancelAllAt(a, ids).book == CancelAllIn(a.book, ids)
    decreases ids
  {
    if ids != [] {
      CancelAllBook(CancelAt(a, ids[0]), ids[1..]);
    }
  }

  lemma TickOrderMore(first: seq<Shot>, second: seq<Shot>, from: nat, mid: nat, to: nat)
    requires InTickOrder(first, from, mid) && mid <= to && InTickOrder(second, to, to) && from <= to
    ensures InTickOrder(first + second, from, to)
  {
  }
}
