/** Base-256 placement arithmetic of the 4-level, 256-slot hierarchical timer wheel:
    where a node belongs, what an advancing tick does to that, and why a cascade always descends. */
module WheelPlacement {
  import opened Arith

  const LEVELS := 4
  const SLOTS := 256
  /** 256^4: the first distance the wheel cannot hold. */
  const HORIZON := 0x1_0000_0000

  /** 256^level: how many ticks one slot of a level covers. */
  function Span(level: nat): (span: nat)
    requires level <= LEVELS
    ensures span > 0
  {
    if level == 0 then 1
    else if level == 1 then 0x100
    else if level == 2 then 0x1_0000
    else if level == 3 then 0x100_0000
    else HORIZON
  }

  /** Whether the wheel can hold a deadline: the distance, shifted right once per level, vanishes. */
  function Fits(expiryTick: nat, nowTick: nat): (fits: bool)
    ensures fits <==> expiryTick < nowTick + HORIZON
  {
    expiryTick <= nowTick || (expiryTick - nowTick) / SLOTS / SLOTS / SLOTS / SLOTS == 0
  }

  function Slot(due: nat, level: nat): (slot: nat)
    requires level < LEVELS
    ensures slot < SLOTS
  {
    due / Span(level) % SLOTS
  }

  /** The tick at which a node of this level is next touched: it fires (level 0) or cascades. */
  function ServiceTick(due: nat, level: nat): (tick: nat)
    requires level < LEVELS
    ensures tick <= due
  {
    due / Span(level) * Span(level)
  }

  /** What placement promises while tick `now` is being processed and the cascades of the levels
      up to `swept` have run. With `swept` at 3 this is the invariant between ticks. */
  predicate Held(due: nat, level: nat, now: nat, swept: nat)
  {
    && level < LEVELS
    && (level == 0 ==> now <= due < now + SLOTS)
    && (0 < level <= swept ==> now < ServiceTick(due, level) && due < now + Span(level + 1))
    && (level > swept && level > 0 ==> now <= ServiceTick(due, level) && due + 1 < now + Span(level + 1))
  }

  /** The level whose digit range contains a distance: the loop of insert_node. */
  method LevelOf(distance: nat) returns (level: nat)
    requires distance < HORIZON
    ensures level < LEVELS
    ensures distance < Span(level + 1)
    ensures level > 0 ==> Span(level) <= distance
  {
    var d := distance;
    level := 0;
    while d >= SLOTS
      invariant level < LEVELS
      invariant d == distance / Span(level)
      invariant level > 0 ==> d > 0
      decreases d
    {
      d := d / SLOTS;
      level := level + 1;
    }
  }

  /** A node put at the level of its distance is held, and not in the slot just being swept
      unless it is due this very tick. */
  lemma PlacedIsHeld(due: nat, now: nat, level: nat)
    requires now <= due && level < LEVELS
    requires due - now < Span(level + 1)
    requires level > 0 ==> Span(level) <= due - now
    ensures Held(due, level, now, 3)
    ensures due > now ==> ServiceTick(due, level) > now
  {
    if level == 1 {
    } else if level == 2 {
    } else if level == 3 {
    }
  }

  /** Moving the clock one tick on turns "between ticks" into "nothing swept yet". */
  lemma TickStarts(due: nat, level: nat, now: nat)
    requires Held(due, level, now, 3) && now < due
    ensures Held(due, level, now + 1, 0)
  {
  }

  /** A level whose digit boundary is not hit needs no cascade. */
  lemma SkipCascade(due: nat, level: nat, now: nat, swept: nat)
    requires 1 <= swept < LEVELS && now % Span(swept) != 0
    requires Held(due, level, now, swept - 1)
    ensures Held(due, level, now, swept)
  {
    if level == swept && ServiceTick(due, level) == now {
      if level == 1 {
      } else if level == 2 {
      } else {
      }
    }
  }

  /** When level `swept` cascades, a node of the home slot is due within one span, so it belongs
      strictly lower; every other node of the level stays. */
  lemma CascadeDescends(due: nat, level: nat, now: nat)
    requires 1 <= level < LEVELS && now % Span(level) == 0
    requires Held(due, level, now, level - 1)
    ensures Slot(due, level) == Slot(now, level) ==> now <= due < now + Span(level)
    ensures Slot(due, level) != Slot(now, level) ==> Held(due, level, now, level)
  {
    if level == 1 {
      SameDigit(due / 0x100, now / 0x100);
    } else if level == 2 {
      SameDigit(due / 0x1_0000, now / 0x1_0000);
    } else {
      SameDigit(due / 0x100_0000, now / 0x100_0000);
    }
  }

  /** Within one turn of a level the slot number determines the quotient. */
  lemma SameDigit(q: nat, p: nat)
    requires p <= q < p + SLOTS
    ensures q % SLOTS == p % SLOTS <==> q == p
  {
  }

  /** At level 0 the slot and the clock determine the tick. */
  lemma SlotIsTick(due: nat, now: nat)
    requires Held(due, 0, now, 3)
    ensures Slot(due, 0) == now % SLOTS <==> due == now
  {
  }

  /** The candidate next_due_tick computes from a slot number is the service tick of its nodes:
      that tick lies ahead of the clock, in the clock's own rotation of the level or the next. */
  lemma CandidateIsServiceTick(due: nat, level: nat, now: nat, slot: nat)
    requires Held(due, level, now, 3) && now < due && slot == Slot(due, level)
    ensures var cand := now / Span(level + 1) * Span(level + 1) + slot * Span(level);
            ServiceTick(due, level) == if cand <= now then cand + Span(level + 1) else cand
  {
    DigitsSplit(due, level);
    var super := Span(level + 1);
    DivBounds(now, super);
    SameOrNextRotation(due / super, now / super, super, now, ServiceTick(due, level));
  }

  /** The digits of a tick down to a level, split into the rotation count and the slot. */
  lemma DigitsSplit(tick: nat, level: nat)
    requires level < LEVELS
    ensures ServiceTick(tick, level) == tick / Span(level + 1) * Span(level + 1) + Slot(tick, level) * Span(level)
    ensures Slot(tick, level) * Span(level) < Span(level + 1)
  {
    var digits := tick / Span(level);
    assert digits / SLOTS == tick / Span(level + 1) && Span(level + 1) == SLOTS * Span(level) by {
      if level == 0 {} else if level == 1 {} else if level == 2 {} else {}
    }
    hide Span;
    Distribute(digits / SLOTS, digits % SLOTS, Span(level));
    MulMonotone(digits % SLOTS + 1, SLOTS, Span(level));
  }

  lemma Distribute(a: nat, b: nat, k: nat)
    ensures (SLOTS * a + b) * k == a * (SLOTS * k) + b * k
  {
  }

  lemma SameOrNextRotation(rotation: nat, current: nat, super: nat, now: nat, tick: nat)
    requires current * super <= now < current * super + super
    requires rotation * super <= tick < rotation * super + super
    requires now < tick < now + super
    ensures rotation * super == current * super || rotation * super == current * super + super
  {
    if rotation < current {
      MulMonotone(rotation + 1, current, super);
    } else if rotation > current + 1 {
      MulMonotone(current + 2, rotation, super);
    }
  }
}
