/** The hierarchical timer wheel: insert, unlink, prime, cascade and bounded advance, refined to
    a set of nodes that each carry one effective tick. */
module TimerWheels {
  import opened Basics
  import opened Lists
  import opened WheelPlacement

  /** The scheduling part of a timer node: its identity, its deadline in nanoseconds and that
      deadline rounded up to a tick. */
  datatype Node = Node(id: nat, expiry: int, expiryTick: nat)

  /** Where a linked node sits. `due` is the effective tick, the deadline tick clamped at insertion;
      `hops` counts the cascades the node went through since it was inserted. */
  datatype Place = Place(due: nat, level: nat, slot: nat, hops: nat)

  datatype Firing = Firing(node: Node, tick: nat)

  /** 2^64 - 1, what next_due_tick answers for an empty wheel. */
  const NEVER := 0xFFFF_FFFF_FFFF_FFFF

  /** The same nodes with the same effective ticks, wherever they sit. */
  ghost predicate SameDues(before: map<Node, Place>, after: map<Node, Place>)
  {
    before.Keys == after.Keys && forall n :: n in before ==> after[n].due == before[n].due
  }

  /** `fired` lists exactly the nodes due in (from, to], once each, in tick order and each at its
      own effective tick; `rest` keeps exactly the others with their ticks unchanged. */
  ghost predicate FiredExactly(dues: map<Node, nat>, fired: seq<Firing>, from: nat, to: nat, rest: map<Node, Place>)
  {
    && (forall i :: 0 <= i < |fired| ==>
          fired[i].node in dues && fired[i].tick == dues[fired[i].node] && from < fired[i].tick <= to)
    && (forall i, j :: 0 <= i < j < |fired| ==>
          fired[i].node != fired[j].node && fired[i].tick <= fired[j].tick)
    && (forall n :: n in dues && dues[n] <= to ==> HasFired(fired, n))
    && (forall n :: n in rest <==> n in dues && dues[n] > to)
    && (forall n :: n in rest ==> rest[n].due == dues[n])
  }

  /** `batch` holds nodes due at `tick`, once each, and `rest` is everything else. */
  ghost predicate Draining(before: map<Node, Place>, batch: seq<Firing>, tick: nat, rest: map<Node, Place>)
  {
    && (forall i :: 0 <= i < |batch| ==>
          batch[i].node in before && batch[i].tick == tick == before[batch[i].node].due)
    && (forall i, j :: 0 <= i < j < |batch| ==> batch[i].node != batch[j].node)
    && (forall n :: n in rest <==> n in before && !HasFired(batch, n))
    && (forall n :: n in rest ==> rest[n] == before[n])
  }

  ghost predicate DrainedExactly(before: map<Node, Place>, batch: seq<Firing>, tick: nat, rest: map<Node, Place>)
  {
    Draining(before, batch, tick, rest) && forall n :: n in rest ==> rest[n].due > tick
  }

  /** The clock right after priming for a target. */
  function AnchorTick(target: nat): nat { if target > 0 then target - 1 else 0 }

  /** Where a bounded advance stops. */
  function StopTick(from: nat, target: nat, empty: bool, maxTicks: nat): (stop: nat)
    ensures from <= stop && (stop == from || stop <= target) && (stop < target ==> !empty && stop == from + maxTicks)
    ensures !empty ==> stop <= from + maxTicks
  {
    if target <= from then from else if empty then target else Min(target, from + maxTicks)
  }

  /** Where the clock of a wheel that never runs empty is after so many advances to the same target. */
  function StopAfter(from: nat, target: nat, maxTicks: nat, calls: nat): nat
  {
    if calls == 0 then from else StopTick(StopAfter(from, target, maxTicks, calls - 1), target, false, maxTicks)
  }

  /** A wheel that is behind catches up at the full rate: after any number of advances it is at the target, or
      that many times the cap further. */
  lemma {:induction false} CatchesUp(from: nat, target: nat, maxTicks: nat, calls: nat)
    requires from <= target
    ensures StopAfter(from, target, maxTicks, calls) == Min(target, from + calls * maxTicks)
  {
    if calls > 0 {
      CatchesUp(from, target, maxTicks, calls - 1);
      assert calls * maxTicks == (calls - 1) * maxTicks + maxTicks;
    }
  }

  /** Only nodes of `level` moved, each one cascade further and to a strictly lower level. */
  ghost predicate Descended(before: map<Node, Place>, after: map<Node, Place>, level: nat)
  {
    && before.Keys == after.Keys
    && forall n :: n in after ==> after[n] == before[n] || DescendedOne(before[n], after[n], level)
  }

  ghost predicate DescendedOne(before: Place, after: Place, level: nat)
  {
    before.level == level && after.level < level && after.due == before.due && after.hops == before.hops + 1
  }

  /** A node met by a cascade is due within one span of the level, so it fits strictly lower. */
  lemma HomeNodeIsNear(n: Node, p: Place, now: nat, level: nat)
    requires 1 <= level < LEVELS && now % Span(level) == 0
    requires Kept(n, p, now, level - 1) && p.level == level && p.slot == Slot(now, level)
    ensures p.due == n.expiryTick && now <= n.expiryTick < now + Span(level) < now + HORIZON
    ensures forall dest: nat :: dest < LEVELS && (dest > 0 ==> Span(dest) <= n.expiryTick - now) ==> dest < level
  {
    CascadeDescends(p.due, level, now);
  }

  lemma KeptStarts(n: Node, p: Place, now: nat)
    requires Kept(n, p, now, 3) && now < p.due
    ensures Kept(n, p, now + 1, 0)
  {
    TickStarts(p.due, p.level, now);
  }

  lemma HasFiredAppend(fired: seq<Firing>, more: seq<Firing>, n: Node)
    ensures HasFired(fired + more, n) <==> HasFired(fired, n) || HasFired(more, n)
  {
    if i :| 0 <= i < |fired| && fired[i].node == n {
      assert (fired + more)[i].node == n;
    } else if i :| 0 <= i < |more| && more[i].node == n {
      assert (fired + more)[|fired| + i].node == n;
    }
  }

  lemma DrainOne(before: map<Node, Place>, batch: seq<Firing>, tick: nat, mid: map<Node, Place>, n: Node)
    requires Draining(before, batch, tick, mid) && n in mid && mid[n].due == tick
    ensures Draining(before, batch + [Firing(n, tick)], tick, mid - {n})
  {
    var one := [Firing(n, tick)];
    assert one[0].node == n;
    forall m ensures HasFired(batch + one, m) <==> HasFired(batch, m) || m == n {
      HasFiredAppend(batch, one, m);
    }
  }

  /** Firing everything due at the next tick extends an exact firing record by that tick. */
  lemma ExtendFired(dues: map<Node, nat>, fired: seq<Firing>, batch: seq<Firing>, from: nat, tick: nat,
                    before: map<Node, Place>, swept: map<Node, Place>, after: map<Node, Place>)
    requires from < tick && FiredExactly(dues, fired, from, tick - 1, before)
    requires SameDues(before, swept) && DrainedExactly(swept, batch, tick, after)
    ensures FiredExactly(dues, fired + batch, from, tick, after)
  {
    forall n ensures HasFired(fired + batch, n) <==> HasFired(fired, n) || HasFired(batch, n) {
      HasFiredAppend(fired, batch, n);
    }
  }

  lemma NothingToFire(dues: map<Node, nat>, from: nat, to: nat, at: map<Node, Place>)
    requires FiredExactly(dues, [], from, from, at) && |at| == 0 && from <= to
    ensures dues == map[] && FiredExactly(dues, [], from, to, at)
  {
    assert forall n :: n in dues ==> n in at || HasFired([], n);
  }

  lemma OthersStay(n: Node, p: Place, now: nat, level: nat)
    requires 1 <= level < LEVELS && now % Span(level) == 0
    requires Kept(n, p, now, level - 1) && !(p.level == level && p.slot == Slot(now, level))
    ensures Kept(n, p, now, level)
  {
    if p.level == level {
      CascadeDescends(p.due, level, now);
    }
  }

  /** A linked node sits in the slot of its effective tick, close enough to be met in time. */
  ghost predicate Kept(n: Node, p: Place, now: nat, swept: nat)
  {
    && Held(p.due, p.level, now, swept)
    && p.slot == Slot(p.due, p.level)
    && n.expiryTick <= p.due
    && (p.level > 0 ==> p.due == n.expiryTick)
    && p.hops + p.level < LEVELS
  }

  /** A bucket lists, once each, exactly the nodes whose links name it. */
  ghost predicate Agrees(bucket: seq<Node>, at: map<Node, Place>, level: nat, slot: nat)
  {
    && Distinct(bucket)
    && forall n :: n in bucket <==> n in at && at[n].level == level && at[n].slot == slot
  }

  lemma LinkAgrees(bucket: seq<Node>, at: map<Node, Place>, level: nat, slot: nat, n: Node, p: Place)
    requires Agrees(bucket, at, level, slot) && n !in at
    ensures Agrees(if p.level == level && p.slot == slot then bucket + [n] else bucket, at[n := p], level, slot)
  {
    AppendKeepsDistinct(bucket, n);
  }

  lemma UnlinkAgrees(bucket: seq<Node>, at: map<Node, Place>, level: nat, slot: nat, n: Node)
    requires Agrees(bucket, at, level, slot) && n in at
    ensures Agrees(if at[n].level == level && at[n].slot == slot then Without(bucket, n) else bucket, at - {n}, level, slot)
  {
    WithoutRemoves(bucket, n);
  }

  ghost predicate HasFired(fired: seq<Firing>, n: Node)
  {
    exists i :: 0 <= i < |fired| && fired[i].node == n
  }

  class TimerWheel {
    var nowTick: nat
    var primed: bool
    var count: nat
    var maxTicksPerCall: nat
    const buckets: array2<seq<Node>>
    /** The nodes' own bucket links: a node is a key exactly while it is linked. */
    var at: map<Node, Place>

    /** Buckets and links agree: every linked node is in one bucket, once. */
    ghost predicate Linked()
      reads this, buckets
    {
      && buckets.Length0 == LEVELS && buckets.Length1 == SLOTS
      && count == |at|
      && (forall n :: n in at ==> at[n].level < LEVELS && at[n].slot < SLOTS)
      && (forall l, s :: 0 <= l < LEVELS && 0 <= s < SLOTS ==> Agrees(buckets[l, s], at, l, s))
    }

    /** The wheel while the current tick is processed, cascades done up to level `swept`. */
    ghost predicate Sweeping(swept: nat)
      reads this, buckets
    {
      && Linked()
      && (forall n :: n in at ==> Kept(n, at[n], nowTick, swept))
      && (!primed ==> nowTick == 0)
    }

    /** The wheel between ticks: every linked node is still ahead of the clock. */
    ghost predicate Valid()
      reads this, buckets
    {
      Sweeping(3) && forall n :: n in at ==> nowTick < at[n].due
    }

    constructor ()
      ensures Valid() && fresh(buckets)
      ensures nowTick == 0 && !primed && at == map[] && maxTicksPerCall == 4096
    {
      nowTick, primed, count, maxTicksPerCall := 0, false, 0, 4096;
      buckets := new seq<Node>[LEVELS, SLOTS]((l, s) => []);
      at := map[];
    }

    /** list_push_back onto one bucket. */
    method PushBack(n: Node, p: Place)
      requires Linked() && n !in at
      requires p.level < LEVELS && p.slot < SLOTS
      modifies this`count, this`at, buckets
      ensures Linked()
      ensures at == old(at)[n := p]
      ensures buckets[p.level, p.slot] == old(buckets[p.level, p.slot]) + [n]
      ensures forall l, s :: 0 <= l < LEVELS && 0 <= s < SLOTS && !(l == p.level && s == p.slot) ==>
                buckets[l, s] == old(buckets[l, s])
    {
      forall l, s | 0 <= l < LEVELS && 0 <= s < SLOTS {
        LinkAgrees(buckets[l, s], at, l, s, n, p);
      }
      buckets[p.level, p.slot] := buckets[p.level, p.slot] + [n];
      at := at[n := p];
      count := count + 1;
    }

    /** list_unlink of a linked node from the bucket it is in. */
    method Detach(n: Node)
      requires Linked() && n in at
      modifies this`count, this`at, buckets
      ensures Linked()
      ensures at == old(at) - {n}
      ensures buckets[old(at)[n].level, old(at)[n].slot] == Without(old(buckets[at[n].level, at[n].slot]), n)
      ensures forall l, s :: 0 <= l < LEVELS && 0 <= s < SLOTS && !(l == old(at)[n].level && s == old(at)[n].slot) ==>
                buckets[l, s] == old(buckets[l, s])
    {
      var p := at[n];
      forall l, s | 0 <= l < LEVELS && 0 <= s < SLOTS {
        UnlinkAgrees(buckets[l, s], at, l, s, n);
      }
      buckets[p.level, p.slot] := Without(buckets[p.level, p.slot], n);
      RemoveKeySize(at, n);
      at := at - {n};
      count := count - 1;
    }

    /** insert_node: append to the slot that the distance to the clock selects. */
    method InsertNode(n: Node, due: nat, hops: nat, ghost below: nat, ghost swept: nat)
      requires Sweeping(swept) && n !in at
      requires 1 <= below <= LEVELS && below <= swept + 1 && hops + below <= LEVELS
      requires nowTick <= due < nowTick + Span(below)
      requires n.expiryTick <= due && (n.expiryTick < due ==> due < nowTick + SLOTS)
      modifies this`count, this`at, buckets
      ensures Sweeping(swept)
      ensures n in at && at == old(at)[n := at[n]]
      ensures at[n].due == due && at[n].level < below && at[n].hops == hops
      ensures forall l, s :: 0 <= l < LEVELS && 0 <= s < SLOTS && !(l == at[n].level && s == at[n].slot) ==>
                buckets[l, s] == old(buckets[l, s])
    {
      var level := LevelOf(due - nowTick);
      PlacedIsHeld(due, nowTick, level);
      var p := Place(due, level, Slot(due, level), hops);
      assert Kept(n, p, nowTick, swept);
      PushBack(n, p);
    }

    /** The public insert: an overdue or same-tick node is clamped to the next tick. */
    method Insert(n: Node)
      requires Sweeping(3) && n !in at && Fits(n.expiryTick, nowTick)
      modifies this`count, this`at, buckets
      ensures Sweeping(3) && (old(Valid()) ==> Valid())
      ensures n in at && at == old(at)[n := at[n]]
      ensures at[n].due == Max(n.expiryTick, nowTick + 1) && at[n].hops == 0
    {
      InsertNode(n, if n.expiryTick > nowTick then n.expiryTick else nowTick + 1, 0, LEVELS, 3);
    }

    method Unlink(n: Node)
      requires Sweeping(3)
      modifies this`count, this`at, buckets
      ensures Sweeping(3) && (old(Valid()) ==> Valid())
      ensures at == old(at) - {n}
    {
      if n in at {
        Detach(n);
      }
    }

    /** The body of the cascade walk for one node that does not stay put. */
    method Relink(n: Node, level: nat)
      requires 1 <= level < LEVELS && Sweeping(level - 1) && nowTick % Span(level) == 0
      requires n in at && at[n].level == level && at[n].slot == Slot(nowTick, level)
      modifies this`count, this`at, buckets
      ensures Sweeping(level - 1)
      ensures n in at && at == old(at)[n := at[n]]
      ensures DescendedOne(old(at)[n], at[n], level)
      ensures buckets[level, old(at)[n].slot] == Without(old(buckets[level, at[n].slot]), n)
    {
      hide Held, Slot;
      HomeNodeIsNear(n, at[n], nowTick, level);
      var hops := at[n].hops;
      Detach(n);
      InsertNode(n, if n.expiryTick > nowTick then n.expiryTick else nowTick, hops + 1, level, level - 1);
    }

    /** Empties the home slot of a level: each node moves, once, to a strictly lower level. The
        source's case of a node that stays put never arises: the walk never leaves index 0. */
    method Cascade(level: nat)
      requires 1 <= level < LEVELS && Sweeping(level - 1) && nowTick % Span(level) == 0
      modifies this`count, this`at, buckets
      ensures Sweeping(level)
      ensures Descended(old(at), at, level)
    {
      hide Held, Slot, Span;
      var home := Slot(nowTick, level);
      var i := 0;
      while i < |buckets[level, home]|
        invariant i == 0
        invariant Sweeping(level - 1) && Descended(old(at), at, level)
        decreases |buckets[level, home]| - i
      {
        var n := buckets[level, home][i];
        HomeNodeIsNear(n, at[n], nowTick, level);
        var due := if n.expiryTick > nowTick then n.expiryTick else nowTick;
        var dest := LevelOf(due - nowTick);
        var slot := Slot(due, dest);
        if dest == level && slot == home {
          i := i + 1;
        } else {
          Relink(n, level);
        }
      }
      assert buckets[level, home] == [];
      forall n | n in at ensures Kept(n, at[n], nowTick, level) {
        OthersStay(n, at[n], nowTick, level);
      }
    }

    /** One clock step with its cascades, before the slot of the new tick is drained. */
    method BeginTick()
      requires Valid() && primed
      modifies this`nowTick, this`count, this`at, buckets
      ensures Sweeping(3) && nowTick == old(nowTick) + 1
      ensures SameDues(old(at), at)
    {
      hide Held, Slot;
      forall n | n in at ensures Kept(n, at[n], nowTick + 1, 0) {
        KeptStarts(n, at[n], nowTick);
      }
      nowTick := nowTick + 1;
      for level := 1 to LEVELS
        invariant nowTick == old(nowTick) + 1
        invariant Sweeping(level - 1) && SameDues(old(at), at)
      {
        if nowTick % Span(level) == 0 {
          Cascade(level);
        } else {
          forall n | n in at ensures Kept(n, at[n], nowTick, level) {
            SkipCascade(at[n].due, at[n].level, nowTick, level);
          }
        }
      }
    }

    /** The bucket that the current tick drains. */
    function CurrentSlot(): seq<Node>
      requires Sweeping(3)
      reads this, buckets
    {
      buckets[0, nowTick % SLOTS]
    }

    /** Takes the first node of the current slot: it is due exactly now, so the source's
        re-insertion of a node that was cascaded early never happens. */
    method PopDue() returns (n: Node)
      requires Sweeping(3) && CurrentSlot() != []
      modifies this`count, this`at, buckets
      ensures Sweeping(3)
      ensures n in old(at) && at == old(at) - {n}
      ensures old(at)[n].due == nowTick && n.expiryTick <= nowTick
      ensures |CurrentSlot()| == |old(CurrentSlot())| - 1
    {
      n := buckets[0, nowTick % SLOTS][0];
      SlotIsTick(at[n].due, nowTick);
      Detach(n);
    }

    /** Once the current slot is empty nothing linked is due. */
    lemma DrainedIsValid()
      requires Sweeping(3) && CurrentSlot() == []
      ensures Valid()
    {
      forall n | n in at ensures nowTick < at[n].due {
        if at[n].level == 0 {
          SlotIsTick(at[n].due, nowTick);
        }
      }
    }

    /** expire_slot with a callback that only records: every node due now, and no other. */
    method ExpireSlot() returns (batch: seq<Firing>)
      requires Sweeping(3)
      modifies this`count, this`at, buckets
      ensures Valid()
      ensures DrainedExactly(old(at), batch, nowTick, at)
    {
      batch := [];
      assert Draining(at, batch, nowTick, at);
      hide Kept, Draining;
      while CurrentSlot() != []
        invariant Sweeping(3)
        invariant Draining(old(at), batch, nowTick, at)
        decreases |CurrentSlot()|
      {
        ghost var mid := at;
        var n := PopDue();
        DrainOne(old(at), batch, nowTick, mid, n);
        batch := batch + [Firing(n, nowTick)];
      }
      DrainedIsValid();
    }

    /** Moves one bucket onto the end of a detached list. */
    method TakeBucket(level: nat, slot: nat, hold: seq<Node>) returns (held: seq<Node>)
      requires Linked() && level < LEVELS && slot < SLOTS
      requires Distinct(hold) && forall n :: n in at ==> n !in hold
      modifies this`count, this`at, buckets
      ensures Linked() && buckets[level, slot] == []
      ensures Distinct(held)
      ensures forall n :: n in at ==> n !in held
      ensures forall n :: n in at || n in held <==> n in old(at) || n in hold
      ensures forall l, s :: 0 <= l < LEVELS && 0 <= s < SLOTS && !(l == level && s == slot) ==>
                buckets[l, s] == old(buckets[l, s])
    {
      held := hold;
      while buckets[level, slot] != []
        invariant Linked() && Distinct(held)
        invariant forall n :: n in at ==> n !in held
        invariant forall n :: n in at || n in held <==> n in old(at) || n in hold
        invariant forall l, s :: 0 <= l < LEVELS && 0 <= s < SLOTS && !(l == level && s == slot) ==>
                    buckets[l, s] == old(buckets[l, s])
        decreases |buckets[level, slot]|
      {
        var n := buckets[level, slot][0];
        assert Agrees(buckets[level, slot], at, level, slot);
        Detach(n);
        AppendKeepsDistinct(held, n);
        held := held + [n];
      }
    }

    /** Moves the buckets of one level onto the end of a detached list. */
    method TakeLevel(level: nat, hold: seq<Node>) returns (held: seq<Node>)
      requires Linked() && level < LEVELS
      requires Distinct(hold) && forall n :: n in at ==> n !in hold
      modifies this`count, this`at, buckets
      ensures Linked()
      ensures Distinct(held)
      ensures forall n :: n in at ==> n !in held
      ensures forall n :: n in at || n in held <==> n in old(at) || n in hold
      ensures forall s :: 0 <= s < SLOTS ==> buckets[level, s] == []
      ensures forall l, s :: 0 <= l < LEVELS && 0 <= s < SLOTS && l != level ==> buckets[l, s] == old(buckets[l, s])
    {
      hide Agrees, Distinct;
      held := hold;
      for slot := 0 to SLOTS
        invariant Linked() && Distinct(held)
        invariant forall n :: n in at ==> n !in held
        invariant forall n :: n in at || n in held <==> n in old(at) || n in hold
        invariant forall s :: 0 <= s < slot ==> buckets[level, s] == []
        invariant forall l, s :: 0 <= l < LEVELS && 0 <= s < SLOTS && l != level ==> buckets[l, s] == old(buckets[l, s])
      {
        held := TakeBucket(level, slot, held);
      }
    }

    /** Empties every bucket of the wheel into one list. */
    method TakeAll() returns (hold: seq<Node>)
      requires Linked()
      modifies this`count, this`at, buckets
      ensures Linked() && at == map[]
      ensures Distinct(hold)
      ensures forall n :: n in hold <==> n in old(at)
    {
      hide Agrees, Distinct;
      hold := [];
      NothingIsDistinct<Node>();
      for level := 0 to LEVELS
        invariant Linked() && Distinct(hold)
        invariant forall n :: n in at ==> n !in hold
        invariant forall n :: n in at || n in hold <==> n in old(at)
        invariant forall l, s :: 0 <= l < level && 0 <= s < SLOTS ==> buckets[l, s] == []
      {
        hold := TakeLevel(level, hold);
      }
      EmptyBuckets();
    }

    lemma EmptyBuckets()
      requires Linked() && forall l, s :: 0 <= l < LEVELS && 0 <= s < SLOTS ==> buckets[l, s] == []
      ensures at == map[]
    {
      assert forall n :: n in at ==> n in buckets[at[n].level, at[n].slot];
    }

    /** Places detached nodes against the anchored clock, overdue ones on the very next tick. */
    method Rehome(nodes: seq<Node>, target: nat)
      requires Sweeping(3) && primed && nowTick == AnchorTick(target) && at == map[]
      requires Distinct(nodes) && forall n :: n in nodes ==> n.expiryTick < HORIZON
      modifies this`count, this`at, buckets
      ensures Sweeping(3)
      ensures forall n :: n in at <==> n in nodes
      ensures forall n :: n in at ==> at[n].due == Max(n.expiryTick, Max(target, 1))
    {
      hide Sweeping;
      var i := 0;
      while i < |nodes|
        invariant 0 <= i <= |nodes| && Sweeping(3)
        invariant forall n :: n in at <==> n in nodes[..i]
        invariant forall n :: n in at ==> at[n].due == Max(n.expiryTick, Max(target, 1))
      {
        var n := nodes[i];
        assert n !in nodes[..i];
        assert nodes[..i + 1] == nodes[..i] + [n];
        InsertNode(n, Max(n.expiryTick, Max(target, 1)), 0, LEVELS, 3);
        i := i + 1;
      }
      assert nodes[..i] == nodes;
    }

    /** The first advance: anchor the clock just before the target and re-place every node. */
    method Prime(target: nat)
      requires Valid() && !primed
      modifies this`nowTick, this`primed, this`count, this`at, buckets
      ensures Valid() && primed && nowTick == AnchorTick(target)
      ensures at.Keys == old(at.Keys)
      ensures forall n :: n in at ==> at[n].due == Max(n.expiryTick, Max(target, 1))
    {
      assert forall n :: n in at ==> Kept(n, at[n], 0, 3) && n.expiryTick < HORIZON;
      hide Kept;
      primed := true;
      var hold := TakeAll();
      nowTick := if target > 0 then target - 1 else 0;
      Rehome(hold, target);
    }

    lemma CountIsSize()
      requires Sweeping(3)
      ensures count == 0 <==> at.Keys == {}
    {
    }

    /** The clock of an empty wheel may jump. */
    method Snap(target: nat)
      requires Valid() && primed && count == 0
      modifies this`nowTick
      ensures Valid() && at == map[] && nowTick == Max(old(nowTick), target)
    {
      if target > nowTick {
        nowTick := target;
      }
    }

    /** The effective ticks an advance works with: priming re-clamps them to the target. */
    ghost function DuesFor(target: nat): map<Node, nat>
      reads this
    {
      map n | n in at :: if primed then at[n].due else Max(n.expiryTick, Max(target, 1))
    }

    ghost function StartTick(target: nat): nat
      reads this
    {
      if primed then nowTick else AnchorTick(target)
    }

    /** The stepping loop of advance. */
    method StepTo(target: nat, ghost dues: map<Node, nat>) returns (fired: seq<Firing>)
      requires Valid() && primed && FiredExactly(dues, [], nowTick, nowTick, at)
      modifies this`nowTick, this`count, this`at, buckets
      ensures Valid()
      ensures nowTick == StopTick(old(nowTick), target, false, maxTicksPerCall)
      ensures FiredExactly(dues, fired, old(nowTick), nowTick, at)
    {
      hide Kept, FiredExactly, DrainedExactly, SameDues;
      fired := [];
      var steps := 0;
      while nowTick < target && steps < maxTicksPerCall
        invariant Valid()
        invariant nowTick == old(nowTick) + steps && steps <= maxTicksPerCall
        invariant steps > 0 ==> nowTick <= target
        invariant FiredExactly(dues, fired, old(nowTick), nowTick, at)
      {
        ghost var before := at;
        BeginTick();
        ghost var swept := at;
        var batch := ExpireSlot();
        ExtendFired(dues, fired, batch, old(nowTick), nowTick, before, swept, at);
        fired := fired + batch;
        steps := steps + 1;
      }
    }

    /** The bounded advance with a callback that only records. */
    method Advance(target: nat) returns (fired: seq<Firing>)
      requires Valid()
      modifies this`nowTick, this`primed, this`count, this`at, buckets
      ensures Valid() && primed
      ensures nowTick == StopTick(old(StartTick(target)), target, old(at) == map[], maxTicksPerCall)
      ensures FiredExactly(old(DuesFor(target)), fired, old(StartTick(target)), nowTick, at)
    {
      hide Kept;
      ghost var dues := DuesFor(target);
      if !primed {
        Prime(target);
      }
      assert FiredExactly(dues, [], nowTick, nowTick, at);
      hide FiredExactly;
      if count == 0 {
        NothingToFire(dues, nowTick, Max(nowTick, target), at);
        Snap(target);
        fired := [];
      } else {
        fired := StepTo(target, dues);
      }
    }

    /** When the wheel next touches a linked node: its effective tick at level 0, the digit
        boundary at which it cascades above. */
    ghost function Touched(n: Node): (tick: nat)
      requires n in at && at[n].level < LEVELS
      reads this
      ensures tick <= at[n].due && (at[n].level == 0 ==> tick == at[n].due)
    {
      ServiceTick(at[n].due, at[n].level)
    }

    /** The tick next_due_tick computes for a non-empty slot is when its nodes are touched. */
    lemma CandidateTick(n: Node, cand: nat)
      requires Valid() && n in at
      requires cand == nowTick / Span(at[n].level + 1) * Span(at[n].level + 1) + at[n].slot * Span(at[n].level)
      ensures Touched(n) == if cand <= nowTick then cand + Span(at[n].level + 1) else cand
      ensures nowTick < Touched(n)
    {
      CandidateIsServiceTick(at[n].due, at[n].level, nowTick, at[n].slot);
    }

    /** Scans one level of next_due_tick. */
    method NextInLevel(level: nat, sofar: nat) returns (best: nat)
      requires Valid() && level < LEVELS
      ensures best <= sofar
      ensures forall n :: n in at && at[n].level == level ==> best <= Touched(n)
      ensures best < sofar ==> nowTick < best && exists n :: n in at && at[n].level < LEVELS && best == Touched(n)
    {
      hide Kept, ServiceTick;
      best := sofar;
      var base := nowTick / Span(level + 1) * Span(level + 1);
      for slot := 0 to SLOTS
        invariant best <= sofar
        invariant forall n :: n in at && at[n].level == level && at[n].slot < slot ==> best <= Touched(n)
        invariant best < sofar ==> nowTick < best && exists n :: n in at && at[n].level < LEVELS && best == Touched(n)
      {
        if buckets[level, slot] != [] {
          var cand := base + slot * Span(level);
          assert Agrees(buckets[level, slot], at, level, slot);
          assert buckets[level, slot][0] in at;
          forall n | n in at && at[n].level == level && at[n].slot == slot
            ensures Touched(n) == (if cand <= nowTick then cand + Span(level + 1) else cand) && nowTick < Touched(n)
          {
            CandidateTick(n, cand);
          }
          if cand <= nowTick {
            cand := cand + Span(level + 1);
          }
          if cand < best {
            best := cand;
          }
        }
        assert forall n :: n in at && at[n].level == level && at[n].slot == slot ==> n in buckets[level, slot];
      }
    }

    /** A lower bound on every effective tick, strictly ahead of the clock, and the exact tick at
        which some node is touched. Effective ticks are 64-bit numbers. */
    method NextDueTick() returns (best: nat)
      requires Valid() && forall n :: n in at ==> at[n].due <= NEVER
      ensures at == map[] ==> best == NEVER
      ensures at != map[] ==> nowTick < best && exists n :: n in at && at[n].level < LEVELS && best == Touched(n)
      ensures forall n :: n in at ==> best <= Touched(n) <= at[n].due
    {
      assert forall n :: n in at ==> Kept(n, at[n], nowTick, 3) && nowTick < Touched(n) <= NEVER;
      hide Kept, ServiceTick;
      best := NEVER;
      if count == 0 {
        return;
      }
      for level := 0 to LEVELS
        invariant best <= NEVER
        invariant forall n :: n in at && at[n].level < level ==> best <= Touched(n)
        invariant best < NEVER ==> nowTick < best && exists n :: n in at && at[n].level < LEVELS && best == Touched(n)
      {
        best := NextInLevel(level, best);
      }
      assert |at.Keys| > 0;
    }
  }
}
