/** The simulation scheduler: events are delivered in (due, order) order and virtual time jumps
    between instants at which something is pending. */
module SimRuntimes {
  import opened Basics
  import opened SimNets

  /** A trace entry: the event's due instant and order, and the virtual time it was applied at. */
  datatype Record = Record(due: int, order: nat, at: int)

  predicate Precedes(r: Record, due: int, order: nat) { r.due < due || (r.due == due && r.order < order) }

  /** One round of shard activity: its network calls, whether any shard did work, and the earliest
      timer wakeup the shards report afterwards. */
  datatype Burst = Burst(ops: seq<NetOp>, worked: bool, wakeup: int)

  /** A network call none of whose events is due at once. */
  predicate LaterOp(op: NetOp)
  {
    match op
    case Serve(_, _, _) => true
    case Dial(_, _, _, _, latency) => latency > 0
    case Send(_, _, _, fate) => Soonest(fate) > 0
    case Close(_, _, latency) => latency > 0
    case Task(_, delay) => delay > 0
    case Cut(_, window) => window > 0
  }

  predicate LaterRound(round: Burst)
  {
    forall i :: 0 <= i < |round.ops| ==> LaterOp(round.ops[i])
  }

  /** How many queued events are due. */
  ghost function DueCount(q: seq<Event>, now: int): nat
  {
    |DueSet(q, now)|
  }

  ghost function DueSet(q: seq<Event>, now: int): set<Event>
  {
    set e | e in q && e.due <= now
  }

  const MAX_TIME := 0x7FFF_FFFF_FFFF_FFFF

  /** The environment's k-th round; after the last one it stays silent. */
  function RoundAt(env: seq<Burst>, k: nat): Burst
  {
    if k < |env| then env[k] else Burst([], false, MAX_TIME)
  }

  function RoundsOf(env: seq<Burst>): nat -> Burst { (k: nat) => RoundAt(env, k) }

  /** Exactly the environment's rounds from `from` up to `to` were run in between. */
  ghost predicate RanOn(before: seq<Burst>, ran: seq<Burst>, env: nat -> Burst, from: nat, to: nat)
  {
    && from <= to && |ran| == |before| + to - from && before <= ran
    && forall i :: |before| <= i < |ran| ==> ran[i] == env(from + i - |before|)
  }

  lemma RanNone(ran: seq<Burst>, env: nat -> Burst, k: nat)
    ensures RanOn(ran, ran, env, k, k)
  {
  }

  lemma RanOne(before: seq<Burst>, ran: seq<Burst>, env: nat -> Burst, from: nat, to: nat)
    requires RanOn(before, ran, env, from, to)
    ensures RanOn(before, ran + [env(to)], env, from, to + 1)
  {
  }

  /** The trace is strictly increasing in (due, order), never early, at most 1 ns late, and in step
      with virtual time. */
  ghost predicate TraceHolds(trace: seq<Record>, now: int, next: nat)
  {
    && (forall i, j :: 0 <= i < j < |trace| ==>
          Precedes(trace[i], trace[j].due, trace[j].order) && trace[i].at <= trace[j].at)
    && (forall i :: 0 <= i < |trace| ==>
          trace[i].due <= trace[i].at <= trace[i].due + 1 && trace[i].at <= now && trace[i].order < next)
  }

  /** What is pending comes after what was delivered, and is due no earlier than `floor`. */
  ghost predicate PendingHolds(trace: seq<Record>, q: seq<Event>, floor: int)
  {
    forall e :: e in q ==> floor <= e.due && forall i :: 0 <= i < |trace| ==> Precedes(trace[i], e.due, e.order)
  }

  ghost predicate Recorded(trace: seq<Record>, k: nat) { exists i :: 0 <= i < |trace| && trace[i].order == k }

  ghost predicate Queued(q: seq<Event>, k: nat) { exists i :: 0 <= i < |q| && q[i].order == k }

  /** No event is lost or delivered twice: each that was ever queued is either pending or in the trace. */
  ghost predicate AllThere(trace: seq<Record>, q: seq<Event>, next: nat)
  {
    forall k: nat :: k < next ==> (Recorded(trace, k) <==> !Queued(q, k))
  }

  lemma ThereGrows(trace: seq<Record>, q: seq<Event>, r: seq<Event>, now: int, next: nat, next': nat)
    requires AllThere(trace, q, next) && Grew(q, r, now, next) && next' == next + |r| - |q|
    requires TraceHolds(trace, now, next)
    ensures AllThere(trace, r, next')
  {
    forall k: nat | k < next' ensures Recorded(trace, k) <==> !Queued(r, k) {
      if k >= next {
        assert r[|q| + k - next].order == k;
      } else {
        SameQueued(q, r, now, next, k);
      }
    }
  }

  lemma SameQueued(q: seq<Event>, r: seq<Event>, now: int, next: nat, k: nat)
    requires Grew(q, r, now, next) && k < next
    ensures Queued(q, k) <==> Queued(r, k)
  {
    if Queued(q, k) {
      var i :| 0 <= i < |q| && q[i].order == k;
      assert r[i] == q[i];
    }
    if Queued(r, k) {
      var i :| 0 <= i < |r| && r[i].order == k;
      assert q[i] == r[i];
    }
  }

  lemma ThereDelivered(trace: seq<Record>, q: seq<Event>, e: Event, rest: seq<Event>, now: int, next: nat)
    requires AllThere(trace, q, next) && e in q
    requires (forall f :: f in rest ==> f in q && f.order != e.order) && forall f :: f in q && f != e ==> f in rest
    ensures AllThere(trace + [Record(e.due, e.order, now)], rest, next)
  {
    var r := trace + [Record(e.due, e.order, now)];
    assert r[|trace|].order == e.order;
    forall k: nat | k < next ensures Recorded(r, k) <==> !Queued(rest, k) {
      if k != e.order {
        assert Recorded(r, k) <==> Recorded(trace, k) by {
          if Recorded(trace, k) {
            var i :| 0 <= i < |trace| && trace[i].order == k;
            assert r[i] == trace[i];
          }
        }
        QueuedMeans(q, k);
        QueuedMeans(rest, k);
      } else {
        QueuedMeans(rest, k);
      }
    }
  }

  lemma QueuedMeans(q: seq<Event>, k: nat)
    ensures Queued(q, k) <==> exists f :: f in q && f.order == k
  {
    if f :| f in q && f.order == k {
      var i :| 0 <= i < |q| && q[i] == f;
      assert q[i].order == k;
    }
    if Queued(q, k) {
      var i :| 0 <= i < |q| && q[i].order == k;
      assert q[i] in q;
    }
  }

  /** The states that a list of network calls runs through. */
  ghost predicate IsTrail(trail: seq<Fabric>, ops: seq<NetOp>)
  {
    |trail| == |ops| + 1 && forall i :: 0 <= i < |ops| ==> Acted(trail[i], ops[i], trail[i + 1])
  }

  lemma PendingGrows(trace: seq<Record>, q: seq<Event>, r: seq<Event>, now: int, floor: int, next: nat)
    requires TraceHolds(trace, now, next) && PendingHolds(trace, q, floor) && Grew(q, r, now, next) && floor <= now
    ensures PendingHolds(trace, r, floor)
  {
  }

  lemma DeliverOne(trace: seq<Record>, q: seq<Event>, e: Event, rest: seq<Event>, now: int, next: nat)
    requires TraceHolds(trace, now, next) && PendingHolds(trace, q, now - 1) && e in q && e.due <= now && e.order < next
    requires forall f :: f in rest ==> f in q && Before(e, f)
    ensures TraceHolds(trace + [Record(e.due, e.order, now)], now, next)
    ensures PendingHolds(trace + [Record(e.due, e.order, now)], rest, now - 1)
  {
  }

  class SimRuntime {
    const net: SimNet
    var now: int
    var trace: seq<Record>
    /** The rounds of shard activity so far. */
    ghost var ran: seq<Burst>

    /** Valid with every pending event due no earlier than `floor`. */
    ghost predicate ValidFrom(floor: int)
      reads this, net
    {
      && net.Valid() && net.now == now
      && TraceHolds(trace, now, net.next) && PendingHolds(trace, net.q, floor) && AllThere(trace, net.q, net.next)
    }

    ghost predicate Valid()
      reads this, net
    {
      ValidFrom(now - 1)
    }

    constructor (start: int)
      ensures Valid() && fresh(net) && now == start && trace == [] && ran == []
    {
      net := new SimNet(start);
      now, trace, ran := start, [], [];
    }

    method Run(op: NetOp)
      requires net.Valid()
      modifies net`q, net`next, net`links, net`fdLink, net`listeners, net`dropped, net`sent
      ensures net.Valid() && Acted(old(net.Full()), op, net.Full())
      ensures Grew(old(net.q), net.q, net.now, old(net.next)) && net.next == old(net.next) + |net.q| - |old(net.q)|
      ensures LaterOp(op) ==> Grew(old(net.q), net.q, net.now + 1, old(net.next))
    {
      hide NetHolds;
      match op
      case Serve(port, backend, fd) => net.Listen(port, backend, fd);
      case Dial(src, fd, port, peerFd, latency) => net.Connect(src, fd, port, peerFd, latency);
      case Send(src, fd, iov, fate) => net.DeliverBytes(src, fd, iov, fate);
      case Close(src, fd, latency) => net.Detach(src, fd, latency);
      case Task(shard, delay) => net.PostTask(shard, delay);
      case Cut(link, window) => net.Partition(link, window);
    }

    /** One round of shard activity at the current instant. */
    method RunShards(round: Burst, ghost floor: int) returns (worked: bool, ghost trail: seq<Fabric>)
      requires ValidFrom(floor) && floor <= now
      modifies this`ran
      modifies net`q, net`next, net`links, net`fdLink, net`listeners, net`dropped, net`sent
      ensures ValidFrom(floor) && worked == round.worked && IsTrail(trail, round.ops) && ran == old(ran) + [round]
      ensures trail[0] == old(net.Full()) && trail[|round.ops|] == net.Full()
      ensures round.ops == [] ==> net.q == old(net.q)
      ensures LaterRound(round) ==> AddedLater(old(net.q), net.q, now)
    {
      hide SimNet.Valid, TraceHolds, PendingHolds, LaterOp, Acted, AllThere, SimNet.Full;
      trail := [net.Full()];
      for i := 0 to |round.ops|
        invariant ValidFrom(floor) && ran == old(ran)
        invariant |trail| == i + 1 && IsTrail(trail, round.ops[..i]) && trail[0] == old(net.Full()) && trail[i] == net.Full()
        invariant i == 0 ==> net.q == old(net.q)
        invariant LaterRound(round) ==> AddedLater(old(net.q), net.q, now)
      {
        ghost var q0, next0 := net.q, net.next;
        Run(round.ops[i]);
        PendingGrows(trace, q0, net.q, now, floor, next0);
        TraceLater(trace, now, now, next0, net.next);
        ThereGrows(trace, q0, net.q, now, next0, net.next);
        assert round.ops[..i + 1] == round.ops[..i] + [round.ops[i]];
        trail := trail + [net.Full()];
      }
      assert round.ops[..|round.ops|] == round.ops;
      ran := ran + [round];
      worked := round.worked;
    }

    /** due_next: the earliest pending event is due. */
    method DueNow() returns (due: bool)
      requires net.Valid()
      ensures due <==> exists e :: e in net.q && e.due <= now
    {
      if net.q == [] {
        return false;
      }
      var k := net.FindEarliest();
      due := net.q[k].due <= now;
      assert net.q[k] in net.q;
      assert forall i :: 0 <= i < |net.q| ==> net.q[k].due <= net.q[i].due;
    }

    /** Pops, records and applies the earliest event. */
    method DeliverNext() returns (e: Event)
      requires Valid() && exists e :: e in net.q && e.due <= now
      modifies this`trace, net`q, net`links, net`fed
      ensures Valid() && |net.q| == |old(net.q)| - 1 && trace == old(trace) + [Record(e.due, e.order, now)]
      ensures e in old(net.q) && e.due <= now && forall f :: f in old(net.q) && f != e ==> f in net.q && Before(e, f)
      ensures DueCount(net.q, now) == old(DueCount(net.q, now)) - 1
    {
      hide NetHolds, TraceHolds, PendingHolds, AllThere, DueCount;
      ghost var q0 := net.q;
      OrdersKnown(net.View());
      e := net.Step();
      assert e.due <= now;
      ThereDelivered(trace, q0, e, net.q, now, net.next);
      CountPopped(q0, net.q, e, now);
      DeliverOne(trace, q0, e, net.q, now, net.next);
      trace := trace + [Record(e.due, e.order, now)];
    }

    /** Delivers everything due now, with a round of shard activity after each event, for any run of it in
        which finitely many rounds do something. */
    method DeliverDue(env: seq<Burst>, k: nat) returns (used: nat)
      requires Valid()
      modifies this`trace, this`ran
      modifies net`q, net`next, net`links, net`fdLink, net`listeners, net`dropped, net`sent, net`fed
      ensures Valid() && old(trace) <= trace && k <= used
      ensures used - k == |trace| - |old(trace)| && RanOn(old(ran), ran, RoundsOf(env), k, used)
      ensures forall e :: e in net.q ==> now < e.due
      ensures |trace| == |old(trace)| ==> net.q == old(net.q)
    {
      hide NetHolds, TraceHolds, PendingHolds, AllThere, IsTrail, SimNet.Full, Acted, RanOn;
      used := k;
      RanNone(ran, RoundsOf(env), k);
      var due := DueNow();
      while due
        invariant Valid() && old(trace) <= trace && k <= used
        invariant used - k == |trace| - |old(trace)| && RanOn(old(ran), ran, RoundsOf(env), k, used)
        invariant |trace| == |old(trace)| ==> net.q == old(net.q)
        invariant due <==> exists e :: e in net.q && e.due <= now
        decreases if used < |env| then |env| - used else 0, |net.q|
      {
        var e := DeliverNext();
        RanOne(old(ran), ran, RoundsOf(env), k, used);
        var worked, trail := RunShards(RoundAt(env, used), now - 1);
        used := used + 1;
        due := DueNow();
      }
    }

    /** The same loop against shards that never fall silent: when no round queues an event that is due at
        once, it ends, after exactly the events that were due and as many rounds. */
    method DeliverDueLater(env: nat -> Burst, k: nat) returns (used: nat)
      requires Valid() && forall j: nat :: LaterRound(env(j))
      modifies this`trace, this`ran
      modifies net`q, net`next, net`links, net`fdLink, net`listeners, net`dropped, net`sent, net`fed
      ensures Valid() && old(trace) <= trace && |trace| == |old(trace)| + old(DueCount(net.q, now))
      ensures used == k + old(DueCount(net.q, now)) && DueCount(net.q, now) == 0 && RanOn(old(ran), ran, env, k, used)
      ensures forall e :: e in net.q ==> now < e.due
    {
      hide NetHolds, TraceHolds, PendingHolds, AllThere, LaterRound, DueCount, AddedLater, IsTrail, SimNet.Full, Acted, RanOn;
      used := k;
      RanNone(ran, env, k);
      var due := DueNow();
      while due
        invariant Valid() && old(trace) <= trace
        invariant |trace| + DueCount(net.q, now) == |old(trace)| + old(DueCount(net.q, now))
        invariant used + DueCount(net.q, now) == k + old(DueCount(net.q, now)) && RanOn(old(ran), ran, env, k, used)
        invariant due <==> exists e :: e in net.q && e.due <= now
        decreases DueCount(net.q, now)
      {
        var e := DeliverNext();
        ghost var q1 := net.q;
        RanOne(old(ran), ran, env, k, used);
        var worked, trail := RunShards(env(used), now - 1);
        LaterCount(q1, net.q, now);
        used := used + 1;
        due := DueNow();
      }
      NoneDue(net.q, now);
    }

    /** One pass of run_until's loop against such shards: everything due is delivered and, unless a shard
        did work afterwards, time jumps. */
    method Pass(target: int, env: nat -> Burst, k: nat) returns (used: nat)
      requires Valid() && now < target && forall j: nat :: LaterRound(env(j))
      modifies this`now, this`trace, this`ran
      modifies net`now, net`q, net`next, net`links, net`fdLink, net`listeners, net`dropped, net`sent, net`fed
      ensures Valid() && old(trace) <= trace && now <= target && RanOn(old(ran), ran, env, k, used)
      ensures var last := k + old(DueCount(net.q, now));
              if env(last).worked then now == old(now) && used == last + 1 && DueCount(net.q, now) == 0 else old(now) < now
    {
      hide NetHolds, TraceHolds, PendingHolds, AllThere, LaterRound, DueCount, AddedLater, IsTrail, SimNet.Full, Acted, RanOn;
      used := DeliverDueLater(env, k);
      RaiseFloor();
      var round := env(used);
      ghost var q1 := net.q;
      RanOne(old(ran), ran, env, k, used);
      var worked, trail := RunShards(round, now);
      LaterCount(q1, net.q, now);
      used := used + 1;
      if !worked {
        Jump(target, round.wakeup);
        RanOne(old(ran), ran, env, k, used);
        var more, after := RunShards(env(used), now - 1);
        used := used + 1;
      } else {
        LowerFloor();
      }
    }

    /** run_until against shards that never fall silent for good: when no round queues an event that is
        due at once and from every round on there is one without work, it ends, at the target. */
    method RunUntilLater(target: int, env: nat -> Burst, ghost idle: nat -> nat)
      requires Valid() && now <= target && forall j: nat :: LaterRound(env(j))
      requires forall k: nat :: k <= idle(k) && !env(idle(k)).worked
      modifies this`now, this`trace, this`ran
      modifies net`now, net`q, net`next, net`links, net`fdLink, net`listeners, net`dropped, net`sent, net`fed
      ensures Valid() && now == target && old(trace) <= trace
    {
      hide SimNet.Valid, TraceHolds, PendingHolds, AllThere, LaterRound, DueCount, IsTrail, SimNet.Full, Acted, RanOn;
      var k := 0;
      ghost var next := idle(0);
      while now < target
        invariant Valid() && old(trace) <= trace && now <= target
        invariant k <= next && !env(next).worked
        decreases target - now, DueCount(net.q, now), next - k
      {
        ghost var quiet := DueCount(net.q, now) == 0;
        k := Pass(target, env, k);
        if !quiet || k > next {
          next := idle(k);
        }
      }
    }

    /** A shard that reports work in every round: after any number of passes time has not moved. */
    method BusyForever(target: int, env: nat -> Burst, passes: nat)
      requires Valid() && now < target && forall j: nat :: LaterRound(env(j)) && env(j).worked
      modifies this`now, this`trace, this`ran
      modifies net`now, net`q, net`next, net`links, net`fdLink, net`listeners, net`dropped, net`sent, net`fed
      ensures Valid() && now == old(now)
    {
      hide SimNet.Valid, TraceHolds, PendingHolds, AllThere, LaterRound, DueCount, IsTrail, SimNet.Full, Acted, RanOn;
      var k := 0;
      for i := 0 to passes
        invariant Valid() && now == old(now)
      {
        k := Pass(target, env, k);
      }
    }

    /** A task that posts itself without delay: after any number of deliveries something is due, so the
        delivery loop never ends. */
    method PostedForever(shard: nat, rounds: nat)
      requires Valid() && exists e :: e in net.q && e.due <= now
      modifies this`trace, this`ran
      modifies net`q, net`next, net`links, net`fdLink, net`listeners, net`dropped, net`sent, net`fed
      ensures Valid() && |trace| == |old(trace)| + rounds && now == old(now)
      ensures exists e :: e in net.q && e.due <= now
    {
      hide NetHolds, TraceHolds, PendingHolds, AllThere;
      for i := 0 to rounds
        invariant Valid() && |trace| == |old(trace)| + i
        invariant exists e :: e in net.q && e.due <= now
      {
        var e := DeliverNext();
        ghost var q0, next0 := net.q, net.next;
        Run(Task(shard, 0));
        PendingGrows(trace, q0, net.q, now, now - 1, next0);
        TraceLater(trace, now, now, next0, net.next);
        ThereGrows(trace, q0, net.q, now, next0, net.next);
        assert net.q[|q0|] in net.q && net.q[|q0|].due == now;
      }
    }

    /** The earliest pending due instant, or the end of time. */
    method NextDue() returns (due: int)
      requires net.Valid()
      ensures (due == MAX_TIME && net.q == []) || exists e :: e in net.q && due == e.due
      ensures forall e :: e in net.q ==> due <= e.due
    {
      if net.q == [] {
        return MAX_TIME;
      }
      var k := net.FindEarliest();
      due := net.q[k].due;
      assert net.q[k] in net.q;
      assert forall i :: 0 <= i < |net.q| ==> net.q[k].due <= net.q[i].due;
    }

    /** set_time for the runtime and its network. */
    method SetTime(t: int)
      requires ValidFrom(now) && now <= t && forall e :: e in net.q ==> t - 1 <= e.due
      modifies this`now, net`now
      ensures Valid() && now == t
    {
      hide NetHolds, TraceHolds, PendingHolds, AllThere;
      PendingLater(trace, net.q, now, t - 1);
      TraceLater(trace, now, t, net.next, net.next);
      now := t;
      net.now := t;
    }

    /** Quiescent at the current instant: jump to the earliest pending instant, a timer, or the
        limit; when none lies ahead, by 1 ns. */
    method Jump(limit: int, wakeup: int)
      requires ValidFrom(now) && now < limit
      modifies this`now, net`now
      ensures Valid() && old(now) < now <= limit
      ensures limit <= MAX_TIME ==> Earliest(old(now), limit, wakeup, net.q, now)
    {
      hide NetHolds, TraceHolds, PendingHolds, AllThere;
      var next := limit;
      var due := NextDue();
      if due < next {
        next := due;
      }
      if wakeup < next {
        next := wakeup;
      }
      if next <= now {
        next := now + 1;
      }
      PendingFrom(trace, net.q, now);
      SetTime(next);
    }

    /** run_until, for any run of it in which finitely many rounds do something. Time never runs backwards
        exactly when the target is not in the past; then it ends at the target, and the trace guarantee
        is kept. */
    method RunUntil(target: int, env: seq<Burst>)
      requires Valid()
      modifies this`now, this`trace, this`ran
      modifies net`now, net`q, net`next, net`links, net`fdLink, net`listeners, net`dropped, net`sent, net`fed
      ensures now == target && old(trace) <= trace
      ensures old(now) <= target ==> Valid()
      ensures target < old(now) ==> trace == old(trace)
    {
      hide SimNet.Valid, TraceHolds, PendingHolds, AllThere, IsTrail, SimNet.Full, Acted, RanOn;
      var k := 0;
      while now < target
        invariant Valid() && old(trace) <= trace
        invariant old(now) <= target ==> now <= target
        invariant target < old(now) ==> now == old(now) && trace == old(trace)
        decreases if k < |env| then |env| - k else 0, target - now
      {
        k := DeliverDue(env, k);
        RaiseFloor();
        var round := RoundAt(env, k);
        var worked, trail := RunShards(round, now);
        k := k + 1;
        if !worked {
          Jump(target, round.wakeup);
          var more, after := RunShards(RoundAt(env, k), now - 1);
          k := k + 1;
        } else {
          LowerFloor();
        }
      }
      now := target;
      net.now := target;
    }

    /** run_until_idle: reports idle only when nothing is pending before the end of time, and otherwise
        only after all its rounds. */
    method RunUntilIdle(maxSteps: nat, env: seq<Burst>) returns (idle: bool, rounds: nat)
      requires Valid()
      modifies this`now, this`trace, this`ran
      modifies net`now, net`q, net`next, net`links, net`fdLink, net`listeners, net`dropped, net`sent, net`fed
      ensures Valid() && old(now) <= now && old(trace) <= trace
      ensures idle ==> forall e :: e in net.q ==> MAX_TIME <= e.due
      ensures idle ==> ran != [] && !ran[|ran| - 1].worked && MAX_TIME <= ran[|ran| - 1].wakeup
      ensures rounds <= maxSteps && (!idle ==> rounds == maxSteps)
    {
      hide SimNet.Valid, TraceHolds, PendingHolds, AllThere, IsTrail, SimNet.Full, Acted, RanOn;
      var k := 0;
      rounds := 0;
      while rounds < maxSteps
        invariant Valid() && old(now) <= now && old(trace) <= trace && rounds <= maxSteps
      {
        rounds := rounds + 1;
        var delivered := |trace|;
        k := DeliverDue(env, k);
        var progressed := |trace| > delivered;
        RaiseFloor();
        var round := RoundAt(env, k);
        var worked, trail := RunShards(round, now);
        k := k + 1;
        if worked || progressed {
          LowerFloor();
          continue;
        }
        var due := NextDue();
        var next := if due < round.wakeup then due else round.wakeup;
        if next >= MAX_TIME {
          LowerFloor();
          return true, rounds;
        }
        PendingFrom(trace, net.q, now);
        SetTime(if next <= now then now + 1 else next);
        var more, after := RunShards(RoundAt(env, k), now - 1);
        k := k + 1;
      }
      return false, rounds;
    }

    /** Every direction of every link has been fed a prefix of the bytes sent into it, in order. */
    lemma StreamsStayOrdered(d: Dir)
      requires Valid() && d.link < |net.links|
      ensures Of(net.fed, d) <= Of(net.sent, d)
    {
      FedIsPrefix(net.View(), d);
    }

    lemma RaiseFloor()
      requires Valid() && forall e :: e in net.q ==> now <= e.due
      ensures ValidFrom(now)
    {
    }

    lemma LowerFloor()
      requires ValidFrom(now)
      ensures Valid()
    {
    }
  }

  /** The first instant after `now` at which anything is to happen: an event, a timer, or the limit; when one
      of them is overdue, 1 ns later. */
  ghost predicate Earliest(now: int, limit: int, wakeup: int, q: seq<Event>, t: int)
  {
    var overdue := wakeup <= now || exists e :: e in q && e.due <= now;
    if overdue then t == now + 1
    else
      && t <= limit && t <= wakeup && (forall e :: e in q ==> t <= e.due)
      && (t == limit || t == wakeup || exists e :: e in q && t == e.due)
  }

  lemma PendingFrom(trace: seq<Record>, q: seq<Event>, floor: int)
    requires PendingHolds(trace, q, floor)
    ensures forall e :: e in q ==> floor <= e.due
  {
  }

  /** Jumping to `next` keeps what is pending at most 1 ns late. */
  lemma PendingLater(trace: seq<Record>, q: seq<Event>, floor: int, floor': int)
    requires PendingHolds(trace, q, floor) && forall e :: e in q ==> floor' <= e.due
    ensures PendingHolds(trace, q, floor')
  {
  }

  lemma TraceLater(trace: seq<Record>, now: int, later: int, next: nat, next': nat)
    requires TraceHolds(trace, now, next) && now <= later && next <= next'
    ensures TraceHolds(trace, later, next')
  {
  }

  /** Events were only added, none of them due. */
  ghost predicate AddedLater(q: seq<Event>, r: seq<Event>, now: int)
  {
    q <= r && forall i :: |q| <= i < |r| ==> r[i].due > now
  }

  lemma LaterCount(q: seq<Event>, r: seq<Event>, now: int)
    requires AddedLater(q, r, now)
    ensures DueCount(r, now) == DueCount(q, now)
  {
    forall e | e in r && e.due <= now ensures e in q {
      var i :| 0 <= i < |r| && r[i] == e;
      assert r[i] == q[i];
    }
    forall e | e in q ensures e in r {
      var i :| 0 <= i < |q| && q[i] == e;
      assert r[i] == e;
    }
    assert DueSet(r, now) == DueSet(q, now);
  }

  lemma NoneDue(q: seq<Event>, now: int)
    requires forall e :: e in q ==> e.due > now
    ensures DueCount(q, now) == 0
  {
    assert DueSet(q, now) == {};
  }

  lemma CountPopped(q: seq<Event>, r: seq<Event>, e: Event, now: int)
    requires e in q && e.due <= now && (forall f :: f in r ==> f in q && Before(e, f)) && forall f :: f in q && f != e ==> f in r
    ensures DueCount(r, now) == DueCount(q, now) - 1
  {
    assert DueSet(r, now) == DueSet(q, now) - {e};
  }
}
