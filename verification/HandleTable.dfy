/** The generation-checked handle table: slots, the free and the deferred list, and how far a stale
    handle is from ever naming another object. */
module HandleTables {
  import opened Basics
  import opened Lists

  /** Generations run over 1 .. 2^32 - 1; 0 marks an invalid handle. */
  const GENERATIONS := 0xFFFF_FFFF

  datatype Handle = Handle(idx: nat, gen: nat)

  datatype Slot<T> = Slot(gen: nat, content: Option<T>)

  /** `releases` counts how often each slot was released; it is history, not machine state. */
  datatype Table<T> = Table(firstGen: nat, slots: seq<Slot<T>>, free: seq<nat>, deferred: seq<nat>, live: nat,
                            releases: seq<nat>)

  function NextGen(gen: nat): nat { if gen == GENERATIONS then 1 else gen + 1 }

  /** The generation of a slot after a number of releases. */
  function GenAfter(firstGen: nat, releases: nat): (gen: nat)
    requires 1 <= firstGen
    ensures 1 <= gen <= GENERATIONS
  {
    (firstGen - 1 + releases) % GENERATIONS + 1
  }

  function EmptyTable<T>(firstGen: nat): Table<T>
  {
    Table(if firstGen == 0 then 1 else firstGen, [], [], [], 0, [])
  }

  // ---- operations on values

  function Get<T>(t: Table<T>, h: Handle): Option<T>
  {
    if h.gen == 0 || h.idx >= |t.slots| || t.slots[h.idx].gen != h.gen then None else t.slots[h.idx].content
  }

  /** Reuses the slot freed last, or grows the table. */
  function Emplace<T>(t: Table<T>, v: T): (r: (Table<T>, Handle))
    requires Valid(t)
  {
    if t.free != [] then
      var idx := t.free[|t.free| - 1];
      assert (t.free + t.deferred)[|t.free| - 1] == idx && idx in t.free + t.deferred;
      (t.(slots := t.slots[idx := t.slots[idx].(content := Some(v))], free := t.free[..|t.free| - 1], live := t.live + 1),
       Handle(idx, t.slots[idx].gen))
    else
      (t.(slots := t.slots + [Slot(t.firstGen, Some(v))], live := t.live + 1, releases := t.releases + [0]),
       Handle(|t.slots|, t.firstGen))
  }

  /** Invalidates at once, defers reuse; a stale or foreign handle changes nothing. */
  function Release<T>(t: Table<T>, h: Handle): Table<T>
    requires Valid(t)
  {
    LiveIsPositive(t, h);
    if Get(t, h).None? then t
    else
      t.(slots := t.slots[h.idx := Slot(NextGen(h.gen), None)], live := t.live - 1, deferred := t.deferred + [h.idx],
         releases := t.releases[h.idx := t.releases[h.idx] + 1])
  }

  function Reclaim<T>(t: Table<T>): Table<T> { t.(free := t.free + t.deferred, deferred := []) }

  // ---- invariant

  ghost function LiveSlots<T>(t: Table<T>): set<nat>
  {
    set i: nat | i < |t.slots| && t.slots[i].content.Some?
  }

  /** Every slot is in exactly one of: live, deferred, free; and its generation counts its releases. */
  ghost predicate Valid<T>(t: Table<T>)
  {
    && 1 <= t.firstGen <= GENERATIONS && |t.releases| == |t.slots|
    && Distinct(t.free + t.deferred)
    && (forall i :: i in t.free + t.deferred <==> 0 <= i < |t.slots| && t.slots[i].content.None?)
    && t.live == |LiveSlots(t)|
    && (forall i :: 0 <= i < |t.slots| ==> t.slots[i].gen == GenAfter(t.firstGen, t.releases[i]))
  }

  lemma LiveIsPositive<T>(t: Table<T>, h: Handle)
    requires Valid(t)
    ensures Get(t, h).Some? ==> t.live > 0
  {
    if Get(t, h).Some? {
      assert h.idx in LiveSlots(t);
    }
  }

  lemma EmptyIsValid<T>(firstGen: nat)
    requires firstGen <= GENERATIONS
    ensures Valid(EmptyTable<T>(firstGen))
  {
  }

  lemma ReuseKeeps<T>(t: Table<T>, v: T)
    requires Valid(t) && t.free != []
    ensures Valid(Emplace(t, v).0)
  {
    var (r, h) := Emplace(t, v);
    var k := |t.free| - 1;
    var all := t.free + t.deferred;
    assert all[k] == h.idx;
    assert r.free + r.deferred == all[..k] + all[k + 1..];
    assert LiveSlots(r) == LiveSlots(t) + {h.idx};
    forall i ensures i in r.free + r.deferred <==> i in all && i != h.idx {
      RemovedOne(all, k, i);
    }
  }

  lemma GrowKeeps<T>(t: Table<T>, v: T)
    requires Valid(t) && t.free == []
    ensures Valid(Emplace(t, v).0)
  {
    hide Distinct, GenAfter;
    var (r, h) := Emplace(t, v);
    assert r.free + r.deferred == t.free + t.deferred;
    assert LiveSlots(r) == LiveSlots(t) + {h.idx};
    FirstGeneration(t.firstGen);
  }

  lemma FirstGeneration(firstGen: nat)
    requires 1 <= firstGen <= GENERATIONS
    ensures GenAfter(firstGen, 0) == firstGen
  {
  }

  lemma EmplaceKeeps<T>(t: Table<T>, v: T)
    requires Valid(t)
    ensures var (r, h) := Emplace(t, v);
            && Valid(r) && Get(r, h) == Some(v) && Issued(r, h, r.releases[h.idx])
            && (forall g: Handle :: g != h && Get(t, g).Some? ==> Get(r, g) == Get(t, g))
  {
    hide Distinct, LiveSlots;
    var (r, h) := Emplace(t, v);
    if t.free != [] {
      ReuseKeeps(t, v);
      assert (t.free + t.deferred)[|t.free| - 1] == h.idx && h.idx in t.free + t.deferred;
    } else {
      GrowKeeps(t, v);
    }
  }

  lemma RemovedOne(s: seq<nat>, k: nat, i: nat)
    requires Distinct(s) && k < |s|
    ensures i in s[..k] + s[k + 1..] <==> i in s && i != s[k]
    ensures Distinct(s[..k] + s[k + 1..])
  {
    var r := s[..k] + s[k + 1..];
    if i in s && i != s[k] {
      var j :| 0 <= j < |s| && s[j] == i;
      assert r[if j < k then j else j - 1] == i;
    }
  }

  lemma ReleaseKeeps<T>(t: Table<T>, h: Handle)
    requires Valid(t)
    ensures Valid(Release(t, h))
    ensures Get(Release(t, h), h).None? || Get(t, h).None?
  {
    var r := Release(t, h);
    if Get(t, h).Some? {
      var all := t.free + t.deferred;
      assert r.free + r.deferred == all + [h.idx];
      AppendKeepsDistinct(all, h.idx);
      assert LiveSlots(r) == LiveSlots(t) - {h.idx};
      assert h.idx in LiveSlots(t);
      NextGenAfter(t.firstGen, t.releases[h.idx]);
    }
  }

  lemma NextGenAfter(firstGen: nat, releases: nat)
    requires 1 <= firstGen
    ensures NextGen(GenAfter(firstGen, releases)) == GenAfter(firstGen, releases + 1)
  {
  }

  lemma ReclaimKeeps<T>(t: Table<T>)
    requires Valid(t)
    ensures Valid(Reclaim(t))
    ensures forall h :: Get(Reclaim(t), h) == Get(t, h)
  {
    assert Reclaim(t).free + Reclaim(t).deferred == t.free + t.deferred;
    assert LiveSlots(Reclaim(t)) == LiveSlots(t);
  }

  /** The handle was issued for the object its slot got after that many releases. */
  ghost predicate Issued<T>(t: Table<T>, h: Handle, birth: nat)
  {
    1 <= t.firstGen && h.idx < |t.releases| && birth <= t.releases[h.idx] && h.gen == GenAfter(t.firstGen, birth)
  }

  // ---- whole runs

  datatype Op<T> = OpEmplace(value: T) | OpRelease(h: Handle) | OpReclaim

  function Apply<T>(t: Table<T>, op: Op<T>): Table<T>
    requires Valid(t)
  {
    match op
    case OpEmplace(v) => Emplace(t, v).0
    case OpRelease(h) => Release(t, h)
    case OpReclaim => Reclaim(t)
  }

  lemma ApplyKeeps<T>(t: Table<T>, op: Op<T>)
    requires Valid(t)
    ensures Valid(Apply(t, op))
  {
    match op
    case OpEmplace(v) => EmplaceKeeps(t, v);
    case OpRelease(h) => ReleaseKeeps(t, h);
    case OpReclaim => ReclaimKeeps(t);
  }

  function After<T>(t: Table<T>, ops: seq<Op<T>>): (r: Table<T>)
    requires Valid(t)
    ensures Valid(r)
    decreases |ops|
  {
    if ops == [] then t
    else
      ApplyKeeps(t, ops[0]);
      After(Apply(t, ops[0]), ops[1..])
  }

  /** A slot only ever counts its releases up, and keeps its object until the next one. */
  ghost predicate SlotContinues<T>(t: Table<T>, r: Table<T>, idx: nat)
  {
    && idx < |t.slots| <= |r.slots| && |t.releases| == |t.slots| && |r.releases| == |r.slots|
    && r.firstGen == t.firstGen && t.releases[idx] <= r.releases[idx]
    && (r.releases[idx] == t.releases[idx] && t.slots[idx].content.Some? ==> r.slots[idx].content == t.slots[idx].content)
  }

  lemma ApplyContinues<T>(t: Table<T>, op: Op<T>, idx: nat)
    requires Valid(t) && idx < |t.slots|
    ensures SlotContinues(t, Apply(t, op), idx)
  {
    if op.OpEmplace? && t.free != [] {
      var k := |t.free| - 1;
      assert (t.free + t.deferred)[k] == t.free[k] && t.free[k] in t.free + t.deferred;
    }
  }

  lemma {:induction false} RunContinues<T>(t: Table<T>, ops: seq<Op<T>>, idx: nat)
    requires Valid(t) && idx < |t.slots|
    ensures SlotContinues(t, After(t, ops), idx)
    decreases |ops|
  {
    hide Apply, GenAfter;
    if ops != [] {
      ApplyKeeps(t, ops[0]);
      ApplyContinues(t, ops[0], idx);
      RunContinues(Apply(t, ops[0]), ops[1..], idx);
    }
  }

  /** Two generations of a slot are the same exactly when the releases between them are a multiple
      of 2^32 - 1. */
  lemma SameGeneration(firstGen: nat, birth: nat, releases: nat)
    requires 1 <= firstGen && birth <= releases
    ensures GenAfter(firstGen, birth) == GenAfter(firstGen, releases) <==> (releases - birth) % GENERATIONS == 0
  {
  }

  /** What a handle resolves to after any run: its own object until its slot is released, then
      nothing, except when the slot is live again after an exact multiple of 2^32 - 1 releases. */
  lemma StaleHandles<T>(t: Table<T>, v: T, issued: Table<T>, h: Handle, ops: seq<Op<T>>)
    requires Valid(t) && Emplace(t, v) == (issued, h) && Valid(issued)
    ensures var r := After(issued, ops);
            && h.idx < |issued.releases| && h.idx < |r.releases| == |r.slots|
            && issued.releases[h.idx] <= r.releases[h.idx]
            && var since := r.releases[h.idx] - issued.releases[h.idx];
            && (since == 0 ==> Get(r, h) == Some(v))
            && (0 < since < GENERATIONS ==> Get(r, h) == None)
            && (Get(r, h).Some? <==> r.slots[h.idx].content.Some? && since % GENERATIONS == 0)
  {
    hide GenAfter, After, Emplace, Distinct, LiveSlots;
    EmplaceKeeps(t, v);
    var r := After(issued, ops);
    RunContinues(issued, ops, h.idx);
    SameGeneration(issued.firstGen, issued.releases[h.idx], r.releases[h.idx]);
  }

  // ---- when slots are used again

  /** Slots that cannot be given out now: live ones and those waiting for reclamation. */
  function Occupied<T>(t: Table<T>): nat { t.live + |t.deferred| }

  /** The most slots that were occupied at once. */
  function Peak<T>(t: Table<T>, ops: seq<Op<T>>): (n: nat)
    requires Valid(t)
    ensures Occupied(t) <= n
    decreases |ops|
  {
    if ops == [] then Occupied(t)
    else
      ApplyKeeps(t, ops[0]);
      Max(Occupied(t), Peak(Apply(t, ops[0]), ops[1..]))
  }

  /** Every slot is live, free or deferred, and only one of these. */
  lemma SlotsAddUp<T>(t: Table<T>)
    requires Valid(t)
    ensures |t.slots| == t.live + |t.free| + |t.deferred|
  {
    hide Distinct, GenAfter, Members;
    var all := t.free + t.deferred;
    MembersOf(all);
    TwoParts(|t.slots|, Members(all), LiveSlots(t));
  }

  function Members(s: seq<nat>): set<nat> { if s == [] then {} else {s[0]} + Members(s[1..]) }

  lemma {:induction false} MembersOf(s: seq<nat>)
    requires Distinct(s)
    ensures |Members(s)| == |s| && forall i :: i in Members(s) <==> i in s
  {
    if s != [] {
      MembersOf(s[1..]);
      assert s[0] !in s[1..];
    }
  }

  function Below(n: nat): set<nat> { if n == 0 then {} else Below(n - 1) + {n - 1} }

  lemma {:induction false} NumbersBelow(n: nat)
    ensures |Below(n)| == n && forall i: nat :: i in Below(n) <==> i < n
  {
    if n > 0 {
      NumbersBelow(n - 1);
    }
  }

  lemma TwoParts(n: nat, a: set<nat>, b: set<nat>)
    requires a !! b && forall i: nat :: i in a || i in b <==> i < n
    ensures |a| + |b| == n
  {
    NumbersBelow(n);
    assert Below(n) == a + b;
  }

  lemma SlotsStep<T>(t: Table<T>, op: Op<T>)
    requires Valid(t) && Valid(Apply(t, op))
    ensures var r := Apply(t, op);
            |t.slots| <= |r.slots| && (|r.slots| == |t.slots| || |r.slots| == Occupied(r)) && Occupied(r) <= |r.slots|
  {
    hide Valid;
    SlotsAddUp(Apply(t, op));
    match op
    case OpEmplace(v) => EmplaceSlots(t, v);
    case OpRelease(h) => KnownSlot(t, h);
    case OpReclaim =>
  }

  lemma EmplaceSlots<T>(t: Table<T>, v: T)
    requires Valid(t)
    ensures var r := Emplace(t, v).0;
            if t.free == [] then r.free == [] && |r.slots| == |t.slots| + 1 else |r.slots| == |t.slots|
  {
  }

  lemma KnownSlot<T>(t: Table<T>, h: Handle)
    requires Valid(t)
    ensures |Release(t, h).slots| == |t.slots|
  {
  }

  /** Freed slots are used before new ones: the table never has more slots than were occupied at once. */
  lemma {:induction false} SlotsFollowPeak<T>(t: Table<T>, ops: seq<Op<T>>)
    requires Valid(t)
    ensures |After(t, ops).slots| == Max(|t.slots|, Peak(t, ops))
    decreases |ops|
  {
    hide Valid, Apply;
    SlotsAddUp(t);
    if ops != [] {
      ApplyKeeps(t, ops[0]);
      SlotsStep(t, ops[0]);
      SlotsFollowPeak(Apply(t, ops[0]), ops[1..]);
    }
  }

  lemma DeferredStep<T>(t: Table<T>, op: Op<T>, idx: nat)
    requires Valid(t) && idx in t.deferred && !op.OpReclaim?
    ensures idx in Apply(t, op).deferred
  {
  }

  lemma {:induction false} DeferredStays<T>(t: Table<T>, ops: seq<Op<T>>, idx: nat)
    requires Valid(t) && idx in t.deferred && forall i :: 0 <= i < |ops| ==> !ops[i].OpReclaim?
    ensures idx in After(t, ops).deferred
    decreases |ops|
  {
    hide Valid, Apply;
    if ops != [] {
      ApplyKeeps(t, ops[0]);
      DeferredStep(t, ops[0], idx);
      DeferredStays(Apply(t, ops[0]), ops[1..], idx);
    }
  }

  lemma DeferredIsEmpty<T>(t: Table<T>, idx: nat)
    requires Valid(t) && idx in t.deferred
    ensures idx < |t.slots| && t.slots[idx].content.None?
  {
    assert idx in t.free + t.deferred;
  }

  /** A released slot holds nothing until the next reclamation, whatever else happens: neither its own nor
      any other handle to it resolves. */
  lemma EmptyUntilReclaim<T>(t: Table<T>, h: Handle, ops: seq<Op<T>>, g: Handle)
    requires Valid(t) && Get(t, h).Some? && Valid(Release(t, h)) && g.idx == h.idx
    requires forall i :: 0 <= i < |ops| ==> !ops[i].OpReclaim?
    ensures Get(After(Release(t, h), ops), g).None?
  {
    hide Valid;
    DeferredStays(Release(t, h), ops, h.idx);
    DeferredIsEmpty(After(Release(t, h), ops), h.idx);
  }

  // ---- completion tags

  /** The 64-bit completion tag: kind in 8 bits, slot in 24, generation in 32. */
  function MakeTag(kind: nat, slot: nat, gen: nat): nat
  {
    kind * 0x100_0000_0000_0000 + slot % 0x100_0000 * 0x1_0000_0000 + gen
  }

  function TagKind(tag: nat): nat { tag / 0x100_0000_0000_0000 }
  function TagSlot(tag: nat): nat { tag / 0x1_0000_0000 % 0x100_0000 }
  function TagGen(tag: nat): nat { tag % 0x1_0000_0000 }

  /** A tag names its slot modulo 2^24, so it decodes to the handle it was made from exactly when
      the slot index is below 2^24. */
  lemma TagRoundTrip(kind: nat, slot: nat, gen: nat)
    requires kind < 0x100 && gen < 0x1_0000_0000
    ensures var tag := MakeTag(kind, slot, gen);
            && TagKind(tag) == kind && TagSlot(tag) == slot % 0x100_0000 && TagGen(tag) == gen
            && (Handle(TagSlot(tag), TagGen(tag)) == Handle(slot, gen) <==> slot < 0x100_0000)
  {
  }

  /** A completion whose submitter was released fewer than 2^32 - 1 times since reaches it or nobody. */
  lemma CompletionReachesSubmitter<T>(t: Table<T>, v: T, issued: Table<T>, h: Handle, ops: seq<Op<T>>, kind: nat)
    requires Valid(t) && Emplace(t, v) == (issued, h) && Valid(issued)
    requires kind < 0x100 && h.idx < 0x100_0000
    ensures var tag := MakeTag(kind, h.idx, h.gen);
            var r := After(issued, ops);
            && h.idx < |issued.releases| && h.idx < |r.releases|
            && (r.releases[h.idx] - issued.releases[h.idx] < GENERATIONS ==>
                  var found := Get(r, Handle(TagSlot(tag), TagGen(tag)));
                  found == None || (found == Some(v) && r.releases[h.idx] == issued.releases[h.idx]))
  {
    EmplaceKeeps(t, v);
    TagRoundTrip(kind, h.idx, h.gen);
    StaleHandles(t, v, issued, h, ops);
  }

  // ---- the table itself

  class HandleTable<T> {
    const firstGen: nat
    var slots: seq<Slot<T>>
    var free: seq<nat>
    var deferred: seq<nat>
    var live: nat
    ghost var releases: seq<nat>

    ghost function Contents(): Table<T>
      reads this
    {
      Table(firstGen, slots, free, deferred, live, releases)
    }

    constructor (firstGen: nat)
      requires firstGen <= GENERATIONS
      ensures Contents() == EmptyTable(firstGen) && Valid(Contents())
    {
      this.firstGen := if firstGen == 0 then 1 else firstGen;
      slots, free, deferred, live, releases := [], [], [], 0, [];
      new;
      EmptyIsValid<T>(firstGen);
    }

    method EmplaceObject(v: T) returns (h: Handle)
      requires Valid(Contents())
      modifies this
      ensures Valid(Contents()) && (Contents(), h) == Emplace(old(Contents()), v)
    {
      hide Valid;
      EmplaceKeeps(Contents(), v);
      var idx;
      if free != [] {
        LastFree(Contents());
        idx := free[|free| - 1];
        free := free[..|free| - 1];
        h := Handle(idx, slots[idx].gen);
        slots := slots[idx := slots[idx].(content := Some(v))];
      } else {
        idx := |slots|;
        slots := slots + [Slot(firstGen, Some(v))];
        releases := releases + [0];
        h := Handle(idx, firstGen);
      }
      live := live + 1;
    }

    method Lookup(h: Handle) returns (r: Option<T>)
      ensures r == Get(Contents(), h)
    {
      if h.gen == 0 || h.idx >= |slots| {
        return None;
      }
      if slots[h.idx].content.None? || slots[h.idx].gen != h.gen {
        return None;
      }
      return slots[h.idx].content;
    }

    method ReleaseObject(h: Handle)
      requires Valid(Contents())
      modifies this
      ensures Valid(Contents()) && Contents() == Release(old(Contents()), h)
    {
      hide Valid;
      ReleaseKeeps(Contents(), h);
      LiveIsPositive(Contents(), h);
      SameLengths(Contents());
      var found := Lookup(h);
      if found.None? {
        return;
      }
      live := live - 1;
      var gen := (slots[h.idx].gen + 1) % 0x1_0000_0000;
      if gen == 0 {
        gen := 1;
      }
      KnownGeneration(old(Contents()), h);
      slots := slots[h.idx := Slot(gen, None)];
      deferred := deferred + [h.idx];
      releases := releases[h.idx := releases[h.idx] + 1];
    }

    method ReclaimSlots()
      requires Valid(Contents())
      modifies this
      ensures Valid(Contents()) && Contents() == Reclaim(old(Contents()))
    {
      hide Valid;
      ReclaimKeeps(Contents());
      free := free + deferred;
      deferred := [];
    }
  }

  lemma LastFree<T>(t: Table<T>)
    requires Valid(t) && t.free != []
    ensures t.free[|t.free| - 1] < |t.slots|
  {
    assert (t.free + t.deferred)[|t.free| - 1] in t.free + t.deferred;
  }

  lemma SameLengths<T>(t: Table<T>)
    requires Valid(t)
    ensures |t.releases| == |t.slots|
  {
  }

  lemma KnownGeneration<T>(t: Table<T>, h: Handle)
    requires Valid(t) && Get(t, h).Some?
    ensures 1 <= h.gen <= GENERATIONS
  {
  }
}
