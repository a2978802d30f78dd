/** The coroutine frame cache: chunks carved from a bump arena into blocks of one size class, handed
    out and taken back through free lists, with the heap behind them. */
module FrameCaches {
  import opened Basics
  import opened Lists
  import Arith

  const HEADER: nat := 16
  const GRANULARITY: nat := 64
  const BUCKETS: nat := 16
  const CHUNK: nat := 4096
  const HEAP: nat := 0xFFFF

  /** A block as its header describes it: the size class, or the mark of a heap block, and the bytes it
      spans, header included. */
  datatype Block = Block(cls: nat, size: nat)

  /** The blocks by the address handed out (just behind the header), the free list of each class, and
      the addresses in use with the sizes asked for. */
  datatype Pool = Pool(blocks: map<nat, Block>, free: seq<seq<nat>>, live: map<nat, nat>)

  // ---- well-formed pools

  predicate Separate(p: nat, s: nat, q: nat, t: nat)
  {
    p + s <= q || q + t <= p
  }

  ghost predicate Apart(blocks: map<nat, Block>)
  {
    forall p, q :: p in blocks && q in blocks && p != q ==> Separate(p, blocks[p].size, q, blocks[q].size)
  }

  predicate ShapedBlock(p: nat, b: Block)
  {
    p % 16 == 0 && p >= HEADER && b.size >= HEADER && (b.cls == HEAP || (b.cls < BUCKETS && b.size == GRANULARITY * (b.cls + 1)))
  }

  ghost predicate Shaped(blocks: map<nat, Block>)
  {
    forall p :: p in blocks ==> ShapedBlock(p, blocks[p])
  }

  /** Cached blocks lie in the used part of the arena, heap blocks outside the whole of it. */
  predicate HousedBlock(p: nat, b: Block, lo: nat, used: nat, hi: nat)
    requires p >= HEADER
  {
    if b.cls == HEAP then p - HEADER + b.size <= lo || hi <= p - HEADER
    else lo <= p - HEADER && p - HEADER + b.size <= used
  }

  ghost predicate Housed(blocks: map<nat, Block>, lo: nat, used: nat, hi: nat)
  {
    forall p :: p in blocks ==> p >= HEADER && HousedBlock(p, blocks[p], lo, used, hi)
  }

  ghost predicate FreeList(blocks: map<nat, Block>, list: seq<nat>, live: map<nat, nat>, c: nat)
  {
    && Distinct(list)
    && forall k :: 0 <= k < |list| ==> list[k] in blocks && blocks[list[k]].cls == c && list[k] !in live
  }

  ghost predicate FreeHolds(pool: Pool)
  {
    |pool.free| == BUCKETS && forall c :: 0 <= c < BUCKETS ==> FreeList(pool.blocks, pool.free[c], pool.live, c)
  }

  /** Every block is in use or on the free list of its class. */
  ghost predicate Covered(pool: Pool)
    requires |pool.free| == BUCKETS
  {
    forall p :: p in pool.blocks && p !in pool.live ==> pool.blocks[p].cls < BUCKETS && p in pool.free[pool.blocks[p].cls]
  }

  ghost predicate LiveHolds(pool: Pool)
  {
    forall p :: p in pool.live ==> p in pool.blocks && pool.live[p] + HEADER <= pool.blocks[p].size
  }

  ghost predicate PoolHolds(pool: Pool)
  {
    Apart(pool.blocks) && Shaped(pool.blocks) && FreeHolds(pool) && Covered(pool) && LiveHolds(pool)
  }

  /** What the cache is for: memory in use is aligned, large enough, and shared with nothing: neither
      with other memory in use, nor with its headers, nor with what is on a free list. */
  lemma InUseIsExclusive(pool: Pool, p: nat, q: nat)
    requires PoolHolds(pool) && p in pool.live && q in pool.blocks && p != q
    ensures p % 16 == 0 && pool.live[p] + HEADER <= pool.blocks[p].size
    ensures Separate(p - HEADER, HEADER + pool.live[p], q - HEADER, pool.blocks[q].size)
  {
    assert Separate(p, pool.blocks[p].size, q, pool.blocks[q].size);
    assert ShapedBlock(p, pool.blocks[p]) && ShapedBlock(q, pool.blocks[q]);
  }

  // ---- taking from and returning to a free list

  ghost function Popped(pool: Pool, c: nat, n: nat): Pool
    requires c < |pool.free| && pool.free[c] != []
  {
    pool.(free := pool.free[c := pool.free[c][1..]], live := pool.live[pool.free[c][0] := n])
  }

  ghost function Pushed(pool: Pool, p: nat): Pool
    requires p in pool.blocks && pool.blocks[p].cls < |pool.free|
  {
    var c := pool.blocks[p].cls;
    pool.(free := pool.free[c := [p] + pool.free[c]], live := pool.live - {p})
  }

  ghost function WithBlock(pool: Pool, p: nat, c: nat): Pool
    requires c < |pool.free|
  {
    pool.(blocks := pool.blocks[p := Block(c, GRANULARITY * (c + 1))], free := pool.free[c := [p] + pool.free[c]])
  }

  ghost function WithHeapBlock(pool: Pool, p: nat, size: nat, n: nat): Pool
  {
    pool.(blocks := pool.blocks[p := Block(HEAP, size)], live := pool.live[p := n])
  }

  ghost function WithoutHeapBlock(pool: Pool, p: nat): Pool
  {
    pool.(blocks := pool.blocks - {p}, live := pool.live - {p})
  }

  lemma PopKeeps(pool: Pool, c: nat, n: nat)
    requires PoolHolds(pool) && c < BUCKETS && pool.free[c] != [] && n + HEADER <= GRANULARITY * (c + 1)
    ensures PoolHolds(Popped(pool, c, n)) && pool.free[c][0] !in pool.live && pool.free[c][0] % 16 == 0
  {
    var p, after := pool.free[c][0], Popped(pool, c, n);
    assert FreeList(pool.blocks, pool.free[c], pool.live, c);
    assert ShapedBlock(p, pool.blocks[p]);
    forall d | 0 <= d < BUCKETS ensures FreeList(after.blocks, after.free[d], after.live, d) {
      assert FreeList(pool.blocks, pool.free[d], pool.live, d);
    }
    forall q | q in after.blocks && q !in after.live
      ensures after.blocks[q].cls < BUCKETS && q in after.free[after.blocks[q].cls]
    {
      assert q in pool.free[pool.blocks[q].cls];
    }
  }

  lemma PushKeeps(pool: Pool, p: nat)
    requires PoolHolds(pool) && p in pool.live && pool.blocks[p].cls < BUCKETS
    ensures PoolHolds(Pushed(pool, p))
  {
    PushLists(pool, p);
    PushCovers(pool, p);
  }

  lemma PushLists(pool: Pool, p: nat)
    requires PoolHolds(pool) && p in pool.live && pool.blocks[p].cls < BUCKETS
    ensures FreeHolds(Pushed(pool, p))
  {
    hide Apart, Shaped, Covered;
    var after := Pushed(pool, p);
    forall d | 0 <= d < BUCKETS ensures FreeList(after.blocks, after.free[d], after.live, d) {
      assert FreeList(pool.blocks, pool.free[d], pool.live, d);
      PrependKeepsDistinct(p, pool.free[d]);
    }
  }

  lemma PushCovers(pool: Pool, p: nat)
    requires PoolHolds(pool) && p in pool.live && pool.blocks[p].cls < BUCKETS
    ensures Covered(Pushed(pool, p))
  {
    hide Apart, Shaped, FreeList;
    var after := Pushed(pool, p);
    forall q | q in after.blocks && q !in after.live
      ensures after.blocks[q].cls < BUCKETS && q in after.free[after.blocks[q].cls]
    {
      if q == p {
        assert after.free[after.blocks[q].cls][0] == p;
      } else {
        InTail(p, pool.free[pool.blocks[q].cls], q);
      }
    }
  }

  lemma PrependKeepsDistinct(p: nat, list: seq<nat>)
    requires Distinct(list)
    ensures p !in list ==> Distinct([p] + list)
  {
  }

  lemma InTail(p: nat, list: seq<nat>, q: nat)
    requires q in list
    ensures q in [p] + list
  {
  }

  /** A block that lies behind every other cached block and inside the arena joins its free list. */
  lemma WithBlockKeeps(pool: Pool, p: nat, c: nat, lo: nat, used: nat, hi: nat)
    requires PoolHolds(pool) && c < BUCKETS && p % 16 == 0 && p >= HEADER
    requires Housed(pool.blocks, lo, used, hi) && lo <= used == p - HEADER && used + GRANULARITY * (c + 1) <= hi
    ensures p !in pool.live && PoolHolds(WithBlock(pool, p, c))
    ensures Housed(WithBlock(pool, p, c).blocks, lo, used + GRANULARITY * (c + 1), hi)
  {
    hide Apart, Housed, Shaped, FreeHolds, Covered, LiveHolds;
    NewBlockIsApart(pool.blocks, p, c, lo, used, hi);
    BlockJoins(pool, p, c);
  }

  lemma BlockJoins(pool: Pool, p: nat, c: nat)
    requires FreeHolds(pool) && Covered(pool) && LiveHolds(pool) && c < BUCKETS && p !in pool.blocks
    ensures var after := WithBlock(pool, p, c);
            FreeHolds(after) && Covered(after) && LiveHolds(after) && p !in pool.live
  {
    var after := WithBlock(pool, p, c);
    forall d | 0 <= d < BUCKETS ensures FreeList(after.blocks, after.free[d], after.live, d) {
      assert FreeList(pool.blocks, pool.free[d], pool.live, d);
      PrependKeepsDistinct(p, pool.free[d]);
    }
    forall q | q in after.blocks && q !in after.live
      ensures after.blocks[q].cls < BUCKETS && q in after.free[after.blocks[q].cls]
    {
      if q == p {
        assert after.free[c][0] == p;
      } else {
        InTail(p, pool.free[pool.blocks[q].cls], q);
      }
    }
  }

  lemma NewBlockIsApart(blocks: map<nat, Block>, p: nat, c: nat, lo: nat, used: nat, hi: nat)
    requires Apart(blocks) && Shaped(blocks) && c < BUCKETS && p % 16 == 0 && p >= HEADER
    requires Housed(blocks, lo, used, hi) && lo <= used == p - HEADER && used + GRANULARITY * (c + 1) <= hi
    ensures p !in blocks
    ensures var after := blocks[p := Block(c, GRANULARITY * (c + 1))];
            Apart(after) && Shaped(after) && Housed(after, lo, used + GRANULARITY * (c + 1), hi)
  {
    forall q | q in blocks ensures Separate(q, blocks[q].size, p, GRANULARITY * (c + 1)) && q != p {
      assert ShapedBlock(q, blocks[q]) && HousedBlock(q, blocks[q], lo, used, hi);
    }
  }

  /** The system allocator's promise: aligned memory outside the arena and away from every block. */
  predicate HeapGives(blocks: map<nat, Block>, p: nat, size: nat, lo: nat, hi: nat)
  {
    && p % 16 == 0 && p >= HEADER && (p - HEADER + size <= lo || hi <= p - HEADER)
    && forall q :: q in blocks ==> q != p && Separate(q, blocks[q].size, p, size)
  }

  lemma HeapBlockKeeps(pool: Pool, p: nat, size: nat, n: nat, lo: nat, used: nat, hi: nat)
    requires PoolHolds(pool) && Housed(pool.blocks, lo, used, hi) && HeapGives(pool.blocks, p, size, lo, hi)
    requires n + HEADER <= size
    ensures PoolHolds(WithHeapBlock(pool, p, size, n)) && Housed(WithHeapBlock(pool, p, size, n).blocks, lo, used, hi)
    ensures p !in pool.live && p % 16 == 0
  {
    hide Apart, Housed, Shaped, FreeHolds, Covered, LiveHolds;
    HeapBlockIsApart(pool.blocks, p, size, lo, used, hi);
    HeapBlockJoins(pool, p, size, n);
  }

  lemma HeapBlockIsApart(blocks: map<nat, Block>, p: nat, size: nat, lo: nat, used: nat, hi: nat)
    requires Apart(blocks) && Shaped(blocks) && Housed(blocks, lo, used, hi)
    requires HeapGives(blocks, p, size, lo, hi) && HEADER <= size
    ensures p !in blocks
    ensures var after := blocks[p := Block(HEAP, size)];
            Apart(after) && Shaped(after) && Housed(after, lo, used, hi)
  {
  }

  lemma HeapBlockJoins(pool: Pool, p: nat, size: nat, n: nat)
    requires FreeHolds(pool) && Covered(pool) && LiveHolds(pool) && p !in pool.blocks && n + HEADER <= size
    ensures var after := WithHeapBlock(pool, p, size, n);
            FreeHolds(after) && Covered(after) && LiveHolds(after) && p !in pool.live
  {
    var after := WithHeapBlock(pool, p, size, n);
    forall d | 0 <= d < BUCKETS ensures FreeList(after.blocks, after.free[d], after.live, d) {
      assert FreeList(pool.blocks, pool.free[d], pool.live, d);
    }
  }

  lemma HeapBlockGoes(pool: Pool, p: nat, lo: nat, used: nat, hi: nat)
    requires PoolHolds(pool) && Housed(pool.blocks, lo, used, hi) && p in pool.live && pool.blocks[p].cls == HEAP
    ensures PoolHolds(WithoutHeapBlock(pool, p)) && Housed(WithoutHeapBlock(pool, p).blocks, lo, used, hi)
  {
    var after := WithoutHeapBlock(pool, p);
    forall d | 0 <= d < BUCKETS ensures FreeList(after.blocks, after.free[d], after.live, d) {
      assert FreeList(pool.blocks, pool.free[d], pool.live, d);
    }
  }

  // ---- the footprint

  /** Chunks carved for a class so far, and the most blocks of it that were in use at once. */
  datatype Use = Use(chunks: nat, peak: nat)

  function PerChunk(c: nat): nat
  {
    CHUNK / (GRANULARITY * (c + 1))
  }

  /** A number of blocks in whole chunks. */
  function ChunksFor(blocks: nat, perChunk: nat): nat
    requires perChunk > 0
  {
    Arith.DivBounds(blocks + perChunk - 1, perChunk);
    (blocks + perChunk - 1) / perChunk
  }

  ghost function LiveOf(pool: Pool, c: nat): set<nat>
  {
    set p | p in pool.live && p in pool.blocks && pool.blocks[p].cls == c
  }

  /** Blocks in use and free ones make up the chunks, which never exceed what the peak needed. */
  ghost predicate Budget(pool: Pool, u: Use, c: nat, extra: nat)
    requires c < |pool.free|
  {
    && |LiveOf(pool, c)| + |pool.free[c]| == u.chunks * PerChunk(c) + extra
    && |LiveOf(pool, c)| <= u.peak
    && (u.chunks > 0 ==> u.chunks * PerChunk(c) < u.peak + PerChunk(c))
  }

  ghost predicate Budgets(pool: Pool, uses: seq<Use>)
  {
    |pool.free| == |uses| == BUCKETS && forall c :: 0 <= c < BUCKETS ==> Budget(pool, uses[c], c, 0)
  }

  /** The peaks are raised to the present use and no further. */
  ghost predicate PeaksFollow(before: seq<Use>, after: seq<Use>, pool: Pool)
  {
    |before| == |after| == BUCKETS &&
    forall d :: 0 <= d < BUCKETS ==> after[d].peak == Max(before[d].peak, |LiveOf(pool, d)|)
  }

  lemma PeaksStay(pool: Pool, uses: seq<Use>)
    requires Budgets(pool, uses)
    ensures PeaksFollow(uses, uses, pool)
  {
    forall d | 0 <= d < BUCKETS ensures uses[d].peak == Max(uses[d].peak, |LiveOf(pool, d)|) {
      assert Budget(pool, uses[d], d, 0);
    }
  }

  /** The chunks of a class are no more than its peak use rounded up to whole chunks, however many
      blocks were taken and returned. */
  lemma FootprintFollowsPeak(pool: Pool, uses: seq<Use>, c: nat)
    requires Budgets(pool, uses) && c < BUCKETS
    ensures PerChunk(c) > 0 && uses[c].chunks <= ChunksFor(uses[c].peak, PerChunk(c))
  {
    assert Budget(pool, uses[c], c, 0);
    PerChunkFits(c);
    Arith.DivAtLeast(uses[c].peak + PerChunk(c) - 1, PerChunk(c), uses[c].chunks);
  }

  lemma PerChunkFits(c: nat)
    requires c < BUCKETS
    ensures 0 < PerChunk(c) && PerChunk(c) * (GRANULARITY * (c + 1)) <= CHUNK
  {
    Arith.DivAtLeast(CHUNK, GRANULARITY * (c + 1), 1);
    Arith.DivBounds(CHUNK, GRANULARITY * (c + 1));
  }

  lemma PopCounts(pool: Pool, uses: seq<Use>, c: nat, n: nat)
    requires PoolHolds(pool) && Budgets(pool, uses) && c < BUCKETS && pool.free[c] != []
    ensures var u := uses[c].(peak := Max(uses[c].peak, |LiveOf(pool, c)| + 1));
            Budgets(Popped(pool, c, n), uses[c := u]) && PeaksFollow(uses, uses[c := u], Popped(pool, c, n))
  {
    hide PoolHolds, LiveOf, Budget;
    var after, p := Popped(pool, c, n), pool.free[c][0];
    PopLive(pool, c, n);
    var u := uses[c].(peak := Max(uses[c].peak, |LiveOf(pool, c)| + 1));
    var uses' := uses[c := u];
    forall d | 0 <= d < BUCKETS
      ensures Budget(after, uses'[d], d, 0) && uses'[d].peak == Max(uses[d].peak, |LiveOf(after, d)|)
    {
      assert Budget(pool, uses[d], d, 0);
      PopBudget(pool, after, uses[d], c, d, p);
    }
  }

  lemma PopLive(pool: Pool, c: nat, n: nat)
    requires PoolHolds(pool) && c < BUCKETS && pool.free[c] != []
    ensures var p := pool.free[c][0];
            && p !in LiveOf(pool, c)
            && forall d :: 0 <= d < BUCKETS ==> LiveOf(Popped(pool, c, n), d) == LiveOf(pool, d) + (if d == c then {p} else {})
  {
    var after, p := Popped(pool, c, n), pool.free[c][0];
    assert FreeList(pool.blocks, pool.free[c], pool.live, c);
    forall d | 0 <= d < BUCKETS ensures LiveOf(after, d) == LiveOf(pool, d) + (if d == c then {p} else {}) {
    }
  }

  lemma PopBudget(pool: Pool, after: Pool, u: Use, c: nat, d: nat, p: nat)
    requires d < |pool.free| == |after.free| && Budget(pool, u, d, 0) && (d == c ==> p !in LiveOf(pool, d))
    requires LiveOf(after, d) == LiveOf(pool, d) + (if d == c then {p} else {})
    requires |after.free[d]| == |pool.free[d]| - (if d == c then 1 else 0)
    ensures Budget(after, if d == c then u.(peak := Max(u.peak, |LiveOf(pool, d)| + 1)) else u, d, 0)
    ensures d == c ==> |LiveOf(after, d)| == |LiveOf(pool, d)| + 1
    ensures d != c ==> |LiveOf(after, d)| <= u.peak
  {
    hide LiveOf;
  }

  lemma PushCounts(pool: Pool, uses: seq<Use>, p: nat)
    requires PoolHolds(pool) && Budgets(pool, uses) && p in pool.live && pool.blocks[p].cls < BUCKETS
    ensures Budgets(Pushed(pool, p), uses)
  {
    var after, c := Pushed(pool, p), pool.blocks[p].cls;
    forall d | 0 <= d < BUCKETS
      ensures LiveOf(after, d) == if d == c then LiveOf(pool, d) - {p} else LiveOf(pool, d)
    {
    }
    forall d | 0 <= d < BUCKETS ensures Budget(pool, uses[d], d, 0) {
    }
    assert p in LiveOf(pool, c);
  }

  lemma HeapCounts(pool: Pool, uses: seq<Use>, p: nat, size: nat, n: nat)
    requires Budgets(pool, uses)
    ensures p !in pool.blocks ==> Budgets(WithHeapBlock(pool, p, size, n), uses)
    ensures p in pool.blocks && pool.blocks[p].cls == HEAP ==> Budgets(WithoutHeapBlock(pool, p), uses)
  {
    forall d | 0 <= d < BUCKETS ensures Budget(pool, uses[d], d, 0) {
    }
    if p !in pool.blocks {
      forall d | 0 <= d < BUCKETS ensures LiveOf(WithHeapBlock(pool, p, size, n), d) == LiveOf(pool, d) {
      }
    } else if pool.blocks[p].cls == HEAP {
      forall d | 0 <= d < BUCKETS ensures LiveOf(WithoutHeapBlock(pool, p), d) == LiveOf(pool, d) {
      }
    }
  }

  lemma BlockCounts(pool: Pool, u: Use, p: nat, c: nat, extra: nat)
    requires c < |pool.free| && p !in pool.live && Budget(pool, u, c, extra)
    ensures Budget(WithBlock(pool, p, c), u, c, extra + 1)
  {
    assert LiveOf(WithBlock(pool, p, c), c) == LiveOf(pool, c);
  }

  lemma OtherBudget(pool: Pool, u: Use, p: nat, c: nat, d: nat)
    requires c < |pool.free| && d < |pool.free| && d != c && p !in pool.live && Budget(pool, u, d, 0)
    ensures Budget(WithBlock(pool, p, c), u, d, 0)
  {
    assert LiveOf(WithBlock(pool, p, c), d) == LiveOf(pool, d);
  }

  /** While a chunk is being cut up its class is ahead by the blocks cut so far. */
  ghost predicate Carving(pool: Pool, uses: seq<Use>, c: nat, cut: nat)
  {
    && |pool.free| == |uses| == BUCKETS && c < BUCKETS
    && forall d :: 0 <= d < BUCKETS ==> Budget(pool, uses[d], d, if d == c then cut else 0)
  }

  lemma CarvingGoesOn(pool: Pool, uses: seq<Use>, p: nat, c: nat, cut: nat)
    requires Carving(pool, uses, c, cut) && p !in pool.live
    ensures Carving(WithBlock(pool, p, c), uses, c, cut + 1)
  {
    hide Budget;
    var after := WithBlock(pool, p, c);
    forall d | 0 <= d < BUCKETS ensures Budget(after, uses[d], d, if d == c then cut + 1 else 0) {
      assert Budget(pool, uses[d], d, if d == c then cut else 0);
      if d == c {
        BlockCounts(pool, uses[d], p, c, cut);
      } else {
        OtherBudget(pool, uses[d], p, c, d);
      }
    }
  }

  /** A chunk carved when nothing was free, one block of which is taken at once, keeps the budget. */
  lemma CarvedCounts(pool: Pool, uses: seq<Use>, c: nat, n: nat)
    requires PoolHolds(pool) && Carving(pool, uses, c, PerChunk(c)) && |pool.free[c]| == PerChunk(c) > 0
    ensures var u := Use(uses[c].chunks + 1, Max(uses[c].peak, |LiveOf(pool, c)| + 1));
            Budgets(Popped(pool, c, n), uses[c := u]) && PeaksFollow(uses, uses[c := u], Popped(pool, c, n))
  {
    hide PoolHolds, LiveOf, Budget;
    var after, p := Popped(pool, c, n), pool.free[c][0];
    PopLive(pool, c, n);
    var u := Use(uses[c].chunks + 1, Max(uses[c].peak, |LiveOf(pool, c)| + 1));
    var uses' := uses[c := u];
    forall d | 0 <= d < BUCKETS
      ensures Budget(after, uses'[d], d, 0) && uses'[d].peak == Max(uses[d].peak, |LiveOf(after, d)|)
    {
      assert Budget(pool, uses[d], d, if d == c then PerChunk(c) else 0);
      if d == c {
        CarvedBudget(pool, after, uses[c], c, p);
      } else {
        PopBudget(pool, after, uses[d], c, d, p);
      }
    }
  }

  lemma CarvedBudget(pool: Pool, after: Pool, u: Use, c: nat, p: nat)
    requires c < |pool.free| == |after.free| && Budget(pool, u, c, PerChunk(c)) && p !in LiveOf(pool, c)
    requires LiveOf(after, c) == LiveOf(pool, c) + {p}
    requires |pool.free[c]| == PerChunk(c) > 0 && |after.free[c]| == |pool.free[c]| - 1
    ensures Budget(after, Use(u.chunks + 1, Max(u.peak, |LiveOf(pool, c)| + 1)), c, 0)
    ensures |LiveOf(after, c)| == |LiveOf(pool, c)| + 1
  {
    hide LiveOf, PerChunk;
    Arith.MulDistributes(u.chunks, 1, PerChunk(c));
  }

  // ---- the arena

  function RoundUp(x: nat, align: nat): nat
    requires align > 0
  {
    (x + align - 1) / align * align
  }

  lemma RoundsUp(x: nat, align: nat)
    requires align > 0
    ensures x <= RoundUp(x, align) < x + align && RoundUp(x, align) % align == 0
  {
    var q := (x + align - 1) / align;
    Arith.DivBounds(x + align - 1, align);
    Arith.QuotientIsUnique(q * align, align, q, 0);
  }

  class Arena {
    const base: nat
    const size: nat
    var off: nat

    ghost predicate Valid()
      reads this
    {
      off <= size
    }

    constructor (base: nat, size: nat)
      ensures Valid() && this.base == base && this.size == size && off == 0
    {
      this.base, this.size, off := base, size, 0;
    }

    /** Aligned bump allocation: new memory, behind everything given out before, or nothing at all. */
    method Alloc(n: nat, align: nat) returns (r: Option<nat>)
      requires Valid() && align > 0
      modifies this
      ensures Valid() && (r.None? <==> RoundUp(base + old(off), align) + n > base + size)
      ensures r.None? ==> off == old(off)
      ensures r.Some? ==> r.value == RoundUp(base + old(off), align) && r.value + n == base + off
      ensures r.Some? ==> r.value % align == 0 && base + old(off) <= r.value
    {
      RoundsUp(base + off, align);
      var al := RoundUp(base + off, align);
      var next := al - base + n;
      if next > size {
        return None;
      }
      off := next;
      return Some(al);
    }
  }

  lemma {:induction false} NothingCarved(n: nat)
    ensures Total(seq(n, i => Use(0, 0))) == 0
  {
    if n > 0 {
      NothingCarved(n - 1);
      assert seq(n, i => Use(0, 0))[..n - 1] == seq(n - 1, i => Use(0, 0));
    }
  }

  /** All chunks carved so far. */
  ghost function Total(uses: seq<Use>): nat
  {
    if uses == [] then 0 else Total(uses[..|uses| - 1]) + uses[|uses| - 1].chunks
  }

  lemma {:induction false} TotalUpdates(uses: seq<Use>, c: nat, u: Use)
    requires c < |uses|
    ensures Total(uses[c := u]) == Total(uses) - uses[c].chunks + u.chunks
    decreases |uses|
  {
    var n := |uses| - 1;
    if c < n {
      assert uses[c := u][..n] == uses[..n][c := u];
      TotalUpdates(uses[..n], c, u);
    } else {
      assert uses[c := u][..n] == uses[..n];
    }
  }

  /** The arena has given out the chunks and, in front of the first one, what alignment takes. */
  ghost predicate ArenaHolds(base: nat, origin: nat, off: nat, total: nat)
  {
    if total == 0 then off == origin else base + off == RoundUp(base + origin, 16) + CHUNK * total
  }

  lemma ArenaGrows(base: nat, origin: nat, off: nat, total: nat, off': nat)
    requires ArenaHolds(base, origin, off, total) && base + off' == RoundUp(base + off, 16) + CHUNK
    ensures ArenaHolds(base, origin, off', total + 1)
  {
    hide RoundUp;
    if total > 0 {
      RoundsUp(base + origin, 16);
      AlignedStays(RoundUp(base + origin, 16), total);
    }
  }

  /** An address that lies whole chunks behind an aligned one is aligned. */
  lemma AlignedStays(x: nat, total: nat)
    requires x % 16 == 0
    ensures RoundUp(x + CHUNK * total, 16) == x + CHUNK * total
  {
    var k := x / 16 + 256 * total;
    assert x + CHUNK * total == 16 * k;
    assert (16 * k + 15) / 16 == k;
  }

  /** The chunks that the peak use of every class needs. */
  ghost function PeakChunks(uses: seq<Use>): nat
  {
    if uses == [] then 0 else
    var c := |uses| - 1;
    PeakChunks(uses[..c]) + if PerChunk(c) > 0 then ChunksFor(uses[c].peak, PerChunk(c)) else uses[c].chunks
  }

  lemma {:induction false} TotalFollowsPeaks(pool: Pool, uses: seq<Use>, n: nat)
    requires Budgets(pool, uses) && n <= BUCKETS
    ensures Total(uses[..n]) <= PeakChunks(uses[..n])
  {
    if n > 0 {
      hide Budgets;
      TotalFollowsPeaks(pool, uses, n - 1);
      BudgetsCover(pool, uses);
      FootprintFollowsPeak(pool, uses, n - 1);
      assert uses[..n][..n - 1] == uses[..n - 1];
    }
  }

  lemma BudgetsCover(pool: Pool, uses: seq<Use>)
    requires Budgets(pool, uses)
    ensures |uses| == BUCKETS
  {
  }

  /** The arena never reaches further than the peak use of every class needs. */
  lemma ArenaFollowsPeaks(pool: Pool, uses: seq<Use>, base: nat, origin: nat, off: nat)
    requires Budgets(pool, uses) && ArenaHolds(base, origin, off, Total(uses))
    ensures off <= origin + 15 + CHUNK * PeakChunks(uses)
  {
    hide Budgets;
    TotalFollowsPeaks(pool, uses, BUCKETS);
    BudgetsCover(pool, uses);
    assert uses[..BUCKETS] == uses;
    RoundsUp(base + origin, 16);
    assert CHUNK * Total(uses) <= CHUNK * PeakChunks(uses);
  }

  // ---- the cache

  class FrameCache {
    const arena: Arena
    const free: array<seq<nat>>
    var blocks: map<nat, Block>
    var heapFallbacks: nat
    var corrupt: nat
    ghost var live: map<nat, nat>
    ghost var uses: seq<Use>
    /** How much of the arena was given out before the cache got it. */
    ghost const origin: nat

    ghost function View(): Pool
      reads this, free
    {
      Pool(blocks, free[..], live)
    }

    ghost predicate Cutting(used: nat, c: nat, cut: nat)
      reads this, free, arena
    {
      && free.Length == BUCKETS && arena.Valid() && PoolHolds(View())
      && Housed(blocks, arena.base, used, arena.base + arena.size) && Carving(View(), uses, c, cut)
    }

    ghost predicate Valid()
      reads this, free, arena
    {
      && free.Length == BUCKETS && arena.Valid() && PoolHolds(View())
      && Housed(blocks, arena.base, arena.base + arena.off, arena.base + arena.size) && Budgets(View(), uses)
      && ArenaHolds(arena.base, origin, arena.off, Total(uses))
    }

    constructor (arena: Arena)
      requires arena.Valid()
      ensures Valid() && this.arena == arena && fresh(free) && blocks == map[] && live == map[]
      ensures uses == seq(BUCKETS, i => Use(0, 0)) && origin == arena.off
    {
      this.arena, origin := arena, arena.off;
      free := new seq<nat>[BUCKETS](i => []);
      blocks, live, heapFallbacks, corrupt := map[], map[], 0, 0;
      uses := seq(BUCKETS, i => Use(0, 0));
      new;
      forall c | 0 <= c < BUCKETS ensures Budget(View(), uses[c], c, 0) {
        assert LiveOf(View(), c) == {};
      }
      NothingCarved(BUCKETS);
    }

    method Pop(c: nat, n: nat) returns (p: nat)
      requires Valid() && c < BUCKETS && free[c] != [] && n + HEADER <= GRANULARITY * (c + 1)
      modifies this`live, this`uses, free
      ensures Valid() && p == old(free[c])[0] && View() == Popped(old(View()), c, n)
      ensures PeaksFollow(old(uses), uses, View())
      ensures p !in old(live) && p % 16 == 0 && p in blocks && blocks[p].cls == c
    {
      hide PoolHolds, Budget;
      FirstIsOfClass(View(), c);
      PopKeeps(View(), c, n);
      PopCounts(View(), uses, c, n);
      TotalUpdates(uses, c, uses[c].(peak := Max(uses[c].peak, |LiveOf(View(), c)| + 1)));
      uses := uses[c := uses[c].(peak := Max(uses[c].peak, |LiveOf(View(), c)| + 1))];
      p := free[c][0];
      free[c] := free[c][1..];
      live := live[p := n];
    }

    /** One block of a chunk gets its header and goes on the free list. */
    method AddBlock(ghost used: nat, c: nat, ghost cut: nat, p: nat)
      requires c < BUCKETS && Cutting(used, c, cut) && p % 16 == 0 && p >= HEADER
      requires arena.base <= used == p - HEADER && used + GRANULARITY * (c + 1) <= arena.base + arena.size
      modifies this`blocks, free
      ensures Cutting(used + GRANULARITY * (c + 1), c, cut + 1) && View() == WithBlock(old(View()), p, c)
    {
      hide PoolHolds, Housed, Carving;
      WithBlockKeeps(View(), p, c, arena.base, used, arena.base + arena.size);
      CarvingGoesOn(View(), uses, p, c, cut);
      blocks := blocks[p := Block(c, GRANULARITY * (c + 1))];
      free[c] := [p] + free[c];
    }

    /** Cuts a chunk into blocks of one class. */
    method CutBlocks(c: nat, mem: nat, count: nat)
      requires c < BUCKETS && Cutting(mem, c, 0) && free[c] == [] && count * (GRANULARITY * (c + 1)) <= CHUNK
      requires arena.base <= mem && mem % 16 == 0 && mem + CHUNK == arena.base + arena.off
      modifies this`blocks, free
      ensures Cutting(mem + count * (GRANULARITY * (c + 1)), c, count) && |free[c]| == count
    {
      hide PoolHolds, Housed, Carving;
      var block := GRANULARITY * (c + 1);
      var i := 0;
      while i < count
        invariant i <= count && Cutting(mem + i * block, c, i) && |free[c]| == i
      {
        BlockPlace(mem, i, c, count);
        AddBlock(mem + i * block, c, i, mem + i * block + HEADER);
        i := i + 1;
      }
    }

    /** The last block cut is in use at once. */
    method TakeCut(c: nat, n: nat, ghost used: nat) returns (p: nat)
      requires c < BUCKETS && Cutting(used, c, PerChunk(c)) && used <= arena.base + arena.off
      requires |free[c]| == PerChunk(c) > 0 && n + HEADER <= GRANULARITY * (c + 1)
      requires ArenaHolds(arena.base, origin, arena.off, Total(uses) + 1)
      modifies this`live, this`uses, free
      ensures Valid() && live == old(live)[p := n] && p !in old(live) && p % 16 == 0
      ensures PeaksFollow(old(uses), uses, View()) && uses[c].chunks == old(uses)[c].chunks + 1
      ensures p in blocks && blocks[p].cls == c
    {
      hide PoolHolds, Housed, Budget;
      FirstIsOfClass(View(), c);
      PopKeeps(View(), c, n);
      CarvedCounts(View(), uses, c, n);
      TotalUpdates(uses, c, Use(uses[c].chunks + 1, Max(uses[c].peak, |LiveOf(View(), c)| + 1)));
      WidenHouse(blocks, arena.base, used, arena.base + arena.off, arena.base + arena.size);
      uses := uses[c := Use(uses[c].chunks + 1, Max(uses[c].peak, |LiveOf(View(), c)| + 1))];
      p := free[c][0];
      free[c] := free[c][1..];
      live := live[p := n];
    }

    method HeapBlock(size: nat, ghost n: nat, heapAt: nat)
      requires Valid() && n + HEADER <= size
      requires HeapGives(blocks, heapAt, size, arena.base, arena.base + arena.size)
      modifies this
      ensures Valid() && View() == WithHeapBlock(old(View()), heapAt, size, n) && uses == old(uses)
      ensures heapFallbacks == old(heapFallbacks) + 1 && heapAt !in old(live) && heapAt % 16 == 0
    {
      hide PoolHolds, Housed, Budgets;
      HeapBlockKeeps(View(), heapAt, size, n, arena.base, arena.base + arena.off, arena.base + arena.size);
      HeapCounts(View(), uses, heapAt, size, n);
      heapFallbacks := heapFallbacks + 1;
      blocks := blocks[heapAt := Block(HEAP, size)];
      live := live[heapAt := n];
    }

    /** No free block of the class: a new chunk from the arena, or the heap when the arena is used up. */
    method Carve(c: nat, n: nat, heapAt: nat) returns (p: nat)
      requires Valid() && c < BUCKETS && free[c] == [] && n + HEADER <= GRANULARITY * (c + 1)
      requires HeapGives(blocks, heapAt, GRANULARITY * (c + 1), arena.base, arena.base + arena.size)
      modifies this, free, arena
      ensures Valid() && live == old(live)[p := n] && p !in old(live) && p % 16 == 0
      ensures heapFallbacks == old(heapFallbacks) + if Exhausted(old(arena.off)) then 1 else 0
      ensures PeaksFollow(old(uses), uses, View())
      ensures uses[c].chunks == old(uses)[c].chunks + if Exhausted(old(arena.off)) then 0 else 1
      ensures p in blocks && blocks[p].cls == if Exhausted(old(arena.off)) then HEAP else c
      ensures Exhausted(old(arena.off)) ==> arena.off == old(arena.off)
      ensures !Exhausted(old(arena.off)) ==> arena.base + arena.off == RoundUp(arena.base + old(arena.off), 16) + CHUNK
    {
      hide PoolHolds, Housed, Budget, ArenaHolds, RoundUp, Total;
      ghost var used := arena.base + arena.off;
      var mem := arena.Alloc(CHUNK, 16);
      if mem.None? {
        HeapBlock(GRANULARITY * (c + 1), n, heapAt);
        PeaksStay(View(), uses);
        return heapAt;
      }
      ArenaGrows(arena.base, origin, old(arena.off), Total(uses), arena.off);
      PerChunkFits(c);
      WidenHouse(blocks, arena.base, used, mem.value, arena.base + arena.size);
      CutBlocks(c, mem.value, PerChunk(c));
      p := TakeCut(c, n, mem.value + PerChunk(c) * (GRANULARITY * (c + 1)));
    }

    predicate Exhausted(off: nat)
    {
      RoundUp(arena.base + off, 16) + CHUNK > arena.base + arena.size
    }

    /** Memory for a frame of `n` bytes: a free block of its class first, then a new chunk, then the
        heap, which also takes what is too large for every class. */
    method Alloc(n: nat, heapAt: nat) returns (p: nat)
      requires Valid() && HeapGives(blocks, heapAt, SizeFor(n), arena.base, arena.base + arena.size)
      modifies this, free, arena
      ensures Valid() && live == old(live)[p := n] && p !in old(live) && p % 16 == 0
      ensures PeaksFollow(old(uses), uses, View())
      ensures p in blocks
      ensures blocks[p].cls == HEAP || GRANULARITY * blocks[p].cls < n + HEADER <= GRANULARITY * (blocks[p].cls + 1)
      ensures ClassFor(n) <= BUCKETS && old(free[ClassFor(n) - 1]) != [] ==>
                p == old(free[ClassFor(n) - 1])[0] && arena.off == old(arena.off) && heapFallbacks == old(heapFallbacks)
      ensures heapFallbacks == old(heapFallbacks) +
                if ClassFor(n) > BUCKETS || (old(free[ClassFor(n) - 1]) == [] && Exhausted(old(arena.off))) then 1 else 0
      ensures heapFallbacks > old(heapFallbacks) ==> arena.off == old(arena.off)
      ensures arena.off != old(arena.off) ==> arena.base + arena.off == RoundUp(arena.base + old(arena.off), 16) + CHUNK
    {
      hide PoolHolds, Housed, Budgets;
      var need := n + HEADER;
      var cls := (need + GRANULARITY - 1) / GRANULARITY;
      ClassIsSmallest(n);
      if cls > BUCKETS {
        HeapBlock(need, n, heapAt);
        PeaksStay(View(), uses);
        return heapAt;
      }
      if free[cls - 1] != [] {
        p := Pop(cls - 1, n);
        return;
      }
      p := Carve(cls - 1, n, heapAt);
    }

    /** Takes back memory that was given out, or ignores the null pointer and what has no header. */
    method Free(p: nat)
      requires Valid() && (p == 0 || p in live || p !in blocks)
      modifies this, free
      ensures Valid() && arena.off == old(arena.off) && heapFallbacks == old(heapFallbacks) && uses == old(uses)
      ensures live == old(live) - {p}
      ensures corrupt == old(corrupt) + if p != 0 && p !in old(blocks) then 1 else 0
      ensures p in old(live) && old(blocks)[p].cls < BUCKETS ==> View() == Pushed(old(View()), p)
      ensures p in old(live) && old(blocks)[p].cls >= BUCKETS ==> View() == WithoutHeapBlock(old(View()), p)
    {
      hide Housed, Budgets, Apart, Covered, FreeHolds;
      KnownBlocks(View(), p);
      if p == 0 {
        return;
      }
      if p !in blocks {
        corrupt := corrupt + 1;
        return;
      }
      if blocks[p].cls == HEAP {
        HeapBlockGoes(View(), p, arena.base, arena.base + arena.off, arena.base + arena.size);
        HeapCounts(View(), uses, p, 0, 0);
        blocks := blocks - {p};
        live := live - {p};
        return;
      }
      PushKeeps(View(), p);
      PushCounts(View(), uses, p);
      var c := blocks[p].cls;
      free[c] := [p] + free[c];
      live := live - {p};
    }
  }

  function ClassFor(n: nat): nat
  {
    (n + HEADER + GRANULARITY - 1) / GRANULARITY
  }

  function SizeFor(n: nat): nat
  {
    if ClassFor(n) > BUCKETS then n + HEADER else GRANULARITY * ClassFor(n)
  }

  lemma FirstIsOfClass(pool: Pool, c: nat)
    requires PoolHolds(pool) && c < BUCKETS && pool.free[c] != []
    ensures pool.free[c][0] in pool.blocks && pool.blocks[pool.free[c][0]].cls == c
  {
    assert FreeList(pool.blocks, pool.free[c], pool.live, c);
  }

  /** The class of a frame is the smallest that holds it together with its header. */
  lemma ClassIsSmallest(n: nat)
    ensures GRANULARITY * (ClassFor(n) - 1) < n + HEADER <= GRANULARITY * ClassFor(n)
  {
  }

  lemma KnownBlocks(pool: Pool, p: nat)
    requires PoolHolds(pool)
    ensures 0 !in pool.blocks && 0 !in pool.live
    ensures p in pool.live ==> p in pool.blocks && (pool.blocks[p].cls == HEAP || pool.blocks[p].cls < BUCKETS)
    ensures p !in pool.blocks ==> pool.live - {p} == pool.live
    ensures pool.live - {0} == pool.live
  {
    if p in pool.blocks {
      assert ShapedBlock(p, pool.blocks[p]);
    }
    forall q | q in pool.blocks ensures q >= HEADER {
      assert ShapedBlock(q, pool.blocks[q]);
    }
  }

  lemma WidenHouse(blocks: map<nat, Block>, lo: nat, used: nat, more: nat, hi: nat)
    requires Housed(blocks, lo, used, hi) && used <= more
    ensures Housed(blocks, lo, more, hi)
  {
  }

  /** Where the next block of a chunk lies. */
  lemma BlockPlace(mem: nat, i: nat, c: nat, count: nat)
    requires mem % 16 == 0 && i < count && count * (GRANULARITY * (c + 1)) <= CHUNK
    ensures (mem + i * (GRANULARITY * (c + 1)) + HEADER) % 16 == 0
    ensures (i + 1) * (GRANULARITY * (c + 1)) == i * (GRANULARITY * (c + 1)) + GRANULARITY * (c + 1) <= CHUNK
  {
    var block := GRANULARITY * (c + 1);
    Arith.MulDistributes(i, 1, block);
    Arith.MulMonotone(i + 1, count, block);
    var k := i * (4 * (c + 1));
    assert i * block == 16 * k;
  }

  // ---- whole runs

  /** A frame is taken, with the address the heap would offer, or one of those held is given back. */
  datatype CacheStep = Take(n: nat, heapAt: nat) | Give(which: nat)

  /** The pool and the frames held, oldest first. */
  datatype CacheState = CacheState(pool: Pool, held: seq<nat>)

  ghost predicate Took(s: CacheState, s': CacheState, p: nat, n: nat)
  {
    p !in s.pool.live && s'.pool.live == s.pool.live[p := n] && s'.held == s.held + [p]
  }

  /** What one step does to the memory in use. An offer that breaks the system allocator's promise is
      passed over. */
  ghost predicate Stepped(s: CacheState, step: CacheStep, s': CacheState, lo: nat, hi: nat)
  {
    match step
    case Take(n, heapAt) =>
      if HeapGives(s.pool.blocks, heapAt, SizeFor(n), lo, hi) then exists p: nat :: Took(s, s', p, n) else s' == s
    case Give(which) =>
      if which < |s.held| then
        s'.pool.live == s.pool.live - {s.held[which]} && s'.held == s.held[..which] + s.held[which + 1..]
      else s' == s
  }

  /** The most blocks of a class in use at once in any of the states. */
  ghost function PeakOf(states: seq<CacheState>, c: nat): nat
  {
    if states == [] then 0
    else Max(PeakOf(states[..|states| - 1], c), |LiveOf(states[|states| - 1].pool, c)|)
  }

  /** A run from an empty cache in which no pool is ill-formed. */
  ghost predicate IsRun(states: seq<CacheState>, steps: seq<CacheStep>, lo: nat, hi: nat)
  {
    && |states| == |steps| + 1 && states[0].pool.live == map[] && states[0].held == []
    && (forall i :: 0 <= i < |steps| ==> Stepped(states[i], steps[i], states[i + 1], lo, hi))
    && (forall i :: 0 <= i < |states| ==> PoolHolds(states[i].pool))
  }

  ghost predicate PeaksAre(uses: seq<Use>, states: seq<CacheState>)
  {
    |uses| == BUCKETS && forall c :: 0 <= c < BUCKETS ==> uses[c].peak == PeakOf(states, c)
  }

  lemma PeaksGrow(uses: seq<Use>, uses': seq<Use>, states: seq<CacheState>, s: CacheState)
    requires PeaksAre(uses, states) && PeaksFollow(uses, uses', s.pool)
    ensures PeaksAre(uses', states + [s])
  {
    assert (states + [s])[..|states|] == states;
  }

  lemma PeaksStart(uses: seq<Use>, s: CacheState)
    requires uses == seq(BUCKETS, i => Use(0, 0)) && s.pool.live == map[]
    ensures PeaksAre(uses, [s])
  {
    forall c | 0 <= c < BUCKETS ensures uses[c].peak == PeakOf([s], c) {
      assert LiveOf(s.pool, c) == {};
    }
  }

  lemma RunGrows(states: seq<CacheState>, steps: seq<CacheStep>, lo: nat, hi: nat, step: CacheStep, s: CacheState)
    requires IsRun(states, steps, lo, hi) && Stepped(states[|steps|], step, s, lo, hi) && PoolHolds(s.pool)
    ensures IsRun(states + [s], steps + [step], lo, hi)
  {
    hide Stepped, PoolHolds;
  }

  lemma TakeSteps(s: CacheState, n: nat, heapAt: nat, s': CacheState, lo: nat, hi: nat, p: nat)
    requires if HeapGives(s.pool.blocks, heapAt, SizeFor(n), lo, hi) then Took(s, s', p, n) else s' == s
    ensures Stepped(s, Take(n, heapAt), s', lo, hi)
  {
    hide HeapGives, Took;
  }

  /** Whatever is taken and given back, in any order: every step takes or gives exactly that memory, what
      is in use overlaps nothing, and the arena never reaches further than the most that was in use at
      once, class by class. */
  method Drive(base: nat, size: nat, steps: seq<CacheStep>) returns (cache: FrameCache, ghost states: seq<CacheState>)
    ensures cache.Valid() && IsRun(states, steps, base, base + size) && states[|steps|].pool == cache.View()
    ensures PeaksAre(cache.uses, states) && cache.arena.off <= 15 + CHUNK * PeakChunks(cache.uses)
  {
    hide PoolHolds, Housed, Budget, PeaksFollow, ArenaHolds, PeakChunks, PeaksAre, Stepped, HeapGives, IsRun;
    var arena := new Arena(base, size);
    cache := new FrameCache(arena);
    var held: seq<nat> := [];
    states := [CacheState(cache.View(), held)];
    PeaksStart(cache.uses, states[0]);
    RunStarts(states[0], base, base + size);
    for i := 0 to |steps|
      invariant fresh(cache) && fresh(cache.free) && fresh(cache.arena) && cache.Valid()
      invariant cache.arena.base == base && cache.arena.size == size && cache.origin == 0
      invariant Distinct(held) && forall k :: 0 <= k < |held| ==> held[k] in cache.live
      invariant |states| == i + 1 && states[i] == CacheState(cache.View(), held)
      invariant IsRun(states, steps[..i], base, base + size) && PeaksAre(cache.uses, states)
    {
      ghost var s, uses := states[i], cache.uses;
      held := Perform(cache, steps[i], held);
      ghost var s' := CacheState(cache.View(), held);
      PeaksGrow(uses, cache.uses, states, s');
      RunGrows(states, steps[..i], base, base + size, steps[i], s');
      assert steps[..i] + [steps[i]] == steps[..i + 1];
      states := states + [s'];
    }
    assert steps[..|steps|] == steps;
    ArenaFollowsPeaks(cache.View(), cache.uses, base, 0, cache.arena.off);
  }

  lemma RunStarts(s: CacheState, lo: nat, hi: nat)
    requires PoolHolds(s.pool) && s.pool.live == map[] && s.held == []
    ensures IsRun([s], [], lo, hi)
  {
    hide PoolHolds;
  }

  /** One step on the cache. */
  method Perform(cache: FrameCache, step: CacheStep, held: seq<nat>) returns (held': seq<nat>)
    requires cache.Valid() && Distinct(held) && forall k :: 0 <= k < |held| ==> held[k] in cache.live
    modifies cache, cache.free, cache.arena
    ensures cache.Valid() && Distinct(held') && forall k :: 0 <= k < |held'| ==> held'[k] in cache.live
    ensures PeaksFollow(old(cache.uses), cache.uses, cache.View())
    ensures Stepped(CacheState(old(cache.View()), held), step, CacheState(cache.View(), held'), cache.arena.base,
                    cache.arena.base + cache.arena.size)
  {
    hide PoolHolds, Housed, Budget, PeaksFollow, ArenaHolds, HeapGives;
    held' := held;
    ghost var s := CacheState(cache.View(), held);
    match step {
      case Take(n, heapAt) =>
        ghost var p: nat := 0;
        if HeapGives(cache.blocks, heapAt, SizeFor(n), cache.arena.base, cache.arena.base + cache.arena.size) {
          var q := cache.Alloc(n, heapAt);
          held' := held + [q];
          p := q;
        } else {
          PeaksStay(cache.View(), cache.uses);
        }
        TakeSteps(s, n, heapAt, CacheState(cache.View(), held'), cache.arena.base, cache.arena.base + cache.arena.size, p);
      case Give(which) =>
        if which < |held| {
          cache.Free(held[which]);
          held' := held[..which] + held[which + 1..];
        }
        PeaksStay(cache.View(), cache.uses);
    }
  }
}
