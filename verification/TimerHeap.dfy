/** The four-ary min-heap over deadlines, with the nodes' back-pointers into it. */
module TimerHeaps {
  import opened TimerWheels

  function Parent(i: nat): (p: nat)
    requires i > 0
    ensures p < i
  {
    (i - 1) / 4
  }

  ghost predicate EdgeHolds(h: seq<Node>, child: nat)
    requires 0 < child < |h|
  {
    h[Parent(child)].expiry <= h[child].expiry
  }

  ghost predicate Ordered(h: seq<Node>)
  {
    forall c :: 0 < c < |h| ==> EdgeHolds(h, c)
  }

  /** Heap order except below `k`, whose children are still no earlier than its parent. */
  ghost predicate OrderedButBelow(h: seq<Node>, k: nat)
  {
    && (forall c :: 0 < c < |h| && Parent(c) != k ==> EdgeHolds(h, c))
    && GrandchildrenHold(h, k)
  }

  /** Heap order except between `k` and its parent, and, while `k` is the start, below `k`. */
  ghost predicate OrderedButAbove(h: seq<Node>, k: nat, start: nat)
  {
    && (forall c :: 0 < c < |h| && c != k && (k == start ==> Parent(c) != k) ==> EdgeHolds(h, c))
    && GrandchildrenHold(h, k)
  }

  ghost predicate GrandchildrenHold(h: seq<Node>, k: nat)
  {
    forall c :: 0 < c < |h| && Parent(c) == k && 0 < k ==> h[Parent(k)].expiry <= h[c].expiry
  }

  /** Every entry knows its own position. */
  ghost predicate Indexed(h: seq<Node>, idx: map<Node, nat>)
  {
    && (forall i :: 0 <= i < |h| ==> h[i] in idx && idx[h[i]] == i)
    && (forall n :: n in idx ==> idx[n] < |h| && h[idx[n]] == n)
  }

  function Swapped(h: seq<Node>, i: nat, j: nat): (r: seq<Node>)
    requires i < |h| && j < |h|
    ensures |r| == |h|
  {
    h[i := h[j]][j := h[i]]
  }

  /** Swapping an earlier child with its parent moves the broken edge one level up. */
  lemma SwapUp(h: seq<Node>, k: nat, start: nat)
    requires 0 < k < |h| && OrderedButAbove(h, k, start)
    requires h[k].expiry < h[Parent(k)].expiry && (k != start ==> k < start)
    ensures OrderedButAbove(Swapped(h, k, Parent(k)), Parent(k), start)
  {
    var r := Swapped(h, k, Parent(k));
    forall c | 0 < c < |r| && c != Parent(k) ensures EdgeHolds(r, c) {
      if Parent(c) == k {
        assert h[Parent(k)].expiry <= h[c].expiry;
      } else if c != k {
        assert EdgeHolds(h, c);
      }
    }
    if 0 < Parent(k) {
      assert EdgeHolds(h, Parent(k));
    }
  }

  /** Swapping the earliest child with its parent moves the broken edges one level down. */
  lemma SwapDown(h: seq<Node>, k: nat, best: nat)
    requires 0 < best < |h| && Parent(best) == k && OrderedButBelow(h, k)
    requires h[best].expiry < h[k].expiry
    requires forall c :: 0 < c < |h| && Parent(c) == k ==> h[best].expiry <= h[c].expiry
    ensures OrderedButBelow(Swapped(h, k, best), best)
  {
    var r := Swapped(h, k, best);
    forall c | 0 < c < |r| && Parent(c) != best ensures EdgeHolds(r, c) {
      if c != k && Parent(c) != k {
        assert EdgeHolds(h, c);
      }
    }
    forall c | 0 < c < |r| && Parent(c) == best ensures r[k].expiry <= r[c].expiry {
      assert EdgeHolds(h, c);
    }
  }

  lemma {:induction false} RootIsEarliest(h: seq<Node>, i: nat)
    requires Ordered(h) && i < |h|
    ensures h[0].expiry <= h[i].expiry
  {
    if i > 0 {
      assert EdgeHolds(h, i);
      RootIsEarliest(h, Parent(i));
    }
  }

  lemma AppendOrder(h: seq<Node>, n: Node)
    requires Ordered(h)
    ensures OrderedButAbove(h + [n], |h|, |h|)
  {
    var r := h + [n];
    forall c | 0 < c < |r| && c != |h| ensures EdgeHolds(r, c) {
      assert EdgeHolds(h, c);
    }
  }

  lemma DropLast(h: seq<Node>, idx: map<Node, nat>)
    requires Indexed(h, idx) && h != [] && Ordered(h)
    ensures Indexed(h[..|h| - 1], idx - {h[|h| - 1]}) && Ordered(h[..|h| - 1])
  {
    var r := h[..|h| - 1];
    forall c | 0 < c < |r| ensures EdgeHolds(r, c) {
      assert EdgeHolds(h, c);
    }
  }

  lemma MemberIndex(h: seq<Node>, idx: map<Node, nat>, n: Node)
    requires Indexed(h, idx) && n in idx
    ensures idx[n] < |h| && h[idx[n]] == n && h[|h| - 1] in idx
    ensures idx[n] < |h| - 1 ==> h[|h| - 1] != n
  {
  }

  lemma RefillIndex(h: seq<Node>, idx: map<Node, nat>, n: Node)
    requires Indexed(h, idx) && n in idx && idx[n] < |h| - 1
    ensures Indexed(h[..|h| - 1][idx[n] := h[|h| - 1]], (idx - {n})[h[|h| - 1] := idx[n]])
  {
  }

  /** Putting the last entry into a freed position leaves only that position out of order. */
  lemma RefillOrder(h: seq<Node>, i: nat)
    requires Ordered(h) && i < |h| - 1
    ensures OrderedButAbove(h[..|h| - 1][i := h[|h| - 1]], i, i)
  {
    var r := h[..|h| - 1][i := h[|h| - 1]];
    forall c | 0 < c < |r| && c != i && Parent(c) != i ensures EdgeHolds(r, c) {
      assert EdgeHolds(h, c);
    }
    forall c | 0 < c < |r| && Parent(c) == i && 0 < i ensures r[Parent(i)].expiry <= r[c].expiry {
      assert EdgeHolds(h, c) && EdgeHolds(h, i);
    }
  }

  /** `fired` takes due nodes out of `all` in deadline order, none of them later than what is left. */
  ghost predicate Expiring(all: set<Node>, fired: seq<Node>, now: int, rest: set<Node>)
  {
    && (forall i :: 0 <= i < |fired| ==> fired[i] in all && fired[i].expiry <= now)
    && (forall i, j :: 0 <= i < j < |fired| ==> fired[i] != fired[j] && fired[i].expiry <= fired[j].expiry)
    && (forall i, n :: 0 <= i < |fired| && n in rest ==> fired[i].expiry <= n.expiry)
    && (forall n :: n in rest <==> n in all && n !in fired)
  }

  ghost predicate ExpiredExactly(all: set<Node>, fired: seq<Node>, now: int, rest: set<Node>)
  {
    Expiring(all, fired, now, rest) && forall n :: n in rest ==> n.expiry > now
  }

  lemma ExpireOne(all: set<Node>, fired: seq<Node>, now: int, rest: set<Node>, n: Node)
    requires Expiring(all, fired, now, rest) && n in rest && n.expiry <= now
    requires forall m :: m in rest ==> n.expiry <= m.expiry
    ensures Expiring(all, fired + [n], now, rest - {n})
  {
  }

  class TimerHeap {
    var heap: seq<Node>
    /** The nodes' heap_idx fields; a node is a key exactly while it is in the heap. */
    var idx: map<Node, nat>

    ghost predicate Valid()
      reads this
    {
      Indexed(heap, idx) && Ordered(heap)
    }

    constructor ()
      ensures Valid() && idx == map[]
    {
      heap, idx := [], map[];
    }

    method Swap(i: nat, j: nat)
      requires i < |heap| && j < |heap| && i != j && Indexed(heap, idx)
      modifies this
      ensures Indexed(heap, idx) && idx.Keys == old(idx.Keys)
      ensures heap == Swapped(old(heap), i, j)
    {
      heap := Swapped(heap, i, j);
      idx := idx[heap[i] := i][heap[j] := j];
    }

    method SiftUp(start: nat)
      requires start < |heap| && Indexed(heap, idx)
      requires OrderedButAbove(heap, start, start)
      modifies this
      ensures Indexed(heap, idx) && idx.Keys == old(idx.Keys)
      ensures |heap| == |old(heap)| && OrderedButBelow(heap, start)
    {
      hide Indexed;
      var i: nat := start;
      while i > 0
        invariant i <= start && |heap| == |old(heap)|
        invariant Indexed(heap, idx) && idx.Keys == old(idx.Keys)
        invariant OrderedButAbove(heap, i, start)
      {
        if heap[i].expiry >= heap[Parent(i)].expiry {
          break;
        }
        SwapUp(heap, i, start);
        Swap(i, Parent(i));
        i := Parent(i);
      }
      assert 0 < i ==> EdgeHolds(heap, i);
      assert i != start ==> Ordered(heap);
      assert 0 < start ==> i != start ==> EdgeHolds(heap, start);
    }

    /** The earliest of a position and its up to four children, the position itself on a tie. */
    method EarliestBelow(i: nat) returns (best: nat)
      requires i < |heap|
      ensures best < |heap| && heap[best].expiry <= heap[i].expiry
      ensures best != i ==> best > 0 && Parent(best) == i && heap[best].expiry < heap[i].expiry
      ensures forall c :: 0 < c < |heap| && Parent(c) == i ==> heap[best].expiry <= heap[c].expiry
    {
      best := i;
      var c := 4 * i + 1;
      while c <= 4 * i + 4 && c < |heap|
        invariant 4 * i + 1 <= c <= 4 * i + 5
        invariant best < |heap| && heap[best].expiry <= heap[i].expiry
        invariant best != i ==> 0 < best < c && Parent(best) == i && heap[best].expiry < heap[i].expiry
        invariant forall d :: 4 * i + 1 <= d < c && d < |heap| ==> heap[best].expiry <= heap[d].expiry
      {
        if heap[c].expiry < heap[best].expiry {
          best := c;
        }
        c := c + 1;
      }
    }

    method SiftDown(start: nat)
      requires start < |heap| && Indexed(heap, idx) && OrderedButBelow(heap, start)
      modifies this
      ensures Valid() && idx.Keys == old(idx.Keys)
      ensures |heap| == |old(heap)|
    {
      hide Indexed;
      var i: nat := start;
      while true
        invariant i < |heap| == |old(heap)|
        invariant Indexed(heap, idx) && idx.Keys == old(idx.Keys)
        invariant OrderedButBelow(heap, i)
        decreases |heap| - i
      {
        var best := EarliestBelow(i);
        if best == i {
          break;
        }
        SwapDown(heap, i, best);
        Swap(i, best);
        i := best;
      }
    }

    method Push(n: Node)
      requires Valid() && n !in idx
      modifies this
      ensures Valid() && idx.Keys == old(idx.Keys) + {n}
    {
      idx := idx[n := |heap|];
      heap := heap + [n];
      assert Indexed(heap, idx);
      AppendOrder(old(heap), n);
      hide Indexed, OrderedButAbove;
      SiftUp(|heap| - 1);
      assert forall c :: 0 < c < |heap| ==> Parent(c) < |heap| - 1;
    }

    /** Removal from anywhere: the last entry takes the freed position and sifts up, then down. */
    method Remove(n: Node)
      requires Valid()
      modifies this
      ensures Valid() && idx.Keys == old(idx.Keys) - {n}
      ensures n in old(idx) ==> |heap| == |old(heap)| - 1
    {
      hide Indexed, Ordered, OrderedButAbove, OrderedButBelow;
      if n !in idx {
        return;
      }
      MemberIndex(heap, idx, n);
      DropLast(heap, idx);
      var i := idx[n];
      var last := heap[|heap| - 1];
      heap := heap[..|heap| - 1];
      idx := idx - {n};
      if i < |heap| {
        RefillIndex(old(heap), old(idx), n);
        RefillOrder(old(heap), i);
        heap := heap[i := last];
        idx := idx[last := i];
        SiftUp(i);
        SiftDown(i);
      }
    }

    lemma TopIsEarliest()
      requires Valid()
      ensures forall n :: n in idx ==> heap != [] && heap[0].expiry <= n.expiry
    {
      forall n | n in idx ensures heap != [] && heap[0].expiry <= n.expiry {
        RootIsEarliest(heap, idx[n]);
      }
    }

    lemma TopIsLinked()
      requires Valid() && heap != []
      ensures heap[0] in idx
    {
    }

    /** Expiry with a callback that only records. */
    method Expire(now: int) returns (fired: seq<Node>)
      requires Valid()
      modifies this
      ensures Valid()
      ensures ExpiredExactly(old(idx.Keys), fired, now, idx.Keys)
    {
      fired := [];
      while heap != [] && heap[0].expiry <= now
        invariant Valid()
        invariant Expiring(old(idx.Keys), fired, now, idx.Keys)
        decreases |heap|
      {
        var n := heap[0];
        TopIsEarliest();
        ExpireOne(old(idx.Keys), fired, now, idx.Keys, n);
        Remove(n);
        fired := fired + [n];
      }
      TopIsEarliest();
    }
  }
}
