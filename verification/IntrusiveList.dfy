/** The sentinel-terminated circular list threaded through the nodes, shared by wheel buckets and
    timer groups: appending and unlinking pointers append to and remove from the list it stands for. */
module IntrusiveList {
  import opened Lists

  class Node {
    var prev: Node?
    var next: Node?

    constructor ()
      ensures prev == null && next == null
    {
      prev, next := null, null;
    }
  }

  /** From the sentinel forward, the ring visits `members` in order and comes back. */
  ghost predicate Ring(sentinel: Node, members: seq<Node>)
    reads sentinel, members
  {
    && sentinel !in members && Distinct(members)
    && var ring := [sentinel] + members + [sentinel];
       forall i :: 0 <= i <= |members| ==> ring[i].next == ring[i + 1] && ring[i + 1].prev == ring[i]
  }

  lemma RingAt(sentinel: Node, members: seq<Node>, i: nat)
    requires Ring(sentinel, members) && i <= |members|
    ensures var ring := [sentinel] + members + [sentinel];
            ring[i].next == ring[i + 1] && ring[i + 1].prev == ring[i]
  {
  }

  method Init(sentinel: Node)
    modifies sentinel
    ensures Ring(sentinel, [])
  {
    sentinel.prev, sentinel.next := sentinel, sentinel;
  }

  /** list_empty reads one pointer. */
  method IsEmpty(sentinel: Node, ghost members: seq<Node>) returns (empty: bool)
    requires Ring(sentinel, members)
    ensures empty <==> members == []
  {
    ghost var ring := [sentinel] + members + [sentinel];
    assert ring[0].next == ring[1];
    empty := sentinel.next == sentinel;
  }

  method PushBack(sentinel: Node, n: Node, ghost members: seq<Node>)
    requires Ring(sentinel, members) && n != sentinel && n !in members
    modifies sentinel, n, members
    ensures Ring(sentinel, members + [n])
  {
    ghost var ring := [sentinel] + members + [sentinel];
    assert ring[|members| + 1].prev == ring[|members|];
    var last := sentinel.prev;
    n.prev := last;
    n.next := sentinel;
    last.next := n;
    sentinel.prev := n;
    AppendKeepsDistinct(members, n);
    assert [sentinel] + (members + [n]) + [sentinel] == ring[..|members| + 1] + [n, sentinel];
  }

  /** Unlinking needs nothing but the node: whichever ring holds it loses exactly that member. */
  method Unlink(n: Node, ghost sentinel: Node, ghost members: seq<Node>)
    requires Ring(sentinel, members) && n in members
    modifies sentinel, members
    ensures Ring(sentinel, Without(members, n))
    ensures n.prev == null && n.next == null
  {
    hide Without, Distinct;
    ghost var k :| 0 <= k < |members| && members[k] == n;
    ghost var ring := [sentinel] + members + [sentinel];
    RingAt(sentinel, members, k);
    RingAt(sentinel, members, k + 1);
    Spliced(sentinel, members, k);
    ghost var rest := Without(members, n);
    var before, after := n.prev, n.next;
    before.next := after;
    after.prev := before;
    n.prev, n.next := null, null;
    forall i | 0 <= i <= |rest|
      ensures ([sentinel] + rest + [sentinel])[i].next == ([sentinel] + rest + [sentinel])[i + 1]
      ensures ([sentinel] + rest + [sentinel])[i + 1].prev == ([sentinel] + rest + [sentinel])[i]
    {
    }
  }

  /** The ring around a removed position, and how far its members are from each other. */
  lemma Spliced(sentinel: Node, members: seq<Node>, k: nat)
    requires sentinel !in members && Distinct(members) && k < |members|
    ensures var ring := [sentinel] + members + [sentinel];
            var rest := Without(members, members[k]);
            && sentinel !in rest && Distinct(rest) && |rest| == |members| - 1
            && (forall i :: 0 <= i <= k ==> ([sentinel] + rest + [sentinel])[i] == ring[i])
            && (forall i :: k < i <= |members| ==> ([sentinel] + rest + [sentinel])[i] == ring[i + 1])
            && (forall i :: 0 <= i <= |members| + 1 && i != k && i != k + 2 && i != k + 1 ==>
                  (0 < i ==> ring[i] != ring[k + 1]) && (i <= |members| ==> ring[i] != ring[k]) && (0 < i ==> ring[i] != ring[k + 2]))
            && ring[k + 1] != ring[k] && ring[k + 1] != ring[k + 2]
  {
    WithoutAt(members, k);
    WithoutRemoves(members, members[k]);
  }

  lemma {:induction false} WithoutAt<T>(s: seq<T>, k: nat)
    requires Distinct(s) && k < |s|
    ensures Without(s, s[k]) == s[..k] + s[k + 1..]
  {
    if k > 0 {
      WithoutAt(s[1..], k - 1);
      assert s[..k] + s[k + 1..] == [s[0]] + (s[1..][..k - 1] + s[1..][k..]);
    }
  }

  /** From the sentinel forward, the pointers still lead to the k-th member. */
  ghost predicate LeadsTo(sentinel: Node, members: seq<Node>, k: nat)
    requires k < |members|
    reads sentinel, members
  {
    var ring := [sentinel] + members;
    forall i :: 0 <= i <= k ==> ring[i].next == ring[i + 1]
  }

  /** Whatever ring there were, its first members would be those. */
  lemma {:induction false} WalkAgrees(sentinel: Node, members: seq<Node>, k: nat, ms: seq<Node>, i: nat)
    requires sentinel !in members && k < |members| && LeadsTo(sentinel, members, k) && Ring(sentinel, ms) && i <= k
    ensures i < |ms| && ms[..i + 1] == members[..i + 1]
  {
    var ring, there := [sentinel] + members, [sentinel] + ms + [sentinel];
    if i > 0 {
      WalkAgrees(sentinel, members, k, ms, i - 1);
      assert ms[i - 1] == ms[..i][i - 1] == members[i - 1];
    }
    assert there[i] == ring[i];
    assert ring[i].next == ring[i + 1];
    RingAt(sentinel, ms, i);
    assert there[i + 1] == members[i] != sentinel;
  }

  /** A member that the pointers lead to, but whose back pointer is not the node before it: no ring of any
      members starts at this sentinel. */
  lemma NoRing(sentinel: Node, members: seq<Node>, k: nat)
    requires sentinel !in members && k < |members| && LeadsTo(sentinel, members, k)
    requires members[k].prev != ([sentinel] + members)[k]
    ensures forall ms: seq<Node> :: !Ring(sentinel, ms)
  {
    forall ms: seq<Node> ensures !Ring(sentinel, ms) {
      if Ring(sentinel, ms) {
        RingLeadsBack(sentinel, members, k, ms);
      }
    }
  }

  lemma RingLeadsBack(sentinel: Node, members: seq<Node>, k: nat, ms: seq<Node>)
    requires sentinel !in members && k < |members| && LeadsTo(sentinel, members, k) && Ring(sentinel, ms)
    ensures members[k].prev == ([sentinel] + members)[k]
  {
    WalkAgrees(sentinel, members, k, ms, k);
    RingAt(sentinel, ms, k);
    assert ms[k] == ms[..k + 1][k] == members[k];
    assert k > 0 ==> ms[k - 1] == ms[..k + 1][k - 1] == members[k - 1];
  }

  lemma LastInRing(sentinel: Node, members: seq<Node>)
    requires Ring(sentinel, members)
    ensures sentinel !in members && sentinel.prev == ([sentinel] + members)[|members|]
    ensures sentinel.prev in [sentinel] + members
  {
    RingAt(sentinel, members, |members|);
    assert ([sentinel] + members + [sentinel])[|members|] == ([sentinel] + members)[|members|];
  }

  /** The part of a ring in front of a member leads to it and does not contain it. */
  lemma InFront(sentinel: Node, members: seq<Node>, k: nat)
    requires Ring(sentinel, members) && k < |members|
    ensures sentinel !in members && forall i :: 0 <= i <= k ==> ([sentinel] + members)[i].next == members[i]
    ensures members[k] !in ([sentinel] + members)[..k + 1] && sentinel.prev !in ([sentinel] + members)[..k + 1]
  {
    LastInRing(sentinel, members);
    var ring := [sentinel] + members;
    forall i | 0 <= i <= k ensures ring[i].next == members[i] && ring[i] != members[k] && ring[i] != ring[|members|] {
      RingAt(sentinel, members, i);
      assert ([sentinel] + members + [sentinel])[i] == ring[i];
    }
  }

  /** Appending a member once more, wherever it is, leaves no ring at the sentinel. */
  method PushedTwice(sentinel: Node, n: Node, ghost members: seq<Node>)
    requires Ring(sentinel, members) && n in members
    modifies sentinel, members
    ensures forall ms: seq<Node> :: !Ring(sentinel, ms)
  {
    hide Ring, LeadsTo;
    ghost var k :| 0 <= k < |members| && members[k] == n;
    InFront(sentinel, members, k);
    LastInRing(sentinel, members);
    var last := sentinel.prev;
    ghost var front := ([sentinel] + members)[..k + 1];
    n.prev := last;
    n.next := sentinel;
    last.next := n;
    sentinel.prev := n;
    StillLeads(sentinel, members, k, front);
    NoRing(sentinel, members, k);
  }

  /** Appending a member of one ring to another leaves no ring at the first sentinel. */
  method PushedElsewhere(sentinel: Node, n: Node, ghost members: seq<Node>, other: Node, ghost others: seq<Node>)
    requires Ring(sentinel, members) && n in members && Ring(other, others)
    requires forall m :: m in [other] + others ==> m !in [sentinel] + members
    modifies n, other, others
    ensures forall ms: seq<Node> :: !Ring(sentinel, ms)
  {
    hide Ring, LeadsTo;
    ghost var k :| 0 <= k < |members| && members[k] == n;
    InFront(sentinel, members, k);
    LastInRing(other, others);
    var last := other.prev;
    ghost var front := ([sentinel] + members)[..k + 1];
    assert forall m :: m in front ==> m in [sentinel] + members;
    n.prev := last;
    n.next := other;
    last.next := n;
    other.prev := n;
    StillLeads(sentinel, members, k, front);
    NoRing(sentinel, members, k);
  }

  lemma StillLeads(sentinel: Node, members: seq<Node>, k: nat, front: seq<Node>)
    requires k < |members| && front == ([sentinel] + members)[..k + 1]
    requires forall i :: 0 <= i <= k ==> front[i].next == members[i]
    ensures LeadsTo(sentinel, members, k)
  {
    var ring := [sentinel] + members;
    forall i | 0 <= i <= k ensures ring[i].next == ring[i + 1] {
      assert ring[i] == front[i];
    }
  }
}
