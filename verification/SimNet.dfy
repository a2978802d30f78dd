/** The simulator's network fabric: a queue of events ordered by (due, order), and links whose two
    directions each stay an ordered byte stream whatever latency, fragmentation and faults do. */
module SimNets {
  import opened Basics

  /** One direction of a link. */
  datatype Dir = Dir(link: nat, forward: bool)

  datatype Kind = Bytes | Accept | ConnectDone | PeerFin | PeerReset | PartitionEnd | Posted

  /** `order` is the enqueue counter; `dir` says which stream a Bytes event belongs to. */
  datatype Event = Event(due: int, order: nat, kind: Kind, backend: nat, fd: int, aux: int, dir: Option<Dir>,
                         bytes: seq<byte>)

  /** Both ends of a link and, per direction, the earliest instant the next send may land. */
  datatype Link = Link(a: nat, aFd: int, b: nat, bFd: int, partitioned: bool, nextFreeAb: int, nextFreeBa: int)

  /** (due, order) order of the event queue. */
  predicate Before(e: Event, f: Event) { e.due < f.due || (e.due == f.due && e.order < f.order) }

  // ---- streams inside the queue

  predicate Feeds(e: Event, d: Dir) { e.kind.Bytes? && e.dir == Some(d) }

  /** The bytes still queued for a direction, in enqueue order. */
  function Stream(q: seq<Event>, d: Dir): seq<byte>
  {
    if q == [] then [] else (if Feeds(q[0], d) then q[0].bytes else []) + Stream(q[1..], d)
  }

  lemma {:induction false} StreamAppend(q: seq<Event>, e: Event, d: Dir)
    ensures Stream(q + [e], d) == Stream(q, d) + (if Feeds(e, d) then e.bytes else [])
  {
    if q == [] {
      assert q + [e] == [e] && [e][1..] == [];
    } else {
      StreamAppend(q[1..], e, d);
      assert (q + [e])[1..] == q[1..] + [e];
    }
  }

  /** Taking out an event takes its bytes off the front of its own stream when nothing of that
      stream was queued before it, and leaves every other stream alone. */
  lemma {:induction false} StreamRemove(q: seq<Event>, k: nat, d: Dir)
    requires k < |q|
    requires Feeds(q[k], d) ==> forall i :: 0 <= i < k ==> !Feeds(q[i], d)
    ensures Stream(q, d) == (if Feeds(q[k], d) then q[k].bytes else []) + Stream(q[..k] + q[k + 1..], d)
  {
    if k == 0 {
      assert q[..k] + q[k + 1..] == q[1..];
    } else {
      StreamRemove(q[1..], k - 1, d);
      var rest := q[1..][..k - 1] + q[1..][k..];
      assert q[..k] == [q[0]] + q[1..][..k - 1] && q[k + 1..] == q[1..][k..];
      assert q[..k] + q[k + 1..] == [q[0]] + rest;
      assert ([q[0]] + rest)[1..] == rest;
    }
  }

  // ---- invariant

  ghost predicate Numbered(q: seq<Event>, next: nat)
  {
    && (forall i, j :: 0 <= i < j < |q| ==> q[i].order < q[j].order)
    && (forall i :: 0 <= i < |q| ==> q[i].order < next)
  }

  /** What was fed plus what is queued is what was sent, and the queued part lands in that order,
      all of it before the direction's watermark. */
  ghost predicate InOrder(q: seq<Event>, d: Dir, watermark: int, fed: seq<byte>, sent: seq<byte>)
  {
    && fed + Stream(q, d) == sent
    && (forall i :: 0 <= i < |q| && Feeds(q[i], d) ==> q[i].due < watermark)
    && (forall i, j :: 0 <= i < j < |q| && Feeds(q[i], d) && Feeds(q[j], d) ==> q[i].due <= q[j].due)
  }

  /** The earliest event of a numbered queue is the first of its own stream. */
  lemma EarliestIsFirst(q: seq<Event>, next: nat, k: nat, d: Dir, watermark: int, fed: seq<byte>, sent: seq<byte>)
    requires Numbered(q, next) && k < |q| && InOrder(q, d, watermark, fed, sent) && Feeds(q[k], d)
    requires forall i :: 0 <= i < |q| && i != k ==> Before(q[k], q[i])
    ensures forall i :: 0 <= i < k ==> !Feeds(q[i], d)
  {
  }

  lemma PushOther(q: seq<Event>, e: Event, d: Dir, watermark: int, fed: seq<byte>, sent: seq<byte>)
    requires InOrder(q, d, watermark, fed, sent) && !Feeds(e, d)
    ensures InOrder(q + [e], d, watermark, fed, sent)
  {
    StreamAppend(q, e, d);
  }

  /** A send scheduled no earlier than the watermark extends its stream, in order. */
  lemma PushOwn(q: seq<Event>, e: Event, d: Dir, watermark: int, fed: seq<byte>, sent: seq<byte>)
    requires InOrder(q, d, watermark, fed, sent) && Feeds(e, d) && watermark <= e.due
    ensures InOrder(q + [e], d, e.due + 1, fed, sent + e.bytes)
  {
    StreamAppend(q, e, d);
    assert fed + (Stream(q, d) + e.bytes) == sent + e.bytes;
  }

  lemma PopKeeps(q: seq<Event>, next: nat, k: nat, d: Dir, watermark: int, fed: seq<byte>, sent: seq<byte>)
    requires Numbered(q, next) && k < |q| && InOrder(q, d, watermark, fed, sent)
    requires forall i :: 0 <= i < |q| && i != k ==> Before(q[k], q[i])
    ensures var rest := q[..k] + q[k + 1..];
            Numbered(rest, next) && InOrder(rest, d, watermark, fed + (if Feeds(q[k], d) then q[k].bytes else []), sent)
  {
    hide Stream, Feeds;
    var rest := q[..k] + q[k + 1..];
    if Feeds(q[k], d) {
      EarliestIsFirst(q, next, k, d, watermark, fed, sent);
    }
    StreamRemove(q, k, d);
    var own := if Feeds(q[k], d) then q[k].bytes else [];
    assert fed + (own + Stream(rest, d)) == fed + own + Stream(rest, d);
    assert forall i :: 0 <= i < |rest| ==> rest[i] == q[if i < k then i else i + 1];
  }

  // ---- the whole fabric

  function Of(m: map<Dir, seq<byte>>, d: Dir): seq<byte> { if d in m then m[d] else [] }

  function Watermark(links: seq<Link>, d: Dir): int
    requires d.link < |links|
  {
    if d.forward then links[d.link].nextFreeAb else links[d.link].nextFreeBa
  }

  /** The end at which a direction comes out. */
  function FarEnd(links: seq<Link>, d: Dir): (nat, int)
    requires d.link < |links|
  {
    var l := links[d.link];
    if d.forward then (l.b, l.bFd) else (l.a, l.aFd)
  }

  function Raised(links: seq<Link>, d: Dir, watermark: int): (r: seq<Link>)
    requires d.link < |links|
    ensures |r| == |links|
  {
    links[d.link := if d.forward then links[d.link].(nextFreeAb := watermark)
                    else links[d.link].(nextFreeBa := watermark)]
  }

  lemma RaiseSets(links: seq<Link>, d: Dir, first: int, second: int)
    requires d.link < |links|
    ensures Watermark(Raised(links, d, first), d) == first
    ensures Raised(Raised(links, d, first), d, second) == Raised(links, d, second)
    ensures forall f: Dir :: f.link < |links| ==> FarEnd(Raised(links, d, first), f) == FarEnd(links, f)
  {
  }

  /** Queue, links and, as history, what each direction was sent and fed. */
  datatype Net = Net(q: seq<Event>, next: nat, links: seq<Link>, fed: map<Dir, seq<byte>>, sent: map<Dir, seq<byte>>)

  /** Queued bytes belong to a direction of a link and name the end at which that comes out. */
  predicate Addressed(links: seq<Link>, e: Event)
  {
    e.kind.Bytes? ==> e.dir.Some? && e.dir.value.link < |links| && (e.backend, e.fd) == FarEnd(links, e.dir.value)
  }

  ghost predicate NetHolds(v: Net)
  {
    && Numbered(v.q, v.next)
    && (forall i :: 0 <= i < |v.q| ==> Addressed(v.links, v.q[i]))
    && (forall d :: d in v.fed || d in v.sent ==> d.link < |v.links|)
    && (forall d: Dir :: d.link < |v.links| ==> DirHolds(v, d))
  }

  ghost predicate DirHolds(v: Net, d: Dir)
    requires d.link < |v.links|
  {
    InOrder(v.q, d, Watermark(v.links, d), Of(v.fed, d), Of(v.sent, d))
  }

  /** The queue only gained events, none due before `now`, numbered consecutively from `first` on. */
  ghost predicate Grew(q: seq<Event>, r: seq<Event>, now: int, first: nat)
  {
    q <= r && forall i :: |q| <= i < |r| ==> r[i].due >= now && r[i].order == first + i - |q|
  }

  function Pushed(v: Net, e: Event): Net { v.(q := v.q + [e.(order := v.next)], next := v.next + 1) }

  lemma PushKeeps(v: Net, e: Event)
    requires NetHolds(v) && !e.kind.Bytes?
    ensures NetHolds(Pushed(v, e))
  {
    hide InOrder;
    forall d: Dir | d.link < |v.links| ensures DirHolds(Pushed(v, e), d) {
      assert DirHolds(v, d);
      PushOther(v.q, e.(order := v.next), d, Watermark(v.links, d), Of(v.fed, d), Of(v.sent, d));
    }
  }

  /** One landed piece of a send: queued, counted as sent, the watermark right behind it. */
  function Landed(v: Net, e: Event, d: Dir): Net
    requires d.link < |v.links|
  {
    Pushed(v, e).(links := Raised(v.links, d, e.due + 1), sent := v.sent[d := Of(v.sent, d) + e.bytes])
  }

  lemma LandKeeps(v: Net, e: Event, d: Dir)
    requires NetHolds(v) && d.link < |v.links| && Feeds(e, d) && Watermark(v.links, d) <= e.due
    requires (e.backend, e.fd) == FarEnd(v.links, d)
    ensures NetHolds(Landed(v, e, d))
  {
    hide InOrder;
    var r := Landed(v, e, d);
    var pushed := e.(order := v.next);
    RaiseSets(v.links, d, e.due + 1, e.due + 1);
    forall i | 0 <= i < |r.q| ensures Addressed(r.links, r.q[i]) {
      assert i < |v.q| ==> Addressed(v.links, v.q[i]);
    }
    forall f: Dir | f.link < |r.links| ensures DirHolds(r, f) {
      assert DirHolds(v, f);
      if f == d {
        PushOwn(v.q, pushed, d, Watermark(v.links, d), Of(v.fed, d), Of(v.sent, d));
      } else {
        PushOther(v.q, pushed, f, Watermark(v.links, f), Of(v.fed, f), Of(v.sent, f));
      }
    }
  }

  /** A watermark may always be raised, and a link's partition flag set or lifted. */
  lemma LinkChangeKeeps(v: Net, links: seq<Link>)
    requires NetHolds(v) && |links| == |v.links|
    requires forall d: Dir :: d.link < |links| ==>
               Watermark(v.links, d) <= Watermark(links, d) && FarEnd(v.links, d) == FarEnd(links, d)
    ensures NetHolds(v.(links := links))
  {
    forall i | 0 <= i < |v.q| ensures Addressed(links, v.q[i]) {
      assert Addressed(v.links, v.q[i]);
    }
    forall d: Dir | d.link < |links| ensures DirHolds(v.(links := links), d) {
      assert DirHolds(v, d);
    }
  }

  lemma NewLinkKeeps(v: Net, l: Link)
    requires NetHolds(v)
    ensures NetHolds(v.(links := v.links + [l]))
  {
    var r := v.(links := v.links + [l]);
    forall i | 0 <= i < |v.q| ensures Addressed(r.links, v.q[i]) {
      assert Addressed(v.links, v.q[i]);
    }
    forall d: Dir | d.link < |r.links| ensures DirHolds(r, d) {
      if d.link < |v.links| {
        assert DirHolds(v, d);
      } else {
        NothingQueued(v.q, d);
      }
    }
  }

  lemma {:induction false} NothingQueued(q: seq<Event>, d: Dir)
    requires forall i :: 0 <= i < |q| ==> !Feeds(q[i], d)
    ensures Stream(q, d) == []
  {
    if q != [] {
      NothingQueued(q[1..], d);
    }
  }

  function Popped(v: Net, k: nat): Net
    requires k < |v.q|
  {
    var e := v.q[k];
    v.(q := v.q[..k] + v.q[k + 1..],
       fed := if e.kind.Bytes? && e.dir.Some? then v.fed[e.dir.value := Of(v.fed, e.dir.value) + e.bytes] else v.fed)
  }

  lemma PopNetKeeps(v: Net, k: nat)
    requires NetHolds(v) && k < |v.q|
    requires forall i :: 0 <= i < |v.q| && i != k ==> Before(v.q[k], v.q[i])
    ensures NetHolds(Popped(v, k))
  {
    hide InOrder, Numbered;
    var r := Popped(v, k);
    forall d: Dir | d.link < |r.links| ensures DirHolds(r, d) {
      assert DirHolds(v, d);
      PopKeeps(v.q, v.next, k, d, Watermark(v.links, d), Of(v.fed, d), Of(v.sent, d));
      assert Of(v.fed, d) + [] == Of(v.fed, d);
    }
    PopNumbered(v.q, v.next, k);
    assert forall i :: 0 <= i < |r.q| ==> r.q[i] == v.q[if i < k then i else i + 1];
  }

  lemma PopNumbered(q: seq<Event>, next: nat, k: nat)
    requires Numbered(q, next) && k < |q|
    ensures Numbered(q[..k] + q[k + 1..], next)
  {
  }

  lemma IsAddressed(v: Net, k: nat)
    requires NetHolds(v) && k < |v.q|
    ensures Addressed(v.links, v.q[k])
    ensures forall i :: 0 <= i < |v.q| && i != k ==> v.q[i].order != v.q[k].order
  {
  }

  lemma OrdersKnown(v: Net)
    requires NetHolds(v)
    ensures forall e :: e in v.q ==> e.order < v.next
  {
  }

  /** Over any history, a direction has been fed a prefix of what it was sent. */
  lemma FedIsPrefix(v: Net, d: Dir)
    requires NetHolds(v) && d.link < |v.links|
    ensures Of(v.fed, d) <= Of(v.sent, d)
  {
    assert DirHolds(v, d);
  }

  // ---- the fabric as the source keeps it

  function Flatten(iov: seq<seq<byte>>): seq<byte>
  {
    if iov == [] then [] else iov[0] + Flatten(iov[1..])
  }

  /** The draws of one delivery: lost, reset (with the two latencies), blackholing its link for a
      while, or landing after a delay, in fragments when `picks` holds one draw per fragment. */
  datatype Fate = Lost | Reset(first: nat, second: nat) | Blackhole(window: nat) | Lands(delay: nat, picks: seq<nat>)

  /** How long at least it takes until an event of a send is due; a lost one has none. */
  function Soonest(fate: Fate): nat
  {
    match fate
    case Lost => 1
    case Reset(first, second) => Min(first, second)
    case Blackhole(window) => window
    case Lands(delay, _) => delay
  }

  function JoinedBytes(pieces: seq<Event>): seq<byte>
  {
    if pieces == [] then [] else JoinedBytes(pieces[..|pieces| - 1]) + pieces[|pieces| - 1].bytes
  }

  /** The pieces of one send: consecutive events of one direction, 1 ns apart, whose bytes make it up. */
  ghost predicate Pieces(pieces: seq<Event>, d: Dir, backend: nat, fd: int, due: int, first: nat, flat: seq<byte>)
  {
    && JoinedBytes(pieces) == flat
    && forall i :: 0 <= i < |pieces| ==>
         pieces[i] == Event(due + i, first + i, Bytes, backend, fd, 0, Some(d), pieces[i].bytes) && pieces[i].bytes != []
  }

  lemma OneMorePiece(pieces: seq<Event>, d: Dir, backend: nat, fd: int, due: int, first: nat, flat: seq<byte>, bytes: seq<byte>)
    requires Pieces(pieces, d, backend, fd, due, first, flat) && bytes != []
    ensures Pieces(pieces + [Event(due + |pieces|, first + |pieces|, Bytes, backend, fd, 0, Some(d), bytes)], d, backend, fd, due,
                   first, flat + bytes)
  {
    var e := Event(due + |pieces|, first + |pieces|, Bytes, backend, fd, 0, Some(d), bytes);
    assert (pieces + [e])[..|pieces|] == pieces;
  }

  lemma OnePiece(e: Event)
    ensures JoinedBytes([e]) == e.bytes
  {
    assert [e][..0] == [];
  }

  /** A send that landed: its pieces are the only new events, the first one at `due`, all for one end; the
      direction is free again right behind them. */
  ghost predicate SentAlong(v: Net, w: Net, d: Dir, backend: nat, fd: int, due: int, flat: seq<byte>, draws: nat)
  {
    && d.link < |v.links| && v.q <= w.q
    && var pieces := w.q[|v.q|..];
    && 1 <= |pieces| <= Max(1, draws) && w.next == v.next + |pieces| && w.fed == v.fed
    && (if flat == [] then pieces == [Event(due, v.next, Bytes, backend, fd, 0, Some(d), [])]
        else Pieces(pieces, d, backend, fd, due, v.next, flat))
    && w.links == Raised(v.links, d, due + |pieces|) && w.sent == v.sent[d := Of(v.sent, d) + flat]
  }

  /** What a send over a connected link does to the fabric. */
  ghost predicate Delivered(v: Net, w: Net, now: int, d: Dir, src: nat, fd: int, dst: nat, dstFd: int, flat: seq<byte>,
                            fate: Fate)
  {
    d.link < |v.links| &&
    match fate
    case Lost => w == v
    case Reset(first, second) =>
      w == Pushed(Pushed(v, Plain(now + first, PeerReset, dst, dstFd, 104)), Plain(now + second, PeerReset, src, fd, 104))
    case Blackhole(window) =>
      w == Pushed(v.(links := v.links[d.link := v.links[d.link].(partitioned := true)]),
                  Plain(now + window, PartitionEnd, 0, -1, d.link))
    case Lands(delay, picks) =>
      var free := Watermark(v.links, d);
      SentAlong(v, w, d, dst, dstFd, if now + delay < free then free else now + delay, flat, |picks|)
  }

  function Plain(due: int, kind: Kind, backend: nat, fd: int, aux: int): Event
  {
    Event(due, 0, kind, backend, fd, aux, None, [])
  }

  lemma PoppedMembers(q: seq<Event>, k: nat)
    requires k < |q|
    ensures forall f :: f in q && f != q[k] ==> f in q[..k] + q[k + 1..]
  {
    var rest := q[..k] + q[k + 1..];
    forall f | f in q && f != q[k] ensures f in rest {
      var i :| 0 <= i < |q| && q[i] == f;
      assert rest[if i < k then i else i - 1] == f;
    }
  }

  /** Some pieces of a send have landed, up to a part of its bytes. */
  ghost predicate Fragmenting(v0: Net, v: Net, d: Dir, backend: nat, fd: int, due: int, part: seq<byte>, i: nat)
  {
    && NetHolds(v) && d.link < |v0.links| && FarEnd(v0.links, d) == (backend, fd)
    && v0.q <= v.q && |v.q| == |v0.q| + i && v.next == v0.next + i && v.fed == v0.fed
    && Pieces(v.q[|v0.q|..], d, backend, fd, due, v0.next, part)
    && v.links == (if i == 0 then v0.links else Raised(v0.links, d, due + i))
    && v.sent == (if i == 0 then v0.sent else v0.sent[d := Of(v0.sent, d) + part])
  }

  lemma StartFragments(v: Net, d: Dir, backend: nat, fd: int, due: int)
    requires NetHolds(v) && d.link < |v.links| && FarEnd(v.links, d) == (backend, fd)
    ensures Fragmenting(v, v, d, backend, fd, due, [], 0)
  {
    hide NetHolds;
    assert v.q[|v.q|..] == [];
  }

  lemma FragmentOne(v0: Net, v: Net, d: Dir, backend: nat, fd: int, due: int, part: seq<byte>, i: nat, bytes: seq<byte>)
    requires Fragmenting(v0, v, d, backend, fd, due, part, i) && Watermark(v0.links, d) <= due && bytes != []
    requires i == 0 ==> part == []
    ensures d.link < |v.links|
    ensures Fragmenting(v0, Landed(v, Event(due + i, 0, Bytes, backend, fd, 0, Some(d), bytes), d), d, backend, fd, due,
                        part + bytes, i + 1)
  {
    hide NetHolds, Raised, Pieces;
    var e := Event(due + i, 0, Bytes, backend, fd, 0, Some(d), bytes);
    RaiseSets(v0.links, d, due + i, due + i + 1);
    LandKeeps(v, e, d);
    var pieces, r := v.q[|v0.q|..], Landed(v, e, d);
    OneMorePiece(pieces, d, backend, fd, due, v0.next, part, bytes);
    assert r.q[|v0.q|..] == pieces + [e.(order := v.next)];
    assert Of(v.sent, d) == Of(v0.sent, d) + part;
    assert Of(v0.sent, d) + part + bytes == Of(v0.sent, d) + (part + bytes);
  }

  lemma FragmentsDone(v0: Net, v: Net, d: Dir, backend: nat, fd: int, due: int, flat: seq<byte>, i: nat)
    requires Fragmenting(v0, v, d, backend, fd, due, flat, i) && i > 0
    ensures NetHolds(v) && d.link < |v0.links| && v0.q <= v.q && |v.q| == |v0.q| + i && v.next == v0.next + i
    ensures Pieces(v.q[|v0.q|..], d, backend, fd, due, v0.next, flat) && Grew(v0.q, v.q, due, v0.next)
    ensures v.links == Raised(v0.links, d, due + i) && v.sent == v0.sent[d := Of(v0.sent, d) + flat]
  {
    hide NetHolds, Raised;
    PiecesGrow(v0.q, v.q[|v0.q|..], d, backend, fd, due, v0.next, flat);
    assert v0.q + v.q[|v0.q|..] == v.q;
  }

  lemma PiecesGrow(q: seq<Event>, pieces: seq<Event>, d: Dir, backend: nat, fd: int, due: int, first: nat, flat: seq<byte>)
    requires Pieces(pieces, d, backend, fd, due, first, flat)
    ensures Grew(q, q + pieces, due, first)
  {
  }

  /** The whole fabric, with its table of descriptors, its listeners and its count of dropped sends. */
  datatype Fabric = Fabric(now: int, net: Net, fdLink: map<int, nat>, listeners: map<nat, (nat, int)>, dropped: nat)
  {
    /** Whether a send on this descriptor reaches its link at all. */
    predicate Connected(fd: int) { fd in fdLink && fdLink[fd] < |net.links| && !net.links[fdLink[fd]].partitioned }

    predicate Wired() { forall fd :: fd in fdLink ==> fdLink[fd] < |net.links| }
  }

  /** What may be asked of the fabric from outside. */
  datatype NetOp =
    | Serve(port: nat, backend: nat, fd: int)
    | Dial(src: nat, fd: int, port: nat, peerFd: int, latency: nat)
    | Send(src: nat, fd: int, iov: seq<seq<byte>>, fate: Fate)
    | Close(src: nat, fd: int, latency: nat)
    | Task(shard: nat, delay: nat)
    | Cut(link: nat, window: nat)

  /** Refused without a listener; else a fresh link, both ends told after one hop. */
  function Dialled(f: Fabric, src: nat, fd: int, port: nat, peerFd: int, latency: nat): Fabric
  {
    if port !in f.listeners then f.(net := Pushed(f.net, Plain(f.now + latency, ConnectDone, src, fd, -111)))
    else
      var (server, listenFd) := f.listeners[port];
      var linked := f.net.(links := f.net.links + [Link(src, fd, server, peerFd, false, 0, 0)]);
      f.(net := Pushed(Pushed(linked, Plain(f.now + latency, ConnectDone, src, fd, 0)),
                       Plain(f.now + latency, Accept, server, listenFd, peerFd)),
         fdLink := f.fdLink[fd := |f.net.links|][peerFd := |f.net.links|])
  }

  /** The link is forgotten and, unless partitioned, the far end told; a listener stops serving. */
  function Closed(f: Fabric, src: nat, fd: int, latency: nat): Fabric
    requires f.Wired()
  {
    var g := f.(listeners := map p | p in f.listeners && f.listeners[p] != (src, fd) :: f.listeners[p]);
    if fd !in f.fdLink then g
    else
      var l := f.net.links[f.fdLink[fd]];
      var (dst, dstFd) := if l.a == src && l.aFd == fd then (l.b, l.bFd) else (l.a, l.aFd);
      g.(fdLink := f.fdLink - {fd, dstFd},
         net := if l.partitioned then f.net else Pushed(f.net, Plain(f.now + latency, PeerFin, dst, dstFd, 0)))
  }

  /** The link drops everything until the window is over. */
  function WasCut(f: Fabric, link: nat, window: nat): Fabric
  {
    if link >= |f.net.links| then f
    else
      f.(net := Pushed(f.net.(links := f.net.links[link := f.net.links[link].(partitioned := true)]),
                       Plain(f.now + window, PartitionEnd, 0, -1, link)))
  }

  /** A send: over a connected link it goes to the other end; otherwise nothing happens, and a partitioned
      link, a loss or a blackhole is counted. */
  ghost predicate WasSent(f: Fabric, src: nat, fd: int, iov: seq<seq<byte>>, fate: Fate, g: Fabric)
  {
    && g.now == f.now && g.listeners == f.listeners
    && g.dropped == f.dropped + (if fd in f.fdLink && (!f.Connected(fd) || fate.Lost? || fate.Blackhole?) then 1 else 0)
    && if !f.Connected(fd) then g.net == f.net && g.fdLink == f.fdLink
       else
         var link := f.fdLink[fd];
         var l := f.net.links[link];
         var fromA := l.a == src && l.aFd == fd;
         var (dst, dstFd) := if fromA then (l.b, l.bFd) else (l.a, l.aFd);
         && Delivered(f.net, g.net, f.now, Dir(link, fromA), src, fd, dst, dstFd, Flatten(iov), fate)
         && g.fdLink == if fate.Reset? then f.fdLink - {fd, dstFd} else f.fdLink
  }

  /** The events that a step added are bytes for one end. */
  ghost predicate ComesOutAt(f: Fabric, g: Fabric, backend: nat, fd: int)
  {
    f.net.q < g.net.q && forall i :: |f.net.q| <= i < |g.net.q| ==>
      g.net.q[i].kind.Bytes? && g.net.q[i].backend == backend && g.net.q[i].fd == fd
  }

  /** After a dial that found a listener, what either end sends and does not lose comes out at the other. */
  lemma EndsTalk(f: Fabric, src: nat, fd: int, port: nat, peerFd: int, latency: nat, iov: seq<seq<byte>>, delay: nat,
                 picks: seq<nat>, g: Fabric)
    requires port in f.listeners && fd != peerFd
    ensures var h, server := Dialled(f, src, fd, port, peerFd, latency), f.listeners[port].0;
            && (WasSent(h, src, fd, iov, Lands(delay, picks), g) ==> ComesOutAt(h, g, server, peerFd))
            && (WasSent(h, server, peerFd, iov, Lands(delay, picks), g) ==> ComesOutAt(h, g, src, fd))
  {
    var h := Dialled(f, src, fd, port, peerFd, latency);
    assert forall i :: |h.net.q| <= i < |g.net.q| ==> g.net.q[i] == g.net.q[|h.net.q|..][i - |h.net.q|];
  }

  ghost predicate Acted(f: Fabric, op: NetOp, g: Fabric)
  {
    f.Wired() &&
    match op
    case Serve(port, backend, fd) => g == f.(listeners := f.listeners[port := (backend, fd)])
    case Dial(src, fd, port, peerFd, latency) => g == Dialled(f, src, fd, port, peerFd, latency)
    case Send(src, fd, iov, fate) => WasSent(f, src, fd, iov, fate, g)
    case Close(src, fd, latency) => g == Closed(f, src, fd, latency)
    case Task(shard, delay) => g == f.(net := Pushed(f.net, Plain(f.now + delay, Posted, shard, -1, 0)))
    case Cut(link, window) => g == WasCut(f, link, window)
  }

  class SimNet {
    var now: int
    var q: seq<Event>
    var next: nat
    var links: seq<Link>
    var fdLink: map<int, nat>
    var listeners: map<nat, (nat, int)>
    var dropped: nat
    ghost var fed: map<Dir, seq<byte>>
    ghost var sent: map<Dir, seq<byte>>

    ghost function View(): Net
      reads this
    {
      Net(q, next, links, fed, sent)
    }

    ghost function Full(): Fabric
      reads this
    {
      Fabric(now, View(), fdLink, listeners, dropped)
    }

    ghost predicate Valid()
      reads this
    {
      NetHolds(View()) && Full().Wired()
    }

    constructor (now: int)
      ensures Valid() && Full() == Fabric(now, Net([], 0, [], map[], map[]), map[], map[], 0)
    {
      this.now, q, next, links, fdLink, listeners, dropped := now, [], 0, [], map[], map[], 0;
      fed, sent := map[], map[];
    }

    method Push(e: Event)
      modifies this`q, this`next
      ensures View() == Pushed(old(View()), e)
    {
      q := q + [e.(order := next)];
      next := next + 1;
    }

    method PushPlain(delay: nat, kind: Kind, backend: nat, fd: int, aux: int)
      requires Valid() && !kind.Bytes?
      modifies this`q, this`next
      ensures Valid() && View() == Pushed(old(View()), Plain(now + delay, kind, backend, fd, aux))
      ensures Grew(old(q), q, now + delay, old(next)) && next == old(next) + |q| - |old(q)|
    {
      hide NetHolds;
      PushKeeps(View(), Plain(now + delay, kind, backend, fd, aux));
      Push(Plain(now + delay, kind, backend, fd, aux));
    }

    /** The direction a send on `fd` by `src` takes, and where it comes out. */
    function Route(src: nat, fd: int): (r: (Dir, nat, int))
      requires fd in fdLink && fdLink[fd] < |links|
      reads this
      ensures r.0.link == fdLink[fd] && (r.1, r.2) == FarEnd(links, r.0)
      ensures r.0.forward <==> (src, fd) == (links[fdLink[fd]].a, links[fdLink[fd]].aFd)
    {
      var l := links[fdLink[fd]];
      if l.a == src && l.aFd == fd then (Dir(fdLink[fd], true), l.b, l.bFd) else (Dir(fdLink[fd], false), l.a, l.aFd)
    }

    /** Queues a send as up to |picks| pieces at successive instants: the pieces partition the bytes. */
    method LandFragments(d: Dir, backend: nat, fd: int, due: int, flat: seq<byte>, picks: seq<nat>)
      requires Valid() && d.link < |links| && FarEnd(links, d) == (backend, fd)
      requires Watermark(links, d) <= due && |flat| > 1 && |picks| >= 2 && now <= due
      modifies this`q, this`next, this`links, this`sent
      ensures Valid() && old(q) <= q
      ensures var pieces := q[|old(q)|..];
              && 1 <= |pieces| <= |picks| && Pieces(pieces, d, backend, fd, due, old(next), flat)
              && next == old(next) + |pieces| && links == Raised(old(links), d, due + |pieces|)
      ensures Grew(old(q), q, due, old(next))
      ensures sent == old(sent)[d := Of(old(sent), d) + flat]
    {
      hide Fragmenting, NetHolds, Raised, Pieces, Grew;
      ghost var v := View();
      StartFragments(v, d, backend, fd, due);
      var off, i := 0, 0;
      while i < |picks| && off < |flat|
        invariant 0 <= off <= |flat| && 0 <= i <= |picks| && (i == |picks| ==> off == |flat|) && (i == 0 ==> off == 0)
        invariant Fragmenting(old(View()), v, d, backend, fd, due, flat[..off], i)
        invariant links == old(links) && v.q == q && v.next == next && v.fed == fed && v.sent == sent
        decreases |picks| - i
      {
        var left := |flat| - off;
        var n := if i + 1 == |picks| then left else 1 + picks[i] % left;
        var e := Event(due + i, 0, Bytes, backend, fd, 0, Some(d), flat[off..off + n]);
        FragmentOne(old(View()), v, d, backend, fd, due, flat[..off], i, e.bytes);
        assert flat[..off] + e.bytes == flat[..off + n];
        v := Landed(v, e, d);
        sent := sent[d := Of(sent, d) + e.bytes];
        Push(e);
        off := off + n;
        i := i + 1;
      }
      assert flat[..off] == flat;
      FragmentsDone(old(View()), v, d, backend, fd, due, flat, i);
      links := Raised(links, d, due + i);
    }

    /** Queues a send in one piece. */
    method LandWhole(d: Dir, backend: nat, fd: int, due: int, flat: seq<byte>)
      requires Valid() && d.link < |links| && FarEnd(links, d) == (backend, fd) && Watermark(links, d) <= due && now <= due
      modifies this`q, this`next, this`links, this`sent
      ensures Valid() && View() == Landed(old(View()), Event(due, 0, Bytes, backend, fd, 0, Some(d), flat), d)
      ensures Grew(old(q), q, due, old(next))
    {
      hide NetHolds, Raised;
      var e := Event(due, 0, Bytes, backend, fd, 0, Some(d), flat);
      LandKeeps(View(), e, d);
      RaiseSets(links, d, due + 1, due + 1);
      sent := sent[d := Of(sent, d) + flat];
      Push(e);
      links := Raised(links, d, due + 1);
    }

    /** deliver_bytes: a send that lands is appended whole to its direction's stream and queued for the other
        end of the link, behind what that direction carries already; one that is unlinked, lost, reset or
        blackholed adds nothing to any stream. */
    method DeliverBytes(src: nat, fd: int, iov: seq<seq<byte>>, fate: Fate)
      requires Valid()
      modifies this`q, this`next, this`links, this`fdLink, this`dropped, this`sent
      ensures Valid() && Grew(old(q), q, now + Soonest(fate), old(next)) && next == old(next) + |q| - |old(q)|
      ensures WasSent(old(Full()), src, fd, iov, fate, Full())
    {
      hide NetHolds, Raised, SentAlong, Flatten, Watermark, Pushed;
      if fd !in fdLink {
        return;
      }
      var link := fdLink[fd];
      if links[link].partitioned || fate.Lost? {
        dropped := dropped + 1;
        return;
      }
      var (d, backend, dstFd) := Route(src, fd);
      match fate
      case Reset(first, second) =>
        ResetBoth(first, second, src, fd, backend, dstFd);
      case Blackhole(window) =>
        SetPartition(link, true);
        PushPlain(window, PartitionEnd, 0, -1, link);
        dropped := dropped + 1;
      case Lands(delay, picks) =>
        var due := if now + delay < Watermark(links, d) then Watermark(links, d) else now + delay;
        Land(d, backend, dstFd, due, Flatten(iov), picks);
    }

    /** Both ends hear of a reset and are unlinked. */
    method ResetBoth(first: nat, second: nat, src: nat, fd: int, dst: nat, dstFd: int)
      requires Valid()
      modifies this`q, this`next, this`fdLink
      ensures Valid() && fdLink == old(fdLink) - {fd, dstFd}
      ensures View() == Pushed(Pushed(old(View()), Plain(now + first, PeerReset, dst, dstFd, 104)),
                               Plain(now + second, PeerReset, src, fd, 104))
      ensures Grew(old(q), q, now + Min(first, second), old(next)) && next == old(next) + |q| - |old(q)|
    {
      hide NetHolds;
      PushPlain(first, PeerReset, dst, dstFd, 104);
      PushPlain(second, PeerReset, src, fd, 104);
      fdLink := fdLink - {fd, dstFd};
    }

    /** Queues a send, in fragments when there are draws for them. */
    method Land(d: Dir, backend: nat, fd: int, due: int, flat: seq<byte>, picks: seq<nat>)
      requires Valid() && d.link < |links| && FarEnd(links, d) == (backend, fd) && Watermark(links, d) <= due && now <= due
      modifies this`q, this`next, this`links, this`sent
      ensures Valid() && |links| == |old(links)| && Grew(old(q), q, due, old(next)) && next == old(next) + |q| - |old(q)|
      ensures SentAlong(old(View()), View(), d, backend, fd, due, flat, |picks|)
    {
      hide NetHolds, Raised;
      if |picks| >= 2 && |flat| > 1 {
        LandFragments(d, backend, fd, due, flat, picks);
      } else {
        LandWhole(d, backend, fd, due, flat);
        assert q[|old(q)|..] == [Event(due, old(next), Bytes, backend, fd, 0, Some(d), flat)];
        OnePiece(Event(due, old(next), Bytes, backend, fd, 0, Some(d), flat));
      }
    }

    method SetPartition(link: nat, on: bool)
      requires Valid() && link < |links|
      modifies this`links
      ensures Valid() && links == old(links)[link := old(links)[link].(partitioned := on)]
    {
      hide NetHolds;
      LinkChangeKeeps(View(), links[link := links[link].(partitioned := on)]);
      links := links[link := links[link].(partitioned := on)];
    }

    method Listen(port: nat, backend: nat, fd: int)
      requires Valid()
      modifies this`listeners
      ensures Valid() && listeners == old(listeners)[port := (backend, fd)]
    {
      listeners := listeners[port := (backend, fd)];
    }

    /** connect: refused without a listener, else a fresh link and both ends told after one hop. */
    method Connect(src: nat, fd: int, port: nat, peerFd: int, latency: nat)
      requires Valid()
      modifies this`q, this`next, this`links, this`fdLink
      ensures Valid() && Grew(old(q), q, now + latency, old(next)) && next == old(next) + |q| - |old(q)|
      ensures Full() == Dialled(old(Full()), src, fd, port, peerFd, latency)
    {
      hide NetHolds;
      if port !in listeners {
        PushPlain(latency, ConnectDone, src, fd, -111);
        return;
      }
      var (server, listenFd) := listeners[port];
      NewLinkKeeps(View(), Link(src, fd, server, peerFd, false, 0, 0));
      links := links + [Link(src, fd, server, peerFd, false, 0, 0)];
      fdLink := fdLink[fd := |links| - 1][peerFd := |links| - 1];
      PushPlain(latency, ConnectDone, src, fd, 0);
      PushPlain(latency, Accept, server, listenFd, peerFd);
    }

    /** detach: forgets the link and, unless partitioned, tells the far end. */
    method Detach(src: nat, fd: int, latency: nat)
      requires Valid()
      modifies this`q, this`next, this`fdLink, this`listeners
      ensures Valid() && Grew(old(q), q, now + latency, old(next)) && next == old(next) + |q| - |old(q)|
      ensures Full() == Closed(old(Full()), src, fd, latency)
    {
      hide NetHolds;
      listeners := map p | p in listeners && listeners[p] != (src, fd) :: listeners[p];
      if fd !in fdLink {
        return;
      }
      var (d, backend, dstFd) := Route(src, fd);
      fdLink := fdLink - {fd, dstFd};
      if !links[d.link].partitioned {
        PushPlain(latency, PeerFin, backend, dstFd, 0);
      }
    }

    method PostTask(shard: nat, delay: nat)
      requires Valid()
      modifies this`q, this`next
      ensures Valid() && Grew(old(q), q, now + delay, old(next)) && next == old(next) + |q| - |old(q)|
      ensures View() == Pushed(old(View()), Plain(now + delay, Posted, shard, -1, 0))
    {
      hide NetHolds;
      PushPlain(delay, Posted, shard, -1, 0);
    }

    method Partition(link: nat, window: nat)
      requires Valid()
      modifies this`q, this`next, this`links
      ensures Valid() && Grew(old(q), q, now + window, old(next)) && next == old(next) + |q| - |old(q)|
      ensures Full() == WasCut(old(Full()), link, window)
    {
      hide NetHolds;
      if link >= |links| {
        return;
      }
      SetPartition(link, true);
      PushPlain(window, PartitionEnd, 0, -1, link);
    }

    /** The position of the earliest queued event. */
    method FindEarliest() returns (k: nat)
      requires Valid() && q != []
      ensures k < |q| && forall i :: 0 <= i < |q| && i != k ==> Before(q[k], q[i])
    {
      k := 0;
      for j := 1 to |q|
        invariant k < j
        invariant forall i :: 0 <= i < j && i != k ==> Before(q[k], q[i])
      {
        if Before(q[j], q[k]) {
          k := j;
        }
      }
    }

    /** Pops the earliest event and applies it: bytes are fed, a partition is lifted. */
    method Step() returns (e: Event)
      requires Valid() && q != []
      modifies this`q, this`links, this`fed
      ensures Valid() && |links| == |old(links)|
      ensures e in old(q) && |q| == |old(q)| - 1
      ensures forall f :: f in q ==> f in old(q) && Before(e, f) && f.order != e.order
      ensures forall f :: f in old(q) && f != e ==> f in q && Before(e, f)
      ensures e.kind.Bytes? ==> e.dir.Some? && e.dir.value.link < |links| && (e.backend, e.fd) == FarEnd(links, e.dir.value)
      ensures links == if e.kind.PartitionEnd? && 0 <= e.aux < |old(links)|
                       then old(links)[e.aux := old(links)[e.aux].(partitioned := false)] else old(links)
      ensures fed == if e.kind.Bytes? && e.dir.Some? then old(fed)[e.dir.value := Of(old(fed), e.dir.value) + e.bytes] else old(fed)
    {
      hide NetHolds, FarEnd;
      var k := FindEarliest();
      IsAddressed(View(), k);
      PopNetKeeps(View(), k);
      e := q[k];
      PoppedMembers(q, k);
      q := q[..k] + q[k + 1..];
      if e.kind.Bytes? && e.dir.Some? {
        fed := fed[e.dir.value := Of(fed, e.dir.value) + e.bytes];
      }
      if e.kind.PartitionEnd? && 0 <= e.aux < |links| {
        SetPartition(e.aux, false);
      }
    }
  }
}
