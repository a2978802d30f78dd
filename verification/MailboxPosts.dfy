/** What becomes of posted items before they are in the ring: the history of every post in every
    interleaving, told from the steps and from what was claimed. */
module MailboxPosts {
  import opened MpscMailbox

  /** One post: what was handed in, what of it was claimed, and whether the producer gave up at a full
      ring. */
  datatype PostRecord = PostRecord(items: seq<nat>, claimed: seq<nat>, gaveUp: bool)

  /** Whether the step claimed a position for this producer. */
  predicate Claims(step: Step, p: nat, before: seq<nat>, after: seq<nat>)
  {
    step.Cas? && step.p == p && |after| > |before|
  }

  function Tell(posts: seq<PostRecord>, p: nat, step: Step, before: seq<nat>, after: seq<nat>): seq<PostRecord>
  {
    if step.Post? && step.p == p then posts + [PostRecord(step.items, [], false)]
    else if posts == [] then posts
    else
      var n := |posts| - 1;
      if Claims(step, p, before, after) then posts[n := posts[n].(claimed := posts[n].claimed + [after[|after| - 1]])]
      else if step == GiveUp(p) then posts[n := posts[n].(gaveUp := true)]
      else posts
  }

  /** The posts of a producer over a run, after those told so far. */
  ghost function Posts(s: State, steps: seq<Step>, p: nat, posts: seq<PostRecord>): seq<PostRecord>
    requires IsRun(s, steps)
    decreases |steps|
  {
    if steps == [] then posts
    else
      var r := Apply(s, steps[0]);
      Posts(r, steps[1..], p, Tell(posts, p, steps[0], s.claimed, r.claimed))
  }

  /** What the producer still has to claim. */
  function Left(pr: Producer): seq<nat>
  {
    if (pr.pc.Claimed? || pr.pc.Written?) && pr.batch != [] then pr.batch[1..] else pr.batch
  }

  /** The producer is not in the middle of pushing. */
  predicate Pushed(pr: Producer) { pr.pc.Quiet? || pr.pc.Check? || pr.pc.Waking? }

  /** Claimed in order from the front; all of it unless the producer gave up. */
  predicate Whole(r: PostRecord) { r.claimed <= r.items && (!r.gaveUp ==> r.claimed == r.items) }

  /** Every earlier post is over, and what was claimed of the current one and what is left of it make it
      up; it is over as soon as the producer has pushed. */
  ghost predicate Tells(posts: seq<PostRecord>, pr: Producer)
  {
    && (Pushed(pr) ==> pr.batch == [])
    && (posts == [] ==> Pushed(pr))
    && (forall j :: 0 <= j < |posts| - 1 ==> Whole(posts[j]))
    && (posts != [] ==>
          var now := posts[|posts| - 1];
          && now.claimed <= now.items
          && if now.gaveUp then Pushed(pr) else now.claimed + Left(pr) == now.items)
  }

  /** The producer a step belongs to. */
  predicate StepOf(step: Step, p: nat)
  {
    match step
    case Post(q, _) => q == p
    case LoadPos(q) => q == p
    case LoadSeq(q) => q == p
    case Cas(q, _) => q == p
    case Write(q) => q == p
    case Publish(q) => q == p
    case Retry(q) => q == p
    case GiveUp(q) => q == p
    case LoadState(q) => q == p
    case Wake(q) => q == p
    case _ => false
  }

  lemma OtherStep(s: State, step: Step, p: nat)
    requires Enabled(s, step) && p in s.producers && !StepOf(step, p)
    ensures var r := Apply(s, step);
            p in r.producers && r.producers[p] == s.producers[p]
  {
    hide At;
  }

  lemma PostTells(posts: seq<PostRecord>, pr: Producer, pr': Producer, items: seq<nat>)
    requires Tells(posts, pr) && pr.pc.Quiet? && !Pushed(pr') && Left(pr') == items
    ensures Tells(posts + [PostRecord(items, [], false)], pr')
  {
    var r := posts + [PostRecord(items, [], false)];
    assert posts != [] && !posts[|posts| - 1].gaveUp ==> posts[|posts| - 1].claimed + [] == posts[|posts| - 1].items;
    forall j | 0 <= j < |r| - 1 ensures Whole(r[j]) {
      assert r[j] == posts[j];
    }
  }

  lemma ClaimTells(posts: seq<PostRecord>, pr: Producer, pr': Producer)
    requires Tells(posts, pr) && pr.pc.HaveSeq? && pr.batch != [] && pr'.pc.Claimed? && pr'.batch == pr.batch
    ensures posts != [] && !posts[|posts| - 1].gaveUp
    ensures var n := |posts| - 1;
            Tells(posts[n := posts[n].(claimed := posts[n].claimed + [pr.batch[0]])], pr')
  {
    var now := posts[|posts| - 1];
    assert now.claimed + [pr.batch[0]] + pr.batch[1..] == now.claimed + pr.batch;
    assert now.claimed + [pr.batch[0]] <= now.items;
  }

  lemma GiveUpTells(posts: seq<PostRecord>, pr: Producer, pr': Producer)
    requires Tells(posts, pr) && pr.pc.SawFull? && Pushed(pr') && pr'.batch == []
    ensures posts != []
    ensures var n := |posts| - 1;
            Tells(posts[n := posts[n].(gaveUp := true)], pr')
  {
  }

  /** A step inside a post that claims nothing. */
  lemma MoveTells(posts: seq<PostRecord>, pr: Producer, pr': Producer)
    requires Tells(posts, pr) && Left(pr') == Left(pr) && (Pushed(pr) ==> Pushed(pr'))
    requires Pushed(pr') ==> pr'.batch == []
    ensures Tells(posts, pr')
  {
  }

  lemma ClaimSteps(s: State, p: nat, spurious: bool)
    requires Enabled(s, Cas(p, spurious))
    ensures p in s.producers && p in Apply(s, Cas(p, spurious)).producers
    ensures var r, pr := Apply(s, Cas(p, spurious)), s.producers[p];
            if Claims(Cas(p, spurious), p, s.claimed, r.claimed)
            then r.claimed == s.claimed + [pr.batch[0]] && r.producers[p] == pr.(pc := Claimed(pr.pc.pos))
            else r.producers[p] == pr.(pc := HavePos(s.enq))
  {
  }

  lemma UntoldStep(posts: seq<PostRecord>, p: nat, step: Step, before: seq<nat>, after: seq<nat>)
    requires !StepOf(step, p) || !(step.Post? || step.Cas? || step.GiveUp?)
    ensures Tell(posts, p, step, before, after) == posts
  {
  }

  /** Any other step of a producer leaves what is left to claim as it is. */
  lemma OwnMove(s: State, step: Step, p: nat)
    requires Enabled(s, step) && StepOf(step, p) && !(step.Post? || step.Cas? || step.GiveUp?)
    requires Pushed(s.producers[p]) ==> s.producers[p].batch == []
    ensures p in s.producers && p in Apply(s, step).producers
    ensures var pr, pr' := s.producers[p], Apply(s, step).producers[p];
            && Left(pr') == Left(pr) && (Pushed(pr) ==> Pushed(pr')) && (Pushed(pr') ==> pr'.batch == [])
  {
    hide At;
  }

  lemma PostStep(s: State, p: nat, items: seq<nat>)
    requires Enabled(s, Post(p, items))
    ensures p in s.producers && s.producers[p].pc.Quiet?
    ensures var r := Apply(s, Post(p, items));
            p in r.producers && !Pushed(r.producers[p]) && Left(r.producers[p]) == items
  {
  }

  lemma GiveUpStep(s: State, p: nat)
    requires Enabled(s, GiveUp(p))
    ensures p in s.producers && s.producers[p].pc.SawFull?
    ensures var r := Apply(s, GiveUp(p));
            p in r.producers && Pushed(r.producers[p]) && r.producers[p].batch == []
  {
  }

  lemma StepTells(s: State, step: Step, p: nat, posts: seq<PostRecord>)
    requires Enabled(s, step) && p in s.producers && Tells(posts, s.producers[p])
    ensures var r := Apply(s, step);
            p in r.producers && Tells(Tell(posts, p, step, s.claimed, r.claimed), r.producers[p])
  {
    hide Apply, Enabled, Claims;
    if StepOf(step, p) {
      if step.Post? || step.Cas? || step.GiveUp? {
        ToldStep(s, step, p, posts);
      } else {
        OwnMove(s, step, p);
        UntoldStep(posts, p, step, s.claimed, Apply(s, step).claimed);
        MoveTells(posts, s.producers[p], Apply(s, step).producers[p]);
      }
    } else {
      OtherStep(s, step, p);
      UntoldStep(posts, p, step, s.claimed, Apply(s, step).claimed);
    }
  }

  lemma ToldStep(s: State, step: Step, p: nat, posts: seq<PostRecord>)
    requires Enabled(s, step) && StepOf(step, p) && (step.Post? || step.Cas? || step.GiveUp?)
    requires p in s.producers && Tells(posts, s.producers[p])
    ensures var r := Apply(s, step);
            p in r.producers && Tells(Tell(posts, p, step, s.claimed, r.claimed), r.producers[p])
  {
    hide Apply, Enabled, Tells;
    var r, pr := Apply(s, step), s.producers[p];
    match step
    case Post(_, items) =>
      PostStep(s, p, items);
      PostTells(posts, pr, r.producers[p], items);
    case Cas(_, spurious) =>
      CasTells(s, p, spurious, posts);
    case GiveUp(_) =>
      GiveUpStep(s, p);
      GiveUpTells(posts, pr, r.producers[p]);
  }

  lemma CasTells(s: State, p: nat, spurious: bool, posts: seq<PostRecord>)
    requires Enabled(s, Cas(p, spurious)) && p in s.producers && Tells(posts, s.producers[p])
    ensures var r := Apply(s, Cas(p, spurious));
            p in r.producers && Tells(Tell(posts, p, Cas(p, spurious), s.claimed, r.claimed), r.producers[p])
  {
    hide Apply, Tells, Claims;
    var r, pr := Apply(s, Cas(p, spurious)), s.producers[p];
    ClaimSteps(s, p, spurious);
    if Claims(Cas(p, spurious), p, s.claimed, r.claimed) {
      ClaimTells(posts, pr, r.producers[p]);
    } else {
      MoveTells(posts, pr, r.producers[p]);
    }
  }

  lemma {:induction false} RunTells(s: State, steps: seq<Step>, p: nat, posts: seq<PostRecord>)
    requires IsRun(s, steps) && p in s.producers && Tells(posts, s.producers[p])
    ensures p in After(s, steps).producers && Tells(Posts(s, steps, p, posts), After(s, steps).producers[p])
    decreases |steps|
  {
    hide Apply, Enabled, Tells, Tell;
    if steps != [] {
      var r := Apply(s, steps[0]);
      StepTells(s, steps[0], p, posts);
      RunTells(r, steps[1..], p, Tell(posts, p, steps[0], s.claimed, r.claimed));
    }
  }

  /** In every interleaving: of every post that is over exactly the handed-in items were claimed, in order,
      or, if the producer gave up, a first part of them; and of one still going on, what was claimed and
      what is left make it up. */
  lemma PostsArrive(cap: nat, pids: set<nat>, steps: seq<Step>, p: nat)
    requires cap > 0 && p in pids && IsRun(Init(cap, pids), steps)
    ensures var s, posts := After(Init(cap, pids), steps), Posts(Init(cap, pids), steps, p, []);
            && p in s.producers
            && (forall j :: 0 <= j < |posts| && (j < |posts| - 1 || Pushed(s.producers[p])) ==> Whole(posts[j]))
            && (!Pushed(s.producers[p]) ==>
                  posts != [] && posts[|posts| - 1].claimed + Left(s.producers[p]) == posts[|posts| - 1].items)
  {
    var s0 := Init(cap, pids);
    assert Tells([], s0.producers[p]);
    RunTells(s0, steps, p, []);
    var s, posts := After(s0, steps), Posts(s0, steps, p, []);
    assert Pushed(s.producers[p]) ==> forall c: seq<nat> :: c + Left(s.producers[p]) == c;
  }

  // ---- one order for all

  /** Who claimed each position. */
  ghost function Owners(s: State, steps: seq<Step>, owners: seq<nat>): seq<nat>
    requires IsRun(s, steps)
    decreases |steps|
  {
    if steps == [] then owners
    else
      var r := Apply(s, steps[0]);
      Owners(r, steps[1..], if steps[0].Cas? && |r.claimed| > |s.claimed| then owners + [steps[0].p] else owners)
  }

  /** The items of one producer among those claimed. */
  function Owned(claimed: seq<nat>, owners: seq<nat>, p: nat): seq<nat>
    requires |claimed| == |owners|
  {
    if claimed == [] then []
    else
      var n := |claimed| - 1;
      Owned(claimed[..n], owners[..n], p) + if owners[n] == p then [claimed[n]] else []
  }

  /** All items that a producer's posts claimed. */
  function Gathered(posts: seq<PostRecord>): seq<nat>
  {
    if posts == [] then [] else Gathered(posts[..|posts| - 1]) + posts[|posts| - 1].claimed
  }

  lemma GatherNothing(posts: seq<PostRecord>, r: PostRecord)
    requires r.claimed == []
    ensures Gathered(posts + [r]) == Gathered(posts)
  {
    assert (posts + [r])[..|posts|] == posts;
  }

  lemma GatherLast(posts: seq<PostRecord>, r: PostRecord, more: seq<nat>)
    requires posts != [] && r.claimed == posts[|posts| - 1].claimed + more
    ensures Gathered(posts[|posts| - 1 := r]) == Gathered(posts) + more
  {
    var n := |posts| - 1;
    assert posts[n := r][..n] == posts[..n];
    assert Gathered(posts[..n]) + (posts[n].claimed + more) == Gathered(posts[..n]) + posts[n].claimed + more;
  }

  lemma OwnedGrows(claimed: seq<nat>, owners: seq<nat>, item: nat, owner: nat, p: nat)
    requires |claimed| == |owners|
    ensures Owned(claimed + [item], owners + [owner], p) == Owned(claimed, owners, p) + if owner == p then [item] else []
  {
    assert (claimed + [item])[..|claimed|] == claimed && (owners + [owner])[..|owners|] == owners;
  }

  lemma ClaimedGrows(s: State, step: Step)
    requires Enabled(s, step)
    ensures var r := Apply(s, step);
            if step.Cas? && |r.claimed| > |s.claimed|
            then |r.claimed| == |s.claimed| + 1 && r.claimed == s.claimed + [r.claimed[|s.claimed|]]
            else r.claimed == s.claimed
  {
    hide At;
  }

  lemma OwnsStep(s: State, step: Step, p: nat, posts: seq<PostRecord>, owners: seq<nat>)
    requires Enabled(s, step) && p in s.producers && Tells(posts, s.producers[p])
    requires |owners| == |s.claimed| && Owned(s.claimed, owners, p) == Gathered(posts)
    ensures var r := Apply(s, step);
            var owners' := if step.Cas? && |r.claimed| > |s.claimed| then owners + [step.p] else owners;
            |owners'| == |r.claimed| && Owned(r.claimed, owners', p) == Gathered(Tell(posts, p, step, s.claimed, r.claimed))
  {
    hide Apply, Enabled, Tells, Owned, Gathered;
    var r := Apply(s, step);
    ClaimedGrows(s, step);
    if step.Cas? && |r.claimed| > |s.claimed| {
      OwnedGrows(s.claimed, owners, r.claimed[|s.claimed|], step.p, p);
      if step.p == p {
        ClaimSteps(s, p, step.spurious);
        CasMatches(s, step, p);
        ClaimTells(posts, s.producers[p], r.producers[p]);
        var now := posts[|posts| - 1];
        GatherLast(posts, now.(claimed := now.claimed + [r.claimed[|r.claimed| - 1]]), [r.claimed[|s.claimed|]]);
      }
    } else if step.Post? {
      GatherNothing(posts, PostRecord(step.items, [], false));
    } else if posts != [] {
      var now := posts[|posts| - 1];
      GatherLast(posts, now.(gaveUp := true), []);
    }
  }

  lemma CasMatches(s: State, step: Step, p: nat)
    requires Enabled(s, step) && step.Cas? && step.p == p
    ensures p in s.producers && s.producers[p].pc.HaveSeq? && s.producers[p].batch != []
  {
  }

  lemma {:induction false} RunOwns(s: State, steps: seq<Step>, p: nat, posts: seq<PostRecord>, owners: seq<nat>)
    requires IsRun(s, steps) && p in s.producers && Tells(posts, s.producers[p])
    requires |owners| == |s.claimed| && Owned(s.claimed, owners, p) == Gathered(posts)
    ensures var r, all := After(s, steps), Owners(s, steps, owners);
            |all| == |r.claimed| && Owned(r.claimed, all, p) == Gathered(Posts(s, steps, p, posts))
    decreases |steps|
  {
    hide Apply, Enabled, Tells, Tell, Owned, Gathered;
    if steps != [] {
      var r := Apply(s, steps[0]);
      StepTells(s, steps[0], p, posts);
      OwnsStep(s, steps[0], p, posts, owners);
      RunOwns(r, steps[1..], p, Tell(posts, p, steps[0], s.claimed, r.claimed),
              if steps[0].Cas? && |r.claimed| > |s.claimed| then owners + [steps[0].p] else owners);
    }
  }

  /** In every interleaving the claim order is a merge of the producers' own orders: every claimed item
      belongs to one producer, and those of a producer are what its posts claimed, post after post. */
  lemma ClaimsAreMerged(cap: nat, pids: set<nat>, steps: seq<Step>, p: nat)
    requires cap > 0 && p in pids && IsRun(Init(cap, pids), steps)
    ensures var s, owners := After(Init(cap, pids), steps), Owners(Init(cap, pids), steps, []);
            && |owners| == |s.claimed|
            && Owned(s.claimed, owners, p) == Gathered(Posts(Init(cap, pids), steps, p, []))
  {
    assert Tells([], Init(cap, pids).producers[p]);
    RunOwns(Init(cap, pids), steps, p, [], []);
  }
}
