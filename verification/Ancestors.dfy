/** The walk back from a new head to the highest tipset that was already processed. */
module Ancestors {
  import opened Chain

  /** LookBackLimit, the bound on the number of loop iterations. */
  const LOOK_BACK_LIMIT: nat := 900

  ghost predicate Descending(l: seq<Tipset>) {
    forall i, j :: 0 <= i < j < |l| ==> l[i].Height() > l[j].Height()
  }

  /** `head` and its ancestors, newest first, `k` of them. */
  ghost function Trail(head: Tipset, k: nat): (r: seq<Tipset>)
    requires k <= Depth(head)
    ensures |r| == k
    ensures forall i :: 0 <= i < k ==> r[i] == Up(head, i)
  {
    seq(k, i requires 0 <= i < k => Up(head, i))
  }

  /** The `i`-th local tipset is the `g`-th ancestor of `head`, no earlier local one is an ancestor. */
  ghost predicate Meeting(local: seq<Tipset>, head: Tipset, g: nat, i: nat) {
    && g <= Depth(head) && i < |local|
    && local[i] == Up(head, g)
    && local[i].Height() > 0
    && forall j :: 0 <= j < i ==> !OnBranch(local[j], head)
  }

  /** What holds between iterations. The local tipsets passed over are off the branch and no lower than
      the tipset reached; every tipset of the trail is higher than the local tipsets still to be looked
      at, and than the lowest one in any case; nothing is passed over once genesis is reached. */
  ghost predicate Walked(local: seq<Tipset>, head: Tipset, g: nat, i: nat) {
    && g <= Depth(head) && i <= |local| && g + i <= LOOK_BACK_LIMIT + 1
    && (forall j :: 0 <= j < i ==> !OnBranch(local[j], head))
    && (forall k, j :: 0 <= k < g && i <= j < |local| ==> Up(head, k).Height() > local[j].Height())
    && (i > 0 ==> Up(head, g).Height() <= local[i - 1].Height())
    && (g > 0 ==> |local| > 0 && Up(head, g - 1).Height() > local[|local| - 1].Height())
    && (i > 0 && Up(head, g) == Genesis ==> g > 0 && Up(head, g - 1).Height() <= local[i - 1].Height())
  }

  lemma {:induction false} UpDescends(t: Tipset, j: nat, k: nat)
    requires WellFormed(t) && j < k <= Depth(t)
    ensures Up(t, k).Height() < Up(t, j).Height()
  {
    if j == 0 {
      WellFormedUp(t, k);
    } else {
      UpDescends(t.parent, j - 1, k - 1);
    }
  }

  /** Passing over a local tipset that is not below the walk and differs from it is safe. */
  lemma PassLocal(local: seq<Tipset>, head: Tipset, g: nat, i: nat)
    requires WellFormed(head) && Descending(local) && Walked(local, head, g, i) && i < |local|
    requires g + i <= LOOK_BACK_LIMIT
    requires Up(head, g).Height() > 0
    requires local[i].Height() >= Up(head, g).Height() && local[i] != Up(head, g)
    ensures Walked(local, head, g, i + 1)
  {
    if OnBranch(local[i], head) {
      var k := BranchIndex(local[i], head);
      if k > g {
        UpDescends(head, g, k);
      }
      assert false;
    }
  }

  /** Taking the tipset reached onto the trail, when it is above the local tipset looked at. */
  lemma PassTrail(local: seq<Tipset>, head: Tipset, g: nat, i: nat)
    requires WellFormed(head) && Descending(local) && Walked(local, head, g, i) && i < |local|
    requires g + i <= LOOK_BACK_LIMIT
    requires local[i].Height() < Up(head, g).Height()
    ensures g < Depth(head) && Up(head, g).Child? && Up(head, g + 1) == Up(head, g).parent
    ensures WellFormed(Up(head, g + 1)) && Up(head, g + 1).Height() < Up(head, g).Height()
    ensures Trail(head, g + 1) == Trail(head, g) + [Up(head, g)]
    ensures Walked(local, head, g + 1, i)
  {
    UpDepth(head, g);
    UpStep(head, g);
    UpDescends(head, g, g + 1);
    WellFormedUp(head, g + 1);
  }

  /** Where the walk ends: on a local tipset, past the local list, at genesis or at the iteration limit. */
  ghost predicate WalkEnds(local: seq<Tipset>, head: Tipset, g: nat, i: nat) {
    && Walked(local, head, g, i)
    && (|| Meeting(local, head, g, i)
        || i == |local|
        || Up(head, g) == Genesis
        || g + i == LOOK_BACK_LIMIT + 1)
  }

  /** A walk that has gone further up has passed over at least as many local tipsets. */
  lemma WalkOrdered(local: seq<Tipset>, head: Tipset, g: nat, i: nat, g': nat, i': nat)
    requires Walked(local, head, g, i) && Walked(local, head, g', i') && Descending(local) && g < g'
    ensures i <= i'
  {
    if i' < i {
      assert false;
    }
  }

  /** Nothing lies beyond the end of a walk. */
  lemma EndIsLast(local: seq<Tipset>, head: Tipset, g: nat, i: nat, g': nat, i': nat)
    requires WellFormed(head) && Descending(local)
    requires WalkEnds(local, head, g, i) && Walked(local, head, g', i') && g <= g' && i <= i'
    ensures g == g' && i == i'
  {
    if Meeting(local, head, g, i) {
      UpOnBranch(head, g);
    } else if Up(head, g) == Genesis {
      UpDepth(head, g);
      assert g == g';
    } else if i == |local| && g < g' - 1 {
      UpDescends(head, g, g' - 1);
    }
  }

  /** The walk is determined: it can end in one place only. */
  lemma WalkUnique(local: seq<Tipset>, head: Tipset, g: nat, i: nat, g': nat, i': nat)
    requires WellFormed(head) && Descending(local)
    requires WalkEnds(local, head, g, i) && WalkEnds(local, head, g', i')
    ensures g == g' && i == i'
  {
    if g < g' {
      WalkOrdered(local, head, g, i, g', i');
      EndIsLast(local, head, g, i, g', i');
    } else if g' < g {
      WalkOrdered(local, head, g', i', g, i);
      EndIsLast(local, head, g', i', g, i);
    } else if i <= i' {
      EndIsLast(local, head, g, i, g', i');
    } else {
      EndIsLast(local, head, g', i', g, i);
    }
  }

  /** A local ancestor within the iteration limit, with none above it, is where the walk ends. */
  lemma MeetingEnds(local: seq<Tipset>, head: Tipset, g: nat, i: nat)
    requires WellFormed(head) && Descending(local) && Meeting(local, head, g, i) && g + i <= LOOK_BACK_LIMIT
    ensures WalkEnds(local, head, g, i)
  {
    forall k | 0 <= k < g
      ensures Up(head, k).Height() > Up(head, g).Height()
    {
      UpDescends(head, k, g);
    }
  }

  lemma StopsHere(local: seq<Tipset>, head: Tipset, g: nat, i: nat)
    requires WellFormed(head) && Walked(local, head, g, i)
    requires g + i > LOOK_BACK_LIMIT || i == |local| || Up(head, g).Height() == 0 || local[i] == Up(head, g)
    ensures WalkEnds(local, head, g, i)
  {
    WellFormedUp(head, g);
  }

  lemma OnlyEnd(local: seq<Tipset>, head: Tipset, g: nat, i: nat)
    requires WellFormed(head) && Descending(local) && WalkEnds(local, head, g, i)
    ensures forall g': nat, i': nat :: WalkEnds(local, head, g', i') ==> g == g' && i == i'
    ensures forall g': nat, i': nat :: Meeting(local, head, g', i') && g' + i' <= LOOK_BACK_LIMIT ==> g == g' && i == i'
  {
    forall g': nat, i': nat | WalkEnds(local, head, g', i')
      ensures g == g' && i == i'
    {
      WalkUnique(local, head, g, i, g', i');
    }
    forall g': nat, i': nat | Meeting(local, head, g', i') && g' + i' <= LOOK_BACK_LIMIT
      ensures g == g' && i == i'
    {
      MeetingEnds(local, head, g', i');
    }
  }

  /** The loop's variables: the trail collected, the tipset reached and the local index. */
  ghost predicate AtTipset(local: seq<Tipset>, head: Tipset, gap: seq<Tipset>, ts: Tipset, i: nat) {
    && Walked(local, head, |gap|, i)
    && ts == Up(head, |gap|) && WellFormed(ts) && gap == Trail(head, |gap|)
  }

  lemma SkipLocal(local: seq<Tipset>, head: Tipset, gap: seq<Tipset>, ts: Tipset, i: nat)
    requires WellFormed(head) && Descending(local) && AtTipset(local, head, gap, ts, i)
    requires i < |local| && |gap| + i <= LOOK_BACK_LIMIT && ts.Height() > 0
    requires local[i].Height() >= ts.Height() && local[i] != ts
    ensures AtTipset(local, head, gap, ts, i + 1)
  {
    PassLocal(local, head, |gap|, i);
  }

  lemma TakeTipset(local: seq<Tipset>, head: Tipset, gap: seq<Tipset>, ts: Tipset, i: nat)
    requires WellFormed(head) && Descending(local) && AtTipset(local, head, gap, ts, i)
    requires i < |local| && |gap| + i <= LOOK_BACK_LIMIT && local[i].Height() < ts.Height()
    ensures ts.Child? && ts.parent.Height() < ts.Height() && AtTipset(local, head, gap + [ts], ts.parent, i)
  {
    PassTrail(local, head, |gap|, i);
  }

  /** The walk as a whole: `gap` is the trail from `head` down to just above the tipset where the walk
      stopped, `revert` the local tipsets passed over, and the place where it stops is the only one its
      exits allow. In particular, when some local tipset above height zero is an ancestor within the
      iteration limit, the walk stops on the highest such tipset. */
  method LookAncestors(local: seq<Tipset>, head: Tipset) returns (gap: seq<Tipset>, revert: seq<Tipset>)
    requires WellFormed(head) && Descending(local)
    ensures |revert| <= |local| && revert == local[..|revert|]
    ensures WalkEnds(local, head, |gap|, |revert|) && gap == Trail(head, |gap|)
    ensures forall g: nat, i: nat :: WalkEnds(local, head, g, i) ==> |gap| == g && |revert| == i
    ensures forall g: nat, i: nat :: Meeting(local, head, g, i) && g + i <= 900 ==> |gap| == g && |revert| == i
    ensures |gap| + |revert| <= 901
  {
    var ts := head;
    var idx := 0;
    gap := [];
    var loopCount := 0;
    while true
      invariant AtTipset(local, head, gap, ts, idx)
      invariant loopCount == |gap| + idx
      decreases |local| - idx + ts.Height()
    {
      if loopCount > LOOK_BACK_LIMIT {
        break;
      }
      if idx >= |local| {
        break;
      }
      var localTs := local[idx];
      if ts.Height() == 0 {
        break;
      }
      if localTs.Height() > ts.Height() {
        SkipLocal(local, head, gap, ts, idx);
        idx := idx + 1;
      } else if localTs.Height() == ts.Height() {
        if localTs == ts {
          break;
        }
        SkipLocal(local, head, gap, ts, idx);
        idx := idx + 1;
      } else {
        TakeTipset(local, head, gap, ts, idx);
        gap := gap + [ts];
        ts := ts.parent;
      }
      loopCount := loopCount + 1;
    }
    revert := local[..idx];
    StopsHere(local, head, |gap|, idx);
    OnlyEnd(local, head, |gap|, idx);
  }

  /** Where two meetings exist they are the same one. */
  lemma MeetingUnique(local: seq<Tipset>, head: Tipset, g: nat, i: nat, g': nat, i': nat)
    requires WellFormed(head) && Meeting(local, head, g, i) && Meeting(local, head, g', i')
    ensures g == g' && i == i'
  {
    UpOnBranch(head, g);
    UpOnBranch(head, g');
    assert i == i';
    if g < g' {
      UpDescends(head, g, g');
    } else if g' < g {
      UpDescends(head, g', g);
    }
  }

  /** The revert list of a meeting is exactly the local tipsets above it, and the tipset met is the
      highest local one on the branch of `head`. */
  lemma MeetingIsHighest(local: seq<Tipset>, head: Tipset, g: nat, i: nat)
    requires WellFormed(head) && Descending(local) && Meeting(local, head, g, i)
    ensures OnBranch(local[i], head)
    ensures forall t :: t in local[..i] <==> t in local && t.Height() > local[i].Height()
    ensures forall t :: t in local && OnBranch(t, head) ==> t.Height() <= local[i].Height()
    ensures forall t :: t in Trail(head, g) <==> OnBranch(t, head) && t.Height() > local[i].Height()
  {
    UpOnBranch(head, g);
    forall t
      ensures t in Trail(head, g) <==> OnBranch(t, head) && t.Height() > local[i].Height()
    {
      if t in Trail(head, g) {
        var k :| 0 <= k < g && t == Up(head, k);
        UpOnBranch(head, k);
        UpDescends(head, k, g);
      }
      if OnBranch(t, head) && t.Height() > local[i].Height() {
        var k := BranchIndex(t, head);
        if g < k {
          UpDescends(head, g, k);
        }
        assert Trail(head, g)[k] == t;
      }
    }
  }

  /** A head fewer than LOOK_BACK_LIMIT epochs above a local top that is its ancestor always meets it. */
  lemma RecentHeadMeetsTop(local: seq<Tipset>, head: Tipset) returns (g: nat)
    requires WellFormed(head) && |local| > 0
    requires OnBranch(local[0], head) && local[0].Height() > 0
    requires head.Height() - local[0].Height() < LOOK_BACK_LIMIT
    ensures Meeting(local, head, g, 0) && g < LOOK_BACK_LIMIT
  {
    g := BranchIndex(local[0], head);
    WellFormedUp(head, g);
  }
}
