/** One step of the chain follower as a relation, what a step stores in the cache, and when the follower
    stays in agreement with replaying the branch from scratch. */
module Follower {
  import opened Messages
  import opened Chain
  import opened Ancestors
  import opened TipsetCaches
  import opened MessageTable
  import opened Replay

  /** `tip` is the newest tipset whose messages have been applied; the program does not store it. */
  datatype State = State(rows: Table, cache: Entries, tip: Tipset)

  /** The tipsets `storeTipset` caches for an apply list. */
  function StoredTipsets(apply: seq<Tipset>): (r: seq<Tipset>)
    requires |apply| > 0 && apply[0].Child?
  {
    if |apply| == 1 then [apply[0].parent] else apply[1..]
  }

  function Stored(m: Entries, apply: seq<Tipset>): Entries
    requires |apply| > 0 && apply[0].Child?
  {
    var list := StoredTipsets(apply);
    Reduced(AddAll(m, list), list[0].Height())
  }

  ghost function Heights(l: seq<Tipset>): set<nat> {
    set t | t in l :: t.Height()
  }

  /** The apply list of a walk of length `g`: the trail without its last element. */
  ghost function ApplyOf(head: Tipset, g: nat): (r: seq<Tipset>)
    requires 1 <= g <= Depth(head)
    ensures |r| == g - 1
    ensures forall k :: 0 <= k < g - 1 ==> r[k] == Up(head, k) && r[k].Child? && r[k].parent == Up(head, k + 1)
  {
    forall k | 0 <= k < g - 1
      ensures Up(head, k).Child? && Up(head, k).parent == Up(head, k + 1)
    {
      UpStep(head, k);
    }
    Trail(head, g)[..g - 1]
  }

  /** A step whose walk has length `g` and passes over tipsets at `heights`. A walk of at most one tipset
      leaves nothing to apply, and then nothing is reverted either. */
  ghost predicate Advance(s: State, head: Tipset, g: nat, heights: set<nat>, s': State, active: set<Address>) {
    if g <= 1 then s' == s
    else
      && g <= Depth(head)
      && s'.tip == Up(head, 1)
      && Refreshed(s.rows, s'.rows, active, heights, CollectParents(ApplyOf(head, g), active))
      && s'.cache == Stored(s.cache, ApplyOf(head, g))
  }

  /** Cached heights above `base`. */
  ghost function HeightsAbove(m: Entries, base: Tipset): set<nat> {
    set h | h in m && h > base.Height()
  }

  /** `base` is the highest cached ancestor of `head`, `g` parents up and within the look-back limit. */
  ghost predicate Found(m: Entries, head: Tipset, base: Tipset, g: nat) {
    && base.Height() > 0 && base.Height() in m && m[base.Height()] == base
    && g <= Depth(head) && Up(head, g) == base
    && (forall h :: h in m && OnBranch(m[h], head) ==> h <= base.Height())
    && g + |HeightsAbove(m, base)| <= LOOK_BACK_LIMIT
  }

  ghost predicate HeadStep(s: State, head: Tipset, base: Tipset, g: nat, s': State, active: set<Address>) {
    Found(s.cache, head, base, g) && Advance(s, head, g, HeightsAbove(s.cache, base), s', active)
  }

  /** The step a head causes: some walk over the listed cache ends, and the step follows it. */
  ghost predicate WalkStep(s: State, head: Tipset, s': State, active: set<Address>) {
    exists l: seq<Tipset>, g: nat, i: nat ::
      Listing(l, s.cache) && WalkEnds(l, head, g, i) && Advance(s, head, g, Heights(l[..i]), s', active)
  }

  /** The step for every base the head may find (there is at most one). */
  ghost predicate StepToBase(s: State, head: Tipset, s': State, active: set<Address>) {
    forall base, g: nat :: Found(s.cache, head, base, g) ==> HeadStep(s, head, base, g, s', active)
  }

  /** A walk step is a step to the highest cached ancestor whenever there is one within the limit. */
  lemma WalkStepToBase(s: State, head: Tipset, s': State, active: set<Address>)
    requires Keyed(s.cache) && WellFormed(head) && WalkStep(s, head, s', active)
    ensures StepToBase(s, head, s', active)
  {
    var l: seq<Tipset>, g: nat, i: nat :|
      Listing(l, s.cache) && WalkEnds(l, head, g, i) && Advance(s, head, g, Heights(l[..i]), s', active);
    forall base, g': nat | Found(s.cache, head, base, g')
      ensures HeadStep(s, head, base, g', s', active)
    {
      FoundIsMet(l, s.cache, head, base, g', g, i);
    }
  }

  lemma ListedHeights(l: seq<Tipset>, m: Entries, i: nat)
    requires Keyed(m) && Listing(l, m) && i < |l|
    ensures Heights(l[..i]) == HeightsAbove(m, l[i])
    ensures |HeightsAbove(m, l[i])| == i
  {
    forall h
      ensures h in Heights(l[..i]) <==> h in HeightsAbove(m, l[i])
    {
      if h in Heights(l[..i]) {
        var t :| t in l[..i] && t.Height() == h;
        var k :| 0 <= k < i && l[k] == t;
        assert t in l;
      }
      if h in HeightsAbove(m, l[i]) {
        assert m[h] in m.Values;
        var k :| 0 <= k < |l| && l[k] == m[h];
        assert l[..i][k] == m[h];
      }
    }
    HeightsCount(l, i);
  }

  /** Listing the cache and walking it finds the base: the walk ends `g` parents up, having passed over
      exactly the cached tipsets above the base. */
  lemma FoundIsMet(l: seq<Tipset>, m: Entries, head: Tipset, base: Tipset, g: nat, g': nat, i': nat)
    requires Keyed(m) && Listing(l, m) && WellFormed(head)
    requires Found(m, head, base, g) && WalkEnds(l, head, g', i')
    ensures g' == g && Heights(l[..i']) == HeightsAbove(m, base)
  {
    assert base in m.Values;
    var i :| 0 <= i < |l| && l[i] == base;
    forall j | 0 <= j < i
      ensures !OnBranch(l[j], head)
    {
      assert l[j] in l;
    }
    ListedHeights(l, m, i);
    MeetingEnds(l, head, g, i);
    WalkUnique(l, head, g, i, g', i');
  }

  lemma RestMembers(l: seq<Tipset>, t: Tipset)
    requires Descending(l) && l != []
    ensures t in l[1..] <==> t in l && t != l[0]
  {
    assert l == [l[0]] + l[1..];
    if t in l[1..] {
      var k :| 0 <= k < |l| - 1 && l[1..][k] == t;
      assert l[k + 1] == t;
    }
  }

  lemma SameTop(l: seq<Tipset>, l': seq<Tipset>)
    requires Descending(l) && Descending(l') && l != [] && l' != [] && forall t :: t in l <==> t in l'
    ensures l[0] == l'[0]
  {
    assert l[0] in l' && l'[0] in l;
    var j :| 0 <= j < |l'| && l'[j] == l[0];
    var k :| 0 <= k < |l| && l[k] == l'[0];
    assert j == 0;
  }

  /** A cache is listed from the top in one way only. */
  lemma {:induction false} ListingUnique(l: seq<Tipset>, l': seq<Tipset>)
    requires Descending(l) && Descending(l') && forall t :: t in l <==> t in l'
    ensures l == l'
  {
    assert l' == [] || l'[0] in l';
    if l != [] {
      assert l[0] in l';
      SameTop(l, l');
      var rest, rest' := l[1..], l'[1..];
      forall t
        ensures t in rest <==> t in rest'
      {
        RestMembers(l, t);
        RestMembers(l', t);
      }
      ListingUnique(rest, rest');
      assert l == [l[0]] + rest && l' == [l'[0]] + rest';
    }
  }

  /** The step a head causes is determined by the state: same walk, same table, same cache. */
  lemma WalkStepDetermined(s: State, head: Tipset, s1: State, s2: State, active: set<Address>)
    requires WellFormed(head) && WalkStep(s, head, s1, active) && WalkStep(s, head, s2, active)
    ensures s1 == s2
  {
    var l1: seq<Tipset>, g1: nat, i1: nat :|
      Listing(l1, s.cache) && WalkEnds(l1, head, g1, i1) && Advance(s, head, g1, Heights(l1[..i1]), s1, active);
    var l2: seq<Tipset>, g2: nat, i2: nat :|
      Listing(l2, s.cache) && WalkEnds(l2, head, g2, i2) && Advance(s, head, g2, Heights(l2[..i2]), s2, active);
    ListingUnique(l1, l2);
    WalkUnique(l1, head, g1, i1, g2, i2);
    AdvanceDetermined(s, head, g1, Heights(l1[..i1]), s1, s2, active);
  }

  lemma AdvanceDetermined(s: State, head: Tipset, g: nat, heights: set<nat>, s1: State, s2: State, active: set<Address>)
    requires Advance(s, head, g, heights, s1, active) && Advance(s, head, g, heights, s2, active)
    ensures s1 == s2
  {
    if g >= 2 {
      assert s1.rows == s2.rows;
    }
  }

  lemma HeightsSnoc(l: seq<Tipset>, t: Tipset)
    ensures Heights(l + [t]) == Heights(l) + {t.Height()}
  {
    forall h
      ensures h in Heights(l + [t]) <==> h in Heights(l) || h == t.Height()
    {
      if h == t.Height() {
        assert t in l + [t];
      } else if h in Heights(l) {
        var u :| u in l && u.Height() == h;
        assert u in l + [t];
      }
    }
  }

  lemma {:induction false} HeightsCount(l: seq<Tipset>, i: nat)
    requires Descending(l) && i <= |l|
    ensures |Heights(l[..i])| == i
  {
    if i == 0 {
      assert l[..0] == [];
    } else {
      var front, last := l[..i - 1], l[i - 1];
      HeightsCount(l, i - 1);
      assert l[..i] == front + [last];
      HeightsSnoc(front, last);
      assert last.Height() !in Heights(front);
    }
  }

  // ---- What a step processes and what it caches ----------------------------------------------

  /** The tipsets whose messages an apply list applies. */
  ghost predicate ProcessedBy(ts: Tipset, apply: seq<Tipset>) {
    exists c :: c in apply && c.Child? && c.parent == ts
  }

  /** The stored tipsets by depth below the head. */
  lemma StoredAt(head: Tipset, g: nat)
    requires 2 <= g <= Depth(head)
    ensures var list := StoredTipsets(ApplyOf(head, g));
            && |list| == (if g == 2 then 1 else g - 2)
            && forall k :: 0 <= k < |list| ==> list[k] == Up(head, k + 1)
  {
  }

  /** The tipset is `k` parents up from the head, for some `k` from 1 to `n`. */
  ghost predicate UpWithin(head: Tipset, ts: Tipset, n: nat) {
    exists k: nat :: 1 <= k <= n && IsUp(head, ts, k)
  }

  ghost predicate IsUp(head: Tipset, ts: Tipset, k: nat) {
    k <= Depth(head) && ts == Up(head, k)
  }

  lemma StoredMembers(head: Tipset, g: nat, ts: Tipset)
    requires 2 <= g <= Depth(head)
    ensures ts in StoredTipsets(ApplyOf(head, g)) <==> UpWithin(head, ts, if g == 2 then 1 else g - 2)
  {
    var stored := StoredTipsets(ApplyOf(head, g));
    StoredAt(head, g);
    if ts in stored {
      var j :| 0 <= j < |stored| && stored[j] == ts;
      assert IsUp(head, ts, j + 1);
    }
    if UpWithin(head, ts, |stored|) {
      var k: nat :| 1 <= k <= |stored| && IsUp(head, ts, k);
      assert stored[k - 1] == ts;
    }
  }

  /** The processed tipsets by depth below the head. */
  lemma ProcessedMembers(head: Tipset, g: nat, ts: Tipset)
    requires 2 <= g <= Depth(head)
    ensures ProcessedBy(ts, ApplyOf(head, g)) <==> UpWithin(head, ts, g - 1)
  {
    var apply := ApplyOf(head, g);
    if ProcessedBy(ts, apply) {
      var c :| c in apply && c.Child? && c.parent == ts;
      var j :| 0 <= j < g - 1 && apply[j] == c;
      assert IsUp(head, ts, j + 1);
    }
    if UpWithin(head, ts, g - 1) {
      var k: nat :| 1 <= k <= g - 1 && IsUp(head, ts, k);
      assert apply[k - 1] in apply && apply[k - 1].parent == ts;
    }
  }

  /** Cache versus processed: every cached tipset was processed in that step, and all that is processed
      but not cached is the parent of the last element, when the list has at least two. */
  lemma CachedVersusProcessed(head: Tipset, g: nat, ts: Tipset)
    requires 2 <= g <= Depth(head)
    ensures var apply := ApplyOf(head, g);
            && (ts in StoredTipsets(apply) ==> ProcessedBy(ts, apply))
            && (ProcessedBy(ts, apply) && ts !in StoredTipsets(apply) <==> g > 2 && ts == Up(head, g - 1))
  {
    StoredMembers(head, g, ts);
    ProcessedMembers(head, g, ts);
    LastDiffers(head, g, ts);
  }

  /** The lowest processed tipset is not among the ones above it. */
  lemma LastDiffers(head: Tipset, g: nat, ts: Tipset)
    requires 2 <= g <= Depth(head)
    ensures UpWithin(head, ts, g - 1) <==> UpWithin(head, ts, g - 2) || ts == Up(head, g - 1)
    ensures ts == Up(head, g - 1) ==> !UpWithin(head, ts, g - 2)
  {
    UpDepth(head, g - 1);
    if ts == Up(head, g - 1) {
      assert IsUp(head, ts, g - 1);
      forall k: nat | 1 <= k <= g - 2
        ensures !IsUp(head, ts, k)
      {
        UpDepth(head, k);
      }
    }
  }

  lemma TrailBelow(head: Tipset, base: Tipset, g: nat, k: nat)
    requires WellFormed(head) && 2 <= g <= Depth(head) && Up(head, g) == base && 1 <= k <= g
    ensures OnBranch(Up(head, k), Up(head, 1))
    ensures k < g ==> Up(head, k).Height() > base.Height()
  {
    UpDepth(head, 1);
    UpOnBranch(Up(head, 1), k - 1);
    if k < g {
      UpDescends(head, k, g);
    }
  }

  lemma TrailReached(head: Tipset, base: Tipset, g: nat, ts: Tipset)
    requires WellFormed(head) && 2 <= g <= Depth(head) && Up(head, g) == base
    requires OnBranch(ts, Up(head, 1)) && ts.Height() > base.Height()
    ensures UpWithin(head, ts, g - 1)
  {
    var k := BranchIndex(ts, Up(head, 1));
    UpDepth(head, 1);
    assert ts == Up(head, k + 1);
    if k + 1 > g {
      UpDescends(head, g, k + 1);
    }
    assert IsUp(head, ts, k + 1);
  }

  lemma TrailCovers(head: Tipset, base: Tipset, g: nat)
    requires WellFormed(head) && 2 <= g <= Depth(head) && Up(head, g) == base
    ensures Covers(ApplyOf(head, g), Up(head, 1), base)
  {
    var next := Up(head, 1);
    var apply := ApplyOf(head, g);
    forall k | 0 <= k < g - 1
      ensures OnBranch(apply[k].parent, next) && apply[k].parent.Height() > base.Height()
    {
      TrailBelow(head, base, g, k + 1);
    }
    forall ts | OnBranch(ts, next) && ts.Height() > base.Height()
      ensures exists c :: c in apply && c.parent == ts
    {
      TrailReached(head, base, g, ts);
      ProcessedMembers(head, g, ts);
    }
  }

  lemma TrailWithin(head: Tipset, base: Tipset, g: nat, ts: Tipset, n: nat)
    requires WellFormed(head) && 2 <= g <= Depth(head) && Up(head, g) == base
    requires UpWithin(head, ts, n) && n < g
    ensures OnBranch(ts, Up(head, 1)) && ts.Height() > base.Height()
  {
    var k: nat :| 1 <= k <= n && IsUp(head, ts, k);
    TrailBelow(head, base, g, k);
  }

  lemma TrailStored(head: Tipset, base: Tipset, g: nat, ts: Tipset)
    requires WellFormed(head) && 2 <= g <= Depth(head) && Up(head, g) == base
    requires ts in StoredTipsets(ApplyOf(head, g))
    ensures OnBranch(ts, Up(head, 1)) && ts.Height() > base.Height()
  {
    StoredMembers(head, g, ts);
    TrailWithin(head, base, g, ts, if g == 2 then 1 else g - 2);
  }

  lemma StoredDistinct(head: Tipset, g: nat)
    requires WellFormed(head) && 2 <= g <= Depth(head)
    ensures DistinctHeights(StoredTipsets(ApplyOf(head, g)))
  {
    var stored := StoredTipsets(ApplyOf(head, g));
    StoredAt(head, g);
    forall i, j | 0 <= i < j < |stored|
      ensures stored[i].Height() != stored[j].Height()
    {
      UpDescends(head, i + 1, j + 1);
    }
  }

  lemma TrailBranch(head: Tipset, base: Tipset, g: nat)
    requires WellFormed(head) && 2 <= g <= Depth(head) && Up(head, g) == base
    ensures WellFormed(Up(head, 1)) && OnBranch(base, Up(head, 1))
    ensures Covers(ApplyOf(head, g), Up(head, 1), base)
    ensures var list := StoredTipsets(ApplyOf(head, g));
            && list[0] == Up(head, 1)
            && DistinctHeights(list)
            && forall ts :: ts in list ==> OnBranch(ts, Up(head, 1)) && ts.Height() > base.Height()
  {
    WellFormedUp(head, 1);
    TrailBelow(head, base, g, g);
    TrailCovers(head, base, g);
    StoredDistinct(head, g);
    StoredAt(head, g);
    forall ts | ts in StoredTipsets(ApplyOf(head, g))
      ensures OnBranch(ts, Up(head, 1)) && ts.Height() > base.Height()
    {
      TrailStored(head, base, g, ts);
    }
  }

  // ---- The follower's invariant and its exact step condition ---------------------------------

  /** The table agrees with replaying the branch of `tip`, every cached tipset lies on that branch, and
      `tip` itself is cached. */
  ghost predicate Good(s: State, active: set<Address>) {
    && TableOk(s.rows) && Keyed(s.cache)
    && WellFormed(s.tip) && NoRepeat(s.tip)
    && Agrees(s.rows, s.tip, active)
    && (forall h :: h in s.cache ==> OnBranch(s.cache[h], s.tip))
    && s.tip.Height() in s.cache
  }

  /** The row's nonce was spent on the abandoned part of the old branch. */
  ghost predicate Abandoned(r: Row, tip: Tipset, next: Tipset) {
    var was := Find(tip, r.msg.from, r.msg.nonce);
    was.Some? && !OnBranch(was.value.tipset, next)
  }

  /** Every abandoned tipset that matters to a tracked row is cached, and carried that row's own message. */
  ghost predicate AbandonedCached(s: State, next: Tipset, active: set<Address>) {
    forall i :: i in s.rows && Tracked(s.rows[i], active) && Abandoned(s.rows[i], s.tip, next) ==>
      var was := Find(s.tip, s.rows[i].msg.from, s.rows[i].msg.nonce).value;
      was.tipset.Height() in s.cache && Carries(was.included.signed, s.rows[i])
  }

  /** The height's entry is replaced by a newly cached tipset, or old enough to be dropped. */
  ghost predicate Replaced(m: Entries, apply: seq<Tipset>, h: nat)
    requires |apply| > 0 && apply[0].Child?
  {
    var list := StoredTipsets(apply);
    || h in Heights(list)
    || (|AddAll(m, list)| >= MAX_STORE_TIPSET_COUNT && h < list[0].Height() - MAX_STORE_TIPSET_COUNT)
  }

  /** Every entry that is off the new branch is replaced or dropped. */
  ghost predicate StaleReplaced(m: Entries, apply: seq<Tipset>, next: Tipset)
    requires |apply| > 0 && apply[0].Child?
  {
    forall h :: h in m && !OnBranch(m[h], next) ==> Replaced(m, apply, h)
  }

  /** Every cached height above the base is replaced or dropped. */
  ghost predicate Reoccupied(m: Entries, apply: seq<Tipset>, base: Tipset)
    requires |apply| > 0 && apply[0].Child?
  {
    forall h :: h in m && h > base.Height() ==> Replaced(m, apply, h)
  }

  /** The entries after storing: new tipsets at their heights, old entries elsewhere, minus those dropped. */
  lemma StoredEntries(m: Entries, apply: seq<Tipset>, h: nat)
    requires |apply| > 0 && apply[0].Child? && DistinctHeights(StoredTipsets(apply)) && Keyed(m)
    ensures Keyed(Stored(m, apply))
    ensures var list := StoredTipsets(apply);
            var dropped := |AddAll(m, list)| >= 900 && h < list[0].Height() - 900;
            && (h in Stored(m, apply) <==> !dropped && (h in m || h in Heights(list)))
            && (h in Stored(m, apply) ==>
                  if h in Heights(list) then Stored(m, apply)[h] in list else h in m && Stored(m, apply)[h] == m[h])
  {
    var list := StoredTipsets(apply);
    AddAllEntries(m, list);
    AddAllKeyed(m, list);
  }

  /** Cached tipsets above a base that the new branch shares are not on the new branch. */
  lemma AboveBaseOff(m: Entries, head: Tipset, base: Tipset, g: nat, h: nat)
    requires Found(m, head, base, g) && 1 <= g && h in m && h > base.Height()
    ensures !OnBranch(m[h], Up(head, 1))
  {
    if OnBranch(m[h], Up(head, 1)) {
      assert OnBranch(Up(head, 1), head) by { UpOnBranch(head, 1); }
      BranchTransitive(m[h], Up(head, 1), head);
      assert false;
    }
  }

  /** Whatever walk a step follows, the table agrees with replaying the new branch afterwards if and only if
      the step condition holds for the place where the walk ended and the heights it passed. */
  lemma AdvanceTable(s: State, head: Tipset, g: nat, heights: set<nat>, s': State, active: set<Address>)
    requires TableOk(s.rows) && WellFormed(s.tip) && NoRepeat(s.tip) && Agrees(s.rows, s.tip, active)
    requires WellFormed(head) && NoRepeat(head)
    requires Advance(s, head, g, heights, s', active) && g >= 2
    ensures TableOk(s'.rows) && WellFormed(s'.tip) && NoRepeat(s'.tip)
    ensures Agrees(s'.rows, s'.tip, active) <==> StepOk(s.rows, active, s.tip, s'.tip, Up(head, g), heights)
  {
    var next := s'.tip;
    var apply := ApplyOf(head, g);
    UpOnBranch(head, 1);
    NoRepeatDown(next, head);
    TrailBranch(head, Up(head, g), g);
    RefreshedOk(s.rows, s'.rows, active, heights, CollectParents(apply, active));
    RefreshExact(s.rows, s'.rows, active, apply, s.tip, next, Up(head, g), heights);
  }

  /** When the walk ended on a cached tipset of the old branch, the condition is about abandoned tipsets alone. */
  lemma FoundRowStep(r: Row, tip: Tipset, next: Tipset, base: Tipset, m: Entries)
    requires WellFormed(tip) && WellFormed(next) && OnBranch(base, tip) && OnBranch(base, next)
    ensures RowStepOk(r, tip, next, base, HeightsAbove(m, base)) <==>
            (Abandoned(r, tip, next) ==>
               var was := Find(tip, r.msg.from, r.msg.nonce).value;
               was.tipset.Height() in m && Carries(was.included.signed, r))
  {
    var from, nonce := r.msg.from, r.msg.nonce;
    FindSound(tip, from, nonce);
    FindSound(next, from, nonce);
    var was, now := Find(tip, from, nonce), Find(next, from, nonce);
    if was.Some? && was.value.tipset.Height() <= base.Height() {
      BranchLinear(was.value.tipset, base, tip);
      BranchTransitive(was.value.tipset, base, next);
    }
    if now.Some? && now.value.tipset.Height() <= base.Height() {
      BranchLinear(now.value.tipset, base, next);
      BranchTransitive(now.value.tipset, base, tip);
    }
  }

  lemma GoodStepTable(s: State, head: Tipset, base: Tipset, g: nat, s': State, active: set<Address>)
    requires Good(s, active) && WellFormed(head) && NoRepeat(head)
    requires HeadStep(s, head, base, g, s', active) && g >= 2
    ensures TableOk(s'.rows) && WellFormed(s'.tip) && NoRepeat(s'.tip)
    ensures Agrees(s'.rows, s'.tip, active) <==> AbandonedCached(s, s'.tip, active)
  {
    var next := s'.tip;
    var heights := HeightsAbove(s.cache, base);
    TrailBranch(head, base, g);
    AdvanceTable(s, head, g, heights, s', active);
    assert OnBranch(base, s.tip);
    forall i | i in s.rows && Tracked(s.rows[i], active)
      ensures RowStepOk(s.rows[i], s.tip, next, base, heights) <==>
              (Abandoned(s.rows[i], s.tip, next) ==>
                 var was := Find(s.tip, s.rows[i].msg.from, s.rows[i].msg.nonce).value;
                 was.tipset.Height() in s.cache && Carries(was.included.signed, s.rows[i]))
    {
      FoundRowStep(s.rows[i], s.tip, next, base, s.cache);
    }
  }

  /** Whatever walk a step follows, the cache lies on the new branch afterwards if and only if every entry
      off that branch is replaced or dropped. */
  lemma AdvanceCache(s: State, head: Tipset, g: nat, heights: set<nat>, s': State, active: set<Address>)
    requires Keyed(s.cache) && WellFormed(head)
    requires Advance(s, head, g, heights, s', active) && g >= 2
    ensures Keyed(s'.cache) && s'.tip.Height() in s'.cache
    ensures (forall h :: h in s'.cache ==> OnBranch(s'.cache[h], s'.tip)) <==> StaleReplaced(s.cache, ApplyOf(head, g), s'.tip)
  {
    var next := s'.tip;
    var apply := ApplyOf(head, g);
    var list := StoredTipsets(apply);
    TrailBranch(head, Up(head, g), g);
    StoredEntries(s.cache, apply, next.Height());
    assert list[0] in list;
    assert next.Height() in Heights(list);
    if StaleReplaced(s.cache, apply, next) {
      forall h | h in s'.cache
        ensures OnBranch(s'.cache[h], next)
      {
        StoredEntries(s.cache, apply, h);
      }
    }
    if forall h :: h in s'.cache ==> OnBranch(s'.cache[h], next) {
      forall h | h in s.cache && !OnBranch(s.cache[h], next)
        ensures Replaced(s.cache, apply, h)
      {
        StoredEntries(s.cache, apply, h);
      }
    }
  }

  /** The exact condition under which one step keeps the follower right, for every walk it may follow. */
  lemma AdvanceExact(s: State, head: Tipset, g: nat, heights: set<nat>, s': State, active: set<Address>)
    requires Good(s, active) && WellFormed(head) && NoRepeat(head)
    requires Advance(s, head, g, heights, s', active) && g >= 2
    ensures Good(s', active) <==>
            && StepOk(s.rows, active, s.tip, Up(head, 1), Up(head, g), heights)
            && StaleReplaced(s.cache, ApplyOf(head, g), Up(head, 1))
  {
    AdvanceTable(s, head, g, heights, s', active);
    AdvanceCache(s, head, g, heights, s', active);
  }

  lemma FoundStale(s: State, head: Tipset, base: Tipset, g: nat, active: set<Address>)
    requires Good(s, active) && WellFormed(head) && Found(s.cache, head, base, g) && g >= 2
    ensures StaleReplaced(s.cache, ApplyOf(head, g), Up(head, 1)) <==> Reoccupied(s.cache, ApplyOf(head, g), base)
  {
    var next := Up(head, 1);
    TrailBranch(head, base, g);
    forall h | h in s.cache
      ensures OnBranch(s.cache[h], next) <==> h <= base.Height()
    {
      if h <= base.Height() {
        BranchLinear(s.cache[h], base, s.tip);
        BranchTransitive(s.cache[h], base, next);
      } else {
        AboveBaseOff(s.cache, head, base, g, h);
      }
    }
  }

  /** When the walk finds a cached ancestor: the invariant holds afterwards if and only if the abandoned
      tipsets that matter are cached without conflicts and the cached heights above the fork are reused. */
  lemma StepExact(s: State, head: Tipset, base: Tipset, g: nat, s': State, active: set<Address>)
    requires Good(s, active) && WellFormed(head) && NoRepeat(head)
    requires HeadStep(s, head, base, g, s', active) && g >= 2
    ensures Good(s', active) <==> AbandonedCached(s, Up(head, 1), active) && Reoccupied(s.cache, ApplyOf(head, g), base)
  {
    GoodStepTable(s, head, base, g, s', active);
    AdvanceCache(s, head, g, HeightsAbove(s.cache, base), s', active);
    FoundStale(s, head, base, g, active);
  }

  // ---- A head none of whose ancestors is cached -----------------------------------------------

  /** No cached tipset is an ancestor of the head, and the walk has gone up to the first ancestor that is
      not above the lowest cached height, which is above genesis. */
  ghost predicate Exhausted(m: Entries, head: Tipset, g: nat) {
    && g <= Depth(head) && Up(head, g).Height() > 0 && g + |m| <= LOOK_BACK_LIMIT + 1
    && (forall h :: h in m ==> !OnBranch(m[h], head))
    && (forall h :: h in m ==> Up(head, g).Height() <= h)
    && (exists low :: low in m && (g > 0 ==> Up(head, g - 1).Height() > low))
  }

  lemma ListedKeys(l: seq<Tipset>, m: Entries)
    requires Keyed(m) && Listing(l, m)
    ensures Heights(l) == m.Keys && |l| == |m|
  {
    forall h
      ensures h in Heights(l) <==> h in m
    {
      if h in Heights(l) {
        var t :| t in l && t.Height() == h;
        assert t in m.Values;
      }
      if h in m {
        assert m[h] in m.Values && m[h].Height() == h;
      }
    }
    HeightsCount(l, |l|);
    assert l[..|l|] == l;
    assert |m| == |m.Keys|;
  }

  /** That is the walk's second exit, for every listing: it reverts every cached height. */
  lemma ExhaustedWalk(l: seq<Tipset>, m: Entries, head: Tipset, g: nat)
    requires Keyed(m) && Listing(l, m) && m != map[] && WellFormed(head)
    ensures WalkEnds(l, head, g, |l|) <==> Exhausted(m, head, g)
    ensures Heights(l) == m.Keys
  {
    ListedKeys(l, m);
    if g <= Depth(head) {
      WellFormedUp(head, g);
      LowestListed(l, m);
      ExhaustedBounds(l, m, head, g);
    }
  }

  lemma LowestListed(l: seq<Tipset>, m: Entries)
    requires Keyed(m) && Listing(l, m) && m != map[]
    ensures |l| > 0 && l[|l| - 1].Height() in m && forall h :: h in m ==> l[|l| - 1].Height() <= h
  {
    var h0 :| h0 in m;
    assert m[h0] in m.Values;
    assert l[|l| - 1] in l;
    forall h | h in m
      ensures l[|l| - 1].Height() <= h
    {
      assert m[h] in m.Values;
      var k :| 0 <= k < |l| && l[k] == m[h];
    }
  }

  lemma ExhaustedBounds(l: seq<Tipset>, m: Entries, head: Tipset, g: nat)
    requires Keyed(m) && Listing(l, m) && |l| == |m| > 0 && g <= Depth(head) && WellFormed(Up(head, g))
    requires l[|l| - 1].Height() in m && forall h :: h in m ==> l[|l| - 1].Height() <= h
    ensures WalkEnds(l, head, g, |l|) <==> Exhausted(m, head, g)
  {
    var low := l[|l| - 1].Height();
    assert forall h :: h in m ==> m[h] in m.Values && m[h] in l;
    if WalkEnds(l, head, g, |l|) {
      forall h | h in m
        ensures !OnBranch(m[h], head)
      {
        var k :| 0 <= k < |l| && l[k] == m[h];
      }
      assert Up(head, g).Height() <= low;
    }
    if Exhausted(m, head, g) {
      forall k | 0 <= k < |l|
        ensures !OnBranch(l[k], head)
      {
        assert l[k] in l;
      }
    }
  }

  /** No tracked row's nonce is newly spent on the new branch at or below the base. */
  ghost predicate NewlySpentAbove(s: State, next: Tipset, base: Tipset, active: set<Address>) {
    forall i :: i in s.rows && Tracked(s.rows[i], active) ==>
      var now := Find(next, s.rows[i].msg.from, s.rows[i].msg.nonce);
      now.Some? && !OnBranch(now.value.tipset, s.tip) ==> now.value.tipset.Height() > base.Height()
  }

  lemma ExhaustedRowStep(s: State, head: Tipset, g: nat, i: MessageId, active: set<Address>)
    requires Good(s, active) && WellFormed(head) && Exhausted(s.cache, head, g) && g >= 2 && i in s.rows
    ensures var was := Find(s.tip, s.rows[i].msg.from, s.rows[i].msg.nonce);
            was.Some? && OnBranch(was.value.tipset, Up(head, 1)) ==> was.value.tipset.Height() !in s.cache
  {
    var was := Find(s.tip, s.rows[i].msg.from, s.rows[i].msg.nonce);
    FindSound(s.tip, s.rows[i].msg.from, s.rows[i].msg.nonce);
    if was.Some? && OnBranch(was.value.tipset, Up(head, 1)) && was.value.tipset.Height() in s.cache {
      BranchLinear(was.value.tipset, s.cache[was.value.tipset.Height()], s.tip);
      UpOnBranch(head, 1);
      BranchTransitive(was.value.tipset, Up(head, 1), head);
      assert false;
    }
  }

  lemma ExhaustedOff(m: Entries, head: Tipset, g: nat)
    requires Exhausted(m, head, g) && g >= 2
    ensures forall h :: h in m ==> !OnBranch(m[h], Up(head, 1))
  {
    UpOnBranch(head, 1);
    forall h | h in m
      ensures !OnBranch(m[h], Up(head, 1))
    {
      if OnBranch(m[h], Up(head, 1)) {
        BranchTransitive(m[h], Up(head, 1), head);
      }
    }
  }

  lemma ExhaustedStepOk(s: State, head: Tipset, g: nat, active: set<Address>)
    requires Good(s, active) && WellFormed(head) && Exhausted(s.cache, head, g) && g >= 2
    ensures StepOk(s.rows, active, s.tip, Up(head, 1), Up(head, g), s.cache.Keys) <==>
            AbandonedCached(s, Up(head, 1), active) && NewlySpentAbove(s, Up(head, 1), Up(head, g), active)
  {
    forall i | i in s.rows
      ensures var was := Find(s.tip, s.rows[i].msg.from, s.rows[i].msg.nonce);
              was.Some? && OnBranch(was.value.tipset, Up(head, 1)) ==> was.value.tipset.Height() !in s.cache
    {
      ExhaustedRowStep(s, head, g, i, active);
    }
  }

  /** When the walk runs past the whole cache, the table is right afterwards if and only if every abandoned
      tipset that matters is cached without conflicts, and nothing that matters was newly included at or below
      the tipset where the walk stopped, whose own messages are not applied. */
  lemma ExhaustedExact(s: State, head: Tipset, g: nat, s': State, active: set<Address>)
    requires Good(s, active) && WellFormed(head) && NoRepeat(head)
    requires Exhausted(s.cache, head, g) && Advance(s, head, g, s.cache.Keys, s', active) && g >= 2
    ensures Agrees(s'.rows, s'.tip, active) <==>
            AbandonedCached(s, s'.tip, active) && NewlySpentAbove(s, s'.tip, Up(head, g), active)
    ensures Good(s', active) <==>
            && AbandonedCached(s, s'.tip, active) && NewlySpentAbove(s, s'.tip, Up(head, g), active)
            && forall h :: h in s.cache ==> Replaced(s.cache, ApplyOf(head, g), h)
  {
    AdvanceTable(s, head, g, s.cache.Keys, s', active);
    AdvanceCache(s, head, g, s.cache.Keys, s', active);
    ExhaustedStepOk(s, head, g, active);
    ExhaustedOff(s.cache, head, g);
  }

  /** A head that descends from the tip always keeps the follower right, however many tipsets it skips. */
  lemma ExtensionKeepsGood(s: State, head: Tipset, base: Tipset, g: nat, s': State, active: set<Address>)
    requires Good(s, active) && WellFormed(head) && NoRepeat(head)
    requires HeadStep(s, head, base, g, s', active)
    requires OnBranch(s.tip, head)
    ensures Good(s', active)
    ensures base == s.tip
    ensures g >= 1 ==> s'.tip == Up(head, 1)
  {
    BranchHeight(base, s.tip);
    BranchLinear(s.cache[s.tip.Height()], s.tip, s.tip);
    if g >= 2 {
      var next := Up(head, 1);
      TrailBranch(head, base, g);
      forall h | h in s.cache
        ensures h <= base.Height()
      {
        BranchHeight(s.cache[h], s.tip);
      }
      forall i | i in s.rows && Tracked(s.rows[i], active)
        ensures !Abandoned(s.rows[i], s.tip, next)
      {
        var from, nonce := s.rows[i].msg.from, s.rows[i].msg.nonce;
        FindSound(s.tip, from, nonce);
        if Find(s.tip, from, nonce).Some? {
          BranchTransitive(Find(s.tip, from, nonce).value.tipset, s.tip, next);
        }
      }
      StepExact(s, head, base, g, s', active);
    }
  }

  // ---- Dense caches: the state in which every reorganisation is safe --------------------------

  /** No processed tipset above the lowest cached one is missing from the cache. */
  ghost predicate Dense(s: State) {
    forall ts, h :: OnBranch(ts, s.tip) && h in s.cache && h <= ts.Height() ==> ts.Height() in s.cache
  }

  /** No tracked row of the table lost its nonce to a different message on the abandoned part. */
  ghost predicate NoAbandonedConflict(s: State, next: Tipset, active: set<Address>) {
    forall i :: i in s.rows && Tracked(s.rows[i], active) && Abandoned(s.rows[i], s.tip, next)
      ==> s.rows[i].state != NonceConflict
  }

  /** In a dense cache the tipset an abandoned row landed on is cached, and the row's state tells whether
      that tipset carried the row's own message. */
  lemma DenseAbandoned(s: State, base: Tipset, next: Tipset, active: set<Address>, i: MessageId)
    requires Good(s, active) && Dense(s)
    requires base.Height() in s.cache && s.cache[base.Height()] == base && OnBranch(base, next)
    requires i in s.rows && Tracked(s.rows[i], active) && Abandoned(s.rows[i], s.tip, next)
    ensures var was := Find(s.tip, s.rows[i].msg.from, s.rows[i].msg.nonce).value;
            && was.tipset.Height() in s.cache
            && (Carries(was.included.signed, s.rows[i]) <==> s.rows[i].state != NonceConflict)
  {
    var r := s.rows[i];
    var was := Find(s.tip, r.msg.from, r.msg.nonce).value;
    FindSound(s.tip, r.msg.from, r.msg.nonce);
    if was.tipset.Height() < base.Height() {
      BranchLinear(was.tipset, base, s.tip);
      BranchTransitive(was.tipset, base, next);
    }
    assert RowAgrees(r, s.tip, active) && RowOk(r);
    ReplayIsFind(r, s.tip, active);
  }

  /** From a dense cache a reorganisation leaves the table right, if and only if the abandoned part had no
      nonce conflict; whether the cache stays dense depends on the length of the walk alone. */
  lemma DenseStep(s: State, head: Tipset, base: Tipset, g: nat, s': State, active: set<Address>)
    requires Good(s, active) && Dense(s) && WellFormed(head) && NoRepeat(head)
    requires HeadStep(s, head, base, g, s', active) && g >= 2
    ensures Agrees(s'.rows, s'.tip, active) <==> NoAbandonedConflict(s, Up(head, 1), active)
    ensures Good(s', active) && g == 2 ==> Dense(s')
    ensures Good(s', active) && g > 2 && base.Height() in s'.cache ==> !Dense(s')
  {
    var next := Up(head, 1);
    GoodStepTable(s, head, base, g, s', active);
    TrailBranch(head, base, g);
    forall i | i in s.rows && Tracked(s.rows[i], active) && Abandoned(s.rows[i], s.tip, next)
      ensures var was := Find(s.tip, s.rows[i].msg.from, s.rows[i].msg.nonce).value;
              && was.tipset.Height() in s.cache
              && (Carries(was.included.signed, s.rows[i]) <==> s.rows[i].state != NonceConflict)
    {
      DenseAbandoned(s, base, next, active, i);
    }
    if Good(s', active) && (g == 2 || base.Height() in s'.cache) {
      DenseExact(s, head, base, g, s', active);
    }
  }

  lemma DenseExact(s: State, head: Tipset, base: Tipset, g: nat, s': State, active: set<Address>)
    requires Good(s, active) && Dense(s) && WellFormed(head)
    requires HeadStep(s, head, base, g, s', active) && g >= 2
    requires Good(s', active) && (g == 2 || base.Height() in s'.cache)
    ensures Dense(s') <==> g == 2
  {
    var next := s'.tip;
    var apply := ApplyOf(head, g);
    var list := StoredTipsets(apply);
    TrailBranch(head, base, g);
    if g == 2 {
      forall ts, h | OnBranch(ts, next) && h in s'.cache && h <= ts.Height()
        ensures ts.Height() in s'.cache
      {
        if ts.Height() > base.Height() {
          var c :| c in apply && c.parent == ts;
          assert ts == next;
        } else {
          BranchLinear(ts, base, next);
          BranchTransitive(ts, base, s.tip);
          StoredEntries(s.cache, apply, h);
          StoredEntries(s.cache, apply, ts.Height());
        }
      }
    } else {
      var low := Up(head, g - 1);
      UpDescends(head, g - 1, g);
      assert apply[g - 2] in apply && apply[g - 2].parent == low;
      if low.Height() in s'.cache {
        StoredEntries(s.cache, apply, low.Height());
        BranchLinear(s'.cache[low.Height()], low, next);
        if low.Height() in Heights(list) {
          CachedVersusProcessed(head, g, low);
          assert false;
        } else {
          AboveBaseOff(s.cache, head, base, g, low.Height());
          assert false;
        }
      }
      assert OnBranch(low, next);
    }
  }
}
