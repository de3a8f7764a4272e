/** The first batch on an empty cache, and what becomes of a tipset that is cached but not processed. */
module FirstBatch {
  import opened Messages
  import opened Chain
  import opened TipsetCaches
  import opened MessageTable
  import opened Replay
  import opened Follower
  import opened FollowerRuns

  /** A notification lists the new tipsets oldest first, each the parent of the next. */
  ghost predicate Ascending(apply: seq<Tipset>) {
    && |apply| > 0 && (forall t :: t in apply ==> t.Child? && WellFormed(t))
    && forall k :: 0 < k < |apply| ==> apply[k].parent == apply[k - 1]
  }

  /** The step taken when the cache is empty: the whole batch is applied in the order it arrives. */
  ghost predicate FirstStep(s: State, apply: seq<Tipset>, s': State, active: set<Address>) {
    && |apply| > 0 && (forall t :: t in apply ==> t.Child?) && s.cache == map[]
    && s'.tip == apply[|apply| - 1].parent
    && Refreshed(s.rows, s'.rows, active, {}, CollectParents(apply, active))
    && s'.cache == Stored(map[], apply)
  }

  lemma {:induction false} AscendingHeights(apply: seq<Tipset>, i: nat, j: nat)
    requires Ascending(apply) && i < j < |apply|
    ensures apply[i].Height() < apply[j].Height()
    decreases j
  {
    assert apply[j] in apply && apply[j].parent == apply[j - 1];
    if i < j - 1 {
      AscendingHeights(apply, i, j - 1);
    }
  }

  lemma AscendingDistinct(apply: seq<Tipset>)
    requires Ascending(apply)
    ensures DistinctHeights(StoredTipsets(apply))
    ensures forall t :: t in StoredTipsets(apply) ==> t.Height() <= apply[|apply| - 1].Height()
  {
    var list := StoredTipsets(apply);
    assert apply[0] in apply;
    if |apply| >= 2 {
      forall i, j | 0 <= i < j < |list|
        ensures list[i].Height() != list[j].Height()
      {
        AscendingHeights(apply, i + 1, j + 1);
      }
      forall i | 0 <= i < |list|
        ensures list[i].Height() <= apply[|apply| - 1].Height()
      {
        if i + 1 < |apply| - 1 {
          AscendingHeights(apply, i + 1, |apply| - 1);
        }
      }
    }
  }

  /** The entries a first batch of several tipsets leaves: its newest tipset is cached, and none is higher. */
  lemma FirstBatchStores(apply: seq<Tipset>)
    requires Ascending(apply) && |apply| >= 2
    ensures var m, latest := Stored(map[], apply), apply[|apply| - 1];
            && Keyed(m) && latest.Height() in m && m[latest.Height()] == latest
            && forall h :: h in m ==> h <= latest.Height()
  {
    var m, latest := Stored(map[], apply), apply[|apply| - 1];
    var list := StoredTipsets(apply);
    assert list == apply[1..] && list[|apply| - 2] == latest;
    AscendingDistinct(apply);
    AddAllEntries(map[], list);
    assert list[0] in list;
    forall h | h in m
      ensures h <= latest.Height()
    {
      StoredEntries(map[], apply, h);
    }
    StoredEntries(map[], apply, latest.Height());
  }

  lemma LatestNotProcessed(apply: seq<Tipset>)
    requires Ascending(apply)
    ensures !ProcessedBy(apply[|apply| - 1], apply)
  {
    var latest := apply[|apply| - 1];
    forall k | 0 <= k < |apply|
      ensures apply[k].Child? ==> apply[k].parent != latest
    {
      assert apply[k] in apply;
      if k < |apply| - 1 {
        AscendingHeights(apply, k, |apply| - 1);
      }
    }
  }

  /** A batch of two or more tipsets caches its newest one, whose messages have not been applied. */
  lemma FirstBatchCachesUnprocessed(s: State, apply: seq<Tipset>, s': State, active: set<Address>)
    requires FirstStep(s, apply, s', active) && Ascending(apply) && |apply| >= 2
    ensures var latest := apply[|apply| - 1];
            && latest.Height() in s'.cache && s'.cache[latest.Height()] == latest
            && !OnBranch(latest, s'.tip)
            && !ProcessedBy(latest, apply)
    ensures !Good(s', active)
  {
    assert apply[|apply| - 1] in apply;
    FirstBatchStores(apply);
    LatestNotProcessed(apply);
    BranchHeightContra(apply[|apply| - 1]);
  }

  lemma BranchHeightContra(t: Tipset)
    requires t.Child?
    ensures !OnBranch(t, t.parent)
  {
    if OnBranch(t, t.parent) {
      BranchDepth(t, t.parent);
    }
  }

  lemma CoversOne(last: Tipset)
    requires last.Child? && last.parent.Child? && WellFormed(last)
    ensures OnBranch(last.parent.parent, last.parent) && Covers([last], last.parent, last.parent.parent)
  {
    var next, base := last.parent, last.parent.parent;
    assert OnBranch(base, next) && last in [last];
    forall ts | OnBranch(ts, next) && ts.Height() > base.Height()
      ensures ts == next
    {
      if ts != next {
        BranchHeight(ts, base);
      }
    }
  }

  lemma CoversOneMore(front: seq<Tipset>, last: Tipset, base: Tipset)
    requires last.Child? && last.parent.Child? && last.parent.Height() > base.Height()
    requires Covers(front, last.parent.parent, base)
    ensures Covers(front + [last], last.parent, base)
  {
    var apply := front + [last];
    assert last in apply;
    forall c | c in apply
      ensures c.Child? && OnBranch(c.parent, last.parent) && c.parent.Height() > base.Height()
    {
      assert c in front || c == last;
    }
    forall ts | OnBranch(ts, last.parent) && ts.Height() > base.Height()
      ensures exists c :: c in apply && c.parent == ts
    {
      if ts != last.parent {
        var c :| c in front && c.parent == ts;
        assert c in apply;
      }
    }
  }

  /** The first `n` tipsets of the batch contribute exactly the tipsets of its branch from the parent of the
      oldest one up to the parent of the newest of them. */
  lemma {:induction false} AscendingCovers(apply: seq<Tipset>, base: Tipset, n: nat)
    requires Ascending(apply) && apply[0].parent.Child? && base == apply[0].parent.parent && 1 <= n <= |apply|
    ensures apply[n - 1] in apply && apply[n - 1].parent.Child? && OnBranch(base, apply[n - 1].parent)
    ensures Covers(apply[..n], apply[n - 1].parent, base)
  {
    var last := apply[n - 1];
    assert last in apply;
    if n == 1 {
      assert apply[..n] == [last];
      CoversOne(last);
    } else {
      AscendingCovers(apply, base, n - 1);
      assert apply[n - 2] == last.parent && WellFormed(last.parent);
      BranchHeight(base, last.parent.parent);
      CoversOneMore(apply[..n - 1], last, base);
      assert apply[..n] == apply[..n - 1] + [last];
    }
  }

  /** Going from a tipset to a descendant with nothing undone is right for every row. */
  lemma ExtendingOk(rows: Table, prev: Tipset, next: Tipset, m: Entries, active: set<Address>)
    requires WellFormed(next) && OnBranch(prev, next)
    ensures StepOk(rows, active, prev, next, prev, HeightsAbove(m, prev))
  {
    BranchHeight(prev, next);
    forall i | i in rows && Tracked(rows[i], active)
      ensures RowStepOk(rows[i], prev, next, prev, HeightsAbove(m, prev))
    {
      var from, nonce := rows[i].msg.from, rows[i].msg.nonce;
      FoundRowStep(rows[i], prev, next, prev, m);
      FindSound(prev, from, nonce);
      if Find(prev, from, nonce).Some? {
        BranchTransitive(Find(prev, from, nonce).value.tipset, prev, next);
      }
    }
  }

  /** Whatever its length, a first batch brings the table from agreement with the grandparent of its oldest
      tipset to agreement with the parent of its newest one. */
  lemma FirstBatchTable(s: State, apply: seq<Tipset>, s': State, active: set<Address>)
    requires FirstStep(s, apply, s', active) && Ascending(apply)
    requires apply[0].parent.Child? && NoRepeat(s'.tip)
    requires TableOk(s.rows) && Agrees(s.rows, apply[0].parent.parent, active)
    ensures TableOk(s'.rows) && Agrees(s'.rows, s'.tip, active)
  {
    var base, next := apply[0].parent.parent, s'.tip;
    AscendingCovers(apply, base, |apply|);
    assert apply[..|apply|] == apply;
    NoRepeatDown(base, next);
    BranchHeight(base, next);
    RefreshedOk(s.rows, s'.rows, active, {}, CollectParents(apply, active));
    assert HeightsAbove(map[], base) == {};
    ExtendingOk(s.rows, base, next, map[], active);
    RefreshExact(s.rows, s'.rows, active, apply, base, next, base, {});
  }

  /** A batch of one tipset on an empty cache starts the follower correctly. */
  lemma FirstBatchOfOne(s: State, apply: seq<Tipset>, s': State, active: set<Address>)
    requires FirstStep(s, apply, s', active) && Ascending(apply) && |apply| == 1
    requires apply[0].parent.Child? && NoRepeat(apply[0].parent)
    requires TableOk(s.rows) && Agrees(s.rows, apply[0].parent.parent, active)
    ensures Good(s', active) && Dense(s')
  {
    var next := apply[0].parent;
    assert apply[0] in apply && WellFormed(next);
    FirstBatchTable(s, apply, s', active);
    assert s'.cache == map[next.Height() := next] by {
      var list := StoredTipsets(apply);
      assert list == [next] && list[..0] == [];
      assert AddAll(map[], list) == map[next.Height() := next];
    }
    forall ts, h | OnBranch(ts, next) && h in s'.cache && h <= ts.Height()
      ensures ts.Height() in s'.cache
    {
      BranchHeight(ts, next);
    }
  }

  // ---- The messages of a tipset cached without being processed --------------------------------------

  /** The tipset up to which the cache says the branch is processed: the newest tipset of the first batch
      until the follower has moved on. */
  ghost function Claimed(s: State, latest: Tipset): Tipset
    requires latest.Child?
  {
    if s.tip == latest.parent then latest else s.tip
  }

  ghost predicate LostIn(r: Row, latest: Tipset) {
    FindIn(latest.Msgs(), r.msg.from, r.msg.nonce).Some?
  }

  /** A tracked row whose nonce `latest` spends is still pending; every other row agrees with the branch. */
  ghost predicate RowLost(r: Row, latest: Tipset, tip: Tipset, active: set<Address>) {
    Tracked(r, active) ==> if LostIn(r, latest) then r.state == Fill && r.height == 0 else RowAgrees(r, tip, active)
  }

  ghost predicate Lost(s: State, latest: Tipset, active: set<Address>) {
    && latest.Child? && TableOk(s.rows) && Keyed(s.cache)
    && var tip := Claimed(s, latest);
       && WellFormed(tip) && NoRepeat(tip) && OnBranch(latest, tip)
       && (forall h :: h in s.cache ==> h <= tip.Height())
       && (forall i :: i in s.rows ==> RowLost(s.rows[i], latest, tip, active))
  }

  /** In such a state the table agrees with the branch exactly when no tracked nonce is spent in `latest`. */
  lemma LostExact(s: State, latest: Tipset, active: set<Address>)
    requires Lost(s, latest, active)
    ensures Agrees(s.rows, Claimed(s, latest), active) <==>
            forall i :: i in s.rows && Tracked(s.rows[i], active) ==> !LostIn(s.rows[i], latest)
  {
    var tip := Claimed(s, latest);
    forall i | i in s.rows && Tracked(s.rows[i], active)
      ensures RowAgrees(s.rows[i], tip, active) <==> !LostIn(s.rows[i], latest)
    {
      var r := s.rows[i];
      assert RowLost(r, latest, tip, active);
      if LostIn(r, latest) {
        ReplayIsFind(r, tip, active);
        FindUnique(Hit(latest, FindIn(latest.Msgs(), r.msg.from, r.msg.nonce).value), tip, r.msg.from, r.msg.nonce);
      }
    }
  }

  lemma FirstRowLost(r: Row, latest: Tipset, active: set<Address>)
    requires latest.Child? && NoRepeat(latest) && RowAgrees(r, latest.parent, active) && RowOk(r)
    ensures RowLost(r, latest, latest, active)
  {
    var from, nonce := r.msg.from, r.msg.nonce;
    assert OnBranch(latest.parent, latest);
    NoRepeatDown(latest.parent, latest);
    if Tracked(r, active) {
      ReplayIsFind(r, latest.parent, active);
      ReplayIsFind(r, latest, active);
      if LostIn(r, latest) {
        FindUnique(Hit(latest, FindIn(latest.Msgs(), from, nonce).value), latest, from, nonce);
        FindSound(latest.parent, from, nonce);
        if Find(latest.parent, from, nonce).Some? {
          var h := Find(latest.parent, from, nonce).value;
          BranchTransitive(h.tipset, latest.parent, latest);
          FindUnique(h, latest, from, nonce);
          BranchHeightContra(latest);
        }
      }
    }
  }

  lemma FirstBatchLost(s: State, apply: seq<Tipset>, s': State, active: set<Address>)
    requires FirstStep(s, apply, s', active) && Ascending(apply) && |apply| >= 2
    requires apply[0].parent.Child? && NoRepeat(apply[|apply| - 1])
    requires TableOk(s.rows) && Agrees(s.rows, apply[0].parent.parent, active)
    ensures Lost(s', apply[|apply| - 1], active)
  {
    var latest := apply[|apply| - 1];
    assert latest in apply;
    assert OnBranch(latest.parent, latest);
    NoRepeatDown(latest.parent, latest);
    FirstBatchTable(s, apply, s', active);
    FirstBatchStores(apply);
    forall i | i in s'.rows
      ensures RowLost(s'.rows[i], latest, latest, active)
    {
      assert RowAgrees(s'.rows[i], latest.parent, active);
      FirstRowLost(s'.rows[i], latest, active);
    }
  }

  /** Heads that go on from the branch the cache claims, and other writes that would be safe on it; a row may
      also be filled with a nonce that `latest` spends. */
  ghost predicate GoesOn(s: State, m: Move, latest: Tipset, active: set<Address>)
    requires latest.Child?
  {
    var tip := Claimed(s, latest);
    match m
    case NewHead(head, g, _) => OnBranch(tip, head) && Found(s.cache, head, tip, g)
    case Filled(_, row) => LostIn(row, latest) || Find(tip, row.msg.from, row.msg.nonce).None?
    case Recovered(addr, actorNonce) =>
      addr in active ==>
        forall i :: i in s.rows && Recovers(s.rows[i], addr, actorNonce) ==>
          s.rows[i].height == 0 && (LostIn(s.rows[i], latest) || Find(tip, addr, s.rows[i].msg.nonce).None?)
    case _ => true
  }

  /** A pending row whose nonce `latest` spends stays as it is when only what lies above `tip` is applied. */
  lemma LostStays(r: Row, latest: Tipset, tip: Tipset, next: Tipset, apply: seq<Tipset>, active: set<Address>)
    requires WellFormed(next) && NoRepeat(next) && OnBranch(latest, tip) && OnBranch(tip, next) && Covers(apply, next, tip)
    requires RowOk(r) && r.state == Fill && r.msg.from in active && LostIn(r, latest)
    ensures RefreshRow(r, active, {}, CollectParents(apply, active)) == r
  {
    BranchTransitive(latest, tip, next);
    BranchHeight(tip, next);
    BranchHeight(latest, tip);
    FindUnique(Hit(latest, FindIn(latest.Msgs(), r.msg.from, r.msg.nonce).value), next, r.msg.from, r.msg.nonce);
    SettlePending(r, active, apply, next, tip);
  }

  /** One row over a step that goes on from `tip`. */
  lemma RowGoesOn(r: Row, latest: Tipset, tip: Tipset, head: Tipset, g: nat, m: Entries, active: set<Address>)
    requires WellFormed(head) && NoRepeat(head) && 2 <= g <= Depth(head) && Up(head, g) == tip
    requires OnBranch(latest, tip) && NoRepeat(tip) && RowOk(r) && RowLost(r, latest, tip, active)
    requires HeightsAbove(m, tip) == {}
    ensures var r' := RefreshRow(r, active, {}, CollectParents(ApplyOf(head, g), active));
            SameIdentity(r, r') && RowLost(r', latest, Up(head, 1), active)
  {
    var next, apply := Up(head, 1), ApplyOf(head, g);
    TrailBranch(head, tip, g);
    UpOnBranch(head, 1);
    NoRepeatDown(next, head);
    BranchHeight(tip, next);
    SettleIdentity(Unwind(r, active, {}), CollectParents(apply, active));
    if !Tracked(r, active) {
      UntrackedUntouched(r, active, {}, apply);
    } else if LostIn(r, latest) {
      LostStays(r, latest, tip, next, apply, active);
    } else {
      RowExact(r, active, apply, tip, next, tip, {});
      ExtendingOk(map[0 := r], tip, next, m, active);
      assert RowStepOk(map[0 := r][0], tip, next, tip, {});
    }
  }

  lemma StoredBelow(m: Entries, head: Tipset, base: Tipset, g: nat, h: nat)
    requires Keyed(m) && WellFormed(head) && 2 <= g <= Depth(head) && Up(head, g) == base
    requires forall x :: x in m ==> x <= base.Height()
    ensures Keyed(Stored(m, ApplyOf(head, g)))
    ensures h in Stored(m, ApplyOf(head, g)) ==> h <= Up(head, 1).Height()
  {
    TrailBranch(head, base, g);
    StoredEntries(m, ApplyOf(head, g), h);
    if h in Stored(m, ApplyOf(head, g)) {
      if h in Heights(StoredTipsets(ApplyOf(head, g))) {
        BranchHeight(Stored(m, ApplyOf(head, g))[h], Up(head, 1));
      } else {
        BranchHeight(base, Up(head, 1));
      }
    }
  }

  lemma LostHeadStep(s: State, m: Move, s': State, latest: Tipset, active: set<Address>)
    requires Lost(s, latest, active) && m.NewHead? && m.g >= 2 && MoveStep(s, m, s', active)
    requires GoesOn(s, m, latest, active)
    ensures Lost(s', latest, active)
  {
    var tip, head, g := Claimed(s, latest), m.head, m.g;
    var next := Up(head, 1);
    MoveToBase(s, m, tip, g, s', active);
    assert HeightsAbove(s.cache, tip) == {};
    TrailBranch(head, tip, g);
    UpOnBranch(head, 1);
    NoRepeatDown(next, head);
    BranchTransitive(latest, tip, next);
    BranchHeightContra(latest);
    assert Claimed(s', latest) == next;
    RefreshedOk(s.rows, s'.rows, active, {}, CollectParents(ApplyOf(head, g), active));
    forall i | i in s'.rows
      ensures RowLost(s'.rows[i], latest, next, active)
    {
      assert RowOk(s.rows[i]) && RowLost(s.rows[i], latest, tip, active);
      RowGoesOn(s.rows[i], latest, tip, head, g, s.cache, active);
    }
    forall h | h in s'.cache
      ensures h <= next.Height()
    {
      StoredBelow(s.cache, head, tip, g, h);
    }
    StoredBelow(s.cache, head, tip, g, 0);
  }

  lemma FilledRowLost(r: Row, latest: Tipset, tip: Tipset, active: set<Address>)
    requires NoRepeat(tip) && r.state == Fill && r.height == 0 && RowOk(r)
    requires LostIn(r, latest) || Find(tip, r.msg.from, r.msg.nonce).None?
    ensures RowLost(r, latest, tip, active)
  {
    if Tracked(r, active) {
      ReplayIsFind(r, tip, active);
    }
  }

  lemma LostWriteStep(s: State, m: Move, s': State, latest: Tipset, active: set<Address>)
    requires Lost(s, latest, active) && !m.NewHead? && MoveStep(s, m, s', active) && GoesOn(s, m, latest, active)
    ensures Lost(s', latest, active)
  {
    var tip := Claimed(s, latest);
    forall i | i in s'.rows
      ensures RowOk(s'.rows[i]) && RowLost(s'.rows[i], latest, tip, active)
    {
      if i in s.rows {
        assert RowOk(s.rows[i]) && RowLost(s.rows[i], latest, tip, active);
      }
      if s'.rows[i].state == Fill && (i !in s.rows || s'.rows[i] != s.rows[i]) && s'.rows[i].msg.from in active {
        FilledRowLost(s'.rows[i], latest, tip, active);
      }
    }
    assert UniqueNonces(s'.rows);
  }

  /** Over every run that goes on from a first batch of several tipsets, the messages of its newest tipset are
      never applied: in every state the table is right exactly when no tracked nonce is spent there. */
  lemma {:induction false} LostForGood(
    states: seq<State>, moves: seq<Move>, latest: Tipset, active: set<Address>, n: nat)
    requires IsRun(states, moves, active) && Lost(states[0], latest, active) && n <= |moves|
    requires forall k :: 0 <= k < |moves| ==> GoesOn(states[k], moves[k], latest, active)
    ensures Lost(states[n], latest, active)
    ensures Agrees(states[n].rows, Claimed(states[n], latest), active) <==>
            forall i :: i in states[n].rows && Tracked(states[n].rows[i], active) ==> !LostIn(states[n].rows[i], latest)
  {
    if n > 0 {
      LostForGood(states, moves, latest, active, n - 1);
      var s, m := states[n - 1], moves[n - 1];
      assert MoveStep(s, m, states[n], active) && GoesOn(s, m, latest, active);
      if !m.NewHead? {
        LostWriteStep(s, m, states[n], latest, active);
      } else if m.g >= 2 {
        LostHeadStep(s, m, states[n], latest, active);
      }
    }
    LostExact(states[n], latest, active);
  }
}
