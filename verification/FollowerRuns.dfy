/** Whole runs of the follower, interleaved with the other writers of the message table. */
module FollowerRuns {
  import opened Messages
  import opened Chain
  import opened Ancestors
  import opened TipsetCaches
  import opened MessageTable
  import opened Replay
  import opened Follower
  import opened Traces

  /** A new head with the length of its walk and the heights the walk passes over, or a write of the message
      table between two heads: a row pushed; a row filled by a commit, or filled anew by a replacement; a row
      marked bad (clearing an address marks its pending rows one by one); the failed rows of an address
      recovered. */
  datatype Move =
    | NewHead(head: Tipset, g: nat, heights: set<nat>)
    | Pushed(id: MessageId, row: Row)
    | Filled(id: MessageId, row: Row)
    | MarkedBad(id: MessageId)
    | Recovered(addr: Address, actorNonce: nat)

  /** The walk over the listed cache ends after `g` tipsets, on any of its four exits. */
  ghost predicate IsWalk(m: Entries, head: Tipset, g: nat, heights: set<nat>) {
    exists l: seq<Tipset>, i: nat :: Listing(l, m) && WalkEnds(l, head, g, i) && heights == Heights(l[..i])
  }

  ghost predicate MoveStep(s: State, m: Move, s': State, active: set<Address>) {
    match m
    case NewHead(head, g, heights) =>
      WellFormed(head) && NoRepeat(head) && IsWalk(s.cache, head, g, heights) && Advance(s, head, g, heights, s', active)
    case Pushed(id, row) =>
      row.state == UnFill && RowOk(row) && id !in s.rows && s' == s.(rows := s.rows[id := row])
    case Filled(id, row) =>
      && row.state == Fill && row.height == 0 && row.msg.from in active
      && TableOk(s.rows[id := row])
      && s' == s.(rows := s.rows[id := row])
    case MarkedBad(id) =>
      id in s.rows && s' == s.(rows := s.rows[id := s.rows[id].(state := Failed)])
    case Recovered(addr, actorNonce) =>
      s' == s.(rows := RecoverRows(s.rows, addr, actorNonce))
  }

  /** Every row about to be recovered has no height left over and a nonce unspent on the branch. */
  ghost predicate RecoverSafe(s: State, addr: Address, actorNonce: nat) {
    forall i :: i in s.rows && Recovers(s.rows[i], addr, actorNonce) ==>
      s.rows[i].height == 0 && Find(s.tip, addr, s.rows[i].msg.nonce).None?
  }

  /** The condition, readable off the state before the move, that decides whether it is safe. */
  ghost predicate Safe(s: State, m: Move, active: set<Address>) {
    match m
    case NewHead(head, g, heights) =>
      if 2 <= g <= Depth(head) then
        && StepOk(s.rows, active, s.tip, Up(head, 1), Up(head, g), heights)
        && StaleReplaced(s.cache, ApplyOf(head, g), Up(head, 1))
      else
        head.Child? ==> SameSpending(s.rows, s.tip, head.parent, active)
    case Filled(id, row) =>
      Find(s.tip, row.msg.from, row.msg.nonce).None?
    case Recovered(addr, actorNonce) =>
      addr in active ==> RecoverSafe(s, addr, actorNonce)
    case _ => true
  }

  /** Every tracked row's nonce is spent in the same place on both branches, or on neither. */
  ghost predicate SameSpending(rows: Table, t: Tipset, next: Tipset, active: set<Address>) {
    forall i :: i in rows && Tracked(rows[i], active) ==>
      Find(t, rows[i].msg.from, rows[i].msg.nonce) == Find(next, rows[i].msg.from, rows[i].msg.nonce)
  }

  /** What a move should leave: the invariant and, after a head, a table that agrees with the head's parent,
      even when the walk left nothing to apply. */
  ghost predicate RightAfter(s: State, m: Move, active: set<Address>) {
    Good(s, active) && (m.NewHead? && m.head.Child? ==> Agrees(s.rows, m.head.parent, active))
  }

  ghost predicate IsRun(states: seq<State>, moves: seq<Move>, active: set<Address>) {
    && |states| == |moves| + 1
    && forall k :: 0 <= k < |moves| ==> MoveStep(states[k], moves[k], states[k + 1], active)
  }

  /** A committed row keeps the table in agreement exactly when its nonce is unspent on the branch. */
  lemma FilledExact(s: State, id: MessageId, row: Row, s': State, active: set<Address>)
    requires Good(s, active) && MoveStep(s, Filled(id, row), s', active)
    ensures Good(s', active) <==> Find(s.tip, row.msg.from, row.msg.nonce).None?
  {
    assert s.rows[id := row][id] == row && RowOk(row);
    ReplayIsFind(row, s.tip, active);
    if Find(s.tip, row.msg.from, row.msg.nonce).Some? {
      assert !RowAgrees(s'.rows[id], s'.tip, active);
    }
  }

  /** Pushing and marking bad only touch rows the follower does not track afterwards. */
  lemma UntrackedKeepsGood(s: State, m: Move, s': State, active: set<Address>)
    requires Good(s, active) && (m.Pushed? || m.MarkedBad?) && MoveStep(s, m, s', active)
    ensures Good(s', active)
  {
    forall i | i in s'.rows
      ensures RowOk(s'.rows[i]) && RowAgrees(s'.rows[i], s'.tip, active)
    {
      if i in s.rows {
        assert RowOk(s.rows[i]) && RowAgrees(s.rows[i], s.tip, active);
      }
    }
    assert UniqueNonces(s'.rows);
  }

  lemma RecoveredRow(r: Row, tip: Tipset, addr: Address, actorNonce: nat, active: set<Address>)
    requires NoRepeat(tip) && addr in active && Recovers(r, addr, actorNonce) && RowOk(r)
    ensures RowAgrees(r.(state := Fill), tip, active) <==> r.height == 0 && Find(tip, addr, r.msg.nonce).None?
  {
    ReplayIsFind(r.(state := Fill), tip, active);
  }

  /** Recovering changes the state column alone, so a recovered row keeps the height it once landed at: the
      table stays right exactly when no recovered row has one and none of their nonces is spent. */
  lemma RecoveredExact(s: State, addr: Address, actorNonce: nat, s': State, active: set<Address>)
    requires Good(s, active) && MoveStep(s, Recovered(addr, actorNonce), s', active)
    ensures Good(s', active) <==> (addr in active ==> RecoverSafe(s, addr, actorNonce))
  {
    assert forall i :: i in s.rows ==> RowOk(s.rows[i]);
    assert TableOk(s'.rows);
    forall i | i in s.rows
      ensures RowAgrees(s'.rows[i], s.tip, active) <==>
              (Recovers(s.rows[i], addr, actorNonce) && addr in active ==>
                 s.rows[i].height == 0 && Find(s.tip, addr, s.rows[i].msg.nonce).None?)
    {
      assert RowAgrees(s.rows[i], s.tip, active);
      if Recovers(s.rows[i], addr, actorNonce) && addr in active {
        RecoveredRow(s.rows[i], s.tip, addr, actorNonce, active);
      }
    }
    if Good(s', active) && addr in active {
      forall i | i in s.rows && Recovers(s.rows[i], addr, actorNonce)
        ensures s.rows[i].height == 0 && Find(s.tip, addr, s.rows[i].msg.nonce).None?
      {
        assert RowAgrees(s'.rows[i], s.tip, active);
      }
    }
  }

  // ---- A walk of at most one tipset: nothing happens -------------------------------------------

  lemma RowAgreesBoth(r: Row, t: Tipset, next: Tipset, active: set<Address>)
    requires NoRepeat(t) && NoRepeat(next) && Tracked(r, active) && RowAgrees(r, t, active) && RowOk(r)
    ensures RowAgrees(r, next, active) <==> Find(t, r.msg.from, r.msg.nonce) == Find(next, r.msg.from, r.msg.nonce)
  {
    ReplayIsFind(r, t, active);
    ReplayIsFind(r, next, active);
    FoundOnBoth(t, next, r.msg.from, r.msg.nonce);
  }

  /** A walk of at most one tipset leaves everything alone, whatever it passed over; the table then agrees
      with the new head's parent exactly when the two branches spend the tracked nonces alike. */
  lemma IdleExact(s: State, head: Tipset, g: nat, heights: set<nat>, s': State, active: set<Address>)
    requires Good(s, active) && head.Child? && NoRepeat(head)
    requires Advance(s, head, g, heights, s', active) && g <= 1
    ensures s' == s
    ensures Agrees(s'.rows, head.parent, active) <==> SameSpending(s.rows, s.tip, head.parent, active)
  {
    assert OnBranch(head.parent, head);
    NoRepeatDown(head.parent, head);
    forall i | i in s.rows && Tracked(s.rows[i], active)
      ensures RowAgrees(s.rows[i], head.parent, active) <==>
              Find(s.tip, s.rows[i].msg.from, s.rows[i].msg.nonce) == Find(head.parent, s.rows[i].msg.from, s.rows[i].msg.nonce)
    {
      assert RowOk(s.rows[i]) && RowAgrees(s.rows[i], s.tip, active);
      RowAgreesBoth(s.rows[i], s.tip, head.parent, active);
    }
  }

  // ---- Moves and runs ------------------------------------------------------------------------------

  /** One move is right exactly when it is safe in the state it is made in. */
  lemma MoveExact(s: State, m: Move, s': State, active: set<Address>)
    requires Good(s, active) && MoveStep(s, m, s', active)
    ensures RightAfter(s', m, active) <==> Safe(s, m, active)
  {
    match m
    case NewHead(head, g, heights) =>
      if g >= 2 {
        AdvanceExact(s, head, g, heights, s', active);
      } else if head.Child? {
        IdleExact(s, head, g, heights, s', active);
      }
    case Filled(id, row) =>
      FilledExact(s, id, row, s', active);
    case Recovered(addr, actorNonce) =>
      RecoveredExact(s, addr, actorNonce, s', active);
    case _ =>
      UntrackedKeepsGood(s, m, s', active);
  }

  /** A move whose walk finds a cached ancestor is a step to that ancestor. */
  lemma MoveToBase(s: State, m: Move, base: Tipset, g: nat, s': State, active: set<Address>)
    requires Keyed(s.cache) && m.NewHead? && MoveStep(s, m, s', active) && Found(s.cache, m.head, base, g)
    ensures m.g == g && m.heights == HeightsAbove(s.cache, base) && HeadStep(s, m.head, base, g, s', active)
  {
    var l: seq<Tipset>, i: nat :| Listing(l, s.cache) && WalkEnds(l, m.head, m.g, i) && m.heights == Heights(l[..i]);
    FoundIsMet(l, s.cache, m.head, base, g, m.g, i);
  }

  /** A found base is where some walk ends. */
  lemma WalkExists(m: Entries, l: seq<Tipset>, head: Tipset, base: Tipset, g: nat)
    requires Keyed(m) && Listing(l, m) && WellFormed(head) && Found(m, head, base, g)
    ensures IsWalk(m, head, g, HeightsAbove(m, base))
  {
    assert base in m.Values;
    var i :| 0 <= i < |l| && l[i] == base;
    forall j | 0 <= j < i
      ensures !OnBranch(l[j], head)
    {
      assert l[j] in l;
    }
    ListedHeights(l, m, i);
    MeetingEnds(l, head, g, i);
  }

  /** The walk, and with it the condition for a safe move, is determined by the state before the move. */
  lemma WalkDetermined(m: Entries, head: Tipset, g: nat, heights: set<nat>, g': nat, heights': set<nat>)
    requires WellFormed(head) && IsWalk(m, head, g, heights) && IsWalk(m, head, g', heights')
    ensures g == g' && heights == heights'
  {
    var l: seq<Tipset>, i: nat :| Listing(l, m) && WalkEnds(l, head, g, i) && heights == Heights(l[..i]);
    var l': seq<Tipset>, i': nat :| Listing(l', m) && WalkEnds(l', head, g', i') && heights' == Heights(l'[..i']);
    ListingUnique(l, l');
    WalkUnique(l, head, g, i, g', i');
  }

  /** Refresh refines replay over whole runs: after every move the invariant holds, and after every head the
      table agrees with the head's parent, exactly when every move is safe in the state it is made in. */
  lemma RunExact(states: seq<State>, moves: seq<Move>, active: set<Address>)
    requires IsRun(states, moves, active) && Good(states[0], active)
    ensures (forall k :: 0 <= k < |moves| ==> RightAfter(states[k + 1], moves[k], active)) <==>
            (forall k :: 0 <= k < |moves| ==> Safe(states[k], moves[k], active))
  {
    var right, ok := MoveBits(states, moves, active);
    SafeThroughout(right, ok);
    if forall k :: 0 <= k < |moves| ==> RightAfter(states[k + 1], moves[k], active) {
      forall k | 0 <= k < |right|
        ensures right[k]
      {
        if k > 0 {
          assert RightAfter(states[k - 1 + 1], moves[k - 1], active);
        }
      }
    }
  }

  lemma MoveBits(states: seq<State>, moves: seq<Move>, active: set<Address>) returns (right: seq<bool>, ok: seq<bool>)
    requires IsRun(states, moves, active) && Good(states[0], active)
    ensures |right| == |states| && |ok| == |moves| && right[0]
    ensures forall k :: 0 <= k < |ok| ==> right[k + 1] == RightAfter(states[k + 1], moves[k], active)
    ensures forall k :: 0 <= k < |ok| ==> ok[k] == Safe(states[k], moves[k], active)
    ensures forall k :: 0 <= k < |ok| && right[k] ==> right[k + 1] == ok[k]
  {
    right := seq(|states|, k requires 0 <= k < |states| => k == 0 || RightAfter(states[k], moves[k - 1], active));
    ok := seq(|moves|, k requires 0 <= k < |moves| => Safe(states[k], moves[k], active));
    forall k | 0 <= k < |ok| && right[k]
      ensures right[k + 1] == ok[k]
    {
      assert MoveStep(states[k], moves[k], states[k + 1], active);
      MoveExact(states[k], moves[k], states[k + 1], active);
    }
  }

  // ---- Two families of runs that are always right ---------------------------------------------

  /** Every head descends from the tip reached so far, within the look-back limit, and every other write is
      safe. */
  ghost predicate Extends(s: State, m: Move, active: set<Address>) {
    match m
    case NewHead(head, g, _) => OnBranch(s.tip, head) && Found(s.cache, head, s.tip, g)
    case _ => Safe(s, m, active)
  }

  /** A run without reorganisations is right in every state, whatever null rounds and skipped
      notifications it has; after a head other than the tip itself the table agrees with the head's parent. */
  lemma {:induction false} ExtensionRun(states: seq<State>, moves: seq<Move>, active: set<Address>, n: nat)
    requires IsRun(states, moves, active) && Good(states[0], active) && n <= |moves|
    requires forall k :: 0 <= k < |moves| ==> Extends(states[k], moves[k], active)
    ensures Good(states[n], active)
    ensures n > 0 && (moves[n - 1].NewHead? ==> moves[n - 1].head != states[n - 1].tip) ==>
              RightAfter(states[n], moves[n - 1], active)
  {
    if n > 0 {
      ExtensionRun(states, moves, active, n - 1);
      var s, m := states[n - 1], moves[n - 1];
      assert MoveStep(s, m, states[n], active) && Extends(s, m, active);
      match m
      case NewHead(head, g, _) =>
        MoveToBase(s, m, s.tip, g, states[n], active);
        ExtensionKeepsGood(s, head, s.tip, g, states[n], active);
      case _ => MoveExact(s, m, states[n], active);
    }
  }

  /** One new tipset per step, taking the height of the one tipset it replaces, if any; no nonce conflict
      on what is abandoned. */
  ghost predicate OneForOne(s: State, m: Move, active: set<Address>) {
    match m
    case NewHead(head, g, _) =>
      g <= 2 && (g == 2 && g <= Depth(head) ==>
        && Found(s.cache, head, Up(head, 2), 2)
        && NoAbandonedConflict(s, Up(head, 1), active)
        && forall h :: h in s.cache && h > Up(head, 2).Height() ==> h == Up(head, 1).Height())
    case _ => Safe(s, m, active)
  }

  /** A dense cache stays dense, and the table right, over every run of one-for-one steps, including
      reorganisations. */
  lemma {:induction false} OneForOneRun(states: seq<State>, moves: seq<Move>, active: set<Address>, n: nat)
    requires IsRun(states, moves, active) && Good(states[0], active) && Dense(states[0]) && n <= |moves|
    requires forall k :: 0 <= k < |moves| ==> OneForOne(states[k], moves[k], active)
    ensures Good(states[n], active) && Dense(states[n])
  {
    if n > 0 {
      OneForOneRun(states, moves, active, n - 1);
      var s, m := states[n - 1], moves[n - 1];
      assert MoveStep(s, m, states[n], active) && OneForOne(s, m, active);
      match m
      case NewHead(head, g, _) =>
        if g == 2 {
          var base := Up(head, 2);
          MoveToBase(s, m, base, g, states[n], active);
          DenseStep(s, head, base, g, states[n], active);
          GoodStepTable(s, head, base, g, states[n], active);
          assert Up(head, 1) in StoredTipsets(ApplyOf(head, g));
          assert Reoccupied(s.cache, ApplyOf(head, g), base);
          StepExact(s, head, base, g, states[n], active);
        }
      case _ =>
        MoveExact(s, m, states[n], active);
    }
  }

  // ---- A head whose parent is cached below the tip ----------------------------------------------

  /** Some tracked row's nonce was spent on the branch of `tip` above `base`. */
  ghost predicate SpentAbove(rows: Table, tip: Tipset, base: Tipset, active: set<Address>) {
    exists i :: i in rows && Tracked(rows[i], active) && Abandoned(rows[i], tip, base)
  }

  /** In particular, a head whose parent is cached below the tip reverts nothing; the table then agrees with
      that parent exactly when nothing that matters was abandoned. */
  lemma SkippedRevert(s: State, head: Tipset, base: Tipset, s': State, active: set<Address>)
    requires Good(s, active) && WellFormed(head) && NoRepeat(head)
    requires HeadStep(s, head, base, 1, s', active)
    ensures base == Up(head, 1)
    ensures Agrees(s'.rows, base, active) <==> !SpentAbove(s.rows, s.tip, base, active)
  {
    UpOnBranch(head, 1);
    NoRepeatDown(base, head);
    IdleExact(s, head, 1, HeightsAbove(s.cache, base), s', active);
    forall i | i in s.rows && Tracked(s.rows[i], active)
      ensures Find(s.tip, s.rows[i].msg.from, s.rows[i].msg.nonce) == Find(base, s.rows[i].msg.from, s.rows[i].msg.nonce)
              <==> !Abandoned(s.rows[i], s.tip, base)
    {
      var from, nonce := s.rows[i].msg.from, s.rows[i].msg.nonce;
      FoundOnBoth(s.tip, base, from, nonce);
      if Find(base, from, nonce).Some? {
        BranchTransitive(Find(base, from, nonce).value.tipset, base, s.tip);
      }
    }
  }
}
