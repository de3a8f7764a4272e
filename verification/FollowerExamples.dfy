/** Concrete runs in which the follower's table leaves the branch: one for each way the exact conditions of
    a step can fail. */
module FollowerExamples {
  import opened Messages
  import opened Chain
  import opened TipsetCaches
  import opened MessageTable
  import opened Replay
  import opened Follower
  import opened FollowerRuns
  import opened FirstBatch

  // The branches A(1) - C(2) - D(3) - E(4), whose message is in C, A - X(2) - Y(3) - Z(4) without it,
  // A - N(3) - O(4) with a null round at height 2, and X - P(3) - Q(4) - R(5) with the message in P.
  const SENT := SignedMessage(Message(7, 0, 0, 1, 1, 1), Signature(Secp, 5))
  const CARRIED := Included(SENT, Receipt(0, 0, 1))
  const A := Child(Genesis, 1, [], 0)
  const C := Child(A, 2, [CARRIED], 0)
  const D := Child(C, 3, [], 0)
  const E := Child(D, 4, [], 0)
  const X := Child(A, 2, [], 1)
  const Y := Child(X, 3, [], 1)
  const Z := Child(Y, 4, [], 1)
  const N := Child(A, 3, [], 2)
  const O := Child(N, 4, [], 2)
  const P := Child(X, 3, [CARRIED], 3)
  const Q := Child(P, 4, [], 3)
  const R := Child(Q, 5, [], 3)

  const PENDING := Row(SENT.msg, Some(SENT.sig), Some(UnsignedCid(SENT.msg)), Some(SignedCid(SENT)), Fill, 0, None, None, "")
  const START := State(map[1 := PENDING], map[1 := A], A)
  const EMPTY := State(map[1 := PENDING], map[], A)

  // ---- The branches ------------------------------------------------------------------------------

  lemma NoRepeatCarried(t: Tipset)
    requires t.Child? && t.msgs == [CARRIED] && forall a :: OnBranch(a, t.parent) ==> a.Msgs() == []
    ensures NoRepeat(t)
  {
  }

  lemma Branches()
    ensures WellFormed(E) && WellFormed(Z) && WellFormed(O) && WellFormed(R)
    ensures NoRepeat(A) && NoRepeat(E) && NoRepeat(Z) && NoRepeat(O) && NoRepeat(R)
    ensures WellFormed(X) && WellFormed(Y) && NoRepeat(X) && NoRepeat(Y)
  {
    assert WellFormed(C) && WellFormed(X) && WellFormed(P);
    assert NoRepeat(Genesis);
    NoRepeatEmpty(A);
    NoRepeatEmpty(X);
    NoRepeatEmpty(Y);
    NoRepeatEmpty(Z);
    NoRepeatEmpty(N);
    NoRepeatEmpty(O);
    assert forall t :: OnBranch(t, A) ==> t.Msgs() == [];
    assert forall t :: OnBranch(t, X) ==> t.Msgs() == [];
    NoRepeatCarried(C);
    NoRepeatEmpty(D);
    NoRepeatEmpty(E);
    NoRepeatCarried(P);
    NoRepeatEmpty(Q);
    NoRepeatEmpty(R);
  }

  lemma Ancestry()
    ensures OnBranch(A, C) && OnBranch(A, D) && OnBranch(A, E) && OnBranch(C, D) && OnBranch(C, E) && OnBranch(D, E)
    ensures OnBranch(A, X) && OnBranch(A, Y) && OnBranch(A, Z) && OnBranch(X, Y) && OnBranch(X, Z) && OnBranch(Y, Z)
    ensures OnBranch(A, N) && OnBranch(A, O) && OnBranch(N, O)
    ensures OnBranch(X, P) && OnBranch(X, R) && OnBranch(P, Q) && OnBranch(P, R) && OnBranch(Q, R)
  {
    assert OnBranch(X, Q) && OnBranch(P, Q);
  }

  lemma Climbs()
    ensures Depth(D) == 3 && Depth(E) == 4 && Depth(X) == 2 && Depth(Y) == 3 && Depth(Z) == 4 && Depth(O) == 3
    ensures Depth(R) == 5
    ensures Up(D, 1) == C && Up(D, 2) == A && Up(E, 1) == D && Up(E, 2) == C && Up(E, 3) == A
    ensures Up(X, 1) == A && Up(Y, 1) == X && Up(Y, 2) == A && Up(Z, 1) == Y && Up(Z, 3) == A
    ensures Up(O, 1) == N && Up(O, 2) == A && Up(R, 1) == Q && Up(R, 2) == P
  {
    assert Depth(A) == 1 && Depth(C) == 2 && Depth(N) == 2 && Depth(P) == 3 && Depth(Q) == 4;
    assert Up(C, 1) == A && Up(Y, 1) == X && Up(Q, 1) == P;
  }

  lemma Forks()
    ensures !OnBranch(C, A) && !OnBranch(C, X) && !OnBranch(C, Y) && !OnBranch(C, Z) && !OnBranch(D, Z)
    ensures !OnBranch(C, N) && !OnBranch(C, O) && !OnBranch(N, E) && !OnBranch(X, E)
  {
    assert !OnBranch(X, A) && !OnBranch(N, A) && !OnBranch(D, A);
    assert !OnBranch(N, C) && !OnBranch(X, C);
    assert !OnBranch(N, D) && !OnBranch(X, D);
    assert !OnBranch(D, X) && !OnBranch(D, Y);
  }

  lemma Spending()
    ensures Find(A, 7, 0).None? && Find(X, 7, 0).None? && Find(Y, 7, 0).None? && Find(N, 7, 0).None?
    ensures Find(C, 7, 0) == Some(Hit(C, CARRIED)) && Find(D, 7, 0) == Some(Hit(C, CARRIED))
  {
    assert Find(Genesis, 7, 0).None?;
    assert Find(A, 7, 0).None?;
  }

  /** The bases found by the heads of the examples. */
  lemma Bases()
    ensures Found(map[1 := A, 3 := D], Z, A, 3) && HeightsAbove(map[1 := A, 3 := D], A) == {3}
    ensures Found(map[1 := A, 2 := C], X, A, 1) && Found(map[1 := A, 2 := C], O, A, 2)
    ensures Found(map[1 := A, 2 := C], Y, A, 2)
    ensures HeightsAbove(map[1 := A, 2 := C], A) == {2}
    ensures Found(map[1 := A, 2 := C, 3 := N], E, C, 2) && HeightsAbove(map[1 := A, 2 := C, 3 := N], C) == {3}
  {
    Ancestry();
    Forks();
    Climbs();
    assert HeightsAbove(map[1 := A, 3 := D], A) == {3};
    assert HeightsAbove(map[1 := A, 2 := C], A) == {2};
    assert HeightsAbove(map[1 := A, 2 := C, 3 := N], C) == {3};
  }

  // ---- Steps -------------------------------------------------------------------------------------

  ghost function AdvanceTo(s: State, head: Tipset, g: nat, heights: set<nat>, active: set<Address>): (s': State)
    requires g >= 2 ==> g <= Depth(head)
    ensures Advance(s, head, g, heights, s', active)
  {
    if g <= 1 then s
    else
      State(
        RefreshTable(s.rows, active, heights, CollectParents(ApplyOf(head, g), active)),
        Stored(s.cache, ApplyOf(head, g)),
        Up(head, 1))
  }

  /** The move a head causes when its walk finds `base`. */
  lemma HeadMove(s: State, l: seq<Tipset>, head: Tipset, base: Tipset, g: nat) returns (s': State)
    requires Keyed(s.cache) && Listing(l, s.cache) && WellFormed(head) && NoRepeat(head)
    requires Found(s.cache, head, base, g)
    ensures MoveStep(s, NewHead(head, g, HeightsAbove(s.cache, base)), s', {7})
    ensures HeadStep(s, head, base, g, s', {7})
  {
    WalkExists(s.cache, l, head, base, g);
    s' := AdvanceTo(s, head, g, HeightsAbove(s.cache, base), {7});
  }

  /** A step of two or three tipsets caches the head's parent. */
  lemma StoresParent(m: Entries, head: Tipset, g: nat)
    requires 2 <= g <= 3 && g <= Depth(head) && |m| < 10
    ensures Stored(m, ApplyOf(head, g)) == m[Up(head, 1).Height() := Up(head, 1)]
  {
    var t := Up(head, 1);
    var list := StoredTipsets(ApplyOf(head, g));
    StoredAt(head, g);
    assert list == [t] && list[..0] == [];
    assert AddAll(m, list) == m[t.Height() := t];
    assert m[t.Height() := t].Keys == m.Keys + {t.Height()};
    assert |m[t.Height() := t]| == |m.Keys + {t.Height()}| <= 11;
  }

  /** The example's row is the only one, as signed at the start, with a status the follower maintains. */
  ghost predicate HasRow(s: State) {
    s.rows.Keys == {1} && SameIdentity(s.rows[1], PENDING) && Tracked(s.rows[1], {7})
  }

  /** What the examples' branches mean for the row. */
  lemma RowSpent(s: State)
    requires HasRow(s)
    ensures s.tip == D && s.cache == map[1 := A, 3 := D] ==> !AbandonedCached(s, Y, {7})
    ensures s.tip == C && s.cache == map[1 := A, 2 := C] ==> AbandonedCached(s, N, {7}) && SpentAbove(s.rows, C, A, {7})
    ensures s.tip == X ==> !NewlySpentAbove(s, D, C, {7})
  {
    Spending();
    Forks();
    assert Abandoned(s.rows[1], D, Y) && Abandoned(s.rows[1], C, A);
  }

  lemma RowStays(s: State, head: Tipset, g: nat, heights: set<nat>, s': State)
    requires HasRow(s) && Advance(s, head, g, heights, s', {7})
    ensures HasRow(s')
  {
    if g >= 2 {
      SettleTracked(s.rows[1], {7}, heights, CollectParents(ApplyOf(head, g), {7}));
    }
  }

  lemma Starts()
    ensures Good(START, {7}) && Dense(START) && HasRow(START)
    ensures HeightsAbove(START.cache, A) == {}
  {
    Branches();
    assert forall t :: OnBranch(t, A) ==> t == A || t == Genesis;
    ReplayIsFind(PENDING, A, {7});
  }

  /** A head that extends the start by `g` tipsets. */
  lemma FirstMove(head: Tipset, g: nat) returns (s: State)
    requires (head == D && g == 2) || (head == E && g == 3)
    ensures MoveStep(START, NewHead(head, g, {}), s, {7})
    ensures Good(s, {7}) && HasRow(s)
    ensures s.tip == head.parent && s.cache == map[1 := A, head.parent.Height() := head.parent]
  {
    Branches();
    Ancestry();
    Starts();
    ListOne(START.cache, A);
    Climbs();
    s := HeadMove(START, [A], head, A, g);
    ExtensionKeepsGood(START, head, A, g, s, {7});
    StoresParent(START.cache, head, g);
    RowStays(START, head, g, {}, s);
  }

  lemma TwoMoves(s0: State, m0: Move, s1: State, m1: Move, s2: State)
    requires MoveStep(s0, m0, s1, {7}) && MoveStep(s1, m1, s2, {7})
    ensures IsRun([s0, s1, s2], [m0, m1], {7})
  {
  }

  /** A run grown by one move. */
  lemma GrowRun(states: seq<State>, moves: seq<Move>, m: Move, s: State)
    requires IsRun(states, moves, {7}) && MoveStep(states[|moves|], m, s, {7})
    ensures IsRun(states + [s], moves + [m], {7})
  {
    var ss, ms := states + [s], moves + [m];
    forall k | 0 <= k < |ms|
      ensures MoveStep(ss[k], ms[k], ss[k + 1], {7})
    {
      if k < |moves| {
        assert MoveStep(states[k], moves[k], states[k + 1], {7});
      }
    }
  }

  lemma FirstRun() returns (s: State)
    ensures IsRun([START, s], [NewHead(D, 2, {})], {7})
    ensures Good(s, {7}) && HasRow(s) && s.tip == C && s.cache == map[1 := A, 2 := C]
  {
    s := FirstMove(D, 2);
    assert IsRun([START], [], {7});
    GrowRun([START], [], NewHead(D, 2, {}), s);
    assert [START] + [s] == [START, s];
    assert [] + [NewHead(D, 2, {})] == [NewHead(D, 2, {})];
  }

  // ---- A reorganisation over an uncached tipset ----------------------------------------------------

  /** From a dense, agreeing state a step that skips one tipset is itself harmless, but leaves the skipped
      tipset uncached; the reorganisation that follows then leaves the row on chain although its tipset is
      abandoned. */
  lemma HoleBreaksReorg() returns (states: seq<State>, moves: seq<Move>)
    ensures IsRun(states, moves, {7}) && |moves| == 2
    ensures Good(states[0], {7}) && Dense(states[0])
    ensures Good(states[1], {7})
    ensures states[2].tip == Y && !Agrees(states[2].rows, Y, {7})
  {
    Starts();
    Branches();
    var s1 := FirstMove(E, 3);
    Bases();
    ListTwo(s1.cache, D, A);
    var s2 := HeadMove(s1, [D, A], Z, A, 3);
    GoodStepTable(s1, Z, A, 3, s2, {7});
    RowSpent(s1);
    TwoMoves(START, NewHead(E, 3, {}), s1, NewHead(Z, 3, {3}), s2);
    states, moves := [START, s1, s2], [NewHead(E, 3, {}), NewHead(Z, 3, {3})];
  }

  // ---- A head beside the tip -----------------------------------------------------------------------

  lemma BesideMove(states: seq<State>, moves: seq<Move>, s1: State) returns (s2: State)
    requires IsRun(states, moves, {7}) && states[|moves|] == s1
    requires Good(s1, {7}) && HasRow(s1) && s1.tip == C && s1.cache == map[1 := A, 2 := C]
    ensures IsRun(states + [s2], moves + [NewHead(X, 1, {2})], {7})
    ensures s2 == s1 && !Agrees(s2.rows, A, {7})
  {
    Bases();
    Branches();
    ListTwo(s1.cache, C, A);
    s2 := HeadMove(s1, [C, A], X, A, 1);
    GrowRun(states, moves, NewHead(X, 1, {2}), s2);
    SkippedRevert(s1, X, A, s2, {7});
    RowSpent(s1);
  }

  /** A head with the parent of the tip as its parent reverts nothing: the row stays on chain although the new
      branch does not include its message. */
  lemma BesideTipStays() returns (states: seq<State>, moves: seq<Move>)
    ensures IsRun(states, moves, {7}) && |moves| == 2
    ensures Good(states[0], {7}) && Good(states[1], {7})
    ensures moves[1].NewHead? && moves[1].head == X && states[2] == states[1]
    ensures !Agrees(states[2].rows, X.parent, {7})
  {
    Starts();
    var s1 := FirstRun();
    states, moves := [START, s1], [NewHead(D, 2, {})];
    var s2 := BesideMove(states, moves, s1);
    states, moves := states + [s2], moves + [NewHead(X, 1, {2})];
  }

  // ---- A stale entry ---------------------------------------------------------------------------------

  lemma StaleCache(s: State)
    requires s.tip == N && s.cache == map[1 := A, 2 := C, 3 := N]
    ensures !Good(s, {7})
  {
    Forks();
    assert s.cache[2] == C;
  }

  /** The reorganisation over the null round: the table is right, the abandoned C stays cached. */
  lemma NullRoundMove(states: seq<State>, moves: seq<Move>, s1: State) returns (s2: State)
    requires IsRun(states, moves, {7}) && states[|moves|] == s1
    requires Good(s1, {7}) && HasRow(s1) && s1.tip == C && s1.cache == map[1 := A, 2 := C]
    ensures IsRun(states + [s2], moves + [NewHead(O, 2, {2})], {7})
    ensures TableOk(s2.rows) && HasRow(s2) && s2.tip == N && s2.cache == map[1 := A, 2 := C, 3 := N]
    ensures Agrees(s2.rows, N, {7}) && !Good(s2, {7})
  {
    Branches();
    Bases();
    ListTwo(s1.cache, C, A);
    s2 := HeadMove(s1, [C, A], O, A, 2);
    GrowRun(states, moves, NewHead(O, 2, {2}), s2);
    StoresParent(s1.cache, O, 2);
    RowStays(s1, O, 2, {2}, s2);
    Climbs();
    NullRoundTable(s1, s2);
    StaleCache(s2);
  }

  lemma NullRoundTable(s1: State, s2: State)
    requires Good(s1, {7}) && HasRow(s1) && s1.tip == C && s1.cache == map[1 := A, 2 := C]
    requires HeadStep(s1, O, A, 2, s2, {7})
    ensures s2.tip == N && TableOk(s2.rows) && Agrees(s2.rows, N, {7})
  {
    Branches();
    RowSpent(s1);
    Climbs();
    GoodStepTable(s1, O, A, 2, s2, {7});
  }

  /** Going back to the branch of the stale C: the walk stops on it, and its messages are not applied again. */
  lemma StaleMove(states: seq<State>, moves: seq<Move>, s2: State) returns (s3: State)
    requires IsRun(states, moves, {7}) && states[|moves|] == s2
    requires TableOk(s2.rows) && HasRow(s2) && s2.tip == N && s2.cache == map[1 := A, 2 := C, 3 := N]
    requires Agrees(s2.rows, N, {7})
    ensures IsRun(states + [s3], moves + [NewHead(E, 2, {3})], {7})
    ensures s3.tip == D && !Agrees(s3.rows, D, {7})
  {
    Branches();
    Bases();
    ListThree(s2.cache, N, C, A);
    s3 := HeadMove(s2, [N, C, A], E, C, 2);
    GrowRun(states, moves, NewHead(E, 2, {3}), s3);
    StaleTable(s2, s3);
  }

  lemma StaleTable(s2: State, s3: State)
    requires TableOk(s2.rows) && HasRow(s2) && s2.tip == N && Agrees(s2.rows, N, {7})
    requires Advance(s2, E, 2, {3}, s3, {7}) && Up(E, 2) == C
    ensures s3.tip == D && !Agrees(s3.rows, D, {7})
  {
    Branches();
    Ancestry();
    Spending();
    Forks();
    Climbs();
    assert WellFormed(N);
    NoRepeatDown(N, O);
    AdvanceTable(s2, E, 2, {3}, s3, {7});
    assert !RowStepOk(s2.rows[1], N, D, C, {3});
  }

  /** A reorganisation over a null round leaves the abandoned tipset cached; when the chain returns to it, the
      walk stops there and the row stays pending although the branch includes its message. */
  lemma StaleEntryLosesRow() returns (states: seq<State>, moves: seq<Move>)
    ensures IsRun(states, moves, {7}) && |moves| == 3
    ensures Good(states[0], {7}) && Good(states[1], {7})
    ensures Agrees(states[2].rows, states[2].tip, {7}) && !Good(states[2], {7})
    ensures states[3].tip == D && !Agrees(states[3].rows, D, {7})
  {
    Starts();
    var s1 := FirstRun();
    states, moves := [START, s1], [NewHead(D, 2, {})];
    var s2 := NullRoundMove(states, moves, s1);
    states, moves := states + [s2], moves + [NewHead(O, 2, {2})];
    var s3 := StaleMove(states, moves, s2);
    states, moves := states + [s3], moves + [NewHead(E, 2, {3})];
  }

  // ---- The first batch --------------------------------------------------------------------------------

  ghost function FirstTo(s: State, apply: seq<Tipset>): (s': State)
    requires |apply| > 0 && (forall t :: t in apply ==> t.Child?) && s.cache == map[]
    ensures FirstStep(s, apply, s', {7})
  {
    State(
      RefreshTable(s.rows, {7}, {}, CollectParents(apply, {7})), Stored(map[], apply), apply[|apply| - 1].parent)
  }

  lemma EmptyAgrees()
    ensures TableOk(EMPTY.rows) && Agrees(EMPTY.rows, A, {7}) && Agrees(EMPTY.rows, Genesis, {7})
  {
    Spending();
    assert NoRepeat(A) && NoRepeat(Genesis) by {
      Branches();
      assert NoRepeat(Genesis);
    }
    ReplayIsFind(PENDING, A, {7});
    ReplayIsFind(PENDING, Genesis, {7});
  }

  lemma FirstRowStays(s: State, apply: seq<Tipset>, s': State)
    requires HasRow(s) && FirstStep(s, apply, s', {7})
    ensures HasRow(s')
  {
    SettleTracked(s.rows[1], {7}, {}, CollectParents(apply, {7}));
  }

  lemma BatchOfTwo() returns (s1: State)
    ensures FirstStep(EMPTY, [X, P], s1, {7}) && HasRow(s1) && Lost(s1, P, {7})
    ensures s1.tip == X && s1.cache == map[3 := P]
  {
    Branches();
    Ancestry();
    EmptyAgrees();
    var apply := [X, P];
    BranchHeight(X, R);
    BranchHeight(P, R);
    NoRepeatDown(P, R);
    s1 := FirstTo(EMPTY, apply);
    FirstRowStays(EMPTY, apply, s1);
    FirstBatchLost(EMPTY, apply, s1, {7});
    assert StoredTipsets(apply) == [P] && [P][..0] == [];
    assert AddAll(map[], [P]) == map[3 := P];
  }

  /** After a first batch of two tipsets the next head leaves the row pending although the newest tipset of that
      batch, now two steps behind, includes its message. */
  lemma FirstBatchLosesRow() returns (s1: State, s2: State, m: Move)
    ensures FirstStep(EMPTY, [X, P], s1, {7}) && MoveStep(s1, m, s2, {7})
    ensures Agrees(EMPTY.rows, Genesis, {7})
    ensures s2.tip == Q && OnBranch(P, Q) && !Agrees(s2.rows, Q, {7})
  {
    Ancestry();
    EmptyAgrees();
    s1 := BatchOfTwo();
    s2 := LostMove(s1);
    m := NewHead(R, 2, {});
  }

  lemma LostMove(s1: State) returns (s2: State)
    requires HasRow(s1) && Lost(s1, P, {7}) && s1.tip == X && s1.cache == map[3 := P]
    ensures MoveStep(s1, NewHead(R, 2, {}), s2, {7}) && s2.tip == Q && !Agrees(s2.rows, Q, {7})
  {
    Branches();
    Ancestry();
    ListOne(s1.cache, P);
    Climbs();
    assert HeightsAbove(s1.cache, P) == {};
    s2 := HeadMove(s1, [P], R, P, 2);
    RowStays(s1, R, 2, {}, s2);
    LostForGood([s1, s2], [NewHead(R, 2, {})], P, {7}, 1);
    assert LostIn(s2.rows[1], P);
  }

  // ---- A head without a cached ancestor --------------------------------------------------------------

  lemma BatchOfOne() returns (s1: State)
    ensures FirstStep(EMPTY, [Y], s1, {7}) && HasRow(s1) && Good(s1, {7})
    ensures s1.tip == X && s1.cache == map[2 := X]
  {
    Branches();
    Ancestry();
    EmptyAgrees();
    BranchHeight(Y, Z);
    NoRepeatDown(X, Z);
    s1 := FirstTo(EMPTY, [Y]);
    FirstRowStays(EMPTY, [Y], s1);
    FirstBatchOfOne(EMPTY, [Y], s1, {7});
    assert StoredTipsets([Y]) == [X] && [X][..0] == [];
    assert AddAll(map[], [X]) == map[2 := X];
  }

  lemma SiblingExhausts(m: Entries)
    requires m == map[2 := X]
    ensures Exhausted(m, E, 2) && m.Keys == {2} && Up(E, 2) == C
  {
    Forks();
    Climbs();
    assert |m| == 1;
  }

  /** With one cached tipset, a head that descends from a sibling of it reverts the cached height and applies
      only what lies above the sibling: the row stays pending although the sibling includes its message. */
  lemma SiblingLosesRow() returns (s1: State, s2: State, m: Move)
    ensures FirstStep(EMPTY, [Y], s1, {7}) && Good(s1, {7}) && MoveStep(s1, m, s2, {7})
    ensures s2.tip == D && OnBranch(C, D) && !Agrees(s2.rows, D, {7})
  {
    s1 := BatchOfOne();
    s2 := SiblingMove(s1);
    m := NewHead(E, 2, {2});
    Ancestry();
  }

  lemma SiblingMove(s1: State) returns (s2: State)
    requires Good(s1, {7}) && HasRow(s1) && s1.tip == X && s1.cache == map[2 := X]
    ensures MoveStep(s1, NewHead(E, 2, {2}), s2, {7}) && s2.tip == D && !Agrees(s2.rows, D, {7})
  {
    Branches();
    SiblingExhausts(s1.cache);
    ListOne(s1.cache, X);
    ExhaustedWalk([X], s1.cache, E, 2);
    assert [X][..1] == [X];
    assert IsWalk(s1.cache, E, 2, {2});
    s2 := AdvanceTo(s1, E, 2, {2}, {7});
    ExhaustedExact(s1, E, 2, s2, {7});
    RowSpent(s1);
  }

  // ---- A recovered row -------------------------------------------------------------------------------

  lemma LandedRow(s: State)
    requires Good(s, {7}) && HasRow(s) && s.tip == C
    ensures s.rows[1].height == 2
  {
    Spending();
    assert RowAgrees(s.rows[1], C, {7});
    ReplayIsFind(s.rows[1], C, {7});
  }

  lemma BadMove(states: seq<State>, moves: seq<Move>, s: State) returns (s': State)
    requires IsRun(states, moves, {7}) && states[|moves|] == s
    requires Good(s, {7}) && HasRow(s) && s.tip == C
    ensures IsRun(states + [s'], moves + [MarkedBad(1)], {7}) && Good(s', {7})
    ensures s'.tip == C && s'.cache == s.cache && BadRow(s')
  {
    LandedRow(s);
    s' := s.(rows := s.rows[1 := s.rows[1].(state := Failed)]);
    GrowRun(states, moves, MarkedBad(1), s');
    UntrackedKeepsGood(s, MarkedBad(1), s', {7});
  }

  /** The only row is marked bad, with the height it landed at. */
  ghost predicate BadRow(s: State) {
    s.rows.Keys == {1} && s.rows[1].state == Failed && SameIdentity(s.rows[1], PENDING) && s.rows[1].height == 2
  }

  lemma RecoverMove(states: seq<State>, moves: seq<Move>, s: State) returns (s': State)
    requires IsRun(states, moves, {7}) && states[|moves|] == s
    requires Good(s, {7}) && s.tip == X && BadRow(s)
    ensures IsRun(states + [s'], moves + [Recovered(7, 0)], {7}) && !Good(s', {7})
    ensures s'.tip == X && Find(X, 7, 0).None?
    ensures 1 in s'.rows && s'.rows[1].state == Fill && s'.rows[1].height == 2
  {
    Spending();
    s' := s.(rows := RecoverRows(s.rows, 7, 0));
    assert Recovers(s.rows[1], 7, 0);
    GrowRun(states, moves, Recovered(7, 0), s');
    RecoveredExact(s, 7, 0, s', {7});
  }

  /** The branch is switched one for one while the only row is marked bad. */
  lemma SwitchMove(states: seq<State>, moves: seq<Move>, s: State) returns (s': State)
    requires IsRun(states, moves, {7}) && states[|moves|] == s
    requires Good(s, {7}) && s.tip == C && s.cache == map[1 := A, 2 := C] && BadRow(s)
    ensures IsRun(states + [s'], moves + [NewHead(Y, 2, {2})], {7})
    ensures Good(s', {7}) && s'.tip == X && s'.rows == s.rows
  {
    Bases();
    Branches();
    ListTwo(s.cache, C, A);
    s' := HeadMove(s, [C, A], Y, A, 2);
    GrowRun(states, moves, NewHead(Y, 2, {2}), s');
    SwitchKeeps(s, s');
  }

  lemma SwitchKeeps(s: State, s': State)
    requires Good(s, {7}) && s.tip == C && s.cache == map[1 := A, 2 := C] && BadRow(s)
    requires HeadStep(s, Y, A, 2, s', {7}) && WellFormed(Y) && NoRepeat(Y) && HeightsAbove(s.cache, A) == {2}
    ensures Good(s', {7}) && s'.tip == X && s'.rows == s.rows
  {
    Climbs();
    assert AbandonedCached(s, X, {7});
    assert X in StoredTipsets(ApplyOf(Y, 2));
    assert Reoccupied(s.cache, ApplyOf(Y, 2), A);
    StepExact(s, Y, A, 2, s', {7});
    UntrackedUntouched(s.rows[1], {7}, {2}, ApplyOf(Y, 2));
    assert s'.rows == s.rows;
  }

  /** A row marked bad while on chain is not reverted with its tipset; recovered afterwards, it is pending with
      the height it had landed at, although its nonce is unspent again. */
  lemma RecoveredKeepsHeight() returns (states: seq<State>, moves: seq<Move>)
    ensures IsRun(states, moves, {7}) && |moves| == 4 && moves[3] == Recovered(7, 0)
    ensures forall k :: 0 <= k <= 3 ==> Good(states[k], {7})
    ensures Find(states[4].tip, 7, 0).None?
    ensures 1 in states[4].rows && states[4].rows[1].state == Fill && states[4].rows[1].height == 2
    ensures !Good(states[4], {7})
  {
    Starts();
    var s1 := FirstRun();
    states, moves := [START, s1], [NewHead(D, 2, {})];
    var s2 := BadMove(states, moves, s1);
    states, moves := states + [s2], moves + [MarkedBad(1)];
    var s3 := SwitchMove(states, moves, s2);
    states, moves := states + [s3], moves + [NewHead(Y, 2, {2})];
    var s4 := RecoverMove(states, moves, s3);
    states, moves := states + [s4], moves + [Recovered(7, 0)];
  }
}
