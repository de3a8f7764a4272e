/** The allocator and the follower as one system on one table: every run of the allocator whose state refreshes are
    steps of the follower. */
module JointRuns {
  import opened Messages
  import opened Chain
  import opened MessageTable
  import opened Replay
  import opened TipsetCaches
  import opened Follower
  import opened Selection
  import opened NonceSystem
  import opened NonceRuns
  import opened NonceExact
  import opened Composition
  import Heads = FollowerRuns

  /** The follower's side of a state. */
  datatype View = View(cache: Entries, tip: Tipset)

  function At(s: Sys, v: View): State {
    State(s.data.rows, v.cache, v.tip)
  }

  /** A refresh is the step a new head causes; every other event leaves cache and tip alone. */
  ghost predicate JointStep(s: Sys, v: View, e: Event, m: Heads.Move, s': Sys, v': View, active: set<Address>) {
    if e.Refresh? then m.NewHead? && Heads.MoveStep(At(s, v), m, At(s', v'), active) else v' == v
  }

  /** States and events of the allocator, with the follower's side of every state and the move of every refresh. */
  datatype Joint = Joint(states: seq<Sys>, events: seq<Event>, views: seq<View>, moves: seq<Heads.Move>) {
    predicate Shaped() {
      |states| == |events| + 1 == |views| && |moves| == |events|
    }

    /** What the follower sees of the `k`-th state. */
    function Seen(k: nat): State
      requires Shaped() && k <= |events|
    {
      At(states[k], views[k])
    }
  }

  ghost predicate StepAt(r: Joint, active: set<Address>, k: nat)
    requires r.Shaped() && k < |r.events|
  {
    JointStep(r.states[k], r.views[k], r.events[k], r.moves[k], r.states[k + 1], r.views[k + 1], active)
  }

  ghost predicate IsJointRun(r: Joint, active: set<Address>) {
    && r.Shaped() && IsRun(r.states, r.events) && Good(r.Seen(0), active)
    && forall k: nat :: k < |r.events| ==> StepAt(r, active, k)
  }

  /** The condition under which an event keeps the table in agreement with the chain, readable off the state before
      it: a head must be safe, a commit must hand out unspent nonces, and a recovery must be safe. */
  ghost predicate EventSafe(s: Sys, v: View, e: Event, m: Heads.Move, active: set<Address>)
    requires Enabled(s, e)
  {
    match e
    case Refresh(_, _, _) => Heads.Safe(At(s, v), m, active)
    case Commit(t) =>
      t.addr in active ==> Unspent(v.tip, t.addr, s.ctl.tasks[t].phase.base, |s.ctl.tasks[t].phase.picks|)
    case Recover(addr, actorNonce) =>
      addr in active && actorNonce <= s.data.stored[addr] ==> Heads.RecoverSafe(At(s, v), addr, actorNonce)
    case _ => true
  }

  /** Nonces are safe, and the follower is right after the event. */
  ghost predicate Right(s: Sys, v: View, e: Event, m: Heads.Move, active: set<Address>) {
    SafeAt(s) && if e.Refresh? then Heads.RightAfter(At(s, v), m, active) else Good(At(s, v), active)
  }

  // ---- Writes that are not heads -----------------------------------------------------------------------------

  lemma GoodRows(s: State, rows': Table, active: set<Address>)
    requires Good(s, active) && TableOk(rows')
    ensures Good(s.(rows := rows'), active) <==> Agrees(rows', s.tip, active)
  {
  }

  lemma ClearAgrees(rows: Table, addr: Address, tip: Tipset, active: set<Address>)
    requires Agrees(rows, tip, active)
    ensures Agrees(ClearRows(rows, addr), tip, active)
  {
    forall i | i in rows
      ensures RowAgrees(ClearRows(rows, addr)[i], tip, active)
    {
      assert RowAgrees(rows[i], tip, active);
    }
  }

  /** A replacement keeps sender, nonce, state and height. */
  lemma ReplaceAgrees(r: Row, gasFeeCap: nat, gasPremium: nat, sig: Signature, tip: Tipset, active: set<Address>)
    requires NoRepeat(tip) && r.state == Fill && RowAgrees(r, tip, active) && RowOk(r)
    ensures RowAgrees(ReplacedRow(r, gasFeeCap, gasPremium, sig), tip, active)
  {
    if r.msg.from in active {
      ReplayIsFind(r, tip, active);
      FilledAgrees(ReplacedRow(r, gasFeeCap, gasPremium, sig), tip, active);
    }
  }

  /** Picks of an address the follower does not track leave the agreement alone. */
  lemma InactiveAgrees(
    rows: Table, rows': Table, tip: Tipset, active: set<Address>, addr: Address, base: nat, picks: seq<Choice>)
    requires NoRepeat(tip) && RowsOk(rows) && Agrees(rows, tip, active) && addr !in active
    requires PendingPicks(rows, addr, base, picks) && CommittedRows(rows, rows', picks)
    ensures Agrees(rows', tip, active)
  {
    forall i | i in rows'
      ensures RowAgrees(rows'[i], tip, active)
    {
      CommitNonce(rows, rows', addr, base, picks, i);
      if !PickedId(picks, i) {
        assert RowAgrees(rows[i], tip, active);
        ErrorApart(rows[i], rows'[i], tip, active);
      }
    }
  }

  lemma CommitJoint(s: Sys, v: View, t: TaskId, active: set<Address>)
    requires Sound(s) && Flat(s) && Enabled(s, Commit(t)) && Good(At(s, v), active)
    ensures var p := s.ctl.tasks[t].phase;
            Agrees(Step(s, Commit(t)).data.rows, v.tip, active) <==>
            (t.addr in active ==> Unspent(v.tip, t.addr, p.base, |p.picks|))
  {
    var p, rows, rows' := s.ctl.tasks[t].phase, s.data.rows, Step(s, Commit(t)).data.rows;
    CommitRows(rows, t.addr, p.base, p.picks, p.errs);
    if t.addr in active {
      CommitAgrees(rows, rows', v.tip, active, t.addr, p.base, p.picks);
    } else {
      InactiveAgrees(rows, rows', v.tip, active, t.addr, p.base, p.picks);
    }
  }

  lemma ReplaceJoint(s: Sys, v: View, e: Event, active: set<Address>)
    requires e.Replace? && Enabled(s, e) && Good(At(s, v), active)
    ensures Agrees(Step(s, e).data.rows, v.tip, active)
  {
    var rows, rows' := s.data.rows, Step(s, e).data.rows;
    forall i | i in rows'
      ensures RowAgrees(rows'[i], v.tip, active)
    {
      assert RowAgrees(rows[i], v.tip, active);
      if i == e.id {
        ReplaceAgrees(rows[i], e.gasFeeCap, e.gasPremium, e.sig, v.tip, active);
      }
    }
  }

  /** Pushes, bad marks and recoveries are moves of the follower's runs. */
  lemma MoveJoint(s: Sys, v: View, e: Event, active: set<Address>)
    requires (e.Push? || e.MarkBad? || e.Recover?) && Enabled(s, e) && Good(At(s, v), active)
    ensures Good(At(Step(s, e), v), active) <==> EventSafe(s, v, e, Heads.MarkedBad(0), active)
  {
    var here, there := At(s, v), At(Step(s, e), v);
    match e
    case Push(id, msg) => Heads.UntrackedKeepsGood(here, Heads.Pushed(id, PushedRow(msg)), there, active);
    case MarkBad(id) => Heads.UntrackedKeepsGood(here, Heads.MarkedBad(id), there, active);
    case Recover(addr, actorNonce) =>
      if actorNonce <= s.data.stored[addr] {
        Heads.RecoveredExact(here, addr, actorNonce, there, active);
      }
  }

  lemma RowsStay(s: Sys, e: Event)
    requires Enabled(s, e) && !DataEvent(e) && !e.Commit?
    ensures Step(s, e).data.rows == s.data.rows
  {
  }

  lemma WriteExact(s: Sys, v: View, e: Event, m: Heads.Move, active: set<Address>)
    requires Sound(s) && Flat(s) && Enabled(s, e) && !e.Refresh? && Good(At(s, v), active)
    requires TableOk(Step(s, e).data.rows)
    ensures Good(At(Step(s, e), v), active) <==> EventSafe(s, v, e, m, active)
  {
    GoodRows(At(s, v), Step(s, e).data.rows, active);
    if e.Push? || e.MarkBad? || e.Recover? {
      MoveJoint(s, v, e, active);
    } else if e.Commit? {
      CommitJoint(s, v, e.task, active);
    } else if e.Replace? {
      ReplaceJoint(s, v, e, active);
    } else if e.Clear? {
      ClearAgrees(s.data.rows, e.addr, v.tip, active);
    } else if !e.Republish? {
      RowsStay(s, e);
    }
  }

  // ---- Steps and runs ------------------------------------------------------------------------------------------

  /** The `k`-th event writes nonces above the signed rows and is safe for the follower. */
  ghost predicate Condition(r: Joint, active: set<Address>, k: nat)
    requires r.Shaped() && k < |r.events|
  {
    WritesAboveAt(r.states, r.events, k) && EventSafe(r.states[k], r.views[k], r.events[k], r.moves[k], active)
  }

  /** The state before the `k`-th event is right: the first one, or one that the event before left right. */
  ghost predicate RightBefore(r: Joint, active: set<Address>, k: nat)
    requires r.Shaped() && k <= |r.events|
  {
    k == 0 || Right(r.states[k], r.views[k], r.events[k - 1], r.moves[k - 1], active)
  }

  lemma JointNext(r: Joint, active: set<Address>, k: nat)
    requires IsJointRun(r, active) && k < |r.events| && SafeAt(r.states[k]) && Good(r.Seen(k), active)
    ensures Right(r.states[k + 1], r.views[k + 1], r.events[k], r.moves[k], active) <==> Condition(r, active, k)
  {
    var s, e, v := r.states[k], r.events[k], r.views[k];
    assert Next(s, e, r.states[k + 1]);
    assert StepAt(r, active, k);
    NextExact(r.states, r.events, k);
    if WritesAboveAt(r.states, r.events, k) {
      RunSound(r.states, r.events, k);
      RunSound(r.states, r.events, k + 1);
      RunFlat(r.states, r.events, k);
      if e.Refresh? {
        Heads.MoveExact(At(s, v), r.moves[k], At(r.states[k + 1], r.views[k + 1]), active);
      } else {
        WriteExact(s, v, e, r.moves[k], active);
      }
    }
  }

  lemma RightStep(r: Joint, active: set<Address>, k: nat)
    requires IsJointRun(r, active) && k < |r.events| && RightBefore(r, active, k)
    ensures RightBefore(r, active, k + 1) <==> Condition(r, active, k)
  {
    InitSafe();
    JointNext(r, active, k);
  }

  lemma RightNext(r: Joint, active: set<Address>, k: nat, n: nat)
    requires IsJointRun(r, active) && k < |r.events| && n == k + 1
    requires RightBefore(r, active, k) && Condition(r, active, k)
    ensures RightBefore(r, active, n)
  {
    RightStep(r, active, k);
  }

  lemma {:induction false} RightUpTo(r: Joint, active: set<Address>, n: nat)
    requires IsJointRun(r, active) && n <= |r.events|
    requires forall k: nat :: k < |r.events| ==> Condition(r, active, k)
    ensures RightBefore(r, active, n)
  {
    if n > 0 {
      RightUpTo(r, active, n - 1);
      RightNext(r, active, n - 1, n);
    }
  }

  /** Both components over every joint run: after every event nonces are unique and below the stored nonce, the table
      agrees with the chain and the cache lies on it, if and only if every nonce is written above the signed rows of
      its address and every head, commit and recovery is safe where it happens. No uniqueness is assumed. */
  lemma JointExact(r: Joint, active: set<Address>)
    requires IsJointRun(r, active)
    ensures (forall k: nat :: k <= |r.events| ==> RightBefore(r, active, k)) <==>
            (forall k: nat :: k < |r.events| ==> Condition(r, active, k))
  {
    if forall k: nat :: k < |r.events| ==> Condition(r, active, k) {
      forall k: nat | k <= |r.events|
        ensures RightBefore(r, active, k)
      {
        RightUpTo(r, active, k);
      }
    }
    if forall k: nat :: k <= |r.events| ==> RightBefore(r, active, k) {
      forall k: nat | k < |r.events|
        ensures Condition(r, active, k)
      {
        RightStep(r, active, k);
      }
    }
  }
}
