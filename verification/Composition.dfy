/** The allocator and the follower on one table: what a commit means for the agreement with the chain. */
module Composition {
  import opened Messages
  import opened Chain
  import opened MessageTable
  import opened Replay
  import opened Follower
  import opened TipsetCaches
  import opened Selection
  import opened NonceSystem
  import opened NonceRuns
  import opened NonceExact

  /** The picks are filled rows that carry no height yet. */
  ghost predicate FlatPicks(picks: seq<Choice>) {
    forall j :: 0 <= j < |picks| ==> picks[j].row.state == Fill && picks[j].row.height == 0
  }

  // ---- One commit ----------------------------------------------------------------------------------------

  /** The error column plays no part in the agreement. */
  lemma ErrorApart(r: Row, r': Row, t: Tipset, active: set<Address>)
    requires NoRepeat(t) && r' == r.(errorMsg := r'.errorMsg) && RowOk(r)
    ensures RowAgrees(r', t, active) <==> RowAgrees(r, t, active)
  {
    if Tracked(r, active) {
      ReplayIsFind(r, t, active);
      ReplayIsFind(r', t, active);
    }
  }

  lemma FilledAgrees(r: Row, t: Tipset, active: set<Address>)
    requires NoRepeat(t) && r.state == Fill && r.height == 0 && r.msg.from in active && RowOk(r)
    ensures RowAgrees(r, t, active) <==> Find(t, r.msg.from, r.msg.nonce).None?
  {
    ReplayIsFind(r, t, active);
  }

  /** None of the nonces from `base` on is spent on the branch. */
  ghost predicate Unspent(t: Tipset, addr: Address, base: nat, n: nat) {
    forall nonce :: base <= nonce < base + n ==> Find(t, addr, nonce).None?
  }

  lemma CommitAgrees(
    rows: Table, rows': Table, t: Tipset, active: set<Address>, addr: Address, base: nat, picks: seq<Choice>)
    requires NoRepeat(t) && RowsOk(rows) && Agrees(rows, t, active) && addr in active
    requires PendingPicks(rows, addr, base, picks) && FlatPicks(picks) && CommittedRows(rows, rows', picks)
    ensures Agrees(rows', t, active) <==> Unspent(t, addr, base, |picks|)
  {
    forall i | i in rows' && !PickedId(picks, i)
      ensures RowAgrees(rows'[i], t, active)
    {
      assert RowAgrees(rows[i], t, active);
      ErrorApart(rows[i], rows'[i], t, active);
    }
    forall j | 0 <= j < |picks|
      ensures picks[j].id in rows'
      ensures RowAgrees(rows'[picks[j].id], t, active) <==> Find(t, addr, base + j).None?
    {
      ErrorApart(picks[j].row, rows'[picks[j].id], t, active);
      FilledAgrees(picks[j].row, t, active);
    }
    PicksDecide(rows', t, active, addr, base, picks);
  }

  lemma PicksDecide(rows': Table, t: Tipset, active: set<Address>, addr: Address, base: nat, picks: seq<Choice>)
    requires forall i :: i in rows' && !PickedId(picks, i) ==> RowAgrees(rows'[i], t, active)
    requires forall j :: 0 <= j < |picks| ==>
               picks[j].id in rows' && (RowAgrees(rows'[picks[j].id], t, active) <==> Find(t, addr, base + j).None?)
    ensures Agrees(rows', t, active) <==> Unspent(t, addr, base, |picks|)
  {
    if Agrees(rows', t, active) {
      forall nonce | base <= nonce < base + |picks|
        ensures Find(t, addr, nonce).None?
      {
        var j := nonce - base;
        assert RowAgrees(rows'[picks[j].id], t, active);
      }
    }
    if Unspent(t, addr, base, |picks|) {
      forall i | i in rows'
        ensures RowAgrees(rows'[i], t, active)
      {
        if PickedId(picks, i) {
          var j :| 0 <= j < |picks| && picks[j].id == i;
          assert Find(t, addr, base + j).None?;
        }
      }
    }
  }

  /** A nonce at or above every one the sender has spent on the branch is unspent. */
  lemma AboveChainUnspent(t: Tipset, addr: Address, chain: nat, base: nat, n: nat)
    requires SpentBelow(t, addr, chain) && chain <= base
    ensures Unspent(t, addr, base, n)
  {
    forall nonce | base <= nonce < base + n
      ensures Find(t, addr, nonce).None?
    {
      FindSound(t, addr, nonce);
    }
  }

  /** The branch has spent only nonces of the sender below `chain`. */
  ghost predicate SpentBelow(t: Tipset, addr: Address, chain: nat) {
    forall a, x :: OnBranch(a, t) && x in a.Msgs() && x.signed.msg.from == addr ==> x.signed.msg.nonce < chain
  }

  // ---- Commits of a run ----------------------------------------------------------------------------------

  /** Pending rows carry no height, and neither do the picks of a selection. */
  ghost predicate Flat(s: Sys) {
    && (forall i :: i in s.data.rows && s.data.rows[i].state == UnFill ==> s.data.rows[i].height == 0)
    && (forall t :: t in s.ctl.tasks && s.ctl.tasks[t].phase.Selected? ==> FlatPicks(s.ctl.tasks[t].phase.picks))
  }

  lemma {:induction false} SettleUnfilled(r: Row, ams: seq<ApplyMessage>)
    ensures Settle(r, ams).state == UnFill ==> Settle(r, ams) == r
  {
    if ams != [] {
      SettleUnfilled(r, ams[..|ams| - 1]);
    }
  }

  /** Rows that are pending after an event were pending before it with the same height, or were pushed by it. */
  lemma PendingFrom(s: Sys, e: Event, i: MessageId)
    requires Enabled(s, e) && !e.Commit? && i in Step(s, e).data.rows && Step(s, e).data.rows[i].state == UnFill
    ensures Step(s, e).data.rows[i].height == 0
            || (i in s.data.rows && s.data.rows[i].state == UnFill && s.data.rows[i].height == Step(s, e).data.rows[i].height)
  {
    match e
    case Refresh(active, heights, ams) => SettleUnfilled(Unwind(s.data.rows[i], active, heights), ams);
    case _ =>
  }

  lemma CommitFlat(s: Sys, t: TaskId)
    requires Sound(s) && Flat(s) && Enabled(s, Commit(t))
    ensures Flat(Step(s, Commit(t)))
  {
    var p := s.ctl.tasks[t].phase;
    var rows, rows' := s.data.rows, Step(s, Commit(t)).data.rows;
    CommitRows(rows, t.addr, p.base, p.picks, p.errs);
    forall i | i in rows' && rows'[i].state == UnFill
      ensures rows'[i].height == 0
    {
      if PickedId(p.picks, i) {
        assert false;
      }
    }
  }

  /** A selection is in its picking phase after an event because it was before, or because it has just picked. */
  lemma SelectedFrom(s: Sys, e: Event, t: TaskId)
    requires IdsOk(s.ctl) && Enabled(s, e) && t in Step(s, e).ctl.tasks && Step(s, e).ctl.tasks[t].phase.Selected?
    ensures || (t in s.ctl.tasks && s.ctl.tasks[t] == Step(s, e).ctl.tasks[t])
            || (e.Pick? && e.task == t && Step(s, e).ctl.tasks[t].phase.picks == e.newPicks)
  {
    if e.Dispatch? {
      DispatchTasks(s.ctl, e.batch, t);
    }
  }

  lemma PickFlat(s: Sys, e: Event)
    requires Flat(s) && e.Pick? && Enabled(s, e)
    ensures FlatPicks(e.newPicks)
  {
  }

  lemma StepFlat(s: Sys, e: Event)
    requires Sound(s) && Flat(s) && Enabled(s, e)
    ensures Flat(Step(s, e))
  {
    if e.Commit? {
      CommitFlat(s, e.task);
    } else {
      forall i | i in Step(s, e).data.rows && Step(s, e).data.rows[i].state == UnFill
        ensures Step(s, e).data.rows[i].height == 0
      {
        PendingFrom(s, e, i);
      }
      forall t | t in Step(s, e).ctl.tasks && Step(s, e).ctl.tasks[t].phase.Selected?
        ensures FlatPicks(Step(s, e).ctl.tasks[t].phase.picks)
      {
        SelectedFrom(s, e, t);
        if e.Pick? {
          PickFlat(s, e);
        }
      }
    }
  }

  lemma {:induction false} RunFlat(states: seq<Sys>, events: seq<Event>, k: nat)
    requires IsRun(states, events) && k <= |events|
    ensures Flat(states[k])
  {
    if k > 0 {
      RunFlat(states, events, k - 1);
      RunSound(states, events, k - 1);
      assert Next(states[k - 1], events[k - 1], states[k]);
      StepFlat(states[k - 1], events[k - 1]);
    }
  }

  /** The allocator's commits in the follower's terms: in every run, a commit from a base above all signed rows of
      its address keeps a right table right exactly when no nonce it hands out is spent on the branch. */
  lemma CommitIsSafe(states: seq<Sys>, events: seq<Event>, k: nat, cache: Entries, tip: Tipset, active: set<Address>)
    requires IsRun(states, events) && k < |events| && events[k].Commit? && SafeAt(states[k])
    requires WritesAboveAt(states, events, k)
    requires events[k].task.addr in active && Good(State(states[k].data.rows, cache, tip), active)
    ensures Good(State(states[k + 1].data.rows, cache, tip), active) <==>
            Unspent(tip, events[k].task.addr, states[k].ctl.tasks[events[k].task].phase.base,
                    |states[k].ctl.tasks[events[k].task].phase.picks|)
  {
    var s, t := states[k], events[k].task;
    var p := s.ctl.tasks[t].phase;
    assert Next(s, events[k], states[k + 1]);
    RunSound(states, events, k);
    RunSound(states, events, k + 1);
    RunFlat(states, events, k);
    NextExact(states, events, k);
    CommitRows(s.data.rows, t.addr, p.base, p.picks, p.errs);
    CommitAgrees(s.data.rows, states[k + 1].data.rows, tip, active, t.addr, p.base, p.picks);
  }

  /** In particular when the base is at least a chain nonce below which the branch has spent everything. */
  lemma CommitAboveChain(
    states: seq<Sys>, events: seq<Event>, k: nat, cache: Entries, tip: Tipset, active: set<Address>, chain: nat)
    requires IsRun(states, events) && k < |events| && events[k].Commit? && SafeAt(states[k])
    requires WritesAboveAt(states, events, k)
    requires events[k].task.addr in active && Good(State(states[k].data.rows, cache, tip), active)
    requires SpentBelow(tip, events[k].task.addr, chain) && chain <= states[k].ctl.tasks[events[k].task].phase.base
    ensures Good(State(states[k + 1].data.rows, cache, tip), active)
  {
    var p := states[k].ctl.tasks[events[k].task].phase;
    AboveChainUnspent(tip, events[k].task.addr, chain, p.base, |p.picks|);
    CommitIsSafe(states, events, k, cache, tip, active);
  }
}
