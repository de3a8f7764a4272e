/** When nonces are safe, exactly, over every run of the nonce allocator and without a hypothesis about
    snapshots. */
module NonceExact {
  import opened Messages
  import opened MessageTable
  import opened Replay
  import opened Selection
  import opened NonceSystem
  import opened NonceRuns
  import opened Traces

  /** Every selection that is still to be stored has its picks pending. */
  ghost predicate PicksPending(rows: Table, tasks: map<TaskId, Task>) {
    forall t :: t in tasks && tasks[t].phase.Selected? ==>
      PendingPicks(rows, t.addr, tasks[t].phase.base, tasks[t].phase.picks)
  }

  /** What every run keeps, however stale its snapshots are. */
  ghost predicate Sound(s: Sys) {
    RowsOk(s.data.rows) && ControlOk(s.ctl) && PicksPending(s.data.rows, s.ctl.tasks)
  }

  /** The event writes a nonce only above every signed row of its address. */
  ghost predicate WritesAbove(s: Sys, e: Event)
    requires Enabled(s, e)
  {
    match e
    case Commit(t) =>
      s.ctl.tasks[t].phase.picks != [] ==> AllBelow(s.data.rows, t.addr, s.ctl.tasks[t].phase.base)
    case Rebase(t, chain, _, base) =>
      chain > s.ctl.tasks[t].snap.value ==> AllBelow(s.data.rows, t.addr, base)
    case _ => true
  }

  // ---- Soundness needs no hypothesis ---------------------------------------------------------------

  lemma PendingFrame(rows: Table, rows': Table, addr: Address, base: nat, picks: seq<Choice>)
    requires PendingPicks(rows, addr, base, picks) && RowsFrame(rows, rows', addr)
    ensures PendingPicks(rows', addr, base, picks)
  {
  }

  /** Rows keep their place, and no signed row, sender or nonce is new. */
  ghost predicate NoNewNonce(rows: Table, rows': Table) {
    && (forall addr :: RowsFrame(rows, rows', addr))
    && (forall i :: i in rows' && Signed(rows'[i]) ==> i in rows && Signed(rows[i]) && SameSender(rows[i], rows'[i]))
    && (forall i :: i in rows && Signed(rows[i]) ==> i in rows' && Signed(rows'[i]))
  }

  lemma SameNonces(rows: Table, rows': Table, stored: map<Address, nat>, stored': map<Address, nat>)
    requires NoNewNonce(rows, rows') && NonceSafe(rows, stored)
    requires forall a :: a in stored ==> a in stored' && stored'[a] == stored[a]
    ensures NonceSafe(rows', stored')
  {
  }

  lemma RelabelNoNew(rows: Table, rows': Table)
    requires Relabelled(rows, rows')
    ensures NoNewNonce(rows, rows')
  {
  }

  lemma PushNoNew(rows: Table, id: MessageId, msg: Message)
    requires RowsOk(rows) && id !in rows
    ensures var rows' := rows[id := PushedRow(msg)]; RowsOk(rows') && NoNewNonce(rows, rows')
  {
  }

  /** Bad marks, clears and recoveries change the state column alone. */
  ghost predicate Marked(r: Row, r': Row) {
    && SameIdentity(r, r')
    && (r'.state == r.state || r'.state == Failed || (r'.state == Fill && Signed(r)))
  }

  lemma MarkedNoNew(rows: Table, rows': Table)
    requires RowsOk(rows) && rows'.Keys == rows.Keys && forall i :: i in rows ==> Marked(rows[i], rows'[i])
    ensures RowsOk(rows') && NoNewNonce(rows, rows')
  {
    assert forall i :: i in rows ==> RowOk(rows[i]);
    RelabelNoNew(rows, rows');
  }

  lemma RefreshNoNew(rows: Table, active: set<Address>, heights: set<nat>, ams: seq<ApplyMessage>)
    requires RowsOk(rows)
    ensures var rows' := RefreshTable(rows, active, heights, ams); RowsOk(rows') && NoNewNonce(rows, rows')
  {
    forall i | i in rows
      ensures var r := RefreshRow(rows[i], active, heights, ams); RowOk(r) && r.msg == rows[i].msg && r.sig == rows[i].sig
    {
      assert RowOk(rows[i]);
      SettleIdentity(Unwind(rows[i], active, heights), ams);
    }
    RelabelNoNew(rows, RefreshTable(rows, active, heights, ams));
  }

  lemma DataStepSound(s: Sys, e: Event)
    requires RowsOk(s.data.rows) && Enabled(s, e) && DataEvent(e)
    ensures RowsOk(Step(s, e).data.rows) && NoNewNonce(s.data.rows, Step(s, e).data.rows)
  {
    var rows := s.data.rows;
    match e
    case Push(id, msg) => PushNoNew(rows, id, msg);
    case Replace(id, cap, premium, sig) => ReplaceNoNew(rows, id, cap, premium, sig);
    case Refresh(active, heights, ams) => RefreshNoNew(rows, active, heights, ams);
    case MarkBad(_) => MarkedNoNew(rows, Step(s, e).data.rows);
    case Clear(addr) => MarkedNoNew(rows, ClearRows(rows, addr));
    case Recover(addr, actorNonce) => MarkedNoNew(rows, RecoverRows(rows, addr, actorNonce)); RelabelNoNew(rows, rows);
    case Republish(_, _) => RelabelNoNew(rows, rows);
  }

  lemma DataStepStored(s: Sys, e: Event)
    requires Enabled(s, e) && DataEvent(e)
    ensures forall a :: a in s.data.stored ==> a in Step(s, e).data.stored && Step(s, e).data.stored[a] == s.data.stored[a]
  {
  }

  lemma ReplaceNoNew(rows: Table, id: MessageId, gasFeeCap: nat, gasPremium: nat, sig: Signature)
    requires RowsOk(rows) && id in rows && rows[id].state == Fill
    ensures var rows' := rows[id := ReplacedRow(rows[id], gasFeeCap, gasPremium, sig)]; RowsOk(rows') && NoNewNonce(rows, rows')
  {
    assert RowOk(rows[id]);
  }

  lemma PickPending(rows: Table, addr: Address, base: nat, picks: seq<Choice>)
    requires RowsOk(rows) && PicksOk(rows, addr, base, picks)
    ensures PendingPicks(rows, addr, base, picks)
  {
    forall j | 0 <= j < |picks|
      ensures !Signed(rows[picks[j].id])
    {
      assert RowOk(rows[picks[j].id]);
    }
  }

  /** A commit leaves the rows of other addresses in place, and every row keeps its own identifiers. */
  lemma CommitSound(rows: Table, addr: Address, base: nat, picks: seq<Choice>, errs: seq<ErrInfo>)
    requires RowsOk(rows) && PendingPicks(rows, addr, base, picks)
    ensures var rows' := SaveErrs(SaveRows(rows, picks), errs);
            && RowsOk(rows') && CommittedRows(rows, rows', picks)
            && forall other :: other != addr ==> RowsFrame(rows, rows', other)
  {
    var rows' := SaveErrs(SaveRows(rows, picks), errs);
    CommitRows(rows, addr, base, picks, errs);
    forall i | i in rows'
      ensures RowOk(rows'[i])
      ensures rows[i].msg.from != addr ==> rows'[i].msg.from == rows[i].msg.from && (Signed(rows'[i]) ==> Signed(rows[i]))
    {
      assert RowOk(rows[i]);
      CommitNonce(rows, rows', addr, base, picks, i);
      if PickedId(picks, i) {
        var j :| 0 <= j < |picks| && picks[j].id == i;
        assert RowOk(picks[j].row);
      }
    }
  }

  lemma CommitStepSound(s: Sys, t: TaskId)
    requires Sound(s) && Enabled(s, Commit(t))
    ensures Sound(Step(s, Commit(t)))
  {
    var p := s.ctl.tasks[t].phase;
    var s' := Step(s, Commit(t));
    CommitSound(s.data.rows, t.addr, p.base, p.picks, p.errs);
    ControlStep(s, Commit(t));
    forall u | u in s'.ctl.tasks && s'.ctl.tasks[u].phase.Selected?
      ensures PendingPicks(s'.data.rows, u.addr, s'.ctl.tasks[u].phase.base, s'.ctl.tasks[u].phase.picks)
    {
      assert u != t && Holds(s.ctl.tasks[u].phase) && Holds(s.ctl.tasks[t].phase);
      PendingFrame(s.data.rows, s'.data.rows, u.addr, s.ctl.tasks[u].phase.base, s.ctl.tasks[u].phase.picks);
    }
  }

  lemma SetPhasePicks(rows: Table, c: Control, t: TaskId, p: Phase)
    requires PicksPending(rows, c.tasks) && t in c.tasks
    requires p.Selected? ==> PendingPicks(rows, t.addr, p.base, p.picks)
    ensures PicksPending(rows, SetPhase(c, t, p).tasks)
  {
  }

  lemma DispatchPicks(rows: Table, c: Control, b: nat)
    requires PicksPending(rows, c.tasks) && IdsOk(c) && b in c.batches
    ensures PicksPending(rows, DispatchStep(c, b).tasks)
  {
    forall t | t in DispatchStep(c, b).tasks && DispatchStep(c, b).tasks[t].phase.Selected?
      ensures t in c.tasks && DispatchStep(c, b).tasks[t] == c.tasks[t]
    {
      DispatchTasks(c, b, t);
    }
  }

  lemma SlotStepPicks(s: Sys, e: Event)
    requires PicksPending(s.data.rows, s.ctl.tasks) && Enabled(s, e) && (e.Check? || e.Acquire? || e.Release?)
    ensures Step(s, e).data == s.data && PicksPending(s.data.rows, Step(s, e).ctl.tasks)
  {
    SetPhasePicks(s.data.rows, s.ctl, e.task, Done);
    SetPhasePicks(s.data.rows, s.ctl, e.task, Checked);
    SetPhasePicks(s.data.rows, s.ctl, e.task, Holding);
  }

  lemma PhaseStepPicks(s: Sys, e: Event)
    requires RowsOk(s.data.rows) && PicksPending(s.data.rows, s.ctl.tasks) && Enabled(s, e)
    requires e.Rebase? || e.Pick? || e.Send? || e.Abort?
    ensures Step(s, e).data.rows == s.data.rows && PicksPending(s.data.rows, Step(s, e).ctl.tasks)
  {
    var p := Step(s, e).ctl.tasks[e.task].phase;
    if e.Pick? {
      PickPending(s.data.rows, e.task.addr, p.base, p.picks);
    }
    SetPhasePicks(s.data.rows, s.ctl, e.task, p);
  }

  /** Events of the workers and selections other than commits: the rows stay, and a selection gets its picks
      only by picking. */
  lemma TaskStepSound(s: Sys, e: Event)
    requires Sound(s) && Enabled(s, e) && !DataEvent(e) && !e.Commit?
    ensures Step(s, e).data.rows == s.data.rows && PicksPending(s.data.rows, Step(s, e).ctl.tasks)
  {
    match e
    case Snapshot(_) =>
    case Dispatch(b) => DispatchPicks(s.data.rows, s.ctl, b);
    case Check(_) => SlotStepPicks(s, e);
    case Acquire(_) => SlotStepPicks(s, e);
    case Release(_) => SlotStepPicks(s, e);
    case _ => PhaseStepPicks(s, e);
  }

  lemma StepSound(s: Sys, e: Event)
    requires Sound(s) && Enabled(s, e)
    ensures Sound(Step(s, e))
  {
    if e.Commit? {
      CommitStepSound(s, e.task);
    } else if DataEvent(e) {
      DataStepSound(s, e);
      DataStepPicks(s, e);
    } else {
      TaskStepSound(s, e);
      ControlStep(s, e);
    }
  }

  lemma DataStepPicks(s: Sys, e: Event)
    requires Sound(s) && Enabled(s, e) && DataEvent(e) && NoNewNonce(s.data.rows, Step(s, e).data.rows)
    ensures Step(s, e).ctl == s.ctl && PicksPending(Step(s, e).data.rows, s.ctl.tasks)
  {
    var tasks := s.ctl.tasks;
    forall t | t in tasks && tasks[t].phase.Selected?
      ensures PendingPicks(Step(s, e).data.rows, t.addr, tasks[t].phase.base, tasks[t].phase.picks)
    {
      PendingFrame(s.data.rows, Step(s, e).data.rows, t.addr, tasks[t].phase.base, tasks[t].phase.picks);
    }
  }

  // ---- The exact condition -------------------------------------------------------------------------

  lemma CommitWrites(d: Data, addr: Address, base: nat, picks: seq<Choice>, errs: seq<ErrInfo>)
    requires RowsOk(d.rows) && PendingPicks(d.rows, addr, base, picks) && NonceSafe(d.rows, d.stored)
    ensures var d' := CommitStep(d, addr, base, picks, errs);
            NonceSafe(d'.rows, d'.stored) <==> (picks != [] ==> AllBelow(d.rows, addr, base))
  {
    var d' := CommitStep(d, addr, base, picks, errs);
    CommitSound(d.rows, addr, base, picks, errs);
    if picks == [] {
      NoPicksRelabel(d.rows, d'.rows);
      RelabelNoNew(d.rows, d'.rows);
      SameNonces(d.rows, d'.rows, d.stored, d'.stored);
    } else {
      CommitExact(d.rows, d'.rows, d.stored, addr, base, picks);
    }
  }

  lemma NoPicksRelabel(rows: Table, rows': Table)
    requires CommittedRows(rows, rows', [])
    ensures Relabelled(rows, rows')
  {
    forall i | i in rows
      ensures rows'[i].msg == rows[i].msg && rows'[i].sig == rows[i].sig
    {
      assert !PickedId([], i);
    }
  }

  /** Writing back a base nonce: safe exactly when it is above every signed row of the address. */
  lemma RebaseWrites(s: Sys, e: Event)
    requires e.Rebase? && Enabled(s, e) && NonceSafe(s.data.rows, s.data.stored)
    ensures NonceSafe(Step(s, e).data.rows, Step(s, e).data.stored) <==> WritesAbove(s, e)
  {
  }

  /** One event, in any sound state with safe nonces: they are safe afterwards exactly when the event writes
      above every signed row of its address. */
  lemma EventExact(s: Sys, e: Event)
    requires Sound(s) && Enabled(s, e) && NonceSafe(s.data.rows, s.data.stored)
    ensures NonceSafe(Step(s, e).data.rows, Step(s, e).data.stored) <==> WritesAbove(s, e)
  {
    if e.Commit? {
      var p := s.ctl.tasks[e.task].phase;
      CommitWrites(s.data, e.task.addr, p.base, p.picks, p.errs);
    } else if e.Rebase? {
      RebaseWrites(s, e);
    } else if DataEvent(e) {
      DataStepSound(s, e);
      DataStepStored(s, e);
      SameNonces(s.data.rows, Step(s, e).data.rows, s.data.stored, Step(s, e).data.stored);
    } else {
      TaskStepSound(s, e);
    }
  }

  lemma {:induction false} RunSound(states: seq<Sys>, events: seq<Event>, k: nat)
    requires IsRun(states, events) && k <= |events|
    ensures Sound(states[k])
  {
    if k > 0 {
      RunSound(states, events, k - 1);
      assert Next(states[k - 1], events[k - 1], states[k]);
      StepSound(states[k - 1], events[k - 1]);
    }
  }

  ghost predicate SafeAt(s: Sys) {
    NonceSafe(s.data.rows, s.data.stored)
  }

  ghost predicate WritesAboveAt(states: seq<Sys>, events: seq<Event>, k: nat)
    requires |states| == |events| + 1 && k < |events|
  {
    Enabled(states[k], events[k]) && WritesAbove(states[k], events[k])
  }

  lemma NextExact(states: seq<Sys>, events: seq<Event>, k: nat)
    requires IsRun(states, events) && k < |events| && SafeAt(states[k])
    ensures SafeAt(states[k + 1]) <==> WritesAboveAt(states, events, k)
  {
    assert Next(states[k], events[k], states[k + 1]);
    RunSound(states, events, k);
    EventExact(states[k], events[k]);
  }

  lemma InitSafe()
    ensures SafeAt(INIT)
  {
  }

  lemma SafetyBits(states: seq<Sys>, events: seq<Event>) returns (safe: seq<bool>, ok: seq<bool>)
    requires IsRun(states, events)
    ensures |safe| == |states| && |ok| == |events| && safe[0]
    ensures forall k :: 0 <= k < |safe| ==> safe[k] == SafeAt(states[k])
    ensures forall k: nat :: k < |ok| ==> ok[k] == WritesAboveAt(states, events, k)
    ensures forall k :: 0 <= k < |ok| && safe[k] ==> safe[k + 1] == ok[k]
  {
    InitSafe();
    safe := seq(|states|, k requires 0 <= k < |states| => SafeAt(states[k]));
    ok := seq(|events|, k requires 0 <= k < |events| => WritesAboveAt(states, events, k));
    forall k | 0 <= k < |ok| && safe[k]
      ensures safe[k + 1] == ok[k]
    {
      NextExact(states, events, k);
    }
  }

  /** Nonce safety, exactly, over every run: nonces are unique and below the stored nonce in all states if and
      only if every commit that stores something, and every base nonce written back, starts above all signed
      rows of its address at that moment. */
  lemma RunNonceExact(states: seq<Sys>, events: seq<Event>)
    requires IsRun(states, events)
    ensures (forall k :: 0 <= k <= |events| ==> SafeAt(states[k])) <==>
            (forall k: nat :: k < |events| ==> WritesAboveAt(states, events, k))
  {
    var safe, ok := SafetyBits(states, events);
    SafeThroughout(safe, ok);
  }
}
