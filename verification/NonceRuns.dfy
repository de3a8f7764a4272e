/** Whole runs of the nonce allocator. */
module NonceRuns {
  import opened Messages
  import opened MessageTable
  import opened Replay
  import opened Selection
  import opened NonceSystem

  ghost predicate IsRun(states: seq<Sys>, events: seq<Event>) {
    && |states| == |events| + 1 && states[0] == INIT
    && forall k :: 0 <= k < |events| ==> Next(states[k], events[k], states[k + 1])
  }

  // ---- Snapshots and the writes that make them stale ------------------------------------------------

  /** The event writes the stored nonce of the address. */
  predicate WritesNonce(s: Sys, e: Event, addr: Address) {
    || (e.Commit? && e.task.addr == addr && e.task in s.ctl.tasks && s.ctl.tasks[e.task].phase.Selected?
        && s.ctl.tasks[e.task].phase.picks != [])
    || (e.Rebase? && e.task.addr == addr && e.task in s.ctl.tasks && s.ctl.tasks[e.task].snap.Some?
        && e.newChain > s.ctl.tasks[e.task].snap.value)
  }

  lemma StoredUnchanged(s: Sys, e: Event, addr: Address)
    requires Enabled(s, e) && addr in s.data.stored && !WritesNonce(s, e, addr)
    ensures addr in Step(s, e).data.stored && Step(s, e).data.stored[addr] == s.data.stored[addr]
  {
  }

  /** The `i`-th event read the addresses for the given batch. */
  ghost predicate ReadsFor(states: seq<Sys>, events: seq<Event>, batch: nat, i: nat)
    requires |states| == |events| + 1
  {
    i < |events| && events[i].Snapshot? && states[i].ctl.nextBatch == batch
  }

  /** The nonce `n` of an address in a batch is the one stored when the batch was read. */
  ghost predicate ReadAs(states: seq<Sys>, events: seq<Event>, batch: nat, addr: Address, n: nat, i: nat)
    requires |states| == |events| + 1
  {
    ReadsFor(states, events, batch, i) && addr in states[i].data.stored && states[i].data.stored[addr] == n
  }

  ghost predicate SnapshotsAt(states: seq<Sys>, events: seq<Event>, k: nat)
    requires |states| == |events| + 1 && k <= |events|
  {
    && (forall b, a :: b in states[k].ctl.batches && a in states[k].ctl.batches[b] ==>
          exists i :: 0 <= i < k && ReadAs(states, events, b, a, states[k].ctl.batches[b][a], i))
    && (forall t :: t in states[k].ctl.tasks && states[k].ctl.tasks[t].snap.Some? ==>
          exists i :: 0 <= i < k && ReadAs(states, events, t.batch, t.addr, states[k].ctl.tasks[t].snap.value, i))
  }

  /** The only tasks with a new snapshot come from a dispatched batch; other steps keep every snapshot. */
  lemma SnapsFrom(s: Sys, e: Event, t: TaskId)
    requires Enabled(s, e) && t in Step(s, e).ctl.tasks && Step(s, e).ctl.tasks[t].snap.Some?
    ensures || (t in s.ctl.tasks && Step(s, e).ctl.tasks[t].snap == s.ctl.tasks[t].snap)
            || (e.Dispatch? && t.batch == e.batch && t.addr in s.ctl.batches[e.batch]
                && Step(s, e).ctl.tasks[t].snap == Some(s.ctl.batches[e.batch][t.addr]))
  {
    if e.Dispatch? {
      var works := UpdatedWorks(s.ctl.works, s.ctl.slots, s.ctl.batches[e.batch].Keys, s.ctl.generation);
      SpawnedTasksAt(works, e.batch, s.ctl.batches[e.batch], t);
    }
  }

  lemma {:induction false} SnapshotsHold(states: seq<Sys>, events: seq<Event>, k: nat)
    requires IsRun(states, events) && k <= |events|
    ensures SnapshotsAt(states, events, k)
  {
    if k > 0 {
      SnapshotsHold(states, events, k - 1);
      var s, e, s' := states[k - 1], events[k - 1], states[k];
      assert Next(s, e, s');
      forall t | t in s'.ctl.tasks && s'.ctl.tasks[t].snap.Some?
        ensures exists i :: 0 <= i < k && ReadAs(states, events, t.batch, t.addr, s'.ctl.tasks[t].snap.value, i)
      {
        SnapsFrom(s, e, t);
      }
      forall b, a | b in s'.ctl.batches && a in s'.ctl.batches[b]
        ensures exists i :: 0 <= i < k && ReadAs(states, events, b, a, s'.ctl.batches[b][a], i)
      {
        if b in s.ctl.batches && s'.ctl.batches[b] == s.ctl.batches[b] {
          assert a in s.ctl.batches[b];
        } else {
          assert ReadAs(states, events, b, a, s'.ctl.batches[b][a], k - 1);
        }
      }
    }
  }

  lemma {:induction false} StoredConstant(states: seq<Sys>, events: seq<Event>, addr: Address, i: nat, k: nat)
    requires IsRun(states, events) && i <= k <= |events| && addr in states[i].data.stored
    requires forall m :: i <= m < k ==> !WritesNonce(states[m], events[m], addr)
    ensures addr in states[k].data.stored && states[k].data.stored[addr] == states[i].data.stored[addr]
    decreases k
  {
    if i < k {
      StoredConstant(states, events, addr, i, k - 1);
      assert Next(states[k - 1], events[k - 1], states[k]);
      StoredUnchanged(states[k - 1], events[k - 1], addr);
    }
  }

  /** The visible hypothesis: whenever a selection takes its slot, no write to the stored nonce of its address
      happened since its batch read the addresses. */
  ghost predicate NoWriteBetween(states: seq<Sys>, events: seq<Event>)
    requires |states| == |events| + 1
  {
    forall i, k, m :: 0 <= i <= m < k < |events| && TakesSlot(states[k].ctl, events[k])
        && ReadsFor(states, events, events[k].task.batch, i)
      ==> !WritesNonce(states[m], events[m], events[k].task.addr)
  }

  lemma AcquiresFresh(states: seq<Sys>, events: seq<Event>, k: nat)
    requires IsRun(states, events) && NoWriteBetween(states, events) && k < |events|
    ensures FreshAcquire(states[k], events[k])
  {
    if TakesSlot(states[k].ctl, events[k]) {
      var t := events[k].task;
      SnapshotsHold(states, events, k);
      var n := states[k].ctl.tasks[t].snap.value;
      var i :| 0 <= i < k && ReadAs(states, events, t.batch, t.addr, n, i);
      StoredConstant(states, events, t.addr, i, k);
    }
  }

  lemma NextKeeps(s: Sys, e: Event, s': Sys)
    requires Inv(s) && Next(s, e, s') && FreshAcquire(s, e)
    ensures Inv(s')
  {
    StepKeeps(s, e);
  }

  lemma InitHolds()
    ensures Inv(INIT)
  {
  }

  ghost predicate AllFresh(states: seq<Sys>, events: seq<Event>)
    requires |states| == |events| + 1
  {
    forall k :: 0 <= k < |events| ==> FreshAcquire(states[k], events[k])
  }

  lemma {:induction false} RunInv(states: seq<Sys>, events: seq<Event>, k: nat)
    requires IsRun(states, events) && AllFresh(states, events) && k <= |events|
    ensures Inv(states[k])
  {
    if k == 0 {
      InitHolds();
    } else {
      RunInv(states, events, k - 1);
      NextKeeps(states[k - 1], events[k - 1], states[k]);
    }
  }

  /** Nonce uniqueness over whole runs: in every state of every run in which no write falls between a
      selection's snapshot and its slot, no two signed rows of an address share a nonce, all are below the
      stored nonce, and the identifiers of a signed row are those of its message and signature. */
  lemma RunSafe(states: seq<Sys>, events: seq<Event>, k: nat)
    requires IsRun(states, events) && NoWriteBetween(states, events) && k <= |events|
    ensures NonceSafe(states[k].data.rows, states[k].data.stored)
    ensures TableOk(states[k].data.rows)
    ensures Inv(states[k])
  {
    forall j | 0 <= j < |events|
      ensures FreshAcquire(states[j], events[j])
    {
      AcquiresFresh(states, events, j);
    }
    RunInv(states, events, k);
  }

  /** Mutual exclusion needs no hypothesis about snapshots: it holds in every state of every run, across
      retired and re-created workers. */
  lemma {:induction false} RunExclusive(states: seq<Sys>, events: seq<Event>, k: nat)
    requires IsRun(states, events) && k <= |events|
    ensures ControlOk(states[k].ctl) && Exclusive(states[k].ctl)
  {
    if k > 0 {
      RunExclusive(states, events, k - 1);
      assert Next(states[k - 1], events[k - 1], states[k]);
      ControlStep(states[k - 1], events[k - 1]);
    }
  }

  lemma PhaseStep(s: Sys, e: Event)
    requires ControlOk(s.ctl) && Enabled(s, e) && (e.Rebase? || e.Pick? || e.Commit? || e.Send? || e.Abort?)
    ensures ControlOk(Step(s, e).ctl)
  {
    var p := Step(s, e).ctl.tasks[e.task].phase;
    assert Step(s, e).ctl == SetPhase(s.ctl, e.task, p);
    SetPhaseOk(s.ctl, e.task, p);
  }

  lemma SlotStep(s: Sys, t: TaskId)
    requires ControlOk(s.ctl) && Enabled(s, Acquire(t))
    ensures ControlOk(Step(s, Acquire(t)).ctl)
  {
    var c := s.ctl;
    if !c.slots[c.tasks[t].work].full && !c.slots[c.tasks[t].work].closed {
      TakeSlotOk(c, t);
    } else {
      SetPhaseOk(c, t, Done);
    }
  }

  lemma ControlStep(s: Sys, e: Event)
    requires ControlOk(s.ctl) && Enabled(s, e)
    ensures ControlOk(Step(s, e).ctl)
  {
    var c := s.ctl;
    if e.Rebase? || e.Pick? || e.Commit? || e.Send? || e.Abort? {
      PhaseStep(s, e);
    } else {
      match e
      case Snapshot(active) => SnapshotOk(c, s.data.stored, active);
      case Dispatch(b) => DispatchOk(c, b);
      case Check(t) => SetPhaseOk(c, t, if c.slots[c.tasks[t].work].closed then Done else Checked);
      case Acquire(t) => SlotStep(s, t);
      case Release(t) => ReleaseOk(c, t);
      case _ =>
    }
  }

  // ---- Commit before push -------------------------------------------------------------------------------

  /** Messages waiting in a selection: those to push again are stored already, those picked are signed. */
  ghost predicate TaskStored(d: Data, task: Task) {
    match task.phase
    case Selected(base, picks, toPush, _) =>
      && toPush <= d.committed
      && (forall j :: 0 <= j < |picks| ==> Signed(picks[j].row) && base <= picks[j].row.msg.nonce < base + |picks|)
      && (forall i, j :: 0 <= i < j < |picks| ==> picks[i].id != picks[j].id)
    case Committed(out) => out <= d.committed
    case _ => true
  }

  ghost predicate StoredFirst(s: Sys) {
    && s.data.sent <= s.data.committed
    && (forall i :: i in s.data.rows && Signed(s.data.rows[i]) ==> SignedOf(s.data.rows[i]) in s.data.committed)
    && (forall t :: t in s.ctl.tasks ==> TaskStored(s.data, s.ctl.tasks[t]))
  }

  lemma TaskStoredFrame(d: Data, d': Data, task: Task)
    requires TaskStored(d, task) && d.committed <= d'.committed
    ensures TaskStored(d', task)
  {
  }

  /** A step that only relabels rows or leaves them alone, and changes no task. */
  lemma StoredFirstFrame(s: Sys, s': Sys)
    requires StoredFirst(s) && s'.ctl.tasks == s.ctl.tasks && s.data.committed <= s'.data.committed
    requires s'.data.sent <= s'.data.committed
    requires forall i :: i in s'.data.rows && Signed(s'.data.rows[i]) ==> SignedOf(s'.data.rows[i]) in s'.data.committed
    ensures StoredFirst(s')
  {
    forall t | t in s'.ctl.tasks
      ensures TaskStored(s'.data, s'.ctl.tasks[t])
    {
      TaskStoredFrame(s.data, s'.data, s.ctl.tasks[t]);
    }
  }

  /** A step that changes one task. */
  lemma StoredFirstTask(s: Sys, s': Sys, t: TaskId, p: Phase)
    requires StoredFirst(s) && t in s.ctl.tasks && s'.ctl.tasks == s.ctl.tasks[t := s.ctl.tasks[t].(phase := p)]
    requires s.data.committed <= s'.data.committed && s'.data.sent <= s'.data.committed
    requires forall i :: i in s'.data.rows && Signed(s'.data.rows[i]) ==> SignedOf(s'.data.rows[i]) in s'.data.committed
    requires TaskStored(s'.data, s.ctl.tasks[t].(phase := p))
    ensures StoredFirst(s')
  {
    forall u | u in s'.ctl.tasks && u != t
      ensures TaskStored(s'.data, s'.ctl.tasks[u])
    {
      TaskStoredFrame(s.data, s'.data, s.ctl.tasks[u]);
    }
  }

  /** A commit's rows: picked ids hold their picks, all others what they held, up to the error text. */
  lemma CommitLeaves(s: Sys, t: TaskId, i: MessageId)
    requires StoredFirst(s) && Enabled(s, Commit(t)) && i in Step(s, Commit(t)).data.rows
    ensures var r, picks := Step(s, Commit(t)).data.rows[i], s.ctl.tasks[t].phase.picks;
            || (exists j :: 0 <= j < |picks| && picks[j].id == i && r == picks[j].row.(errorMsg := r.errorMsg))
            || (i in s.data.rows && r == s.data.rows[i].(errorMsg := r.errorMsg))
  {
    var p := s.ctl.tasks[t].phase;
    assert TaskStored(s.data, s.ctl.tasks[t]);
    SaveRowsAt(s.data.rows, p.picks);
    SaveErrsAt(SaveRows(s.data.rows, p.picks), p.errs);
    if PickedId(p.picks, i) {
      var j :| 0 <= j < |p.picks| && p.picks[j].id == i;
    }
  }

  lemma CommitKeepsStored(s: Sys, t: TaskId)
    requires StoredFirst(s) && Enabled(s, Commit(t))
    ensures StoredFirst(Step(s, Commit(t)))
  {
    var s' := Step(s, Commit(t));
    var p := s.ctl.tasks[t].phase;
    assert TaskStored(s.data, s.ctl.tasks[t]);
    forall i | i in s'.data.rows && Signed(s'.data.rows[i])
      ensures SignedOf(s'.data.rows[i]) in s'.data.committed
    {
      CommitLeaves(s, t, i);
      var r := s'.data.rows[i];
      if j :| 0 <= j < |p.picks| && p.picks[j].id == i && r == p.picks[j].row.(errorMsg := r.errorMsg) {
        assert SignedOf(p.picks[j].row) in SignedPicks(p.picks);
      }
    }
    StoredFirstTask(s, s', t, s'.ctl.tasks[t].phase);
  }

  /** A message a commit stores is in a row afterwards, with the stored nonce above it. */
  lemma CommitStores(s: Sys, t: TaskId, m: SignedMessage)
    requires StoredFirst(s) && Enabled(s, Commit(t))
    requires m in Step(s, Commit(t)).data.committed && m !in s.data.committed
    ensures StoredWithNonce(Step(s, Commit(t)).data, t.addr, m)
  {
    var d' := Step(s, Commit(t)).data;
    var p := s.ctl.tasks[t].phase;
    assert TaskStored(s.data, s.ctl.tasks[t]);
    SaveRowsAt(s.data.rows, p.picks);
    SaveErrsAt(SaveRows(s.data.rows, p.picks), p.errs);
    var j :| 0 <= j < |p.picks| && Signed(p.picks[j].row) && m == SignedOf(p.picks[j].row);
    assert p.picks[j].id in d'.rows && SignedOf(d'.rows[p.picks[j].id]) == m;
  }

  /** A row holds the signed message, and the stored nonce of the address is above the message's. */
  ghost predicate StoredWithNonce(d: Data, addr: Address, m: SignedMessage) {
    && (exists i :: i in d.rows && Signed(d.rows[i]) && SignedOf(d.rows[i]) == m)
    && addr in d.stored && m.msg.nonce < d.stored[addr]
  }

  lemma DispatchKeepsStored(s: Sys, b: nat)
    requires StoredFirst(s) && b in s.ctl.batches
    ensures StoredFirst(Step(s, Dispatch(b)))
  {
    var s' := Step(s, Dispatch(b));
    forall t | t in s'.ctl.tasks
      ensures TaskStored(s'.data, s'.ctl.tasks[t])
    {
      var works := UpdatedWorks(s.ctl.works, s.ctl.slots, s.ctl.batches[b].Keys, s.ctl.generation);
      SpawnedTasksAt(works, b, s.ctl.batches[b], t);
    }
  }

  lemma RefreshKeepsStored(s: Sys, e: Event)
    requires StoredFirst(s) && e.Refresh?
    ensures StoredFirst(Step(s, e))
  {
    var s' := Step(s, e);
    forall i | i in s.data.rows
      ensures s'.data.rows[i].msg == s.data.rows[i].msg && s'.data.rows[i].sig == s.data.rows[i].sig
    {
      SettleIdentity(Unwind(s.data.rows[i], e.active, e.heights), e.ams);
    }
    StoredFirstFrame(s, s');
  }

  lemma TaskKeepsStored(s: Sys, e: Event)
    requires StoredFirst(s) && Enabled(s, e)
    requires e.Check? || e.Acquire? || e.Rebase? || e.Pick? || e.Send? || e.Abort? || e.Release?
    ensures StoredFirst(Step(s, e))
  {
    assert TaskStored(s.data, s.ctl.tasks[e.task]);
    StoredFirstTask(s, Step(s, e), e.task, Step(s, e).ctl.tasks[e.task].phase);
  }

  lemma StoredFirstStep(s: Sys, e: Event)
    requires StoredFirst(s) && Enabled(s, e)
    ensures StoredFirst(Step(s, e))
  {
    match e
    case Dispatch(b) => DispatchKeepsStored(s, b);
    case Commit(t) => CommitKeepsStored(s, t);
    case Refresh(_, _, _) => RefreshKeepsStored(s, e);
    case Check(_) => TaskKeepsStored(s, e);
    case Acquire(_) => TaskKeepsStored(s, e);
    case Rebase(_, _, _, _) => TaskKeepsStored(s, e);
    case Pick(_, _, _) => TaskKeepsStored(s, e);
    case Send(_, _) => TaskKeepsStored(s, e);
    case Abort(_) => TaskKeepsStored(s, e);
    case Release(_) => TaskKeepsStored(s, e);
    case _ => StoredFirstFrame(s, Step(s, e));
  }

  /** Commit before push, in every run: a message that has reached the receiver was stored by an earlier event,
      a replacement of its row or a commit whose transaction also moved the stored nonce of the address above
      the message's nonce. */
  ghost predicate StoredBy(states: seq<Sys>, events: seq<Event>, m: SignedMessage, j: nat)
    requires |states| == |events| + 1 && j < |events|
  {
    && m !in states[j].data.committed && m in states[j + 1].data.committed
    && (events[j].Replace? || (events[j].Commit? && StoredWithNonce(states[j + 1].data, events[j].task.addr, m)))
  }

  lemma {:induction false} RunStoredFirst(states: seq<Sys>, events: seq<Event>, k: nat)
    requires IsRun(states, events) && k <= |events|
    ensures StoredFirst(states[k])
  {
    if k > 0 {
      RunStoredFirst(states, events, k - 1);
      assert Next(states[k - 1], events[k - 1], states[k]);
      StoredFirstStep(states[k - 1], events[k - 1]);
    }
  }

  lemma {:induction false} CommittedOnce(
    states: seq<Sys>, events: seq<Event>, k: nat, m: SignedMessage) returns (j: nat)
    requires IsRun(states, events) && k <= |events| && m in states[k].data.committed
    ensures j < k && StoredBy(states, events, m, j)
  {
    if m in states[k - 1].data.committed {
      j := CommittedOnce(states, events, k - 1, m);
    } else {
      j := k - 1;
      assert Next(states[j], events[j], states[k]);
      RunStoredFirst(states, events, j);
      if events[j].Commit? {
        CommitStores(states[j], events[j].task, m);
      }
    }
  }

  lemma CommitBeforePush(states: seq<Sys>, events: seq<Event>, k: nat, m: SignedMessage) returns (j: nat)
    requires IsRun(states, events) && k <= |events| && m in states[k].data.sent
    ensures j < k && StoredBy(states, events, m, j)
  {
    RunStoredFirst(states, events, k);
    j := CommittedOnce(states, events, k, m);
  }

  // ---- What is pushed again -------------------------------------------------------------------------------

  /** A base nonce comes from the selection's own rebase. */
  lemma BasedFrom(s: Sys, e: Event, t: TaskId)
    requires Enabled(s, e) && t in Step(s, e).ctl.tasks && Step(s, e).ctl.tasks[t].phase.Based?
    ensures || (t in s.ctl.tasks && s.ctl.tasks[t].phase == Step(s, e).ctl.tasks[t].phase)
            || (e.Rebase? && e.task == t && Step(s, e).ctl.tasks[t].phase == Based(e.newBase, e.newChain))
  {
    if e.Dispatch? {
      var works := UpdatedWorks(s.ctl.works, s.ctl.slots, s.ctl.batches[e.batch].Keys, s.ctl.generation);
      SpawnedTasksAt(works, e.batch, s.ctl.batches[e.batch], t);
    }
  }

  lemma {:induction false} BasedBy(states: seq<Sys>, events: seq<Event>, k: nat, t: TaskId) returns (j: nat)
    requires IsRun(states, events) && k <= |events| && t in states[k].ctl.tasks && states[k].ctl.tasks[t].phase.Based?
    ensures j < k && events[j].Rebase? && events[j].task == t
    ensures states[k].ctl.tasks[t].phase == Based(events[j].newBase, events[j].newChain)
  {
    var s, e := states[k - 1], events[k - 1];
    assert Next(s, e, states[k]);
    BasedFrom(s, e, t);
    if t in s.ctl.tasks && s.ctl.tasks[t].phase == states[k].ctl.tasks[t].phase {
      j := BasedBy(states, events, k - 1, t);
    } else {
      j := k - 1;
    }
  }

  /** In every run, what a selection sets aside to push again is exactly the signed messages of the address's filled
      rows at or above the chain nonce its rebase read. */
  lemma RepushedExactly(states: seq<Sys>, events: seq<Event>, k: nat, m: SignedMessage) returns (j: nat)
    requires IsRun(states, events) && k < |events| && events[k].Pick?
    ensures j < k && events[j].Rebase? && events[j].task == events[k].task
    ensures events[k].task in states[k + 1].ctl.tasks && states[k + 1].ctl.tasks[events[k].task].phase.Selected?
    ensures m in states[k + 1].ctl.tasks[events[k].task].phase.toPush <==>
            exists i :: i in states[k].data.rows && RepushedRow(states[k].data.rows[i], events[k].task.addr, events[j].newChain, m)
  {
    var s, e := states[k], events[k];
    assert Next(s, e, states[k + 1]);
    j := BasedBy(states, events, k, e.task);
    var rows, chain := s.data.rows, events[j].newChain;
    if i :| i in rows && RepushedRow(rows[i], e.task.addr, chain, m) {
      assert m == SignedMessage(rows[i].msg, rows[i].sig.value);
    }
  }

  ghost predicate RepushedRow(r: Row, addr: Address, chain: nat, m: SignedMessage) {
    r.state == Fill && r.msg.from == addr && chain <= r.msg.nonce && r.msg == m.msg && r.sig == Some(m.sig)
  }

  // ---- What a selection sends -------------------------------------------------------------------------------

  lemma CommittedFrom(s: Sys, e: Event, t: TaskId)
    requires Enabled(s, e) && t in Step(s, e).ctl.tasks && Step(s, e).ctl.tasks[t].phase.Committed?
    ensures t in s.ctl.tasks && (s.ctl.tasks[t].phase == Step(s, e).ctl.tasks[t].phase || e == Commit(t))
  {
    if e.Dispatch? {
      var works := UpdatedWorks(s.ctl.works, s.ctl.slots, s.ctl.batches[e.batch].Keys, s.ctl.generation);
      SpawnedTasksAt(works, e.batch, s.ctl.batches[e.batch], t);
    }
  }

  /** The message is one of a selection's picks, or one it set aside to push again. */
  ghost predicate Outgoing(p: Phase, m: SignedMessage) {
    && p.Selected?
    && (m in p.toPush || exists i :: 0 <= i < |p.picks| && p.picks[i].row.msg == m.msg && p.picks[i].row.sig == Some(m.sig))
  }

  lemma CommitOut(s: Sys, t: TaskId, m: SignedMessage)
    requires Enabled(s, Commit(t))
    ensures Step(s, Commit(t)).ctl.tasks[t].phase.Committed?
    ensures m in Step(s, Commit(t)).ctl.tasks[t].phase.out <==> Outgoing(s.ctl.tasks[t].phase, m)
  {
    var picks := s.ctl.tasks[t].phase.picks;
    if i :| 0 <= i < |picks| && picks[i].row.msg == m.msg && picks[i].row.sig == Some(m.sig) {
      assert SignedOf(picks[i].row) == m;
    }
  }

  lemma {:induction false} CommittedBy(states: seq<Sys>, events: seq<Event>, k: nat, t: TaskId, m: SignedMessage)
    returns (j: nat)
    requires IsRun(states, events) && k <= |events| && t in states[k].ctl.tasks
    requires states[k].ctl.tasks[t].phase.Committed?
    ensures j < k && events[j] == Commit(t) && t in states[j].ctl.tasks
    ensures m in states[k].ctl.tasks[t].phase.out <==> Outgoing(states[j].ctl.tasks[t].phase, m)
  {
    var s, e := states[k - 1], events[k - 1];
    assert Next(s, e, states[k]);
    CommittedFrom(s, e, t);
    if e == Commit(t) {
      j := k - 1;
      CommitOut(s, t, m);
    } else {
      j := CommittedBy(states, events, k - 1, t, m);
    }
  }

  /** In every run a delivered send adds to the receiver exactly the picks the selection committed and the messages it
      set aside to push again; an undelivered one adds nothing. */
  lemma SentExactly(states: seq<Sys>, events: seq<Event>, k: nat, m: SignedMessage) returns (j: nat)
    requires IsRun(states, events) && k < |events| && events[k].Send?
    ensures j < k && events[j] == Commit(events[k].task) && events[k].task in states[j].ctl.tasks
    ensures m in states[k + 1].data.sent <==>
            m in states[k].data.sent || (events[k].delivered && Outgoing(states[j].ctl.tasks[events[k].task].phase, m))
  {
    assert Next(states[k], events[k], states[k + 1]);
    j := CommittedBy(states, events, k, events[k].task, m);
  }

  /** Nothing else reaches the receiver: besides sends, only a delivered republication adds anything, and that is the
      signed message of the filled row named. */
  lemma SentOtherwise(states: seq<Sys>, events: seq<Event>, k: nat, m: SignedMessage)
    requires IsRun(states, events) && k < |events| && !events[k].Send?
    ensures m in states[k + 1].data.sent <==>
            || m in states[k].data.sent
            || (&& events[k].Republish? && events[k].delivered && events[k].id in states[k].data.rows
                && states[k].data.rows[events[k].id].state == Fill
                && states[k].data.rows[events[k].id].msg == m.msg && states[k].data.rows[events[k].id].sig == Some(m.sig))
  {
    assert Next(states[k], events[k], states[k + 1]);
  }
}
