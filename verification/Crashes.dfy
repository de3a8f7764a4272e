/** When taking a worker's slot ends the program, exactly, over every run: a worker retired between the
    context check and the channel send, and a selection started without an address record. */
module Crashes {
  import opened Messages
  import opened NonceSystem
  import opened NonceRuns

  /** A selection of the address is running. */
  ghost predicate Busy(c: Control, addr: Address) {
    exists u :: u in c.tasks && u.addr == addr && Holds(c.tasks[u].phase)
  }

  ghost predicate HeldBy(c: Control, w: Work, u: TaskId) {
    u in c.tasks && c.tasks[u].work == w && Holds(c.tasks[u].phase)
  }

  /** No slot is taken for nothing: a full, open slot has a running selection behind it. */
  ghost predicate FullHeld(c: Control) {
    forall w :: w in c.slots && c.slots[w].full && !c.slots[w].closed ==> exists u :: HeldBy(c, w, u)
  }

  // ---- A slot is full exactly while a selection of its address runs ------------------------------------

  lemma SetPhaseHeld(c: Control, t: TaskId, p: Phase)
    requires FullHeld(c) && t in c.tasks && (Holds(c.tasks[t].phase) ==> Holds(p))
    ensures FullHeld(SetPhase(c, t, p))
  {
    var c' := SetPhase(c, t, p);
    forall w | w in c'.slots && c'.slots[w].full && !c'.slots[w].closed
      ensures exists u :: HeldBy(c', w, u)
    {
      var u :| HeldBy(c, w, u);
      assert HeldBy(c', w, u);
    }
  }

  lemma DispatchHeld(c: Control, b: nat)
    requires ControlOk(c) && FullHeld(c) && b in c.batches
    ensures FullHeld(DispatchStep(c, b))
  {
    var c' := DispatchStep(c, b);
    forall w | w in c'.slots && c'.slots[w].full && !c'.slots[w].closed
      ensures exists u :: HeldBy(c', w, u)
    {
      UpdatedSlotsAt(c, c.batches[b].Keys, w);
      var u :| HeldBy(c, w, u);
      DispatchTasks(c, b, u);
      assert HeldBy(c', w, u);
    }
  }

  lemma TakeHeld(c: Control, t: TaskId)
    requires FullHeld(c) && t in c.tasks && c.tasks[t].work in c.slots && !Holds(c.tasks[t].phase)
    ensures FullHeld(TakeSlot(c, t))
  {
    var c' := TakeSlot(c, t);
    assert HeldBy(c', c.tasks[t].work, t);
    forall w | w in c'.slots && c'.slots[w].full && !c'.slots[w].closed && w != c.tasks[t].work
      ensures exists u :: HeldBy(c', w, u)
    {
      var u :| HeldBy(c, w, u);
      assert HeldBy(c', w, u);
    }
  }

  lemma ReleaseHeld(c: Control, t: TaskId)
    requires FullHeld(c) && t in c.tasks && c.tasks[t].work in c.slots
    ensures FullHeld(ReleaseStep(c, t))
  {
    var c' := ReleaseStep(c, t);
    forall w | w in c'.slots && c'.slots[w].full && !c'.slots[w].closed
      ensures exists u :: HeldBy(c', w, u)
    {
      var u :| HeldBy(c, w, u);
      assert HeldBy(c', w, u);
    }
  }

  lemma AcquireHeld(s: Sys, t: TaskId)
    requires FullHeld(s.ctl) && Enabled(s, Acquire(t))
    ensures FullHeld(Step(s, Acquire(t)).ctl)
  {
    TakeHeld(s.ctl, t);
    SetPhaseHeld(s.ctl, t, Done);
  }

  lemma StepHeld(s: Sys, e: Event)
    requires ControlOk(s.ctl) && FullHeld(s.ctl) && Enabled(s, e)
    ensures FullHeld(Step(s, e).ctl)
  {
    match e
    case Dispatch(b) => DispatchHeld(s.ctl, b);
    case Acquire(t) => AcquireHeld(s, t);
    case Release(t) => ReleaseHeld(s.ctl, t);
    case Check(t) => SetPhaseHeld(s.ctl, t, Done); SetPhaseHeld(s.ctl, t, Checked);
    case Rebase(t, chain, _, base) => SetPhaseHeld(s.ctl, t, Based(base, chain));
    case Pick(t, _, _) => SetPhaseHeld(s.ctl, t, Step(s, e).ctl.tasks[t].phase);
    case Commit(t) => SetPhaseHeld(s.ctl, t, Step(s, e).ctl.tasks[t].phase);
    case Send(t, _) => SetPhaseHeld(s.ctl, t, Finished);
    case Abort(t) => SetPhaseHeld(s.ctl, t, Finished);
    case _ => SameHeld(s.ctl, Step(s, e).ctl);
  }

  lemma SameHeld(c: Control, c': Control)
    requires FullHeld(c) && c'.slots == c.slots && c'.tasks == c.tasks
    ensures FullHeld(c')
  {
    forall w | w in c'.slots && c'.slots[w].full && !c'.slots[w].closed
      ensures exists u :: HeldBy(c', w, u)
    {
      var u :| HeldBy(c, w, u);
      assert HeldBy(c', w, u);
    }
  }

  lemma NextHeld(s: Sys, e: Event, s': Sys)
    requires ControlOk(s.ctl) && FullHeld(s.ctl) && Next(s, e, s')
    ensures FullHeld(s'.ctl)
  {
    StepHeld(s, e);
  }

  lemma InitHeld()
    ensures FullHeld(INIT.ctl)
  {
  }

  lemma {:induction false} RunHeld(states: seq<Sys>, events: seq<Event>, k: nat)
    requires IsRun(states, events) && k <= |events|
    ensures FullHeld(states[k].ctl)
  {
    if k == 0 {
      InitHeld();
    } else {
      var s, e, s' := states[k - 1], events[k - 1], states[k];
      RunExclusive(states, events, k - 1);
      RunHeld(states, events, k - 1);
      assert Next(s, e, s');
      NextHeld(s, e, s');
    }
  }

  /** An open slot is full exactly while some selection of its address runs. */
  lemma FullIsBusy(c: Control, w: Work)
    requires ControlOk(c) && FullHeld(c) && w in c.slots && !c.slots[w].closed
    ensures c.slots[w].full <==> Busy(c, w.addr)
  {
    if c.slots[w].full {
      var u :| HeldBy(c, w, u);
      assert u.addr == w.addr;
    }
  }

  // ---- Which batch listed which address ------------------------------------------------------------------

  /** The addresses a snapshot lists: the active ones that have a record. */
  ghost function ListedAt(states: seq<Sys>, events: seq<Event>, i: nat): set<Address>
    requires |states| == |events| + 1 && i < |events| && events[i].Snapshot?
  {
    set a | a in events[i].active && a in states[i].data.stored
  }

  /** The batch was read with the address among its addresses. */
  ghost predicate Listed(states: seq<Sys>, events: seq<Event>, batch: nat, addr: Address)
    requires |states| == |events| + 1
  {
    exists i: nat :: ReadsFor(states, events, batch, i) && addr in ListedAt(states, events, i)
  }

  lemma {:induction false} BatchNumbers(states: seq<Sys>, events: seq<Event>, i: nat, j: nat)
    requires IsRun(states, events) && i <= j <= |events|
    ensures states[i].ctl.nextBatch <= states[j].ctl.nextBatch
    ensures i < j && events[i].Snapshot? ==> states[i].ctl.nextBatch < states[j].ctl.nextBatch
    decreases j
  {
    if i < j {
      BatchNumbers(states, events, i, j - 1);
      assert Next(states[j - 1], events[j - 1], states[j]);
    }
  }

  lemma ReadOnce(states: seq<Sys>, events: seq<Event>, batch: nat, i: nat, j: nat)
    requires IsRun(states, events) && ReadsFor(states, events, batch, i) && ReadsFor(states, events, batch, j)
    ensures i == j
  {
    if i < j {
      BatchNumbers(states, events, i, j);
    } else if j < i {
      BatchNumbers(states, events, j, i);
    }
  }

  /** The batch waiting, and the snapshot of each selection, are what the batch's snapshot listed. */
  ghost predicate BatchAs(states: seq<Sys>, events: seq<Event>, k: nat, b: nat, i: nat)
    requires |states| == |events| + 1 && k <= |events|
  {
    ReadsFor(states, events, b, i) && b in states[k].ctl.batches && states[k].ctl.batches[b].Keys == ListedAt(states, events, i)
  }

  ghost predicate TaskAs(states: seq<Sys>, events: seq<Event>, k: nat, t: TaskId, i: nat)
    requires |states| == |events| + 1 && k <= |events|
  {
    && ReadsFor(states, events, t.batch, i) && t in states[k].ctl.tasks
    && (states[k].ctl.tasks[t].snap.Some? <==> t.addr in ListedAt(states, events, i))
  }

  /** A step keeps the waiting batches; only a snapshot adds one. */
  lemma BatchFrom(s: Sys, e: Event, b: nat)
    requires IdsOk(s.ctl) && Enabled(s, e) && b in Step(s, e).ctl.batches
    ensures if e.Snapshot? && b == s.ctl.nextBatch
            then Step(s, e).ctl.batches[b].Keys == set a | a in e.active && a in s.data.stored
            else b in s.ctl.batches && Step(s, e).ctl.batches[b] == s.ctl.batches[b]
  {
    ControlStays(s, e);
  }

  lemma ControlStays(s: Sys, e: Event)
    requires Enabled(s, e)
    ensures !e.Snapshot? && !e.Dispatch? ==> Step(s, e).ctl.batches == s.ctl.batches
    ensures !e.Dispatch? && !e.Acquire? && !e.Release? ==> Step(s, e).ctl.slots == s.ctl.slots
    ensures !e.Dispatch? ==> Step(s, e).ctl.works == s.ctl.works && Step(s, e).ctl.tasks.Keys == s.ctl.tasks.Keys
    ensures !e.Acquire? ==> Step(s, e).crashed == s.crashed
  {
  }

  lemma {:induction false} BatchRead(states: seq<Sys>, events: seq<Event>, k: nat, b: nat) returns (i: nat)
    requires IsRun(states, events) && k <= |events| && b in states[k].ctl.batches
    ensures BatchAs(states, events, k, b, i)
  {
    var s, e, s' := states[k - 1], events[k - 1], states[k];
    assert Next(s, e, s');
    RunExclusive(states, events, k - 1);
    BatchFrom(s, e, b);
    if e.Snapshot? && b == s.ctl.nextBatch {
      i := k - 1;
    } else {
      i := BatchRead(states, events, k - 1, b);
    }
  }

  ghost predicate SameTask(c: Control, c': Control, t: TaskId) {
    t in c.tasks && t in c'.tasks && c'.tasks[t].work == c.tasks[t].work && c'.tasks[t].snap == c.tasks[t].snap
  }

  lemma PhaseKept(c: Control, u: TaskId, p: Phase, t: TaskId)
    requires t in c.tasks && u in c.tasks
    ensures SameTask(c, SetPhase(c, u, p), t)
  {
  }

  lemma SlotKept(s: Sys, e: Event, t: TaskId)
    requires Enabled(s, e) && (e.Check? || e.Acquire? || e.Release?) && t in s.ctl.tasks
    ensures SameTask(s.ctl, Step(s, e).ctl, t)
  {
  }

  /** A step keeps a selection's worker and snapshot. */
  lemma TaskKept(s: Sys, e: Event, t: TaskId)
    requires ControlOk(s.ctl) && Enabled(s, e) && t in s.ctl.tasks
    ensures SameTask(s.ctl, Step(s, e).ctl, t)
  {
    if e.Dispatch? {
      DispatchTasks(s.ctl, e.batch, t);
    } else if e.Check? || e.Acquire? || e.Release? {
      SlotKept(s, e, t);
    } else if e.Rebase? || e.Pick? || e.Commit? || e.Send? || e.Abort? {
      PhaseKept(s.ctl, e.task, Step(s, e).ctl.tasks[e.task].phase, t);
    }
  }

  /** A new selection has a snapshot exactly when its batch holds its address. */
  lemma SpawnSnap(c: Control, b: nat, t: TaskId)
    requires IdsOk(c) && b in c.batches && t in DispatchStep(c, b).tasks && t !in c.tasks
    ensures t.batch == b && (DispatchStep(c, b).tasks[t].snap.Some? <==> t.addr in c.batches[b])
  {
    var works := UpdatedWorks(c.works, c.slots, c.batches[b].Keys, c.generation);
    SpawnedTasksAt(works, b, c.batches[b], t);
  }

  lemma {:induction false} TaskRead(states: seq<Sys>, events: seq<Event>, k: nat, t: TaskId) returns (i: nat)
    requires IsRun(states, events) && k <= |events| && t in states[k].ctl.tasks
    ensures TaskAs(states, events, k, t, i)
  {
    var s, e, s' := states[k - 1], events[k - 1], states[k];
    assert Next(s, e, s');
    RunExclusive(states, events, k - 1);
    if t in s.ctl.tasks {
      i := TaskRead(states, events, k - 1, t);
      TaskKept(s, e, t);
    } else {
      ControlStays(s, e);
      i := BatchRead(states, events, k - 1, e.batch);
      SpawnSnap(s.ctl, e.batch, t);
    }
  }

  lemma SnapIsListed(states: seq<Sys>, events: seq<Event>, k: nat, t: TaskId)
    requires IsRun(states, events) && k <= |events| && t in states[k].ctl.tasks
    ensures states[k].ctl.tasks[t].snap.Some? <==> Listed(states, events, t.batch, t.addr)
  {
    var i := TaskRead(states, events, k, t);
    if Listed(states, events, t.batch, t.addr) {
      var j: nat :| ReadsFor(states, events, t.batch, j) && t.addr in ListedAt(states, events, j);
      ReadOnce(states, events, t.batch, i, j);
    }
  }

  lemma BatchIsListed(states: seq<Sys>, events: seq<Event>, k: nat, b: nat, addr: Address)
    requires IsRun(states, events) && k <= |events| && b in states[k].ctl.batches
    ensures addr in states[k].ctl.batches[b] <==> Listed(states, events, b, addr)
  {
    var i := BatchRead(states, events, k, b);
    if Listed(states, events, b, addr) {
      var j: nat :| ReadsFor(states, events, b, j) && addr in ListedAt(states, events, j);
      ReadOnce(states, events, b, i, j);
    }
  }

  // ---- When a slot is closed -------------------------------------------------------------------------------

  /** A step closes a slot only by a dispatch that retires its worker, and never opens one. */
  lemma ClosedStep(s: Sys, e: Event, w: Work)
    requires ControlOk(s.ctl) && Enabled(s, e) && w in s.ctl.slots
    ensures w in Step(s, e).ctl.slots
    ensures Step(s, e).ctl.slots[w].closed <==>
            s.ctl.slots[w].closed || (e.Dispatch? && Retires(w, s.ctl.works, s.ctl.slots, s.ctl.batches[e.batch].Keys))
  {
    if e.Dispatch? {
      UpdatedSlotsAt(s.ctl, s.ctl.batches[e.batch].Keys, w);
    } else if e.Acquire? {
      AcquireOpen(s, e.task, w);
    } else if !e.Release? {
      ControlStays(s, e);
    }
  }

  lemma AcquireOpen(s: Sys, t: TaskId, w: Work)
    requires Enabled(s, Acquire(t)) && w in s.ctl.slots
    ensures w in Step(s, Acquire(t)).ctl.slots && Step(s, Acquire(t)).ctl.slots[w].closed == s.ctl.slots[w].closed
  {
  }

  /** An open slot's worker is retired by a dispatch exactly when the batch does not hold its address and no
      selection of that address runs. */
  lemma RetiresExactly(c: Control, b: nat, w: Work)
    requires ControlOk(c) && FullHeld(c) && b in c.batches && w in c.slots && !c.slots[w].closed
    ensures Retires(w, c.works, c.slots, c.batches[b].Keys) <==> w.addr !in c.batches[b] && !Busy(c, w.addr)
  {
    FullIsBusy(c, w);
  }

  lemma {:induction false} ClosedStays(states: seq<Sys>, events: seq<Event>, i: nat, k: nat, w: Work)
    requires IsRun(states, events) && i <= k <= |events| && w in states[i].ctl.slots && states[i].ctl.slots[w].closed
    ensures w in states[k].ctl.slots && states[k].ctl.slots[w].closed
    decreases k
  {
    if i < k {
      ClosedStays(states, events, i, k - 1, w);
      RunExclusive(states, events, k - 1);
      assert Next(states[k - 1], events[k - 1], states[k]);
      ClosedStep(states[k - 1], events[k - 1], w);
    }
  }

  /** While a selection stands between its check and its slot, a dispatch of a batch that did not list its
      address finds no selection of that address running. */
  ghost predicate IdleDispatch(states: seq<Sys>, events: seq<Event>, m: nat, t: TaskId)
    requires |states| == |events| + 1
  {
    && m < |events| && events[m].Dispatch? && AtPhase(states[m].ctl, t, Checked)
    && !Listed(states, events, events[m].batch, t.addr) && !Busy(states[m].ctl, t.addr)
  }

  /** Only its own check brings a selection to the point before the slot, and only with an open slot. */
  lemma EntersChecked(s: Sys, e: Event, t: TaskId)
    requires ControlOk(s.ctl) && Enabled(s, e) && AtPhase(Step(s, e).ctl, t, Checked) && !AtPhase(s.ctl, t, Checked)
    ensures e == Check(t) && t in s.ctl.tasks && !s.ctl.slots[s.ctl.tasks[t].work].closed
    ensures Step(s, e).ctl.slots == s.ctl.slots && Step(s, e).ctl.tasks[t].work == s.ctl.tasks[t].work
  {
    if e.Dispatch? {
      DispatchTasks(s.ctl, e.batch, t);
    }
  }

  lemma RetiredIsIdle(states: seq<Sys>, events: seq<Event>, m: nat, t: TaskId)
    requires IsRun(states, events) && m < |events| && events[m].Dispatch? && AtPhase(states[m].ctl, t, Checked)
    requires events[m].batch in states[m].ctl.batches
    requires ControlOk(states[m].ctl) && FullHeld(states[m].ctl)
    requires !states[m].ctl.slots[states[m].ctl.tasks[t].work].closed
    requires Retires(states[m].ctl.tasks[t].work, states[m].ctl.works, states[m].ctl.slots, states[m].ctl.batches[events[m].batch].Keys)
    ensures IdleDispatch(states, events, m, t)
  {
    RetiresExactly(states[m].ctl, events[m].batch, states[m].ctl.tasks[t].work);
    BatchIsListed(states, events, m, events[m].batch, t.addr);
  }

  /** A selection between its check and its slot finds the slot closed only after an idle dispatch. */
  lemma {:induction false} ClosedByIdle(states: seq<Sys>, events: seq<Event>, k: nat, t: TaskId) returns (m: nat)
    requires IsRun(states, events) && k <= |events| && AtPhase(states[k].ctl, t, Checked)
    requires states[k].ctl.tasks[t].work in states[k].ctl.slots
    requires states[k].ctl.slots[states[k].ctl.tasks[t].work].closed
    ensures m < k && IdleDispatch(states, events, m, t)
  {
    var s, e := states[k - 1], events[k - 1];
    assert Next(s, e, states[k]);
    RunExclusive(states, events, k - 1);
    ClosedNext(s, e, t);
    if s.ctl.slots[s.ctl.tasks[t].work].closed {
      m := ClosedByIdle(states, events, k - 1, t);
    } else {
      m := k - 1;
      RunHeld(states, events, m);
      RetiredIsIdle(states, events, m, t);
    }
  }

  /** A selection that finds its slot closed was already at this point a step before, with the slot closed or its
      worker retired by the step. */
  lemma ClosedNext(s: Sys, e: Event, t: TaskId)
    requires ControlOk(s.ctl) && Enabled(s, e) && AtPhase(Step(s, e).ctl, t, Checked)
    requires var c := Step(s, e).ctl; c.tasks[t].work in c.slots && c.slots[c.tasks[t].work].closed
    ensures AtPhase(s.ctl, t, Checked) && s.ctl.tasks[t].work in s.ctl.slots
    ensures s.ctl.slots[s.ctl.tasks[t].work].closed
            || (e.Dispatch? && Retires(s.ctl.tasks[t].work, s.ctl.works, s.ctl.slots, s.ctl.batches[e.batch].Keys))
  {
    if !AtPhase(s.ctl, t, Checked) {
      EntersChecked(s, e, t);
      assert false;
    }
    TaskKept(s, e, t);
    ClosedStep(s, e, s.ctl.tasks[t].work);
  }

  lemma {:induction false} WorkKept(states: seq<Sys>, events: seq<Event>, i: nat, k: nat, t: TaskId)
    requires IsRun(states, events) && i <= k <= |events| && t in states[i].ctl.tasks
    ensures t in states[k].ctl.tasks && states[k].ctl.tasks[t].work == states[i].ctl.tasks[t].work
    decreases k
  {
    if i < k {
      WorkKept(states, events, i, k - 1, t);
      RunExclusive(states, events, k - 1);
      assert Next(states[k - 1], events[k - 1], states[k]);
      TaskKept(states[k - 1], events[k - 1], t);
    }
  }

  lemma IdleCloses(states: seq<Sys>, events: seq<Event>, m: nat, k: nat, t: TaskId)
    requires IsRun(states, events) && m < k <= |events| && IdleDispatch(states, events, m, t)
    ensures t in states[k].ctl.tasks && states[k].ctl.tasks[t].work in states[k].ctl.slots
    ensures states[k].ctl.slots[states[k].ctl.tasks[t].work].closed
  {
    var s, e := states[m], events[m];
    assert Next(s, e, states[m + 1]);
    RunExclusive(states, events, m);
    RunHeld(states, events, m);
    var w := s.ctl.tasks[t].work;
    BatchIsListed(states, events, m, e.batch, t.addr);
    if !s.ctl.slots[w].closed {
      RetiresExactly(s.ctl, e.batch, w);
    }
    ClosedStep(s, e, w);
    ClosedStays(states, events, m + 1, k, w);
    WorkKept(states, events, m, k, t);
  }

  // ---- The exact condition ---------------------------------------------------------------------------------

  /** What makes taking the slot safe: no idle dispatch since the check, and either the selection's batch listed
      its address or another selection of the address is running. */
  ghost predicate AcquireOk(states: seq<Sys>, events: seq<Event>, k: nat)
    requires |states| == |events| + 1 && k < |events|
  {
    events[k].Acquire? ==>
      && (forall m: nat :: m < k ==> !IdleDispatch(states, events, m, events[k].task))
      && (Listed(states, events, events[k].task.batch, events[k].task.addr) || Busy(states[k].ctl, events[k].task.addr))
  }

  lemma AcquireCrash(s: Sys, t: TaskId)
    requires !s.crashed && Enabled(s, Acquire(t))
    ensures var slot := s.ctl.slots[s.ctl.tasks[t].work];
            Step(s, Acquire(t)).crashed <==> slot.closed || (!slot.full && s.ctl.tasks[t].snap.None?)
  {
  }

  /** The program crashes at a step if and only if that step takes a slot outside the condition: a dispatch that
      did not list the address retired the worker after the context check, or the selection has no address
      record and finds the slot free. */
  lemma CrashExact(states: seq<Sys>, events: seq<Event>, k: nat)
    requires IsRun(states, events) && k < |events|
    ensures states[k + 1].crashed <==> !AcquireOk(states, events, k)
  {
    assert Next(states[k], events[k], states[k + 1]);
    if events[k].Acquire? {
      AcquireExact(states, events, k, events[k].task);
    } else {
      ControlStays(states[k], events[k]);
    }
  }

  lemma AcquireExact(states: seq<Sys>, events: seq<Event>, k: nat, t: TaskId)
    requires IsRun(states, events) && k < |events| && events[k] == Acquire(t)
    ensures states[k + 1].crashed <==> !AcquireOk(states, events, k)
  {
    var s := states[k];
    assert Next(s, Acquire(t), states[k + 1]);
    var w := s.ctl.tasks[t].work;
    RunExclusive(states, events, k);
    RunHeld(states, events, k);
    AcquireCrash(s, t);
    SnapIsListed(states, events, k, t);
    if s.ctl.slots[w].closed {
      var m := ClosedByIdle(states, events, k, t);
    } else {
      forall m: nat | m < k
        ensures !IdleDispatch(states, events, m, t)
      {
        if IdleDispatch(states, events, m, t) {
          IdleCloses(states, events, m, k, t);
        }
      }
      FullIsBusy(s.ctl, w);
    }
  }

  /** In every run, a selection that tries to take the slot and does not crash gives up for good if another selection of
      its address is running, and holds the slot otherwise. */
  lemma AcquireOutcome(states: seq<Sys>, events: seq<Event>, k: nat, t: TaskId)
    requires IsRun(states, events) && k < |events| && events[k] == Acquire(t) && !states[k + 1].crashed
    ensures t in states[k + 1].ctl.tasks
    ensures states[k + 1].ctl.tasks[t].phase == if Busy(states[k].ctl, t.addr) then Done else Holding
    ensures Busy(states[k + 1].ctl, t.addr)
  {
    var s := states[k];
    assert Next(s, Acquire(t), states[k + 1]);
    RunExclusive(states, events, k);
    RunHeld(states, events, k);
    FullIsBusy(s.ctl, s.ctl.tasks[t].work);
    if Busy(s.ctl, t.addr) {
      var u :| u in s.ctl.tasks && u.addr == t.addr && Holds(s.ctl.tasks[u].phase);
      assert u in states[k + 1].ctl.tasks && Holds(states[k + 1].ctl.tasks[u].phase);
    } else {
      assert Holds(states[k + 1].ctl.tasks[t].phase);
    }
  }

  /** A run never crashes exactly when every slot is taken under the condition. */
  lemma NeverCrashes(states: seq<Sys>, events: seq<Event>)
    requires IsRun(states, events)
    ensures (forall k :: 0 <= k <= |events| ==> !states[k].crashed) <==>
            (forall k: nat :: k < |events| ==> AcquireOk(states, events, k))
  {
    forall k: nat | k < |events|
      ensures states[k + 1].crashed <==> !AcquireOk(states, events, k)
    {
      CrashExact(states, events, k);
    }
    if forall k: nat :: k < |events| ==> AcquireOk(states, events, k) {
      forall k | 0 <= k <= |events|
        ensures !states[k].crashed
      {
        if k > 0 {
          assert AcquireOk(states, events, k - 1);
        }
      }
    }
    if forall k :: 0 <= k <= |events| ==> !states[k].crashed {
      forall k: nat | k < |events|
        ensures AcquireOk(states, events, k)
      {
        assert !states[k + 1].crashed;
      }
    }
  }

  // ---- A growing set of addresses --------------------------------------------------------------------------

  /** The `d`-th event dispatches a batch that lists the address. */
  ghost predicate DispatchLists(states: seq<Sys>, events: seq<Event>, addr: Address, d: nat)
    requires |states| == |events| + 1
  {
    d < |events| && events[d].Dispatch? && Listed(states, events, events[d].batch, addr)
  }

  lemma NewWork(s: Sys, e: Event, addr: Address)
    requires ControlOk(s.ctl) && Enabled(s, e) && addr in Step(s, e).ctl.works && addr !in s.ctl.works
    ensures e.Dispatch? && addr in s.ctl.batches[e.batch]
  {
    if e.Dispatch? {
      UpdatedWorksKeys(s.ctl, s.ctl.batches[e.batch].Keys);
    } else {
      ControlStays(s, e);
    }
  }

  /** A worker's address was listed by some batch dispatched before. */
  lemma {:induction false} WorkListed(states: seq<Sys>, events: seq<Event>, k: nat, addr: Address) returns (d: nat)
    requires IsRun(states, events) && k <= |events| && addr in states[k].ctl.works
    ensures d < k && DispatchLists(states, events, addr, d)
  {
    var s, e := states[k - 1], events[k - 1];
    assert Next(s, e, states[k]);
    if addr in s.ctl.works {
      d := WorkListed(states, events, k - 1, addr);
    } else {
      d := k - 1;
      RunExclusive(states, events, d);
      NewWork(s, e, addr);
      BatchIsListed(states, events, d, e.batch, addr);
    }
  }

  /** A selection was spawned by the dispatch of its batch, at `d`, and its address was listed by a batch dispatched
      then or before, at `c`. */
  lemma {:induction false} TaskSpawned(states: seq<Sys>, events: seq<Event>, k: nat, t: TaskId) returns (c: nat, d: nat)
    requires IsRun(states, events) && k <= |events| && t in states[k].ctl.tasks
    ensures c <= d < k && events[d] == Dispatch(t.batch) && DispatchLists(states, events, t.addr, c)
  {
    var s, e := states[k - 1], events[k - 1];
    assert Next(s, e, states[k]);
    if t in s.ctl.tasks {
      c, d := TaskSpawned(states, events, k - 1, t);
    } else {
      d := k - 1;
      ControlStays(s, e);
      RunExclusive(states, events, d);
      DispatchTasks(s.ctl, e.batch, t);
      c := WorkListed(states, events, k, t.addr);
    }
  }

  /** Every dispatched batch lists all addresses listed by the batches dispatched before it. */
  ghost predicate Growing(states: seq<Sys>, events: seq<Event>)
    requires |states| == |events| + 1
  {
    forall c: nat, d: nat, addr :: c < d < |events| && DispatchLists(states, events, addr, c) && events[d].Dispatch?
      ==> DispatchLists(states, events, addr, d)
  }

  lemma GrowingAcquire(states: seq<Sys>, events: seq<Event>, k: nat)
    requires IsRun(states, events) && Growing(states, events) && k < |events|
    ensures AcquireOk(states, events, k)
  {
    if events[k].Acquire? {
      var t := events[k].task;
      assert Next(states[k], events[k], states[k + 1]);
      var c, d := TaskSpawned(states, events, k, t);
      assert DispatchLists(states, events, t.addr, d);
      forall m: nat | m < k
        ensures !IdleDispatch(states, events, m, t)
      {
        if IdleDispatch(states, events, m, t) {
          var c', d' := TaskSpawned(states, events, m, t);
          assert false;
        }
      }
    }
  }

  /** New addresses may come at any time: while none is dropped from one dispatched batch to the next, no run
      crashes. */
  lemma GrowingNeverCrashes(states: seq<Sys>, events: seq<Event>)
    requires IsRun(states, events) && Growing(states, events)
    ensures forall k :: 0 <= k <= |events| ==> !states[k].crashed
  {
    forall k: nat | k < |events|
      ensures AcquireOk(states, events, k)
    {
      GrowingAcquire(states, events, k);
    }
    NeverCrashes(states, events);
  }
}
