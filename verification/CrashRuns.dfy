/** Two runs from the initial state that end in a crash, one for each cause. */
module CrashRuns {
  import opened Messages
  import opened NonceSystem
  import opened NonceRuns
  import opened NonceRace
  import opened Crashes

  /** The run reaches `s`. */
  ghost predicate RunTo(states: seq<Sys>, events: seq<Event>, s: Sys) {
    IsRun(states, events) && states[|events|] == s && !s.crashed
  }

  /** The first selection stands in phase `p`, its worker's slot is open, and a batch without its address waits. */
  ghost predicate Unlisted(s: Sys, full: bool, p: Phase) {
    && SlotsOk(s.ctl) && IdsOk(s.ctl)
    && T0 in s.ctl.tasks && s.ctl.tasks[T0] == Task(W, Some(0), p)
    && T1 !in s.ctl.tasks && 7 in s.ctl.works && s.ctl.works[7] == W
    && W in s.ctl.slots && s.ctl.slots[W] == Slot(full, false)
    && 1 in s.ctl.batches && 7 !in s.ctl.batches[1]
  }

  lemma SnapshotNone(s: Sys, full: bool, p: Phase) returns (s': Sys)
    requires !s.crashed && SlotsOk(s.ctl) && s.ctl == First(full, map[], 1, p)
    ensures Next(s, Snapshot({}), s') && !s'.crashed && Unlisted(s', full, p)
  {
    s' := Step(s, Snapshot({}));
  }

  // ---- The worker is retired between the context check and the channel send --------------------------------

  lemma NoneBeforeSlot() returns (states: seq<Sys>, events: seq<Event>, s: Sys)
    ensures RunTo(states, events, s) && Unlisted(s, false, Checked)
  {
    states, events := RunToChecked();
    s := SnapshotNone(Z5, false, Checked);
    Grow(states, events, Snapshot({}), s);
    states, events := states + [s], events + [Snapshot({})];
  }

  /** The selection is before its slot, and the slot is closed. */
  ghost predicate Stranded(s: Sys) {
    T0 in s.ctl.tasks && s.ctl.tasks[T0] == Task(W, Some(0), Checked) && W in s.ctl.slots && s.ctl.slots[W].closed
  }

  lemma RetireRun(states: seq<Sys>, events: seq<Event>, s: Sys) returns (s': Sys)
    requires RunTo(states, events, s) && Unlisted(s, false, Checked)
    ensures RunTo(states + [s'], events + [Dispatch(1)], s') && Stranded(s')
  {
    s' := Step(s, Dispatch(1));
    Grow(states, events, Dispatch(1), s');
    DispatchTasks(s.ctl, 1, T0);
    UpdatedSlotsAt(s.ctl, s.ctl.batches[1].Keys, W);
  }

  lemma ClosedAcquire(states: seq<Sys>, events: seq<Event>, s: Sys) returns (s': Sys)
    requires RunTo(states, events, s) && Stranded(s)
    ensures IsRun(states + [s'], events + [Acquire(T0)]) && s'.crashed && T0 in s'.ctl.tasks
    ensures s'.ctl.tasks[T0].snap.Some?
  {
    s' := Step(s, Acquire(T0));
    Grow(states, events, Acquire(T0), s');
  }

  /** A selection that has passed the context check sends on the channel of a worker retired since. */
  lemma RetiredWorkerCrashes() returns (states: seq<Sys>, events: seq<Event>)
    ensures IsRun(states, events) && |events| > 0 && states[|events|].crashed
    ensures events[|events| - 1].Acquire?
    ensures Listed(states, events, events[|events| - 1].task.batch, events[|events| - 1].task.addr)
  {
    var s;
    states, events, s := NoneBeforeSlot();
    s := RetireRun(states, events, s);
    states, events := states + [s], events + [Dispatch(1)];
    s := ClosedAcquire(states, events, s);
    states, events := states + [s], events + [Acquire(T0)];
    SnapIsListed(states, events, |events|, T0);
  }

  // ---- A worker kept only because it was busy is started without an address record -------------------------

  lemma NoneWhileHeld() returns (states: seq<Sys>, events: seq<Event>, s: Sys)
    ensures RunTo(states, events, s) && Unlisted(s, true, Holding)
  {
    states, events := RunToHolding();
    s := SnapshotNone(Z6, true, Holding);
    Grow(states, events, Snapshot({}), s);
    states, events := states + [s], events + [Snapshot({})];
  }

  /** The first selection in phase `p` and a second one of the same worker, without a snapshot, in phase `q`. */
  ghost predicate Both(s: Sys, full: bool, p: Phase, q: Phase) {
    && T0 in s.ctl.tasks && s.ctl.tasks[T0] == Task(W, Some(0), p)
    && T1 in s.ctl.tasks && s.ctl.tasks[T1] == Task(W, None, q)
    && W in s.ctl.slots && s.ctl.slots[W] == Slot(full, false)
  }

  /** A dispatch keeps the busy worker and spawns a selection for it, with no snapshot for its address. */
  lemma BusyRun(states: seq<Sys>, events: seq<Event>, s: Sys) returns (s': Sys)
    requires RunTo(states, events, s) && Unlisted(s, true, Holding)
    ensures RunTo(states + [s'], events + [Dispatch(1)], s') && Both(s', true, Holding, Spawned)
  {
    s' := Step(s, Dispatch(1));
    Grow(states, events, Dispatch(1), s');
    var c, active := s.ctl, s.ctl.batches[1].Keys;
    UpdatedWorksKeys(c, active);
    UpdatedSlotsAt(c, active, W);
    DispatchTasks(c, 1, T0);
    SpawnedTasksAt(UpdatedWorks(c.works, c.slots, active, c.generation), 1, c.batches[1], T1);
  }

  lemma BusyFinish(states: seq<Sys>, events: seq<Event>, s: Sys) returns (s': Sys, s'': Sys)
    requires RunTo(states, events, s) && Both(s, true, Holding, Spawned)
    ensures RunTo(states + [s'] + [s''], events + [Abort(T0)] + [Release(T0)], s'') && Both(s'', false, Done, Spawned)
  {
    s' := Step(s, Abort(T0));
    Grow(states, events, Abort(T0), s');
    s'' := Step(s', Release(T0));
    Grow(states + [s'], events + [Abort(T0)], Release(T0), s'');
  }

  lemma LateStart(states: seq<Sys>, events: seq<Event>, s: Sys) returns (s': Sys, s'': Sys)
    requires RunTo(states, events, s) && Both(s, false, Done, Spawned)
    ensures IsRun(states + [s'] + [s''], events + [Check(T1)] + [Acquire(T1)])
    ensures s''.crashed && T1 in s''.ctl.tasks && s''.ctl.tasks[T1].snap.None?
  {
    s' := Step(s, Check(T1));
    Grow(states, events, Check(T1), s');
    s'' := Step(s', Acquire(T1));
    Grow(states + [s'], events + [Check(T1)], Acquire(T1), s'');
  }

  /** A selection spawned without an address record takes the slot that the running one has just returned. */
  lemma MissingRecordCrashes() returns (states: seq<Sys>, events: seq<Event>)
    ensures IsRun(states, events) && |events| > 0 && states[|events|].crashed
    ensures events[|events| - 1].Acquire?
    ensures !Listed(states, events, events[|events| - 1].task.batch, events[|events| - 1].task.addr)
  {
    var s;
    states, events, s := NoneWhileHeld();
    s := BusyRun(states, events, s);
    states, events := states + [s], events + [Dispatch(1)];
    var aborted, freed := BusyFinish(states, events, s);
    states, events := states + [aborted] + [freed], events + [Abort(T0)] + [Release(T0)];
    var ready, lost := LateStart(states, events, freed);
    states, events := states + [ready] + [lost], events + [Check(T1)] + [Acquire(T1)];
    SnapIsListed(states, events, |events|, T1);
  }
}
