/** Runs in which a commit falls between a selection's snapshot and its slot: two rows get one nonce, or the stored
    nonce is lowered to one in use. */
module NonceRace {
  import opened Messages
  import opened MessageTable
  import opened Selection
  import opened NonceSystem
  import opened NonceRuns

  const M1 := Message(7, 0, 1, 1, 1, 1)
  const M2 := Message(7, 0, 2, 1, 1, 1)
  const SIG := Signature(Secp, 1)
  const P1 := PushedRow(M1)
  const P2 := PushedRow(M2)
  const F2 := FilledRow(P2, 0, Estimated(1, 1, 1), SIG)
  const S2 := SignedMessage(M2, SIG)
  const W := Work(7, 0)
  const T0 := TaskId(0, 7)
  const T1 := TaskId(1, 7)
  const READ := map[1 := map[7 := 0]]
  const C2 := Choice(0, 2, F2)

  /** The first message filled with nonce `n`. */
  function F1(n: nat): Row {
    FilledRow(P1, n, Estimated(1, 1, 1), SIG)
  }

  function S1(n: nat): SignedMessage {
    SignedMessage(F1(n).msg, SIG)
  }

  function C1(n: nat): Choice {
    Choice(0, 1, F1(n))
  }

  /** Both messages pending with stored nonce `n`, and the first one stored with nonce `n`. */
  function Pushed(n: nat): Data {
    Data(map[1 := P1, 2 := P2], map[7 := n], {}, {})
  }

  function Saved(n: nat): Data {
    Data(map[1 := F1(n), 2 := P2], map[7 := n + 1], {S1(n)}, {})
  }

  const CLASHED := Data(map[1 := F1(0), 2 := F2], map[7 := 1], {S1(0), S2}, {})
  const REUSED := Saved(1).(stored := map[7 := 1])
  const BAD := Saved(1).(rows := map[1 := F1(1).(state := Failed), 2 := P2])
  const LOWERED := BAD.(stored := map[7 := 1])

  /** The first selection runs while `batches` holds what is read but not dispatched. */
  function First(full: bool, batches: map<nat, map<Address, nat>>, next: nat, p: Phase): Control {
    Control(map[7 := W], map[W := Slot(full, false)], 1, batches, next, map[T0 := Task(W, Some(0), p)])
  }

  /** The first selection is done, the second runs with the nonce read before the first one's commit. */
  function Second(full: bool, p: Phase): Control {
    Control(map[7 := W], map[W := Slot(full, false)], 2, map[], 2,
            map[T0 := Task(W, Some(0), Done), T1 := Task(W, Some(0), p)])
  }

  /** The first selection in phase `p`, with the stale batch waiting. */
  function Racing(d: Data, full: bool, p: Phase): Sys {
    Sys(d, First(full, READ, 2, p), false)
  }

  function Late(d: Data, full: bool, p: Phase): Sys {
    Sys(d, Second(full, p), false)
  }

  const Z1 := Sys(Data(map[1 := P1], map[7 := 0], {}, {}), INIT.ctl, false)
  const Z2 := Sys(Pushed(0), INIT.ctl, false)
  const Z3 := Sys(Pushed(0), Control(map[], map[], 0, map[0 := map[7 := 0]], 1, map[]), false)
  const Z4 := Sys(Pushed(0), First(false, map[], 1, Spawned), false)
  const Z5 := Sys(Pushed(0), First(false, map[], 1, Checked), false)
  const Z6 := Sys(Pushed(0), First(true, map[], 1, Holding), false)
  const Z7 := Racing(Pushed(0), true, Holding)

  // ---- Steps ---------------------------------------------------------------------------------------------

  lemma SnapshotOne(c: Control)
    ensures SnapshotStep(c, map[7 := 0], {7}) ==
            c.(batches := c.batches[c.nextBatch := map[7 := 0]], nextBatch := c.nextBatch + 1)
  {
    assert SnapshotStep(c, map[7 := 0], {7}).batches[c.nextBatch] == map[7 := 0];
  }

  lemma FirstWorks()
    ensures UpdatedWorks(map[], map[], {7}, 0) == map[7 := W]
    ensures UpdatedSlots(map[], map[], {7}, 0) == map[W := Slot(false, false)]
  {
    var none: map<Address, Work> := map[];
    assert Work(7, 0) in (set a | a in {7} && a !in none :: Work(a, 0));
  }

  lemma SecondWorks()
    ensures UpdatedWorks(map[7 := W], map[W := Slot(false, false)], {7}, 1) == map[7 := W]
    ensures UpdatedSlots(map[7 := W], map[W := Slot(false, false)], {7}, 1) == map[W := Slot(false, false)]
  {
  }

  lemma SpawnInto(tasks: map<TaskId, Task>, batch: nat)
    ensures tasks + SpawnedTasks(map[7 := W], batch, map[7 := 0]) == tasks[TaskId(batch, 7) := Task(W, Some(0), Spawned)]
  {
    assert TaskId(batch, 7) in (set a | a in map[7 := W] :: TaskId(batch, a));
  }

  lemma DispatchOne(c: Control, b: nat)
    requires c.batches == map[b := map[7 := 0]]
    requires UpdatedWorks(c.works, c.slots, {7}, c.generation) == map[7 := W]
    requires UpdatedSlots(c.works, c.slots, {7}, c.generation) == map[W := Slot(false, false)]
    ensures DispatchStep(c, b) ==
            Control(map[7 := W], map[W := Slot(false, false)], c.generation + 1, map[], c.nextBatch,
                    c.tasks[TaskId(b, 7) := Task(W, Some(0), Spawned)])
  {
    assert c.batches[b].Keys == {7};
    assert c.batches - {b} == map[];
    SpawnInto(c.tasks, b);
  }

  lemma OnePick(c: Choice, t: Table)
    requires Signed(c.row)
    ensures SignedPicks([c]) == {SignedOf(c.row)}
    ensures SaveErrs(SaveRows(t, [c]), []) == t[c.id := c.row]
  {
    assert [c][0] == c;
    assert SignedOf([c][0].row) in SignedPicks([c]);
    assert [c][..0] == [];
  }

  /** The first selection changes its phase. */
  lemma FirstPhase(full: bool, batches: map<nat, map<Address, nat>>, next: nat, p: Phase, q: Phase)
    ensures SetPhase(First(full, batches, next, p), T0, q) == First(full, batches, next, q)
  {
    assert map[T0 := Task(W, Some(0), p)][T0 := Task(W, Some(0), q)] == map[T0 := Task(W, Some(0), q)];
  }

  /** The second selection changes its phase. */
  lemma SecondPhase(full: bool, p: Phase, q: Phase)
    ensures SetPhase(Second(full, p), T1, q) == Second(full, q)
  {
  }

  lemma Pushes()
    ensures Next(INIT, Push(1, M1), Z1) && Next(Z1, Push(2, M2), Z2)
  {
  }

  lemma FirstSnapshot()
    ensures Next(Z2, Snapshot({7}), Z3)
  {
    SnapshotOne(Z2.ctl);
  }

  lemma DispatchNext(s: Sys, b: nat, c: Control)
    requires !s.crashed && b in s.ctl.batches && DispatchStep(s.ctl, b) == c
    ensures Next(s, Dispatch(b), s.(ctl := c))
  {
  }

  lemma FirstDispatch()
    ensures Next(Z3, Dispatch(0), Z4)
  {
    FirstSpawn(Z3.ctl);
    DispatchNext(Z3, 0, First(false, map[], 1, Spawned));
  }

  lemma FirstSpawn(c: Control)
    requires c == Control(map[], map[], 0, map[0 := map[7 := 0]], 1, map[])
    ensures DispatchStep(c, 0) == First(false, map[], 1, Spawned)
  {
    FirstWorks();
    DispatchOne(c, 0);
  }

  lemma FirstSlot()
    ensures Next(Z4, Check(T0), Z5) && Next(Z5, Acquire(T0), Z6)
  {
    FirstPhase(false, map[], 1, Spawned, Checked);
    FirstPhase(true, map[], 1, Checked, Holding);
    assert map[W := Slot(false, false)][W := Slot(true, false)] == map[W := Slot(true, false)];
  }

  lemma StaleSnapshot()
    ensures Next(Z6, Snapshot({7}), Z7)
  {
    SnapshotOne(Z6.ctl);
  }

  /** With the chain at nonce `n`, zero or one, the first selection works from there. */
  lemma FirstRebase(n: nat)
    requires n <= 1
    ensures Next(Z7, Rebase(T0, n, {}, n), Racing(Pushed(n), true, Based(n, n)))
  {
    assert NonceWitnesses(Pushed(0).rows, 7, {}) == {};
    assert LargestNonce(Pushed(0).rows, {}, 0);
    assert map[7 := 0][7 := n] == map[7 := n];
    FirstPhase(true, READ, 2, Holding, Based(n, n));
  }

  lemma FirstPick(n: nat)
    ensures Next(Racing(Pushed(n), true, Based(n, n)), Pick(T0, [C1(n)], []), Racing(Pushed(n), true, Selected(n, [C1(n)], {}, [])))
  {
    assert PicksOk(Pushed(n).rows, 7, n, [C1(n)]);
    assert Pushable(Pushed(n).rows, 7, n) == {};
    FirstPhase(true, READ, 2, Based(n, n), Selected(n, [C1(n)], {}, []));
  }

  lemma FirstCommit(n: nat)
    ensures Next(Racing(Pushed(n), true, Selected(n, [C1(n)], {}, [])), Commit(T0), Racing(Saved(n), true, Committed({S1(n)})))
  {
    OnePick(C1(n), Pushed(n).rows);
    assert Pushed(n).rows[1 := F1(n)] == Saved(n).rows;
    assert Pushed(n).stored[7 := n + 1] == Saved(n).stored;
    assert {} + {S1(n)} == {S1(n)};
    FirstPhase(true, READ, 2, Selected(n, [C1(n)], {}, []), Committed({S1(n)}));
  }

  lemma FirstFinish(n: nat)
    ensures Next(Racing(Saved(n), true, Committed({S1(n)})), Send(T0, false), Racing(Saved(n), true, Finished))
    ensures Next(Racing(Saved(n), true, Finished), Release(T0), Racing(Saved(n), false, Done))
  {
    FirstPhase(true, READ, 2, Committed({S1(n)}), Finished);
    FirstPhase(false, READ, 2, Finished, Done);
    assert map[W := Slot(true, false)][W := Slot(false, false)] == map[W := Slot(false, false)];
  }

  lemma SecondDispatch(d: Data)
    ensures Next(Racing(d, false, Done), Dispatch(1), Late(d, false, Spawned))
  {
    SecondWorks();
    DispatchOne(First(false, READ, 2, Done), 1);
  }

  lemma SecondSlot(d: Data)
    ensures Next(Late(d, false, Spawned), Check(T1), Late(d, false, Checked))
    ensures Next(Late(d, false, Checked), Acquire(T1), Late(d, true, Holding))
  {
  }

  // ---- Runs ----------------------------------------------------------------------------------------------

  /** A run grown by one step. */
  lemma Grow(states: seq<Sys>, events: seq<Event>, e: Event, s: Sys)
    requires IsRun(states, events) && Next(states[|events|], e, s)
    ensures IsRun(states + [s], events + [e])
  {
    var ss, es := states + [s], events + [e];
    forall k | 0 <= k < |es|
      ensures Next(ss[k], es[k], ss[k + 1])
    {
      if k < |events| {
        assert Next(states[k], events[k], states[k + 1]);
      }
    }
  }

  lemma RunToChecked() returns (states: seq<Sys>, events: seq<Event>)
    ensures IsRun(states, events) && states[|events|] == Z5
  {
    states, events := [INIT], [];
    Pushes(); FirstSnapshot(); FirstDispatch(); FirstSlot();
    Grow(states, events, Push(1, M1), Z1); states, events := states + [Z1], events + [Push(1, M1)];
    Grow(states, events, Push(2, M2), Z2); states, events := states + [Z2], events + [Push(2, M2)];
    Grow(states, events, Snapshot({7}), Z3); states, events := states + [Z3], events + [Snapshot({7})];
    Grow(states, events, Dispatch(0), Z4); states, events := states + [Z4], events + [Dispatch(0)];
    Grow(states, events, Check(T0), Z5); states, events := states + [Z5], events + [Check(T0)];
  }

  lemma RunToHolding() returns (states: seq<Sys>, events: seq<Event>)
    ensures IsRun(states, events) && states[|events|] == Z6
  {
    states, events := RunToChecked();
    FirstSlot();
    Grow(states, events, Acquire(T0), Z6); states, events := states + [Z6], events + [Acquire(T0)];
  }

  /** The first selection has stored its message with nonce `n`, while the second one's batch waits with nonce zero. */
  lemma RunToSaved(n: nat) returns (states: seq<Sys>, events: seq<Event>)
    requires n <= 1
    ensures IsRun(states, events) && states[|events|] == Racing(Saved(n), false, Done)
  {
    states, events := RunToHolding();
    var a := Racing(Pushed(n), true, Based(n, n));
    var b := Racing(Pushed(n), true, Selected(n, [C1(n)], {}, []));
    var c := Racing(Saved(n), true, Committed({S1(n)}));
    var d, e := Racing(Saved(n), true, Finished), Racing(Saved(n), false, Done);
    StaleSnapshot(); Grow(states, events, Snapshot({7}), Z7); states, events := states + [Z7], events + [Snapshot({7})];
    FirstRebase(n); Grow(states, events, Rebase(T0, n, {}, n), a); states, events := states + [a], events + [Rebase(T0, n, {}, n)];
    FirstPick(n); Grow(states, events, Pick(T0, [C1(n)], []), b); states, events := states + [b], events + [Pick(T0, [C1(n)], [])];
    FirstCommit(n); Grow(states, events, Commit(T0), c); states, events := states + [c], events + [Commit(T0)];
    FirstFinish(n); Grow(states, events, Send(T0, false), d); states, events := states + [d], events + [Send(T0, false)];
    Grow(states, events, Release(T0), e); states, events := states + [e], events + [Release(T0)];
  }

  /** The second selection takes the slot with its stale snapshot. */
  lemma RunToLate(states: seq<Sys>, events: seq<Event>, d: Data) returns (ss: seq<Sys>, es: seq<Event>)
    requires IsRun(states, events) && states[|events|] == Racing(d, false, Done)
    ensures IsRun(ss, es) && ss[|es|] == Late(d, true, Holding)
  {
    ss, es := states, events;
    var a, b, c := Late(d, false, Spawned), Late(d, false, Checked), Late(d, true, Holding);
    SecondDispatch(d); Grow(ss, es, Dispatch(1), a); ss, es := ss + [a], es + [Dispatch(1)];
    SecondSlot(d); Grow(ss, es, Check(T1), b); ss, es := ss + [b], es + [Check(T1)];
    Grow(ss, es, Acquire(T1), c); ss, es := ss + [c], es + [Acquire(T1)];
  }

  // ---- Two rows with one nonce ------------------------------------------------------------------------------

  lemma SecondRebase()
    ensures Next(Late(Saved(0), true, Holding), Rebase(T1, 0, {}, 0), Late(Saved(0), true, Based(0, 0)))
  {
    assert NonceWitnesses(Saved(0).rows, 7, {}) == {1};
    assert LargestNonce(Saved(0).rows, {1}, 0);
    SecondPhase(true, Holding, Based(0, 0));
  }

  lemma SecondPick()
    ensures Next(Late(Saved(0), true, Based(0, 0)), Pick(T1, [C2], []), Late(Saved(0), true, Selected(0, [C2], {S1(0)}, [])))
  {
    var rows := Saved(0).rows;
    assert PicksOk(rows, 7, 0, [C2]);
    assert Pushable(rows, 7, 0) == {S1(0)} by {
      assert SignedMessage(rows[1].msg, rows[1].sig.value) in Pushable(rows, 7, 0);
    }
  }

  lemma SecondCommit()
    ensures Next(Late(Saved(0), true, Selected(0, [C2], {S1(0)}, [])), Commit(T1), Late(CLASHED, true, Committed({S1(0), S2})))
  {
    OnePick(C2, Saved(0).rows);
    assert Saved(0).rows[2 := F2] == CLASHED.rows;
    assert Saved(0).stored[7 := 1] == CLASHED.stored;
    assert {S1(0)} + {S2} == {S1(0), S2};
  }

  lemma RunToClash() returns (states: seq<Sys>, events: seq<Event>)
    ensures IsRun(states, events) && states[|events|].data == CLASHED
  {
    states, events := RunToSaved(0);
    states, events := RunToLate(states, events, Saved(0));
    var a := Late(Saved(0), true, Based(0, 0));
    var b := Late(Saved(0), true, Selected(0, [C2], {S1(0)}, []));
    var c := Late(CLASHED, true, Committed({S1(0), S2}));
    SecondRebase(); Grow(states, events, Rebase(T1, 0, {}, 0), a); states, events := states + [a], events + [Rebase(T1, 0, {}, 0)];
    SecondPick(); Grow(states, events, Pick(T1, [C2], []), b); states, events := states + [b], events + [Pick(T1, [C2], [])];
    SecondCommit(); Grow(states, events, Commit(T1), c); states, events := states + [c], events + [Commit(T1)];
  }

  /** The hypothesis of the safety theorem is needed: a run from the initial state, with one commit between a
      selection's snapshot and its slot, ends with two signed rows of one address that share a nonce. */
  lemma StaleSnapshotClashes() returns (states: seq<Sys>, events: seq<Event>)
    ensures IsRun(states, events) && !NoWriteBetween(states, events)
    ensures !UniqueNonces(states[|events|].data.rows)
  {
    states, events := RunToClash();
    var t := CLASHED.rows;
    assert Signed(t[1]) && Signed(t[2]) && SameSender(t[1], t[2]);
    if NoWriteBetween(states, events) {
      RunSafe(states, events, |events|);
    }
  }

  // ---- The strict comparison ------------------------------------------------------------------------------------

  lemma EqualBase()
    ensures Next(Late(Saved(1), true, Holding), Rebase(T1, 1, {}, 1), Late(REUSED, true, Based(1, 1)))
  {
    assert NonceWitnesses(Saved(1).rows, 7, {}) == {1};
    assert LargestNonce(Saved(1).rows, {1}, 1);
    assert Saved(1).stored[7 := 1] == REUSED.stored;
    SecondPhase(true, Holding, Based(1, 1));
  }

  /** The chain's nonce is the largest among the filled rows, so the base is not raised past it: the nonce written
      back is that of a filled row. */
  lemma StrictCompareReuses() returns (states: seq<Sys>, events: seq<Event>)
    ensures IsRun(states, events) && |events| > 0 && events[|events| - 1].Rebase?
    ensures var rows, stored := states[|events|].data.rows, states[|events|].data.stored;
            && 1 in rows && rows[1].state == Fill && rows[1].msg.from in stored
            && rows[1].msg.nonce == events[|events| - 1].newChain == stored[rows[1].msg.from]
    ensures !NonceSafe(states[|events|].data.rows, states[|events|].data.stored)
  {
    states, events := RunToSaved(1);
    var a := Late(REUSED, true, Based(1, 1));
    states, events := RunToLate(states, events, Saved(1));
    EqualBase(); Grow(states, events, Rebase(T1, 1, {}, 1), a); states, events := states + [a], events + [Rebase(T1, 1, {}, 1)];
    assert Signed(REUSED.rows[1]) && REUSED.rows[1].msg.nonce == 1 && REUSED.stored[7] == 1;
  }

  // ---- A base nonce written back ----------------------------------------------------------------------------

  lemma MarksBad()
    ensures Next(Racing(Saved(1), false, Done), MarkBad(1), Racing(BAD, false, Done))
  {
    assert Saved(1).rows[1 := F1(1).(state := Failed)] == BAD.rows;
  }

  lemma LowerBase()
    ensures Next(Late(BAD, true, Holding), Rebase(T1, 1, {}, 1), Late(LOWERED, true, Based(1, 1)))
  {
    assert NonceWitnesses(BAD.rows, 7, {}) == {};
    assert LargestNonce(BAD.rows, {}, 0);
    assert BAD.stored[7 := 1] == LOWERED.stored;
    SecondPhase(true, Holding, Based(1, 1));
  }

  /** No second commit is needed: a base nonce taken from a stale snapshot and written back lowers the stored nonce
      to that of a signed row. */
  lemma StaleRebaseLowers() returns (states: seq<Sys>, events: seq<Event>)
    ensures IsRun(states, events) && |events| > 0 && events[|events| - 1].Rebase?
    ensures !NonceSafe(states[|events|].data.rows, states[|events|].data.stored)
  {
    states, events := RunToSaved(1);
    var a, b := Racing(BAD, false, Done), Late(LOWERED, true, Based(1, 1));
    MarksBad(); Grow(states, events, MarkBad(1), a); states, events := states + [a], events + [MarkBad(1)];
    states, events := RunToLate(states, events, BAD);
    LowerBase(); Grow(states, events, Rebase(T1, 1, {}, 1), b); states, events := states + [b], events + [Rebase(T1, 1, {}, 1)];
    assert Signed(LOWERED.rows[1]) && LOWERED.rows[1].msg.nonce == 1 && LOWERED.stored[7] == 1;
  }
}
