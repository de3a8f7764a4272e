/** The nonce allocator as an interleaving system: pushes, selections with their per-address slot, commits,
    sends, replacements, operator marks and state refreshes, in any order. */
module NonceSystem {
  import opened Messages
  import opened MessageTable
  import opened Replay
  import opened Selection

  /** A worker is told apart from later workers of the same address by its generation. */
  datatype Work = Work(addr: Address, generation: nat)

  /** A worker's control channel of capacity one. */
  datatype Slot = Slot(full: bool, closed: bool)

  /** The selection spawned for an address by one batch. */
  datatype TaskId = TaskId(batch: nat, addr: Address)

  /** Where a spawned selection stands; `Done` also covers those that never got the slot. */
  datatype Phase =
    | Spawned
    | Checked
    | Holding
    | Based(base: nat, chain: nat)
    | Selected(base: nat, picks: seq<Choice>, toPush: set<SignedMessage>, errs: seq<ErrInfo>)
    | Committed(out: set<SignedMessage>)
    | Finished
    | Done

  /** `snap` is the address nonce read before the workers were updated; a worker kept only because it was
      busy is spawned without one. */
  datatype Task = Task(work: Work, snap: Option<nat>, phase: Phase)

  /** The database and the outgoing side. `committed` and `sent` record every signed message ever stored and
      ever handed to the receiver. */
  datatype Data = Data(rows: Table, stored: map<Address, nat>, committed: set<SignedMessage>, sent: set<SignedMessage>)

  /** The workers, their slots, the address snapshots not yet dispatched and the spawned selections. */
  datatype Control = Control(
    works: map<Address, Work>, slots: map<Work, Slot>, generation: nat,
    batches: map<nat, map<Address, nat>>, nextBatch: nat, tasks: map<TaskId, Task>)

  datatype Sys = Sys(data: Data, ctl: Control, crashed: bool)

  datatype Event =
    | Push(id: MessageId, msg: Message)
    | Snapshot(active: set<Address>)
    | Dispatch(batch: nat)
    | Check(task: TaskId)
    | Acquire(task: TaskId)
    | Rebase(task: TaskId, newChain: nat, recent: set<MessageId>, newBase: nat)
    | Pick(task: TaskId, newPicks: seq<Choice>, newErrs: seq<ErrInfo>)
    | Commit(task: TaskId)
    | Send(task: TaskId, delivered: bool)
    | Abort(task: TaskId)
    | Release(task: TaskId)
    | Replace(id: MessageId, gasFeeCap: nat, gasPremium: nat, sig: Signature)
    | MarkBad(id: MessageId)
    | Clear(addr: Address)
    | Recover(addr: Address, actorNonce: nat)
    | Refresh(active: set<Address>, heights: set<nat>, ams: seq<ApplyMessage>)
    | Republish(id: MessageId, delivered: bool)

  const INIT := Sys(Data(map[], map[], {}, {}), Control(map[], map[], 0, map[], 0, map[]), false)

  /** The selection is past the slot and has not returned it. */
  predicate Holds(p: Phase) {
    p.Holding? || p.Based? || p.Selected? || p.Committed? || p.Finished?
  }

  function SignedOf(r: Row): SignedMessage
    requires Signed(r)
  {
    SignedMessage(r.msg, r.sig.value)
  }

  // ---- Effects -----------------------------------------------------------------------------------

  /** The workers after an update for the active addresses: known ones are kept, missing ones created, and
      an inactive one survives only while it is busy. */
  function UpdatedWorks(
    works: map<Address, Work>, slots: map<Work, Slot>, active: set<Address>, generation: nat): map<Address, Work> {
    map a | a in works.Keys + active && (a in active || (works[a] in slots && slots[works[a]].full)) ::
      if a in works then works[a] else Work(a, generation)
  }

  /** An idle worker of an inactive address. */
  predicate Retires(w: Work, works: map<Address, Work>, slots: map<Work, Slot>, active: set<Address>) {
    w.addr in works && works[w.addr] == w && w.addr !in active && w in slots && !slots[w].full
  }

  /** The slots after that update: retired workers are filled and closed, created ones get an empty slot. */
  function UpdatedSlots(
    works: map<Address, Work>, slots: map<Work, Slot>, active: set<Address>, generation: nat): map<Work, Slot> {
    var created := set a | a in active && a !in works :: Work(a, generation);
    map w | w in slots.Keys + created ::
      if w in created then Slot(false, false)
      else if Retires(w, works, slots, active) then Slot(true, true)
      else slots[w]
  }

  /** One selection per worker, with the snapshot of its address if it has one. */
  function SpawnedTasks(works: map<Address, Work>, batch: nat, snaps: map<Address, nat>): map<TaskId, Task> {
    map t | t in (set a | a in works :: TaskId(batch, a)) ::
      Task(works[t.addr], if t.addr in snaps then Some(snaps[t.addr]) else None, Spawned)
  }

  function SaveRows(t: Table, picks: seq<Choice>): Table {
    if picks == [] then t
    else SaveRows(t, picks[..|picks| - 1])[picks[|picks| - 1].id := picks[|picks| - 1].row]
  }

  function SaveErrs(t: Table, errs: seq<ErrInfo>): Table {
    if errs == [] then t
    else
      var rest := SaveErrs(t, errs[..|errs| - 1]);
      var e := errs[|errs| - 1];
      if e.id in rest then rest[e.id := rest[e.id].(errorMsg := e.err)] else rest
  }

  function SignedPicks(picks: seq<Choice>): set<SignedMessage> {
    set j | 0 <= j < |picks| && Signed(picks[j].row) :: SignedOf(picks[j].row)
  }

  function PushedRow(msg: Message): Row {
    Row(msg.(nonce := 0), None, None, None, UnFill, 0, None, None, "")
  }

  function ReplacedRow(r: Row, gasFeeCap: nat, gasPremium: nat, sig: Signature): Row {
    var m := r.msg.(gasFeeCap := gasFeeCap, gasPremium := gasPremium);
    r.(msg := m, sig := Some(sig), unsignedCid := Some(UnsignedCid(m)), signedCid := Some(SignedCid(SignedMessage(m, sig))))
  }

  function ClearRows(t: Table, addr: Address): Table {
    map i | i in t :: if t[i].state == UnFill && t[i].msg.from == addr then t[i].(state := Failed) else t[i]
  }

  predicate AtPhase(c: Control, t: TaskId, p: Phase) {
    t in c.tasks && c.tasks[t].phase == p
  }

  ghost predicate Enabled(s: Sys, e: Event) {
    var d, c := s.data, s.ctl;
    match e
    case Push(id, msg) => id !in d.rows
    case Snapshot(_) => true
    case Dispatch(b) => b in c.batches
    case Check(t) => AtPhase(c, t, Spawned) && c.tasks[t].work in c.slots
    case Acquire(t) => AtPhase(c, t, Checked) && c.tasks[t].work in c.slots
    case Rebase(t, chain, recent, base) =>
      && AtPhase(c, t, Holding) && c.tasks[t].snap.Some?
      && (forall i :: i in recent ==> i in d.rows && d.rows[i].msg.from == t.addr && d.rows[i].state == OnChain)
      && BaseFrom(d.rows, t.addr, recent, c.tasks[t].snap.value, chain, base)
    case Pick(t, picks, errs) =>
      t in c.tasks && c.tasks[t].phase.Based? && PicksOk(d.rows, t.addr, c.tasks[t].phase.base, picks)
    case Commit(t) => t in c.tasks && c.tasks[t].phase.Selected?
    case Send(t, _) => t in c.tasks && c.tasks[t].phase.Committed?
    case Abort(t) => t in c.tasks && (c.tasks[t].phase.Holding? || c.tasks[t].phase.Based? || c.tasks[t].phase.Selected?)
    case Release(t) => AtPhase(c, t, Finished) && c.tasks[t].work in c.slots
    case Replace(id, _, _, _) => id in d.rows && d.rows[id].state == Fill
    case MarkBad(id) => id in d.rows
    case Clear(_) => true
    case Recover(addr, _) => addr in d.stored
    case Refresh(_, _, _) => true
    case Republish(id, _) => id in d.rows && d.rows[id].state == Fill && Signed(d.rows[id])
  }

  // ---- Steps on the control side

  function SetPhase(c: Control, t: TaskId, p: Phase): Control
    requires t in c.tasks
  {
    c.(tasks := c.tasks[t := c.tasks[t].(phase := p)])
  }

  function SnapshotStep(c: Control, stored: map<Address, nat>, active: set<Address>): Control {
    c.(batches := c.batches[c.nextBatch := map a | a in active && a in stored :: stored[a]], nextBatch := c.nextBatch + 1)
  }

  function DispatchStep(c: Control, b: nat): Control
    requires b in c.batches
  {
    var active := c.batches[b].Keys;
    var works := UpdatedWorks(c.works, c.slots, active, c.generation);
    c.(works := works, slots := UpdatedSlots(c.works, c.slots, active, c.generation), generation := c.generation + 1,
       batches := c.batches - {b}, tasks := c.tasks + SpawnedTasks(works, b, c.batches[b]))
  }

  function TakeSlot(c: Control, t: TaskId): Control
    requires t in c.tasks && c.tasks[t].work in c.slots
  {
    SetPhase(c.(slots := c.slots[c.tasks[t].work := Slot(true, false)]), t, Holding)
  }

  function ReleaseStep(c: Control, t: TaskId): Control
    requires t in c.tasks && c.tasks[t].work in c.slots
  {
    SetPhase(c.(slots := c.slots[c.tasks[t].work := c.slots[c.tasks[t].work].(full := false)]), t, Done)
  }

  // ---- Steps on the data side

  function PushStep(d: Data, id: MessageId, msg: Message): Data {
    d.(rows := d.rows[id := PushedRow(msg)],
       stored := if msg.from in d.stored then d.stored else d.stored[msg.from := 0])
  }

  /** One transaction stores the selected rows, the advanced nonce and the errors. */
  function CommitStep(d: Data, addr: Address, base: nat, picks: seq<Choice>, errs: seq<ErrInfo>): Data {
    d.(rows := SaveErrs(SaveRows(d.rows, picks), errs),
       stored := if picks == [] then d.stored else d.stored[addr := base + |picks|],
       committed := d.committed + SignedPicks(picks))
  }

  function ReplaceStep(d: Data, id: MessageId, gasFeeCap: nat, gasPremium: nat, sig: Signature): Data
    requires id in d.rows
  {
    var r := ReplacedRow(d.rows[id], gasFeeCap, gasPremium, sig);
    d.(rows := d.rows[id := r], committed := d.committed + {SignedOf(r)})
  }

  // ---- Steps of the system

  /** Taking the slot: a closed channel or a missing address record crashes the program, a full slot makes
      the selection give up. */
  function AcquireStep(s: Sys, t: TaskId): Sys
    requires t in s.ctl.tasks && s.ctl.tasks[t].work in s.ctl.slots
  {
    var slot := s.ctl.slots[s.ctl.tasks[t].work];
    if slot.closed then s.(crashed := true)
    else if slot.full then s.(ctl := SetPhase(s.ctl, t, Done))
    else if s.ctl.tasks[t].snap.None? then s.(crashed := true)
    else s.(ctl := TakeSlot(s.ctl, t))
  }

  ghost function Step(s: Sys, e: Event): Sys
    requires Enabled(s, e)
  {
    var d, c := s.data, s.ctl;
    match e
    case Push(id, msg) => s.(data := PushStep(d, id, msg))
    case Snapshot(active) => s.(ctl := SnapshotStep(c, d.stored, active))
    case Dispatch(b) => s.(ctl := DispatchStep(c, b))
    case Check(t) => s.(ctl := SetPhase(c, t, if c.slots[c.tasks[t].work].closed then Done else Checked))
    case Acquire(t) => AcquireStep(s, t)
    case Rebase(t, chain, _, base) =>
      s.(data := if chain > c.tasks[t].snap.value then d.(stored := d.stored[t.addr := base]) else d,
         ctl := SetPhase(c, t, Based(base, chain)))
    case Pick(t, picks, errs) =>
      s.(ctl := SetPhase(c, t, Selected(c.tasks[t].phase.base, picks, Pushable(d.rows, t.addr, c.tasks[t].phase.chain), errs)))
    case Commit(t) =>
      var p := c.tasks[t].phase;
      s.(data := CommitStep(d, t.addr, p.base, p.picks, p.errs),
         ctl := SetPhase(c, t, Committed(p.toPush + SignedPicks(p.picks))))
    case Send(t, delivered) =>
      s.(data := if delivered then d.(sent := d.sent + c.tasks[t].phase.out) else d, ctl := SetPhase(c, t, Finished))
    case Abort(t) => s.(ctl := SetPhase(c, t, Finished))
    case Release(t) => s.(ctl := ReleaseStep(c, t))
    case Replace(id, gasFeeCap, gasPremium, sig) => s.(data := ReplaceStep(d, id, gasFeeCap, gasPremium, sig))
    case MarkBad(id) => s.(data := d.(rows := d.rows[id := d.rows[id].(state := Failed)]))
    case Clear(addr) => s.(data := d.(rows := ClearRows(d.rows, addr)))
    case Recover(addr, actorNonce) =>
      if d.stored[addr] < actorNonce then s else s.(data := d.(rows := RecoverRows(d.rows, addr, actorNonce)))
    case Refresh(active, heights, ams) => s.(data := d.(rows := RefreshTable(d.rows, active, heights, ams)))
    case Republish(id, delivered) =>
      if delivered then s.(data := d.(sent := d.sent + {SignedOf(d.rows[id])})) else s
  }

  ghost predicate Next(s: Sys, e: Event, s': Sys) {
    !s.crashed && Enabled(s, e) && s' == Step(s, e)
  }

  // ---- Invariants ----------------------------------------------------------------------------------

  /** No two signed rows of one address share a nonce, and all of them are below its stored nonce. */
  ghost predicate NonceSafe(rows: Table, stored: map<Address, nat>) {
    && UniqueNonces(rows)
    && forall i :: i in rows && Signed(rows[i]) ==>
         rows[i].msg.from in stored && rows[i].msg.nonce < stored[rows[i].msg.from]
  }

  /** Everything sent was stored signed before, and everything stored signed is below the stored nonce. */
  ghost predicate OutputsOk(d: Data) {
    && d.sent <= d.committed
    && (forall i :: i in d.rows && Signed(d.rows[i]) ==> SignedOf(d.rows[i]) in d.committed)
    && (forall m :: m in d.committed ==> m.msg.from in d.stored && m.msg.nonce < d.stored[m.msg.from])
  }

  ghost predicate DataOk(d: Data) {
    RowsOk(d.rows) && NonceSafe(d.rows, d.stored) && OutputsOk(d)
  }

  ghost predicate SlotsOk(c: Control) {
    && (forall w :: w in c.slots ==> w.generation < c.generation)
    && (forall a :: a in c.works ==> c.works[a].addr == a && c.works[a] in c.slots && !c.slots[c.works[a]].closed)
    && (forall w :: w in c.slots && !c.slots[w].closed ==> w.addr in c.works && c.works[w.addr] == w)
  }

  ghost predicate IdsOk(c: Control) {
    && (forall t :: t in c.tasks ==> c.tasks[t].work in c.slots && c.tasks[t].work.addr == t.addr)
    && (forall b :: b in c.batches ==> b < c.nextBatch)
    && (forall t :: t in c.tasks ==> t.batch < c.nextBatch && t.batch !in c.batches)
  }

  /** A selection past the slot belongs to its address's current worker, whose slot is taken. */
  ghost predicate HoldersOk(c: Control) {
    forall t :: t in c.tasks && Holds(c.tasks[t].phase) ==>
      && t.addr in c.works && c.works[t.addr] == c.tasks[t].work
      && c.tasks[t].work in c.slots && c.slots[c.tasks[t].work].full
  }

  /** At most one selection runs per address. */
  ghost predicate Exclusive(c: Control) {
    forall t, u :: t in c.tasks && u in c.tasks && Holds(c.tasks[t].phase) && Holds(c.tasks[u].phase) && t.addr == u.addr ==> t == u
  }

  ghost predicate ControlOk(c: Control) {
    SlotsOk(c) && IdsOk(c) && HoldersOk(c) && Exclusive(c)
  }

  /** The picks of a selection still to be stored: unsigned rows of the address, to be filled with nonces
      from the base on. */
  ghost predicate PendingPicks(rows: Table, addr: Address, base: nat, picks: seq<Choice>) {
    && (forall j :: 0 <= j < |picks| ==>
          && picks[j].id in rows && !Signed(rows[picks[j].id]) && rows[picks[j].id].msg.from == addr
          && RowOk(picks[j].row) && Signed(picks[j].row)
          && picks[j].row.msg.from == addr && picks[j].row.msg.nonce == base + j)
    && (forall i, j :: 0 <= i < j < |picks| ==> picks[i].id != picks[j].id)
  }

  /** While a selection holds the slot the stored nonce of its address is the nonce it works with. */
  ghost predicate TaskOk(d: Data, addr: Address, task: Task) {
    match task.phase
    case Holding => task.snap.Some? && addr in d.stored && d.stored[addr] == task.snap.value
    case Based(base, _) => addr in d.stored && d.stored[addr] == base
    case Selected(base, picks, toPush, _) =>
      addr in d.stored && d.stored[addr] == base && PendingPicks(d.rows, addr, base, picks) && toPush <= d.committed
    case Committed(out) => out <= d.committed
    case _ => true
  }

  ghost predicate TasksOk(d: Data, tasks: map<TaskId, Task>) {
    forall t :: t in tasks ==> TaskOk(d, t.addr, tasks[t])
  }

  ghost predicate Inv(s: Sys) {
    DataOk(s.data) && ControlOk(s.ctl) && TasksOk(s.data, s.ctl.tasks)
  }

  /** The event lets its task take the slot. */
  predicate TakesSlot(c: Control, e: Event) {
    && e.Acquire? && e.task in c.tasks && c.tasks[e.task].snap.Some? && c.tasks[e.task].work in c.slots
    && !c.slots[c.tasks[e.task].work].full && !c.slots[c.tasks[e.task].work].closed
  }

  /** The slot is only taken with a snapshot that is still the stored nonce. */
  ghost predicate FreshAcquire(s: Sys, e: Event) {
    TakesSlot(s.ctl, e) ==>
      e.task.addr in s.data.stored && s.data.stored[e.task.addr] == s.ctl.tasks[e.task].snap.value
  }

  // ---- The control side keeps its order --------------------------------------------------------------

  /** After an update the workers are those of the active addresses plus the inactive ones that were busy,
      and every worker that existed before is kept as it was. */
  lemma UpdatedWorksKeys(c: Control, active: set<Address>)
    requires SlotsOk(c)
    ensures var works := UpdatedWorks(c.works, c.slots, active, c.generation);
            && (forall a :: a in works <==> a in active || (a in c.works && c.slots[c.works[a]].full))
            && (forall a :: a in works && a in c.works ==> works[a] == c.works[a])
            && (forall a :: a in works && a !in c.works ==> works[a] == Work(a, c.generation))
  {
  }

  lemma UpdatedSlotsAt(c: Control, active: set<Address>, w: Work)
    requires SlotsOk(c)
    ensures var slots := UpdatedSlots(c.works, c.slots, active, c.generation);
            && (w in slots <==> w in c.slots || (w.addr in active && w.addr !in c.works && w.generation == c.generation))
            && (w in c.slots ==> slots[w] == if Retires(w, c.works, c.slots, active) then Slot(true, true) else c.slots[w])
            && (w in slots && w !in c.slots ==> slots[w] == Slot(false, false))
  {
    if w.addr in active && w.addr !in c.works && w.generation == c.generation {
      assert w == Work(w.addr, c.generation);
    }
  }

  lemma DispatchSlots(c: Control, b: nat)
    requires SlotsOk(c) && b in c.batches
    ensures SlotsOk(DispatchStep(c, b))
  {
    var c' := DispatchStep(c, b);
    var active := c.batches[b].Keys;
    UpdatedWorksKeys(c, active);
    forall w | w in c'.slots
      ensures w.generation < c'.generation
      ensures !c'.slots[w].closed ==> w.addr in c'.works && c'.works[w.addr] == w
    {
      UpdatedSlotsAt(c, active, w);
    }
    forall a | a in c'.works
      ensures c'.works[a].addr == a && c'.works[a] in c'.slots && !c'.slots[c'.works[a]].closed
    {
      UpdatedSlotsAt(c, active, c'.works[a]);
    }
  }

  lemma SpawnedTasksAt(works: map<Address, Work>, b: nat, snaps: map<Address, nat>, t: TaskId)
    ensures t in SpawnedTasks(works, b, snaps) <==> t.batch == b && t.addr in works
    ensures t in SpawnedTasks(works, b, snaps) ==> SpawnedTasks(works, b, snaps)[t].phase == Spawned
  {
    if t.batch == b && t.addr in works {
      assert t == TaskId(b, t.addr);
    }
  }

  /** A dispatch leaves the existing tasks alone and only adds spawned ones. */
  lemma DispatchTasks(c: Control, b: nat, t: TaskId)
    requires IdsOk(c) && b in c.batches
    ensures var c' := DispatchStep(c, b);
            && (t in c.tasks ==> t in c'.tasks && c'.tasks[t] == c.tasks[t])
            && (t in c'.tasks && t !in c.tasks ==>
                  c'.tasks[t].phase == Spawned && t.batch == b && t.addr in c'.works && c'.tasks[t].work == c'.works[t.addr])
  {
    var works := UpdatedWorks(c.works, c.slots, c.batches[b].Keys, c.generation);
    SpawnedTasksAt(works, b, c.batches[b], t);
  }

  lemma DispatchIds(c: Control, b: nat)
    requires ControlOk(c) && b in c.batches
    ensures IdsOk(DispatchStep(c, b))
  {
    var c' := DispatchStep(c, b);
    DispatchSlots(c, b);
    forall t | t in c'.tasks
      ensures c'.tasks[t].work in c'.slots && c'.tasks[t].work.addr == t.addr
      ensures t.batch < c'.nextBatch && t.batch !in c'.batches
    {
      DispatchTasks(c, b, t);
      if t in c.tasks {
        UpdatedSlotsAt(c, c.batches[b].Keys, c.tasks[t].work);
      }
    }
  }

  lemma DispatchHolders(c: Control, b: nat)
    requires ControlOk(c) && b in c.batches
    ensures HoldersOk(DispatchStep(c, b)) && Exclusive(DispatchStep(c, b))
  {
    var c' := DispatchStep(c, b);
    var active := c.batches[b].Keys;
    forall t | t in c'.tasks && Holds(c'.tasks[t].phase)
      ensures t in c.tasks && c'.tasks[t] == c.tasks[t]
      ensures t.addr in c'.works && c'.works[t.addr] == c'.tasks[t].work
      ensures c'.tasks[t].work in c'.slots && c'.slots[c'.tasks[t].work].full
    {
      DispatchTasks(c, b, t);
      UpdatedWorksKeys(c, active);
      UpdatedSlotsAt(c, active, c.tasks[t].work);
    }
  }

  lemma DispatchOk(c: Control, b: nat)
    requires ControlOk(c) && b in c.batches
    ensures ControlOk(DispatchStep(c, b))
    ensures forall t :: t in c.tasks ==> t in DispatchStep(c, b).tasks && DispatchStep(c, b).tasks[t] == c.tasks[t]
    ensures forall t :: t in DispatchStep(c, b).tasks && t !in c.tasks ==> DispatchStep(c, b).tasks[t].phase == Spawned
  {
    DispatchSlots(c, b);
    DispatchIds(c, b);
    DispatchHolders(c, b);
    forall t
      ensures t in c.tasks ==> t in DispatchStep(c, b).tasks && DispatchStep(c, b).tasks[t] == c.tasks[t]
      ensures t in DispatchStep(c, b).tasks && t !in c.tasks ==> DispatchStep(c, b).tasks[t].phase == Spawned
    {
      DispatchTasks(c, b, t);
    }
  }

  /** A selection that does not gain the slot may change its phase freely. */
  lemma SetPhaseOk(c: Control, t: TaskId, p: Phase)
    requires ControlOk(c) && t in c.tasks && (Holds(p) ==> Holds(c.tasks[t].phase))
    ensures ControlOk(SetPhase(c, t, p))
  {
  }

  lemma TakeSlotOk(c: Control, t: TaskId)
    requires ControlOk(c) && t in c.tasks && c.tasks[t].work in c.slots
    requires !c.slots[c.tasks[t].work].full && !c.slots[c.tasks[t].work].closed
    ensures ControlOk(TakeSlot(c, t))
  {
    var c' := TakeSlot(c, t);
    forall u | u in c.tasks && u != t && Holds(c.tasks[u].phase)
      ensures u.addr != t.addr
    {
    }
  }

  lemma ReleaseOk(c: Control, t: TaskId)
    requires ControlOk(c) && AtPhase(c, t, Finished) && c.tasks[t].work in c.slots
    ensures ControlOk(ReleaseStep(c, t))
  {
    var c' := ReleaseStep(c, t);
    forall u | u in c'.tasks && Holds(c'.tasks[u].phase)
      ensures c'.tasks[u].work in c'.slots && c'.slots[c'.tasks[u].work].full
    {
      assert u != t && u.addr != t.addr;
    }
  }

  lemma SnapshotOk(c: Control, stored: map<Address, nat>, active: set<Address>)
    requires ControlOk(c)
    ensures ControlOk(SnapshotStep(c, stored, active))
  {
  }

  // ---- The data side ----------------------------------------------------------------------------------

  /** Rows of an address are still there and no more signed than before. */
  ghost predicate RowsFrame(rows: Table, rows': Table, addr: Address) {
    forall i :: i in rows && rows[i].msg.from == addr ==>
      i in rows' && rows'[i].msg.from == addr && (Signed(rows'[i]) ==> Signed(rows[i]))
  }

  ghost predicate DataFrame(d: Data, d': Data, addr: Address) {
    && RowsFrame(d.rows, d'.rows, addr)
    && (addr in d.stored ==> addr in d'.stored && d'.stored[addr] == d.stored[addr])
    && d.committed <= d'.committed
  }

  lemma TaskFrame(d: Data, d': Data, addr: Address, task: Task)
    requires TaskOk(d, addr, task) && DataFrame(d, d', addr)
    ensures TaskOk(d', addr, task)
  {
    if task.phase.Selected? {
      var picks := task.phase.picks;
      forall j | 0 <= j < |picks|
        ensures picks[j].id in d'.rows && !Signed(d'.rows[picks[j].id]) && d'.rows[picks[j].id].msg.from == addr
      {
      }
    }
  }

  lemma TasksFrame(d: Data, d': Data, tasks: map<TaskId, Task>)
    requires TasksOk(d, tasks) && forall addr :: DataFrame(d, d', addr)
    ensures TasksOk(d', tasks)
  {
    forall t | t in tasks
      ensures TaskOk(d', t.addr, tasks[t])
    {
      TaskFrame(d, d', t.addr, tasks[t]);
    }
  }

  lemma PushOk(d: Data, id: MessageId, msg: Message, tasks: map<TaskId, Task>)
    requires DataOk(d) && TasksOk(d, tasks) && id !in d.rows
    ensures DataOk(PushStep(d, id, msg)) && TasksOk(PushStep(d, id, msg), tasks)
  {
    TasksFrame(d, PushStep(d, id, msg), tasks);
  }

  lemma ReplaceOk(d: Data, id: MessageId, gasFeeCap: nat, gasPremium: nat, sig: Signature, tasks: map<TaskId, Task>)
    requires DataOk(d) && TasksOk(d, tasks) && id in d.rows && d.rows[id].state == Fill
    ensures DataOk(ReplaceStep(d, id, gasFeeCap, gasPremium, sig))
    ensures TasksOk(ReplaceStep(d, id, gasFeeCap, gasPremium, sig), tasks)
  {
    assert RowOk(d.rows[id]);
    TasksFrame(d, ReplaceStep(d, id, gasFeeCap, gasPremium, sig), tasks);
  }

  /** Same messages and signatures; only state, height, receipt, key and error columns differ. */
  ghost predicate Relabelled(rows: Table, rows': Table) {
    && rows'.Keys == rows.Keys
    && forall i :: i in rows ==> rows'[i].msg == rows[i].msg && rows'[i].sig == rows[i].sig
  }

  lemma RelabelOk(d: Data, rows': Table, tasks: map<TaskId, Task>)
    requires DataOk(d) && TasksOk(d, tasks) && Relabelled(d.rows, rows') && RowsOk(rows')
    ensures DataOk(d.(rows := rows')) && TasksOk(d.(rows := rows'), tasks)
  {
    var d' := d.(rows := rows');
    RelabelSafe(d.rows, rows', d.stored);
    RelabelSigned(d.rows, rows', d.committed);
    TasksFrame(d, d', tasks);
  }

  lemma RelabelSigned(rows: Table, rows': Table, committed: set<SignedMessage>)
    requires Relabelled(rows, rows') && forall i :: i in rows && Signed(rows[i]) ==> SignedOf(rows[i]) in committed
    ensures forall i :: i in rows' && Signed(rows'[i]) ==> SignedOf(rows'[i]) in committed
  {
    forall i | i in rows' && Signed(rows'[i])
      ensures SignedOf(rows'[i]) in committed
    {
      assert SignedOf(rows'[i]) == SignedOf(rows[i]);
    }
  }

  lemma RelabelSafe(rows: Table, rows': Table, stored: map<Address, nat>)
    requires Relabelled(rows, rows') && NonceSafe(rows, stored)
    ensures NonceSafe(rows', stored) && forall addr :: RowsFrame(rows, rows', addr)
  {
  }

  lemma RecoverOk(d: Data, addr: Address, actorNonce: nat, tasks: map<TaskId, Task>)
    requires DataOk(d) && TasksOk(d, tasks)
    ensures DataOk(d.(rows := RecoverRows(d.rows, addr, actorNonce)))
    ensures TasksOk(d.(rows := RecoverRows(d.rows, addr, actorNonce)), tasks)
  {
    forall i | i in d.rows
      ensures RowOk(RecoverRows(d.rows, addr, actorNonce)[i])
    {
      assert RowOk(d.rows[i]);
    }
    RelabelOk(d, RecoverRows(d.rows, addr, actorNonce), tasks);
  }

  lemma ClearOk(d: Data, addr: Address, tasks: map<TaskId, Task>)
    requires DataOk(d) && TasksOk(d, tasks)
    ensures DataOk(d.(rows := ClearRows(d.rows, addr))) && TasksOk(d.(rows := ClearRows(d.rows, addr)), tasks)
  {
    forall i | i in d.rows
      ensures RowOk(ClearRows(d.rows, addr)[i])
    {
      assert RowOk(d.rows[i]);
    }
    RelabelOk(d, ClearRows(d.rows, addr), tasks);
  }

  lemma RefreshOk(d: Data, active: set<Address>, heights: set<nat>, ams: seq<ApplyMessage>, tasks: map<TaskId, Task>)
    requires DataOk(d) && TasksOk(d, tasks)
    ensures DataOk(d.(rows := RefreshTable(d.rows, active, heights, ams)))
    ensures TasksOk(d.(rows := RefreshTable(d.rows, active, heights, ams)), tasks)
  {
    var rows' := RefreshTable(d.rows, active, heights, ams);
    assert Refreshed(d.rows, rows', active, heights, ams);
    RefreshedOk(d.rows, rows', active, heights, ams);
    RelabelOk(d, rows', tasks);
  }

  // ---- Commits ---------------------------------------------------------------------------------------

  ghost predicate PickedId(picks: seq<Choice>, i: MessageId) {
    exists j :: 0 <= j < |picks| && picks[j].id == i
  }

  lemma {:induction false} SaveRowsAt(t: Table, picks: seq<Choice>)
    requires forall i, j :: 0 <= i < j < |picks| ==> picks[i].id != picks[j].id
    ensures forall j :: 0 <= j < |picks| ==> picks[j].id in SaveRows(t, picks) && SaveRows(t, picks)[picks[j].id] == picks[j].row
    ensures forall i :: i in t && !PickedId(picks, i) ==> i in SaveRows(t, picks) && SaveRows(t, picks)[i] == t[i]
    ensures forall i :: i in SaveRows(t, picks) ==> i in t || PickedId(picks, i)
  {
    if picks != [] {
      var front := picks[..|picks| - 1];
      SaveRowsAt(t, front);
      forall i | PickedId(front, i)
        ensures PickedId(picks, i)
      {
        var j :| 0 <= j < |front| && front[j].id == i;
        assert picks[j].id == i;
      }
      assert PickedId(picks, picks[|picks| - 1].id);
      forall j | 0 <= j < |picks|
        ensures picks[j].id in SaveRows(t, picks) && SaveRows(t, picks)[picks[j].id] == picks[j].row
      {
        if j < |front| {
          assert front[j] == picks[j];
        }
      }
    }
  }

  lemma {:induction false} SaveErrsAt(t: Table, errs: seq<ErrInfo>)
    ensures SaveErrs(t, errs).Keys == t.Keys
    ensures forall i :: i in t ==> SaveErrs(t, errs)[i] == t[i].(errorMsg := SaveErrs(t, errs)[i].errorMsg)
  {
    if errs != [] {
      SaveErrsAt(t, errs[..|errs| - 1]);
    }
  }

  /** Recording errors leaves a row alone if none is for it, and otherwise changes its error column to the text recorded
      last. */
  lemma {:induction false} SaveErrsText(t: Table, errs: seq<ErrInfo>, i: MessageId)
    requires i in t
    ensures i in SaveErrs(t, errs)
    ensures (forall k :: 0 <= k < |errs| ==> errs[k].id != i) ==> SaveErrs(t, errs)[i] == t[i]
    ensures forall k :: 0 <= k < |errs| && errs[k].id == i && (forall j :: k < j < |errs| ==> errs[j].id != i)
              ==> SaveErrs(t, errs)[i] == t[i].(errorMsg := errs[k].err)
  {
    SaveErrsAt(t, errs);
    if errs != [] {
      var front, last := errs[..|errs| - 1], errs[|errs| - 1];
      SaveErrsAt(t, front);
      SaveErrsText(t, front, i);
      if last.id != i {
        assert SaveErrs(t, errs)[i] == SaveErrs(t, front)[i];
        forall k | 0 <= k < |errs| && errs[k].id == i && (forall j :: k < j < |errs| ==> errs[j].id != i)
          ensures SaveErrs(t, errs)[i] == t[i].(errorMsg := errs[k].err)
        {
          assert front[k] == errs[k];
        }
      }
    }
  }

  /** The rows a commit leaves: a picked id holds its pick, every other row is as before, up to the recorded
      error text. */
  ghost predicate CommittedRows(t: Table, t': Table, picks: seq<Choice>) {
    && t'.Keys == t.Keys
    && (forall j :: 0 <= j < |picks| ==> picks[j].id in t' && t'[picks[j].id] == picks[j].row.(errorMsg := t'[picks[j].id].errorMsg))
    && (forall i :: i in t && !PickedId(picks, i) ==> t'[i] == t[i].(errorMsg := t'[i].errorMsg))
  }

  lemma CommitRows(t: Table, addr: Address, base: nat, picks: seq<Choice>, errs: seq<ErrInfo>)
    requires PendingPicks(t, addr, base, picks)
    ensures CommittedRows(t, SaveErrs(SaveRows(t, picks), errs), picks)
  {
    SaveRowsAt(t, picks);
    SaveErrsAt(SaveRows(t, picks), errs);
    assert SaveRows(t, picks).Keys == t.Keys;
  }

  /** Every signed row of the address has a nonce below the base. */
  ghost predicate AllBelow(t: Table, addr: Address, base: nat) {
    forall i :: i in t && Signed(t[i]) && t[i].msg.from == addr ==> t[i].msg.nonce < base
  }

  /** A signed row after a commit is a pick, with a nonce from the base on, or an older signed row. */
  lemma CommitNonce(t: Table, t': Table, addr: Address, base: nat, picks: seq<Choice>, i: MessageId)
    requires PendingPicks(t, addr, base, picks) && CommittedRows(t, t', picks) && i in t'
    ensures PickedId(picks, i) ==>
              Signed(t'[i]) && !Signed(t[i]) && t'[i].msg.from == addr && base <= t'[i].msg.nonce < base + |picks|
    ensures !PickedId(picks, i) ==> t'[i].sig == t[i].sig && t'[i].msg == t[i].msg
  {
  }

  lemma CommitUnique(t: Table, t': Table, addr: Address, base: nat, picks: seq<Choice>)
    requires UniqueNonces(t) && AllBelow(t, addr, base)
    requires PendingPicks(t, addr, base, picks) && CommittedRows(t, t', picks)
    ensures UniqueNonces(t')
  {
    forall i, k | i in t' && k in t' && Signed(t'[i]) && Signed(t'[k]) && SameSender(t'[i], t'[k])
      ensures i == k
    {
      CommitNonce(t, t', addr, base, picks, i);
      CommitNonce(t, t', addr, base, picks, k);
      if PickedId(picks, i) && PickedId(picks, k) {
        var x :| 0 <= x < |picks| && picks[x].id == i;
        var y :| 0 <= y < |picks| && picks[y].id == k;
        assert x == y;
      }
    }
  }

  /** Exactly when a commit is safe: storing a non-empty selection from `base` keeps nonces unique and below
      the stored nonce if and only if every signed row of the address is below that base. */
  lemma CommitExact(t: Table, t': Table, stored: map<Address, nat>, addr: Address, base: nat, picks: seq<Choice>)
    requires NonceSafe(t, stored)
    requires PendingPicks(t, addr, base, picks) && picks != [] && CommittedRows(t, t', picks)
    ensures NonceSafe(t', stored[addr := base + |picks|]) <==> AllBelow(t, addr, base)
  {
    var stored' := stored[addr := base + |picks|];
    if AllBelow(t, addr, base) {
      CommitUnique(t, t', addr, base, picks);
      forall i | i in t' && Signed(t'[i])
        ensures t'[i].msg.from in stored' && t'[i].msg.nonce < stored'[t'[i].msg.from]
      {
        CommitNonce(t, t', addr, base, picks, i);
      }
    }
    if !AllBelow(t, addr, base) {
      var i :| i in t && Signed(t[i]) && t[i].msg.from == addr && t[i].msg.nonce >= base;
      CommitNonce(t, t', addr, base, picks, i);
      if t[i].msg.nonce < base + |picks| {
        CommitClash(t, t', addr, base, picks, i);
      }
    }
  }

  /** A signed row whose nonce a commit hands out again clashes with the pick that gets it. */
  lemma CommitClash(t: Table, t': Table, addr: Address, base: nat, picks: seq<Choice>, i: MessageId)
    requires PendingPicks(t, addr, base, picks) && CommittedRows(t, t', picks)
    requires i in t && Signed(t[i]) && t[i].msg.from == addr && base <= t[i].msg.nonce < base + |picks|
    ensures !UniqueNonces(t')
  {
    var j := t[i].msg.nonce - base;
    CommitNonce(t, t', addr, base, picks, i);
    assert SameSender(t'[i], t'[picks[j].id]) && picks[j].id != i;
  }

  lemma CommitData(d: Data, addr: Address, base: nat, picks: seq<Choice>, errs: seq<ErrInfo>)
    requires DataOk(d) && addr in d.stored && d.stored[addr] == base && PendingPicks(d.rows, addr, base, picks)
    ensures DataOk(CommitStep(d, addr, base, picks, errs))
    ensures forall other :: other != addr ==> DataFrame(d, CommitStep(d, addr, base, picks, errs), other)
  {
    var d' := CommitStep(d, addr, base, picks, errs);
    CommitRows(d.rows, addr, base, picks, errs);
    forall i | i in d'.rows
      ensures RowOk(d'.rows[i])
      ensures Signed(d'.rows[i]) ==> SignedOf(d'.rows[i]) in d'.committed
    {
      assert RowOk(d.rows[i]);
      CommitNonce(d.rows, d'.rows, addr, base, picks, i);
      if PickedId(picks, i) {
        var j :| 0 <= j < |picks| && picks[j].id == i;
        assert SignedOf(picks[j].row) in SignedPicks(picks);
      }
    }
    CommitSafe(d, addr, base, picks, errs);
    forall other | other != addr
      ensures RowsFrame(d.rows, d'.rows, other)
    {
      forall i | i in d.rows && d.rows[i].msg.from == other
        ensures i in d'.rows && d'.rows[i].msg.from == other && (Signed(d'.rows[i]) ==> Signed(d.rows[i]))
      {
        CommitNonce(d.rows, d'.rows, addr, base, picks, i);
      }
    }
  }

  lemma CommitSafe(d: Data, addr: Address, base: nat, picks: seq<Choice>, errs: seq<ErrInfo>)
    requires DataOk(d) && addr in d.stored && d.stored[addr] == base && PendingPicks(d.rows, addr, base, picks)
    requires CommittedRows(d.rows, CommitStep(d, addr, base, picks, errs).rows, picks)
    ensures var d' := CommitStep(d, addr, base, picks, errs);
            && NonceSafe(d'.rows, d'.stored)
            && forall m :: m in d'.committed ==> m.msg.from in d'.stored && m.msg.nonce < d'.stored[m.msg.from]
  {
    var d' := CommitStep(d, addr, base, picks, errs);
    assert AllBelow(d.rows, addr, base);
    if picks == [] {
      CommitUnique(d.rows, d'.rows, addr, base, picks);
      forall i | i in d'.rows && Signed(d'.rows[i])
        ensures d'.rows[i].msg.from in d'.stored && d'.rows[i].msg.nonce < d'.stored[d'.rows[i].msg.from]
      {
        CommitNonce(d.rows, d'.rows, addr, base, picks, i);
      }
    } else {
      CommitExact(d.rows, d'.rows, d.stored, addr, base, picks);
    }
  }

  // ---- Preservation ------------------------------------------------------------------------------------

  /** Changing one task, with the data framed for every other address. */
  lemma TasksStep(d: Data, d': Data, c: Control, t: TaskId, p: Phase)
    requires TasksOk(d, c.tasks) && Exclusive(c) && t in c.tasks && Holds(c.tasks[t].phase)
    requires forall other :: other != t.addr ==> DataFrame(d, d', other)
    requires TaskOk(d', t.addr, c.tasks[t].(phase := p))
    ensures TasksOk(d', SetPhase(c, t, p).tasks)
  {
    var tasks' := SetPhase(c, t, p).tasks;
    forall u | u in tasks' && u != t
      ensures TaskOk(d', u.addr, tasks'[u])
    {
      if u.addr != t.addr {
        TaskFrame(d, d', u.addr, c.tasks[u]);
      } else {
        assert !Holds(c.tasks[u].phase);
      }
    }
  }

  /** Under the invariant the base is the stored nonce, or the chain's when that is larger: raising it past the
      largest nonce in the table is never needed. */
  lemma BaseIsFresh(s: Sys, e: Event)
    requires Inv(s) && e.Rebase? && Enabled(s, e)
    ensures e.task.addr in s.data.stored && e.newBase >= s.data.stored[e.task.addr]
    ensures e.newChain <= s.ctl.tasks[e.task].snap.value ==> e.newBase == s.data.stored[e.task.addr]
    ensures e.newChain > s.ctl.tasks[e.task].snap.value ==> e.newBase == e.newChain
    ensures AllBelow(s.data.rows, e.task.addr, e.newBase)
  {
    var rows, addr := s.data.rows, e.task.addr;
    var consulted := NonceWitnesses(rows, addr, e.recent);
    assert TaskOk(s.data, addr, s.ctl.tasks[e.task]);
    forall i | i in consulted && i in rows
      ensures rows[i].msg.nonce < s.data.stored[addr]
    {
      assert RowOk(rows[i]);
    }
    var n :| LargestNonce(rows, consulted, n) && e.newBase == BaseNonce(s.ctl.tasks[e.task].snap.value, e.newChain, n);
  }

  /** Without the invariant: exactly when a base nonce is above every row its selection consulted. */
  lemma RebaseAboveConsulted(s: Sys, e: Event)
    requires e.Rebase? && Enabled(s, e)
    ensures var rows, snap := s.data.rows, s.ctl.tasks[e.task].snap.value;
            var consulted := NonceWitnesses(rows, e.task.addr, e.recent);
            (forall i :: i in consulted && i in rows ==> rows[i].msg.nonce < e.newBase) <==>
            if e.newChain <= snap then forall i :: i in consulted && i in rows ==> rows[i].msg.nonce < snap
            else !LargestNonce(rows, consulted, e.newChain)
  {
    BaseAboveConsulted(s.data.rows, e.task.addr, e.recent, s.ctl.tasks[e.task].snap.value, e.newChain, e.newBase);
  }

  /** Raising the stored nonce of one address. */
  lemma RaiseOk(d: Data, addr: Address, n: nat, d': Data)
    requires DataOk(d) && addr in d.stored && d.stored[addr] <= n && d' == d.(stored := d.stored[addr := n])
    ensures DataOk(d') && forall other :: other != addr ==> DataFrame(d, d', other)
  {
  }

  lemma RebaseKeeps(s: Sys, e: Event)
    requires Inv(s) && e.Rebase? && Enabled(s, e)
    ensures Inv(Step(s, e))
  {
    var t, d, d' := e.task, s.data, Step(s, e).data;
    BaseIsFresh(s, e);
    assert d' == d.(stored := d.stored[t.addr := e.newBase]);
    RaiseOk(d, t.addr, e.newBase, d');
    SetPhaseOk(s.ctl, t, Based(e.newBase, e.newChain));
    TasksStep(d, d', s.ctl, t, Based(e.newBase, e.newChain));
  }

  lemma PickKeeps(s: Sys, e: Event)
    requires Inv(s) && e.Pick? && Enabled(s, e)
    ensures Inv(Step(s, e))
  {
    var t, d := e.task, s.data;
    var p := Step(s, e).ctl.tasks[t].phase;
    assert TaskOk(d, t.addr, s.ctl.tasks[t]);
    forall j | 0 <= j < |e.newPicks|
      ensures !Signed(d.rows[e.newPicks[j].id])
    {
      assert RowOk(d.rows[e.newPicks[j].id]);
    }
    SetPhaseOk(s.ctl, t, p);
    TasksStep(d, d, s.ctl, t, p);
  }

  lemma CommitKeeps(s: Sys, t: TaskId)
    requires Inv(s) && Enabled(s, Commit(t))
    ensures Inv(Step(s, Commit(t)))
  {
    var d, p := s.data, s.ctl.tasks[t].phase;
    var p' := Committed(p.toPush + SignedPicks(p.picks));
    assert TaskOk(d, t.addr, s.ctl.tasks[t]);
    CommitData(d, t.addr, p.base, p.picks, p.errs);
    SetPhaseOk(s.ctl, t, p');
    TasksStep(d, CommitStep(d, t.addr, p.base, p.picks, p.errs), s.ctl, t, p');
  }

  lemma SendKeeps(s: Sys, e: Event)
    requires Inv(s) && (e.Send? || e.Abort?) && Enabled(s, e)
    ensures Inv(Step(s, e))
  {
    var t, d, d' := e.task, s.data, Step(s, e).data;
    assert TaskOk(d, t.addr, s.ctl.tasks[t]);
    SetPhaseOk(s.ctl, t, Finished);
    TasksStep(d, d', s.ctl, t, Finished);
  }

  lemma AcquireKeeps(s: Sys, t: TaskId)
    requires Inv(s) && Enabled(s, Acquire(t)) && FreshAcquire(s, Acquire(t))
    ensures Inv(Step(s, Acquire(t)))
  {
    var slot := s.ctl.slots[s.ctl.tasks[t].work];
    if slot.closed {
    } else if slot.full {
      SetPhaseOk(s.ctl, t, Done);
    } else if s.ctl.tasks[t].snap.Some? {
      TakeSlotOk(s.ctl, t);
    }
  }

  /** An event that does not concern the workers or a selection. */
  predicate DataEvent(e: Event) {
    e.Push? || e.Replace? || e.MarkBad? || e.Clear? || e.Recover? || e.Refresh? || e.Republish?
  }

  lemma RepublishOk(d: Data, m: SignedMessage, tasks: map<TaskId, Task>)
    requires DataOk(d) && TasksOk(d, tasks) && m in d.committed
    ensures DataOk(d.(sent := d.sent + {m})) && TasksOk(d.(sent := d.sent + {m}), tasks)
  {
    TasksFrame(d, d.(sent := d.sent + {m}), tasks);
  }

  lemma MarkBadOk(d: Data, id: MessageId, tasks: map<TaskId, Task>)
    requires DataOk(d) && TasksOk(d, tasks) && id in d.rows
    ensures var d' := d.(rows := d.rows[id := d.rows[id].(state := Failed)]); DataOk(d') && TasksOk(d', tasks)
  {
    assert RowOk(d.rows[id]);
    RelabelOk(d, d.rows[id := d.rows[id].(state := Failed)], tasks);
  }

  lemma DataStepKeeps(s: Sys, e: Event)
    requires Inv(s) && Enabled(s, e) && DataEvent(e)
    ensures DataOk(Step(s, e).data) && TasksOk(Step(s, e).data, s.ctl.tasks) && Step(s, e).ctl == s.ctl
  {
    var d, c := s.data, s.ctl;
    match e
    case Push(id, msg) => PushOk(d, id, msg, c.tasks);
    case Replace(id, cap, premium, sig) => ReplaceOk(d, id, cap, premium, sig, c.tasks);
    case MarkBad(id) => MarkBadOk(d, id, c.tasks);
    case Clear(addr) => ClearOk(d, addr, c.tasks);
    case Recover(addr, actorNonce) => RecoverOk(d, addr, actorNonce, c.tasks);
    case Refresh(active, heights, ams) => RefreshOk(d, active, heights, ams, c.tasks);
    case Republish(id, delivered) => RepublishOk(d, SignedOf(d.rows[id]), c.tasks);
  }

  lemma DispatchKeeps(s: Sys, b: nat)
    requires Inv(s) && b in s.ctl.batches
    ensures Inv(Step(s, Dispatch(b)))
  {
    DispatchOk(s.ctl, b);
    DispatchTasksOk(s.data, s.ctl, b);
  }

  lemma DispatchTasksOk(d: Data, c: Control, b: nat)
    requires TasksOk(d, c.tasks) && IdsOk(c) && b in c.batches
    ensures TasksOk(d, DispatchStep(c, b).tasks)
  {
    forall t | t in DispatchStep(c, b).tasks
      ensures TaskOk(d, t.addr, DispatchStep(c, b).tasks[t])
    {
      DispatchTasks(c, b, t);
    }
  }

  lemma WorkStepKeeps(s: Sys, e: Event)
    requires Inv(s) && Enabled(s, e) && (e.Snapshot? || e.Dispatch? || e.Check? || e.Release?)
    ensures Inv(Step(s, e))
  {
    var d, c := s.data, s.ctl;
    match e
    case Snapshot(active) => SnapshotOk(c, d.stored, active);
    case Dispatch(b) => DispatchKeeps(s, b);
    case Check(t) => SetPhaseOk(c, t, if c.slots[c.tasks[t].work].closed then Done else Checked);
    case Release(t) => ReleaseOk(c, t);
  }

  /** One step keeps the invariant, provided a slot is only taken with a current snapshot. */
  lemma StepKeeps(s: Sys, e: Event)
    requires Inv(s) && Enabled(s, e) && FreshAcquire(s, e)
    ensures Inv(Step(s, e))
  {
    if DataEvent(e) {
      DataStepKeeps(s, e);
    } else {
      match e
      case Acquire(t) => AcquireKeeps(s, t);
      case Rebase(_, _, _, _) => RebaseKeeps(s, e);
      case Pick(_, _, _) => PickKeeps(s, e);
      case Commit(t) => CommitKeeps(s, t);
      case Send(_, _) => SendKeeps(s, e);
      case Abort(_) => SendKeeps(s, e);
      case _ => WorkStepKeeps(s, e);
    }
  }
}
