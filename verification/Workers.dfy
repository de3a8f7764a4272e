/** Updating the workers for the currently active addresses, as it runs. */
module Workers {
  import opened Messages
  import opened NonceSystem

  type Works = map<Address, Work>
  type Slots = map<Work, Slot>

  ghost predicate Wired(works: Works, slots: Slots, generation: nat) {
    && (forall a :: a in works ==> works[a].addr == a && works[a] in slots)
    && (forall w :: w in slots ==> w.generation < generation)
  }

  function WorkFor(works: Works, a: Address, generation: nat): Work {
    if a in works then works[a] else Work(a, generation)
  }

  predicate Creates(w: Work, works: Works, done: set<Address>, generation: nat) {
    w.addr in done && w.addr !in works && w.generation == generation
  }

  /** After the addresses in `done`: their workers are in `ws` and no longer in `rest`, and the missing ones
      have a fresh empty slot. */
  ghost predicate Kept(
    works: Works, slots: Slots, generation: nat, done: set<Address>, ws: Works, rest: Works, slots': Slots) {
    && ws.Keys == done && (forall a :: a in done ==> ws[a] == WorkFor(works, a, generation))
    && rest == works - done
    && (forall w :: w in slots' <==> (w in slots || Creates(w, works, done, generation)))
    && (forall w :: w in slots' ==> slots'[w] == (if w in slots then slots[w] else Slot(false, false)))
  }

  lemma KeepOne(
    works: Works, slots: Slots, generation: nat, done: set<Address>, ws: Works, rest: Works, slots': Slots,
    a: Address)
    requires Wired(works, slots, generation) && Kept(works, slots, generation, done, ws, rest, slots') && a !in done
    ensures a !in rest ==>
              Kept(works, slots, generation, done + {a}, ws[a := Work(a, generation)], rest,
                   slots'[Work(a, generation) := Slot(false, false)])
    ensures a in rest ==> Kept(works, slots, generation, done + {a}, ws[a := rest[a]], rest - {a}, slots')
  {
    assert a in rest <==> a in works;
    if a !in rest {
      assert Work(a, generation) !in slots;
      assert rest == works - (done + {a});
    }
  }

  predicate IdleIn(w: Work, works: Works, slots: Slots, done: set<Address>) {
    w.addr in done && w.addr in works && works[w.addr] == w && w in slots && !slots[w].full
  }

  /** After the left-over addresses in `done`: the busy workers joined `ws`, the idle ones are closed. */
  ghost predicate Retired(works: Works, slots: Slots, done: set<Address>, ws0: Works, ws: Works, slots': Slots) {
    && (forall a :: a in ws <==> (a in ws0 || (a in done && a in works && works[a] in slots && slots[works[a]].full)))
    && (forall a :: a in ws ==> ws[a] == (if a in ws0 then ws0[a] else works[a]))
    && slots'.Keys == slots.Keys
    && (forall w :: w in slots ==> slots'[w] == (if IdleIn(w, works, slots, done) then Slot(true, true) else slots[w]))
  }

  lemma NoneRetired(works: Works, slots: Slots, ws0: Works)
    ensures Retired(works, slots, {}, ws0, ws0, slots)
  {
  }

  lemma RetireOne(works: Works, slots: Slots, done: set<Address>, ws0: Works, ws: Works, slots': Slots, a: Address)
    requires Retired(works, slots, done, ws0, ws, slots') && a !in done && a in works && a !in ws0
    requires works[a].addr == a && works[a] in slots
    ensures slots'[works[a]].full <==> slots[works[a]].full
    ensures !slots[works[a]].full ==> Retired(works, slots, done + {a}, ws0, ws, slots'[works[a] := Slot(true, true)])
    ensures slots[works[a]].full ==> Retired(works, slots, done + {a}, ws0, ws[a := works[a]], slots')
  {
    assert !IdleIn(works[a], works, slots, done);
  }

  lemma PassesUpdateWorks(
    works: Works, slots: Slots, generation: nat, active: set<Address>, kept: Works, rest: Works, slots1: Slots,
    ws: Works, slots2: Slots)
    requires Wired(works, slots, generation)
    requires Kept(works, slots, generation, active, kept, rest, slots1)
    requires Retired(rest, slots1, rest.Keys, kept, ws, slots2)
    ensures ws == UpdatedWorks(works, slots, active, generation)
  {
    var works' := UpdatedWorks(works, slots, active, generation);
    forall a
      ensures a in ws <==> a in works'
      ensures a in ws ==> ws[a] == works'[a]
    {
      assert a in rest <==> a in works && a !in active;
      if a in rest {
        assert rest[a] == works[a];
        assert works[a] in slots1 && slots1[works[a]] == slots[works[a]];
      }
    }
  }

  lemma PassesUpdateSlots(
    works: Works, slots: Slots, generation: nat, active: set<Address>, kept: Works, rest: Works, slots1: Slots,
    ws: Works, slots2: Slots)
    requires Wired(works, slots, generation)
    requires Kept(works, slots, generation, active, kept, rest, slots1)
    requires Retired(rest, slots1, rest.Keys, kept, ws, slots2)
    ensures slots2 == UpdatedSlots(works, slots, active, generation)
  {
    var slots' := UpdatedSlots(works, slots, active, generation);
    forall w
      ensures w in slots2 <==> w in slots'
      ensures w in slots2 ==> slots2[w] == slots'[w]
    {
      SlotAt(works, slots, generation, active, w);
      assert w.addr in rest <==> w.addr in works && w.addr !in active;
      assert w in slots2 <==> w in slots1;
    }
  }

  lemma SlotAt(works: Works, slots: Slots, generation: nat, active: set<Address>, w: Work)
    requires Wired(works, slots, generation)
    ensures var slots' := UpdatedSlots(works, slots, active, generation);
            && (w in slots' <==> (w in slots || Creates(w, works, active, generation)))
            && (w in slots ==> slots'[w] == (if Retires(w, works, slots, active) then Slot(true, true) else slots[w]))
            && (w in slots' && w !in slots ==> slots'[w] == Slot(false, false))
  {
    if Creates(w, works, active, generation) {
      assert w == Work(w.addr, generation);
    }
  }

  lemma NoneKept(works: Works, slots: Slots, generation: nat)
    ensures Kept(works, slots, generation, {}, map[], works, slots)
  {
    assert works - {} == works;
  }

  /** One address: its worker moves over, or is created with an empty slot. */
  method KeepAddress(ghost works: Works, ghost slots: Slots, generation: nat, ghost done: set<Address>,
                     ws: Works, rest: Works, slots1: Slots, a: Address)
    returns (ws': Works, rest': Works, slots2: Slots)
    requires Wired(works, slots, generation) && Kept(works, slots, generation, done, ws, rest, slots1) && a !in done
    ensures Kept(works, slots, generation, done + {a}, ws', rest', slots2)
  {
    KeepOne(works, slots, generation, done, ws, rest, slots1, a);
    if a !in rest {
      return ws[a := Work(a, generation)], rest, slots1[Work(a, generation) := Slot(false, false)];
    } else {
      return ws[a := rest[a]], rest - {a}, slots1;
    }
  }

  /** Known workers of active addresses move over, missing ones are created. */
  method KeepActive(
    works: Works, slots: Slots, generation: nat, active: set<Address>) returns (ws: Works, rest: Works,
    slots': Slots)
    requires Wired(works, slots, generation)
    ensures Kept(works, slots, generation, active, ws, rest, slots')
  {
    ws, rest, slots' := map[], works, slots;
    NoneKept(works, slots, generation);
    var todo := active;
    ghost var done: set<Address> := {};
    while todo != {}
      invariant todo == active - done && done <= active
      invariant Kept(works, slots, generation, done, ws, rest, slots')
      decreases todo
    {
      var a :| a in todo;
      ws, rest, slots' := KeepAddress(works, slots, generation, done, ws, rest, slots', a);
      done := done + {a};
      todo := todo - {a};
    }
    assert done == active;
  }

  method RetireAddress(
    works: Works, ghost slots: Slots, ghost done: set<Address>, ghost ws0: Works, ws: Works, slots1: Slots,
    a: Address)
    returns (ws': Works, slots2: Slots)
    requires Retired(works, slots, done, ws0, ws, slots1) && a !in done && a in works && a !in ws0
    requires works[a].addr == a && works[a] in slots
    ensures Retired(works, slots, done + {a}, ws0, ws', slots2)
  {
    RetireOne(works, slots, done, ws0, ws, slots1, a);
    if !slots1[works[a]].full {
      return ws, slots1[works[a] := Slot(true, true)];
    } else {
      return ws[a := works[a]], slots1;
    }
  }

  /** Workers left over: an idle one has its slot taken and closed, a busy one is kept. */
  method RetireIdle(works: Works, slots: Slots, ws0: Works) returns (ws: Works, slots': Slots)
    requires forall a :: a in works ==> works[a].addr == a && works[a] in slots && a !in ws0
    ensures Retired(works, slots, works.Keys, ws0, ws, slots')
  {
    ws, slots' := ws0, slots;
    var todo := works.Keys;
    ghost var done: set<Address> := {};
    NoneRetired(works, slots, ws0);
    while todo != {}
      invariant todo == works.Keys - done && done <= works.Keys
      invariant Retired(works, slots, done, ws0, ws, slots')
      decreases todo
    {
      var a :| a in todo;
      ws, slots' := RetireAddress(works, slots, done, ws0, ws, slots', a);
      done := done + {a};
      todo := todo - {a};
    }
    assert done == works.Keys;
  }

  class MsgSelectMgr {
    var works: Works
    var slots: Slots
    var generation: nat

    ghost predicate Valid()
      reads this
    {
      Wired(works, slots, generation)
    }

    constructor ()
      ensures Valid() && works == map[] && slots == map[] && generation == 0
    {
      works, slots, generation := map[], map[], 0;
    }

    /** The update computes the workers and slots of the allocator's dispatch step. */
    method TryUpdateWorks(active: set<Address>)
      requires Valid()
      modifies this
      ensures Valid() && generation == old(generation) + 1
      ensures works == UpdatedWorks(old(works), old(slots), active, old(generation))
      ensures slots == UpdatedSlots(old(works), old(slots), active, old(generation))
    {
      var kept, rest, slots1 := KeepActive(works, slots, generation, active);
      var ws, slots2 := RetireIdle(rest, slots1, kept);
      PassesUpdateWorks(works, slots, generation, active, kept, rest, slots1, ws, slots2);
      PassesUpdateSlots(works, slots, generation, active, kept, rest, slots1, ws, slots2);
      slots := slots2;
      works := ws;
      generation := generation + 1;
    }
  }
}
