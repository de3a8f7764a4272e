/** Replaying a branch from scratch, and when one incremental refresh agrees with it. */
module Replay {
  import opened Messages
  import opened Chain
  import opened MessageTable

  // ---- What a tipset contributes -------------------------------------------------------------

  function ToApply(inc: Included, ts: Tipset): ApplyMessage {
    ApplyMessage(SignedCid(inc.signed), inc.signed.msg, ts.Height(), ts, inc.receipt)
  }

  /** The messages of active senders among `ms`, in order. */
  function Collect(ms: seq<Included>, ts: Tipset, active: set<Address>): seq<ApplyMessage> {
    if ms == [] then []
    else
      var front := Collect(ms[..|ms| - 1], ts, active);
      var last := ms[|ms| - 1];
      if last.signed.msg.from in active then front + [ToApply(last, ts)] else front
  }

  /** The apply list of a list of children: each child contributes its parent's messages. */
  function CollectParents(children: seq<Tipset>, active: set<Address>): seq<ApplyMessage>
    requires forall c :: c in children ==> c.Child?
  {
    if children == [] then []
    else
      var last := children[|children| - 1];
      CollectParents(children[..|children| - 1], active) + Collect(last.parent.Msgs(), last.parent, active)
  }

  ghost predicate Contributes(am: ApplyMessage, ts: Tipset, active: set<Address>) {
    exists inc :: inc in ts.Msgs() && inc.signed.msg.from in active && am == ToApply(inc, ts)
  }

  lemma {:induction false} CollectMembers(ms: seq<Included>, ts: Tipset, active: set<Address>, am: ApplyMessage)
    ensures am in Collect(ms, ts, active) <==>
            exists inc :: inc in ms && inc.signed.msg.from in active && am == ToApply(inc, ts)
  {
    if ms != [] {
      var last := ms[|ms| - 1];
      CollectMembers(ms[..|ms| - 1], ts, active, am);
      assert ms == ms[..|ms| - 1] + [last];
      assert forall inc :: inc in ms <==> inc in ms[..|ms| - 1] || inc == last;
    }
  }

  lemma {:induction false} CollectParentsMembers(children: seq<Tipset>, active: set<Address>, am: ApplyMessage)
    requires forall c :: c in children ==> c.Child?
    ensures am in CollectParents(children, active) <==>
            exists c :: c in children && Contributes(am, c.parent, active)
    ensures am in CollectParents(children, active) ==> ApplyOk(am) && am.msg.from in active
  {
    if children != [] {
      var last := children[|children| - 1];
      var front := children[..|children| - 1];
      CollectParentsMembers(front, active, am);
      CollectMembers(last.parent.Msgs(), last.parent, active, am);
      assert children == front + [last];
      assert forall c :: c in children <==> c in front || c == last;
    }
  }

  // ---- Order does not matter -----------------------------------------------------------------

  predicate Concerns(am: ApplyMessage, r: Row) {
    am.msg.from == r.msg.from && am.msg.nonce == r.msg.nonce
  }

  lemma {:induction false} SettleUntouched(r: Row, ams: seq<ApplyMessage>)
    requires r.state != Fill || forall am :: am in ams ==> !Concerns(am, r)
    ensures Settle(r, ams) == r
  {
    if ams != [] {
      assert ams[|ams| - 1] in ams;
      SettleUntouched(r, ams[..|ams| - 1]);
    }
  }

  /** When the list has one message for the slot of a filled row, the result is that message's effect,
      wherever in the list it stands and however often it is repeated. */
  lemma {:induction false} SettleOnce(r: Row, ams: seq<ApplyMessage>, am: ApplyMessage)
    requires r.state == Fill && am in ams && Concerns(am, r)
    requires forall x :: x in ams && Concerns(x, r) ==> x == am
    ensures Settle(r, ams) == ApplyRow(r, am)
  {
    var front := ams[..|ams| - 1];
    assert ams == front + [ams[|ams| - 1]];
    if am in front {
      SettleOnce(r, front, am);
    } else {
      SettleUntouched(r, front);
    }
  }

  /** No two different messages of the list share a sender and nonce. */
  ghost predicate OnePerSlot(ams: seq<ApplyMessage>) {
    forall x, y :: x in ams && y in ams && x.msg.from == y.msg.from && x.msg.nonce == y.msg.nonce ==> x == y
  }

  /** Lists with the same members settle every row alike, and settling again changes nothing. */
  lemma SettleOrderFree(r: Row, ams: seq<ApplyMessage>, ams': seq<ApplyMessage>)
    requires OnePerSlot(ams)
    requires forall am :: am in ams <==> am in ams'
    ensures Settle(r, ams) == Settle(r, ams')
    ensures Settle(Settle(r, ams), ams) == Settle(r, ams)
  {
    if r.state == Fill && exists am :: am in ams && Concerns(am, r) {
      var am :| am in ams && Concerns(am, r);
      SettleOnce(r, ams, am);
      SettleOnce(r, ams', am);
      SettleUntouched(ApplyRow(r, am), ams);
    } else {
      SettleUntouched(r, ams);
      SettleUntouched(r, ams');
    }
  }

  /** The refreshed table depends neither on the order of the apply list nor on how often the refresh is
      repeated. */
  lemma RefreshOrderFree(
    t: Table, t1: Table, t2: Table, t3: Table, cids: set<Cid>, ams: seq<ApplyMessage>, ams': seq<ApplyMessage>)
    requires OnePerSlot(ams) && multiset(ams) == multiset(ams')
    requires Rewritten(t, t1, cids, ams) && Rewritten(t, t2, cids, ams') && Rewritten(t1, t3, {}, ams)
    ensures t1 == t2 && t3 == t1
  {
    forall am
      ensures am in ams <==> am in ams'
    {
      assert am in multiset(ams) <==> am in multiset(ams');
    }
    forall i | i in t
      ensures t1[i] == t2[i] && t3[i] == t1[i]
    {
      SettleOrderFree(RevertRow(t[i], cids), ams, ams');
    }
  }

  // ---- Replay from scratch -------------------------------------------------------------------

  /** A row whose on-chain status the follower maintains. */
  predicate Tracked(r: Row, active: set<Address>) {
    r.msg.from in active && (r.state == Fill || r.state == OnChain || r.state == NonceConflict)
  }

  /** Processing every tipset of the branch of `t`, oldest first. */
  ghost function ReplayRow(r: Row, t: Tipset, active: set<Address>): Row {
    if t.Genesis? then r
    else Settle(ReplayRow(r, t.parent, active), Collect(t.Msgs(), t, active))
  }

  /** A pending row may or may not carry the receipt a revert writes; nothing else is forgotten. */
  function Masked(r: Row): Row {
    if r.state == Fill then r.(receipt := None, tsk := None) else r
  }

  /** The row is what replaying the branch onto its pending form gives. */
  ghost predicate RowAgrees(r: Row, t: Tipset, active: set<Address>) {
    Tracked(r, active) ==> Masked(r) == Masked(ReplayRow(Reverted(r), t, active))
  }

  ghost predicate Agrees(rows: Table, t: Tipset, active: set<Address>) {
    forall i :: i in rows ==> RowAgrees(rows[i], t, active)
  }

  /** The row once the branch has spent its nonce at `h`. */
  function Landed(r: Row, h: Hit): Row {
    r.(state := if Carries(h.included.signed, r) then OnChain else NonceConflict,
       receipt := Some(h.included.receipt), height := h.tipset.Height(), tsk := Some(h.tipset))
  }

  ghost function Expected(r: Row, t: Tipset): Row {
    var h := Find(t, r.msg.from, r.msg.nonce);
    if h.Some? then Landed(r, h.value) else Reverted(r)
  }

  /** What one included message does to the pending row in its slot: it lands on chain if and only if it is the
      row's own message, under the same signature or with both signatures BLS; otherwise the row is a conflict. */
  lemma ApplyLands(r: Row, inc: Included, ts: Tipset)
    requires RowOk(r) && FillAt(r, inc.signed.msg.from, inc.signed.msg.nonce)
    ensures var x := ApplyRow(r, ToApply(inc, ts));
            && SameIdentity(r, x) && x.receipt == Some(inc.receipt) && x.height == ts.Height() && x.tsk == Some(ts)
            && x.state in {OnChain, NonceConflict}
            && (x.state == OnChain <==>
                  && r.msg == inc.signed.msg
                  && (r.sig == Some(inc.signed.sig) || (r.sig.value.kind == Bls && inc.signed.sig.kind == Bls)))
  {
  }

  /** Replay in closed form: the row lands where the branch spends its nonce, if it does. */
  lemma {:induction false} ReplayIsFind(r: Row, t: Tipset, active: set<Address>)
    requires NoRepeat(t) && r.msg.from in active && RowOk(r) && Signed(r)
    ensures ReplayRow(Reverted(r), t, active) == Expected(r, t)
  {
    if t.Child? {
      assert OnBranch(t.parent, t);
      NoRepeatDown(t.parent, t);
      ReplayIsFind(r, t.parent, active);
      var prev := Expected(r, t.parent);
      var from, nonce := r.msg.from, r.msg.nonce;
      var here := FindIn(t.Msgs(), from, nonce);
      var ams := Collect(t.Msgs(), t, active);
      forall am | am in ams && Concerns(am, r)
        ensures here.Some? && am == ToApply(here.value, t)
      {
        CollectMembers(t.Msgs(), t, active, am);
        var inc :| inc in t.Msgs() && inc.signed.msg.from in active && am == ToApply(inc, t);
        assert InSlot(inc, from, nonce);
        assert SameSlot(inc, here.value);
      }
      if here.Some? {
        var am := ToApply(here.value, t);
        CollectMembers(t.Msgs(), t, active, am);
        if Find(t.parent, from, nonce).Some? {
          var h := Find(t.parent, from, nonce).value;
          FindSound(t.parent, from, nonce);
          BranchTransitive(h.tipset, t.parent, t);
          assert SameSlot(h.included, here.value);
          ParentDiffers(h.tipset, t);
          assert false;
        }
        SettleOnce(prev, ams, am);
        ApplyLands(prev, here.value, t);
      } else {
        SettleUntouched(prev, ams);
      }
    }
  }

  lemma {:induction false} BranchDepth(a: Tipset, t: Tipset)
    requires OnBranch(a, t)
    ensures Depth(a) <= Depth(t)
  {
    if a != t {
      BranchDepth(a, t.parent);
    }
  }

  lemma ParentDiffers(a: Tipset, t: Tipset)
    requires t.Child? && OnBranch(a, t.parent)
    ensures a != t
  {
    BranchDepth(a, t.parent);
  }

  // ---- One refresh step ----------------------------------------------------------------------

  /** The row after its on-chain status is undone at the given heights. */
  function Unwind(r: Row, active: set<Address>, heights: set<nat>): Row {
    if r.state == OnChain && r.height in heights && r.msg.from in active && r.unsignedCid.Some?
    then Reverted(r) else r
  }

  function RefreshRow(r: Row, active: set<Address>, heights: set<nat>, ams: seq<ApplyMessage>): Row {
    Settle(Unwind(r, active, heights), ams)
  }

  ghost predicate Refreshed(t: Table, t': Table, active: set<Address>, heights: set<nat>, ams: seq<ApplyMessage>) {
    && t'.Keys == t.Keys
    && forall i :: i in t ==> t'[i] == RefreshRow(t[i], active, heights, ams)
  }

  function RefreshTable(t: Table, active: set<Address>, heights: set<nat>, ams: seq<ApplyMessage>): Table {
    map i | i in t :: RefreshRow(t[i], active, heights, ams)
  }

  /** A refresh keeps the table sound and touches no identity column. */
  lemma RefreshedOk(t: Table, t': Table, active: set<Address>, heights: set<nat>, ams: seq<ApplyMessage>)
    requires TableOk(t) && Refreshed(t, t', active, heights, ams)
    ensures TableOk(t')
    ensures forall i :: i in t ==> SameIdentity(t[i], t'[i])
  {
    forall i | i in t
      ensures SameIdentity(t[i], t'[i]) && RowOk(t'[i])
    {
      assert RowOk(t[i]);
      SettleIdentity(Unwind(t[i], active, heights), ams);
    }
    forall i, j | i in t' && j in t' && Signed(t'[i]) && Signed(t'[j]) && SameSender(t'[i], t'[j])
      ensures i == j
    {
      assert SameIdentity(t[i], t'[i]) && SameIdentity(t[j], t'[j]);
    }
  }

  /** The children in the list contribute exactly the tipsets of the branch of `next` above `base`. */
  ghost predicate Covers(children: seq<Tipset>, next: Tipset, base: Tipset) {
    && (forall c :: c in children ==> c.Child?)
    && (forall c :: c in children ==> OnBranch(c.parent, next) && c.parent.Height() > base.Height())
    && (forall ts :: OnBranch(ts, next) && ts.Height() > base.Height() ==> exists c :: c in children && c.parent == ts)
  }

  /** What decides, before the call, whether refreshing from branch `prev` to branch `next` over `base`
      is right for one row: a tipset that spent its nonce and is abandoned must be undone by height and
      must not have been a conflict; one that is kept must not be undone unless it is applied again; and
      one that newly spends the nonce must lie above the base. */
  ghost predicate RowStepOk(r: Row, prev: Tipset, next: Tipset, base: Tipset, heights: set<nat>) {
    var was, now := Find(prev, r.msg.from, r.msg.nonce), Find(next, r.msg.from, r.msg.nonce);
    && (was.Some? && !OnBranch(was.value.tipset, next) ==>
          was.value.tipset.Height() in heights && Carries(was.value.included.signed, r))
    && (was.Some? && OnBranch(was.value.tipset, next) && was.value.tipset.Height() in heights
          && Carries(was.value.included.signed, r) ==>
          was.value.tipset.Height() > base.Height())
    && (now.Some? && !OnBranch(now.value.tipset, prev) ==>
          now.value.tipset.Height() > base.Height())
  }

  ghost predicate StepOk(
    rows: Table, active: set<Address>, prev: Tipset, next: Tipset, base: Tipset, heights: set<nat>) {
    forall i :: i in rows && Tracked(rows[i], active) ==> RowStepOk(rows[i], prev, next, base, heights)
  }

  ghost predicate StepShape(children: seq<Tipset>, prev: Tipset, next: Tipset, base: Tipset) {
    && WellFormed(prev) && WellFormed(next) && NoRepeat(prev) && NoRepeat(next)
    && OnBranch(base, next) && Covers(children, next, base)
  }

  /** Rows the follower does not track are left alone. */
  lemma UntrackedUntouched(r: Row, active: set<Address>, heights: set<nat>, children: seq<Tipset>)
    requires forall c :: c in children ==> c.Child?
    requires !Tracked(r, active)
    ensures RefreshRow(r, active, heights, CollectParents(children, active)) == r
  {
    var ams := CollectParents(children, active);
    forall am | am in ams
      ensures am.msg.from in active
    {
      CollectParentsMembers(children, active, am);
    }
    SettleUntouched(r, ams);
  }

  /** A row whose landing is undone and that no applied message concerns is pending again: no height, no tipset, and a
      receipt with exit code -1. */
  lemma UndoneRow(r: Row, active: set<Address>, heights: set<nat>, ams: seq<ApplyMessage>)
    requires r.state == OnChain && r.height in heights && r.msg.from in active && r.unsignedCid.Some?
    requires forall am :: am in ams ==> am.msg.from != r.msg.from || am.msg.nonce != r.msg.nonce
    ensures RefreshRow(r, active, heights, ams) ==
            r.(state := Fill, height := 0, tsk := None, receipt := Some(Receipt(-1, 0, 0)))
  {
    SettleUntouched(Unwind(r, active, heights), ams);
  }

  /** What the apply list does to a pending row: it lands on the branch of `next` if that is above `base`. */
  lemma SettlePending(r: Row, active: set<Address>, children: seq<Tipset>, next: Tipset, base: Tipset)
    requires WellFormed(next) && NoRepeat(next) && Covers(children, next, base)
    requires r.state == Fill && r.msg.from in active && RowOk(r)
    ensures var now := Find(next, r.msg.from, r.msg.nonce);
            Settle(r, CollectParents(children, active)) ==
            if now.Some? && now.value.tipset.Height() > base.Height() then Landed(r, now.value) else r
  {
    var ams := CollectParents(children, active);
    var from, nonce := r.msg.from, r.msg.nonce;
    var now := Find(next, from, nonce);
    forall am | am in ams && Concerns(am, r)
      ensures now.Some? && now.value.tipset.Height() > base.Height()
      ensures am == ToApply(now.value.included, now.value.tipset)
    {
      CollectParentsMembers(children, active, am);
      var c :| c in children && Contributes(am, c.parent, active);
      var inc :| inc in c.parent.Msgs() && inc.signed.msg.from in active && am == ToApply(inc, c.parent);
      FindUnique(Hit(c.parent, inc), next, from, nonce);
    }
    if now.Some? && now.value.tipset.Height() > base.Height() {
      FindSound(next, from, nonce);
      var am := ToApply(now.value.included, now.value.tipset);
      var c :| c in children && c.parent == now.value.tipset;
      assert Contributes(am, c.parent, active);
      CollectParentsMembers(children, active, am);
      SettleOnce(r, ams, am);
      ApplyLands(r, now.value.included, now.value.tipset);
    } else {
      SettleUntouched(r, ams);
    }
  }

  /** A tipset on both branches that spends a nonce is the one either branch spends it in. */
  lemma FoundOnBoth(prev: Tipset, next: Tipset, from: Address, nonce: nat)
    requires NoRepeat(prev) && NoRepeat(next)
    ensures var was, now := Find(prev, from, nonce), Find(next, from, nonce);
            && (was.Some? && OnBranch(was.value.tipset, next) ==> now == was)
            && (now.Some? && OnBranch(now.value.tipset, prev) ==> was == now)
            && (was.Some? ==> OnBranch(was.value.tipset, prev))
            && (now.Some? ==> OnBranch(now.value.tipset, next))
  {
    var was, now := Find(prev, from, nonce), Find(next, from, nonce);
    FindSound(prev, from, nonce);
    FindSound(next, from, nonce);
    if was.Some? {
      FindUnique(was.value, next, from, nonce);
    }
    if now.Some? {
      FindUnique(now.value, prev, from, nonce);
    }
  }

  /** A tracked row that agreed with replaying the old branch agrees with replaying the new one exactly
      when the step condition holds for it. */
  lemma RowExact(
    r: Row, active: set<Address>, children: seq<Tipset>, prev: Tipset, next: Tipset, base: Tipset, heights: set<nat>)
    requires StepShape(children, prev, next, base)
    requires RowOk(r) && Tracked(r, active) && RowAgrees(r, prev, active)
    ensures var r' := RefreshRow(r, active, heights, CollectParents(children, active));
            && Tracked(r', active)
            && (RowAgrees(r', next, active) <==> RowStepOk(r, prev, next, base, heights))
  {
    var ams := CollectParents(children, active);
    var mid := Unwind(r, active, heights);
    var r' := Settle(mid, ams);
    SettleIdentity(mid, ams);
    assert Reverted(r') == Reverted(r);
    ReplayIsFind(r, prev, active);
    ReplayIsFind(r, next, active);
    FoundOnBoth(prev, next, r.msg.from, r.msg.nonce);
    if mid.state == Fill {
      SettlePending(mid, active, children, next, base);
    } else {
      SettleUntouched(mid, ams);
    }
  }

  /** Refresh refines replay, exactly: starting from a table that agrees with replaying `prev`, the
      refreshed table agrees with replaying `next` if and only if the step condition holds. */
  lemma RefreshExact(
    t: Table, t': Table, active: set<Address>, children: seq<Tipset>,
    prev: Tipset, next: Tipset, base: Tipset, heights: set<nat>)
    requires StepShape(children, prev, next, base)
    requires TableOk(t) && Agrees(t, prev, active)
    requires Refreshed(t, t', active, heights, CollectParents(children, active))
    ensures Agrees(t', next, active) <==> StepOk(t, active, prev, next, base, heights)
  {
    forall i | i in t
      ensures Tracked(t[i], active) <==> Tracked(t'[i], active)
      ensures Tracked(t[i], active) ==> (RowAgrees(t'[i], next, active) <==> RowStepOk(t[i], prev, next, base, heights))
    {
      if Tracked(t[i], active) {
        RowExact(t[i], active, children, prev, next, base, heights);
      } else {
        UntrackedUntouched(t[i], active, heights, children);
      }
    }
    if StepOk(t, active, prev, next, base, heights) {
      forall i | i in t'
        ensures RowAgrees(t'[i], next, active)
      {
      }
    }
    if Agrees(t', next, active) {
      forall i | i in t && Tracked(t[i], active)
        ensures RowStepOk(t[i], prev, next, base, heights)
      {
        assert i in t';
        assert RowAgrees(t'[i], next, active);
      }
    }
  }

  lemma {:induction false} SettleTracked(r: Row, active: set<Address>, heights: set<nat>, ams: seq<ApplyMessage>)
    requires Tracked(r, active)
    ensures Tracked(RefreshRow(r, active, heights, ams), active) && SameIdentity(r, RefreshRow(r, active, heights, ams))
  {
    if ams != [] {
      SettleTracked(r, active, heights, ams[..|ams| - 1]);
    }
  }
}
