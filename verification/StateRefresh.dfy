/** The message service's reaction to new heads, as it runs: collect what to revert and what to apply,
    rewrite the table in one transaction, remember the processed tipsets. */
module StateRefresh {
  import opened Messages
  import opened Chain
  import opened Ancestors
  import opened TipsetCaches
  import opened MessageTable
  import opened Replay
  import opened Follower
  import opened FirstBatch

  /** The identifiers a revert of the given heights collects. */
  ghost function RevertCids(t: Table, active: set<Address>, heights: set<nat>): set<Cid> {
    set i | i in t && t[i].state == OnChain && t[i].height in heights && t[i].msg.from in active && t[i].unsignedCid.Some?
      :: t[i].unsignedCid.value
  }

  /** Reverting by identifier undoes exactly the on-chain rows of active addresses at the given heights. */
  lemma RevertByCidIsByHeight(t: Table, active: set<Address>, heights: set<nat>, i: MessageId)
    requires TableOk(t) && i in t
    ensures RevertRow(t[i], RevertCids(t, active, heights)) == Unwind(t[i], active, heights)
  {
    if t[i].unsignedCid.Some? && t[i].unsignedCid.value in RevertCids(t, active, heights) {
      var j :| j in t && t[j].state == OnChain && t[j].height in heights && t[j].msg.from in active
               && t[j].unsignedCid == t[i].unsignedCid;
      CidDeterminesRow(t, i, j);
    }
  }

  lemma RewrittenIsRefreshed(t: Table, t': Table, active: set<Address>, heights: set<nat>, ams: seq<ApplyMessage>)
    requires TableOk(t) && Rewritten(t, t', RevertCids(t, active, heights), ams)
    ensures Refreshed(t, t', active, heights, ams)
  {
    forall i | i in t
      ensures t'[i] == RefreshRow(t[i], active, heights, ams)
    {
      RevertByCidIsByHeight(t, active, heights, i);
    }
  }

  ghost predicate CollectedFrom(t: Table, active: set<Address>, ids: set<MessageId>, c: Cid) {
    exists i :: i in ids && i in t && t[i].msg.from in active && t[i].unsignedCid == Some(c)
  }

  lemma CidsOneMore(
    t: Table, active: set<Address>, cids: set<Cid>, before: set<Cid>, all: set<MessageId>, heights: set<nat>, h: nat)
    requires before == RevertCids(t, active, heights)
    requires all == set i | i in t && t[i].state == OnChain && t[i].height == h
    requires forall c :: c in cids <==> (c in before || CollectedFrom(t, active, all, c))
    ensures cids == RevertCids(t, active, heights + {h})
  {
    forall c
      ensures c in cids <==> c in RevertCids(t, active, heights + {h})
    {
      if c in RevertCids(t, active, heights + {h}) {
        var i :| i in t && t[i].state == OnChain && t[i].height in heights + {h} && t[i].msg.from in active
                 && t[i].unsignedCid == Some(c);
        if t[i].height == h {
          assert i in all;
        } else {
          assert c in before;
        }
      }
    }
  }

  class MessageService {
    var rows: Table
    const tsCache: TipsetCache
    const active: set<Address>
    ghost var tip: Tipset

    constructor (rows: Table, cache: TipsetCache, active: set<Address>, ghost tip: Tipset)
      requires TableOk(rows) && cache.Valid()
      ensures this.rows == rows && this.tsCache == cache && this.active == active && this.tip == tip
      ensures Valid()
    {
      this.rows := rows;
      this.tsCache := cache;
      this.active := active;
      this.tip := tip;
    }

    ghost predicate Valid()
      reads this, tsCache
    {
      TableOk(rows) && tsCache.Valid()
    }

    ghost function Snapshot(): State
      reads this, tsCache
    {
      State(rows, tsCache.entries, tip)
    }

    /** Adds the identifiers of the on-chain rows of active addresses at one height. */
    method CollectAtHeight(h: nat, before: set<Cid>, ghost heights: set<nat>) returns (cids: set<Cid>)
      requires before == RevertCids(rows, active, heights)
      ensures cids == RevertCids(rows, active, heights + {h})
    {
      cids := before;
      var all := set i | i in rows && rows[i].state == OnChain && rows[i].height == h;
      var todo := all;
      while todo != {}
        invariant todo <= all
        invariant forall c :: c in cids <==> (c in before || CollectedFrom(rows, active, all - todo, c))
        decreases todo
      {
        var i :| i in todo;
        ghost var done := all - todo;
        if rows[i].msg.from in active && rows[i].unsignedCid.Some? {
          cids := cids + {rows[i].unsignedCid.value};
        }
        todo := todo - {i};
        assert all - todo == done + {i};
      }
      assert all - todo == all;
      CidsOneMore(rows, active, cids, before, all, heights, h);
    }

    /** Rows are found by height and state, and remembered by identifier. */
    method ProcessRevertHead(revert: seq<Tipset>) returns (cids: set<Cid>)
      requires Valid()
      ensures cids == RevertCids(rows, active, Heights(revert))
    {
      cids := {};
      for k := 0 to |revert|
        invariant cids == RevertCids(rows, active, Heights(revert[..k]))
      {
        assert revert[..k + 1] == revert[..k] + [revert[k]];
        HeightsSnoc(revert[..k], revert[k]);
        cids := CollectAtHeight(revert[k].Height(), cids, Heights(revert[..k]));
      }
      assert revert[..|revert|] == revert;
    }

    /** Each child contributes the messages of its parent sent by active addresses. */
    method ProcessBlockParentMessages(apply: seq<Tipset>) returns (ams: seq<ApplyMessage>)
      requires forall c :: c in apply ==> c.Child?
      ensures ams == CollectParents(apply, active)
    {
      ams := [];
      for k := 0 to |apply|
        invariant ams == CollectParents(apply[..k], active)
      {
        var pts := apply[k].parent;
        var msgs := pts.Msgs();
        ghost var before := ams;
        for j := 0 to |msgs|
          invariant ams == before + Collect(msgs[..j], pts, active)
        {
          assert msgs[..j + 1][..j] == msgs[..j];
          if msgs[j].signed.msg.from in active {
            ams := ams + [ToApply(msgs[j], pts)];
          }
        }
        assert msgs[..|msgs|] == msgs;
        assert apply[..k + 1][..k] == apply[..k];
      }
      assert apply[..|apply|] == apply;
    }

    method RevertAll(cids: set<Cid>)
      requires TableOk(rows)
      modifies this`rows
      ensures Rewritten(old(rows), rows, cids, [])
    {
      var todo := cids;
      while todo != {}
        invariant todo <= cids
        invariant Rewritten(old(rows), rows, cids - todo, [])
        decreases todo
      {
        var c :| c in todo;
        RevertStep(old(rows), rows, cids - todo, c);
        assert cids - todo + {c} == cids - (todo - {c});
        rows := UpdateInfoByCid(rows, c, REVERTED_RECEIPT, 0, Fill, None);
        todo := todo - {c};
      }
      assert cids - todo == cids;
    }

    /** The lookup returns some filled row of the sender and nonce; a different signed identifier makes it a
        nonce conflict, otherwise every row with the message's unsigned identifier is updated. */
    method ApplyMsg(am: ApplyMessage)
      requires TableOk(rows) && ApplyOk(am)
      modifies this`rows
      ensures rows.Keys == old(rows).Keys
      ensures forall i :: i in rows ==> rows[i] == ApplyRow(old(rows)[i], am)
    {
      var matches := set i | i in rows && FillAt(rows[i], am.msg.from, am.msg.nonce);
      if matches == {} {
        assert forall i :: i in rows ==> i !in matches;
        return;
      }
      var id :| id in matches;
      ApplyHit(rows, am, id);
      if rows[id].signedCid.Some? && rows[id].signedCid.value != am.signedCid {
        rows := rows[id := rows[id].(
                  state := NonceConflict, receipt := Some(am.receipt), height := am.height, tsk := Some(am.tsk))];
      } else {
        rows := UpdateInfoByCid(rows, UnsignedCid(am.msg), am.receipt, am.height, OnChain, Some(am.tsk));
      }
    }

    /** One transaction. Its updates go by identifier and by whichever filled row the lookup returns, in any
        order of the revert set; the effect is nevertheless row-wise. */
    method UpdateMessageState(ams: seq<ApplyMessage>, cids: set<Cid>)
      requires TableOk(rows) && forall am :: am in ams ==> ApplyOk(am)
      modifies this`rows
      ensures TableOk(rows) && Rewritten(old(rows), rows, cids, ams)
    {
      RevertAll(cids);
      for k := 0 to |ams|
        invariant Rewritten(old(rows), rows, cids, ams[..k])
      {
        RewrittenOk(old(rows), rows, cids, ams[..k]);
        ghost var before := rows;
        assert ams[k] in ams;
        ApplyMsg(ams[k]);
        ApplyStep(old(rows), before, rows, cids, ams, k);
      }
      assert ams[..|ams|] == ams;
      RewrittenOk(old(rows), rows, cids, ams);
    }

    method StoreTipset(apply: seq<Tipset>)
      requires tsCache.Valid() && |apply| > 0 && apply[0].Child?
      modifies tsCache
      ensures tsCache.Valid() && tsCache.entries == Stored(old(tsCache.entries), apply)
    {
      var processed: seq<Tipset>;
      if |apply| == 1 {
        processed := [apply[0].parent];
      } else {
        processed := apply[1..];
      }
      tsCache.currHeight := processed[0].Height();
      tsCache.Add(processed);
      tsCache.Reduce();
    }

    /** Nothing is reverted when there is nothing to apply. */
    method DoRefreshMessageState(apply: seq<Tipset>, revert: seq<Tipset>)
      requires Valid() && forall c :: c in apply ==> c.Child?
      modifies this, tsCache
      ensures Valid()
      ensures apply == [] ==> Snapshot() == old(Snapshot())
      ensures apply != [] ==>
                && Refreshed(old(rows), rows, active, Heights(revert), CollectParents(apply, active))
                && tsCache.entries == Stored(old(tsCache.entries), apply)
                && tip == apply[0].parent
    {
      if |apply| == 0 {
        return;
      }
      var cids := ProcessRevertHead(revert);
      var ams := ProcessBlockParentMessages(apply);
      forall am | am in ams
        ensures ApplyOk(am)
      {
        CollectParentsMembers(apply, active, am);
      }
      UpdateMessageState(ams, cids);
      RewrittenIsRefreshed(old(rows), rows, active, Heights(revert), ams);
      StoreTipset(apply);
      tip := apply[0].parent;
    }

    /** The step from a non-empty cache, listed from the top. */
    method FollowHead(tsList: seq<Tipset>, latest: Tipset)
      requires Valid() && Listing(tsList, tsCache.entries) && |tsList| > 0
      requires latest.Child? && WellFormed(latest)
      modifies this, tsCache
      ensures Valid()
      ensures WalkStep(old(Snapshot()), latest, Snapshot(), active)
    {
      if latest.parent == tsList[0] {
        AlreadyProcessed(tsList, latest);
        assert Advance(old(Snapshot()), latest, 1, Heights(tsList[..0]), Snapshot(), active);
        return;
      }
      var gap, revert := LookAncestors(tsList, latest);
      ghost var g: nat := |gap|;
      if |gap| > 0 {
        gap := gap[..|gap| - 1];
        assert gap == ApplyOf(latest, g);
      }
      DoRefreshMessageState(gap, revert);
      assert Advance(old(Snapshot()), latest, g, Heights(tsList[..|revert|]), Snapshot(), active);
    }

    /** The reaction to a notification whose newest tipset is the head. With an empty cache the batch is
        applied as it arrives; otherwise the step is decided by the walk back from the head, and when the
        walk finds a cached ancestor the step is the one the follower's theorems speak about. */
    method ProcessNewHead(apply: seq<Tipset>)
      requires Valid() && forall t :: t in apply ==> t.Child? && WellFormed(t)
      modifies this, tsCache
      ensures Valid()
      ensures apply == [] ==> Snapshot() == old(Snapshot())
      ensures apply != [] && old(tsCache.entries) == map[] ==>
                FirstStep(old(Snapshot()), apply, Snapshot(), active)
      ensures apply != [] && old(tsCache.entries) != map[] ==>
                && WalkStep(old(Snapshot()), apply[|apply| - 1], Snapshot(), active)
                && StepToBase(old(Snapshot()), apply[|apply| - 1], Snapshot(), active)
    {
      if |apply| == 0 {
        return;
      }
      var tsList := ListDescending(tsCache);
      var latest := apply[|apply| - 1];
      assert latest in apply;
      if |tsList| == 0 {
        assert forall h :: h in tsCache.entries ==> tsCache.entries[h] in tsCache.entries.Values;
        DoRefreshMessageState(apply, []);
        assert Heights([]) == {};
        tip := latest.parent;
        return;
      }
      assert tsList[0] in tsList;
      FollowHead(tsList, latest);
      WalkStepToBase(old(Snapshot()), latest, Snapshot(), active);
    }

    /** On reconnecting: an empty cache, or one that is LOOK_BACK_LIMIT epochs behind, asks for a full
        resynchronisation; otherwise the follower catches up as for a new head, and a head that descends from
        the cached top is then always met within the iteration limit. */
    method ReconnectCheck(head: Tipset) returns (resync: bool)
      requires Valid() && head.Child? && WellFormed(head)
      modifies this, tsCache
      ensures Valid()
      ensures resync ==> Snapshot() == old(Snapshot())
      ensures resync <==> forall h :: h in old(tsCache.entries) ==> head.Height() - h >= 900
      ensures !resync ==>
                && WalkStep(old(Snapshot()), head, Snapshot(), active)
                && StepToBase(old(Snapshot()), head, Snapshot(), active)
    {
      var tsList := ListDescending(tsCache);
      assert forall h :: h in tsCache.entries ==> tsCache.entries[h] in tsCache.entries.Values;
      if |tsList| == 0 {
        return true;
      }
      assert tsList[0] in tsList;
      TopIsHighest(tsList, tsCache.entries);
      if head.Height() - tsList[0].Height() >= LOOK_BACK_LIMIT {
        return true;
      }
      FollowHead(tsList, head);
      WalkStepToBase(old(Snapshot()), head, Snapshot(), active);
      return false;
    }
  }

  /** When the top of the cache is the head's parent the walk would stop there at once. */
  lemma AlreadyProcessed(l: seq<Tipset>, head: Tipset)
    requires WellFormed(head) && head.Child? && Descending(l) && |l| > 0 && l[0] == head.parent
    ensures WalkEnds(l, head, 1, 0)
  {
    assert Up(head, 1) == l[0];
    if head.parent.Height() > 0 {
      MeetingEnds(l, head, 1, 0);
    } else {
      assert WellFormed(head.parent);
    }
  }

  lemma TopIsHighest(l: seq<Tipset>, m: Entries)
    requires Keyed(m) && Listing(l, m) && |l| > 0
    ensures l[0].Height() in m && forall h :: h in m ==> h <= l[0].Height()
  {
    assert l[0] in l;
    forall h | h in m
      ensures h <= l[0].Height()
    {
      assert m[h] in m.Values;
      var k :| 0 <= k < |l| && l[k] == m[h];
    }
  }
}
