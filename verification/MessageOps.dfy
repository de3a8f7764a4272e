/** The operations on single messages and on an address's messages, as they run, against the steps of the
    nonce allocator. */
module MessageOps {
  import opened Messages
  import opened MessageTable
  import opened NonceSystem
  import opened Fees

  /** ListUnFilledMessage. */
  function Pending(t: Table, addr: Address): set<MessageId> {
    set i | i in t && t[i].state == UnFill && t[i].msg.from == addr
  }

  /** Marking a set of rows failed, one after another. */
  method MarkAllBad(t: Table, ids: set<MessageId>) returns (rows: Table, count: nat)
    requires ids <= t.Keys
    ensures rows == map i | i in t :: if i in ids then t[i].(state := Failed) else t[i]
    ensures count == |ids|
  {
    rows, count := t, 0;
    var todo := ids;
    ghost var done: set<MessageId> := {};
    while todo != {}
      invariant todo == ids - done && done <= ids && count == |done|
      invariant rows == map i | i in t :: if i in done then t[i].(state := Failed) else t[i]
      decreases todo
    {
      var i :| i in todo;
      rows := rows[i := rows[i].(state := Failed)];
      count := count + 1;
      done := done + {i};
      todo := todo - {i};
    }
    assert done == ids;
  }

  /** GetSignedMessageFromFailedMsg. */
  function SignedFailed(t: Table, addr: Address): set<MessageId> {
    set i | i in t && t[i].state == Failed && t[i].msg.from == addr && Signed(t[i])
  }

  /** The rows a recovery turns back to filled. */
  ghost function Recoverable(t: Table, addr: Address, actorNonce: nat): set<MessageId> {
    set i | i in t && Recovers(t[i], addr, actorNonce)
  }

  /** The rows of `done` have been looked at, and those at or above the chain nonce turned back. */
  ghost predicate RecoveredBut(t: Table, done: set<MessageId>, actorNonce: nat, rows: Table, ids: set<MessageId>) {
    && rows.Keys == t.Keys
    && (forall i :: i in ids <==> (i in done && i in t && t[i].msg.nonce >= actorNonce))
    && (forall i :: i in t ==> rows[i] == (if i in ids then t[i].(state := Fill) else t[i]))
  }

  lemma RecoverOne(t: Table, done: set<MessageId>, actorNonce: nat, rows: Table, ids: set<MessageId>, i: MessageId)
    requires RecoveredBut(t, done, actorNonce, rows, ids) && i in t && i !in done
    ensures rows[i] == t[i]
    ensures if t[i].msg.nonce >= actorNonce
            then RecoveredBut(t, done + {i}, actorNonce, rows[i := rows[i].(state := Fill)], ids + {i})
            else RecoveredBut(t, done + {i}, actorNonce, rows, ids)
  {
  }

  lemma RecoveredAll(t: Table, addr: Address, actorNonce: nat, rows: Table, ids: set<MessageId>)
    requires RecoveredBut(t, SignedFailed(t, addr), actorNonce, rows, ids)
    ensures rows == RecoverRows(t, addr, actorNonce) && ids == Recoverable(t, addr, actorNonce)
  {
  }

  /** The key address a message is sent from, if it can be told. */
  function Sender(msg: Message, isId: bool, account: Option<Address>): Option<Address> {
    if isId then account else Some(msg.from)
  }

  class MessageStore {
    var rows: Table
    var stored: map<Address, nat>

    constructor ()
      ensures rows == map[] && stored == map[]
    {
      rows, stored := map[], map[];
    }

    /** A pushed message gets nonce zero, no identifiers and its sender's key address; an unknown sender gets an
        address record. A sender that cannot be resolved or that the wallet does not hold leaves no trace; a
        forbidden sender and a reused id are refused. `account` is the node's answer for an ID address. */
    method PushMessage(
      id: MessageId, msg: Message, isId: bool, account: Option<Address>, walletHas: bool, forbidden: bool)
      returns (ok: bool)
      modifies this
      ensures var from := Sender(msg, isId, account);
              && (ok <==> from.Some? && walletHas && !(from.value in old(stored) && forbidden) && id !in old(rows))
              && (ok ==> var d := PushStep(Data(old(rows), old(stored), {}, {}), id, msg.(from := from.value));
                         rows == d.rows && stored == d.stored)
              && (ok ==> rows == old(rows)[id := Row(
                           Message(from.value, 0, msg.payload, msg.gasLimit, msg.gasFeeCap, msg.gasPremium),
                           None, None, None, UnFill, 0, None, None, "")])
              && (from.None? || !walletHas ==> stored == old(stored))
              && (from.Some? && walletHas ==>
                    stored == if from.value in old(stored) then old(stored) else old(stored)[from.value := 0])
      ensures !ok ==> rows == old(rows)
    {
      var from := msg.from;
      if isId {
        if account.None? {
          return false;
        }
        from := account.value;
      }
      if !walletHas {
        return false;
      }
      var known := from in stored;
      if !known {
        stored := stored[from := 0];
      } else if forbidden {
        return false;
      }
      if id in rows {
        return false;
      }
      rows := rows[id := PushedRow(msg.(from := from))];
      return true;
    }

    /** Automatic replacement of one row. It succeeds exactly on a filled row the wallet signs; the row then
        carries the new fees, within the maximum in force, with identifiers of the new message and signature, and
        no other row changes. */
    method ReplaceMessage(
      id: MessageId, ratio: nat, estPremium: nat, estFeeCap: nat, fees: MaxFees, sig: Option<Signature>)
      returns (ok: bool)
      modifies this`rows
      ensures ok <==> id in old(rows) && old(rows)[id].state == Fill && sig.Some?
      ensures !ok ==> rows == old(rows)
      ensures ok ==>
                var maxFee := EffectiveMaxFee(fees);
                && id in rows
                && rows == ReplaceStep(Data(old(rows), stored, {}, {}), id,
                                       rows[id].msg.gasFeeCap, rows[id].msg.gasPremium, sig.value).rows
                && rows == old(rows)[id := rows[id]]
                && (var prior, msg := old(rows)[id], rows[id].msg;
                    && msg == Message(prior.msg.from, prior.msg.nonce, prior.msg.payload, prior.msg.gasLimit,
                                      msg.gasFeeCap, msg.gasPremium)
                    && rows[id] == Row(msg, sig, Some(UnsignedCid(msg)), Some(SignedCid(SignedMessage(msg, sig.value))),
                                       Fill, prior.height, prior.receipt, prior.tsk, prior.errorMsg))
                && NewFees(old(rows)[id].msg, rows[id].msg, ratio, estPremium, estFeeCap, maxFee)
                && rows[id].msg.gasPremium <= rows[id].msg.gasFeeCap
                && (maxFee > 0 ==> rows[id].msg.gasFeeCap * rows[id].msg.gasLimit <= maxFee)
                && (Outbids(rows[id].msg.gasPremium, old(rows)[id].msg.gasPremium, ratio) <==>
                      maxFee == 0 || ComputeRBF(old(rows)[id].msg.gasPremium, ratio) * old(rows)[id].msg.gasLimit <= maxFee)
    {
      if id !in rows || rows[id].state == OnChain {
        return false;
      }
      var msg := rows[id];
      var bid := AutoReplace(msg.msg, ratio, estPremium, estFeeCap, EffectiveMaxFee(fees));
      if sig.None? {
        return false;
      }
      msg := msg.(msg := bid, unsignedCid := Some(UnsignedCid(bid)), sig := Some(sig.value));
      msg := msg.(signedCid := Some(SignedCid(SignedMessage(bid, sig.value))));
      if rows[id].state != Fill {
        return false;
      }
      rows := rows[id := msg.(state := Fill)];
      return true;
    }

    /** Failed rows that were signed and are not below the chain nonce become filled again, unless the chain
        is ahead of the stored nonce. */
    method RecoverFailedMsg(addr: Address, actorNonce: nat) returns (ids: set<MessageId>)
      requires addr in stored
      modifies this`rows
      ensures rows == if stored[addr] < actorNonce then old(rows) else RecoverRows(old(rows), addr, actorNonce)
      ensures ids == if stored[addr] < actorNonce then {} else Recoverable(old(rows), addr, actorNonce)
      ensures forall i :: i in ids <==>
                && actorNonce <= stored[addr] && i in old(rows) && old(rows)[i].state == Failed
                && old(rows)[i].msg.from == addr && old(rows)[i].sig.Some? && actorNonce <= old(rows)[i].msg.nonce
      ensures rows.Keys == old(rows).Keys
      ensures forall i :: i in rows ==> rows[i] == if i in ids then old(rows)[i].(state := Fill) else old(rows)[i]
    {
      ids := {};
      if stored[addr] < actorNonce {
        return;
      }
      var todo := SignedFailed(rows, addr);
      ghost var all, done: set<MessageId> := todo, {};
      while todo != {}
        invariant todo == all - done && done <= all <= old(rows).Keys
        invariant RecoveredBut(old(rows), done, actorNonce, rows, ids)
        decreases todo
      {
        var i :| i in todo;
        RecoverOne(old(rows), done, actorNonce, rows, ids, i);
        if rows[i].msg.nonce >= actorNonce {
          rows := rows[i := rows[i].(state := Fill)];
          ids := ids + {i};
        }
        done := done + {i};
        todo := todo - {i};
      }
      assert done == all;
      RecoveredAll(old(rows), addr, actorNonce, rows, ids);
    }

    /** One transaction marks every pending row of the address failed and counts them. */
    method ClearUnFillMessage(addr: Address) returns (count: nat)
      modifies this`rows
      ensures rows == ClearRows(old(rows), addr) && rows.Keys == old(rows).Keys
      ensures forall i :: i in rows ==>
                rows[i] == if old(rows)[i].state == UnFill && old(rows)[i].msg.from == addr
                           then old(rows)[i].(state := Failed) else old(rows)[i]
      ensures count == |Pending(old(rows), addr)|
    {
      var pending := Pending(rows, addr);
      rows, count := MarkAllBad(rows, pending);
      assert rows == ClearRows(old(rows), addr);
    }
  }
}
