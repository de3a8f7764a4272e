/** The message table: rows keyed by id, the repository updates the service uses, and the row-wise
    meaning of one state refresh. */
module MessageTable {
  import opened Messages
  import opened Chain

  datatype MsgState = UnFill | Fill | OnChain | Failed | NonceConflict

  datatype Row = Row(
    msg: Message, sig: Option<Signature>,
    unsignedCid: Option<Cid>, signedCid: Option<Cid>,
    state: MsgState, height: nat, receipt: Option<Receipt>, tsk: Option<Tipset>,
    errorMsg: string)

  type Table = map<MessageId, Row>

  predicate Signed(r: Row) {
    r.sig.Some?
  }

  /** A signed row stores the identifiers of its own message and signature; an unsigned row stores none
      and has never been given a nonce that matters. */
  predicate RowOk(r: Row) {
    if Signed(r) then
      && r.unsignedCid == Some(UnsignedCid(r.msg))
      && r.signedCid == Some(SignedCid(SignedMessage(r.msg, r.sig.value)))
      && r.state != UnFill
    else
      r.unsignedCid == None && r.signedCid == None && (r.state == UnFill || r.state == Failed)
  }

  /** The signed message is the row's own: the same message, under the same signature unless both are BLS, which
      blocks aggregate. */
  predicate Carries(s: SignedMessage, r: Row) {
    && Signed(r) && r.msg == s.msg
    && (r.sig.value == s.sig || (r.sig.value.kind == Bls && s.sig.kind == Bls))
  }

  predicate SameSender(r: Row, s: Row) {
    r.msg.from == s.msg.from && r.msg.nonce == s.msg.nonce
  }

  /** No two signed rows of one address share a nonce. */
  ghost predicate UniqueNonces(t: Table) {
    forall i, j :: i in t && j in t && Signed(t[i]) && Signed(t[j]) && SameSender(t[i], t[j]) ==> i == j
  }

  ghost predicate RowsOk(t: Table) {
    forall i :: i in t ==> RowOk(t[i])
  }

  ghost predicate TableOk(t: Table) {
    RowsOk(t) && UniqueNonces(t)
  }

  /** A message of an applied tipset, as collected from a child's parent messages and receipts. */
  datatype ApplyMessage = ApplyMessage(
    signedCid: Cid, msg: Message, height: nat, tsk: Tipset, receipt: Receipt)

  predicate ApplyOk(am: ApplyMessage) {
    match am.signedCid
    case UnsignedCid(m) => m == am.msg
    case FullCid(s) => s.msg == am.msg
  }

  /** UpdateMessageInfoByCid: an SQL update of every row with the given unsigned identifier. */
  function UpdateInfoByCid(
    t: Table, c: Cid, receipt: Receipt, height: nat, state: MsgState, tsk: Option<Tipset>): Table {
    map i | i in t ::
      if t[i].unsignedCid == Some(c)
      then t[i].(receipt := Some(receipt), height := height, state := state, tsk := tsk)
      else t[i]
  }

  predicate FillAt(r: Row, from: Address, nonce: nat) {
    r.state == Fill && r.msg.from == from && r.msg.nonce == nonce
  }

  const REVERTED_RECEIPT := Receipt(-1, 0, 0)

  function Reverted(r: Row): Row {
    r.(receipt := Some(REVERTED_RECEIPT), height := 0, state := Fill, tsk := None)
  }

  /** The row a set of reverted identifiers leaves behind. */
  function RevertRow(r: Row, cids: set<Cid>): Row {
    if r.unsignedCid.Some? && r.unsignedCid.value in cids then Reverted(r) else r
  }

  /** The row one applied message leaves behind: only a filled row of the same sender and nonce reacts,
      and it becomes a nonce conflict when the chain carries a different signed message. */
  function ApplyRow(r: Row, am: ApplyMessage): Row {
    if FillAt(r, am.msg.from, am.msg.nonce) then
      r.(state := if r.signedCid.Some? && r.signedCid.value != am.signedCid then NonceConflict else OnChain,
         receipt := Some(am.receipt), height := am.height, tsk := Some(am.tsk))
    else r
  }

  /** Applying messages one after another to one row. */
  function Settle(r: Row, ams: seq<ApplyMessage>): Row {
    if ams == [] then r else ApplyRow(Settle(r, ams[..|ams| - 1]), ams[|ams| - 1])
  }

  /** A failed row that was signed and that the chain nonce has not passed. */
  predicate Recovers(r: Row, addr: Address, actorNonce: nat) {
    r.state == Failed && r.msg.from == addr && Signed(r) && r.msg.nonce >= actorNonce
  }

  /** Recovery changes the state column alone. */
  function RecoverRows(t: Table, addr: Address, actorNonce: nat): Table {
    map i | i in t :: if Recovers(t[i], addr, actorNonce) then t[i].(state := Fill) else t[i]
  }

  /** Every row of `t'` is the row of `t` reverted by `cids` and then settled by `ams`. */
  ghost predicate Rewritten(t: Table, t': Table, cids: set<Cid>, ams: seq<ApplyMessage>) {
    && t'.Keys == t.Keys
    && forall i :: i in t ==> t'[i] == Settle(RevertRow(t[i], cids), ams)
  }

  /** The columns a refresh never touches. */
  predicate SameIdentity(r: Row, s: Row) {
    && r.msg == s.msg && r.sig == s.sig && r.unsignedCid == s.unsignedCid && r.signedCid == s.signedCid
    && r.errorMsg == s.errorMsg
  }

  lemma {:induction false} SettleIdentity(r: Row, ams: seq<ApplyMessage>)
    ensures SameIdentity(r, Settle(r, ams))
    ensures RowOk(r) ==> RowOk(Settle(r, ams))
  {
    if ams != [] {
      SettleIdentity(r, ams[..|ams| - 1]);
    }
  }

  lemma RewrittenOk(t: Table, t': Table, cids: set<Cid>, ams: seq<ApplyMessage>)
    requires TableOk(t) && Rewritten(t, t', cids, ams)
    ensures TableOk(t')
    ensures forall i :: i in t ==> SameIdentity(t[i], t'[i])
  {
    forall i | i in t
      ensures SameIdentity(t[i], t'[i]) && RowOk(t'[i])
    {
      SettleIdentity(RevertRow(t[i], cids), ams);
    }
    forall i, j | i in t' && j in t' && Signed(t'[i]) && Signed(t'[j]) && SameSender(t'[i], t'[j])
      ensures i == j
    {
      assert SameIdentity(t[i], t'[i]) && SameIdentity(t[j], t'[j]);
    }
  }

  /** Two rows of a sound table with one unsigned identifier are the same row. */
  lemma CidDeterminesRow(t: Table, i: MessageId, j: MessageId)
    requires TableOk(t) && i in t && j in t
    requires t[i].unsignedCid.Some? && t[i].unsignedCid == t[j].unsignedCid
    ensures i == j
  {
    assert RowOk(t[i]) && RowOk(t[j]);
  }

  /** One more reverted identifier. */
  lemma RevertStep(t: Table, t1: Table, done: set<Cid>, c: Cid)
    requires Rewritten(t, t1, done, [])
    ensures Rewritten(t, UpdateInfoByCid(t1, c, REVERTED_RECEIPT, 0, Fill, None), done + {c}, [])
  {
  }

  /** The update of the one row found agrees with the row-wise meaning: a conflict is written to that
      row, otherwise the update by identifier touches that row and no other. */
  lemma ApplyHit(t: Table, am: ApplyMessage, id: MessageId)
    requires TableOk(t) && ApplyOk(am)
    requires id in t && FillAt(t[id], am.msg.from, am.msg.nonce)
    ensures t[id].signedCid.Some?
    ensures forall i :: i in t && i != id ==> ApplyRow(t[i], am) == t[i]
    ensures t[id].signedCid.value == am.signedCid ==>
              forall i :: i in t ==>
                UpdateInfoByCid(t, UnsignedCid(am.msg), am.receipt, am.height, OnChain, Some(am.tsk))[i]
                == ApplyRow(t[i], am)
  {
    assert RowOk(t[id]);
    forall i | i in t && i != id
      ensures ApplyRow(t[i], am) == t[i]
    {
      assert RowOk(t[i]);
      if FillAt(t[i], am.msg.from, am.msg.nonce) {
        assert SameSender(t[i], t[id]);
        assert false;
      }
    }
    if t[id].signedCid.value == am.signedCid {
      assert t[id].msg == am.msg;
      forall i | i in t && i != id
        ensures t[i].unsignedCid != Some(UnsignedCid(am.msg))
      {
        if t[i].unsignedCid == Some(UnsignedCid(am.msg)) {
          CidDeterminesRow(t, i, id);
        }
      }
    }
  }

  lemma ApplyStep(t: Table, t1: Table, t2: Table, cids: set<Cid>, ams: seq<ApplyMessage>, k: nat)
    requires k < |ams| && Rewritten(t, t1, cids, ams[..k])
    requires t2.Keys == t1.Keys && forall i :: i in t1 ==> t2[i] == ApplyRow(t1[i], ams[k])
    ensures Rewritten(t, t2, cids, ams[..k + 1])
  {
    assert ams[..k + 1][..k] == ams[..k];
  }
}
