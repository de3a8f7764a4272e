/** Selecting messages for one address: the base nonce, the pending window, and the loop that estimates,
    assigns nonces and signs. */
module Selection {
  import opened Messages
  import opened MessageTable
  import Ranges

  const UINT64: nat := 0x1_0000_0000_0000_0000
  const SELECT_MAX: nat := 100

  /** Unsigned 64-bit subtraction. */
  function Sub64(a: nat, b: nat): nat {
    (a - b) % UINT64
  }

  /** The node's answer for one candidate. */
  datatype Estimate = EstimateError(err: string) | Estimated(gasLimit: nat, gasFeeCap: nat, gasPremium: nat)

  /** The outcome of signing one candidate: a wallet failure ends the round, any other failure skips. */
  datatype SignOutcome = SignedBy(sig: Signature) | WalletFailed(err: string) | NotSerialized(err: string)

  /** A selected message: its place among the candidates, its id and the row to be stored. */
  datatype Choice = Choice(index: nat, id: MessageId, row: Row)

  datatype ErrInfo = ErrInfo(id: MessageId, err: string)

  datatype Candidate = Candidate(id: MessageId, row: Row)

  datatype Round = Round(selected: seq<Choice>, errs: seq<ErrInfo>, stopped: bool)

  datatype SelectResult = SelectResult(nonce: nat, selected: seq<Choice>, toPush: seq<SignedMessage>, errs: seq<ErrInfo>)

  // ---- The loop over candidates ----------------------------------------------------------------

  function FilledRow(row: Row, nonce: nat, e: Estimate, sig: Signature): Row
    requires e.Estimated?
  {
    var m := row.msg.(nonce := nonce, gasFeeCap := e.gasFeeCap, gasPremium := e.gasPremium, gasLimit := e.gasLimit);
    row.(msg := m, sig := Some(sig),
         unsignedCid := Some(UnsignedCid(m)), signedCid := Some(SignedCid(SignedMessage(m, sig))),
         state := Fill, errorMsg := "")
  }

  /** The error recorded for a message over the gas cap. */
  function OverLimit(gasLimit: nat, gasCap: nat): string {
    "gas estimate:  gas limit " + Ranges.Decimal(gasLimit) + " over limit " + Ranges.Decimal(gasCap)
  }

  function Consider(r: Round, index: nat, c: Candidate, e: Estimate, s: SignOutcome, base: nat, gasCap: nat): Round {
    if r.stopped then r
    else if e.EstimateError? then r.(errs := r.errs + [ErrInfo(c.id, "gas estimate: " + e.err)])
    else if e.gasLimit > gasCap then r.(errs := r.errs + [ErrInfo(c.id, OverLimit(e.gasLimit, gasCap))])
    else match s
      case SignedBy(sig) =>
        r.(selected := r.selected + [Choice(index, c.id, FilledRow(c.row, base + |r.selected|, e, sig))])
      case WalletFailed(err) => r.(errs := r.errs + [ErrInfo(c.id, err)], stopped := true)
      case NotSerialized(_) => r
  }

  /** What the loop works on: candidates with the node's and the wallet's answers in the same order. */
  datatype Input = Input(cs: seq<Candidate>, es: seq<Estimate>, ss: seq<SignOutcome>, base: nat, gasCap: nat) {
    predicate Aligned() {
      |es| == |cs| == |ss|
    }

    /** Estimated within the gas cap and signed. */
    predicate Selectable(i: nat)
      requires Aligned() && i < |cs|
    {
      es[i].Estimated? && es[i].gasLimit <= gasCap && ss[i].SignedBy?
    }

    /** The wallet failure that ends the round. */
    predicate Ends(i: nat)
      requires Aligned() && i < |cs|
    {
      es[i].Estimated? && es[i].gasLimit <= gasCap && ss[i].WalletFailed?
    }
  }

  /** The round after the first `k` candidates. */
  function After(inp: Input, k: nat): Round
    requires inp.Aligned() && k <= |inp.cs|
  {
    if k == 0 then Round([], [], false)
    else Consider(After(inp, k - 1), k - 1, inp.cs[k - 1], inp.es[k - 1], inp.ss[k - 1], inp.base, inp.gasCap)
  }

  /** The j-th selected message carries nonce base + j and the estimate and signature of its candidate. */
  ghost predicate ChoiceOk(ch: Choice, j: nat, inp: Input)
    requires inp.Aligned()
  {
    && ch.index < |inp.cs| && inp.Selectable(ch.index) && ch.id == inp.cs[ch.index].id
    && ch.row == FilledRow(inp.cs[ch.index].row, inp.base + j, inp.es[ch.index], inp.ss[ch.index].sig)
  }

  /** What the last of `k` candidates adds to the selected ones. */
  lemma ConsiderAdds(inp: Input, k: nat)
    requires inp.Aligned() && 0 < k <= |inp.cs|
    ensures var before := After(inp, k - 1);
            After(inp, k).selected == before.selected
            + (if !before.stopped && inp.Selectable(k - 1)
               then [Choice(k - 1, inp.cs[k - 1].id,
                            FilledRow(inp.cs[k - 1].row, inp.base + |before.selected|, inp.es[k - 1], inp.ss[k - 1].sig))]
               else [])
  {
  }

  /** Contiguous assignment: nonces base, base + 1, ... without a hole, in candidate order, whatever is skipped. */
  lemma {:induction false} Contiguous(inp: Input, k: nat)
    requires inp.Aligned() && k <= |inp.cs|
    ensures |After(inp, k).selected| <= k
    ensures forall j :: 0 <= j < |After(inp, k).selected| ==>
              ChoiceOk(After(inp, k).selected[j], j, inp) && After(inp, k).selected[j].index < k
    ensures forall i, j :: 0 <= i < j < |After(inp, k).selected| ==>
              After(inp, k).selected[i].index < After(inp, k).selected[j].index
  {
    if k > 0 {
      Contiguous(inp, k - 1);
      ConsiderAdds(inp, k);
    }
  }

  /** The round stops exactly when a wallet failure was met. */
  lemma {:induction false} StopsAt(inp: Input, k: nat)
    requires inp.Aligned() && k <= |inp.cs|
    ensures After(inp, k).stopped <==> exists e :: 0 <= e < k && inp.Ends(e)
  {
    if k > 0 {
      StopsAt(inp, k - 1);
      if After(inp, k).stopped && !After(inp, k - 1).stopped {
        assert inp.Ends(k - 1);
      }
    }
  }

  ghost predicate Chosen(r: Round, i: nat) {
    exists j :: 0 <= j < |r.selected| && r.selected[j].index == i
  }

  /** What the k-th candidate adds: itself, if the round is still going and it is selectable. */
  lemma ConsiderChosen(inp: Input, k: nat, i: nat)
    requires inp.Aligned() && i < k <= |inp.cs|
    ensures Chosen(After(inp, k), i) <==>
            Chosen(After(inp, k - 1), i) || (i == k - 1 && inp.Selectable(i) && !After(inp, k - 1).stopped)
  {
    var before, after := After(inp, k - 1), After(inp, k);
    if Chosen(before, i) {
      var j :| 0 <= j < |before.selected| && before.selected[j].index == i;
      assert after.selected[j] == before.selected[j];
    }
    if i == k - 1 && inp.Selectable(i) && !before.stopped {
      assert after.selected[|before.selected|].index == i;
    }
  }

  /** Exactly the selectable candidates before the first wallet failure are selected. */
  lemma {:induction false} SelectsExactly(inp: Input, k: nat, i: nat)
    requires inp.Aligned() && i < k <= |inp.cs|
    ensures Chosen(After(inp, k), i) <==>
            inp.Selectable(i) && forall e :: 0 <= e < i ==> !inp.Ends(e)
    decreases k
  {
    ConsiderChosen(inp, k, i);
    if i < k - 1 {
      SelectsExactly(inp, k - 1, i);
    } else {
      Contiguous(inp, k - 1);
      StopsAt(inp, k - 1);
    }
  }

  /** The error a candidate is rejected with: not estimated, over the gas cap, or refused by the wallet. */
  function Reason(inp: Input, i: nat): Option<string>
    requires inp.Aligned() && i < |inp.cs|
  {
    if inp.es[i].EstimateError? then Some("gas estimate: " + inp.es[i].err)
    else if inp.es[i].gasLimit > inp.gasCap then Some(OverLimit(inp.es[i].gasLimit, inp.gasCap))
    else if inp.ss[i].WalletFailed? then Some(inp.ss[i].err)
    else None
  }

  /** The candidate is reached and rejected with this error. */
  ghost predicate Rejects(inp: Input, i: nat, e: ErrInfo)
    requires inp.Aligned() && i < |inp.cs|
  {
    && e.id == inp.cs[i].id && Reason(inp, i) == Some(e.err)
    && forall f :: 0 <= f < i ==> !inp.Ends(f)
  }

  /** The errors recorded are exactly those of the rejected candidates up to the first wallet failure. */
  lemma {:induction false} RecordsExactly(inp: Input, k: nat, e: ErrInfo)
    requires inp.Aligned() && k <= |inp.cs|
    ensures e in After(inp, k).errs <==> exists i: nat :: i < k && Rejects(inp, i, e)
  {
    if k > 0 {
      RecordsExactly(inp, k - 1, e);
      StopsAt(inp, k - 1);
      if !After(inp, k - 1).stopped && Reason(inp, k - 1).Some? {
        assert After(inp, k).errs == After(inp, k - 1).errs + [ErrInfo(inp.cs[k - 1].id, Reason(inp, k - 1).value)];
      } else {
        assert After(inp, k).errs == After(inp, k - 1).errs;
      }
      if i: nat :| i < k && Rejects(inp, i, e) {
        if i == k - 1 {
          assert !After(inp, k - 1).stopped;
        }
      }
      if e in After(inp, k).errs && e !in After(inp, k - 1).errs {
        assert Rejects(inp, k - 1, e);
      }
    }
  }

  lemma {:induction false} StoppedStays(inp: Input, k: nat)
    requires inp.Aligned() && k <= |inp.cs|
    requires k == |inp.cs| || After(inp, k).stopped
    ensures After(inp, |inp.cs|) == After(inp, k)
    decreases |inp.cs| - k
  {
    if k < |inp.cs| {
      StoppedStays(inp, k + 1);
    }
  }

  /** The loop as it runs, with its running nonce, its counter and its break on `wantCount`; since there are
      never more candidates than wanted, that break does not change the outcome. */
  method AssignNonces(inp: Input, wantCount: nat) returns (nonce: nat, selected: seq<Choice>, errs: seq<ErrInfo>)
    requires inp.Aligned() && |inp.cs| <= wantCount
    ensures var r := After(inp, |inp.cs|);
            selected == r.selected && errs == r.errs && nonce == inp.base + |r.selected|
  {
    nonce, selected, errs := inp.base, [], [];
    var count := 0;
    var index := 0;
    var stopped := false;
    while index < |inp.cs| && !stopped
      invariant 0 <= index <= |inp.cs|
      invariant After(inp, index) == Round(selected, errs, stopped)
      invariant nonce == inp.base + |selected| && count == |selected| <= index
      decreases |inp.cs| - index
    {
      var c, e, s := inp.cs[index], inp.es[index], inp.ss[index];
      if e.EstimateError? {
        errs := errs + [ErrInfo(c.id, "gas estimate: " + e.err)];
      } else {
        if count >= wantCount {
          break;
        }
        if e.gasLimit > inp.gasCap {
          errs := errs + [ErrInfo(c.id, OverLimit(e.gasLimit, inp.gasCap))];
        } else {
          match s
          case WalletFailed(err) =>
            errs := errs + [ErrInfo(c.id, err)];
            stopped := true;
          case NotSerialized(_) =>
          case SignedBy(sig) =>
            selected := selected + [Choice(index, c.id, FilledRow(c.row, nonce, e, sig))];
            nonce := nonce + 1;
            count := count + 1;
        }
      }
      index := index + 1;
    }
    StoppedStays(inp, index);
  }

  // ---- Candidates and their estimates stay aligned ------------------------------------------------

  /** Each candidate is estimated with its own message, and the candidates are a subsequence of the listed
      messages: exactly those without a base-fee cap (zero) or whose cap is not below the chain's base fee. The fee
      cap sent is the message's own, or the configured one when it has none. */
  method EstimateRequests(listed: seq<Candidate>, feeCaps: seq<nat>, baseFeeCaps: seq<nat>, chainBaseFee: nat)
    returns (cs: seq<Candidate>, requests: seq<Message>, picks: seq<nat>)
    requires |feeCaps| == |baseFeeCaps| == |listed|
    ensures |cs| == |requests| == |picks| <= |listed|
    ensures forall i :: 0 <= i < |cs| ==>
              && picks[i] < |listed| && cs[i].id == listed[picks[i]].id
              && (var own := listed[picks[i]].row.msg;
                  cs[i].row == listed[picks[i]].row.(
                    msg := own.(gasFeeCap := if own.gasFeeCap == 0 then feeCaps[picks[i]] else own.gasFeeCap)))
              && requests[i] == cs[i].row.msg
    ensures forall i, j :: 0 <= i < j < |cs| ==> picks[i] < picks[j]
    ensures forall k :: 0 <= k < |listed| ==> (k in picks <==> baseFeeCaps[k] == 0 || chainBaseFee <= baseFeeCaps[k])
  {
    cs, requests, picks := [], [], [];
    for k := 0 to |listed|
      invariant |cs| == |requests| == |picks| <= k
      invariant forall i :: 0 <= i < |cs| ==>
                  && picks[i] < k && cs[i].id == listed[picks[i]].id
                  && (var own := listed[picks[i]].row.msg;
                      cs[i].row == listed[picks[i]].row.(
                        msg := own.(gasFeeCap := if own.gasFeeCap == 0 then feeCaps[picks[i]] else own.gasFeeCap)))
                  && requests[i] == cs[i].row.msg
      invariant forall i, j :: 0 <= i < j < |cs| ==> picks[i] < picks[j]
      invariant forall n :: 0 <= n < k ==> (n in picks <==> baseFeeCaps[n] == 0 || chainBaseFee <= baseFeeCaps[n])
    {
      var row := listed[k].row;
      if row.msg.gasFeeCap == 0 && feeCaps[k] != 0 {
        row := row.(msg := row.msg.(gasFeeCap := feeCaps[k]));
      }
      assert k !in picks;
      if baseFeeCaps[k] != 0 && chainBaseFee > baseFeeCaps[k] {
      } else {
        cs := cs + [Candidate(listed[k].id, row)];
        requests := requests + [row.msg];
        picks := picks + [k];
      }
    }
  }

  // ---- The base nonce and the pending window ------------------------------------------------------

  /** The nonce the round starts from: the stored one, raised to the chain's, and past the largest nonce in
      the table when that one is larger still. */
  function BaseNonce(stored: nat, chain: nat, maxInTable: nat): nat {
    if chain > stored then (if maxInTable > chain then maxInTable + 1 else chain) else stored
  }

  ghost predicate LargestNonce(t: Table, ids: set<MessageId>, n: nat) {
    && (forall i :: i in ids && i in t ==> t[i].msg.nonce <= n)
    && (n == 0 || exists i :: i in ids && i in t && t[i].msg.nonce == n)
  }

  /** The rows consulted for the largest nonce: the filled ones, or the recent on-chain ones if there are none. */
  ghost function NonceWitnesses(t: Table, addr: Address, recent: set<MessageId>): set<MessageId> {
    var filled := set i | i in t && t[i].msg.from == addr && t[i].state == Fill;
    if filled != {} then filled else recent
  }

  ghost predicate BaseFrom(t: Table, addr: Address, recent: set<MessageId>, stored: nat, chain: nat, base: nat) {
    exists n :: LargestNonce(t, NonceWitnesses(t, addr, recent), n) && base == BaseNonce(stored, chain, n)
  }

  /** The base is at least the nonce read and the chain's. It is above every row consulted if and only if they are
      all below the nonce read, when the chain is not ahead of it, and otherwise if and only if the largest of them
      is not the chain's nonce itself: the comparison that should raise the base past it is strict. */
  lemma BaseAboveConsulted(t: Table, addr: Address, recent: set<MessageId>, stored: nat, chain: nat, base: nat)
    requires BaseFrom(t, addr, recent, stored, chain, base)
    ensures base >= stored && base >= chain
    ensures var consulted := NonceWitnesses(t, addr, recent);
            (forall i :: i in consulted && i in t ==> t[i].msg.nonce < base) <==>
            if chain <= stored then forall i :: i in consulted && i in t ==> t[i].msg.nonce < stored
            else !LargestNonce(t, consulted, chain)
  {
    var consulted := NonceWitnesses(t, addr, recent);
    var n :| LargestNonce(t, consulted, n) && base == BaseNonce(stored, chain, n);
    if chain > stored && LargestNonce(t, consulted, chain) {
      var i :| i in consulted && i in t && t[i].msg.nonce == chain;
      assert n == chain;
    }
  }

  method MaxOver(t: Table, ids: set<MessageId>) returns (n: nat)
    requires ids <= t.Keys
    ensures LargestNonce(t, ids, n)
  {
    n := 0;
    var todo := ids;
    while todo != {}
      invariant todo <= ids
      invariant LargestNonce(t, ids - todo, n)
      decreases todo
    {
      var i :| i in todo;
      ghost var done := ids - todo;
      if n < t[i].msg.nonce {
        n := t[i].msg.nonce;
      }
      todo := todo - {i};
      assert ids - todo == done + {i};
    }
    assert ids - todo == ids;
  }

  /** The filled rows of the address decide; only when there are none, the recent on-chain rows do. */
  method MaxMessageNonce(t: Table, addr: Address, recent: set<MessageId>) returns (n: nat)
    requires forall i :: i in recent ==> i in t && t[i].msg.from == addr && t[i].state == OnChain
    ensures LargestNonce(t, NonceWitnesses(t, addr, recent), n)
    ensures forall i :: i in t && t[i].msg.from == addr && t[i].state == Fill ==> t[i].msg.nonce <= n
    ensures (forall i :: i in t && t[i].msg.from == addr ==> t[i].state != Fill) ==>
              && (forall i :: i in recent ==> t[i].msg.nonce <= n)
              && (n == 0 || exists i :: i in recent && t[i].msg.nonce == n)
    ensures (exists i :: i in t && t[i].msg.from == addr && t[i].state == Fill) ==>
              n == 0 || exists i :: i in t && t[i].msg.from == addr && t[i].state == Fill && t[i].msg.nonce == n
  {
    var filled := set i | i in t && t[i].msg.from == addr && t[i].state == Fill;
    assert forall i :: i in filled <==> i in t && t[i].msg.from == addr && t[i].state == Fill;
    if filled != {} {
      n := MaxOver(t, filled);
    } else {
      n := MaxOver(t, recent);
    }
  }

  /** The filled rows worth pushing again: those the chain has not passed. */
  ghost function Pushable(t: Table, addr: Address, chain: nat): set<SignedMessage> {
    set i | i in t && t[i].state == Fill && t[i].msg.from == addr && t[i].msg.nonce >= chain && Signed(t[i])
      :: SignedMessage(t[i].msg, t[i].sig.value)
  }

  method FilledMessages(t: Table, addr: Address, chain: nat) returns (msgs: seq<SignedMessage>)
    requires RowsOk(t)
    ensures forall m :: m in msgs <==> m in Pushable(t, addr, chain)
    ensures forall m :: m in msgs ==>
              exists i :: i in t && t[i].state == Fill && t[i].msg.from == addr && t[i].msg.nonce >= chain
                          && t[i].msg == m.msg && t[i].sig == Some(m.sig)
    ensures forall i :: i in t && t[i].state == Fill && t[i].msg.from == addr && t[i].msg.nonce >= chain ==>
              t[i].sig.Some? && SignedMessage(t[i].msg, t[i].sig.value) in msgs
  {
    msgs := [];
    var all := set i | i in t && t[i].state == Fill && t[i].msg.from == addr;
    var todo := all;
    while todo != {}
      invariant todo <= all
      invariant forall m :: m in msgs <==>
                  exists i :: i in all - todo && t[i].msg.nonce >= chain && Signed(t[i]) && m == SignedMessage(t[i].msg, t[i].sig.value)
      decreases todo
    {
      var i :| i in todo;
      ghost var done := all - todo;
      assert RowOk(t[i]);
      if !(chain > t[i].msg.nonce) {
        msgs := msgs + [SignedMessage(t[i].msg, t[i].sig.value)];
      }
      todo := todo - {i};
      assert all - todo == done + {i};
    }
    assert all - todo == all;
    forall i | i in t && t[i].state == Fill && t[i].msg.from == addr && t[i].msg.nonce >= chain
      ensures t[i].sig.Some? && SignedMessage(t[i].msg, t[i].sig.value) in msgs
    {
      assert RowOk(t[i]) && i in all;
    }
  }

  /** A query limit of zero or less is no limit. */
  function Limited(ids: seq<MessageId>, n: int): (r: seq<MessageId>)
    ensures r <= ids
    ensures n > 0 ==> |r| <= n
  {
    if n <= 0 || n >= |ids| then ids else ids[..n]
  }

  // ---- The whole selection -------------------------------------------------------------------------

  /** What a round may store: pairwise different pending rows of the address, each filled with the next
      nonce, its own identifiers and its signature. */
  ghost predicate PicksOk(t: Table, addr: Address, base: nat, picks: seq<Choice>) {
    && (forall j :: 0 <= j < |picks| ==>
          && picks[j].id in t && t[picks[j].id].state == UnFill && t[picks[j].id].msg.from == addr
          && RowOk(picks[j].row) && Signed(picks[j].row) && picks[j].row.state == Fill
          && picks[j].row.msg.from == addr && picks[j].row.msg.nonce == base + j
          && picks[j].row.height == t[picks[j].id].height)
    && (forall i, j :: 0 <= i < j < |picks| ==> picks[i].id != picks[j].id)
  }

  /** What the node, the wallet and the configuration answer for a message. */
  datatype Answers = Answers(estimate: Estimate, sign: SignOutcome, feeCap: nat, baseFeeCap: nat)

  /** The pending rows of an address in the order the query returns them. */
  ghost predicate Unfilled(t: Table, addr: Address, ids: seq<MessageId>) {
    && (forall k :: 0 <= k < |ids| ==> ids[k] in t && t[ids[k]].state == UnFill && t[ids[k]].msg.from == addr)
    && (forall i, j :: 0 <= i < j < |ids| ==> ids[i] != ids[j])
  }

  /** The message may be selected: its base-fee cap allows the chain's base fee and it is estimated within the
      gas cap. */
  predicate Ready(a: Answers, chainBaseFee: nat, gasCap: nat) {
    && (a.baseFeeCap == 0 || chainBaseFee <= a.baseFeeCap)
    && a.estimate.Estimated? && a.estimate.gasLimit <= gasCap
  }

  /** No wallet failure ends the round before the `k`-th listed message. */
  ghost predicate Reached(l: seq<MessageId>, answers: map<MessageId, Answers>, chainBaseFee: nat, gasCap: nat, k: nat)
    requires k <= |l| && forall i :: i in l ==> i in answers
  {
    forall e :: 0 <= e < k ==> !(Ready(answers[l[e]], chainBaseFee, gasCap) && answers[l[e]].sign.WalletFailed?)
  }

  /** The error a listed message is rejected with, if it is. */
  function Fault(a: Answers, chainBaseFee: nat, gasCap: nat): Option<string> {
    if a.baseFeeCap != 0 && a.baseFeeCap < chainBaseFee then None
    else match a.estimate
      case EstimateError(err) => Some("gas estimate: " + err)
      case Estimated(gasLimit, _, _) =>
        if gasLimit > gasCap then
          Some("gas estimate:  gas limit " + Ranges.Decimal(gasLimit) + " over limit " + Ranges.Decimal(gasCap))
        else if a.sign.WalletFailed? then Some(a.sign.err) else None
  }

  /** What is selected of the listed messages, and how each is filled: its own payload, nonce `base + j`, its own
      estimate and its own signature. */
  ghost predicate SelectedOf(t: Table, l: seq<MessageId>, answers: map<MessageId, Answers>, chainBaseFee: nat,
                             gasCap: nat, base: nat, selected: seq<Choice>)
    requires forall i :: i in l ==> i in answers && i in t
  {
    && (forall k :: 0 <= k < |l| ==>
          (PickedFrom(selected, l[k]) <==>
             && Ready(answers[l[k]], chainBaseFee, gasCap) && answers[l[k]].sign.SignedBy?
             && Reached(l, answers, chainBaseFee, gasCap, k)))
    && (forall j :: 0 <= j < |selected| ==>
          selected[j].id in l && FilledFrom(t, answers, selected[j].id, base + j, selected[j].row))
    && (forall i, j, a, b ::
          0 <= i < j < |selected| && 0 <= a < |l| && 0 <= b < |l| && l[a] == selected[i].id && l[b] == selected[j].id
          ==> a < b)
  }

  ghost predicate PickedFrom(selected: seq<Choice>, id: MessageId) {
    exists j :: 0 <= j < |selected| && selected[j].id == id
  }

  ghost predicate FilledFrom(t: Table, answers: map<MessageId, Answers>, id: MessageId, nonce: nat, r: Row)
    requires id in t && id in answers
  {
    var a := answers[id];
    && a.estimate.Estimated? && a.sign.SignedBy?
    && r.msg == Message(t[id].msg.from, nonce, t[id].msg.payload,
                        a.estimate.gasLimit, a.estimate.gasFeeCap, a.estimate.gasPremium)
    && r == Row(r.msg, Some(a.sign.sig), Some(UnsignedCid(r.msg)), Some(SignedCid(SignedMessage(r.msg, a.sign.sig))),
                Fill, t[id].height, t[id].receipt, t[id].tsk, "")
  }

  /** The errors recorded: exactly those of the faulty messages reached, with their own text. */
  ghost predicate FaultsOf(l: seq<MessageId>, answers: map<MessageId, Answers>, chainBaseFee: nat, gasCap: nat,
                           errs: seq<ErrInfo>)
    requires forall i :: i in l ==> i in answers
  {
    forall e :: e in errs <==>
      exists k :: 0 <= k < |l| && l[k] == e.id && Fault(answers[l[k]], chainBaseFee, gasCap) == Some(e.err)
                  && Reached(l, answers, chainBaseFee, gasCap, k)
  }

  /** The messages a round works on: at most 100, and at most as many as fit between the base and `maxAllow` above
      the chain nonce. */
  function Window(unfilled: seq<MessageId>, base: nat, chain: nat, maxAllow: nat): (l: seq<MessageId>)
    requires chain <= base
    ensures l <= unfilled
    ensures |l| == if |unfilled| <= 100 && base + |unfilled| <= chain + maxAllow then |unfilled|
                   else if base >= chain + maxAllow then 0
                   else if chain + maxAllow - base <= 100 then chain + maxAllow - base else 100
  {
    var room := if base - chain >= maxAllow then 0 else maxAllow - (base - chain);
    var n := if room <= SELECT_MAX then room else SELECT_MAX;
    if n >= |unfilled| then unfilled else unfilled[..n]
  }

  lemma WindowOk(t: Table, addr: Address, unfilled: seq<MessageId>, base: nat, chain: nat, maxAllow: nat)
    requires Unfilled(t, addr, unfilled) && chain <= base
    ensures var l := Window(unfilled, base, chain, maxAllow);
            Unfilled(t, addr, l) && (forall i :: i in l ==> i in unfilled)
  {
    var l := Window(unfilled, base, chain, maxAllow);
    assert forall k :: 0 <= k < |l| ==> l[k] == unfilled[k];
  }

  /** The nonce a round starts from: the stored one; the chain's when that is ahead; and one past the largest nonce
      consulted when that is further ahead still. It is written back exactly when the chain is ahead. */
  method StartNonce(t: Table, addr: Address, stored: nat, chain: nat, recent: set<MessageId>)
    returns (base: nat, saved: Option<nat>)
    requires forall i :: i in recent ==> i in t && t[i].msg.from == addr && t[i].state == OnChain
    requires stored < UINT64 && chain < UINT64 && forall i :: i in t ==> t[i].msg.nonce < UINT64 - 1
    ensures BaseFrom(t, addr, recent, stored, chain, base)
    ensures saved == if chain > stored then Some(base) else None
    ensures base >= chain && base < UINT64
    ensures chain <= stored ==> base == stored
    ensures var consulted := NonceWitnesses(t, addr, recent);
            chain > stored ==>
              if forall i :: i in consulted ==> t[i].msg.nonce <= chain then base == chain
              else (forall i :: i in consulted ==> t[i].msg.nonce < base)
                   && exists i :: i in consulted && t[i].msg.nonce + 1 == base
  {
    var n := MaxMessageNonce(t, addr, recent);
    base, saved := stored, None;
    if chain > stored {
      base := chain;
      if n > base {
        base := n + 1;
      }
      saved := Some(base);
    }
  }

  /** One selection for one address. `saved` is the nonce written back at once when the chain is ahead.
      The gap between the assigned and the chain nonce is computed in unsigned arithmetic and never wraps;
      nothing is selected once it reaches the allowed count, and otherwise the nonces assigned end at most
      that count above the chain nonce. Selected are exactly the listed messages that are ready and signed before the
      first wallet failure, each with its own estimate and signature; errors are recorded for exactly the faulty ones;
      pushed again are exactly the filled rows at or above the chain nonce. */
  method SelectMessage(t: Table, addr: Address, stored: nat, chain: nat, recent: set<MessageId>, maxAllow: nat,
                       unfilled: seq<MessageId>, answers: map<MessageId, Answers>, chainBaseFee: nat, gasCap: nat)
    returns (res: SelectResult, base: nat, saved: Option<nat>)
    requires RowsOk(t) && Unfilled(t, addr, unfilled)
    requires forall i :: i in recent ==> i in t && t[i].msg.from == addr && t[i].state == OnChain
    requires forall i :: i in unfilled ==> i in answers
    requires stored < UINT64 && chain < UINT64 && forall i :: i in t ==> t[i].msg.nonce < UINT64 - 1
    ensures BaseFrom(t, addr, recent, stored, chain, base) && base >= chain
    ensures saved == if chain > stored then Some(base) else None
    ensures chain <= stored ==> base == stored
    ensures PicksOk(t, addr, base, res.selected) && res.nonce == base + |res.selected|
    ensures |res.selected| <= SELECT_MAX
    ensures base - chain >= maxAllow ==> res.selected == [] && res.errs == []
    ensures res.selected != [] ==> res.nonce - chain <= maxAllow
    ensures var l := Window(unfilled, base, chain, maxAllow);
            && SelectedOf(t, l, answers, chainBaseFee, gasCap, base, res.selected)
            && FaultsOf(l, answers, chainBaseFee, gasCap, res.errs)
    ensures forall m :: m in res.toPush ==>
              exists i :: i in t && t[i].state == Fill && t[i].msg.from == addr && t[i].msg.nonce >= chain
                          && t[i].msg == m.msg && t[i].sig == Some(m.sig)
    ensures forall i :: i in t && t[i].state == Fill && t[i].msg.from == addr && t[i].msg.nonce >= chain ==>
              t[i].sig.Some? && SignedMessage(t[i].msg, t[i].sig.value) in res.toPush
  {
    base, saved := StartNonce(t, addr, stored, chain, recent);
    var toPush := FilledMessages(t, addr, chain);
    var nonceGap := Sub64(base, chain);
    assert nonceGap == base - chain;
    if nonceGap >= maxAllow {
      res := SelectResult(base, [], toPush, []);
      return;
    }
    var wantCount := maxAllow - nonceGap;
    var selectCount := if wantCount < SELECT_MAX then wantCount else SELECT_MAX;
    assert 1 <= selectCount <= SELECT_MAX;
    var ids := Limited(unfilled, selectCount);
    WindowOk(t, addr, unfilled, base, chain, maxAllow);
    assert ids == Window(unfilled, base, chain, maxAllow);
    if |ids| == 0 {
      res := SelectResult(base, [], toPush, []);
      return;
    }
    var nonce, selected, errs := RunRound(t, addr, ids, answers, base, wantCount, chainBaseFee, gasCap);
    res := SelectResult(nonce, selected, toPush, errs);
  }

  // ---- Candidates against the listed messages --------------------------------------------------------------

  /** The candidates are the listed messages at the positions `from`, with their own answers. */
  ghost predicate Matches(t: Table, l: seq<MessageId>, answers: map<MessageId, Answers>, chainBaseFee: nat, inp: Input,
                          from: seq<nat>) {
    && inp.Aligned() && |from| == |inp.cs| && (forall i :: i in l ==> i in t && i in answers)
    && (forall i, j :: 0 <= i < j < |l| ==> l[i] != l[j])
    && (forall i :: 0 <= i < |from| ==> from[i] < |l| && MatchesAt(t, answers, inp, i, l[from[i]]))
    && (forall i, j :: 0 <= i < j < |from| ==> from[i] < from[j])
    && (forall k :: 0 <= k < |l| ==> (k in from <==> answers[l[k]].baseFeeCap == 0 || chainBaseFee <= answers[l[k]].baseFeeCap))
  }

  ghost predicate MatchesAt(t: Table, answers: map<MessageId, Answers>, inp: Input, i: nat, id: MessageId)
    requires inp.Aligned() && i < |inp.cs|
  {
    && id in t && id in answers && inp.cs[i].id == id
    && inp.cs[i].row == t[id].(msg := t[id].msg.(gasFeeCap := inp.cs[i].row.msg.gasFeeCap))
    && inp.es[i] == answers[id].estimate && inp.ss[i] == answers[id].sign
  }

  /** A wallet failure among the candidates is one among the listed messages. */
  lemma ReachedSame(t: Table, l: seq<MessageId>, answers: map<MessageId, Answers>, chainBaseFee: nat, inp: Input,
                    from: seq<nat>, i: nat)
    requires Matches(t, l, answers, chainBaseFee, inp, from) && i < |from|
    ensures (forall e :: 0 <= e < i ==> !inp.Ends(e)) <==> Reached(l, answers, chainBaseFee, inp.gasCap, from[i])
  {
    if forall e :: 0 <= e < i ==> !inp.Ends(e) {
      forall k | 0 <= k < from[i] && Ready(answers[l[k]], chainBaseFee, inp.gasCap)
        ensures !answers[l[k]].sign.WalletFailed?
      {
        assert k in from;
        var e :| 0 <= e < |from| && from[e] == k;
        assert e < i && MatchesAt(t, answers, inp, e, l[from[e]]) && !inp.Ends(e);
      }
    }
    if Reached(l, answers, chainBaseFee, inp.gasCap, from[i]) {
      forall e | 0 <= e < i
        ensures !inp.Ends(e)
      {
        assert from[e] < from[i] && from[e] in from && MatchesAt(t, answers, inp, e, l[from[e]]);
      }
    }
  }

  lemma ChosenSame(t: Table, l: seq<MessageId>, answers: map<MessageId, Answers>, chainBaseFee: nat, inp: Input,
                   from: seq<nat>, k: nat)
    requires Matches(t, l, answers, chainBaseFee, inp, from) && k < |l|
    ensures PickedFrom(After(inp, |inp.cs|).selected, l[k]) <==>
            && Ready(answers[l[k]], chainBaseFee, inp.gasCap) && answers[l[k]].sign.SignedBy?
            && Reached(l, answers, chainBaseFee, inp.gasCap, k)
  {
    var r := After(inp, |inp.cs|);
    if PickedFrom(r.selected, l[k]) {
      var j :| 0 <= j < |r.selected| && r.selected[j].id == l[k];
      FilledSame(t, l, answers, chainBaseFee, inp, from, j);
      assert from[r.selected[j].index] == k && k in from;
      assert Chosen(r, r.selected[j].index);
    }
    if k in from {
      var i :| 0 <= i < |from| && from[i] == k;
      assert MatchesAt(t, answers, inp, i, l[from[i]]);
      SelectsExactly(inp, |inp.cs|, i);
      ReachedSame(t, l, answers, chainBaseFee, inp, from, i);
      if Chosen(r, i) {
        var j :| 0 <= j < |r.selected| && r.selected[j].index == i;
        FilledSame(t, l, answers, chainBaseFee, inp, from, j);
        assert r.selected[j].id == l[k];
      }
    }
  }

  lemma FilledSame(t: Table, l: seq<MessageId>, answers: map<MessageId, Answers>, chainBaseFee: nat, inp: Input,
                   from: seq<nat>, j: nat)
    requires Matches(t, l, answers, chainBaseFee, inp, from) && j < |After(inp, |inp.cs|).selected|
    ensures var ch := After(inp, |inp.cs|).selected[j];
            && ch.index < |from| && ch.id == l[from[ch.index]] && ch.id in l
            && FilledFrom(t, answers, ch.id, inp.base + j, ch.row)
  {
    Contiguous(inp, |inp.cs|);
    var ch := After(inp, |inp.cs|).selected[j];
    assert ChoiceOk(ch, j, inp);
    assert MatchesAt(t, answers, inp, ch.index, l[from[ch.index]]);
  }

  lemma SelectedSame(t: Table, l: seq<MessageId>, answers: map<MessageId, Answers>, chainBaseFee: nat, inp: Input,
                     from: seq<nat>)
    requires Matches(t, l, answers, chainBaseFee, inp, from)
    ensures SelectedOf(t, l, answers, chainBaseFee, inp.gasCap, inp.base, After(inp, |inp.cs|).selected)
  {
    var selected := After(inp, |inp.cs|).selected;
    Contiguous(inp, |inp.cs|);
    forall k | 0 <= k < |l|
      ensures PickedFrom(selected, l[k]) <==>
              && Ready(answers[l[k]], chainBaseFee, inp.gasCap) && answers[l[k]].sign.SignedBy?
              && Reached(l, answers, chainBaseFee, inp.gasCap, k)
    {
      ChosenSame(t, l, answers, chainBaseFee, inp, from, k);
    }
    forall j | 0 <= j < |selected|
      ensures selected[j].index < |from| && selected[j].id == l[from[selected[j].index]] && selected[j].id in l
      ensures FilledFrom(t, answers, selected[j].id, inp.base + j, selected[j].row)
    {
      FilledSame(t, l, answers, chainBaseFee, inp, from, j);
    }
  }

  lemma FaultsSame(t: Table, l: seq<MessageId>, answers: map<MessageId, Answers>, chainBaseFee: nat, inp: Input,
                   from: seq<nat>)
    requires Matches(t, l, answers, chainBaseFee, inp, from)
    ensures FaultsOf(l, answers, chainBaseFee, inp.gasCap, After(inp, |inp.cs|).errs)
  {
    forall e
      ensures e in After(inp, |inp.cs|).errs <==>
              exists k :: 0 <= k < |l| && l[k] == e.id && Fault(answers[l[k]], chainBaseFee, inp.gasCap) == Some(e.err)
                          && Reached(l, answers, chainBaseFee, inp.gasCap, k)
    {
      RecordsExactly(inp, |inp.cs|, e);
      if i: nat :| i < |inp.cs| && Rejects(inp, i, e) {
        RejectsSame(t, l, answers, chainBaseFee, inp, from, i, e);
        assert l[from[i]] == e.id;
      }
      if k :| 0 <= k < |l| && l[k] == e.id && Fault(answers[l[k]], chainBaseFee, inp.gasCap) == Some(e.err)
              && Reached(l, answers, chainBaseFee, inp.gasCap, k) {
        assert k in from;
        var i :| 0 <= i < |from| && from[i] == k;
        RejectsSame(t, l, answers, chainBaseFee, inp, from, i, e);
      }
    }
  }

  lemma RejectsSame(t: Table, l: seq<MessageId>, answers: map<MessageId, Answers>, chainBaseFee: nat, inp: Input,
                    from: seq<nat>, i: nat, e: ErrInfo)
    requires Matches(t, l, answers, chainBaseFee, inp, from) && i < |from|
    ensures from[i] < |l|
    ensures Rejects(inp, i, e) <==>
            && l[from[i]] == e.id && Fault(answers[l[from[i]]], chainBaseFee, inp.gasCap) == Some(e.err)
            && Reached(l, answers, chainBaseFee, inp.gasCap, from[i])
  {
    assert MatchesAt(t, answers, inp, i, l[from[i]]) && from[i] in from;
    ReachedSame(t, l, answers, chainBaseFee, inp, from, i);
  }

  /** Choices made from candidates that are the listed rows, with at most a fee cap filled in, may be stored. */
  lemma ChoicesOk(t: Table, addr: Address, l: seq<MessageId>, answers: map<MessageId, Answers>, chainBaseFee: nat,
                  inp: Input, from: seq<nat>)
    requires RowsOk(t) && Unfilled(t, addr, l) && Matches(t, l, answers, chainBaseFee, inp, from)
    ensures PicksOk(t, addr, inp.base, After(inp, |inp.cs|).selected)
  {
    var selected := After(inp, |inp.cs|).selected;
    Contiguous(inp, |inp.cs|);
    forall j | 0 <= j < |selected|
      ensures selected[j].index < |from| && selected[j].id == l[from[selected[j].index]] && selected[j].id in l
      ensures FilledFrom(t, answers, selected[j].id, inp.base + j, selected[j].row)
    {
      FilledSame(t, l, answers, chainBaseFee, inp, from, j);
    }
    forall i, j | 0 <= i < j < |selected|
      ensures selected[i].id != selected[j].id
    {
      assert selected[i].index < selected[j].index;
    }
  }

  lemma RoundOk(t: Table, addr: Address, l: seq<MessageId>, answers: map<MessageId, Answers>, chainBaseFee: nat,
                inp: Input, from: seq<nat>)
    requires RowsOk(t) && Unfilled(t, addr, l) && Matches(t, l, answers, chainBaseFee, inp, from)
    ensures var r := After(inp, |inp.cs|);
            && PicksOk(t, addr, inp.base, r.selected) && |r.selected| <= |inp.cs|
            && SelectedOf(t, l, answers, chainBaseFee, inp.gasCap, inp.base, r.selected)
            && FaultsOf(l, answers, chainBaseFee, inp.gasCap, r.errs)
  {
    ChoicesOk(t, addr, l, answers, chainBaseFee, inp, from);
    SelectedSame(t, l, answers, chainBaseFee, inp, from);
    FaultsSame(t, l, answers, chainBaseFee, inp, from);
    Contiguous(inp, |inp.cs|);
  }

  /** The candidates among the listed messages, each with its own answers. */
  method Candidates(t: Table, ids: seq<MessageId>, answers: map<MessageId, Answers>, base: nat, chainBaseFee: nat,
                    gasCap: nat)
    returns (inp: Input, ghost picks: seq<nat>)
    requires forall i :: i in ids ==> i in answers && i in t
    requires forall i, j :: 0 <= i < j < |ids| ==> ids[i] != ids[j]
    ensures Matches(t, ids, answers, chainBaseFee, inp, picks)
    ensures inp.base == base && inp.gasCap == gasCap && |inp.cs| <= |ids|
  {
    var listed := seq(|ids|, k requires 0 <= k < |ids| => Candidate(ids[k], t[ids[k]]));
    var feeCaps := seq(|ids|, k requires 0 <= k < |ids| => answers[ids[k]].feeCap);
    var baseFeeCaps := seq(|ids|, k requires 0 <= k < |ids| => answers[ids[k]].baseFeeCap);
    var cs, _, from := EstimateRequests(listed, feeCaps, baseFeeCaps, chainBaseFee);
    assert forall i :: 0 <= i < |cs| ==> cs[i].id == ids[from[i]] && cs[i].id in ids;
    var es := seq(|cs|, i requires 0 <= i < |cs| => answers[cs[i].id].estimate);
    var ss := seq(|cs|, i requires 0 <= i < |cs| => answers[cs[i].id].sign);
    inp, picks := Input(cs, es, ss, base, gasCap), from;
  }

  method RunRound(t: Table, addr: Address, ids: seq<MessageId>, answers: map<MessageId, Answers>,
                  base: nat, wantCount: nat, chainBaseFee: nat, gasCap: nat)
    returns (nonce: nat, selected: seq<Choice>, errs: seq<ErrInfo>)
    requires RowsOk(t) && Unfilled(t, addr, ids) && |ids| <= wantCount
    requires forall i :: i in ids ==> i in answers
    ensures PicksOk(t, addr, base, selected) && |selected| <= |ids| && nonce == base + |selected|
    ensures SelectedOf(t, ids, answers, chainBaseFee, gasCap, base, selected)
    ensures FaultsOf(ids, answers, chainBaseFee, gasCap, errs)
  {
    ghost var from;
    var inp;
    inp, from := Candidates(t, ids, answers, base, chainBaseFee, gasCap);
    nonce, selected, errs := AssignNonces(inp, wantCount);
    RoundOk(t, addr, ids, answers, chainBaseFee, inp, from);
  }
}
