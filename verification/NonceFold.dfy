/** Reading senders' next nonces off the messages of a tipset. */
module NonceFold {
  import opened Messages

  /** A sender's next nonce after the messages so far: the first one of the sender sets it, each later one
      that matches advances it. */
  function Applied(msgs: seq<Message>, a: Address): Option<nat> {
    if msgs == [] then None
    else
      var before, last := Applied(msgs[..|msgs| - 1], a), msgs[|msgs| - 1];
      if last.from != a then before
      else if before.None? then Some(last.nonce + 1)
      else if before.value == last.nonce then Some(last.nonce + 1)
      else before
  }

  method NoncesInTipset(msgs: seq<Message>) returns (applied: map<Address, nat>)
    ensures forall a :: a in applied <==> Applied(msgs, a).Some?
    ensures forall a :: a in applied ==> applied[a] == Applied(msgs, a).value
  {
    applied := map[];
    for k := 0 to |msgs|
      invariant forall a :: a in applied <==> Applied(msgs[..k], a).Some?
      invariant forall a :: a in applied ==> applied[a] == Applied(msgs[..k], a).value
    {
      var m := msgs[k];
      assert msgs[..k + 1][..k] == msgs[..k];
      if m.from !in applied {
        applied := applied[m.from := m.nonce];
      }
      var val := applied[m.from];
      if val == m.nonce {
        applied := applied[m.from := val + 1];
      }
    }
    assert msgs[..|msgs|] == msgs;
  }

  /** Increasing positions of the sender's messages, from its first one on, with consecutive nonces. */
  ghost predicate Chain(msgs: seq<Message>, a: Address, ps: seq<nat>) {
    && |ps| > 0
    && (forall i :: 0 <= i < |ps| ==> ps[i] < |msgs| && msgs[ps[i]].from == a)
    && (forall i, j :: 0 <= i < j < |ps| ==> ps[i] < ps[j])
    && (forall k :: 0 <= k < ps[0] ==> msgs[k].from != a)
    && (forall i :: 0 <= i < |ps| ==> msgs[ps[i]].nonce == msgs[ps[0]].nonce + i)
  }

  lemma ChainShrinks(msgs: seq<Message>, a: Address, ps: seq<nat>)
    requires Chain(msgs, a, ps)
    ensures ps[|ps| - 1] < |msgs| - 1 ==> Chain(msgs[..|msgs| - 1], a, ps)
    ensures ps[|ps| - 1] == |msgs| - 1 && |ps| > 1 ==> Chain(msgs[..|msgs| - 1], a, ps[..|ps| - 1])
  {
    forall i | 0 <= i < |ps| - 1
      ensures ps[i] < |msgs| - 1
    {
      assert ps[i] < ps[|ps| - 1];
    }
  }

  lemma {:induction false} NoneApplied(msgs: seq<Message>, a: Address)
    ensures Applied(msgs, a).None? <==> forall k :: 0 <= k < |msgs| ==> msgs[k].from != a
  {
    if msgs != [] {
      NoneApplied(msgs[..|msgs| - 1], a);
    }
  }

  /** The next nonce is the first nonce plus the length of a chain: every nonce from the first one up to it
      occurs, in order. */
  lemma {:induction false} AppliedChain(msgs: seq<Message>, a: Address) returns (ps: seq<nat>)
    requires Applied(msgs, a).Some?
    ensures Chain(msgs, a, ps) && Applied(msgs, a) == Some(msgs[ps[0]].nonce + |ps|)
  {
    var front, n := msgs[..|msgs| - 1], |msgs| - 1;
    var last := msgs[n];
    if Applied(front, a).None? {
      NoneApplied(front, a);
      ps := [n];
    } else {
      ps := AppliedChain(front, a);
      if last.from == a && Applied(front, a).value == last.nonce {
        ChainGrows(msgs, a, ps);
        ps := ps + [n];
      }
    }
  }

  lemma ChainGrows(msgs: seq<Message>, a: Address, ps: seq<nat>)
    requires msgs != [] && Chain(msgs[..|msgs| - 1], a, ps)
    requires msgs[|msgs| - 1].from == a && msgs[|msgs| - 1].nonce == msgs[ps[0]].nonce + |ps|
    ensures Chain(msgs, a, ps + [|msgs| - 1])
  {
  }

  /** No chain is longer: the fold finds the longest run of consecutive nonces from the sender's first
      message. */
  lemma {:induction false} AppliedLongest(msgs: seq<Message>, a: Address, ps: seq<nat>)
    requires Chain(msgs, a, ps)
    ensures Applied(msgs, a).Some? && Applied(msgs, a).value >= msgs[ps[0]].nonce + |ps|
  {
    var front, n := msgs[..|msgs| - 1], |msgs| - 1;
    ChainShrinks(msgs, a, ps);
    if ps[|ps| - 1] < n {
      AppliedLongest(front, a, ps);
    } else if |ps| > 1 {
      AppliedLongest(front, a, ps[..|ps| - 1]);
    } else {
      NoneApplied(front, a);
    }
  }

  /** The largest nonce among the sender's messages. */
  function Largest(msgs: seq<Message>, a: Address): (r: Option<nat>)
    ensures r.Some? ==> forall k :: 0 <= k < |msgs| && msgs[k].from == a ==> msgs[k].nonce <= r.value
    ensures r.Some? ==> exists k :: 0 <= k < |msgs| && msgs[k].from == a && msgs[k].nonce == r.value
    ensures r.None? ==> forall k :: 0 <= k < |msgs| ==> msgs[k].from != a
  {
    if msgs == [] then None
    else
      var before, last := Largest(msgs[..|msgs| - 1], a), msgs[|msgs| - 1];
      assert forall k :: 0 <= k < |msgs| - 1 ==> msgs[..|msgs| - 1][k] == msgs[k];
      if last.from != a then before
      else if before.None? || before.value < last.nonce then Some(last.nonce)
      else before
  }

  /** The sender's nonces never jump and never fall: each is a repeat of, or one above, the largest before it. */
  ghost predicate GapFree(msgs: seq<Message>, a: Address) {
    msgs == [] ||
    var before, last := Largest(msgs[..|msgs| - 1], a), msgs[|msgs| - 1];
    && GapFree(msgs[..|msgs| - 1], a)
    && (last.from == a && before.Some? ==> before.value <= last.nonce <= before.value + 1)
  }

  /** For gap-free messages the next nonce is one above the largest. */
  lemma {:induction false} AppliedIsLargestPlusOne(msgs: seq<Message>, a: Address)
    requires GapFree(msgs, a)
    ensures Applied(msgs, a).Some? <==> Largest(msgs, a).Some?
    ensures Applied(msgs, a).Some? ==> Applied(msgs, a).value == Largest(msgs, a).value + 1
  {
    if msgs != [] {
      AppliedIsLargestPlusOne(msgs[..|msgs| - 1], a);
    }
  }
}
