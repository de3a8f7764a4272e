/** Tipsets as a tree, and the ancestor relation the chain follower walks.
    A tipset key is a content hash, so tipsets with equal keys are equal values. */
module Chain {
  import opened Messages

  /** A message executed by a tipset, with the receipt of that execution. */
  datatype Included = Included(signed: SignedMessage, receipt: Receipt)

  datatype Tipset =
    | Genesis
    | Child(parent: Tipset, epoch: nat, msgs: seq<Included>, salt: nat)
  {
    function Height(): nat {
      if Genesis? then 0 else epoch
    }

    function Msgs(): seq<Included> {
      if Genesis? then [] else msgs
    }
  }

  /** Heights strictly increase from parent to child (null rounds may leave gaps). */
  ghost predicate WellFormed(t: Tipset) {
    t.Child? ==> t.epoch > t.parent.Height() && WellFormed(t.parent)
  }

  /** `a` is `t` or one of its ancestors. */
  ghost predicate OnBranch(a: Tipset, t: Tipset) {
    a == t || (t.Child? && OnBranch(a, t.parent))
  }

  ghost function Depth(t: Tipset): nat {
    if t.Genesis? then 0 else 1 + Depth(t.parent)
  }

  /** The ancestor `k` steps above `t`. */
  ghost function Up(t: Tipset, k: nat): Tipset
    requires k <= Depth(t)
  {
    if k == 0 then t else Up(t.parent, k - 1)
  }

  lemma {:induction false} UpStep(t: Tipset, k: nat)
    requires k < Depth(t)
    ensures Up(t, k).Child? && Up(t, k + 1) == Up(t, k).parent
  {
    if k > 0 {
      UpStep(t.parent, k - 1);
    }
  }

  lemma {:induction false} UpDepth(t: Tipset, k: nat)
    requires k <= Depth(t)
    ensures Depth(Up(t, k)) == Depth(t) - k
  {
    if k > 0 {
      UpDepth(t.parent, k - 1);
    }
  }

  lemma {:induction false} UpOnBranch(t: Tipset, k: nat)
    requires k <= Depth(t)
    ensures OnBranch(Up(t, k), t)
  {
    if k > 0 {
      UpOnBranch(t.parent, k - 1);
    }
  }

  lemma {:induction false} WellFormedUp(t: Tipset, k: nat)
    requires WellFormed(t) && k <= Depth(t)
    ensures WellFormed(Up(t, k))
    ensures Up(t, k).Height() + k <= t.Height()
  {
    if k > 0 {
      WellFormedUp(t.parent, k - 1);
    }
  }

  /** Every ancestor is reached by some number of parent steps. */
  lemma {:induction false} BranchIndex(a: Tipset, t: Tipset) returns (k: nat)
    requires OnBranch(a, t)
    ensures k <= Depth(t) && Up(t, k) == a
  {
    if a == t {
      k := 0;
    } else {
      var j := BranchIndex(a, t.parent);
      k := j + 1;
    }
  }

  lemma {:induction false} BranchTransitive(a: Tipset, b: Tipset, c: Tipset)
    requires OnBranch(a, b) && OnBranch(b, c)
    ensures OnBranch(a, c)
  {
    if b != c {
      BranchTransitive(a, b, c.parent);
    }
  }

  lemma {:induction false} BranchHeight(a: Tipset, t: Tipset)
    requires OnBranch(a, t) && WellFormed(t)
    ensures WellFormed(a)
    ensures a.Height() <= t.Height()
    ensures a != t ==> a.Height() < t.Height()
  {
    if a != t {
      BranchHeight(a, t.parent);
    }
  }

  /** Of two ancestors of one tipset the lower is an ancestor of the higher;
      in particular a branch has at most one tipset per height. */
  lemma {:induction false} BranchLinear(a: Tipset, b: Tipset, t: Tipset)
    requires OnBranch(a, t) && OnBranch(b, t) && WellFormed(t)
    requires a.Height() <= b.Height()
    ensures OnBranch(a, b)
    ensures a.Height() == b.Height() ==> a == b
  {
    if b == t {
      BranchHeight(a, t);
    } else if a == t {
      BranchHeight(b, t);
      assert false;
    } else {
      BranchLinear(a, b, t.parent);
    }
  }

  /** A branch has no message of one sender and nonce included twice. */
  ghost predicate NoRepeat(t: Tipset) {
    forall a, b, x, y ::
      OnBranch(a, t) && OnBranch(b, t) && x in a.Msgs() && y in b.Msgs() && SameSlot(x, y)
      ==> a == b && x == y
  }

  predicate SameSlot(x: Included, y: Included) {
    x.signed.msg.from == y.signed.msg.from && x.signed.msg.nonce == y.signed.msg.nonce
  }

  predicate InSlot(x: Included, from: Address, nonce: nat) {
    x.signed.msg.from == from && x.signed.msg.nonce == nonce
  }

  lemma {:induction false} NoRepeatDown(a: Tipset, t: Tipset)
    requires NoRepeat(t) && OnBranch(a, t)
    ensures NoRepeat(a)
  {
    forall p, q, x, y | OnBranch(p, a) && OnBranch(q, a) && x in p.Msgs() && y in q.Msgs() && SameSlot(x, y)
      ensures p == q && x == y
    {
      BranchTransitive(p, a, t);
      BranchTransitive(q, a, t);
    }
  }

  /** Where a branch spends a sender's nonce: the tipset and the message it includes there. */
  datatype Hit = Hit(tipset: Tipset, included: Included)

  ghost function FindIn(ms: seq<Included>, from: Address, nonce: nat): (r: Option<Included>)
    ensures r.Some? ==> r.value in ms && InSlot(r.value, from, nonce)
    ensures r.None? ==> forall x :: x in ms ==> !InSlot(x, from, nonce)
  {
    if ms == [] then None
    else if InSlot(ms[0], from, nonce) then Some(ms[0])
    else FindIn(ms[1..], from, nonce)
  }

  ghost function Find(t: Tipset, from: Address, nonce: nat): Option<Hit> {
    var here := FindIn(t.Msgs(), from, nonce);
    if here.Some? then Some(Hit(t, here.value))
    else if t.Child? then Find(t.parent, from, nonce)
    else None
  }

  ghost predicate IsHit(h: Hit, t: Tipset, from: Address, nonce: nat) {
    OnBranch(h.tipset, t) && h.included in h.tipset.Msgs() && InSlot(h.included, from, nonce)
  }

  lemma {:induction false} FindSound(t: Tipset, from: Address, nonce: nat)
    ensures Find(t, from, nonce).Some? ==> IsHit(Find(t, from, nonce).value, t, from, nonce)
  {
    if FindIn(t.Msgs(), from, nonce).None? && t.Child? {
      FindSound(t.parent, from, nonce);
    }
  }

  lemma {:induction false} FindComplete(h: Hit, t: Tipset, from: Address, nonce: nat)
    requires IsHit(h, t, from, nonce)
    ensures Find(t, from, nonce).Some?
  {
    if h.tipset != t {
      FindComplete(h, t.parent, from, nonce);
    }
  }

  /** On a branch without repeats `Find` is the only hit. */
  lemma FindUnique(h: Hit, t: Tipset, from: Address, nonce: nat)
    requires NoRepeat(t)
    ensures IsHit(h, t, from, nonce) <==> Find(t, from, nonce) == Some(h)
  {
    FindSound(t, from, nonce);
    if IsHit(h, t, from, nonce) {
      FindComplete(h, t, from, nonce);
      var f := Find(t, from, nonce).value;
      assert SameSlot(h.included, f.included);
    }
  }

  lemma NoRepeatEmpty(t: Tipset)
    requires t.Child? && t.msgs == [] && NoRepeat(t.parent)
    ensures NoRepeat(t)
  {
  }
}
