/** Replacing a message by fee: the minimum premium, the estimate, and the cap on the total fee. */
module Fees {
  import opened Messages

  const RBF_MINIMUM: nat := 110
  const RBF_DENOMINATOR: nat := 100

  function Max(a: nat, b: nat): nat { if a >= b then a else b }
  function Min(a: nat, b: nat): nat { if a <= b then a else b }

  /** The smallest premium a replacement may carry. */
  function ComputeRBF(premium: nat, ratio: nat): nat {
    premium * Max(ratio, RBF_MINIMUM) / RBF_DENOMINATOR + 1
  }

  /** A premium strictly above the required percentage of the old one. */
  predicate Outbids(premium: nat, prior: nat, ratio: nat) {
    premium * RBF_DENOMINATOR > prior * Max(ratio, RBF_MINIMUM)
  }

  lemma FloorBounds(m: nat, d: nat)
    requires d > 0
    ensures m / d * d <= m < (m / d + 1) * d
  {
    assert m == m / d * d + m % d;
    assert (m / d + 1) * d == m / d * d + d;
  }

  lemma FloorExact(m: nat, d: nat, x: nat)
    requires d > 0
    ensures x <= m / d <==> x * d <= m
  {
    FloorBounds(m, d);
    if x <= m / d {
      MulMonotone(x, m / d, d);
    } else {
      MulMonotone(m / d + 1, x, d);
    }
  }

  lemma MulMonotone(a: nat, b: nat, d: nat)
    requires a <= b
    ensures a * d <= b * d
  {
    assert b * d == a * d + (b - a) * d;
  }

  /** The computed minimum is the least premium that outbids the old one. */
  lemma RBFIsLeast(premium: nat, prior: nat, ratio: nat)
    ensures Outbids(premium, prior, ratio) <==> premium >= ComputeRBF(prior, ratio)
  {
    FloorExact(prior * Max(ratio, RBF_MINIMUM), RBF_DENOMINATOR, premium);
  }

  /** The fee cap is lowered so that cap times limit stays within the maximum (zero is no maximum); the
      premium never exceeds the cap. A capped value is the largest that fits, and the limit divided by is
      never zero. */
  method CapGasFee(msg: Message, maxFee: nat) returns (r: Message)
    ensures r == msg.(gasFeeCap := r.gasFeeCap, gasPremium := r.gasPremium)
    ensures maxFee == 0 ==> r == msg
    ensures maxFee > 0 ==> r.gasFeeCap * r.gasLimit <= maxFee && r.gasPremium == Min(r.gasFeeCap, msg.gasPremium)
    ensures maxFee > 0 && msg.gasFeeCap * msg.gasLimit <= maxFee ==> r.gasFeeCap == msg.gasFeeCap
    ensures maxFee > 0 && msg.gasFeeCap * msg.gasLimit > maxFee ==>
              r.gasFeeCap < msg.gasFeeCap && forall x: nat :: x * msg.gasLimit <= maxFee <==> x <= r.gasFeeCap
  {
    r := msg;
    if maxFee == 0 {
      return;
    }
    var totalFee := msg.gasFeeCap * msg.gasLimit;
    if totalFee <= maxFee {
      r := r.(gasPremium := Min(r.gasFeeCap, r.gasPremium));
      return;
    }
    assert msg.gasLimit > 0;
    r := r.(gasFeeCap := maxFee / msg.gasLimit);
    forall x: nat
      ensures x * msg.gasLimit <= maxFee <==> x <= r.gasFeeCap
    {
      FloorExact(maxFee, msg.gasLimit, x);
    }
    r := r.(gasPremium := Min(r.gasFeeCap, r.gasPremium));
  }

  /** Where a maximum fee may be set; zero is no maximum, and an actor may have no configuration. */
  datatype MaxFees = MaxFees(request: nat, addr: nat, actor: Option<nat>, shared: nat)

  /** `r` is the first non-zero entry of the list, or zero when there is none. */
  ghost predicate FirstSet(l: seq<nat>, r: nat) {
    || (r == 0 && forall k :: 0 <= k < |l| ==> l[k] == 0)
    || (r != 0 && exists k :: 0 <= k < |l| && l[k] == r && forall j :: 0 <= j < k ==> l[j] == 0)
  }

  /** The maximum fee in force is that of the strongest source that sets one: the request, then the address, then
      the actor's configuration, then the shared parameters. */
  function EffectiveMaxFee(fees: MaxFees): (r: nat)
    ensures FirstSet([fees.request, fees.addr, if fees.actor.Some? then fees.actor.value else 0, fees.shared], r)
  {
    var l := [fees.request, fees.addr, if fees.actor.Some? then fees.actor.value else 0, fees.shared];
    if fees.request != 0 then assert l[0] == fees.request; fees.request
    else
      var own := fees.addr;
      var maxFee := if own == 0 && fees.actor.Some? then fees.actor.value else own;
      assert l[1] == own && (own == 0 ==> l[2] == maxFee);
      if maxFee == 0 then assert l[3] == fees.shared; fees.shared else maxFee
  }

  /** The least premium above the required percentage of the old one: 110, or the node's ratio if that is more. */
  ghost predicate LeastBid(x: nat, prior: nat, ratio: nat) {
    && x * 100 > prior * (if ratio >= 110 then ratio else 110)
    && forall y: nat :: y * 100 > prior * (if ratio >= 110 then ratio else 110) ==> x <= y
  }

  /** The fees of a replacement. The premium is the larger of the estimate and the least bid, the fee cap the larger of
      the estimated cap and that premium; when that exceeds the maximum fee, the cap is the largest that fits and the
      premium is lowered to it if need be. */
  ghost predicate NewFees(prior: Message, r: Message, ratio: nat, estPremium: nat, estFeeCap: nat, maxFee: nat) {
    exists least ::
      && LeastBid(least, prior.gasPremium, ratio)
      && var premium := if estPremium >= least then estPremium else least;
         var cap := if estFeeCap >= premium then estFeeCap else premium;
         if maxFee == 0 || cap * prior.gasLimit <= maxFee then r.gasPremium == premium && r.gasFeeCap == cap
         else
           && (forall x: nat :: x * prior.gasLimit <= maxFee <==> x <= r.gasFeeCap)
           && r.gasPremium == if premium <= r.gasFeeCap then premium else r.gasFeeCap
  }

  lemma ComputedIsLeast(prior: nat, ratio: nat)
    ensures LeastBid(ComputeRBF(prior, ratio), prior, ratio)
  {
    var x := ComputeRBF(prior, ratio);
    RBFIsLeast(x, prior, ratio);
    forall y: nat | y * 100 > prior * (if ratio >= 110 then ratio else 110)
      ensures x <= y
    {
      RBFIsLeast(y, prior, ratio);
    }
  }

  /** Automatic replacement: only the fees change, to those of a replacement; in particular the premium stays within
      the cap and the total within the maximum, and the new premium outbids the old one exactly when the minimum bid
      itself fits under the maximum fee. */
  method AutoReplace(msg: Message, ratio: nat, estPremium: nat, estFeeCap: nat, maxFee: nat) returns (r: Message)
    ensures r == msg.(gasFeeCap := r.gasFeeCap, gasPremium := r.gasPremium)
    ensures NewFees(msg, r, ratio, estPremium, estFeeCap, maxFee)
    ensures r.gasPremium <= r.gasFeeCap
    ensures maxFee > 0 ==> r.gasFeeCap * r.gasLimit <= maxFee
    ensures Outbids(r.gasPremium, msg.gasPremium, ratio) <==>
            maxFee == 0 || ComputeRBF(msg.gasPremium, ratio) * msg.gasLimit <= maxFee
  {
    var minRBF := ComputeRBF(msg.gasPremium, ratio);
    var bid := msg.(gasPremium := Max(estPremium, minRBF));
    bid := bid.(gasFeeCap := Max(estFeeCap, bid.gasPremium));
    r := CapGasFee(bid, maxFee);
    RBFIsLeast(r.gasPremium, msg.gasPremium, ratio);
    MulMonotone(minRBF, bid.gasFeeCap, msg.gasLimit);
    ComputedIsLeast(msg.gasPremium, ratio);
  }
}
