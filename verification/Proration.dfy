/** How far rounded commission shares can drift from the commission they add back to. */
module Proration {
  import opened Common
  import opened Sums
  import opened Refunds

  /** A share is never negative and never above its refund. */
  lemma {:induction false} ShareWithin(amount: nat, commission: nat, total: nat)
    requires commission <= total
    ensures 0 <= Share(amount, commission, total) <= amount
    ensures amount == total ==> Share(amount, commission, total) == commission
  {
    if total > 0 {
      assert amount * commission <= amount * total;
      RoundDivAtMost(amount * commission, total, amount);
      if amount == total {
        RoundDivExact(commission, total);
        assert total * commission == commission * total;
      }
    } else {
      RoundDivAtMost(amount, 10, amount);
    }
  }

  /** Shares and amounts of the rows of a table that count, compared over the common denominator 2 * total. */
  lemma {:induction false} DriftBound<X>(rows: seq<X>, amount: X -> int, share: X -> int, count: X -> int,
      commission: nat, total: nat)
    requires forall i :: 0 <= i < |rows| ==>
               -(total * count(rows[i])) <= 2 * (share(rows[i]) * total) - 2 * (amount(rows[i]) * commission)
                   <= total * count(rows[i])
    ensures -(total * Sum(rows, count)) <= 2 * (Sum(rows, share) * total) - 2 * (Sum(rows, amount) * commission)
              <= total * Sum(rows, count)
  {
    if |rows| == 0 {
    } else {
      var n := |rows| - 1;
      DriftBound(rows[..n], amount, share, count, commission, total);
      var x := rows[n];
      Distribute(Sum(rows[..n], share), share(x), total);
      Distribute(Sum(rows[..n], amount), amount(x), commission);
      Distribute(Sum(rows[..n], count), count(x), total);
    }
  }

  lemma {:induction false} Distribute(a: int, b: int, c: int)
    ensures (a + b) * c == a * c + b * c
    ensures c * (a + b) == c * a + c * b
  {
  }

  /** One refund's share is within half a cent of its exact part. */
  lemma {:induction false} ShareDrift(amount: nat, commission: nat, total: nat)
    requires total > 0
    ensures 2 * (amount * commission) - total <= 2 * (Share(amount, commission, total) * total)
              <= 2 * (amount * commission) + total
  {
    var n: nat := amount * commission;
    var q := RoundDiv(n, total);
    RoundDivError(n, total);
    assert Share(amount, commission, total) == q;
    assert 2 * (q * total) <= 2 * n + total;
  }

  /** Scaled bounds over `total` come back to plain cents. */
  lemma {:induction false} Unscale(d: int, k: int, total: nat)
    requires total > 0 && -(total * k) <= 2 * (d * total) <= total * k
    ensures -k <= 2 * d <= k
  {
    assert (2 * d) * total == 2 * (d * total);
    assert k * total == total * k;
    assert (-k) * total == -(total * k);
    MultiplesApart(2 * d, k, total);
    MultiplesApart(-k, 2 * d, total);
  }

  function Cents(): nat -> int {
    (a: nat) => a
  }

  function ShareOf(commission: nat, total: nat): nat -> int {
    (a: nat) => Share(a, commission, total)
  }

  function One<X>(): X -> int {
    (x: X) => 1
  }

  /** k refunds that add up to the order's total reverse its commission up to k / 2 cents. */
  lemma {:induction false} ProrationBound(amounts: seq<nat>, commission: nat, total: nat)
    requires total > 0 && Sum(amounts, Cents()) == total
    ensures -|amounts| <= 2 * (Sum(amounts, ShareOf(commission, total)) - commission) <= |amounts|
  {
    forall i | 0 <= i < |amounts|
      ensures var a := amounts[i];
              -(total * One<nat>()(a)) <= 2 * (ShareOf(commission, total)(a) * total) - 2 * (Cents()(a) * commission)
                  <= total * One<nat>()(a)
    {
      ShareDrift(amounts[i], commission, total);
    }
    DriftBound(amounts, Cents(), ShareOf(commission, total), One<nat>(), commission, total);
    SumOnes(amounts);
    DriftInCents(Sum(amounts, ShareOf(commission, total)), |amounts|, commission, total);
  }

  lemma {:induction false} DriftInCents(shares: int, k: int, commission: nat, total: nat)
    requires total > 0
    requires -(total * k) <= 2 * (shares * total) - 2 * (total * commission) <= total * k
    ensures -k <= 2 * (shares - commission) <= k
  {
    assert (shares - commission) * total == shares * total - total * commission;
    Unscale(shares - commission, k, total);
  }

  lemma {:induction false} SumOnes<X>(xs: seq<X>)
    ensures Sum(xs, One<X>()) == |xs|
  {
    if |xs| == 0 {
    } else {
      SumOnes(xs[..|xs| - 1]);
    }
  }

  /**
   * The bound is attained for every even number of refunds: an order of 2c cents with commission c, refunded
   * cent by cent.
   */
  lemma {:induction false} ProrationBoundAttained(c: nat)
    requires c > 0
    ensures var amounts: seq<nat> := seq(2 * c, _ => 1);
            Sum(amounts, Cents()) == 2 * c && 2 * (Sum(amounts, ShareOf(c, 2 * c)) - c) == |amounts|
  {
    var amounts: seq<nat> := seq(2 * c, _ => 1);
    assert Share(1, c, 2 * c) == 1 by {
      assert (2 * c + 2 * c) / (2 * (2 * c)) == 1;
    }
    SumOnes(amounts);
    SumSame(amounts, Cents(), amounts, One<nat>());
    SumSame(amounts, ShareOf(c, 2 * c), amounts, One<nat>());
  }
}
