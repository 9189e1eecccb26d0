/** The energy an account can buy under a fixed fee ratio, in Java's 64-bit arithmetic. */
module EnergyPlan {
  import opened Outcomes

  const TWO_63: int := 0x8000_0000_0000_0000

  predicate Long(x: int) { -TWO_63 <= x < TWO_63 }

  /** Java's wrap-around of a sum or difference of two longs. */
  function Wrapped(x: int): int
  {
    if x >= TWO_63 then x - 2 * TWO_63 else if x < -TWO_63 then x + 2 * TWO_63 else x
  }

  /** Java's integer division, towards zero. */
  function Quotient(a: int, b: int): int
    requires b > 0
  {
    if a >= 0 then a / b else -(-a / b)
  }

  function Min(a: int, b: int): int { if a < b then a else b }

  function Max(a: int, b: int): int { if a < b then b else a }

  datatype Plan = Plan(total: int, paid: int)

  function Price(dynamicEnergyFee: int): int { if dynamicEnergyFee > 0 then dynamicEnergyFee else 100 }

  /** None stands for the exception of `Math.addExact`. */
  function FixedRatioPlan(balance: int, callValue: int, leftFrozen: int, feeLimit: int, dynamicEnergyFee: int): Option<Plan>
  {
    var price := Price(dynamicEnergyFee);
    var affordablePaid := Quotient(Max(Wrapped(balance - callValue), 0), price);
    if !Long(leftFrozen + affordablePaid) then None
    else
      var total := Min(leftFrozen + affordablePaid, Quotient(feeLimit, price));
      Some(Plan(total, total - Min(leftFrozen, total)))
  }

  /** What the sender can still spend. */
  function Spendable(balance: int, callValue: int): int { Max(balance - callValue, 0) }

  /** What the code takes for it, the difference of two longs wrapping around. */
  function Reckoned(balance: int, callValue: int): int { Max(Wrapped(balance - callValue), 0) }

  /** The two agree exactly while the difference fits a long. */
  lemma {:induction false} ReckonedIsSpendableIff(balance: int, callValue: int)
    requires Long(balance) && Long(callValue)
    ensures Reckoned(balance, callValue) == Spendable(balance, callValue) <==> Long(balance - callValue)
  {
  }

  /** This much energy is within the fee limit, and what frozen energy does not cover is within the funds. */
  ghost predicate Affordable(total: int, funds: int, leftFrozen: int, feeLimit: int, price: int)
  {
    && total >= 0
    && total * price <= feeLimit
    && Max(total - leftFrozen, 0) * price <= funds
  }

  lemma {:induction false} Scaled(a: int, b: int, c: int)
    requires a <= b && c >= 0
    ensures a * c <= b * c
  {
    assert b * c == a * c + (b - a) * c;
  }

  lemma {:induction false} QuotientBrackets(a: int, b: int)
    requires b > 0 && a >= 0
    ensures Quotient(a, b) * b <= a < (Quotient(a, b) + 1) * b && Quotient(a, b) >= 0
  {
  }

  lemma {:induction false} QuotientBound(t: int, a: int, b: int)
    requires b > 0 && a >= 0
    ensures t * b <= a <==> t <= Quotient(a, b)
    ensures Quotient(a, b) >= 0
  {
    hide Quotient;
    var q := Quotient(a, b);
    QuotientBrackets(a, b);
    if t <= q { Scaled(t, q, b); } else { Scaled(q + 1, t, b); }
  }

  lemma {:induction false} QuotientMonotone(a: int, b: int, c: int)
    requires a <= b && c > 0
    ensures Quotient(a, c) <= Quotient(b, c)
    ensures a < 0 ==> Quotient(a, c) <= 0
  {
    hide Quotient;
    if a >= 0 {
      QuotientBrackets(a, c);
      QuotientBound(Quotient(a, c), b, c);
    } else {
      NegativeQuotient(a, c);
      if b < 0 {
        NegativeQuotient(b, c);
        QuotientBrackets(-b, c);
        QuotientBound(Quotient(-b, c), -a, c);
      } else {
        QuotientBound(0, b, c);
      }
    }
  }

  lemma {:induction false} NegativeQuotient(a: int, c: int)
    requires a < 0 && c > 0
    ensures Quotient(a, c) == -Quotient(-a, c) && Quotient(-a, c) >= 0
  {
    QuotientBrackets(-a, c);
  }

  /**
    The amounts affordable with the reckoned funds are exactly those up to the planned total, for any
    frozen energy, negative too, if and only if the fee limit does not lie strictly between minus the
    price and zero, or frozen energy is so far below zero that the funds do not make up for it: such a
    limit is cut to zero, and zero energy is planned against it. What is paid is always the part that
    frozen energy leaves.
   */
  lemma {:induction false} PlanIsGreatest(balance: int, callValue: int, leftFrozen: int, feeLimit: int, dynamicEnergyFee: int)
    requires FixedRatioPlan(balance, callValue, leftFrozen, feeLimit, dynamicEnergyFee).Some?
    ensures var price, funds := Price(dynamicEnergyFee), Reckoned(balance, callValue);
            var plan := FixedRatioPlan(balance, callValue, leftFrozen, feeLimit, dynamicEnergyFee).value;
            && plan.paid == Max(plan.total - leftFrozen, 0)
            && ((forall t: int :: Affordable(t, funds, leftFrozen, feeLimit, price) <==> 0 <= t <= plan.total)
                <==> feeLimit >= 0 || feeLimit <= -price || leftFrozen + Quotient(funds, price) < 0)
  {
    hide Quotient, Wrapped;
    var price, funds := Price(dynamicEnergyFee), Reckoned(balance, callValue);
    var plan := FixedRatioPlan(balance, callValue, leftFrozen, feeLimit, dynamicEnergyFee).value;
    if feeLimit >= 0 {
      forall t: int
        ensures Affordable(t, funds, leftFrozen, feeLimit, price) <==> 0 <= t <= plan.total
      {
        QuotientBound(t, feeLimit, price);
        QuotientBound(Max(t - leftFrozen, 0), funds, price);
      }
    } else {
      NothingUnderNegativeLimit(funds, leftFrozen, feeLimit, price);
      assert plan.total >= 0 ==> !(Affordable(0, funds, leftFrozen, feeLimit, price) <==> 0 <= 0 <= plan.total);
      QuotientBound(1, -feeLimit, price);
      NegativeQuotient(feeLimit, price);
    }
  }

  lemma {:induction false} NothingUnderNegativeLimit(funds: int, leftFrozen: int, feeLimit: int, price: int)
    requires feeLimit < 0 && price > 0
    ensures forall t: int :: !Affordable(t, funds, leftFrozen, feeLimit, price)
  {
    forall t: int ensures !Affordable(t, funds, leftFrozen, feeLimit, price) {
      if t >= 0 { Scaled(0, t, price); }
    }
  }

  /** A limit of minus one is cut to zero energy, which is not affordable under it. */
  lemma {:induction false} NegativeLimitPlansZero()
    ensures FixedRatioPlan(0, 0, 0, -1, 100) == Some(Plan(0, 0)) && !Affordable(0, Reckoned(0, 0), 0, -1, 100)
  {
    assert Quotient(0, 100) == 0 && Quotient(-1, 100) == 0;
  }

  /** The least balance and a call value of one wrap around to the most funds there can be. */
  lemma {:induction false} WrappedFunds()
    ensures Reckoned(-TWO_63, 1) == TWO_63 - 1 && Spendable(-TWO_63, 1) == 0
  {
  }

  /** More funds, more frozen energy or a higher limit never buys less, whatever the signs. */
  lemma {:induction false} PlanIsMonotone(balance: int, callValue: int, leftFrozen: int, feeLimit: int, dynamicEnergyFee: int,
                                          balance': int, leftFrozen': int, feeLimit': int)
    requires Reckoned(balance, callValue) <= Reckoned(balance', callValue)
    requires leftFrozen <= leftFrozen' && feeLimit <= feeLimit'
    requires FixedRatioPlan(balance, callValue, leftFrozen, feeLimit, dynamicEnergyFee).Some?
    requires FixedRatioPlan(balance', callValue, leftFrozen', feeLimit', dynamicEnergyFee).Some?
    ensures FixedRatioPlan(balance, callValue, leftFrozen, feeLimit, dynamicEnergyFee).value.total
         <= FixedRatioPlan(balance', callValue, leftFrozen', feeLimit', dynamicEnergyFee).value.total
  {
    hide Quotient, Wrapped;
    var price := Price(dynamicEnergyFee);
    QuotientMonotone(Reckoned(balance, callValue), Reckoned(balance', callValue), price);
    QuotientMonotone(feeLimit, feeLimit', price);
  }

  /** A larger balance reckons as more funds until the difference passes the range of a long, and then as none. */
  lemma {:induction false} ReckonedIsMonotoneIff(balance: int, balance': int, callValue: int)
    requires Long(balance) && Long(balance') && Long(callValue) && balance <= balance' && Long(balance - callValue)
    ensures Reckoned(balance, callValue) <= Reckoned(balance', callValue) <==>
            Long(balance' - callValue) || Spendable(balance, callValue) == 0
  {
  }

  /** The plan fails exactly when frozen and bought energy together pass the range of a long. */
  lemma {:induction false} PlanFailsIff(balance: int, callValue: int, leftFrozen: int, feeLimit: int, dynamicEnergyFee: int)
    requires Long(leftFrozen)
    ensures FixedRatioPlan(balance, callValue, leftFrozen, feeLimit, dynamicEnergyFee).None? <==>
            (TWO_63 - leftFrozen) * Price(dynamicEnergyFee) <= Reckoned(balance, callValue)
  {
    hide Quotient, Wrapped;
    QuotientBound(TWO_63 - leftFrozen, Reckoned(balance, callValue), Price(dynamicEnergyFee));
  }
}
