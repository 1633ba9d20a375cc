// internal/engine/strategy_engine.go: what the profit estimate of a pair says about exact rational arithmetic.
module Profit {
  import opened Models
  import opened RayMath
  import opened Liquidation

  /** Profitable without any rounding: 99.5% of the exact value received exceeds 100.05% of the exact value
      repaid. */
  predicate Pays(t: Pair)
    requires t.Computable()
  {
    t.Covered() * t.debtPrice * 10005 * t.ColUnit() < t.Received() * t.colPrice * 9950 * t.DebtUnit()
  }

  /** An admissible pair with a positive estimate that is wrong. */
  predicate Misleading(t: Pair) {
    t.Sound() && !t.LeavesDust() && t.NetProfit() > 0 && !Pays(t)
  }

  // ---------- The debt side alone ----------

  /** costUSD of c tokens at price p with unit u. */
  function Cost(c: int, p: int, u: int): int
    requires u > 0
  {
    c * 10005 / 10000 * p / u
  }

  /** The greatest USD value whose exact 99.5% does not exceed the exact cost of c tokens. */
  function BreakEven(c: int, p: int, u: int): int
    requires u > 0
  {
    c * p * 2001 / (1990 * u)
  }

  /** Collateral of the break-even value would be estimated as a profit. */
  predicate Deceives(c: int, p: int, u: int)
    requires u > 0
  {
    BreakEven(c, p, u) * 9950 / 10000 - Cost(c, p, u) - GAS_COST_USD > 0
  }

  lemma Deceived(c: int, p: int, u: int)
    requires u > 0
    ensures Deceives(c, p, u) <==> 10000 * (Cost(c, p, u) + GAS_COST_USD + 1) <= BreakEven(c, p, u) * 9950
  {
    DivLt(BreakEven(c, p, u) * 9950, 10000, Cost(c, p, u) + GAS_COST_USD + 1);
  }

  lemma CancelUnits(m: int, cu: int, u: int, value: int, cost: int)
    requires cu > 0 && cu * m <= value && u > 0
    requires value * 9950 * u <= cost * 10005 * cu
    ensures m * (1990 * u) <= cost * 2001
  {
    MulLe(9950 * u, cu * m, value);
    assert (9950 * u) * (cu * m) == cu * (5 * (m * (1990 * u)));
    assert (9950 * u) * value == value * 9950 * u;
    assert cost * 10005 * cu == cu * (5 * (cost * 2001));
    MulCancelLe(cu, 5 * (m * (1990 * u)), 5 * (cost * 2001));
  }

  lemma AtMostBreakEven(m: int, c: int, p: int, u: int)
    requires u > 0 && m * (1990 * u) <= c * p * 2001
    ensures m <= BreakEven(c, p, u)
  {
    DivLt(c * p * 2001, 1990 * u, m);
    assert m * (1990 * u) == (1990 * u) * m;
  }

  /** A pair whose estimate is positive and wrong covers an amount of debt that deceives. */
  lemma WrongEstimateDeceives(t: Pair)
    requires t.Computable() && t.NetProfit() > 0 && !Pays(t)
    ensures Deceives(t.Covered(), t.debtPrice, t.DebtUnit())
  {
    var c, p, u, cu := t.Covered(), t.debtPrice, t.DebtUnit(), t.ColUnit();
    var value := t.Received() * t.colPrice;
    var m := value / cu;
    DivBracket(value, cu);
    assert c * p * 10005 * cu == (c * p) * 10005 * cu;
    CancelUnits(m, cu, u, value, c * p);
    AtMostBreakEven(m, c, p, u);
    DivMono(m * 9950, BreakEven(c, p, u) * 9950, 10000);
  }

  /** A pair that covers exactly c and receives 100 tokens worth m together. */
  function HundredFor(c: int, p: int, d: nat, m: int): Pair {
    Pair(c, p, d, c, 100, m, 2, 10102, 0)
  }

  /** The estimated cost is at least the price of the amount without the fee, less one. */
  lemma CostAtLeast(c: int, p: int, u: int)
    requires c >= 0 && p > 0 && u > 0
    ensures 0 <= c * p < u * (Cost(c, p, u) + 1) && Cost(c, p, u) >= 0
  {
    var amount := c * 10005 / 10000;
    DivBracket(c * 10005, 10000);
    DivBracket(amount * p, u);
    MulLe(p, c, amount);
    MulLe(p, 0, c);
    DivNonNeg(amount * p, u);
  }

  lemma Percentages(value: int, worth: int)
    requires 0 <= value < worth && 1990 * worth <= 2001 * value
    ensures 99 * worth <= 100 * value < 100 * worth
  {}

  /** An amount that deceives costs a little less than its break-even value. */
  lemma BreakEvenCovers(c: int, p: int, u: int)
    requires c >= 0 && p > 0 && u > 0 && Deceives(c, p, u)
    ensures var m := BreakEven(c, p, u);
            && m > 0 && 99 * (m * u) <= 100 * (c * p) < 100 * (m * u)
            && 1990 * (m * u) <= 2001 * (c * p)
  {
    var m, cost := BreakEven(c, p, u), Cost(c, p, u);
    Deceived(c, p, u);
    CostAtLeast(c, p, u);
    assert cost + 1 <= m;
    MulLe(u, cost + 1, m);
    assert u * m == m * u;
    DivBracket(c * p * 2001, 1990 * u);
    assert (1990 * u) * m == 1990 * (m * u);
    Percentages(c * p, m * u);
  }

  /** Such a pair seizes all hundred tokens without fee, and clears the debt. */
  lemma HundredSeized(c: int, p: int, d: nat, m: int)
    requires c >= 0 && p > 0 && m > 0
    requires 99 * (m * Pow(10, d)) <= 100 * (c * p) < 100 * (m * Pow(10, d))
    ensures var t := HundredFor(c, p, d, m);
            && t.Sound() && !t.LeavesDust() && t.ColUnit() == 100
            && t.Covered() == c && t.Received() == 100
  {
    var t := HundredFor(c, p, d, m);
    assert t.ColUnit() == 100 by { assert Pow(10, 2) == 10 * Pow(10, 1) && Pow(10, 1) == 10 * Pow(10, 0); }
    ProductsPositive(m, t.DebtUnit());
    assert p * c * 100 == 100 * (c * p);
    DivIs(p * c * 100, m * t.DebtUnit(), 99);
    assert t.BaseCollateral() == 99;
    assert t.MaxCollateral() == 100;
  }

  lemma HundredEstimate(t: Pair, c: int, m: int)
    requires t.Computable() && t.ColUnit() == 100 && t.colPrice == m && t.Covered() == c && t.Received() == 100
    ensures t.NetProfit() == m * 9950 / 10000 - Cost(c, t.debtPrice, t.DebtUnit()) - GAS_COST_USD
  {
    DivIs(100 * m, 100, m);
  }

  lemma HundredLoses(t: Pair, c: int, m: int)
    requires t.Computable() && t.ColUnit() == 100 && t.colPrice == m && t.Covered() == c && t.Received() == 100
    requires 1990 * (m * t.DebtUnit()) <= 2001 * (c * t.debtPrice)
    ensures !Pays(t)
  {
    var cost, worth := c * t.debtPrice, m * t.DebtUnit();
    assert t.Covered() * t.debtPrice * 10005 * t.ColUnit() == 500 * (2001 * cost);
    assert t.Received() * t.colPrice * 9950 * t.DebtUnit() == 500 * (1990 * worth);
  }

  lemma HundredMisleads(c: int, p: int, d: nat, m: int)
    requires c >= 0 && p > 0 && m > 0
    requires 99 * (m * Pow(10, d)) <= 100 * (c * p) < 100 * (m * Pow(10, d))
    requires 1990 * (m * Pow(10, d)) <= 2001 * (c * p)
    requires m * 9950 / 10000 - Cost(c, p, Pow(10, d)) - GAS_COST_USD > 0
    ensures Misleading(HundredFor(c, p, d, m))
  {
    HundredSeized(c, p, d, m);
    HundredEstimate(HundredFor(c, p, d, m), c, m);
    HundredLoses(HundredFor(c, p, d, m), c, m);
  }

  /** The pair of a deceiving amount misleads, and clears the debt. */
  lemma DeceivingPair(c: int, p: int, d: nat)
    requires c >= 0 && p > 0 && Deceives(c, p, Pow(10, d))
    ensures Misleading(HundredFor(c, p, d, BreakEven(c, p, Pow(10, d))))
  {
    BreakEvenCovers(c, p, Pow(10, d));
    HundredMisleads(c, p, d, BreakEven(c, p, Pow(10, d)));
  }

  // ---------- Exactly which prices can be trusted ----------

  /** At price p and with d decimals no admissible pair has a positive estimate that is wrong. */
  ghost predicate Trustworthy(p: int, d: nat) {
    forall t: Pair :: t.debtPrice == p && t.debtDecimals == d ==> !Misleading(t)
  }

  const PERIOD: int := 3_980_000

  lemma DivAdd(x: int, d: int, q: int)
    requires d > 0
    ensures (x + d * q) / d == x / d + q
  {
    DivBracket(x, d);
    assert d * (x / d + q) == d * (x / d) + d * q;
    DivIs(x + d * q, d, x / d + q);
  }

  /** One period more covered costs 3981990 * p more per k, */
  lemma CostOfPeriods(c: int, p: int, u: int, k: int)
    requires u > 0
    ensures Cost(c + PERIOD * (u * k), p, u) == Cost(c, p, u) + 3_981_990 * (k * p)
  {
    var uk := u * k;
    var amount := c * 10005 / 10000;
    assert (c + PERIOD * uk) * 10005 == c * 10005 + 10000 * (3_981_990 * uk);
    DivAdd(c * 10005, 10000, 3_981_990 * uk);
    assert (amount + 3_981_990 * uk) * p == amount * p + u * (3_981_990 * (k * p));
    DivAdd(amount * p, u, 3_981_990 * (k * p));
  }

  /** and so does the estimated revenue at the break-even value. */
  lemma BreakEvenOfPeriods(c: int, p: int, u: int, k: int)
    requires u > 0
    ensures BreakEven(c + PERIOD * (u * k), p, u) == BreakEven(c, p, u) + 4_002_000 * (k * p)
  {
    assert (c + PERIOD * (u * k)) * p * 2001 == c * p * 2001 + (1990 * u) * (4_002_000 * (k * p)) by {
      assert (c + PERIOD * (u * k)) * p == c * p + PERIOD * (u * (k * p));
    }
    DivAdd(c * p * 2001, 1990 * u, 4_002_000 * (k * p));
  }

  /** Whether an amount deceives depends only on its remainder modulo 3980000 whole tokens. */
  lemma DeceptionIsPeriodic(c: int, p: int, u: int, k: int)
    requires u > 0
    ensures Deceives(c + PERIOD * (u * k), p, u) <==> Deceives(c, p, u)
  {
    CostOfPeriods(c, p, u, k);
    BreakEvenOfPeriods(c, p, u, k);
    DivAdd(BreakEven(c, p, u) * 9950, 10000, 3_981_990 * (k * p));
  }

  /** No amount of less than 3980000 whole tokens deceives. */
  ghost predicate NoAmountDeceives(p: int, u: int)
    requires u > 0
  {
    forall c :: 0 <= c < PERIOD * u ==> !Deceives(c, p, u)
  }

  lemma NoAmountAtAll(c: int, p: int, u: int)
    requires u > 0 && NoAmountDeceives(p, u)
    ensures !Deceives(c, p, u)
  {
    var period := PERIOD * u;
    var k := c / period;
    DivBracket(c, period);
    assert period * k == PERIOD * (u * k);
    DeceptionIsPeriodic(c - period * k, p, u, k);
  }

  /** A positive estimate is an exact profit for every admissible pair at a price exactly when no amount of debt
      below the period deceives: a finite check on price and decimals, without collateral, bonus or fee. */
  lemma TrustworthyIff(p: int, d: nat)
    requires p > 0
    ensures Trustworthy(p, d) <==> NoAmountDeceives(p, Pow(10, d))
  {
    var u := Pow(10, d);
    if NoAmountDeceives(p, u) {
      forall t: Pair | t.debtPrice == p && t.debtDecimals == d ensures !Misleading(t) {
        NoAmountAtAll(if t.Computable() then t.Covered() else 0, p, u);
        if Misleading(t) { WrongEstimateDeceives(t); }
      }
    } else {
      var c :| 0 <= c < PERIOD * u && Deceives(c, p, u);
      DeceivingPair(c, p, d);
    }
  }

  // ---------- The same without a search ----------

  /** Up to a debt unit worth 10000/9995 of 0.01 USD no amount deceives. Any common divisor h of price and unit
      widens the limit, since amount * p / u then rounds by at most (u - h) / u. */
  lemma NeverDeceives(c: int, p: int, u: int, h: int)
    requires p > 0 && u > 0 && h > 0 && p % h == 0 && u % h == 0
    requires 9995 * p < 10000 * (GAS_COST_USD * u + h)
    ensures !Deceives(c, p, u)
  {
    var amount, m := c * 10005 / 10000, BreakEven(c, p, u);
    var cost := amount * p / u;
    FeeRemainder(c);
    RoundsByMultiples(amount, p, u, h);
    DivBracket(c * p * 2001, 1990 * u);
    MulLe(p, c * 10005, 10000 * amount + 9995);
    assert u * (m * 9950) <= 10000 * (amount * p) + 9995 * p by {
      assert (1990 * u) * m * 5 == u * (m * 9950);
      assert p * (c * 10005) == 5 * (c * p * 2001);
      assert p * (10000 * amount + 9995) == 10000 * (amount * p) + 9995 * p;
    }
    var target := 10000 * (cost + GAS_COST_USD + 1);
    assert u * target == 10000 * (u * cost) + 10000 * (GAS_COST_USD * u) + 10000 * u;
    MulCancelLt(u, m * 9950, target);
    Deceived(c, p, u);
  }

  /** The fee on c tokens is a multiple of 5 over 10000, so its floor drops at most 9995. */
  lemma FeeRemainder(c: int)
    ensures c * 10005 <= 10000 * (c * 10005 / 10000) + 9995
  {
    var q := c * 10005 / 10000;
    DivBracket(c * 10005, 10000);
    assert 5 * (2001 * c - 2000 * q) < 10000;
  }

  lemma RoundsByMultiples(amount: int, p: int, u: int, h: int)
    requires u > 0 && h > 0 && p % h == 0 && u % h == 0
    ensures amount * p <= u * (amount * p / u) + u - h
  {
    var q := amount * p / u;
    var a, b := p / h, u / h;
    DivBracket(amount * p, u);
    assert p == h * a && u == h * b;
    assert amount * p == h * (amount * a) && u * q + u == h * (b * q + b) by {
      assert amount * (h * a) == h * (amount * a);
      assert (h * b) * q == h * (b * q);
    }
    MulCancelLt(h, amount * a, b * q + b);
    MulLe(h, amount * a, b * q + b - 1);
  }

  /** From a debt unit worth about two price steps more, 1999 base units of the token deceive. */
  lemma AlwaysDeceives(p: int, u: int)
    requires p > 0 && u > 0 && 9995 * p >= (10000 * GAS_COST_USD + 19900) * u
    ensures Deceives(1999, p, u)
  {
    var cost := 1999 * p / u;
    assert Cost(1999, p, u) == cost;
    var target := cost + GAS_COST_USD + 1;
    var m := (200 * target + 198) / 199;
    DivBracket(200 * target + 198, 199);
    DivBracket(1999 * p, u);
    MulLe(u, 199 * m, 200 * target + 198);
    assert u * (199 * m) * 10 == m * (1990 * u);
    assert u * (200 * target + 198) == 200 * (u * cost) + (200 * GAS_COST_USD + 398) * u;
    AtMostBreakEven(m, 1999, p, u);
    Deceived(1999, p, u);
  }

  /** A positive estimate is an exact profit when the debt unit is worth at most 10000/9995 of 0.01 USD. */
  lemma ProfitIsReal(t: Pair, h: int)
    requires t.Computable() && h > 0 && t.debtPrice % h == 0 && t.DebtUnit() % h == 0
    requires 9995 * t.debtPrice < 10000 * (GAS_COST_USD * t.DebtUnit() + h)
    requires t.NetProfit() > 0
    ensures Pays(t)
  {
    NeverDeceives(t.Covered(), t.debtPrice, t.DebtUnit(), h);
    if !Pays(t) { WrongEstimateDeceives(t); }
  }

  /** At every price above the band the estimate can be wrong: some sound pair that clears the debt has a
      positive estimate and is an exact loss, or breaks even at best. */
  lemma ProfitIsFalseAbove(p: int, d: nat)
    requires p > 0 && 9995 * p >= (10000 * GAS_COST_USD + 19900) * Pow(10, d)
    ensures !Trustworthy(p, d)
  {
    AlwaysDeceives(p, Pow(10, d));
    DeceivingPair(1999, p, d);
  }
}
