// internal/engine/strategy_engine.go: the arithmetic of one (debt, collateral) pair.
module Liquidation {
  import opened Models
  import opened RayMath

  const CLOSE_FACTOR_HF_THRESHOLD: int := 950_000_000_000_000_000
  const MIN_BASE_MAX_CLOSE_FACTOR: int := 2000_0000_0000
  const MIN_LEFTOVER_BASE: int := 1000_0000_0000
  const DEFAULT_CLOSE_FACTOR: int := 5000
  const PERCENTAGE_FACTOR: int := 10000
  const FLASHLOAN_FEE_BPS: int := 5
  const DEX_SLIPPAGE_BPS: int := 50
  const GAS_COST_USD: int := 1000000

  /** USD value of a token amount, with eight decimals. */
  function ValueInBaseCurrency(amount: int, price: int, decimals: nat): int {
    amount * price / Pow(10, decimals)
  }

  function PercentDivCeil(value: int, percentage: int): int {
    if value == 0 || percentage == 0 then 0
    else (value * PERCENTAGE_FACTOR + percentage - 1) / percentage
  }

  /** PercentDivCeil is the least r with value * 10000 <= r * percentage. */
  lemma PercentDivCeilIsLeast(value: int, percentage: int)
    requires value >= 0 && percentage > 0
    ensures var r := PercentDivCeil(value, percentage);
            && value * PERCENTAGE_FACTOR <= percentage * r
            && percentage * r - percentage < value * PERCENTAGE_FACTOR
  {}

  lemma ValueMonotone(x: int, y: int, price: int, decimals: nat)
    requires x <= y && price >= 0
    ensures ValueInBaseCurrency(x, price, decimals) <= ValueInBaseCurrency(y, price, decimals)
  {
    MulLe(price, x, y);
    DivMono(x * price, y * price, Pow(10, decimals));
  }

  // ---------- Close factor ----------

  predicate CloseFactorApplies(totalDebt: int, totalCollateral: int, hf: int) {
    && totalCollateral >= MIN_BASE_MAX_CLOSE_FACTOR
    && totalDebt >= MIN_BASE_MAX_CLOSE_FACTOR
    && hf > CLOSE_FACTOR_HF_THRESHOLD
  }

  function HalfOf(totalDebt: int): int {
    totalDebt * DEFAULT_CLOSE_FACTOR / PERCENTAGE_FACTOR
  }

  function MaxLiquidatableDebt(
    balance: int, price: int, decimals: nat, totalDebt: int, totalCollateral: int, hf: int): int
    requires price > 0
  {
    if CloseFactorApplies(totalDebt, totalCollateral, hf)
       && ValueInBaseCurrency(balance, price, decimals) > HalfOf(totalDebt)
    then HalfOf(totalDebt) * Pow(10, decimals) / price
    else balance
  }

  /** The cap never exceeds the balance, and under the close factor its USD value is at most half the
      total debt, although it went from USD to tokens and back. */
  lemma CloseFactorCap(balance: int, price: int, decimals: nat, totalDebt: int, totalCollateral: int, hf: int)
    requires price > 0 && balance >= 0
    ensures var cap := MaxLiquidatableDebt(balance, price, decimals, totalDebt, totalCollateral, hf);
            && 0 <= cap <= balance
            && (CloseFactorApplies(totalDebt, totalCollateral, hf) ==>
                  2 * ValueInBaseCurrency(cap, price, decimals) <= totalDebt)
  {
    var unit := Pow(10, decimals);
    var half := HalfOf(totalDebt);
    var cap := MaxLiquidatableDebt(balance, price, decimals, totalDebt, totalCollateral, hf);
    if CloseFactorApplies(totalDebt, totalCollateral, hf) {
      DivBracket(totalDebt * DEFAULT_CLOSE_FACTOR, PERCENTAGE_FACTOR);
      if ValueInBaseCurrency(balance, price, decimals) > half {
        DivBracket(half * unit, price);
        DivBracket(balance * price, unit);
        DivLt(cap * price, unit, half + 1);
        MulLe(unit, half, balance * price / unit);
        MulLe(unit, 0, half);
        DivNonNeg(half * unit, price);
        MulCancelLe(price, cap, balance);
      }
    }
  }

  // ---------- One pair ----------

  /** A debt and a collateral asset of one position, with the allowance the close factor leaves. */
  datatype Pair = Pair(
    debtBalance: int, debtPrice: int, debtDecimals: nat, maxDebt: int,
    colBalance: int, colPrice: int, colDecimals: nat,
    bonus: uint16, fee: uint16)
  {
    predicate Computable() {
      debtPrice > 0 && colPrice > 0 && (fee > 0 ==> bonus > 0)
    }

    /** The protocol's own facts: balances are unsigned, a bonus is at least 100%, a fee at most 100%. */
    predicate Sound() {
      && Computable()
      && 0 <= maxDebt <= debtBalance && 0 <= colBalance
      && PERCENTAGE_FACTOR <= bonus && fee <= PERCENTAGE_FACTOR
    }

    function DebtUnit(): (r: nat) ensures r > 0 { Pow(10, debtDecimals) }

    function ColUnit(): (r: nat) ensures r > 0 { Pow(10, colDecimals) }

    function BaseCollateral(): int
      requires Computable()
    {
      ProductsPositive(colPrice, DebtUnit());
      debtPrice * maxDebt * ColUnit() / (colPrice * DebtUnit())
    }

    function MaxCollateral(): int
      requires Computable()
    {
      BaseCollateral() * bonus / PERCENTAGE_FACTOR
    }

    predicate Depleted()
      requires Computable()
    {
      MaxCollateral() > colBalance
    }

    function DebtNeeded(): int
      requires Computable()
    {
      ProductsPositive(debtPrice, ColUnit());
      colPrice * colBalance * DebtUnit() / (debtPrice * ColUnit())
    }

    /** Debt the liquidator repays. */
    function Covered(): int
      requires Computable()
    {
      if Depleted() then PercentDivCeil(DebtNeeded(), bonus) else maxDebt
    }

    /** Collateral taken from the user, before the protocol fee. */
    function Seized(): int
      requires Computable()
    {
      if Depleted() then colBalance else MaxCollateral()
    }

    function ProtocolFee(): int
      requires Computable()
    {
      if fee > 0 then (Seized() - Seized() * PERCENTAGE_FACTOR / bonus) * fee / PERCENTAGE_FACTOR else 0
    }

    function Received(): int
      requires Computable()
    {
      Seized() - ProtocolFee()
    }

    /** Neither side is cleared and one of them would be left with less than 1000 USD. */
    predicate LeavesDust()
      requires Computable()
    {
      && Covered() < debtBalance && Seized() < colBalance
      && (ValueInBaseCurrency(debtBalance - Covered(), debtPrice, debtDecimals) < MIN_LEFTOVER_BASE
          || ValueInBaseCurrency(colBalance - Seized(), colPrice, colDecimals) < MIN_LEFTOVER_BASE)
    }

    function CostUSD(): int
      requires Computable()
    {
      var debtCostAmt := Covered() * (PERCENTAGE_FACTOR + FLASHLOAN_FEE_BPS) / PERCENTAGE_FACTOR;
      ValueInBaseCurrency(debtCostAmt, debtPrice, debtDecimals)
    }

    function RevenueUSD(): int
      requires Computable()
    {
      var idealRevenueUSD := ValueInBaseCurrency(Received(), colPrice, colDecimals);
      idealRevenueUSD * (PERCENTAGE_FACTOR - DEX_SLIPPAGE_BPS) / PERCENTAGE_FACTOR
    }

    function NetProfit(): int
      requires Computable()
    {
      RevenueUSD() - CostUSD() - GAS_COST_USD
    }
  }

  lemma ProductsPositive(x: int, y: int)
    requires x > 0 && y > 0
    ensures x * y > 0
  {}

  /** The two divisions of the depleted branch, back to a common denominator. */
  lemma BaseCollateralBracket(t: Pair)
    requires t.Computable()
    ensures (t.colPrice * t.DebtUnit()) * t.BaseCollateral() <= t.debtPrice * t.maxDebt * t.ColUnit()
  {}

  lemma DebtNeededBracket(t: Pair)
    requires t.Computable()
    ensures (t.debtPrice * t.ColUnit()) * t.DebtNeeded() <= t.colPrice * t.colBalance * t.DebtUnit()
    ensures t.colPrice * t.colBalance * t.DebtUnit()
          < (t.debtPrice * t.ColUnit()) * t.DebtNeeded() + t.debtPrice * t.ColUnit()
  {}

  lemma DebtNeededNonNeg(t: Pair)
    requires t.Sound()
    ensures t.DebtNeeded() >= 0
  {}

  /** When the wanted collateral exceeds the balance, the debt that balance pays for is below the allowance. */
  lemma NeededBelowAllowance(t: Pair)
    requires t.Sound() && t.Depleted()
    ensures t.DebtNeeded() * PERCENTAGE_FACTOR < t.maxDebt * t.bonus
  {
    var x := t.colPrice * t.DebtUnit();
    var y := t.debtPrice * t.ColUnit();
    ProductsPositive(t.colPrice, t.DebtUnit());
    ProductsPositive(t.debtPrice, t.ColUnit());
    BaseCollateralBracket(t);
    DebtNeededBracket(t);
    DivBracket(t.BaseCollateral() * t.bonus, PERCENTAGE_FACTOR);
    var base := t.BaseCollateral();
    assert base * t.bonus >= PERCENTAGE_FACTOR * (t.colBalance + 1);
    Chain(x, y, base, t.bonus, t.maxDebt, t.colBalance, t.DebtNeeded());
  }

  /** y*needed <= x*col, x*base <= y*max and 10000*(col+1) <= base*bonus give needed*10000 < max*bonus. */
  lemma Chain(x: int, y: int, base: int, bonus: int, max: int, col: int, needed: int)
    requires x > 0 && y > 0 && bonus > 0
    requires x * base <= y * max
    requires y * needed <= x * col
    requires PERCENTAGE_FACTOR * (col + 1) <= base * bonus
    ensures needed * PERCENTAGE_FACTOR < max * bonus
  {}

  /** A ceiling stays at or below an integer bound that lies strictly above its dividend. */
  lemma CeilingWithin(needed: int, bonus: int, max: int)
    requires 0 <= needed && bonus > 0 && needed * PERCENTAGE_FACTOR < max * bonus
    ensures 0 <= PercentDivCeil(needed, bonus) <= max
  {
    var r := PercentDivCeil(needed, bonus);
    PercentDivCeilIsLeast(needed, bonus);
    if r < 0 { MulLe(bonus, r, -1); }
    assert bonus * (r - 1) < bonus * max;
    MulCancelLt(bonus, r - 1, max);
  }

  lemma MaxCollateralNonNeg(t: Pair)
    requires t.Sound()
    ensures t.MaxCollateral() >= 0
  {
    MulLe(t.debtPrice, 0, t.maxDebt);
    MulLe(t.ColUnit(), 0, t.debtPrice * t.maxDebt);
    ProductsPositive(t.colPrice, t.DebtUnit());
    DivNonNeg(t.debtPrice * t.maxDebt * t.ColUnit(), t.colPrice * t.DebtUnit());
    MulLe(t.bonus, 0, t.BaseCollateral());
    DivNonNeg(t.BaseCollateral() * t.bonus, PERCENTAGE_FACTOR);
  }

  /** In both branches the debt covered stays within the allowance and the collateral within the balance,
      although the depleted branch recomputes the debt through a floor and then a ceiling. */
  lemma WithinAllowance(t: Pair)
    requires t.Sound()
    ensures 0 <= t.Covered() <= t.maxDebt <= t.debtBalance
    ensures 0 <= t.Seized() <= t.colBalance
  {
    if t.Depleted() {
      NeededBelowAllowance(t);
      DebtNeededNonNeg(t);
      CeilingWithin(t.DebtNeeded(), t.bonus, t.maxDebt);
    } else {
      MaxCollateralNonNeg(t);
    }
  }

  lemma SeizeExhausted(x: int, y: int, seized: int, needed: int, covered: int, bonus: int)
    requires y > 0 && x * seized < y * needed + y && needed * 10000 <= bonus * covered
    ensures 10000 * (x * seized) <= y * (covered * bonus) + 10000 * y
  {}

  lemma SeizePartial(x: int, y: int, seized: int, base: int, covered: int, bonus: int)
    requires x > 0 && bonus > 0 && 10000 * seized <= base * bonus && x * base <= y * covered
    ensures 10000 * (x * seized) <= y * (covered * bonus)
  {}

  /** Worth of the seizure against covered debt, over the common denominators x = colPrice*debtUnit and
      y = debtPrice*colUnit. */
  lemma SeizureOverDenominators(t: Pair)
    requires t.Sound()
    ensures 10000 * ((t.colPrice * t.DebtUnit()) * t.Seized())
         <= (t.debtPrice * t.ColUnit()) * (t.Covered() * t.bonus)
            + (if t.Depleted() then 10000 * (t.debtPrice * t.ColUnit()) else 0)
  {
    var x := t.colPrice * t.DebtUnit();
    var y := t.debtPrice * t.ColUnit();
    ProductsPositive(t.colPrice, t.DebtUnit());
    ProductsPositive(t.debtPrice, t.ColUnit());
    if t.Depleted() {
      DebtNeededBracket(t);
      DebtNeededNonNeg(t);
      PercentDivCeilIsLeast(t.DebtNeeded(), t.bonus);
      Regroup(t.colPrice, t.colBalance, t.DebtUnit());
      SeizeExhausted(x, y, t.Seized(), t.DebtNeeded(), t.Covered(), t.bonus);
    } else {
      BaseCollateralBracket(t);
      DivBracket(t.BaseCollateral() * t.bonus, 10000);
      Regroup(t.debtPrice, t.maxDebt, t.ColUnit());
      SeizePartial(x, y, t.Seized(), t.BaseCollateral(), t.Covered(), t.bonus);
    }
  }

  lemma Regroup(a: int, b: int, c: int)
    ensures a * b * c == (a * c) * b
  {}

  /** The same bound without the grouping of its factors. */
  lemma Ungroup(seized: int, colPrice: int, debtUnit: int, covered: int, slack: int, debtPrice: int, colUnit: int)
    requires 10000 * ((colPrice * debtUnit) * seized)
          <= (debtPrice * colUnit) * covered + slack * (debtPrice * colUnit)
    ensures seized * colPrice * debtUnit * 10000 <= (covered + slack) * debtPrice * colUnit
  {
    var y := debtPrice * colUnit;
    assert seized * colPrice * debtUnit == (colPrice * debtUnit) * seized;
    assert (covered + slack) * debtPrice * colUnit == (covered + slack) * y;
    assert (covered + slack) * y == y * covered + slack * y;
  }

  /** The seized collateral is worth at most the covered debt plus its bonus, up to one debt unit;
      when the collateral is not exhausted there is no slack at all. */
  lemma SeizureBoundedByBonus(t: Pair)
    requires t.Sound()
    ensures t.Seized() * t.colPrice * t.DebtUnit() * 10000
         <= (t.Covered() * t.bonus + (if t.Depleted() then 10000 else 0)) * t.debtPrice * t.ColUnit()
  {
    SeizureOverDenominators(t);
    Ungroup(t.Seized(), t.colPrice, t.DebtUnit(), t.Covered() * t.bonus, if t.Depleted() then 10000 else 0,
            t.debtPrice, t.ColUnit());
  }

  /** Fee and share add up to the gross, the fee comes out of the bonus only, and the liquidator never
      receives less than the collateral that the covered debt buys without a bonus. */
  lemma FeeSplit(t: Pair)
    requires t.Sound()
    ensures t.Received() + t.ProtocolFee() == t.Seized()
    ensures 0 <= t.ProtocolFee()
    ensures t.Seized() * PERCENTAGE_FACTOR / t.bonus <= t.Received() <= t.Seized()
  {
    WithinAllowance(t);
    var seized := t.Seized();
    var portion := seized * PERCENTAGE_FACTOR / t.bonus;
    DivBracket(seized * PERCENTAGE_FACTOR, t.bonus);
    MulLe(seized, PERCENTAGE_FACTOR, t.bonus);
    MulCancelLe(t.bonus, portion, seized);
    if t.fee > 0 {
      DivBracket((seized - portion) * t.fee, PERCENTAGE_FACTOR);
      MulLe(seized - portion, t.fee, PERCENTAGE_FACTOR);
      MulLe(seized - portion, 0, t.fee);
      DivNonNeg((seized - portion) * t.fee, PERCENTAGE_FACTOR);
    }
  }
}
