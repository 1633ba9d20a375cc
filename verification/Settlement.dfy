// internal/engine/strategy_engine.go: what the figures of one (debt, collateral) pair mean in exact arithmetic,
// each bounded from both sides by inequalities between integers.
module Settlement {
  import opened Models
  import opened RayMath
  import opened Liquidation

  // ---------- Amounts and values ----------

  /** shown is scaled * index / RAY, rounded to the nearest integer, halves up. */
  predicate Displays(shown: int, scaled: int, index: int) {
    -RAY < 2 * (RAY * shown - scaled * index) <= RAY
  }

  /** v is the USD value of a token amount, rounded down. */
  predicate IsWorth(v: int, amount: int, price: int, unit: int) {
    unit * v <= amount * price < unit * v + unit
  }

  lemma DisplayedAndWorth(scaled: int, index: int, price: int, decimals: nat)
    ensures Displays(RayMul(scaled, index), scaled, index)
    ensures IsWorth(ValueInBaseCurrency(RayMul(scaled, index), price, decimals),
                    RayMul(scaled, index), price, Pow(10, decimals))
  {
    RayMulNearest(scaled, index);
    DivBracket(RayMul(scaled, index) * price, Pow(10, decimals));
  }

  // ---------- The allowance ----------

  /** The allowance is the whole debt unless both totals reach 2000 USD, the health factor is above 0.95 and the
      debt is worth more than half the total; then it is what half the total buys, rounded down. */
  predicate IsAllowance(
    allowance: int, balance: int, price: int, unit: int, totalDebt: int, totalCollateral: int, hf: int)
  {
    if && totalDebt >= 2000 * 1_0000_0000 && totalCollateral >= 2000 * 1_0000_0000
       && 100 * hf > 95 * 1_000_000_000_000_000_000
       && balance * price >= (totalDebt / 2 + 1) * unit
    then allowance * price <= totalDebt / 2 * unit < (allowance + 1) * price
    else allowance == balance
  }

  lemma HalfIsHalf(totalDebt: int)
    ensures HalfOf(totalDebt) == totalDebt / 2
  {
    var half := totalDebt / 2;
    assert 10000 * half <= totalDebt * 5000 < 10000 * half + 10000;
    DivIs(totalDebt * 5000, 10000, half);
  }

  lemma ExceedsHalf(balance: int, price: int, unit: int, half: int)
    requires unit > 0
    ensures balance * price / unit > half <==> balance * price >= (half + 1) * unit
  {
    DivLt(balance * price, unit, half + 1);
    assert unit * (half + 1) == (half + 1) * unit;
  }

  lemma Bought(budget: int, price: int)
    requires price > 0
    ensures budget / price * price <= budget < (budget / price + 1) * price
  {
    DivBracket(budget, price);
    assert (budget / price + 1) * price == price * (budget / price) + price;
  }

  lemma AllowanceExact(balance: int, price: int, decimals: nat, totalDebt: int, totalCollateral: int, hf: int)
    requires price > 0
    ensures IsAllowance(MaxLiquidatableDebt(balance, price, decimals, totalDebt, totalCollateral, hf),
                        balance, price, Pow(10, decimals), totalDebt, totalCollateral, hf)
  {
    HalfIsHalf(totalDebt);
    ExceedsHalf(balance, price, Pow(10, decimals), totalDebt / 2);
    Bought(totalDebt / 2 * Pow(10, decimals), price);
  }

  // ---------- Covered debt and seized collateral ----------

  /** The collateral is exhausted, and the covered debt is what it pays for at the bonus, rounded up. */
  predicate Exhausts(t: Pair, covered: int, gross: int) {
    var du, cu := Pow(10, t.debtDecimals), Pow(10, t.colDecimals);
    && gross == t.colBalance
    && gross * t.colPrice * du * 10000 <= (covered * t.bonus + 10000) * t.debtPrice * cu
    && (covered - 1) * t.bonus * t.debtPrice * cu < gross * t.colPrice * du * 10000
  }

  /** The allowance is used up, and the seizure is its worth with the bonus, rounded down twice. */
  predicate Fills(t: Pair, covered: int, gross: int) {
    var du, cu := Pow(10, t.debtDecimals), Pow(10, t.colDecimals);
    && covered == t.maxDebt
    && gross * t.colPrice * du * 10000 <= covered * t.bonus * t.debtPrice * cu
    && covered * t.bonus * t.debtPrice * cu < ((gross + 1) * 10000 + t.bonus) * t.colPrice * du
  }

  /** The protocol takes feeBps of the bonus part of the gross, gross * (bonus - 10000) / bonus. */
  predicate TakesFee(gross: int, fee: int, bonus: int, feeBps: int) {
    && 10000 * bonus * fee <= (gross * (bonus - 10000) + bonus - 1) * feeBps
    && gross * (bonus - 10000) * feeBps < 10000 * bonus * (fee + 1)
  }

  predicate Settles(t: Pair, covered: int, gross: int, fee: int) {
    && 0 <= covered <= t.maxDebt && 0 <= gross <= t.colBalance
    && (Exhausts(t, covered, gross) || Fills(t, covered, gross))
    && TakesFee(gross, fee, t.bonus, t.fee)
  }

  /** y * (covered - 1) * bonus lies below x * gross * 10000 when covered is the ceiling of what gross pays for. */
  lemma CeilingBelow(x: int, y: int, gross: int, needed: int, covered: int, bonus: int)
    requires y > 0 && y * needed <= x * gross && bonus * covered - bonus < needed * 10000
    ensures y * ((covered - 1) * bonus) < 10000 * (x * gross)
  {
    assert (covered - 1) * bonus < needed * 10000;
    MulLe(y, (covered - 1) * bonus + 1, needed * 10000);
    assert y * (needed * 10000) == 10000 * (y * needed);
    assert y * ((covered - 1) * bonus + 1) == y * ((covered - 1) * bonus) + y;
  }

  lemma DepletedCovers(t: Pair)
    requires t.Sound() && t.Depleted()
    ensures (t.Covered() - 1) * t.bonus * t.debtPrice * t.ColUnit() < t.Seized() * t.colPrice * t.DebtUnit() * 10000
  {
    var x, y := t.colPrice * t.DebtUnit(), t.debtPrice * t.ColUnit();
    ProductsPositive(t.debtPrice, t.ColUnit());
    DebtNeededBracket(t);
    DebtNeededNonNeg(t);
    PercentDivCeilIsLeast(t.DebtNeeded(), t.bonus);
    Regroup(t.colPrice, t.colBalance, t.DebtUnit());
    CeilingBelow(x, y, t.colBalance, t.DebtNeeded(), t.Covered(), t.bonus);
    Widen((t.Covered() - 1) * t.bonus, t.debtPrice, t.ColUnit());
    Widen(t.Seized(), t.colPrice, t.DebtUnit());
  }

  lemma Widen(a: int, b: int, c: int)
    ensures a * b * c == (b * c) * a
  {}

  /** Two floors lose at most one collateral unit with the bonus and one more. */
  lemma FloorsAbove(x: int, y: int, max: int, base: int, gross: int, bonus: int)
    requires x > 0 && bonus > 0
    requires y * max < x * base + x && base * bonus < 10000 * gross + 10000
    ensures y * (max * bonus) < x * ((gross + 1) * 10000 + bonus)
  {
    MulLe(bonus, y * max + 1, x * base + x);
    MulLe(x, base * bonus + 1, 10000 * gross + 10000);
    assert bonus * (y * max + 1) == y * (max * bonus) + bonus;
    assert bonus * (x * base + x) == x * (base * bonus) + x * bonus;
    assert x * (base * bonus + 1) == x * (base * bonus) + x;
    assert x * ((gross + 1) * 10000 + bonus) == x * (10000 * gross + 10000) + x * bonus;
  }

  lemma FilledSeizes(t: Pair)
    requires t.Sound() && !t.Depleted()
    ensures t.Covered() * t.bonus * t.debtPrice * t.ColUnit()
          < ((t.Seized() + 1) * 10000 + t.bonus) * t.colPrice * t.DebtUnit()
  {
    var x, y := t.colPrice * t.DebtUnit(), t.debtPrice * t.ColUnit();
    ProductsPositive(t.colPrice, t.DebtUnit());
    DivBracket(t.debtPrice * t.maxDebt * t.ColUnit(), x);
    Regroup(t.debtPrice, t.maxDebt, t.ColUnit());
    DivBracket(t.BaseCollateral() * t.bonus, 10000);
    FloorsAbove(x, y, t.maxDebt, t.BaseCollateral(), t.Seized(), t.bonus);
    Widen(t.Covered() * t.bonus, t.debtPrice, t.ColUnit());
    Widen((t.Seized() + 1) * 10000 + t.bonus, t.colPrice, t.DebtUnit());
  }

  /** floor(part * feeBps / 10000) for a part known up to one over the bonus. */
  lemma FeeFloors(exact: int, part: int, fee: int, bonus: int, feeBps: int)
    requires bonus > 0 && feeBps >= 0
    requires exact <= bonus * part <= exact + bonus - 1
    requires 10000 * fee <= part * feeBps < 10000 * fee + 10000
    ensures 10000 * bonus * fee <= (exact + bonus - 1) * feeBps
    ensures exact * feeBps < 10000 * bonus * (fee + 1)
  {
    MulLe(feeBps, exact, bonus * part);
    MulLe(feeBps, bonus * part, exact + bonus - 1);
    MulLe(bonus, 10000 * fee, part * feeBps);
    MulLe(bonus, part * feeBps + 1, 10000 * fee + 10000);
    assert bonus * (part * feeBps) == feeBps * (bonus * part);
    assert bonus * (part * feeBps + 1) == feeBps * (bonus * part) + bonus;
    assert bonus * (10000 * fee + 10000) == 10000 * bonus * (fee + 1);
    assert bonus * (10000 * fee) == 10000 * bonus * fee;
  }

  lemma FeeTaken(t: Pair)
    requires t.Sound()
    ensures TakesFee(t.Seized(), t.ProtocolFee(), t.bonus, t.fee)
  {
    var portion := t.Seized() * PERCENTAGE_FACTOR / t.bonus;
    DivBracket(t.Seized() * PERCENTAGE_FACTOR, t.bonus);
    DivBracket((t.Seized() - portion) * t.fee, PERCENTAGE_FACTOR);
    assert t.bonus * (t.Seized() - portion) == t.Seized() * t.bonus - t.bonus * portion;
    FeeFloors(t.Seized() * (t.bonus - 10000), t.Seized() - portion, t.ProtocolFee(), t.bonus, t.fee);
  }

  /** The figures of every sound pair, in both branches. */
  lemma PairSettles(t: Pair)
    requires t.Sound()
    ensures Settles(t, t.Covered(), t.Seized(), t.ProtocolFee())
    ensures t.Received() == t.Seized() - t.ProtocolFee()
  {
    WithinAllowance(t);
    SeizureBoundedByBonus(t);
    FeeTaken(t);
    if t.Depleted() { DepletedCovers(t); } else { FilledSeizes(t); }
  }

  // ---------- The leftover rule ----------

  /** A pair passes the leftover rule exactly when it clears the debt, exhausts the collateral, or leaves a worth of
      1000 USD on both sides. */
  lemma DustIff(t: Pair)
    requires t.Sound()
    ensures !t.LeavesDust() <==>
      || t.Covered() == t.debtBalance
      || t.Seized() == t.colBalance
      || (&& (t.debtBalance - t.Covered()) * t.debtPrice >= 1000 * 1_0000_0000 * Pow(10, t.debtDecimals)
          && (t.colBalance - t.Seized()) * t.colPrice >= 1000 * 1_0000_0000 * Pow(10, t.colDecimals))
  {
    WithinAllowance(t);
    var limit := 1000 * 1_0000_0000;
    DivLt((t.debtBalance - t.Covered()) * t.debtPrice, t.DebtUnit(), limit);
    DivLt((t.colBalance - t.Seized()) * t.colPrice, t.ColUnit(), limit);
  }

  // ---------- The estimate ----------

  /** cost is 100.05% of the covered debt in USD, and revenue 99.5% of the received collateral, each rounded down
      twice. */
  predicate Estimates(t: Pair, covered: int, received: int, cost: int, revenue: int) {
    var du, cu := Pow(10, t.debtDecimals), Pow(10, t.colDecimals);
    && 10000 * du * cost <= covered * 10005 * t.debtPrice < 10000 * (du * (cost + 1) + t.debtPrice)
    && 10000 * cu * revenue <= received * t.colPrice * 9950 < cu * (10000 * (revenue + 1) + 9950)
  }

  lemma CostFloors(covered: int, price: int, unit: int)
    requires price > 0 && unit > 0
    ensures var cost := covered * 10005 / 10000 * price / unit;
            10000 * unit * cost <= covered * 10005 * price < 10000 * (unit * (cost + 1) + price)
  {
    var amount := covered * 10005 / 10000;
    var cost := amount * price / unit;
    DivBracket(covered * 10005, 10000);
    DivBracket(amount * price, unit);
    MulLe(price, 10000 * amount, covered * 10005);
    MulLe(price, covered * 10005 + 1, 10000 * amount + 10000);
    assert price * (10000 * amount) == 10000 * (amount * price);
    assert price * (10000 * amount + 10000) == 10000 * (amount * price) + 10000 * price;
    assert price * (covered * 10005 + 1) == covered * 10005 * price + price;
    assert 10000 * unit * cost == 10000 * (unit * cost);
  }

  lemma RevenueFloors(received: int, price: int, unit: int)
    requires unit > 0
    ensures var revenue := received * price / unit * 9950 / 10000;
            10000 * unit * revenue <= received * price * 9950 < unit * (10000 * (revenue + 1) + 9950)
  {
    var ideal := received * price / unit;
    var revenue := ideal * 9950 / 10000;
    DivBracket(received * price, unit);
    DivBracket(ideal * 9950, 10000);
    MulLe(unit, 10000 * revenue, ideal * 9950);
    MulLe(unit, ideal * 9950 + 1, 10000 * revenue + 10000);
    assert unit * (10000 * revenue) == 10000 * unit * revenue;
    assert unit * (ideal * 9950) == 9950 * (unit * ideal);
    assert unit * (ideal * 9950 + 1) == 9950 * (unit * ideal) + unit;
    assert unit * (10000 * (revenue + 1) + 9950) == unit * (10000 * revenue + 10000) + 9950 * unit;
  }

  /** The net profit is revenue less cost less 0.01 USD. */
  lemma EstimateExact(t: Pair)
    requires t.Computable()
    ensures Estimates(t, t.Covered(), t.Received(), t.CostUSD(), t.RevenueUSD())
    ensures t.NetProfit() == t.RevenueUSD() - t.CostUSD() - 1_000_000
  {
    CostFloors(t.Covered(), t.debtPrice, t.DebtUnit());
    RevenueFloors(t.Received(), t.colPrice, t.ColUnit());
  }
}
