// internal/engine/strategy_engine.go: the search for the most profitable (debt, collateral) pair.
module StrategyEngine {
  import opened Models
  import opened RayMath
  import opened Liquidation
  import opened Profit
  import opened Sums
  import HF = HealthFactor

  datatype LiquidationRecipe = LiquidationRecipe(
    userAddress: Address,
    debtAsset: Address,
    collateralAsset: Address,
    debtToCover: int,
    expectedSeizedAmount: int,
    expectedProfitUSD: int,
    liquidationBonusBps: uint16)

  datatype AssetData = AssetData(address: Address, balance: int, price: int, decimals: nat, reserveId: uint16)

  // ---------- What the position holds, asset by asset ----------

  predicate IsDebt(m: Market, p: Position, a: Address) {
    a in p.reserves && m.HasData(a) && p.reserves[a].debt > 0
  }

  predicate IsCollateral(m: Market, p: Position, a: Address) {
    a in p.reserves && m.HasData(a) && p.reserves[a].collateral && p.reserves[a].aToken > 0
  }

  function DebtData(m: Market, p: Position, a: Address): AssetData
    requires IsDebt(m, p, a)
  {
    AssetData(a, RayMul(p.reserves[a].debt, m.indices[a].variableBorrowIndex),
              m.prices[a], m.configs[a].decimals, m.configs[a].reserveId)
  }

  function CollateralData(m: Market, p: Position, a: Address): AssetData
    requires IsCollateral(m, p, a)
  {
    AssetData(a, RayMul(p.reserves[a].aToken, m.indices[a].liquidityIndex),
              m.prices[a], m.configs[a].decimals, m.configs[a].reserveId)
  }

  function BaseValue(x: AssetData): int {
    ValueInBaseCurrency(x.balance, x.price, x.decimals)
  }

  function DebtBase(m: Market, p: Position): Address -> int {
    a => if IsDebt(m, p, a) then BaseValue(DebtData(m, p, a)) else 0
  }

  function CollateralBase(m: Market, p: Position): Address -> int {
    a => if IsCollateral(m, p, a) then BaseValue(CollateralData(m, p, a)) else 0
  }

  /** Bonus of a collateral asset: the E-Mode category's when the asset is in its bitmap. */
  function Bonus(m: Market, p: Position, a: Address): uint16
    requires IsCollateral(m, p, a)
  {
    if p.eModeFetched && p.eModeCategoryId != 0 && p.eModeCategoryId in m.categories
       && Bit(m.categories[p.eModeCategoryId].collateralBitmap, m.configs[a].reserveId)
    then m.categories[p.eModeCategoryId].liquidationBonus
    else m.configs[a].liquidationBonus
  }

  /** The search takes the bonus from the category exactly where the health factor takes the threshold from it:
      both figures of a collateral come from its own configuration or both from the user's category. */
  lemma BonusFollowsThreshold(m: Market, p: Position, a: Address)
    requires IsCollateral(m, p, a)
    ensures var cfg, id := m.configs[a], p.eModeCategoryId;
            var lt := HF.LiquidationThresholdOf(m, cfg, HF.EMode(p.eModeFetched, id));
            || (Bonus(m, p, a) == cfg.liquidationBonus && lt == cfg.liquidationThreshold)
            || (&& id in m.categories && Bit(m.categories[id].collateralBitmap, cfg.reserveId)
                && Bonus(m, p, a) == m.categories[id].liquidationBonus && lt == m.categories[id].liquidationThreshold)
  {}

  /** The pair (d, c) as the nested loops see it after the first loop visited the reserves in the order keys. */
  function PairOf(m: Market, p: Position, hf: int, keys: seq<Address>, d: Address, c: Address): Pair
    requires IsDebt(m, p, d) && IsCollateral(m, p, c) && m.prices[d] > 0
  {
    var debt := DebtData(m, p, d);
    var col := CollateralData(m, p, c);
    var allowance := MaxLiquidatableDebt(debt.balance, debt.price, debt.decimals,
                                         Sum(DebtBase(m, p), keys), Sum(CollateralBase(m, p), keys), hf);
    Pair(debt.balance, debt.price, debt.decimals, allowance,
         col.balance, col.price, col.decimals, Bonus(m, p, c), m.configs[c].liquidationProtocolFee)
  }

  /** What the source's divisions need: listed prices are not zero, and a fee is only charged where a bonus is set. */
  ghost predicate Computable(m: Market, p: Position) {
    && m.Sound()
    && forall c :: IsCollateral(m, p, c) && m.configs[c].liquidationProtocolFee > 0 ==> Bonus(m, p, c) > 0
  }

  /** (d, c) is a candidate: a debt and a collateral asset that pass the leftover rule. */
  ghost predicate Candidate(m: Market, p: Position, hf: int, keys: seq<Address>, d: Address, c: Address)
    requires Computable(m, p)
  {
    IsDebt(m, p, d) && IsCollateral(m, p, c) && !PairOf(m, p, hf, keys, d, c).LeavesDust()
  }

  ghost function NetProfitOf(m: Market, p: Position, hf: int, keys: seq<Address>, d: Address, c: Address): int
    requires Computable(m, p) && IsDebt(m, p, d) && IsCollateral(m, p, c)
  {
    PairOf(m, p, hf, keys, d, c).NetProfit()
  }

  /** r is the answer: the plan of a candidate with positive and greatest profit, or nil when no candidate
      has a positive one. */
  ghost predicate Optimal(
    m: Market, p: Position, hf: int, keys: seq<Address>, user: Address, r: Option<LiquidationRecipe>)
    requires Computable(m, p)
  {
    match r
    case None =>
      forall d, c :: Candidate(m, p, hf, keys, d, c) ==> NetProfitOf(m, p, hf, keys, d, c) <= 0
    case Some(best) =>
      && Candidate(m, p, hf, keys, best.debtAsset, best.collateralAsset)
      && Describes(PairOf(m, p, hf, keys, best.debtAsset, best.collateralAsset), user, best)
      && best.expectedProfitUSD > 0
      && forall d, c :: Candidate(m, p, hf, keys, d, c) ==> NetProfitOf(m, p, hf, keys, d, c) <= best.expectedProfitUSD
  }

  ghost predicate Describes(t: Pair, user: Address, r: LiquidationRecipe) {
    && t.Computable()
    && r.userAddress == user
    && r.debtToCover == t.Covered()
    && r.expectedSeizedAmount == t.Received()
    && r.expectedProfitUSD == t.NetProfit()
    && r.liquidationBonusBps == t.bonus
  }

  // ---------- The search ----------

  /** The inner loop body for one pair; None when the leftover rule skips it. */
  method Evaluate(t: Pair) returns (plan: Option<(int, int, int)>)
    requires t.Computable()
    ensures plan.None? <==> t.LeavesDust()
    ensures plan.Some? ==> plan.value == (t.Covered(), t.Received(), t.NetProfit())
  {
    var debtUnit, colUnit := Pow(10, t.debtDecimals), Pow(10, t.colDecimals);
    ProductsPositive(t.colPrice, debtUnit);
    ProductsPositive(t.debtPrice, colUnit);
    var baseCollateral := t.debtPrice * t.maxDebt * colUnit / (t.colPrice * debtUnit);
    var maxCollateralToLiquidate := baseCollateral * t.bonus / PERCENTAGE_FACTOR;
    var actualDebtToCover := t.maxDebt;
    var actualCollateralToLiquidate := maxCollateralToLiquidate;
    if maxCollateralToLiquidate > t.colBalance {
      actualCollateralToLiquidate := t.colBalance;
      var debtNeeded := t.colPrice * actualCollateralToLiquidate * debtUnit / (t.debtPrice * colUnit);
      actualDebtToCover := PercentDivCeil(debtNeeded, t.bonus);
    }
    assert actualDebtToCover == t.Covered() && actualCollateralToLiquidate == t.Seized();

    var liquidationProtocolFee := 0;
    if t.fee > 0 {
      var bonusPortion := actualCollateralToLiquidate * PERCENTAGE_FACTOR / t.bonus;
      var bonusCollateral := actualCollateralToLiquidate - bonusPortion;
      liquidationProtocolFee := bonusCollateral * t.fee / PERCENTAGE_FACTOR;
    }
    var botReceivesCollateral := actualCollateralToLiquidate - liquidationProtocolFee;

    if actualDebtToCover < t.debtBalance && actualCollateralToLiquidate < t.colBalance {
      var leftoverDebtBase := ValueInBaseCurrency(t.debtBalance - actualDebtToCover, t.debtPrice, t.debtDecimals);
      var leftoverColBase := ValueInBaseCurrency(t.colBalance - actualCollateralToLiquidate, t.colPrice, t.colDecimals);
      if leftoverDebtBase < MIN_LEFTOVER_BASE || leftoverColBase < MIN_LEFTOVER_BASE {
        return None;
      }
    }

    var debtCostAmt := actualDebtToCover * (PERCENTAGE_FACTOR + FLASHLOAN_FEE_BPS) / PERCENTAGE_FACTOR;
    var costUSD := ValueInBaseCurrency(debtCostAmt, t.debtPrice, t.debtDecimals);
    var idealRevenueUSD := ValueInBaseCurrency(botReceivesCollateral, t.colPrice, t.colDecimals);
    var actualRevenueUSD := idealRevenueUSD * (PERCENTAGE_FACTOR - DEX_SLIPPAGE_BPS) / PERCENTAGE_FACTOR;
    var grossProfitUSD := actualRevenueUSD - costUSD;
    plan := Some((actualDebtToCover, botReceivesCollateral, grossProfitUSD - GAS_COST_USD));
  }

  /** The reserves loop: every debt and every collateral with data, once each, and the two USD totals. */
  method Collect(m: Market, position: Position, order: seq<Address>)
    returns (debts: seq<AssetData>, collaterals: seq<AssetData>, totalDebtInBase: int, totalCollateralInBase: int)
    requires Enumerates(order, position.reserves)
    ensures Lists(m, position, order, debts, collaterals)
    ensures totalDebtInBase == Sum(DebtBase(m, position), order)
    ensures totalCollateralInBase == Sum(CollateralBase(m, position), order)
  {
    debts, collaterals, totalDebtInBase, totalCollateralInBase := [], [], 0, 0;
    for k := 0 to |order|
      invariant totalDebtInBase == Sum(DebtBase(m, position), order[..k])
      invariant totalCollateralInBase == Sum(CollateralBase(m, position), order[..k])
      invariant Lists(m, position, order[..k], debts, collaterals)
    {
      var asset := order[k];
      assert order[..k + 1][..k] == order[..k];
      assert forall a :: a in order[..k + 1] <==> a in order[..k] || a == asset;
      var reserve := position.reserves[asset];
      if m.HasData(asset) {
        if reserve.debt > 0 {
          var debt := DebtData(m, position, asset);
          debts := debts + [debt];
          totalDebtInBase := totalDebtInBase + BaseValue(debt);
        }
        if reserve.collateral && reserve.aToken > 0 {
          var col := CollateralData(m, position, asset);
          collaterals := collaterals + [col];
          totalCollateralInBase := totalCollateralInBase + BaseValue(col);
        }
      }
    }
    assert order[..|order|] == order;
  }

  /** debts and collaterals hold exactly the data of the debt and collateral assets among keys. */
  ghost predicate Lists(
    m: Market, p: Position, keys: seq<Address>, debts: seq<AssetData>, collaterals: seq<AssetData>)
  {
    && (forall x :: x in debts ==> IsDebt(m, p, x.address) && x == DebtData(m, p, x.address))
    && (forall x :: x in collaterals ==> IsCollateral(m, p, x.address) && x == CollateralData(m, p, x.address))
    && (forall a :: a in keys && IsDebt(m, p, a) ==> DebtData(m, p, a) in debts)
    && (forall a :: a in keys && IsCollateral(m, p, a) ==> CollateralData(m, p, a) in collaterals)
  }

  /** The search's own invariant: highestProfit belongs to bestRecipe, and is 0 while there is none. */
  ghost predicate Leading(
    m: Market, p: Position, hf: int, keys: seq<Address>, user: Address,
    best: Option<LiquidationRecipe>, highestProfit: int)
    requires Computable(m, p)
  {
    match best
    case None => highestProfit == 0
    case Some(r) =>
      && highestProfit == r.expectedProfitUSD > 0
      && Candidate(m, p, hf, keys, r.debtAsset, r.collateralAsset)
      && Describes(PairOf(m, p, hf, keys, r.debtAsset, r.collateralAsset), user, r)
  }

  /** highestProfit bounds the profit of every candidate that pairs d with one of the listed collaterals. */
  ghost predicate Beats(
    m: Market, p: Position, hf: int, keys: seq<Address>, d: Address, cols: seq<AssetData>, highestProfit: int)
    requires Computable(m, p)
  {
    forall y :: y in cols && Candidate(m, p, hf, keys, d, y.address) ==>
      NetProfitOf(m, p, hf, keys, d, y.address) <= highestProfit
  }

  /** The bonus that applies to a collateral, with the E-Mode override. */
  method BonusBps(m: Market, position: Position, col: AssetData) returns (bonusBps: uint16)
    requires IsCollateral(m, position, col.address) && col == CollateralData(m, position, col.address)
    ensures bonusBps == Bonus(m, position, col.address)
  {
    bonusBps := m.configs[col.address].liquidationBonus;
    if position.eModeFetched && position.eModeCategoryId != 0 {
      if position.eModeCategoryId in m.categories {
        var eModeCat := m.categories[position.eModeCategoryId];
        if Bit(eModeCat.collateralBitmap, col.reserveId) {
          bonusBps := eModeCat.liquidationBonus;
        }
      }
    }
  }

  /** The inner loop: tries every collateral against one debt. */
  method TryCollaterals(
    m: Market, userAddr: Address, position: Position, hf: int, ghost keys: seq<Address>,
    debt: AssetData, maxLiquidatableDebt: int, collaterals: seq<AssetData>,
    best0: Option<LiquidationRecipe>, highest0: int)
    returns (bestRecipe: Option<LiquidationRecipe>, highestProfit: int)
    requires Computable(m, position)
    requires IsDebt(m, position, debt.address) && debt == DebtData(m, position, debt.address)
    requires maxLiquidatableDebt == MaxLiquidatableDebt(debt.balance, debt.price, debt.decimals,
      Sum(DebtBase(m, position), keys), Sum(CollateralBase(m, position), keys), hf)
    requires forall x :: x in collaterals ==>
      IsCollateral(m, position, x.address) && x == CollateralData(m, position, x.address)
    requires Leading(m, position, hf, keys, userAddr, best0, highest0)
    ensures Leading(m, position, hf, keys, userAddr, bestRecipe, highestProfit)
    ensures highestProfit >= highest0
    ensures Beats(m, position, hf, keys, debt.address, collaterals, highestProfit)
  {
    bestRecipe, highestProfit := best0, highest0;
    for j := 0 to |collaterals|
      invariant highestProfit >= highest0
      invariant Leading(m, position, hf, keys, userAddr, bestRecipe, highestProfit)
      invariant Beats(m, position, hf, keys, debt.address, collaterals[..j], highestProfit)
    {
      var col := collaterals[j];
      assert forall x :: x in collaterals[..j + 1] <==> x in collaterals[..j] || x == col;
      var bonusBps := BonusBps(m, position, col);
      var t := Pair(debt.balance, debt.price, debt.decimals, maxLiquidatableDebt,
                    col.balance, col.price, col.decimals, bonusBps, m.configs[col.address].liquidationProtocolFee);
      assert t == PairOf(m, position, hf, keys, debt.address, col.address);
      var plan := Evaluate(t);
      if plan.Some? && plan.value.2 > highestProfit {
        highestProfit := plan.value.2;
        bestRecipe := Some(LiquidationRecipe(userAddr, debt.address, col.address,
                                             plan.value.0, plan.value.1, plan.value.2, bonusBps));
      }
    }
    assert collaterals[..|collaterals|] == collaterals;
  }

  method CalculateOptimalRecipe(
    m: Market, userAddr: Address, position: Position, hf: int, order: seq<Address>)
    returns (bestRecipe: Option<LiquidationRecipe>)
    requires Computable(m, position)
    requires Enumerates(order, position.reserves)
    ensures Optimal(m, position, hf, order, userAddr, bestRecipe)
  {
    bestRecipe := None;
    var highestProfit := 0;
    var debts, collaterals, totalDebtInBase, totalCollateralInBase := Collect(m, position, order);
    for i := 0 to |debts|
      invariant Leading(m, position, hf, order, userAddr, bestRecipe, highestProfit)
      invariant forall x :: x in debts[..i] ==> Beats(m, position, hf, order, x.address, collaterals, highestProfit)
    {
      var debt := debts[i];
      assert forall x :: x in debts[..i + 1] <==> x in debts[..i] || x == debt;
      var maxLiquidatableDebt := MaxLiquidatableDebt(debt.balance, debt.price, debt.decimals,
                                                     totalDebtInBase, totalCollateralInBase, hf);
      bestRecipe, highestProfit := TryCollaterals(m, userAddr, position, hf, order, debt, maxLiquidatableDebt,
                                                  collaterals, bestRecipe, highestProfit);
    }
    forall d, c | Candidate(m, position, hf, order, d, c)
      ensures NetProfitOf(m, position, hf, order, d, c) <= highestProfit
    {
      assert DebtData(m, position, d) in debts[..|debts|];
      assert CollateralData(m, position, c) in collaterals;
    }
  }

  // ---------- What the answer guarantees ----------

  /** Two visiting orders of the same reserves see the same pairs. */
  lemma PairIndependentOfOrder(
    m: Market, p: Position, hf: int, k1: seq<Address>, k2: seq<Address>, d: Address, c: Address)
    requires Enumerates(k1, p.reserves) && Enumerates(k2, p.reserves)
    requires IsDebt(m, p, d) && IsCollateral(m, p, c) && m.prices[d] > 0
    ensures PairOf(m, p, hf, k1, d, c) == PairOf(m, p, hf, k2, d, c)
  {
    EnumerationsPermute(k1, k2, p.reserves);
    SumPermutation(DebtBase(m, p), k1, k2);
    SumPermutation(CollateralBase(m, p), k1, k2);
  }

  /** Whether a liquidation is found, and at which profit, does not depend on Go's map order. */
  lemma ProfitIndependentOfOrder(
    m: Market, p: Position, hf: int, user: Address, k1: seq<Address>, k2: seq<Address>,
    r1: Option<LiquidationRecipe>, r2: Option<LiquidationRecipe>)
    requires Computable(m, p)
    requires Enumerates(k1, p.reserves) && Enumerates(k2, p.reserves)
    requires Optimal(m, p, hf, k1, user, r1) && Optimal(m, p, hf, k2, user, r2)
    ensures r1.None? <==> r2.None?
    ensures r1.Some? ==> r1.value.expectedProfitUSD == r2.value.expectedProfitUSD
  {
    forall d, c | IsDebt(m, p, d) && IsCollateral(m, p, c)
      ensures PairOf(m, p, hf, k1, d, c) == PairOf(m, p, hf, k2, d, c)
    {
      PairIndependentOfOrder(m, p, hf, k1, k2, d, c);
    }
    if r1.Some? {
      assert Candidate(m, p, hf, k2, r1.value.debtAsset, r1.value.collateralAsset);
    }
    if r2.Some? {
      assert Candidate(m, p, hf, k1, r2.value.debtAsset, r2.value.collateralAsset);
    }
  }

  /** Every collateral's bonus is at least 100% and every protocol fee at most 100%. */
  ghost predicate BonusesSound(m: Market, p: Position) {
    forall c :: IsCollateral(m, p, c) ==>
      Bonus(m, p, c) >= PERCENTAGE_FACTOR && m.configs[c].liquidationProtocolFee <= PERCENTAGE_FACTOR
  }

  lemma PairIsSound(m: Market, p: Position, hf: int, keys: seq<Address>, d: Address, c: Address)
    requires Computable(m, p) && BonusesSound(m, p)
    requires IsDebt(m, p, d) && IsCollateral(m, p, c)
    ensures PairOf(m, p, hf, keys, d, c).Sound()
  {
    RayMulNonNeg(p.reserves[d].debt, m.indices[d].variableBorrowIndex);
    RayMulNonNeg(p.reserves[c].aToken, m.indices[c].liquidityIndex);
    var debt := DebtData(m, p, d);
    CloseFactorCap(debt.balance, debt.price, debt.decimals,
                   Sum(DebtBase(m, p), keys), Sum(CollateralBase(m, p), keys), hf);
  }

  /** What executing a returned recipe does to the user, whatever the prices, decimals and bonuses:
      it repays at most the debt and takes at most the collateral; clears the debt, exhausts the collateral,
      or leaves 1000 USD on both sides; respects the close factor in USD; and seizes no more than the
      bonus allows, to within one debt unit. */
  lemma RecipeIsAdmissible(
    m: Market, p: Position, hf: int, keys: seq<Address>, user: Address, r: LiquidationRecipe)
    requires Computable(m, p) && BonusesSound(m, p)
    requires Optimal(m, p, hf, keys, user, Some(r))
    ensures IsDebt(m, p, r.debtAsset) && IsCollateral(m, p, r.collateralAsset)
    ensures var debt := DebtData(m, p, r.debtAsset);
            var col := CollateralData(m, p, r.collateralAsset);
            var totalDebt := Sum(DebtBase(m, p), keys);
            && 0 <= r.debtToCover <= debt.balance
            && 0 <= r.expectedSeizedAmount <= col.balance
            && (CloseFactorApplies(totalDebt, Sum(CollateralBase(m, p), keys), hf) ==>
                  2 * ValueInBaseCurrency(r.debtToCover, debt.price, debt.decimals) <= totalDebt)
            && r.expectedSeizedAmount * col.price * Pow(10, debt.decimals) * 10000
               <= (r.debtToCover * r.liquidationBonusBps + 10000) * debt.price * Pow(10, col.decimals)
            && NoDustLeft(debt, r.debtToCover, col, PairOf(m, p, hf, keys, r.debtAsset, r.collateralAsset).Seized())
  {
    var t := PairOf(m, p, hf, keys, r.debtAsset, r.collateralAsset);
    PairIsSound(m, p, hf, keys, r.debtAsset, r.collateralAsset);
    WithinAllowance(t);
    FeeSplit(t);
    var totalDebt, totalCol := Sum(DebtBase(m, p), keys), Sum(CollateralBase(m, p), keys);
    CloseFactorCap(t.debtBalance, t.debtPrice, t.debtDecimals, totalDebt, totalCol, hf);
    ValueMonotone(t.Covered(), t.maxDebt, t.debtPrice, t.debtDecimals);
    SeizureOfShare(t);
    ShareNonNeg(t);
    assert t.Received() <= t.Seized() <= t.colBalance;
  }

  /** Taking gross from col for covered clears the debt, exhausts the collateral or leaves 1000 USD of each. */
  ghost predicate NoDustLeft(debt: AssetData, covered: int, col: AssetData, gross: int) {
    && gross <= col.balance
    && (|| covered == debt.balance
        || gross == col.balance
        || (&& ValueInBaseCurrency(debt.balance - covered, debt.price, debt.decimals) >= MIN_LEFTOVER_BASE
            && ValueInBaseCurrency(col.balance - gross, col.price, col.decimals) >= MIN_LEFTOVER_BASE))
  }

  lemma ShareNonNeg(t: Pair)
    requires t.Sound()
    ensures t.Received() >= 0
  {
    WithinAllowance(t);
    FeeSplit(t);
    DivNonNeg(t.Seized() * PERCENTAGE_FACTOR, t.bonus);
  }

  /** So the share is bounded like the gross. */
  lemma SeizureOfShare(t: Pair)
    requires t.Sound()
    ensures t.Received() * t.colPrice * t.DebtUnit() * 10000
         <= (t.Covered() * t.bonus + 10000) * t.debtPrice * t.ColUnit()
  {
    FeeSplit(t);
    SeizureOverDenominators(t);
    ProductsPositive(t.colPrice, t.DebtUnit());
    ProductsPositive(t.debtPrice, t.ColUnit());
    MulLe(t.colPrice * t.DebtUnit(), t.Received(), t.Seized());
    Ungroup(t.Received(), t.colPrice, t.DebtUnit(), t.Covered() * t.bonus, 10000, t.debtPrice, t.ColUnit());
  }

  /** 99.5% of the exact value of the collateral received exceeds the exact debt with its flash-loan fee. */
  predicate RecipePays(m: Market, r: LiquidationRecipe)
    requires m.HasData(r.debtAsset) && m.HasData(r.collateralAsset)
  {
    r.debtToCover * m.prices[r.debtAsset] * 10005 * Pow(10, m.configs[r.collateralAsset].decimals)
      < r.expectedSeizedAmount * m.prices[r.collateralAsset] * 9950 * Pow(10, m.configs[r.debtAsset].decimals)
  }

  /** A returned recipe pays in exact rationals when one unit of the debt token is worth at most 10000/9995 of
      0.01 USD, and a little above that when price and unit have a common divisor h. */
  lemma RecipeProfitIsReal(
    m: Market, p: Position, hf: int, keys: seq<Address>, user: Address, r: LiquidationRecipe, h: int)
    requires Computable(m, p) && Optimal(m, p, hf, keys, user, Some(r))
    requires h > 0 && m.prices[r.debtAsset] % h == 0 && Pow(10, m.configs[r.debtAsset].decimals) % h == 0
    requires 9995 * m.prices[r.debtAsset] < 10000 * (GAS_COST_USD * Pow(10, m.configs[r.debtAsset].decimals) + h)
    ensures RecipePays(m, r)
  {
    ProfitIsReal(PairOf(m, p, hf, keys, r.debtAsset, r.collateralAsset), h);
  }

  // ---------- Exactly which recipes can be trusted ----------

  /** One run of the search that returned a recipe. */
  datatype Search = Search(m: Market, p: Position, hf: int, keys: seq<Address>, r: LiquidationRecipe)
  {
    ghost predicate Returned() {
      Computable(m, p) && Enumerates(keys, p.reserves) && Optimal(m, p, hf, keys, r.userAddress, Some(r))
    }
  }

  /** Every recipe that repays a debt token of this price and these decimals pays in exact rationals. */
  ghost predicate RecipesTrustworthy(price: int, decimals: nat) {
    forall s: Search ::
      s.Returned() && s.m.prices[s.r.debtAsset] == price && s.m.configs[s.r.debtAsset].decimals == decimals
      ==> RecipePays(s.m, s.r)
  }

  /** A debt of c tokens against 100 collateral units worth v. */
  function SingleMarket(price: int, decimals: nat, v: int): Market {
    var index := GlobalIndex(RAY, RAY, 0);
    Market(map["d" := price, "c" := v], map["d" := index, "c" := index],
           map["d" := AssetConfig(decimals, 0, 0, 0, 0), "c" := AssetConfig(2, 0, 10102, 0, 0)], map[])
  }

  function SinglePosition(c: int): Position {
    Position(map["d" := Reserve("d", 0, c, false), "c" := Reserve("c", 100, 0, true)], 0, false)
  }

  lemma SinglePair(c: int, price: int, decimals: nat, v: int)
    requires c > 0 && price > 0 && v > 0
    ensures var m, p := SingleMarket(price, decimals, v), SinglePosition(c);
            && Computable(m, p) && Enumerates(["d", "c"], p.reserves)
            && (forall a :: IsDebt(m, p, a) <==> a == "d") && (forall a :: IsCollateral(m, p, a) <==> a == "c")
            && PairOf(m, p, 0, ["d", "c"], "d", "c") == HundredFor(c, price, decimals, v)
  {
    DivIs(c * RAY + RAY / 2, RAY, c);
    DivIs(100 * RAY + RAY / 2, RAY, 100);
  }

  /** The recipe of a misleading pair, as the only pair of its position. */
  lemma MisleadingRecipe(c: int, price: int, decimals: nat, v: int)
    requires c > 0 && price > 0 && v > 0 && Misleading(HundredFor(c, price, decimals, v))
    ensures !RecipesTrustworthy(price, decimals)
  {
    var m, p, t := SingleMarket(price, decimals, v), SinglePosition(c), HundredFor(c, price, decimals, v);
    SinglePair(c, price, decimals, v);
    var r := LiquidationRecipe("u", "d", "c", t.Covered(), t.Received(), t.NetProfit(), t.bonus);
    var s := Search(m, p, 0, ["d", "c"], r);
    assert s.Returned();
    assert !RecipePays(s.m, s.r);
  }

  lemma HonestRecipe(s: Search)
    requires s.Returned()
    requires NoAmountDeceives(s.m.prices[s.r.debtAsset], Pow(10, s.m.configs[s.r.debtAsset].decimals))
    ensures RecipePays(s.m, s.r)
  {
    var t := PairOf(s.m, s.p, s.hf, s.keys, s.r.debtAsset, s.r.collateralAsset);
    NoAmountAtAll(t.Covered(), t.debtPrice, t.DebtUnit());
    if !Pays(t) { WrongEstimateDeceives(t); }
  }

  lemma DeceivedSearch(c: int, price: int, decimals: nat)
    requires c >= 0 && price > 0 && Deceives(c, price, Pow(10, decimals))
    ensures !RecipesTrustworthy(price, decimals)
  {
    BreakEvenCovers(c, price, Pow(10, decimals));
    assert c > 0;
    DeceivingPair(c, price, decimals);
    MisleadingRecipe(c, price, decimals, BreakEven(c, price, Pow(10, decimals)));
  }

  /** At a price every returned recipe pays in exact rationals if and only if no amount of the debt token below
      the period deceives. */
  lemma RecipesTrustworthyIff(price: int, decimals: nat)
    requires price > 0
    ensures RecipesTrustworthy(price, decimals) <==> NoAmountDeceives(price, Pow(10, decimals))
  {
    var u := Pow(10, decimals);
    if NoAmountDeceives(price, u) {
      forall s: Search |
        s.Returned() && s.m.prices[s.r.debtAsset] == price && s.m.configs[s.r.debtAsset].decimals == decimals
        ensures RecipePays(s.m, s.r)
      {
        HonestRecipe(s);
      }
    } else {
      var c :| 0 <= c < PERIOD * u && Deceives(c, price, u);
      DeceivedSearch(c, price, decimals);
    }
  }
}
