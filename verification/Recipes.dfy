// internal/engine/strategy_engine.go: what a returned recipe means in terms of the stored numbers alone.
module Recipes {
  import opened Models
  import opened RayMath
  import opened Sums
  import opened Liquidation
  import opened Settlement
  import opened Bitmaps
  import opened StrategyEngine

  // ---------- The two assets ----------

  predicate Listed(m: Market, p: Position, a: Address) {
    a in p.reserves && a in m.prices && a in m.indices && a in m.configs
  }

  /** An asset is a debt exactly when it is listed and its scaled debt is positive; the search then knows its
      displayed debt, price and decimals. */
  lemma DebtAssetExact(m: Market, p: Position, a: Address)
    ensures IsDebt(m, p, a) <==> Listed(m, p, a) && p.reserves[a].debt > 0
    ensures IsDebt(m, p, a) ==>
      var x := DebtData(m, p, a);
      && Displays(x.balance, p.reserves[a].debt, m.indices[a].variableBorrowIndex)
      && x.price == m.prices[a] && x.decimals == m.configs[a].decimals
      && IsWorth(DebtBase(m, p)(a), x.balance, x.price, Pow(10, x.decimals))
    ensures !IsDebt(m, p, a) ==> DebtBase(m, p)(a) == 0
  {
    if IsDebt(m, p, a) {
      DisplayedAndWorth(p.reserves[a].debt, m.indices[a].variableBorrowIndex, m.prices[a], m.configs[a].decimals);
    }
  }

  lemma CollateralAssetExact(m: Market, p: Position, a: Address)
    ensures IsCollateral(m, p, a) <==> Listed(m, p, a) && p.reserves[a].collateral && p.reserves[a].aToken > 0
    ensures IsCollateral(m, p, a) ==>
      var x := CollateralData(m, p, a);
      && Displays(x.balance, p.reserves[a].aToken, m.indices[a].liquidityIndex)
      && x.price == m.prices[a] && x.decimals == m.configs[a].decimals
      && IsWorth(CollateralBase(m, p)(a), x.balance, x.price, Pow(10, x.decimals))
    ensures !IsCollateral(m, p, a) ==> CollateralBase(m, p)(a) == 0
  {
    if IsCollateral(m, p, a) {
      DisplayedAndWorth(p.reserves[a].aToken, m.indices[a].liquidityIndex, m.prices[a], m.configs[a].decimals);
    }
  }

  /** The bonus of a listed asset: the category's when the position's fetched category is known and lists the
      reserve, else its own. */
  function BonusMeans(m: Market, p: Position, a: Address): int
    requires a in m.configs
  {
    if && p.eModeFetched && p.eModeCategoryId != 0 && p.eModeCategoryId in m.categories
       && m.configs[a].reserveId in IdsOf(m.categories[p.eModeCategoryId].collateralBitmap)
    then m.categories[p.eModeCategoryId].liquidationBonus
    else m.configs[a].liquidationBonus
  }

  lemma BonusByIds(m: Market, p: Position, a: Address)
    requires IsCollateral(m, p, a)
    ensures Bonus(m, p, a) == BonusMeans(m, p, a)
  {
    if p.eModeCategoryId in m.categories {
      BitIsListed(m.categories[p.eModeCategoryId].collateralBitmap, m.configs[a].reserveId);
    }
  }

  // ---------- The pair ----------

  /** t pairs debt d with collateral c of the position, as stored. */
  ghost predicate PairMeans(
    m: Market, p: Position, hf: int, totalDebt: int, totalCollateral: int, d: Address, c: Address, t: Pair)
    requires Listed(m, p, d) && Listed(m, p, c)
  {
    && p.reserves[d].debt > 0 && p.reserves[c].aToken > 0 && p.reserves[c].collateral
    && Displays(t.debtBalance, p.reserves[d].debt, m.indices[d].variableBorrowIndex)
    && Displays(t.colBalance, p.reserves[c].aToken, m.indices[c].liquidityIndex)
    && t.debtPrice == m.prices[d] && t.debtDecimals == m.configs[d].decimals
    && t.colPrice == m.prices[c] && t.colDecimals == m.configs[c].decimals
    && t.bonus == BonusMeans(m, p, c) && t.fee == m.configs[c].liquidationProtocolFee
    && IsAllowance(t.maxDebt, t.debtBalance, t.debtPrice, Pow(10, t.debtDecimals), totalDebt, totalCollateral, hf)
  }

  lemma PairExact(m: Market, p: Position, hf: int, keys: seq<Address>, d: Address, c: Address)
    requires Computable(m, p) && IsDebt(m, p, d) && IsCollateral(m, p, c)
    ensures PairMeans(m, p, hf, Sum(DebtBase(m, p), keys), Sum(CollateralBase(m, p), keys), d, c,
                      PairOf(m, p, hf, keys, d, c))
  {
    DebtAssetExact(m, p, d);
    CollateralAssetExact(m, p, c);
    BonusByIds(m, p, c);
    var x := DebtData(m, p, d);
    AllowanceExact(x.balance, x.price, x.decimals, Sum(DebtBase(m, p), keys), Sum(CollateralBase(m, p), keys), hf);
  }

  /** Taking gross for covered clears the debt, exhausts the collateral, or leaves 1000 USD on both sides. */
  predicate LeavesEnough(t: Pair, covered: int, gross: int) {
    || covered == t.debtBalance
    || gross == t.colBalance
    || (&& (t.debtBalance - covered) * t.debtPrice >= 1000 * 1_0000_0000 * Pow(10, t.debtDecimals)
        && (t.colBalance - gross) * t.colPrice >= 1000 * 1_0000_0000 * Pow(10, t.colDecimals))
  }

  /** Nothing else is excluded from the search: every debt and every collateral whose settlement leaves enough is
      a candidate, and no other pair is. */
  lemma CandidateIff(m: Market, p: Position, hf: int, keys: seq<Address>, d: Address, c: Address)
    requires Computable(m, p) && BonusesSound(m, p)
    ensures Candidate(m, p, hf, keys, d, c) <==>
      && Listed(m, p, d) && p.reserves[d].debt > 0
      && Listed(m, p, c) && p.reserves[c].collateral && p.reserves[c].aToken > 0
      && IsDebt(m, p, d) && IsCollateral(m, p, c)
      && var t := PairOf(m, p, hf, keys, d, c);
         LeavesEnough(t, t.Covered(), t.Seized())
    ensures IsDebt(m, p, d) <==> Listed(m, p, d) && p.reserves[d].debt > 0
    ensures IsCollateral(m, p, c) <==> Listed(m, p, c) && p.reserves[c].collateral && p.reserves[c].aToken > 0
  {
    DebtAssetExact(m, p, d);
    CollateralAssetExact(m, p, c);
    if IsDebt(m, p, d) && IsCollateral(m, p, c) {
      PairIsSound(m, p, hf, keys, d, c);
      DustIff(PairOf(m, p, hf, keys, d, c));
    }
  }

  // ---------- The recipe ----------

  /** r settles the pair t: covered debt, gross less fee, and an estimate that is revenue less cost less gas. */
  ghost predicate RecipeMeans(t: Pair, user: Address, r: LiquidationRecipe) {
    && r.userAddress == user && r.liquidationBonusBps == t.bonus
    && exists gross, fee, cost, revenue ::
         && Settles(t, r.debtToCover, gross, fee)
         && LeavesEnough(t, r.debtToCover, gross)
         && r.expectedSeizedAmount == gross - fee
         && Estimates(t, r.debtToCover, r.expectedSeizedAmount, cost, revenue)
         && r.expectedProfitUSD == revenue - cost - 1_000_000
  }

  lemma RecipeExact(m: Market, p: Position, hf: int, keys: seq<Address>, user: Address, r: LiquidationRecipe)
    requires Computable(m, p) && BonusesSound(m, p)
    requires Optimal(m, p, hf, keys, user, Some(r))
    ensures Listed(m, p, r.debtAsset) && Listed(m, p, r.collateralAsset)
    ensures exists t ::
      && PairMeans(m, p, hf, Sum(DebtBase(m, p), keys), Sum(CollateralBase(m, p), keys),
                   r.debtAsset, r.collateralAsset, t)
      && RecipeMeans(t, user, r)
  {
    var t := PairOf(m, p, hf, keys, r.debtAsset, r.collateralAsset);
    PairExact(m, p, hf, keys, r.debtAsset, r.collateralAsset);
    PairIsSound(m, p, hf, keys, r.debtAsset, r.collateralAsset);
    PairSettles(t);
    DustIff(t);
    EstimateExact(t);
    var gross, fee, cost, revenue := t.Seized(), t.ProtocolFee(), t.CostUSD(), t.RevenueUSD();
    assert Settles(t, r.debtToCover, gross, fee) && Estimates(t, r.debtToCover, r.expectedSeizedAmount, cost, revenue);
    assert RecipeMeans(t, user, r);
  }
}
