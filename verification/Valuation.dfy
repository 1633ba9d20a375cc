// internal/engine/risk_engine.go: what a snapshot means in terms of the stored numbers alone, and that it agrees
// with what the liquidation search sees.
module Valuation {
  import opened Models
  import opened RayMath
  import opened Sums
  import opened HealthFactor
  import opened Liquidation
  import opened Settlement
  import opened Bitmaps
  import S = StrategyEngine
  import LE = LazyEMode

  // ---------- One reserve ----------

  predicate Priced(m: Market, a: Address) {
    a in m.prices && a in m.indices && a in m.configs
  }

  /** v is the worth of the displayed balance, and 0 without data, without flag or without balance. */
  ghost predicate CollateralMeans(m: Market, r: Reserve, v: int) {
    if Priced(m, r.assetAddress) && r.collateral && r.aToken > 0 then
      var a := r.assetAddress;
      exists shown :: Displays(shown, r.aToken, m.indices[a].liquidityIndex)
                      && IsWorth(v, shown, m.prices[a], Pow(10, m.configs[a].decimals))
    else v == 0
  }

  ghost predicate DebtMeans(m: Market, r: Reserve, v: int) {
    if Priced(m, r.assetAddress) && r.debt > 0 then
      var a := r.assetAddress;
      exists shown :: Displays(shown, r.debt, m.indices[a].variableBorrowIndex)
                      && IsWorth(v, shown, m.prices[a], Pow(10, m.configs[a].decimals))
    else v == 0
  }

  lemma CollateralExact(m: Market, r: Reserve)
    ensures CollateralMeans(m, r, CollateralValue(m, r))
  {
    if Priced(m, r.assetAddress) {
      var a := r.assetAddress;
      DisplayedAndWorth(r.aToken, m.indices[a].liquidityIndex, m.prices[a], m.configs[a].decimals);
    }
  }

  lemma DebtExact(m: Market, r: Reserve)
    ensures DebtMeans(m, r, DebtValue(m, r))
  {
    if Priced(m, r.assetAddress) {
      var a := r.assetAddress;
      DisplayedAndWorth(r.debt, m.indices[a].variableBorrowIndex, m.prices[a], m.configs[a].decimals);
    }
  }

  /** The liquidation threshold of a listed asset: the category's when the user's fetched category is known and lists
      the reserve, else its own. */
  function ThresholdMeans(m: Market, a: Address, fetched: bool, category: uint8): int
    requires a in m.configs
  {
    if && fetched && category != 0 && category in m.categories
       && m.configs[a].reserveId in IdsOf(m.categories[category].collateralBitmap)
    then m.categories[category].liquidationThreshold
    else m.configs[a].liquidationThreshold
  }

  lemma ThresholdByIds(m: Market, a: Address, e: EMode)
    requires a in m.configs
    ensures LiquidationThresholdOf(m, m.configs[a], e) == ThresholdMeans(m, a, e.fetched, e.category)
  {
    if e.category in m.categories {
      BitIsListed(m.categories[e.category].collateralBitmap, m.configs[a].reserveId);
    }
  }

  lemma {:induction false} PowAdds(d: nat, k: nat)
    ensures Pow(10, d + k) == Pow(10, d) * Pow(10, k)
  {
    if k > 0 {
      PowAdds(d, k - 1);
      assert Pow(10, d + k) == 10 * Pow(10, d + (k - 1));
    }
  }

  lemma CommonFactor(x: int, u: int, t: int)
    requires u > 0 && t > 0
    ensures u * t > 0 && x * t / (u * t) == x / u
  {
    ProductsPositive(u, t);
    var q := x / u;
    DivBracket(x, u);
    MulLe(t, u * q, x);
    MulLe(t, x + 1, u * q + u);
    assert t * (u * q) == (u * t) * q && t * (u * q + u) == (u * t) * q + u * t;
    assert t * (x + 1) == x * t + t;
    DivIs(x * t, u * t, q);
  }

  lemma ScaledAmount(amount: int, price: int, u: int, t: int, unit: int)
    requires u > 0 && t > 0 && unit == u * t && unit > 0
    ensures amount * t * price / unit == amount * price / u
  {
    CommonFactor(amount * price, u, t);
    assert amount * t * price == amount * price * t;
  }

  /** A value depends on the amount in whole tokens only: k more decimals and 10^k times the base units change
      nothing. */
  lemma DecimalsAreAUnit(m: Market, a: Address, amount: int, k: nat)
    requires m.HasData(a)
    ensures var cfg := m.configs[a];
            var n := m.(configs := m.configs[a := cfg.(decimals := cfg.decimals + k)]);
            TokenValue(n, a, amount * Pow(10, k)) == TokenValue(m, a, amount)
  {
    PowAdds(m.configs[a].decimals, k);
    ScaledAmount(amount, m.prices[a], Pow(10, m.configs[a].decimals), Pow(10, k), Pow(10, m.configs[a].decimals + k));
  }

  // ---------- The whole snapshot ----------

  /** s is the snapshot of p: the sums of the reserves' values, and a health factor that compares with every bound as
      the exact quotient does. */
  ghost predicate SnapshotMeans(
    m: Market, p: Position, fetched: bool, category: uint8, keys: seq<Address>, block: uint64, s: RiskSnapshot,
    debt: Address -> int, collateral: Address -> int, weighted: Address -> int)
  {
    && (forall k :: k in p.reserves ==>
          && DebtMeans(m, p.reserves[k], debt(k))
          && CollateralMeans(m, p.reserves[k], collateral(k))
          && var a := p.reserves[k].assetAddress;
             weighted(k) == collateral(k) * (if Priced(m, a) then ThresholdMeans(m, a, fetched, category) else 0))
    && s.calculatedAtBlock == block
    && s.totalDebtBase == Sum(debt, keys)
    && s.rawCollateralBase == Sum(collateral, keys)
    && s.totalCollateralBase == Sum(weighted, keys)
    && (s.totalDebtBase > 0 ==> forall x ::
          s.healthFactor < x <==> s.totalCollateralBase * 1_000_000_000_000_000_000 < x * 10000 * s.totalDebtBase)
  }

  lemma SnapshotExact(m: Market, p: Position, e: EMode, keys: seq<Address>, block: uint64)
    requires Snapshot(m, p, e, keys, block).Some?
    ensures SnapshotMeans(m, p, e.fetched, e.category, keys, block, Snapshot(m, p, e, keys, block).value,
                          DebtAt(m, p), RawAt(m, p), WeightedAt(m, p, e))
  {
    var s := Snapshot(m, p, e, keys, block).value;
    forall k | k in p.reserves
      ensures DebtMeans(m, p.reserves[k], DebtAt(m, p)(k)) && CollateralMeans(m, p.reserves[k], RawAt(m, p)(k))
    {
      DebtExact(m, p.reserves[k]);
      CollateralExact(m, p.reserves[k]);
    }
    forall a | a in m.configs
      ensures LiquidationThresholdOf(m, m.configs[a], e) == ThresholdMeans(m, a, e.fetched, e.category)
    {
      ThresholdByIds(m, a, e);
    }
    if s.totalDebtBase > 0 {
      forall x ensures s.healthFactor < x <==> s.totalCollateralBase * WAD < x * 10000 * s.totalDebtBase {
        QuotientExact(s.totalCollateralBase, s.totalDebtBase, x);
      }
    }
  }

  /** There is no snapshot exactly when a reserve with a balance lacks its price, index or configuration, or when
      no debt has a value. */
  lemma NoSnapshotIff(m: Market, p: Position, e: EMode, keys: seq<Address>, block: uint64)
    requires Enumerates(keys, p.reserves)
    ensures Snapshot(m, p, e, keys, block).None? <==>
      || (exists k :: k in p.reserves && (p.reserves[k].aToken != 0 || p.reserves[k].debt != 0)
                      && !Priced(m, p.reserves[k].assetAddress))
      || Sum(DebtAt(m, p), keys) == 0
  {
    if k :| k in p.reserves && Unpriced(m, p, k) {
      assert k in keys;
      var i :| 0 <= i < |keys| && keys[i] == k;
      assert Unpriced(m, p, keys[i]);
    }
  }

  /** The result of calculateHF is the snapshot under the category it leaves in the position, with the categories it
      leaves in the store. */
  lemma CalculateHFExact(m: Market, p: Position, keys: seq<Address>, replies: LE.Replies, block: uint64)
    requires LE.CalculateHF(m, p, keys, replies, block).snapshot.Some?
    ensures var o := LE.CalculateHF(m, p, keys, replies, block);
            var n := m.(categories := o.categories);
            && o.position.reserves == p.reserves
            && SnapshotMeans(n, p, o.position.eModeFetched, o.position.eModeCategoryId, keys, block, o.snapshot.value,
                             DebtAt(n, p), RawAt(n, p), WeightedAt(n, p, LE.LocalEMode(o.position)))
  {
    var o := LE.CalculateHF(m, p, keys, replies, block);
    var n := m.(categories := o.categories);
    assert n == m || n.categories == LE.LoadedCategories(m.categories, replies);
    assert o.snapshot == Snapshot(n, p, LE.LocalEMode(o.position), keys, block);
    SnapshotExact(n, p, LE.LocalEMode(o.position), keys, block);
  }

  // ---------- The search sees the same totals ----------

  /** Each reserve is stored under its own asset. */
  predicate OwnAssets(p: Position) {
    forall k :: k in p.reserves ==> p.reserves[k].assetAddress == k
  }

  /** A snapshot's debt and raw collateral are the totals on which the search bases the close factor. */
  lemma TotalsAgree(m: Market, p: Position, e: EMode, keys: seq<Address>, block: uint64)
    requires OwnAssets(p) && Snapshot(m, p, e, keys, block).Some?
    ensures Snapshot(m, p, e, keys, block).value.totalDebtBase == Sum(S.DebtBase(m, p), keys)
    ensures Snapshot(m, p, e, keys, block).value.rawCollateralBase == Sum(S.CollateralBase(m, p), keys)
  {
    forall k ensures DebtAt(m, p)(k) == S.DebtBase(m, p)(k) && RawAt(m, p)(k) == S.CollateralBase(m, p)(k) {}
    SumMonotone(DebtAt(m, p), S.DebtBase(m, p), keys);
    SumMonotone(S.DebtBase(m, p), DebtAt(m, p), keys);
    SumMonotone(RawAt(m, p), S.CollateralBase(m, p), keys);
    SumMonotone(S.CollateralBase(m, p), RawAt(m, p), keys);
  }
}
