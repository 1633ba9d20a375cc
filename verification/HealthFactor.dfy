// internal/engine/risk_engine.go: the health factor of a position.
module HealthFactor {
  import opened Models
  import opened RayMath
  import opened Sums

  const MIN_DEBT_THRESHOLD: int := 100000000

  datatype RiskSnapshot = RiskSnapshot(
    healthFactor: int,
    rawCollateralBase: int,
    totalCollateralBase: int,
    totalDebtBase: int,
    calculatedAtBlock: uint64)

  /** The E-Mode under which a position is evaluated. */
  datatype EMode = EMode(fetched: bool, category: uint8)

  // ---------- Contributions of one reserve ----------

  predicate Idle(r: Reserve) {
    r.aToken == 0 && r.debt == 0
  }

  /** A non-empty reserve whose price, index or configuration is unknown. */
  predicate Unpriced(m: Market, p: Position, k: Address) {
    k in p.reserves && !Idle(p.reserves[k]) && !m.HasData(p.reserves[k].assetAddress)
  }

  function LiquidationThresholdOf(m: Market, cfg: AssetConfig, e: EMode): uint16 {
    if e.fetched && e.category != 0 && e.category in m.categories
       && Bit(m.categories[e.category].collateralBitmap, cfg.reserveId)
    then m.categories[e.category].liquidationThreshold
    else cfg.liquidationThreshold
  }

  function TokenValue(m: Market, asset: Address, amount: int): int
    requires m.HasData(asset)
  {
    amount * m.prices[asset] / Pow(10, m.configs[asset].decimals)
  }

  /** USD value of the reserve as collateral; 0 when it is not used as collateral. */
  function CollateralValue(m: Market, r: Reserve): int {
    if m.HasData(r.assetAddress) && r.collateral && r.aToken > 0
    then TokenValue(m, r.assetAddress, RayMul(r.aToken, m.indices[r.assetAddress].liquidityIndex))
    else 0
  }

  function DebtValue(m: Market, r: Reserve): int {
    if m.HasData(r.assetAddress) && r.debt > 0
    then TokenValue(m, r.assetAddress, RayMul(r.debt, m.indices[r.assetAddress].variableBorrowIndex))
    else 0
  }

  function ReserveLt(m: Market, r: Reserve, e: EMode): uint16 {
    if m.HasData(r.assetAddress) then LiquidationThresholdOf(m, m.configs[r.assetAddress], e) else 0
  }

  function RawAt(m: Market, p: Position): Address -> int {
    k => if k in p.reserves then CollateralValue(m, p.reserves[k]) else 0
  }

  function WeightedAt(m: Market, p: Position, e: EMode): Address -> int {
    k => if k in p.reserves then CollateralValue(m, p.reserves[k]) * ReserveLt(m, p.reserves[k], e) else 0
  }

  function DebtAt(m: Market, p: Position): Address -> int {
    k => if k in p.reserves then DebtValue(m, p.reserves[k]) else 0
  }

  // ---------- The snapshot ----------

  function Quotient(weighted: int, debt: int): int
    requires debt != 0
  {
    weighted * WAD / 10000 / debt
  }

  /** The snapshot of a position whose reserves are visited in the order keys; None without debt or with
      a non-empty reserve that cannot be priced. */
  function Snapshot(m: Market, p: Position, e: EMode, keys: seq<Address>, block: uint64): Option<RiskSnapshot> {
    var debt := Sum(DebtAt(m, p), keys);
    var weighted := Sum(WeightedAt(m, p, e), keys);
    if (exists i :: 0 <= i < |keys| && Unpriced(m, p, keys[i])) || debt == 0 then None
    else Some(RiskSnapshot(Quotient(weighted, debt), Sum(RawAt(m, p), keys), weighted, debt, block))
  }

  /** The threshold of an asset with the E-Mode override. */
  method SelectThreshold(m: Market, cfg: AssetConfig, e: EMode) returns (ltToUse: uint16)
    ensures ltToUse == LiquidationThresholdOf(m, cfg, e)
  {
    ltToUse := cfg.liquidationThreshold;
    if e.fetched && e.category != 0 {
      if e.category in m.categories {
        var eModeCategory := m.categories[e.category];
        if Bit(eModeCategory.collateralBitmap, cfg.reserveId) {
          ltToUse := eModeCategory.liquidationThreshold;
        }
      }
    }
  }

  method ComputeHFMath(m: Market, position: Position, e: EMode, order: seq<Address>, startBlock: uint64)
    returns (r: Option<RiskSnapshot>)
    requires Enumerates(order, position.reserves)
    ensures r == Snapshot(m, position, e, order, startBlock)
  {
    var rawCollateralBase, totalCollateralBase, totalDebtBase := 0, 0, 0;
    for k := 0 to |order|
      invariant rawCollateralBase == Sum(RawAt(m, position), order[..k])
      invariant totalCollateralBase == Sum(WeightedAt(m, position, e), order[..k])
      invariant totalDebtBase == Sum(DebtAt(m, position), order[..k])
      invariant forall i :: 0 <= i < k ==> !Unpriced(m, position, order[i])
    {
      assert order[..k + 1][..k] == order[..k];
      var res := position.reserves[order[k]];
      if res.aToken == 0 && res.debt == 0 {
        continue;
      }
      var asset := res.assetAddress;
      if !m.HasData(asset) {
        assert Unpriced(m, position, order[k]);
        return None;
      }
      var price, idx, cfg := m.prices[asset], m.indices[asset], m.configs[asset];
      var assetUnit := Pow(10, cfg.decimals);
      var ltToUse := SelectThreshold(m, cfg, e);
      if res.collateral && res.aToken > 0 {
        var actualBal := RayMul(res.aToken, idx.liquidityIndex);
        var value := actualBal * price / assetUnit;
        rawCollateralBase := rawCollateralBase + value;
        totalCollateralBase := totalCollateralBase + value * ltToUse;
      }
      if res.debt > 0 {
        var actualDebt := RayMul(res.debt, idx.variableBorrowIndex);
        totalDebtBase := totalDebtBase + actualDebt * price / assetUnit;
      }
    }
    assert order[..|order|] == order;
    if totalDebtBase == 0 {
      return None;
    }
    r := Some(RiskSnapshot(totalCollateralBase * WAD / 10000 / totalDebtBase,
                           rawCollateralBase, totalCollateralBase, totalDebtBase, startBlock));
  }

  // ---------- Exactness ----------

  /** The nested floors never change a comparison with an integer bound. */
  lemma QuotientExact(weighted: int, debt: int, k: int)
    requires debt > 0
    ensures Quotient(weighted, debt) < k <==> weighted * WAD < k * 10000 * debt
  {
    DivLt(weighted * WAD / 10000, debt, k);
    DivLt(weighted * WAD, 10000, debt * k);
    assert 10000 * (debt * k) == k * 10000 * debt;
  }

  /** In a sound market every contribution is non-negative, so a snapshot has positive debt. */
  lemma SnapshotDebtPositive(m: Market, p: Position, e: EMode, keys: seq<Address>, block: uint64)
    requires m.Sound() && Snapshot(m, p, e, keys, block).Some?
    ensures Snapshot(m, p, e, keys, block).value.totalDebtBase > 0
  {
    forall k | k in keys ensures DebtAt(m, p)(k) >= 0 {
      if k in p.reserves { DebtValueNonNeg(m, p.reserves[k]); }
    }
    SumBounds(DebtAt(m, p), keys, "");
  }

  lemma TokenValueMonotone(m: Market, a: Address, x: int, y: int)
    requires m.Sound() && m.HasData(a) && x <= y
    ensures TokenValue(m, a, x) <= TokenValue(m, a, y)
    ensures x >= 0 ==> TokenValue(m, a, x) >= 0
  {
    MulLe(m.prices[a], x, y);
    DivMono(x * m.prices[a], y * m.prices[a], Pow(10, m.configs[a].decimals));
    if x >= 0 {
      MulLe(m.prices[a], 0, x);
      DivNonNeg(x * m.prices[a], Pow(10, m.configs[a].decimals));
    }
  }

  lemma DebtValueNonNeg(m: Market, r: Reserve)
    requires m.Sound()
    ensures DebtValue(m, r) >= 0
  {}

  lemma CollateralValueNonNeg(m: Market, r: Reserve)
    requires m.Sound()
    ensures CollateralValue(m, r) >= 0
  {
    if m.HasData(r.assetAddress) && r.collateral && r.aToken > 0 {
      var x := RayMul(r.aToken, m.indices[r.assetAddress].liquidityIndex);
      RayMulNonNeg(r.aToken, m.indices[r.assetAddress].liquidityIndex);
      TokenValueMonotone(m, r.assetAddress, x, x);
    }
  }

  /** Liquidatable (and at risk) in the fixed-point calculation exactly when so in exact arithmetic:
      HF < 1 iff the LT-weighted collateral is below 10000 times the debt, HF < 1.05 iff 100 times it is
      below 1050000 times the debt, for any number of reserves. */
  lemma HealthFactorExact(m: Market, p: Position, e: EMode, keys: seq<Address>, block: uint64)
    requires m.Sound() && Snapshot(m, p, e, keys, block).Some?
    ensures var s := Snapshot(m, p, e, keys, block).value;
            && (s.healthFactor < HF_LIQUIDATION_THRESHOLD
                <==> Sum(WeightedAt(m, p, e), keys) < 10000 * Sum(DebtAt(m, p), keys))
            && (s.healthFactor < HF_SAFETY_THRESHOLD
                <==> 100 * Sum(WeightedAt(m, p, e), keys) < 1050000 * Sum(DebtAt(m, p), keys))
  {
    SnapshotDebtPositive(m, p, e, keys, block);
    var s := Snapshot(m, p, e, keys, block).value;
    QuotientExact(s.totalCollateralBase, s.totalDebtBase, HF_LIQUIDATION_THRESHOLD);
    QuotientExact(s.totalCollateralBase, s.totalDebtBase, HF_SAFETY_THRESHOLD);
  }

  /** The snapshot does not depend on the order in which Go iterates over the reserves. */
  lemma SnapshotIndependentOfOrder(m: Market, p: Position, e: EMode, k1: seq<Address>, k2: seq<Address>, block: uint64)
    requires Enumerates(k1, p.reserves) && Enumerates(k2, p.reserves)
    ensures Snapshot(m, p, e, k1, block) == Snapshot(m, p, e, k2, block)
  {
    EnumerationsPermute(k1, k2, p.reserves);
    SumPermutation(DebtAt(m, p), k1, k2);
    SumPermutation(RawAt(m, p), k1, k2);
    SumPermutation(WeightedAt(m, p, e), k1, k2);
    UnpricedEither(m, p, k1, k2);
    UnpricedEither(m, p, k2, k1);
  }

  lemma UnpricedEither(m: Market, p: Position, k1: seq<Address>, k2: seq<Address>)
    requires Enumerates(k1, p.reserves) && Enumerates(k2, p.reserves)
    ensures (exists i :: 0 <= i < |k1| && Unpriced(m, p, k1[i])) ==> exists j :: 0 <= j < |k2| && Unpriced(m, p, k2[j])
  {}

  // ---------- Monotonicity ----------

  /** More weighted collateral never lowers the quotient, more debt never raises it. */
  lemma QuotientMonotone(w1: int, d1: int, w2: int, d2: int)
    requires 0 <= w1 <= w2 && 0 < d2 <= d1
    ensures Quotient(w1, d1) <= Quotient(w2, d2)
  {
    var k := Quotient(w2, d2) + 1;
    DivNonNeg(w2 * WAD, 10000);
    DivNonNeg(w2 * WAD / 10000, d2);
    QuotientExact(w2, d2, k);
    QuotientExact(w1, d1, k);
    assert w1 * WAD < k * 10000 * d1 by { MulLe(k * 10000, d2, d1); }
  }

  lemma WeightedNonNeg(m: Market, p: Position, e: EMode, keys: seq<Address>)
    requires m.Sound()
    ensures Sum(WeightedAt(m, p, e), keys) >= 0
  {
    forall k | k in keys ensures WeightedAt(m, p, e)(k) >= 0 {
      if k in p.reserves { CollateralValueNonNeg(m, p.reserves[k]); }
    }
    SumBounds(WeightedAt(m, p, e), keys, "");
  }

  /** q has at least the weighted collateral and at most the debt of p in every reserve. */
  ghost predicate SaferThan(m: Market, p: Position, e1: EMode, q: Position, e2: EMode) {
    && (forall k :: WeightedAt(m, p, e1)(k) <= WeightedAt(m, q, e2)(k))
    && (forall k :: DebtAt(m, q)(k) <= DebtAt(m, p)(k))
  }

  /** A position that is safer reserve by reserve has at least the health factor of the other. */
  lemma SaferHasHigherFactor(
    m: Market, p: Position, e1: EMode, q: Position, e2: EMode, keys: seq<Address>, block: uint64)
    requires m.Sound() && SaferThan(m, p, e1, q, e2)
    requires Snapshot(m, p, e1, keys, block).Some? && Snapshot(m, q, e2, keys, block).Some?
    ensures Snapshot(m, p, e1, keys, block).value.healthFactor <= Snapshot(m, q, e2, keys, block).value.healthFactor
  {
    SnapshotDebtPositive(m, p, e1, keys, block);
    SnapshotDebtPositive(m, q, e2, keys, block);
    WeightedNonNeg(m, p, e1, keys);
    SumMonotone(WeightedAt(m, p, e1), WeightedAt(m, q, e2), keys);
    SumMonotone(DebtAt(m, q), DebtAt(m, p), keys);
    QuotientMonotone(Sum(WeightedAt(m, p, e1), keys), Sum(DebtAt(m, p), keys),
                     Sum(WeightedAt(m, q, e2), keys), Sum(DebtAt(m, q), keys));
  }

  lemma CollateralValueMonotone(m: Market, r: Reserve, aToken: int)
    requires m.Sound() && r.aToken <= aToken
    ensures CollateralValue(m, r) <= CollateralValue(m, r.(aToken := aToken))
  {
    CollateralValueNonNeg(m, r.(aToken := aToken));
    if m.HasData(r.assetAddress) {
      var i := m.indices[r.assetAddress].liquidityIndex;
      RayMulMonotone(r.aToken, aToken, i);
      TokenValueMonotone(m, r.assetAddress, RayMul(r.aToken, i), RayMul(aToken, i));
    }
  }

  lemma DebtValueMonotone(m: Market, r: Reserve, debt: int)
    requires m.Sound() && debt <= r.debt
    ensures DebtValue(m, r.(debt := debt)) <= DebtValue(m, r)
  {
    DebtValueNonNeg(m, r);
    if m.HasData(r.assetAddress) {
      var i := m.indices[r.assetAddress].variableBorrowIndex;
      RayMulMonotone(debt, r.debt, i);
      TokenValueMonotone(m, r.assetAddress, RayMul(debt, i), RayMul(r.debt, i));
    }
  }

  function WithBalances(p: Position, k: Address, aToken: int, debt: int): Position
    requires k in p.reserves
  {
    p.(reserves := p.reserves[k := p.reserves[k].(aToken := aToken, debt := debt)])
  }

  lemma BalancesSafer(m: Market, p: Position, e: EMode, k: Address, aToken: int, debt: int)
    requires m.Sound() && k in p.reserves
    requires p.reserves[k].aToken <= aToken && debt <= p.reserves[k].debt
    ensures SaferThan(m, p, e, WithBalances(p, k, aToken, debt), e)
  {
    var r := p.reserves[k];
    var s := r.(aToken := aToken, debt := debt);
    CollateralValueNonNeg(m, r);
    CollateralValueMonotone(m, r, aToken);
    DebtValueMonotone(m, r, debt);
    assert CollateralValue(m, s) == CollateralValue(m, r.(aToken := aToken));
    assert DebtValue(m, s) == DebtValue(m, r.(debt := debt));
    WeightedMonotone(CollateralValue(m, r), CollateralValue(m, s), ReserveLt(m, r, e), ReserveLt(m, s, e));
    var q := WithBalances(p, k, aToken, debt);
    forall j ensures WeightedAt(m, p, e)(j) <= WeightedAt(m, q, e)(j) {
      if j == k {
        assert WeightedAt(m, p, e)(j) == CollateralValue(m, r) * ReserveLt(m, r, e);
        assert WeightedAt(m, q, e)(j) == CollateralValue(m, s) * ReserveLt(m, s, e);
      } else {
        assert j in p.reserves <==> j in q.reserves;
      }
    }
  }

  lemma WeightedMonotone(x: int, y: int, lt1: int, lt2: int)
    requires 0 <= x <= y && 0 <= lt1 <= lt2
    ensures x * lt1 <= y * lt2
  {}

  /** Raising a scaled collateral never lowers the health factor, and lowering a scaled debt never does. */
  lemma HealthFactorMonotone(
    m: Market, p: Position, e: EMode, keys: seq<Address>, block: uint64, k: Address, aToken: int, debt: int)
    requires m.Sound() && k in p.reserves
    requires p.reserves[k].aToken <= aToken && debt <= p.reserves[k].debt
    requires Snapshot(m, p, e, keys, block).Some?
    requires Snapshot(m, WithBalances(p, k, aToken, debt), e, keys, block).Some?
    ensures Snapshot(m, p, e, keys, block).value.healthFactor
         <= Snapshot(m, WithBalances(p, k, aToken, debt), e, keys, block).value.healthFactor
  {
    BalancesSafer(m, p, e, k, aToken, debt);
    SaferHasHigherFactor(m, p, e, WithBalances(p, k, aToken, debt), e, keys, block);
  }
}
