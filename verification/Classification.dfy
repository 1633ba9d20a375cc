// What the lag of the local balances means for internal/engine/risk_engine.go: which users are surely classified
// as on the chain.
module Classification {
  import opened Models
  import opened RayMath
  import opened Sums
  import opened HealthFactor
  import opened Ledgers
  import opened Drift

  // ---------- One balance ----------

  /** Tokens by which a scaled lag can lower the displayed amount. */
  function AmountGap(lag: int, index: int): int {
    lag * index / RAY + 1
  }

  /** The floor of a sum is at most the sum of the floors plus one. */
  lemma FloorLag(x: int, gap: int, y: int, d: int)
    requires d > 0 && y <= x + gap
    ensures y / d <= x / d + gap / d + 1
  {
    DivBracket(x, d);
    DivBracket(gap, d);
    var q := x / d + gap / d + 2;
    assert d * q == d * (x / d) + d * (gap / d) + 2 * d;
    DivLt(y, d, q);
  }

  lemma AmountLag(local: int, chain: int, lag: int, index: int)
    requires local <= chain <= local + lag && index >= 0
    ensures RayMul(local, index) <= RayMul(chain, index) <= RayMul(local, index) + AmountGap(lag, index)
  {
    RayMulMonotone(local, chain, index);
    MulLe(index, chain, local + lag);
    assert index * (local + lag) == local * index + lag * index;
    FloorLag(local * index + RAY / 2, lag * index, chain * index + RAY / 2, RAY);
  }

  /** USD by which that can lower a value. */
  function ValueGap(m: Market, asset: Address, lag: int, index: int): int
    requires m.HasData(asset)
  {
    TokenValue(m, asset, AmountGap(lag, index)) + 1
  }

  lemma TokenValueLag(m: Market, a: Address, x: int, y: int, gap: int)
    requires m.Sound() && m.HasData(a) && x <= y <= x + gap
    ensures TokenValue(m, a, x) <= TokenValue(m, a, y) <= TokenValue(m, a, x) + TokenValue(m, a, gap) + 1
  {
    var price := m.prices[a];
    TokenValueMonotone(m, a, x, y);
    MulLe(price, y, x + gap);
    assert price * (x + gap) == x * price + gap * price;
    FloorLag(x * price, gap * price, y * price, Pow(10, m.configs[a].decimals));
  }

  lemma ValueGapNonNeg(m: Market, a: Address, lag: int, index: int)
    requires m.Sound() && m.HasData(a) && lag >= 0 && index >= 0
    ensures ValueGap(m, a, lag, index) >= 0
  {
    MulLe(index, 0, lag);
    DivNonNeg(lag * index, RAY);
    TokenValueMonotone(m, a, AmountGap(lag, index), AmountGap(lag, index));
  }

  lemma ScaledValueLag(m: Market, a: Address, local: int, chain: int, lag: int, index: int)
    requires m.Sound() && m.HasData(a) && 0 <= local <= chain <= local + lag && index >= 0
    ensures TokenValue(m, a, RayMul(local, index)) <= TokenValue(m, a, RayMul(chain, index))
         <= TokenValue(m, a, RayMul(local, index)) + ValueGap(m, a, lag, index)
  {
    AmountLag(local, chain, lag, index);
    TokenValueLag(m, a, RayMul(local, index), RayMul(chain, index), AmountGap(lag, index));
  }

  // ---------- One reserve ----------

  /** The local entry r follows the chain's entry s of asset a: same asset and flag, balances behind by at most
      the given amounts. */
  predicate Tracks(r: Reserve, s: Reserve, a: Address, aLag: int, dLag: int) {
    && r.assetAddress == s.assetAddress == a && r.collateral == s.collateral
    && Behind(r.aToken, s.aToken, aLag) && Behind(r.debt, s.debt, dLag)
  }

  function CollateralGap(m: Market, a: Address, aLag: int): int {
    if m.HasData(a) then ValueGap(m, a, aLag, m.indices[a].liquidityIndex) else 0
  }

  function DebtGap(m: Market, a: Address, dLag: int): int {
    if m.HasData(a) then ValueGap(m, a, dLag, m.indices[a].variableBorrowIndex) else 0
  }

  /** The value of an empty balance is that of no tokens. */
  lemma NoTokens(m: Market, a: Address, index: int)
    requires m.HasData(a)
    ensures TokenValue(m, a, RayMul(0, index)) == 0
  {
    DivIs(0 * index + RAY / 2, RAY, 0);
    DivIs(0 * m.prices[a], Pow(10, m.configs[a].decimals), 0);
  }

  lemma CollateralLag(m: Market, r: Reserve, s: Reserve, a: Address, aLag: int, dLag: int)
    requires m.Sound() && Tracks(r, s, a, aLag, dLag)
    ensures CollateralValue(m, r) <= CollateralValue(m, s) <= CollateralValue(m, r) + CollateralGap(m, a, aLag)
  {
    if m.HasData(a) {
      var i := m.indices[a].liquidityIndex;
      ValueGapNonNeg(m, a, aLag, i);
      NoTokens(m, a, i);
      ScaledValueLag(m, a, r.aToken, s.aToken, aLag, i);
    }
  }

  lemma DebtLag(m: Market, r: Reserve, s: Reserve, a: Address, aLag: int, dLag: int)
    requires m.Sound() && Tracks(r, s, a, aLag, dLag)
    ensures DebtValue(m, r) <= DebtValue(m, s) <= DebtValue(m, r) + DebtGap(m, a, dLag)
  {
    if m.HasData(a) {
      var i := m.indices[a].variableBorrowIndex;
      ValueGapNonNeg(m, a, dLag, i);
      NoTokens(m, a, i);
      ScaledValueLag(m, a, r.debt, s.debt, dLag, i);
    }
  }

  // ---------- A whole position ----------

  /** How far the local position of u may be behind, asset by asset. */
  datatype Lag = Lag(aToken: Address -> int, debt: Address -> int)

  ghost predicate PositionTracks(l: Ledger, c: Ledger, u: Address, lag: Lag) {
    forall a {:trigger ReserveOf(l, u, a)} ::
      Tracks(ReserveOf(l, u, a), ReserveOf(c, u, a), a, lag.aToken(a), lag.debt(a))
  }

  function Threshold(m: Market, a: Address, e: EMode): uint16 {
    if m.HasData(a) then LiquidationThresholdOf(m, m.configs[a], e) else 0
  }

  /** LT-weighted collateral, and debt, that the lag can hide in one asset. */
  function WeightedGapAt(m: Market, e: EMode, lag: Lag): Address -> int {
    a => CollateralGap(m, a, lag.aToken(a)) * Threshold(m, a, e)
  }

  function DebtGapAt(m: Market, lag: Lag): Address -> int {
    a => DebtGap(m, a, lag.debt(a))
  }

  /** Of an asset the position does not hold, the entry is empty and contributes nothing. */
  lemma Contribution(m: Market, l: Ledger, u: Address, e: EMode, a: Address)
    requires ReserveOf(l, u, a).assetAddress == a
    ensures WeightedAt(m, PositionOf(l, u), e)(a) == CollateralValue(m, ReserveOf(l, u, a)) * Threshold(m, a, e)
    ensures DebtAt(m, PositionOf(l, u))(a) == DebtValue(m, ReserveOf(l, u, a))
  {}

  lemma ScaleLag(x: int, y: int, gap: int, lt: int)
    requires x <= y <= x + gap && lt >= 0
    ensures x * lt <= y * lt <= x * lt + gap * lt
  {
    MulLe(lt, x, y);
    MulLe(lt, y, x + gap);
  }

  lemma ContributionLag(m: Market, l: Ledger, c: Ledger, u: Address, e: EMode, lag: Lag, a: Address)
    requires m.Sound() && PositionTracks(l, c, u, lag)
    ensures var p, q := PositionOf(l, u), PositionOf(c, u);
            && WeightedAt(m, p, e)(a) <= WeightedAt(m, q, e)(a) <= WeightedAt(m, p, e)(a) + WeightedGapAt(m, e, lag)(a)
            && DebtAt(m, p)(a) <= DebtAt(m, q)(a) <= DebtAt(m, p)(a) + DebtGapAt(m, lag)(a)
  {
    var r, s := ReserveOf(l, u, a), ReserveOf(c, u, a);
    assert Tracks(r, s, a, lag.aToken(a), lag.debt(a));
    Contribution(m, l, u, e, a);
    Contribution(m, c, u, e, a);
    CollateralLag(m, r, s, a, lag.aToken(a), lag.debt(a));
    DebtLag(m, r, s, a, lag.aToken(a), lag.debt(a));
    ScaleLag(CollateralValue(m, r), CollateralValue(m, s), CollateralGap(m, a, lag.aToken(a)), Threshold(m, a, e));
  }

  lemma {:induction false} SumLag<K>(f: K -> int, g: K -> int, gap: K -> int, keys: seq<K>)
    requires forall k :: f(k) <= g(k) <= f(k) + gap(k)
    ensures Sum(f, keys) <= Sum(g, keys) <= Sum(f, keys) + Sum(gap, keys)
  {
    if keys != [] {
      SumLag(f, g, gap, keys[..|keys| - 1]);
    }
  }

  // ---------- The classification ----------

  /** The chain's figures are so far on one side of the threshold that the lag cannot carry them across: the
      weighted collateral is below the threshold even against the debt that is surely seen, or reaches it even
      without the collateral that may be hidden. */
  predicate Clear(threshold: int, weighted: int, debt: int, weightedGap: int, debtGap: int) {
    || weighted * WAD < threshold * 10000 * (debt - debtGap)
    || (weighted - weightedGap) * WAD >= threshold * 10000 * debt
  }

  lemma ClearSide(threshold: int, w: int, d: int, wc: int, dc: int, weightedGap: int, debtGap: int)
    requires threshold >= 0 && d > 0 && dc > 0
    requires w <= wc <= w + weightedGap && d <= dc <= d + debtGap
    requires Clear(threshold, wc, dc, weightedGap, debtGap)
    ensures Quotient(w, d) < threshold <==> Quotient(wc, dc) < threshold
  {
    QuotientExact(w, d, threshold);
    QuotientExact(wc, dc, threshold);
    MulLe(threshold * 10000, dc - debtGap, d);
    MulLe(threshold * 10000, d, dc);
  }

  /** A local position that tracks the chain's puts the user on the chain's side of a threshold, whenever the
      chain's own figures are clear of it by the value of the lag. */
  lemma ClassifiedAsOnChain(
    m: Market, l: Ledger, c: Ledger, u: Address, e: EMode, keys: seq<Address>, block: uint64, lag: Lag, threshold: int)
    requires m.Sound() && PositionTracks(l, c, u, lag) && threshold >= 0
    requires Snapshot(m, PositionOf(l, u), e, keys, block).Some? && Snapshot(m, PositionOf(c, u), e, keys, block).Some?
    requires var s := Snapshot(m, PositionOf(c, u), e, keys, block).value;
             Clear(threshold, s.totalCollateralBase, s.totalDebtBase,
                   Sum(WeightedGapAt(m, e, lag), keys), Sum(DebtGapAt(m, lag), keys))
    ensures Snapshot(m, PositionOf(l, u), e, keys, block).value.healthFactor < threshold
       <==> Snapshot(m, PositionOf(c, u), e, keys, block).value.healthFactor < threshold
  {
    var p, q := PositionOf(l, u), PositionOf(c, u);
    forall a
      ensures WeightedAt(m, p, e)(a) <= WeightedAt(m, q, e)(a) <= WeightedAt(m, p, e)(a) + WeightedGapAt(m, e, lag)(a)
      ensures DebtAt(m, p)(a) <= DebtAt(m, q)(a) <= DebtAt(m, p)(a) + DebtGapAt(m, lag)(a)
    {
      ContributionLag(m, l, c, u, e, lag, a);
    }
    SumLag(WeightedAt(m, p, e), WeightedAt(m, q, e), WeightedGapAt(m, e, lag), keys);
    SumLag(DebtAt(m, p), DebtAt(m, q), DebtGapAt(m, lag), keys);
    SnapshotDebtPositive(m, p, e, keys, block);
    SnapshotDebtPositive(m, q, e, keys, block);
    ClearSide(threshold, Sum(WeightedAt(m, p, e), keys), Sum(DebtAt(m, p), keys),
              Sum(WeightedAt(m, q, e), keys), Sum(DebtAt(m, q), keys),
              Sum(WeightedGapAt(m, e, lag), keys), Sum(DebtGapAt(m, lag), keys));
  }
}
