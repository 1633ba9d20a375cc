// The dust rule over whole runs: how far the local balances may lag behind the chain's
// (internal/engine/log_replay_engine.go, internal/rpc/bootstrapper.go).
module Drift {
  import opened Models
  import opened RayMath
  import opened Events
  import opened Ledgers

  /** The ledger after a sequence of updates; `exact` is the chain's own bookkeeping, without the dust rule. */
  function RunAll(l: Ledger, ups: seq<Update>, exact: bool): Ledger {
    if ups == [] then l else ApplyUpdate(RunAll(l, ups[..|ups| - 1], exact), ups[|ups| - 1], exact)
  }

  ghost predicate IndicesNonNeg(l: Ledger) {
    forall a :: a in l.indices ==> l.indices[a].liquidityIndex >= 0 && l.indices[a].variableBorrowIndex >= 0
  }

  /** The chain emits unsigned amounts and indices, and never reduces a balance below zero. */
  ghost predicate NoOverdraw(c: Ledger, up: Update) {
    match up
    case SetIndex(_, i) => i.liquidityIndex >= 0 && i.variableBorrowIndex >= 0
    case Supplied(_, _, x) => x >= 0
    case Borrowed(_, _, x) => x >= 0
    case Withdrawn(u, a, x) =>
      x >= 0 && (HasLiquidityIndex(c, a) ==> RayDiv(x, c.indices[a].liquidityIndex) <= ReserveOf(c, u, a).aToken)
    case Repaid(u, a, x) =>
      x >= 0 && (HasBorrowIndex(c, a) ==> RayDiv(x, c.indices[a].variableBorrowIndex) <= ReserveOf(c, u, a).debt)
    case Liquidated(u, ca, da, x, y) =>
      && x >= 0 && y >= 0
      && (ca in c.indices && da in c.indices ==>
            && RayDiv(x, c.indices[da].variableBorrowIndex) <= ReserveOf(c, u, da).debt
            && RayDiv(y, c.indices[ca].liquidityIndex) <= ReserveOf(c, u, ca).aToken)
    case _ => true
  }

  ghost predicate SoundRun(c: Ledger, ups: seq<Update>) {
    forall k :: 0 <= k < |ups| ==> NoOverdraw(RunAll(c, ups[..k], true), ups[k])
  }

  /** The update reduces the scaled collateral, or the scaled debt, of u in a. */
  predicate CutsAToken(up: Update, u: Address, a: Address) {
    (up.Withdrawn? && up.user == u && up.asset == a) || (up.Liquidated? && up.user == u && up.collateralAsset == a)
  }

  predicate CutsDebt(up: Update, u: Address, a: Address) {
    (up.Repaid? && up.user == u && up.asset == a) || (up.Liquidated? && up.user == u && up.debtAsset == a)
  }

  function ATokenCuts(ups: seq<Update>, u: Address, a: Address): nat {
    if ups == [] then 0
    else ATokenCuts(ups[..|ups| - 1], u, a) + if CutsAToken(ups[|ups| - 1], u, a) then 1 else 0
  }

  function DebtCuts(ups: seq<Update>, u: Address, a: Address): nat {
    if ups == [] then 0
    else DebtCuts(ups[..|ups| - 1], u, a) + if CutsDebt(ups[|ups| - 1], u, a) then 1 else 0
  }

  /** 0 <= local <= chain <= local + lag. */
  predicate Behind(local: int, chain: int, lag: int) {
    0 <= local <= chain <= local + lag
  }

  /** Both balances of u in a are behind the chain by at most the given amounts. */
  predicate Lags(l: Ledger, c: Ledger, u: Address, a: Address, aLag: int, dLag: int) {
    && Behind(ReserveOf(l, u, a).aToken, ReserveOf(c, u, a).aToken, aLag)
    && Behind(ReserveOf(l, u, a).debt, ReserveOf(c, u, a).debt, dLag)
  }

  /** One reduction widens the gap by at most the dust threshold. */
  lemma ReduceBehind(local: int, chain: int, lag: int, x: int)
    requires Behind(local, chain, lag) && 0 <= x <= chain
    ensures Behind(Reduce(local, x, false), Reduce(chain, x, true), lag + DUST_THRESHOLD)
  {}

  lemma SetReserveAt(l: Ledger, v: Address, b: Address, r: Reserve, u: Address, a: Address)
    ensures ReserveOf(SetReserve(l, v, b, r), u, a) == if u == v && a == b then r else ReserveOf(l, u, a)
  {}

  /** A supply or borrow on both sides. */
  lemma IncreaseLags(l: Ledger, c: Ledger, up: Update, u: Address, a: Address, aLag: int, dLag: int)
    requires l.indices == c.indices && IndicesNonNeg(c) && NoOverdraw(c, up) && (up.Supplied? || up.Borrowed?)
    requires Lags(l, c, u, a, aLag, dLag)
    ensures Lags(ApplyUpdate(l, up, false), ApplyUpdate(c, up, true), u, a, aLag, dLag)
  {
    var r, t := ReserveOf(l, up.user, up.asset), ReserveOf(c, up.user, up.asset);
    if up.Supplied? && HasLiquidityIndex(c, up.asset) {
      var s := RayDiv(up.amount, c.indices[up.asset].liquidityIndex);
      RayDivNonNeg(up.amount, c.indices[up.asset].liquidityIndex);
      SetReserveAt(l, up.user, up.asset, r.(aToken := r.aToken + s), u, a);
      SetReserveAt(c, up.user, up.asset, t.(aToken := t.aToken + s), u, a);
    } else if up.Borrowed? && HasBorrowIndex(c, up.asset) {
      var s := RayDiv(up.amount, c.indices[up.asset].variableBorrowIndex);
      RayDivNonNeg(up.amount, c.indices[up.asset].variableBorrowIndex);
      SetReserveAt(l, up.user, up.asset, r.(debt := r.debt + s), u, a);
      SetReserveAt(c, up.user, up.asset, t.(debt := t.debt + s), u, a);
    }
  }

  /** An event without amounts on both sides. */
  lemma SettingLags(l: Ledger, c: Ledger, up: Update, u: Address, a: Address, aLag: int, dLag: int)
    requires up.Ignore? || up.SetIndex? || up.CollateralSet? || up.EModeSet?
    requires Lags(l, c, u, a, aLag, dLag)
    ensures Lags(ApplyUpdate(l, up, false), ApplyUpdate(c, up, true), u, a, aLag, dLag)
  {
    if up.CollateralSet? {
      SetReserveAt(l, up.user, up.asset, ReserveOf(l, up.user, up.asset).(collateral := up.enabled), u, a);
      SetReserveAt(c, up.user, up.asset, ReserveOf(c, up.user, up.asset).(collateral := up.enabled), u, a);
    }
  }

  /** A withdrawal or repayment on both sides. */
  lemma PaymentLags(l: Ledger, c: Ledger, up: Update, u: Address, a: Address, aLag: int, dLag: int)
    requires l.indices == c.indices && IndicesNonNeg(c) && NoOverdraw(c, up) && (up.Withdrawn? || up.Repaid?)
    requires Lags(l, c, u, a, aLag, dLag) && aLag >= 0 && dLag >= 0
    ensures Lags(ApplyUpdate(l, up, false), ApplyUpdate(c, up, true), u, a,
                 aLag + (if CutsAToken(up, u, a) then DUST_THRESHOLD else 0),
                 dLag + (if CutsDebt(up, u, a) then DUST_THRESHOLD else 0))
  {
    if up.Withdrawn? && HasLiquidityIndex(c, up.asset) {
      var i := c.indices[up.asset].liquidityIndex;
      RayDivNonNeg(up.amount, i);
      ReduceATokenLags(l, c, up.user, up.asset, RayDiv(up.amount, i), u, a, aLag, dLag);
    } else if up.Repaid? && HasBorrowIndex(c, up.asset) {
      var i := c.indices[up.asset].variableBorrowIndex;
      RayDivNonNeg(up.amount, i);
      ReduceDebtLags(l, c, up.user, up.asset, RayDiv(up.amount, i), u, a, aLag, dLag);
    }
  }

  lemma ReduceATokenLags(
    l: Ledger, c: Ledger, v: Address, b: Address, s: int, u: Address, a: Address, aLag: int, dLag: int)
    requires Lags(l, c, u, a, aLag, dLag) && 0 <= s <= ReserveOf(c, v, b).aToken
    ensures Lags(ReduceAToken(l, v, b, s, false), ReduceAToken(c, v, b, s, true), u, a,
                 aLag + (if u == v && a == b then DUST_THRESHOLD else 0), dLag)
  {
    var r, t := ReserveOf(l, v, b), ReserveOf(c, v, b);
    SetReserveAt(l, v, b, r.(aToken := Reduce(r.aToken, s, false)), u, a);
    SetReserveAt(c, v, b, t.(aToken := Reduce(t.aToken, s, true)), u, a);
    if u == v && a == b { ReduceBehind(r.aToken, t.aToken, aLag, s); }
  }

  lemma ReduceDebtLags(
    l: Ledger, c: Ledger, v: Address, b: Address, s: int, u: Address, a: Address, aLag: int, dLag: int)
    requires Lags(l, c, u, a, aLag, dLag) && 0 <= s <= ReserveOf(c, v, b).debt
    ensures Lags(ReduceDebt(l, v, b, s, false), ReduceDebt(c, v, b, s, true), u, a,
                 aLag, dLag + (if u == v && a == b then DUST_THRESHOLD else 0))
  {
    var r, t := ReserveOf(l, v, b), ReserveOf(c, v, b);
    SetReserveAt(l, v, b, r.(debt := Reduce(r.debt, s, false)), u, a);
    SetReserveAt(c, v, b, t.(debt := Reduce(t.debt, s, true)), u, a);
    if u == v && a == b { ReduceBehind(r.debt, t.debt, dLag, s); }
  }

  /** A liquidation on both sides. */
  lemma LiquidationLags(l: Ledger, c: Ledger, up: Update, u: Address, a: Address, aLag: int, dLag: int)
    requires l.indices == c.indices && IndicesNonNeg(c) && NoOverdraw(c, up) && up.Liquidated?
    requires Lags(l, c, u, a, aLag, dLag) && aLag >= 0 && dLag >= 0
    ensures Lags(ApplyUpdate(l, up, false), ApplyUpdate(c, up, true), u, a,
                 aLag + (if CutsAToken(up, u, a) then DUST_THRESHOLD else 0),
                 dLag + (if CutsDebt(up, u, a) then DUST_THRESHOLD else 0))
  {
    var v, ca, da := up.user, up.collateralAsset, up.debtAsset;
    if ca in c.indices && da in c.indices {
      var x := RayDiv(up.debtToCover, c.indices[da].variableBorrowIndex);
      var y := RayDiv(up.collateralSeized, c.indices[ca].liquidityIndex);
      RayDivNonNeg(up.debtToCover, c.indices[da].variableBorrowIndex);
      RayDivNonNeg(up.collateralSeized, c.indices[ca].liquidityIndex);
      ReduceDebtLags(l, c, v, da, x, u, a, aLag, dLag);
      var t := ReserveOf(c, v, da);
      SetReserveAt(c, v, da, t.(debt := Reduce(t.debt, x, true)), v, ca);
      ReduceATokenLags(ReduceDebt(l, v, da, x, false), ReduceDebt(c, v, da, x, true), v, ca, y, u, a, aLag,
                       dLag + (if u == v && a == da then DUST_THRESHOLD else 0));
    }
  }

  lemma IndicesAgree(l: Ledger, c: Ledger, up: Update)
    requires l.indices == c.indices && IndicesNonNeg(c) && NoOverdraw(c, up)
    ensures ApplyUpdate(l, up, false).indices == ApplyUpdate(c, up, true).indices
    ensures IndicesNonNeg(ApplyUpdate(c, up, true))
  {}

  /** Over every run, for every user and asset: a local balance is never negative and never above the
      chain's, and the initial lag grows by at most ten units per reducing event. */
  lemma {:induction false} DriftBound(
    l: Ledger, c: Ledger, ups: seq<Update>, u: Address, a: Address, aLag: nat, dLag: nat)
    requires l.indices == c.indices && IndicesNonNeg(c) && SoundRun(c, ups)
    requires Lags(l, c, u, a, aLag, dLag)
    ensures RunAll(l, ups, false).indices == RunAll(c, ups, true).indices && IndicesNonNeg(RunAll(c, ups, true))
    ensures Lags(RunAll(l, ups, false), RunAll(c, ups, true), u, a,
                 aLag + DUST_THRESHOLD * ATokenCuts(ups, u, a), dLag + DUST_THRESHOLD * DebtCuts(ups, u, a))
  {
    if ups != [] {
      var n := |ups| - 1;
      var init, up := ups[..n], ups[n];
      assert SoundRun(c, init) by {
        forall k | 0 <= k < n ensures NoOverdraw(RunAll(c, init[..k], true), init[k]) {
          assert init[..k] == ups[..k];
        }
      }
      DriftBound(l, c, init, u, a, aLag, dLag);
      var l', c' := RunAll(l, init, false), RunAll(c, init, true);
      assert NoOverdraw(c', up);
      IndicesAgree(l', c', up);
      var x, y := aLag + DUST_THRESHOLD * ATokenCuts(init, u, a), dLag + DUST_THRESHOLD * DebtCuts(init, u, a);
      if up.Liquidated? {
        LiquidationLags(l', c', up, u, a, x, y);
      } else if up.Withdrawn? || up.Repaid? {
        PaymentLags(l', c', up, u, a, x, y);
      } else if up.Supplied? || up.Borrowed? {
        IncreaseLags(l', c', up, u, a, x, y);
      } else {
        SettingLags(l', c', up, u, a, x, y);
      }
    }
  }

  /** The engine's fold over logs is the run of the decoded updates. */
  lemma {:induction false} FoldIsRun(l: Ledger, logs: seq<RPCLog>)
    ensures Fold(l, logs) == RunAll(l, Updates(logs), false)
  {
    if logs != [] {
      FoldIsRun(l, logs[..|logs| - 1]);
      assert Updates(logs)[..|logs| - 1] == Updates(logs[..|logs| - 1]);
    }
  }

  function Updates(logs: seq<RPCLog>): seq<Update> {
    seq(|logs|, i requires 0 <= i < |logs| => Decode(logs[i]))
  }

  // ---------- The snapshot ----------

  /** The condition of the bootstrap query: at least one borrowed reserve. */
  ghost predicate IsBorrower(c: Ledger, u: Address) {
    exists a :: Holds(c, u, a) && ReserveOf(c, u, a).debt > 0
  }

  /** l is a bootstrapped copy of the chain at the anchor: borrowers with cleaned balances, nobody else. */
  ghost predicate IsSnapshot(l: Ledger, c: Ledger) {
    && l.indices == c.indices
    && (forall u, a {:trigger ReserveOf(l, u, a)} ::
         var r, s := ReserveOf(l, u, a), ReserveOf(c, u, a);
         && r.aToken == (if IsBorrower(c, u) then CleanUp(s.aToken) else 0)
         && r.debt == (if IsBorrower(c, u) then CleanUp(s.debt) else 0)
         && r.collateral == (IsBorrower(c, u) && !Skipped(s) && s.collateral)
         && r.assetAddress == a)
    && forall u {:trigger PositionOf(l, u)} ::
         if IsBorrower(c, u) then KnowsCategory(l, c, u) else !PositionOf(l, u).eModeFetched
  }

  /** The user's E-Mode category is known locally and is the chain's. */
  predicate KnowsCategory(l: Ledger, c: Ledger, u: Address) {
    PositionOf(l, u).eModeFetched && PositionOf(l, u).eModeCategoryId == PositionOf(c, u).eModeCategoryId
  }

  /** Both balances are dust: the bootstrap stores no entry, and with it no collateral flag. */
  predicate Skipped(s: Reserve) {
    CleanUp(s.aToken) == 0 && CleanUp(s.debt) == 0
  }

  ghost predicate BalancesNonNeg(c: Ledger) {
    forall u, a {:trigger ReserveOf(c, u, a)} :: ReserveOf(c, u, a).aToken >= 0 && ReserveOf(c, u, a).debt >= 0
  }

  /** Right after the bootstrap the gap is within the dust threshold exactly for borrowers and for balances
      that are dust themselves; a supplier without debt is not loaded at all. */
  lemma SnapshotLagIff(l: Ledger, c: Ledger, u: Address, a: Address)
    requires IsSnapshot(l, c) && BalancesNonNeg(c)
    ensures Lags(l, c, u, a, DUST_THRESHOLD, DUST_THRESHOLD)
       <==> || IsBorrower(c, u)
            || (ReserveOf(c, u, a).aToken <= DUST_THRESHOLD && ReserveOf(c, u, a).debt <= DUST_THRESHOLD)
  {}

  /** The whole life of a borrower's balance, bootstrap included: over any log sequence the local value stays
      within [0, chain] and lags by at most 10 * (1 + number of reducing events). */
  lemma BorrowerDrift(l: Ledger, c: Ledger, logs: seq<RPCLog>, u: Address, a: Address)
    requires IsSnapshot(l, c) && BalancesNonNeg(c) && IndicesNonNeg(c) && SoundRun(c, Updates(logs))
    requires IsBorrower(c, u)
    ensures Lags(Fold(l, logs), RunAll(c, Updates(logs), true), u, a,
                 DUST_THRESHOLD * (1 + ATokenCuts(Updates(logs), u, a)),
                 DUST_THRESHOLD * (1 + DebtCuts(Updates(logs), u, a)))
  {
    SnapshotLagIff(l, c, u, a);
    DriftBound(l, c, Updates(logs), u, a, DUST_THRESHOLD, DUST_THRESHOLD);
    FoldIsRun(l, logs);
  }

  /** For any other user the bound is the balance that was never loaded, instead of the first ten units. */
  lemma UnloadedDrift(l: Ledger, c: Ledger, logs: seq<RPCLog>, u: Address, a: Address)
    requires IsSnapshot(l, c) && BalancesNonNeg(c) && IndicesNonNeg(c) && SoundRun(c, Updates(logs))
    requires !IsBorrower(c, u)
    ensures Lags(Fold(l, logs), RunAll(c, Updates(logs), true), u, a,
                 ReserveOf(c, u, a).aToken + DUST_THRESHOLD * ATokenCuts(Updates(logs), u, a),
                 ReserveOf(c, u, a).debt + DUST_THRESHOLD * DebtCuts(Updates(logs), u, a))
  {
    assert ReserveOf(l, u, a).aToken == 0 && ReserveOf(l, u, a).debt == 0;
    DriftBound(l, c, Updates(logs), u, a, ReserveOf(c, u, a).aToken, ReserveOf(c, u, a).debt);
    FoldIsRun(l, logs);
  }

  // ---------- The collateral flag ----------

  /** The chain has no flag to lose, or the user borrows and one of the two balances is more than dust. */
  ghost predicate KeepsFlag(c: Ledger, u: Address, a: Address) {
    var s := ReserveOf(c, u, a);
    !s.collateral || (IsBorrower(c, u) && (s.aToken > DUST_THRESHOLD || s.debt > DUST_THRESHOLD))
  }

  predicate SameFlag(l: Ledger, c: Ledger, u: Address, a: Address) {
    ReserveOf(l, u, a).collateral == ReserveOf(c, u, a).collateral
  }

  /** Right after the bootstrap the collateral flag agrees with the chain exactly where it is kept. */
  lemma SnapshotFlagIff(l: Ledger, c: Ledger, u: Address, a: Address)
    requires IsSnapshot(l, c) && BalancesNonNeg(c)
    ensures SameFlag(l, c, u, a) <==> KeepsFlag(c, u, a)
  {
    var r, s := ReserveOf(l, u, a), ReserveOf(c, u, a);
    assert r.collateral == (IsBorrower(c, u) && !Skipped(s) && s.collateral);
  }

  predicate SetsFlag(up: Update, u: Address, a: Address) {
    up.CollateralSet? && up.user == u && up.asset == a
  }

  predicate FlagIsSet(ups: seq<Update>, u: Address, a: Address) {
    exists k :: 0 <= k < |ups| && SetsFlag(ups[k], u, a)
  }

  /** Only a collateral event of the reserve touches its flag. */
  lemma FlagStep(l: Ledger, up: Update, exact: bool, u: Address, a: Address)
    ensures ReserveOf(ApplyUpdate(l, up, exact), u, a).collateral
         == if SetsFlag(up, u, a) then up.enabled else ReserveOf(l, u, a).collateral
  {}

  /** Over every run the flag agrees with the chain in the end if and only if it agreed at the start or the run
      contains a collateral event of that reserve. */
  lemma {:induction false} FlagAgreesIff(l: Ledger, c: Ledger, ups: seq<Update>, u: Address, a: Address)
    ensures SameFlag(RunAll(l, ups, false), RunAll(c, ups, true), u, a)
       <==> SameFlag(l, c, u, a) || FlagIsSet(ups, u, a)
  {
    if ups != [] {
      var n := |ups| - 1;
      var init, up := ups[..n], ups[n];
      FlagAgreesIff(l, c, init, u, a);
      FlagStep(RunAll(l, init, false), up, false, u, a);
      FlagStep(RunAll(c, init, true), up, true, u, a);
      assert FlagIsSet(ups, u, a) <==> FlagIsSet(init, u, a) || SetsFlag(up, u, a) by {
        if k :| 0 <= k < n && SetsFlag(init[k], u, a) { assert SetsFlag(ups[k], u, a); }
      }
    }
  }

  /** The whole life of a collateral flag, bootstrap included. */
  lemma FlagTracksChainIff(l: Ledger, c: Ledger, logs: seq<RPCLog>, u: Address, a: Address)
    requires IsSnapshot(l, c) && BalancesNonNeg(c)
    ensures SameFlag(Fold(l, logs), RunAll(c, Updates(logs), true), u, a)
       <==> KeepsFlag(c, u, a) || FlagIsSet(Updates(logs), u, a)
  {
    SnapshotFlagIff(l, c, u, a);
    FlagAgreesIff(l, c, Updates(logs), u, a);
    FoldIsRun(l, logs);
  }

  // ---------- The asset of an entry ----------

  lemma {:induction false} AssetsStay(l: Ledger, ups: seq<Update>, exact: bool, u: Address, a: Address)
    ensures ReserveOf(RunAll(l, ups, exact), u, a).assetAddress == ReserveOf(l, u, a).assetAddress
  {
    if ups != [] {
      AssetsStay(l, ups[..|ups| - 1], exact, u, a);
      AssetStep(RunAll(l, ups[..|ups| - 1], exact), ups[|ups| - 1], exact, u, a);
    }
  }

  lemma AssetStep(l: Ledger, up: Update, exact: bool, u: Address, a: Address)
    ensures ReserveOf(ApplyUpdate(l, up, exact), u, a).assetAddress == ReserveOf(l, u, a).assetAddress
  {}

  // ---------- The E-Mode category ----------

  predicate SetsCategoryOf(up: Update, u: Address) {
    up.EModeSet? && up.user == u
  }

  predicate CategoryIsSet(ups: seq<Update>, u: Address) {
    exists k :: 0 <= k < |ups| && SetsCategoryOf(ups[k], u)
  }

  lemma CategoryStep(l: Ledger, up: Update, exact: bool, u: Address)
    ensures var p, q := PositionOf(l, u), PositionOf(ApplyUpdate(l, up, exact), u);
            if SetsCategoryOf(up, u) then q.eModeFetched && q.eModeCategoryId == up.category
            else q.eModeFetched == p.eModeFetched && q.eModeCategoryId == p.eModeCategoryId
  {}

  /** Over every run a user's category is known and the chain's if and only if it was so at the start or the run
      contains an E-Mode event of the user. */
  lemma {:induction false} CategoryIff(l: Ledger, c: Ledger, ups: seq<Update>, u: Address)
    requires KnowsCategory(l, c, u) || !PositionOf(l, u).eModeFetched
    ensures var m, d := RunAll(l, ups, false), RunAll(c, ups, true);
            && (KnowsCategory(m, d, u) <==> KnowsCategory(l, c, u) || CategoryIsSet(ups, u))
            && (KnowsCategory(m, d, u) || !PositionOf(m, u).eModeFetched)
  {
    if ups != [] {
      var n := |ups| - 1;
      var init, up := ups[..n], ups[n];
      CategoryIff(l, c, init, u);
      CategoryStep(RunAll(l, init, false), up, false, u);
      CategoryStep(RunAll(c, init, true), up, true, u);
      assert CategoryIsSet(ups, u) <==> CategoryIsSet(init, u) || SetsCategoryOf(up, u) by {
        if k :| 0 <= k < n && SetsCategoryOf(init[k], u) { assert SetsCategoryOf(ups[k], u); }
      }
    }
  }

  /** The whole life of a category, bootstrap included: known for a borrower from the start, for anybody else from
      the first E-Mode event on. */
  lemma CategoryTracksChainIff(l: Ledger, c: Ledger, logs: seq<RPCLog>, u: Address)
    requires IsSnapshot(l, c)
    ensures KnowsCategory(Fold(l, logs), RunAll(c, Updates(logs), true), u)
       <==> IsBorrower(c, u) || CategoryIsSet(Updates(logs), u)
  {
    assert KnowsCategory(l, c, u) || !PositionOf(l, u).eModeFetched;
    CategoryIff(l, c, Updates(logs), u);
    FoldIsRun(l, logs);
  }
}
