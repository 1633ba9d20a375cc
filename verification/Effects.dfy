// internal/engine/log_replay_engine.go: the effect of each Pool event on the stored fields, one by one.
module Effects {
  import opened Models
  import opened RayMath
  import opened Hex
  import opened Events
  import opened Ledgers
  import opened DirtyUsers

  // ---------- The stored fields ----------

  predicate HasEntry(l: Ledger, u: Address, a: Address) {
    u in l.positions && a in l.positions[u].reserves
  }

  /** The stored entry; no entry counts as no balance and no flag. */
  function EntryOf(l: Ledger, u: Address, a: Address): Reserve {
    if HasEntry(l, u, a) then l.positions[u].reserves[a] else Reserve(a, 0, 0, false)
  }

  /** The stored category, and whether it is known. */
  function CategoryOf(l: Ledger, u: Address): (uint8, bool) {
    if u in l.positions then (l.positions[u].eModeCategoryId, l.positions[u].eModeFetched) else (0, false)
  }

  /** Indices, categories and all entries but those of u in the given assets are as before. */
  ghost predicate OnlyEntries(before: Ledger, after: Ledger, u: Address, assets: set<Address>) {
    && after.indices == before.indices
    && (forall v :: CategoryOf(after, v) == CategoryOf(before, v))
    && (forall v, b :: v != u || b !in assets ==>
          EntryOf(after, v, b) == EntryOf(before, v, b) && (HasEntry(after, v, b) <==> HasEntry(before, v, b)))
    && (forall b :: b in assets ==> HasEntry(after, u, b))
  }

  /** d is amount * RAY / index, rounded to the nearest integer, and 0 for an index of 0. */
  predicate ScalesTo(amount: int, index: int, d: int) {
    && (index > 0 ==> -index <= 2 * (index * d - amount * RAY) <= index)
    && (index == 0 ==> d == 0)
  }

  /** What is left of a balance: in the exact ledger the difference, in the local one nothing of ten units or less. */
  predicate IsLeft(balance: int, d: int, left: int, exact: bool) {
    left == if !exact && balance - d <= 10 then 0 else balance - d
  }

  // ---------- One update ----------

  ghost predicate CreditsAToken(before: Ledger, after: Ledger, u: Address, a: Address, amount: int, index: int) {
    && OnlyEntries(before, after, u, {a})
    && var e := EntryOf(before, u, a);
       exists d :: ScalesTo(amount, index, d) && EntryOf(after, u, a) == e.(aToken := e.aToken + d)
  }

  ghost predicate CreditsDebt(before: Ledger, after: Ledger, u: Address, a: Address, amount: int, index: int) {
    && OnlyEntries(before, after, u, {a})
    && var e := EntryOf(before, u, a);
       exists d :: ScalesTo(amount, index, d) && EntryOf(after, u, a) == e.(debt := e.debt + d)
  }

  ghost predicate DebitsAToken(
    before: Ledger, after: Ledger, u: Address, a: Address, amount: int, index: int, exact: bool)
  {
    && OnlyEntries(before, after, u, {a})
    && var e, f := EntryOf(before, u, a), EntryOf(after, u, a);
       f == e.(aToken := f.aToken) && exists d :: ScalesTo(amount, index, d) && IsLeft(e.aToken, d, f.aToken, exact)
  }

  ghost predicate DebitsDebt(
    before: Ledger, after: Ledger, u: Address, a: Address, amount: int, index: int, exact: bool)
  {
    && OnlyEntries(before, after, u, {a})
    && var e, f := EntryOf(before, u, a), EntryOf(after, u, a);
       f == e.(debt := f.debt) && exists d :: ScalesTo(amount, index, d) && IsLeft(e.debt, d, f.debt, exact)
  }

  /** Debt in d and collateral in c are both reduced, also when they are one entry; nothing else changes. */
  ghost predicate Seizes(
    before: Ledger, after: Ledger, u: Address, c: Address, d: Address, repaid: int, seized: int,
    debtIndex: int, colIndex: int, exact: bool)
  {
    && OnlyEntries(before, after, u, {c, d})
    && (exists x :: ScalesTo(repaid, debtIndex, x)
                    && IsLeft(EntryOf(before, u, d).debt, x, EntryOf(after, u, d).debt, exact))
    && (exists y :: ScalesTo(seized, colIndex, y)
                    && IsLeft(EntryOf(before, u, c).aToken, y, EntryOf(after, u, c).aToken, exact))
    && (c != d ==> EntryOf(after, u, d).aToken == EntryOf(before, u, d).aToken
                   && EntryOf(after, u, c).debt == EntryOf(before, u, c).debt)
    && EntryOf(after, u, c).collateral == EntryOf(before, u, c).collateral
    && EntryOf(after, u, d).collateral == EntryOf(before, u, d).collateral
  }

  ghost predicate SetsIndex(before: Ledger, after: Ledger, a: Address, index: GlobalIndex) {
    && after.positions == before.positions
    && a in after.indices && after.indices[a] == index
    && forall b :: b != a ==>
         (b in after.indices <==> b in before.indices) && (b in after.indices ==> after.indices[b] == before.indices[b])
  }

  ghost predicate SetsCollateral(before: Ledger, after: Ledger, u: Address, a: Address, enabled: bool) {
    OnlyEntries(before, after, u, {a}) && EntryOf(after, u, a) == EntryOf(before, u, a).(collateral := enabled)
  }

  ghost predicate SetsCategory(before: Ledger, after: Ledger, u: Address, category: uint8) {
    && after.indices == before.indices
    && CategoryOf(after, u) == (category, true)
    && (forall v :: v != u ==> CategoryOf(after, v) == CategoryOf(before, v))
    && forall v, b ::
         EntryOf(after, v, b) == EntryOf(before, v, b) && (HasEntry(after, v, b) <==> HasEntry(before, v, b))
  }

  lemma EntryAgrees(l: Ledger, u: Address, a: Address)
    ensures ReserveOf(l, u, a) == EntryOf(l, u, a)
  {}

  /** Writing one entry changes that entry and no other. */
  lemma WritesEntry(l: Ledger, u: Address, a: Address, r: Reserve)
    ensures OnlyEntries(l, SetReserve(l, u, a, r), u, {a}) && EntryOf(SetReserve(l, u, a, r), u, a) == r
  {}

  lemma Scaled(amount: int, index: int)
    ensures ScalesTo(amount, index, RayDiv(amount, index))
  {
    if index > 0 { RayDivNearest(amount, index); }
  }

  lemma Left(balance: int, d: int, exact: bool)
    ensures IsLeft(balance, d, Reduce(balance, d, exact), exact)
  {}

  lemma SupplyEffect(l: Ledger, u: Address, a: Address, amount: int, exact: bool)
    ensures var after := ApplyUpdate(l, Supplied(u, a, amount), exact);
            if a in l.indices && l.indices[a].liquidityIndex != 0
            then CreditsAToken(l, after, u, a, amount, l.indices[a].liquidityIndex) else after == l
  {
    if a in l.indices {
      var d := RayDiv(amount, l.indices[a].liquidityIndex);
      Scaled(amount, l.indices[a].liquidityIndex);
      EntryAgrees(l, u, a);
      WritesEntry(l, u, a, EntryOf(l, u, a).(aToken := EntryOf(l, u, a).aToken + d));
    }
  }

  lemma BorrowEffect(l: Ledger, u: Address, a: Address, amount: int, exact: bool)
    ensures var after := ApplyUpdate(l, Borrowed(u, a, amount), exact);
            if a in l.indices && l.indices[a].variableBorrowIndex != 0
            then CreditsDebt(l, after, u, a, amount, l.indices[a].variableBorrowIndex) else after == l
  {
    if a in l.indices {
      var d := RayDiv(amount, l.indices[a].variableBorrowIndex);
      Scaled(amount, l.indices[a].variableBorrowIndex);
      EntryAgrees(l, u, a);
      WritesEntry(l, u, a, EntryOf(l, u, a).(debt := EntryOf(l, u, a).debt + d));
    }
  }

  lemma WithdrawEffect(l: Ledger, u: Address, a: Address, amount: int, exact: bool)
    ensures var after := ApplyUpdate(l, Withdrawn(u, a, amount), exact);
            if a in l.indices && l.indices[a].liquidityIndex != 0
            then DebitsAToken(l, after, u, a, amount, l.indices[a].liquidityIndex, exact) else after == l
  {
    if a in l.indices {
      var d := RayDiv(amount, l.indices[a].liquidityIndex);
      Scaled(amount, l.indices[a].liquidityIndex);
      EntryAgrees(l, u, a);
      Left(EntryOf(l, u, a).aToken, d, exact);
      WritesEntry(l, u, a, EntryOf(l, u, a).(aToken := Reduce(EntryOf(l, u, a).aToken, d, exact)));
    }
  }

  lemma RepayEffect(l: Ledger, u: Address, a: Address, amount: int, exact: bool)
    ensures var after := ApplyUpdate(l, Repaid(u, a, amount), exact);
            if a in l.indices && l.indices[a].variableBorrowIndex != 0
            then DebitsDebt(l, after, u, a, amount, l.indices[a].variableBorrowIndex, exact) else after == l
  {
    if a in l.indices {
      var d := RayDiv(amount, l.indices[a].variableBorrowIndex);
      Scaled(amount, l.indices[a].variableBorrowIndex);
      EntryAgrees(l, u, a);
      Left(EntryOf(l, u, a).debt, d, exact);
      WritesEntry(l, u, a, EntryOf(l, u, a).(debt := Reduce(EntryOf(l, u, a).debt, d, exact)));
    }
  }

  lemma LiquidationEffect(l: Ledger, u: Address, c: Address, d: Address, repaid: int, seized: int, exact: bool)
    ensures var after := ApplyUpdate(l, Liquidated(u, c, d, repaid, seized), exact);
            if c in l.indices && d in l.indices
            then Seizes(l, after, u, c, d, repaid, seized,
                        l.indices[d].variableBorrowIndex, l.indices[c].liquidityIndex, exact)
            else after == l
  {
    if c in l.indices && d in l.indices {
      var x := RayDiv(repaid, l.indices[d].variableBorrowIndex);
      var y := RayDiv(seized, l.indices[c].liquidityIndex);
      Scaled(repaid, l.indices[d].variableBorrowIndex);
      Scaled(seized, l.indices[c].liquidityIndex);
      var r := EntryOf(l, u, d).(debt := Reduce(EntryOf(l, u, d).debt, x, exact));
      EntryAgrees(l, u, d);
      WritesEntry(l, u, d, r);
      var m := SetReserve(l, u, d, r);
      var s := EntryOf(m, u, c).(aToken := Reduce(EntryOf(m, u, c).aToken, y, exact));
      EntryAgrees(m, u, c);
      WritesEntry(m, u, c, s);
      Left(EntryOf(l, u, d).debt, x, exact);
      Left(EntryOf(m, u, c).aToken, y, exact);
    }
  }

  lemma SettingEffect(
    l: Ledger, u: Address, a: Address, index: GlobalIndex, enabled: bool, category: uint8, exact: bool)
    ensures ApplyUpdate(l, Ignore, exact) == l
    ensures SetsIndex(l, ApplyUpdate(l, SetIndex(a, index), exact), a, index)
    ensures SetsCollateral(l, ApplyUpdate(l, CollateralSet(u, a, enabled), exact), u, a, enabled)
    ensures SetsCategory(l, ApplyUpdate(l, EModeSet(u, category), exact), u, category)
  {
    EntryAgrees(l, u, a);
    WritesEntry(l, u, a, EntryOf(l, u, a).(collateral := enabled));
  }

  // ---------- One event ----------

  /** What a log of the event does to the store, in the event's own terms. */
  ghost predicate HasEffect(ev: PoolEvent, block: uint64, before: Ledger, after: Ledger)
    requires WellTyped(ev)
  {
    match ev
    case ReserveDataUpdated(reserve, _, _, _, liquidityIndex, variableBorrowIndex) =>
      SetsIndex(before, after, AddressText(reserve), GlobalIndex(liquidityIndex, variableBorrowIndex, block))
    case Supply(reserve, _, onBehalfOf, amount, _) =>
      var a := AddressText(reserve);
      if a in before.indices && before.indices[a].liquidityIndex != 0
      then CreditsAToken(before, after, AddressText(onBehalfOf), a, amount, before.indices[a].liquidityIndex)
      else after == before
    case Withdraw(reserve, user, _, amount) =>
      var a := AddressText(reserve);
      if a in before.indices && before.indices[a].liquidityIndex != 0
      then DebitsAToken(before, after, AddressText(user), a, amount, before.indices[a].liquidityIndex, false)
      else after == before
    case Borrow(reserve, _, onBehalfOf, amount, mode, _, _) =>
      var a := AddressText(reserve);
      if mode == 2 && a in before.indices && before.indices[a].variableBorrowIndex != 0
      then CreditsDebt(before, after, AddressText(onBehalfOf), a, amount, before.indices[a].variableBorrowIndex)
      else after == before
    case Repay(reserve, user, _, amount, _) =>
      var a := AddressText(reserve);
      if a in before.indices && before.indices[a].variableBorrowIndex != 0
      then DebitsDebt(before, after, AddressText(user), a, amount, before.indices[a].variableBorrowIndex, false)
      else after == before
    case LiquidationCall(collateralAsset, debtAsset, user, debtToCover, seized, _, _) =>
      var c, d := AddressText(collateralAsset), AddressText(debtAsset);
      if c in before.indices && d in before.indices
      then Seizes(before, after, AddressText(user), c, d, debtToCover, seized,
                  before.indices[d].variableBorrowIndex, before.indices[c].liquidityIndex, false)
      else after == before
    case CollateralEnabled(reserve, user) =>
      SetsCollateral(before, after, AddressText(user), AddressText(reserve), true)
    case CollateralDisabled(reserve, user) =>
      SetsCollateral(before, after, AddressText(user), AddressText(reserve), false)
    case UserEModeSet(user, category) =>
      SetsCategory(before, after, AddressText(user), category)
  }

  /** Every well-formed log of every event has exactly that effect, field by field. */
  lemma EventEffect(ev: PoolEvent, l: Ledger, block: uint64, index: uint64, txHash: string)
    requires WellTyped(ev)
    ensures HasEffect(ev, block, l, ApplyLog(l, Encode(ev, block, index, txHash)))
  {
    DecodeInvertsEncode(ev, block, index, txHash);
    MeaningEffect(ev, l, block);
  }

  lemma MeaningEffect(ev: PoolEvent, l: Ledger, block: uint64)
    requires WellTyped(ev)
    ensures HasEffect(ev, block, l, ApplyUpdate(l, Meaning(ev, block), false))
  {
    match ev
    case ReserveDataUpdated(r, _, _, _, li, vi) =>
      SettingEffect(l, "", AddressText(r), GlobalIndex(li, vi, block), false, 0, false);
    case Supply(r, _, o, x, _) => SupplyEffect(l, AddressText(o), AddressText(r), x, false);
    case Withdraw(r, u, _, x) => WithdrawEffect(l, AddressText(u), AddressText(r), x, false);
    case Borrow(r, _, o, x, _, _, _) => BorrowEffect(l, AddressText(o), AddressText(r), x, false);
    case Repay(r, u, _, x, _) => RepayEffect(l, AddressText(u), AddressText(r), x, false);
    case LiquidationCall(c, d, u, x, y, _, _) =>
      LiquidationEffect(l, AddressText(u), AddressText(c), AddressText(d), x, y, false);
    case CollateralEnabled(r, u) =>
      SettingEffect(l, AddressText(u), AddressText(r), GlobalIndex(0, 0, 0), true, 0, false);
    case CollateralDisabled(r, u) =>
      SettingEffect(l, AddressText(u), AddressText(r), GlobalIndex(0, 0, 0), false, 0, false);
    case UserEModeSet(u, c) => SettingEffect(l, AddressText(u), "", GlobalIndex(0, 0, 0), false, c, false);
  }

  // ---------- Whom a handler marks ----------

  /** A handler marks the event's own user, and only when it does not return early. */
  lemma MarkedExact(l: Ledger, up: Update, v: Address)
    ensures v in Marked(l, up) <==>
      match up
      case Ignore => false
      case SetIndex(_, _) => false
      case Supplied(u, a, _) => v == u && a in l.indices && l.indices[a].liquidityIndex != 0
      case Withdrawn(u, a, _) => v == u && a in l.indices && l.indices[a].liquidityIndex != 0
      case Borrowed(u, a, _) => v == u && a in l.indices && l.indices[a].variableBorrowIndex != 0
      case Repaid(u, a, _) => v == u && a in l.indices && l.indices[a].variableBorrowIndex != 0
      case Liquidated(u, c, d, _, _) => v == u && c in l.indices && d in l.indices
      case CollateralSet(u, _, _) => v == u
      case EModeSet(u, _) => v == u
  {}
}
