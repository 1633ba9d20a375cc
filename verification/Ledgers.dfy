// The effect of each Pool event on indices and positions: the specification of the handlers in
// internal/engine/log_replay_engine.go.
module Ledgers {
  import opened Models
  import opened RayMath
  import opened Events

  function EmptyPosition(): Position {
    Position(map[], 0, false)
  }

  function EmptyReserve(a: Address): Reserve {
    Reserve(a, 0, 0, false)
  }

  function PositionOf(l: Ledger, u: Address): Position {
    if u in l.positions then l.positions[u] else EmptyPosition()
  }

  function ReserveOf(l: Ledger, u: Address, a: Address): Reserve {
    if a in PositionOf(l, u).reserves then PositionOf(l, u).reserves[a] else EmptyReserve(a)
  }

  predicate Holds(l: Ledger, u: Address, a: Address) {
    a in PositionOf(l, u).reserves
  }

  function SetReserve(l: Ledger, u: Address, a: Address, r: Reserve): Ledger {
    var p := PositionOf(l, u);
    l.(positions := l.positions[u := p.(reserves := p.reserves[a := r])])
  }

  /** What GetUserReserve leaves behind: an entry for (u, a), empty if there was none. */
  function Touch(l: Ledger, u: Address, a: Address): Ledger {
    SetReserve(l, u, a, ReserveOf(l, u, a))
  }

  /** l with a position entry for u, empty if there was none. */
  function WithPosition(l: Ledger, u: Address): Ledger {
    l.(positions := l.positions[u := PositionOf(l, u)])
  }

  /** l with p as the position of u. */
  function WithValue(l: Ledger, u: Address, p: Position): Ledger {
    l.(positions := l.positions[u := p])
  }

  lemma WithOwnValue(l: Ledger, u: Address)
    requires u in l.positions
    ensures WithValue(l, u, PositionOf(l, u)) == l
  {}

  /** The last write to an entry wins. */
  lemma SetReserveTwice(l: Ledger, u: Address, a: Address, r: Reserve, s: Reserve)
    ensures SetReserve(SetReserve(l, u, a, r), u, a, s) == SetReserve(l, u, a, s)
  {
    var p := PositionOf(l, u);
    assert p.reserves[a := r][a := s] == p.reserves[a := s];
    var q, q' := p.(reserves := p.reserves[a := r]), p.(reserves := p.reserves[a := s]);
    assert l.positions[u := q][u := q'] == l.positions[u := q'];
  }

  lemma SetReservesCommute(l: Ledger, u: Address, a: Address, b: Address, r: Reserve, s: Reserve)
    requires a != b
    ensures SetReserve(SetReserve(l, u, a, r), u, b, s) == SetReserve(SetReserve(l, u, b, s), u, a, r)
  {
    var p := PositionOf(l, u);
    assert p.reserves[a := r][b := s] == p.reserves[b := s][a := r];
  }

  lemma TouchHeld(l: Ledger, u: Address, a: Address)
    requires Holds(l, u, a)
    ensures Touch(l, u, a) == l
  {
    assert PositionOf(l, u).reserves[a := ReserveOf(l, u, a)] == PositionOf(l, u).reserves;
  }

  lemma SetReserveWithPosition(l: Ledger, u: Address, a: Address, r: Reserve)
    ensures SetReserve(WithPosition(l, u), u, a, r) == SetReserve(l, u, a, r)
    ensures Touch(WithPosition(l, u), u, a) == Touch(l, u, a)
  {}

  function SetEMode(l: Ledger, u: Address, category: uint8): Ledger {
    l.(positions := l.positions[u := PositionOf(l, u).(eModeCategoryId := category, eModeFetched := true)])
  }

  lemma SetEModeWithPosition(l: Ledger, u: Address, category: uint8)
    ensures SetEMode(WithPosition(l, u), u, category) == SetEMode(l, u, category)
  {}

  // ---------- Balances ----------

  /** The dust rule: a negative balance, or one of at most ten units, becomes zero. */
  function CleanUp(balance: int): int {
    if balance < 0 || -DUST_THRESHOLD <= balance <= DUST_THRESHOLD then 0 else balance
  }

  /** A reduced balance; the exact ledger of the chain has no dust rule. */
  function Reduce(balance: int, amount: int, exact: bool): int {
    if exact then balance - amount else CleanUp(balance - amount)
  }

  function AddAToken(l: Ledger, u: Address, a: Address, scaled: int): Ledger {
    var r := ReserveOf(l, u, a);
    SetReserve(l, u, a, r.(aToken := r.aToken + scaled))
  }

  function AddDebt(l: Ledger, u: Address, a: Address, scaled: int): Ledger {
    var r := ReserveOf(l, u, a);
    SetReserve(l, u, a, r.(debt := r.debt + scaled))
  }

  function ReduceAToken(l: Ledger, u: Address, a: Address, scaled: int, exact: bool): Ledger {
    var r := ReserveOf(l, u, a);
    SetReserve(l, u, a, r.(aToken := Reduce(r.aToken, scaled, exact)))
  }

  function ReduceDebt(l: Ledger, u: Address, a: Address, scaled: int, exact: bool): Ledger {
    var r := ReserveOf(l, u, a);
    SetReserve(l, u, a, r.(debt := Reduce(r.debt, scaled, exact)))
  }

  function SetFlag(l: Ledger, u: Address, a: Address, enabled: bool): Ledger {
    SetReserve(l, u, a, ReserveOf(l, u, a).(collateral := enabled))
  }

  /** Looking a reserve up first makes no difference to an update of it. */
  lemma TouchIsNeutral(l: Ledger, u: Address, a: Address, x: int, exact: bool, enabled: bool)
    ensures AddAToken(Touch(l, u, a), u, a, x) == AddAToken(l, u, a, x)
    ensures AddDebt(Touch(l, u, a), u, a, x) == AddDebt(l, u, a, x)
    ensures ReduceAToken(Touch(l, u, a), u, a, x, exact) == ReduceAToken(l, u, a, x, exact)
    ensures ReduceDebt(Touch(l, u, a), u, a, x, exact) == ReduceDebt(l, u, a, x, exact)
    ensures SetFlag(Touch(l, u, a), u, a, enabled) == SetFlag(l, u, a, enabled)
  {
    var r := ReserveOf(l, u, a);
    SetReserveTwice(l, u, a, r, r.(aToken := r.aToken + x));
    SetReserveTwice(l, u, a, r, r.(debt := r.debt + x));
    SetReserveTwice(l, u, a, r, r.(aToken := Reduce(r.aToken, x, exact)));
    SetReserveTwice(l, u, a, r, r.(debt := Reduce(r.debt, x, exact)));
    SetReserveTwice(l, u, a, r, r.(collateral := enabled));
  }

  /** Nor does looking up the collateral before the debt is reduced. */
  lemma TouchBeforeReduce(l: Ledger, u: Address, c: Address, d: Address, x: int, y: int, exact: bool)
    ensures ReduceAToken(ReduceDebt(Touch(Touch(l, u, d), u, c), u, d, x, exact), u, c, y, exact)
         == ReduceAToken(ReduceDebt(l, u, d, x, exact), u, c, y, exact)
  {
    var t := Touch(l, u, d);
    TouchIsNeutral(l, u, d, x, exact, false);
    if c == d {
      TouchHeld(t, u, c);
    } else {
      var r := ReserveOf(l, u, d);
      SetReservesCommute(t, u, c, d, ReserveOf(l, u, c), r.(debt := Reduce(r.debt, x, exact)));
      TouchIsNeutral(ReduceDebt(l, u, d, x, exact), u, c, y, exact, false);
    }
  }

  predicate HasLiquidityIndex(l: Ledger, a: Address) {
    a in l.indices && l.indices[a].liquidityIndex != 0
  }

  predicate HasBorrowIndex(l: Ledger, a: Address) {
    a in l.indices && l.indices[a].variableBorrowIndex != 0
  }

  // ---------- One update, one log, many logs ----------

  function ApplyUpdate(l: Ledger, up: Update, exact: bool): Ledger {
    match up
    case Ignore => l
    case SetIndex(a, idx) => l.(indices := l.indices[a := idx])
    case Supplied(u, a, amount) =>
      if !HasLiquidityIndex(l, a) then l else AddAToken(l, u, a, RayDiv(amount, l.indices[a].liquidityIndex))
    case Withdrawn(u, a, amount) =>
      if !HasLiquidityIndex(l, a) then l else ReduceAToken(l, u, a, RayDiv(amount, l.indices[a].liquidityIndex), exact)
    case Borrowed(u, a, amount) =>
      if !HasBorrowIndex(l, a) then l else AddDebt(l, u, a, RayDiv(amount, l.indices[a].variableBorrowIndex))
    case Repaid(u, a, amount) =>
      if !HasBorrowIndex(l, a) then l else ReduceDebt(l, u, a, RayDiv(amount, l.indices[a].variableBorrowIndex), exact)
    case Liquidated(u, c, d, debtToCover, seized) =>
      if c !in l.indices || d !in l.indices then l
      else
        var m := ReduceDebt(l, u, d, RayDiv(debtToCover, l.indices[d].variableBorrowIndex), exact);
        ReduceAToken(m, u, c, RayDiv(seized, l.indices[c].liquidityIndex), exact)
    case CollateralSet(u, a, enabled) => SetFlag(l, u, a, enabled)
    case EModeSet(u, category) => SetEMode(l, u, category)
  }

  /** The state after a log, as the engine keeps it. */
  function ApplyLog(l: Ledger, log: RPCLog): Ledger {
    ApplyUpdate(l, Decode(log), false)
  }

  /** One in-order fold over a log sequence. */
  function Fold(l: Ledger, logs: seq<RPCLog>): Ledger {
    if logs == [] then l else ApplyLog(Fold(l, logs[..|logs| - 1]), logs[|logs| - 1])
  }

  lemma {:induction false} FoldConcat(l: Ledger, a: seq<RPCLog>, b: seq<RPCLog>)
    ensures Fold(l, a + b) == Fold(Fold(l, a), b)
  {
    if b == [] {
      assert a + b == a;
    } else {
      FoldConcat(l, a, b[..|b| - 1]);
      assert (a + b)[..|a + b| - 1] == a + b[..|b| - 1];
    }
  }

  // ---------- Who is concerned by an update ----------

  /** Between two ledgers something changed that the user's health factor is computed from: the position, or
      the index of an asset the user has an entry for. */
  ghost predicate Affected(before: Ledger, after: Ledger, u: Address) {
    || PositionOf(before, u) != PositionOf(after, u)
    || exists a :: Holds(after, u, a) && IndexChanged(before, after, a)
  }

  predicate IndexChanged(before: Ledger, after: Ledger, a: Address) {
    a in after.indices && (a !in before.indices || before.indices[a] != after.indices[a])
  }

  /** Paying back or withdrawing the full displayed balance at an index of at least one RAY leaves zero. */
  lemma FullReductionClears(l: Ledger, u: Address, a: Address)
    requires a in l.indices
    ensures l.indices[a].liquidityIndex >= RAY ==>
      var shown := RayMul(ReserveOf(l, u, a).aToken, l.indices[a].liquidityIndex);
      ReserveOf(ApplyUpdate(l, Withdrawn(u, a, shown), false), u, a).aToken == 0
    ensures l.indices[a].variableBorrowIndex >= RAY ==>
      var shown := RayMul(ReserveOf(l, u, a).debt, l.indices[a].variableBorrowIndex);
      ReserveOf(ApplyUpdate(l, Repaid(u, a, shown), false), u, a).debt == 0
  {
    var r, i := ReserveOf(l, u, a), l.indices[a];
    if i.liquidityIndex >= RAY { ScaledRoundTrip(r.aToken, i.liquidityIndex); }
    if i.variableBorrowIndex >= RAY { ScaledRoundTrip(r.debt, i.variableBorrowIndex); }
  }
}
