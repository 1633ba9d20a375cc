// internal/engine/risk_engine.go, calculateHF: E-Mode data is fetched only for users that look at risk.
module LazyEMode {
  import opened Models
  import opened RayMath
  import opened Sums
  import opened HealthFactor

  /** The two remote answers calculateHF may ask for; None is a failed call. */
  datatype Replies = Replies(userEMode: Option<uint8>, category: Option<EModeCategory>)

  datatype Outcome = Outcome(snapshot: Option<RiskSnapshot>, position: Position, categories: map<uint8, EModeCategory>)

  function LocalEMode(p: Position): EMode {
    EMode(p.eModeFetched, p.eModeCategoryId)
  }

  /** The user's category arrived, and its configuration is needed but not known. */
  predicate Unknown(known: map<uint8, EModeCategory>, replies: Replies) {
    replies.userEMode.Some? && replies.userEMode.value > 0 && replies.userEMode.value !in known
  }

  /** The user's category; None when it, or a configuration still missing for it, could not be fetched. */
  function LoadedCategory(known: map<uint8, EModeCategory>, replies: Replies): Option<uint8> {
    if Unknown(known, replies) && replies.category.None?
    then None
    else replies.userEMode
  }

  /** The configurations known after the fetch. */
  function LoadedCategories(known: map<uint8, EModeCategory>, replies: Replies): map<uint8, EModeCategory> {
    if Unknown(known, replies) && replies.category.Some?
    then known[replies.userEMode.value := replies.category.value]
    else known
  }

  /** The recalculation after the fetch; nothing is calculated in this round when the fetch fails. */
  function Fetched(m: Market, p: Position, keys: seq<Address>, replies: Replies, block: uint64): Outcome {
    var id := LoadedCategory(m.categories, replies);
    var categories := LoadedCategories(m.categories, replies);
    if id.None? then Outcome(None, p, categories)
    else
      Outcome(Snapshot(m.(categories := categories), p, EMode(true, id.value), keys, block),
              p.(eModeCategoryId := id.value, eModeFetched := true), categories)
  }

  lemma FetchedIndependentOfOrder(
    m: Market, p: Position, k1: seq<Address>, k2: seq<Address>, replies: Replies, block: uint64)
    requires Enumerates(k1, p.reserves) && Enumerates(k2, p.reserves)
    ensures Fetched(m, p, k1, replies, block) == Fetched(m, p, k2, replies, block)
  {
    var id := LoadedCategory(m.categories, replies);
    if id.Some? {
      var n := m.(categories := LoadedCategories(m.categories, replies));
      SnapshotIndependentOfOrder(n, p, EMode(true, id.value), k1, k2, block);
    }
  }

  /** At or above the minimum debt, below the safety threshold, and not yet fetched. */
  predicate NeedsFetch(s: Option<RiskSnapshot>, p: Position) {
    && s.Some? && s.value.totalDebtBase >= MIN_DEBT_THRESHOLD
    && !p.eModeFetched && s.value.healthFactor < HF_SAFETY_THRESHOLD
  }

  /** The result of calculateHF and what it stores. */
  function CalculateHF(m: Market, p: Position, keys: seq<Address>, replies: Replies, block: uint64): Outcome {
    var s := Snapshot(m, p, LocalEMode(p), keys, block);
    if NeedsFetch(s, p) then Fetched(m, p, keys, replies, block) else Outcome(s, p, m.categories)
  }

  /** The two rounds of calculateHF: the local snapshot decides, and the reserves may be visited in a different
      order in the second round. */
  lemma TwoRounds(m: Market, p: Position, first: seq<Address>, second: seq<Address>, replies: Replies, block: uint64)
    requires Enumerates(first, p.reserves) && Enumerates(second, p.reserves)
    ensures var s := Snapshot(m, p, LocalEMode(p), first, block);
            CalculateHF(m, p, first, replies, block)
              == if NeedsFetch(s, p) then Fetched(m, p, second, replies, block) else Outcome(s, p, m.categories)
  {
    FetchedIndependentOfOrder(m, p, first, second, replies, block);
  }

  /** What calculateHF does in each case: it asks the chain only for a user with at least one USD of debt, a local
      health factor below 1.05 and a category not fetched before; a failed call ends the round without a result
      and without a change; a known configuration is not fetched again. */
  lemma FetchCases(m: Market, p: Position, keys: seq<Address>, replies: Replies, block: uint64)
    ensures var s := Snapshot(m, p, EMode(p.eModeFetched, p.eModeCategoryId), keys, block);
            var o := CalculateHF(m, p, keys, replies, block);
            if || s.None? || s.value.totalDebtBase < 1_0000_0000 || p.eModeFetched
               || 100 * s.value.healthFactor >= 105 * 1_000_000_000_000_000_000
            then o == Outcome(s, p, m.categories)
            else match replies.userEMode
              case None => o == Outcome(None, p, m.categories)
              case Some(id) =>
                && (id > 0 && id !in m.categories && replies.category.None? ==> o == Outcome(None, p, m.categories))
                && (id == 0 || id in m.categories ==>
                      && o.categories == m.categories && o.position == p.(eModeCategoryId := id, eModeFetched := true)
                      && o.snapshot == Snapshot(m, p, EMode(true, id), keys, block))
                && (id > 0 && id !in m.categories && replies.category.Some? ==>
                      var n := m.(categories := m.categories[id := replies.category.value]);
                      && o.categories == n.categories && o.position == p.(eModeCategoryId := id, eModeFetched := true)
                      && o.snapshot == Snapshot(n, p, EMode(true, id), keys, block))
  {}

  // ---------- The eager calculation it must agree with ----------

  /** The user's category on chain, and the configuration of that category on chain. */
  datatype ChainEMode = ChainEMode(user: uint8, config: EModeCategory)

  /** Category of the user as far as anybody can know it: the one an event reported, else the chain's. */
  function TrueCategory(p: Position, c: ChainEMode): uint8 {
    if p.eModeFetched then p.eModeCategoryId else c.user
  }

  /** The market with the user's category loaded. */
  function Loaded(m: Market, p: Position, c: ChainEMode): Market {
    var id := TrueCategory(p, c);
    if id != 0 && id !in m.categories then m.(categories := m.categories[id := c.config]) else m
  }

  function EagerHF(m: Market, p: Position, keys: seq<Address>, c: ChainEMode, block: uint64): Option<RiskSnapshot> {
    Snapshot(Loaded(m, p, c), p, EMode(true, TrueCategory(p, c)), keys, block)
  }

  /** Every category raises the liquidation threshold of the assets in its bitmap, or leaves it. */
  ghost predicate Dominates(m: Market) {
    forall id, a :: id in m.categories && a in m.configs
      && Bit(m.categories[id].collateralBitmap, m.configs[a].reserveId)
      ==> m.configs[a].liquidationThreshold <= m.categories[id].liquidationThreshold
  }

  /** One input of the calculation: a position worth considering, in a sound market. */
  datatype World = World(m: Market, p: Position, keys: seq<Address>, chain: ChainEMode, block: uint64)
  {
    ghost predicate Admissible() {
      && m.Sound()
      && Dominates(Loaded(m, p, chain))
      && Enumerates(keys, p.reserves)
      && var s := Snapshot(m, p, LocalEMode(p), keys, block);
         s.Some? && s.value.totalDebtBase >= MIN_DEBT_THRESHOLD
    }

    function Lazy(): Option<RiskSnapshot> {
      CalculateHF(m, p, keys, Replies(Some(chain.user), Some(chain.config)), block).snapshot
    }

    function Eager(): Option<RiskSnapshot> {
      EagerHF(m, p, keys, chain, block)
    }

    /** Both calculations put the user on the same side of 1.05 and of 1.0. */
    predicate Agrees() {
      && Lazy().Some? && Eager().Some?
      && (Lazy().value.healthFactor < HF_SAFETY_THRESHOLD <==> Eager().value.healthFactor < HF_SAFETY_THRESHOLD)
      && (Lazy().value.healthFactor < HF_LIQUIDATION_THRESHOLD
          <==> Eager().value.healthFactor < HF_LIQUIDATION_THRESHOLD)
    }
  }

  lemma {:induction false} SumCongruent<K>(f: K -> int, g: K -> int, keys: seq<K>)
    requires forall k :: f(k) == g(k)
    ensures Sum(f, keys) == Sum(g, keys)
  {
    SumMonotone(f, g, keys);
    SumMonotone(g, f, keys);
  }

  /** Debt, and whether a snapshot exists at all, do not depend on E-Mode. */
  lemma DebtIgnoresEMode(m: Market, n: Market, p: Position, e1: EMode, e2: EMode, keys: seq<Address>, block: uint64)
    requires n == m.(categories := n.categories)
    ensures Sum(DebtAt(m, p), keys) == Sum(DebtAt(n, p), keys)
    ensures Snapshot(m, p, e1, keys, block).Some? <==> Snapshot(n, p, e2, keys, block).Some?
  {
    SumCongruent(DebtAt(m, p), DebtAt(n, p), keys);
    forall k ensures Unpriced(m, p, k) <==> Unpriced(n, p, k) {}
  }

  /** Without E-Mode the categories are not consulted. */
  lemma PlainIgnoresCategories(m: Market, n: Market, p: Position, id: uint8, keys: seq<Address>, block: uint64)
    requires n == m.(categories := n.categories)
    ensures Snapshot(m, p, EMode(false, id), keys, block) == Snapshot(n, p, EMode(false, id), keys, block)
  {
    var e := EMode(false, id);
    DebtIgnoresEMode(m, n, p, e, e, keys, block);
    SumCongruent(RawAt(m, p), RawAt(n, p), keys);
    SumCongruent(WeightedAt(m, p, e), WeightedAt(n, p, e), keys);
  }

  /** Switching E-Mode on never lowers the health factor when the categories dominate. */
  lemma EModeRaises(m: Market, p: Position, id0: uint8, id: uint8, keys: seq<Address>, block: uint64)
    requires m.Sound() && Dominates(m)
    requires Snapshot(m, p, EMode(false, id0), keys, block).Some? && Snapshot(m, p, EMode(true, id), keys, block).Some?
    ensures Snapshot(m, p, EMode(false, id0), keys, block).value.healthFactor
         <= Snapshot(m, p, EMode(true, id), keys, block).value.healthFactor
  {
    var e0, e := EMode(false, id0), EMode(true, id);
    forall k ensures WeightedAt(m, p, e0)(k) <= WeightedAt(m, p, e)(k) {
      if k in p.reserves {
        var r := p.reserves[k];
        CollateralValueNonNeg(m, r);
        var v := CollateralValue(m, r);
        assert ReserveLt(m, r, e0) <= ReserveLt(m, r, e);
        WeightedMonotone(v, v, ReserveLt(m, r, e0), ReserveLt(m, r, e));
        assert WeightedAt(m, p, e0)(k) == v * ReserveLt(m, r, e0);
        assert WeightedAt(m, p, e)(k) == v * ReserveLt(m, r, e);
      }
    }
    SaferHasHigherFactor(m, p, e0, p, e, keys, block);
  }

  /** A user whose category was learnt from an event but never loaded: the one gap in the lazy path. */
  predicate CategoryMissing(categories: map<uint8, EModeCategory>, fetched: bool, id: uint8) {
    fetched && id != 0 && id !in categories
  }

  /** Unless the category is missing, lazy and eager calculation classify the user alike. */
  lemma LazyAgrees(w: World)
    requires w.Admissible()
    requires !CategoryMissing(w.m.categories, w.p.eModeFetched, w.p.eModeCategoryId)
    ensures w.Agrees()
  {
    var m, n := w.m, Loaded(w.m, w.p, w.chain);
    var id := TrueCategory(w.p, w.chain);
    var local := Snapshot(m, w.p, LocalEMode(w.p), w.keys, w.block);
    DebtIgnoresEMode(m, n, w.p, LocalEMode(w.p), EMode(true, id), w.keys, w.block);
    if !w.p.eModeFetched && local.value.healthFactor >= HF_SAFETY_THRESHOLD {
      PlainIgnoresCategories(m, n, w.p, w.p.eModeCategoryId, w.keys, w.block);
      EModeRaises(n, w.p, w.p.eModeCategoryId, id, w.keys, w.block);
      assert w.Lazy() == local;
    }
  }

  ghost predicate AlwaysAgrees(categories: map<uint8, EModeCategory>, fetched: bool, id: uint8) {
    forall w: World ::
      (w.Admissible() && w.m.categories == categories && w.p.eModeFetched == fetched && w.p.eModeCategoryId == id)
      ==> w.Agrees()
  }

  /** A debt of one 1-USD token against 2 tokens of a collateral that counts only in the category. */
  function Witness(categories: map<uint8, EModeCategory>, id: uint8): World {
    var cfg := AssetConfig(0, 0, 10500, 0, 0);
    var idx := GlobalIndex(RAY, RAY, 0);
    var m := Market(map["a" := 1_0000_0000], map["a" := idx], map["a" := cfg], categories);
    var p := Position(map["a" := Reserve("a", 2, 1, true)], id, true);
    World(m, p, ["a"], ChainEMode(id, EModeCategory(10000, 10100, 1)), 0)
  }

  lemma WitnessDisagrees(categories: map<uint8, EModeCategory>, id: uint8)
    requires CategoryMissing(categories, true, id)
    ensures Witness(categories, id).Admissible() && !Witness(categories, id).Agrees()
  {
    var w := Witness(categories, id);
    var n := Loaded(w.m, w.p, w.chain);
    var e := EMode(true, id);
    DivIs(2 * RAY + RAY / 2, RAY, 2);
    DivIs(1 * RAY + RAY / 2, RAY, 1);
    assert Pow(10, 0) == 1 && Pow(2, 0) == 1;
    assert Bit(1, 0);
    assert w.keys == ["a"] && w.keys[..0] == [];
    assert CollateralValue(w.m, w.p.reserves["a"]) == 2_0000_0000 == CollateralValue(n, w.p.reserves["a"]);
    assert DebtValue(w.m, w.p.reserves["a"]) == 1_0000_0000 == DebtValue(n, w.p.reserves["a"]);
    assert Sum(DebtAt(w.m, w.p), w.keys) == DebtAt(w.m, w.p)("a") == 1_0000_0000;
    assert Sum(DebtAt(n, w.p), w.keys) == DebtAt(n, w.p)("a") == 1_0000_0000;
    assert Sum(WeightedAt(w.m, w.p, e), w.keys) == WeightedAt(w.m, w.p, e)("a") == 0;
    assert Sum(WeightedAt(n, w.p, e), w.keys) == WeightedAt(n, w.p, e)("a") == 2_0000_0000 * 10000;
    assert w.Lazy().Some? && w.Lazy().value.healthFactor == 0;
    assert w.Eager().Some? && w.Eager().value.healthFactor == 2 * WAD;
  }

  /** In the gap the lazy result errs on one side only: it never reports a higher health factor than the
      eager one, so a liquidatable user is still seen as liquidatable. */
  lemma MissingCategoryIsConservative(w: World)
    requires w.Admissible()
    requires CategoryMissing(w.m.categories, w.p.eModeFetched, w.p.eModeCategoryId)
    ensures w.Lazy().Some? && w.Eager().Some?
    ensures w.Lazy().value.healthFactor <= w.Eager().value.healthFactor
  {
    var m, n := w.m, Loaded(w.m, w.p, w.chain);
    var id := w.p.eModeCategoryId;
    DebtIgnoresEMode(m, n, w.p, EMode(true, id), EMode(true, id), w.keys, w.block);
    DebtIgnoresEMode(m, m, w.p, EMode(true, id), EMode(false, id), w.keys, w.block);
    SumCongruent(WeightedAt(m, w.p, EMode(true, id)), WeightedAt(m, w.p, EMode(false, id)), w.keys);
    PlainIgnoresCategories(m, n, w.p, id, w.keys, w.block);
    EModeRaises(n, w.p, id, id, w.keys, w.block);
  }

  /** calculateHF agrees with an eager calculation for every market and position exactly when the user's
      category is not one that an event reported and nobody loaded. */
  lemma LazyAgreesIff(categories: map<uint8, EModeCategory>, fetched: bool, id: uint8)
    ensures AlwaysAgrees(categories, fetched, id) <==> !CategoryMissing(categories, fetched, id)
  {
    if CategoryMissing(categories, fetched, id) {
      WitnessDisagrees(categories, id);
      assert !Witness(categories, id).Agrees();
    } else {
      forall w: World | w.Admissible() && w.m.categories == categories
          && w.p.eModeFetched == fetched && w.p.eModeCategoryId == id
        ensures w.Agrees()
      {
        LazyAgrees(w);
      }
    }
  }
}
