// internal/rpc/bootstrapper.go and GraphUserResponse in internal/models/external.go: seeding the store.
module Bootstrapper {
  import opened Models
  import opened RayMath
  import opened Hex
  import opened Ledgers
  import opened Store
  import D = Drift

  // ---------- Text to numbers ----------

  predicate AllDecimal(s: string) {
    forall i :: 0 <= i < |s| ==> '0' <= s[i] <= '9'
  }

  function DecValue(s: string): nat
    requires AllDecimal(s)
  {
    if s == "" then 0 else DecValue(s[..|s| - 1]) * 10 + (s[|s| - 1] - '0') as nat
  }

  /** A decimal integer with an optional sign, as both big.Int.SetString(s, 10) and strconv.Atoi read it. */
  function ParseDecimal(s: string): Option<int> {
    var digits := if s != "" && (s[0] == '+' || s[0] == '-') then s[1..] else s;
    if digits == "" || !AllDecimal(digits) then None
    else
      var magnitude: int := DecValue(digits);
      Some(if s[0] == '-' then -magnitude else magnitude)
  }

  /** n in decimal. */
  function FormatDecimal(n: nat): (s: string)
    ensures s != ""
  {
    if n < 10 then ['0' + n as char] else FormatDecimal(n / 10) + ['0' + (n % 10) as char]
  }

  lemma {:induction false} DecimalReads(n: nat)
    ensures AllDecimal(FormatDecimal(n)) && DecValue(FormatDecimal(n)) == n
  {
    var s := FormatDecimal(n);
    if n < 10 {
      assert s[..0] == "" && s[0] == '0' + n as char;
    } else {
      DecimalReads(n / 10);
      assert s[..|s| - 1] == FormatDecimal(n / 10);
    }
  }

  lemma DecimalRoundTrip(n: nat)
    ensures ParseDecimal(FormatDecimal(n)) == Some(n)
  {
    DecimalReads(n);
    assert '0' <= FormatDecimal(n)[0] <= '9';
  }

  /** parseAndCleanBigInt: unreadable, negative and dust amounts become zero. */
  function ParseAndClean(value: string): int {
    var num := ParseDecimal(value);
    if num.None? || num.value < 0 || num.value <= DUST_THRESHOLD then 0 else num.value
  }

  lemma ParseAndCleanIsCleanUp(value: string)
    ensures ParseAndClean(value) == if ParseDecimal(value).Some? then CleanUp(ParseDecimal(value).value) else 0
  {}

  // ---------- What The Graph returns ----------

  datatype GraphReserve = GraphReserve(
    underlyingAsset: Address, scaledATokenBalance: string, scaledVariableDebt: string, usageAsCollateral: bool)

  datatype GraphUser = GraphUser(id: Address, eModeCategoryId: Option<string>, reserves: seq<GraphReserve>)
  {
    /** GetEModeID: 0 without a readable category, else the low byte of an int. */
    function GetEModeID(): uint8 {
      if eModeCategoryId.None? || eModeCategoryId.value == "" then 0
      else
        var val := ParseDecimal(eModeCategoryId.value);
        if val.None? || val.value < -TWO_63 || val.value >= TWO_63 then 0 else val.value % 256
    }
  }

  /** A category id is read back exactly when it fits a byte; a larger one is taken for another category. */
  lemma CategoryReadIff(g: GraphUser, n: nat)
    requires g.eModeCategoryId == Some(FormatDecimal(n))
    ensures g.GetEModeID() == n <==> n < 256
  {
    DecimalRoundTrip(n);
  }

  // ---------- Seeding ----------

  /** One reserve of a user as it will be stored: the map key and the cleaned value. */
  datatype Holding = Holding(key: Address, value: Reserve)
  {
    predicate Empty() {
      value.aToken == 0 && value.debt == 0
    }
  }

  datatype Borrower = Borrower(user: Address, category: uint8, holdings: seq<Holding>)

  function HoldingOf(r: GraphReserve): Holding {
    Holding(ToLower(r.underlyingAsset),
            Reserve(r.underlyingAsset, ParseAndClean(r.scaledATokenBalance), ParseAndClean(r.scaledVariableDebt),
                    r.usageAsCollateral))
  }

  function HoldingsOf(rs: seq<GraphReserve>): seq<Holding> {
    seq(|rs|, i requires 0 <= i < |rs| => HoldingOf(rs[i]))
  }

  function BorrowerOf(u: GraphUser): Borrower {
    Borrower(ToLower(u.id), u.GetEModeID(), HoldingsOf(u.reserves))
  }

  function BorrowersOf(users: seq<GraphUser>): seq<Borrower> {
    seq(|users|, i requires 0 <= i < |users| => BorrowerOf(users[i]))
  }

  function SeedHolding(l: Ledger, user: Address, h: Holding): Ledger {
    if h.Empty() then l else SetReserve(l, user, h.key, h.value)
  }

  function SeedHoldings(l: Ledger, user: Address, hs: seq<Holding>): Ledger {
    if hs == [] then l else SeedHolding(SeedHoldings(l, user, hs[..|hs| - 1]), user, hs[|hs| - 1])
  }

  function SeedBorrower(l: Ledger, b: Borrower): Ledger {
    SeedHoldings(SetEMode(l, b.user, b.category), b.user, b.holdings)
  }

  function Seed(l: Ledger, bs: seq<Borrower>): Ledger {
    if bs == [] then l else SeedBorrower(Seed(l, bs[..|bs| - 1]), bs[|bs| - 1])
  }

  function WithIndices(
    indices: map<Address, GlobalIndex>, entries: seq<(Address, GlobalIndex)>): map<Address, GlobalIndex>
  {
    if entries == [] then indices
    else
      var (asset, index) := entries[|entries| - 1];
      WithIndices(indices, entries[..|entries| - 1])[ToLower(asset) := index]
  }

  function WithCategories(
    known: map<uint8, EModeCategory>, entries: seq<(uint8, EModeCategory)>): map<uint8, EModeCategory>
  {
    if entries == [] then known
    else
      var (id, category) := entries[|entries| - 1];
      WithCategories(known, entries[..|entries| - 1])[id := category]
  }

  function UsedCategories(users: seq<GraphUser>): set<uint8> {
    if users == [] then {}
    else
      var id := users[|users| - 1].GetEModeID();
      UsedCategories(users[..|users| - 1]) + if id != 0 then {id} else {}
  }

  /** All the answers Run asks for have arrived. */
  predicate Answered(
    anchor: Option<uint64>, reserveData: Option<seq<(Address, GlobalIndex)>>, users: Option<seq<GraphUser>>,
    categories: Option<seq<(uint8, EModeCategory)>>)
  {
    && anchor.Some? && reserveData.Some? && users.Some?
    && (UsedCategories(users.value) == {} || categories.Some?)
  }

  class Bootstrapper {
    const store: StateStore

    constructor (store: StateStore)
      ensures this.store == store
    {
      this.store := store;
    }

    method SeedReserve(user: Address, res: GraphReserve)
      requires store.Valid()
      modifies store`userPositions, store`assetSubscribers, store`Repr, store.Repr
      ensures store.Valid() && fresh(store.Repr - old(store.Repr))
      ensures store.Ledger() == SeedHolding(old(store.Ledger()), ToLower(user), HoldingOf(res))
    {
      var aTokenBal := ParseAndClean(res.scaledATokenBalance);
      var varDebtBal := ParseAndClean(res.scaledVariableDebt);
      if aTokenBal == 0 && varDebtBal == 0 {
        return;
      }
      var value := Reserve(res.underlyingAsset, aTokenBal, varDebtBal, res.usageAsCollateral);
      var reserve := new UserReserve(ToLower(user), value);
      store.UpsertUserReserve(user, reserve);
    }

    method SeedReserves(user: Address, reserves: seq<GraphReserve>)
      requires store.Valid()
      modifies store`userPositions, store`assetSubscribers, store`Repr, store.Repr
      ensures store.Valid() && fresh(store.Repr - old(store.Repr))
      ensures store.Ledger() == SeedHoldings(old(store.Ledger()), ToLower(user), HoldingsOf(reserves))
    {
      ghost var hs := HoldingsOf(reserves);
      for k := 0 to |reserves|
        invariant store.Valid() && fresh(store.Repr - old(store.Repr))
        invariant store.Ledger() == SeedHoldings(old(store.Ledger()), ToLower(user), hs[..k])
      {
        SeedReserve(user, reserves[k]);
        assert hs[..k + 1][..k] == hs[..k];
      }
      assert hs[..|reserves|] == hs;
    }

    method SeedUser(u: GraphUser)
      requires store.Valid()
      modifies store`userPositions, store`assetSubscribers, store`Repr, store.Repr
      ensures store.Valid() && fresh(store.Repr - old(store.Repr))
      ensures store.Ledger() == SeedBorrower(old(store.Ledger()), BorrowerOf(u))
    {
      store.SetUserEMode(u.id, u.GetEModeID());
      SeedReserves(u.id, u.reserves);
    }

    /** The users of Run, each with its E-Mode and its reserves. */
    method SeedUsers(users: seq<GraphUser>)
      requires store.Valid()
      modifies store`userPositions, store`assetSubscribers, store`Repr, store.Repr
      ensures store.Valid() && fresh(store.Repr - old(store.Repr))
      ensures store.Ledger() == Seed(old(store.Ledger()), BorrowersOf(users))
    {
      ghost var bs := BorrowersOf(users);
      for k := 0 to |users|
        invariant store.Valid() && fresh(store.Repr - old(store.Repr))
        invariant store.Ledger() == Seed(old(store.Ledger()), bs[..k])
      {
        SeedUser(users[k]);
        assert bs[..k + 1][..k] == bs[..k];
      }
      assert bs[..|users|] == bs;
    }

    /** The indices of Run, in the order in which the map is iterated. */
    method SeedIndices(entries: seq<(Address, GlobalIndex)>)
      requires store.Valid()
      modifies store`globalIndices
      ensures store.Valid()
      ensures store.Ledger() == old(store.Ledger()).(indices := WithIndices(old(store.Ledger()).indices, entries))
    {
      for k := 0 to |entries|
        invariant store.Valid()
        invariant store.Ledger()
               == old(store.Ledger()).(indices := WithIndices(old(store.Ledger()).indices, entries[..k]))
      {
        store.SetGlobalIndex(entries[k].0, entries[k].1);
        assert entries[..k + 1][..k] == entries[..k];
      }
      assert entries[..|entries|] == entries;
    }

    /** The E-Mode categories of Run, in the order in which the map is iterated. */
    method SeedCategories(entries: seq<(uint8, EModeCategory)>)
      requires store.Valid()
      modifies store`eModeCategories
      ensures store.Valid() && store.Ledger() == old(store.Ledger())
      ensures store.eModeCategories == WithCategories(old(store.eModeCategories), entries)
    {
      for k := 0 to |entries|
        invariant store.Valid() && store.Ledger() == old(store.Ledger())
        invariant store.eModeCategories == WithCategories(old(store.eModeCategories), entries[..k])
      {
        store.SetEModeCategory(entries[k].0, entries[k].1);
        assert entries[..k + 1][..k] == entries[..k];
      }
      assert entries[..|entries|] == entries;
    }

    /** The categories asked for: those some user is in. */
    method CategoryIds(users: seq<GraphUser>) returns (ids: set<uint8>)
      ensures ids == UsedCategories(users)
    {
      ids := {};
      for k := 0 to |users|
        invariant ids == UsedCategories(users[..k])
      {
        var catID := users[k].GetEModeID();
        if catID != 0 {
          ids := ids + {catID};
        }
        assert users[..k + 1][..k] == users[..k];
      }
      assert users[..|users|] == users;
    }

    /** Run: anchor, reserve data, users, and the E-Mode categories of the users if there are any, each from a
        remote answer that may be missing. No user is stored unless all of them arrive. */
    method Run(
      anchor: Option<uint64>, reserveData: Option<seq<(Address, GlobalIndex)>>, users: Option<seq<GraphUser>>,
      categories: Option<seq<(uint8, EModeCategory)>>)
      returns (ok: bool)
      requires store.Valid()
      modifies store, store.Repr
      ensures store.Valid() && fresh(store.Repr - old(store.Repr))
      ensures ok <==> Answered(anchor, reserveData, users, categories)
      ensures !ok ==> store.Ledger().positions == old(store.Ledger()).positions
      ensures anchor.Some? ==> store.anchorBlock == anchor.value
      ensures ok ==>
        var l := old(store.Ledger());
        store.Ledger() == Seed(l.(indices := WithIndices(l.indices, reserveData.value)), BorrowersOf(users.value))
      ensures ok ==>
        store.eModeCategories
          == if UsedCategories(users.value) == {} then old(store.eModeCategories)
             else WithCategories(old(store.eModeCategories), categories.value)
    {
      if anchor.None? {
        return false;
      }
      store.SetAnchorBlock(anchor.value);
      if reserveData.None? {
        return false;
      }
      SeedIndices(reserveData.value);
      if users.None? {
        return false;
      }
      var catIds := CategoryIds(users.value);
      if catIds != {} {
        if categories.None? {
          return false;
        }
        SeedCategories(categories.value);
      }
      SeedUsers(users.value);
      ok := true;
    }
  }

  /** A category is asked for exactly when it is not 0 and some fetched user is in it. */
  lemma {:induction false} UsedCategoriesExact(users: seq<GraphUser>, id: uint8)
    ensures id in UsedCategories(users) <==> id != 0 && exists i :: 0 <= i < |users| && users[i].GetEModeID() == id
  {
    if users != [] {
      var n := |users| - 1;
      UsedCategoriesExact(users[..n], id);
      if i :| 0 <= i < n && users[..n][i].GetEModeID() == id { assert users[i].GetEModeID() == id; }
    }
  }

  /** The answer is stored as it is: the fetched configuration of every category in it, the old one of any other. */
  lemma {:induction false} CategoriesExact(
    known: map<uint8, EModeCategory>, entries: seq<(uint8, EModeCategory)>, id: uint8)
    requires forall i, j :: 0 <= i < j < |entries| ==> entries[i].0 != entries[j].0
    ensures forall i :: 0 <= i < |entries| && entries[i].0 == id ==>
              id in WithCategories(known, entries) && WithCategories(known, entries)[id] == entries[i].1
    ensures (forall i :: 0 <= i < |entries| ==> entries[i].0 != id) ==>
              && (id in WithCategories(known, entries) <==> id in known)
              && (id in known ==> WithCategories(known, entries)[id] == known[id])
  {
    if entries != [] {
      var n := |entries| - 1;
      CategoriesExact(known, entries[..n], id);
      assert forall i :: 0 <= i < n ==> entries[..n][i] == entries[i];
    }
  }

  /** After a complete answer no seeded user is in a category the store does not know. */
  lemma CategoriesKnown(
    users: seq<GraphUser>, known: map<uint8, EModeCategory>, entries: seq<(uint8, EModeCategory)>, k: nat)
    requires k < |users| && users[k].GetEModeID() != 0
    requires forall i, j :: 0 <= i < j < |entries| ==> entries[i].0 != entries[j].0
    requires forall id :: id in UsedCategories(users) ==> exists i :: 0 <= i < |entries| && entries[i].0 == id
    ensures users[k].GetEModeID() in WithCategories(known, entries)
  {
    var id := users[k].GetEModeID();
    UsedCategoriesExact(users, id);
    CategoriesExact(known, entries, id);
  }

  // ---------- The seeded ledger is a snapshot of the chain ----------

  /** r is one entry of the chain position p, its balances written in decimal, with its flag. */
  ghost predicate ReportsReserve(r: GraphReserve, p: Position) {
    && ToLower(r.underlyingAsset) == r.underlyingAsset && r.underlyingAsset in p.reserves
    && ParseDecimal(r.scaledATokenBalance) == Some(p.reserves[r.underlyingAsset].aToken)
    && ParseDecimal(r.scaledVariableDebt) == Some(p.reserves[r.underlyingAsset].debt)
    && r.usageAsCollateral == p.reserves[r.underlyingAsset].collateral
  }

  /** g reports the position p: the same assets, each once. */
  ghost predicate ReportsPosition(g: GraphUser, p: Position) {
    && (forall i, j :: 0 <= i < j < |g.reserves| ==> g.reserves[i].underlyingAsset != g.reserves[j].underlyingAsset)
    && (forall i :: 0 <= i < |g.reserves| ==> ReportsReserve(g.reserves[i], p))
    && (forall a :: a in p.reserves ==> exists i :: 0 <= i < |g.reserves| && g.reserves[i].underlyingAsset == a)
  }

  predicate Mentions(users: seq<GraphUser>, u: Address) {
    exists i :: 0 <= i < |users| && users[i].id == u
  }

  /** The text of a category id; category 0 may also be left out. */
  predicate DenotesCategory(text: Option<string>, id: nat) {
    text == Some(FormatDecimal(id)) || (id == 0 && (text == None || text == Some("")))
  }

  lemma CategoryRead(g: GraphUser, id: uint8)
    requires DenotesCategory(g.eModeCategoryId, id)
    ensures g.GetEModeID() == id
  {
    if g.eModeCategoryId == Some(FormatDecimal(id)) { CategoryReadIff(g, id); }
  }

  ghost predicate ReportsUser(g: GraphUser, c: Ledger) {
    && ToLower(g.id) == g.id && ReportsPosition(g, PositionOf(c, g.id))
    && DenotesCategory(g.eModeCategoryId, PositionOf(c, g.id).eModeCategoryId)
  }

  /** The Graph's answer for the state c: every borrower once, nobody else, each with its position. */
  ghost predicate Reports(users: seq<GraphUser>, c: Ledger) {
    && (forall i, j :: 0 <= i < j < |users| ==> users[i].id != users[j].id)
    && (forall i :: 0 <= i < |users| ==> ReportsUser(users[i], c))
    && (forall u :: D.IsBorrower(c, u) <==> Mentions(users, u))
  }

  /** v holds the cleaned balances and the flag of s. */
  predicate Cleaned(v: Reserve, s: Reserve) {
    v.aToken == CleanUp(s.aToken) && v.debt == CleanUp(s.debt) && v.collateral == s.collateral
  }

  /** hs holds each entry of p, cleaned, once. */
  ghost predicate Mirrors(hs: seq<Holding>, p: Position) {
    && (forall i, j :: 0 <= i < j < |hs| ==> hs[i].key != hs[j].key)
    && (forall i :: 0 <= i < |hs| ==>
          && hs[i].key in p.reserves && hs[i].value.assetAddress == hs[i].key
          && Cleaned(hs[i].value, p.reserves[hs[i].key]))
    && (forall a :: a in p.reserves ==> exists i :: 0 <= i < |hs| && hs[i].key == a)
  }

  lemma HoldingMirrors(r: GraphReserve, p: Position)
    requires ReportsReserve(r, p)
    ensures HoldingOf(r).key == r.underlyingAsset
    ensures HoldingOf(r).value.assetAddress == r.underlyingAsset
    ensures Cleaned(HoldingOf(r).value, p.reserves[r.underlyingAsset])
  {}

  lemma HoldingsMirror(rs: seq<GraphReserve>, g: GraphUser, p: Position)
    requires g.reserves == rs && ReportsPosition(g, p)
    ensures Mirrors(HoldingsOf(rs), p)
  {
    var hs := HoldingsOf(rs);
    forall i | 0 <= i < |rs|
      ensures hs[i].key == rs[i].underlyingAsset == hs[i].value.assetAddress && hs[i].key in p.reserves
      ensures Cleaned(hs[i].value, p.reserves[hs[i].key])
    {
      HoldingMirrors(rs[i], p);
    }
    forall a | a in p.reserves ensures exists i :: 0 <= i < |hs| && hs[i].key == a {
      var i :| 0 <= i < |rs| && rs[i].underlyingAsset == a;
      assert hs[i].key == a;
    }
  }

  /** The last holding written for an asset stays; everything else is as before. */
  lemma {:induction false} SeedHoldingsAt(l: Ledger, user: Address, hs: seq<Holding>, u: Address, a: Address)
    requires forall i, j :: 0 <= i < j < |hs| ==> hs[i].key != hs[j].key
    ensures (u != user || forall i :: 0 <= i < |hs| ==> hs[i].key != a) ==>
              ReserveOf(SeedHoldings(l, user, hs), u, a) == ReserveOf(l, u, a)
    ensures forall i :: 0 <= i < |hs| && hs[i].key == a && u == user && !hs[i].Empty() ==>
              ReserveOf(SeedHoldings(l, user, hs), u, a) == hs[i].value
    ensures forall i :: 0 <= i < |hs| && hs[i].key == a && hs[i].Empty() ==>
              ReserveOf(SeedHoldings(l, user, hs), u, a) == ReserveOf(l, u, a)
  {
    if hs != [] {
      var n := |hs| - 1;
      var init, h := hs[..n], hs[n];
      SeedHoldingsAt(l, user, init, u, a);
      D.SetReserveAt(SeedHoldings(l, user, init), user, h.key, h.value, u, a);
      assert forall i :: 0 <= i < n ==> init[i] == hs[i];
    }
  }

  /** What is stored for the chain entry s: cleaned balances, and the flag unless the entry was skipped. */
  predicate Seeded(r: Reserve, s: Reserve) {
    && r.aToken == CleanUp(s.aToken) && r.debt == CleanUp(s.debt)
    && r.collateral == (!D.Skipped(s) && s.collateral)
  }

  /** Seeding one more borrower: its chain balances, cleaned, and nobody else's. */
  lemma SeedBorrowerAt(l: Ledger, b: Borrower, p: Position, u: Address, a: Address)
    requires Mirrors(b.holdings, p)
    requires ReserveOf(l, b.user, a) == EmptyReserve(a)
    ensures u != b.user ==> ReserveOf(SeedBorrower(l, b), u, a) == ReserveOf(l, u, a)
    ensures var r := ReserveOf(SeedBorrower(l, b), b.user, a);
            var s := if a in p.reserves then p.reserves[a] else EmptyReserve(a);
            r.assetAddress == a && Seeded(r, s)
  {
    var l' := SetEMode(l, b.user, b.category);
    assert ReserveOf(l', u, a) == ReserveOf(l, u, a);
    assert ReserveOf(l', b.user, a) == ReserveOf(l, b.user, a);
    SeedHoldingsAt(l', b.user, b.holdings, u, a);
    SeedHoldingsAt(l', b.user, b.holdings, b.user, a);
    if a in p.reserves {
      var i :| 0 <= i < |b.holdings| && b.holdings[i].key == a;
      assert Cleaned(b.holdings[i].value, p.reserves[a]);
    }
  }

  /** bs holds the listed users of c, each once, with their categories. */
  ghost predicate MirrorsAll(bs: seq<Borrower>, c: Ledger) {
    && (forall i, j :: 0 <= i < j < |bs| ==> bs[i].user != bs[j].user)
    && (forall i :: 0 <= i < |bs| ==>
          && Mirrors(bs[i].holdings, PositionOf(c, bs[i].user))
          && bs[i].category == PositionOf(c, bs[i].user).eModeCategoryId)
  }

  predicate Lists(bs: seq<Borrower>, u: Address) {
    exists i :: 0 <= i < |bs| && bs[i].user == u
  }

  /** l agrees with the cleaned balances of c on the listed users and is empty elsewhere, at (u, a). */
  predicate SeededAt(l: Ledger, bs: seq<Borrower>, c: Ledger, u: Address, a: Address) {
    var r := ReserveOf(l, u, a);
    r.assetAddress == a && if Lists(bs, u) then Seeded(r, ReserveOf(c, u, a)) else r == EmptyReserve(a)
  }

  lemma ListsPush(init: seq<Borrower>, b: Borrower, u: Address)
    ensures Lists(init + [b], u) <==> u == b.user || Lists(init, u)
  {
    var bs := init + [b];
    if u == b.user {
      assert bs[|init|].user == u;
    }
    if i :| 0 <= i < |init| && init[i].user == u {
      assert bs[i].user == u;
    }
  }

  lemma SeedStepAt(l: Ledger, init: seq<Borrower>, b: Borrower, c: Ledger, u: Address, a: Address)
    requires Mirrors(b.holdings, PositionOf(c, b.user)) && !Lists(init, b.user)
    requires SeededAt(l, init, c, u, a) && SeededAt(l, init, c, b.user, a)
    ensures SeededAt(SeedBorrower(l, b), init + [b], c, u, a)
  {
    ListsPush(init, b, u);
    SeedBorrowerAt(l, b, PositionOf(c, b.user), u, a);
  }

  lemma {:induction false} SeedAt(
    bs: seq<Borrower>, c: Ledger, indices: map<Address, GlobalIndex>, u: Address, a: Address)
    requires MirrorsAll(bs, c)
    ensures SeededAt(Seed(Ledger(indices, map[]), bs), bs, c, u, a)
    decreases |bs|
  {
    if bs != [] {
      var n := |bs| - 1;
      var init, b := bs[..n], bs[n];
      assert bs == init + [b];
      assert forall i :: 0 <= i < n ==> init[i] == bs[i];
      SeedAt(init, c, indices, b.user, a);
      SeedAt(init, c, indices, u, a);
      SeedStepAt(Seed(Ledger(indices, map[]), init), init, b, c, u, a);
    }
  }

  // ---------- Categories ----------

  lemma {:induction false} SeedHoldingsCategory(l: Ledger, user: Address, hs: seq<Holding>, u: Address)
    ensures var p, q := PositionOf(l, u), PositionOf(SeedHoldings(l, user, hs), u);
            q.eModeFetched == p.eModeFetched && q.eModeCategoryId == p.eModeCategoryId
  {
    if hs != [] { SeedHoldingsCategory(l, user, hs[..|hs| - 1], u); }
  }

  /** Each listed borrower's category is stored as fetched; nobody else's position is marked so. */
  lemma {:induction false} SeedCategoryAt(bs: seq<Borrower>, indices: map<Address, GlobalIndex>, u: Address)
    requires forall i, j :: 0 <= i < j < |bs| ==> bs[i].user != bs[j].user
    ensures var p := PositionOf(Seed(Ledger(indices, map[]), bs), u);
            && (forall i :: 0 <= i < |bs| && bs[i].user == u ==> p.eModeFetched && p.eModeCategoryId == bs[i].category)
            && (!Lists(bs, u) ==> !p.eModeFetched)
  {
    if bs != [] {
      var n := |bs| - 1;
      var init, b := bs[..n], bs[n];
      SeedCategoryAt(init, indices, u);
      var before := Seed(Ledger(indices, map[]), init);
      SeedHoldingsCategory(SetEMode(before, b.user, b.category), b.user, b.holdings, u);
      assert bs == init + [b];
      ListsPush(init, b, u);
    }
  }

  /** After Run on a new store every fetched user's position carries the category its text denotes, as fetched: n for
      the text of n, and 0 without a category. */
  lemma CategorySeeded(users: seq<GraphUser>, indices: map<Address, GlobalIndex>, i: nat, id: uint8)
    requires forall j, k :: 0 <= j < k < |users| ==> ToLower(users[j].id) != ToLower(users[k].id)
    requires i < |users| && DenotesCategory(users[i].eModeCategoryId, id)
    ensures var u, l := ToLower(users[i].id), Seed(Ledger(indices, map[]), BorrowersOf(users));
            u in l.positions && l.positions[u].eModeFetched && l.positions[u].eModeCategoryId == id
  {
    var bs := BorrowersOf(users);
    CategoryRead(users[i], id);
    SeedCategoryAt(bs, indices, bs[i].user);
  }

  lemma {:induction false} SeedKeepsIndices(l: Ledger, bs: seq<Borrower>)
    ensures Seed(l, bs).indices == l.indices
  {
    if bs != [] {
      var n := |bs| - 1;
      SeedKeepsIndices(l, bs[..n]);
      SeedHoldingsKeepsIndices(SetEMode(Seed(l, bs[..n]), bs[n].user, bs[n].category), bs[n].user, bs[n].holdings);
    }
  }

  lemma {:induction false} SeedHoldingsKeepsIndices(l: Ledger, user: Address, hs: seq<Holding>)
    ensures SeedHoldings(l, user, hs).indices == l.indices
  {
    if hs != [] { SeedHoldingsKeepsIndices(l, user, hs[..|hs| - 1]); }
  }

  lemma BorrowerMirrors(g: GraphUser, c: Ledger)
    requires ReportsUser(g, c)
    ensures BorrowerOf(g).user == g.id && Mirrors(BorrowerOf(g).holdings, PositionOf(c, g.id))
    ensures BorrowerOf(g).category == PositionOf(c, g.id).eModeCategoryId
  {
    CategoryRead(g, PositionOf(c, g.id).eModeCategoryId);
    HoldingsMirror(g.reserves, g, PositionOf(c, g.id));
  }

  lemma BorrowersMirror(users: seq<GraphUser>, c: Ledger)
    requires Reports(users, c)
    ensures MirrorsAll(BorrowersOf(users), c)
    ensures forall u :: Lists(BorrowersOf(users), u) <==> D.IsBorrower(c, u)
  {
    var bs := BorrowersOf(users);
    forall i | 0 <= i < |users|
      ensures bs[i].user == users[i].id && Mirrors(bs[i].holdings, PositionOf(c, bs[i].user))
      ensures bs[i].category == PositionOf(c, bs[i].user).eModeCategoryId
    {
      BorrowerMirrors(users[i], c);
    }
    forall u ensures Lists(bs, u) <==> Mentions(users, u) {
      if i :| 0 <= i < |users| && users[i].id == u {
        assert bs[i].user == u;
      }
    }
  }

  /** entries lists the map m, whose keys are lower case, in one of its iteration orders. */
  ghost predicate ListsIndices(entries: seq<(Address, GlobalIndex)>, m: map<Address, GlobalIndex>) {
    && (forall i :: 0 <= i < |entries| ==>
          ToLower(entries[i].0) == entries[i].0 && entries[i].0 in m && m[entries[i].0] == entries[i].1)
    && (forall a :: a in m ==> exists i :: 0 <= i < |entries| && entries[i].0 == a)
  }

  lemma {:induction false} WithIndicesAt(entries: seq<(Address, GlobalIndex)>, m: map<Address, GlobalIndex>, a: Address)
    requires forall i :: 0 <= i < |entries| ==>
               ToLower(entries[i].0) == entries[i].0 && entries[i].0 in m && m[entries[i].0] == entries[i].1
    ensures a in WithIndices(map[], entries) <==> exists i :: 0 <= i < |entries| && entries[i].0 == a
    ensures a in WithIndices(map[], entries) ==> a in m && WithIndices(map[], entries)[a] == m[a]
  {
    if entries != [] {
      var n := |entries| - 1;
      WithIndicesAt(entries[..n], m, a);
      assert entries[n].0 == ToLower(entries[n].0);
    }
  }

  /** Whatever the iteration order, seeding an empty map gives the fetched indices. */
  lemma IndicesSeeded(entries: seq<(Address, GlobalIndex)>, m: map<Address, GlobalIndex>)
    requires ListsIndices(entries, m)
    ensures WithIndices(map[], entries) == m
  {
    forall a ensures a in WithIndices(map[], entries) <==> a in m {
      WithIndicesAt(entries, m, a);
    }
    forall a | a in m ensures WithIndices(map[], entries)[a] == m[a] {
      WithIndicesAt(entries, m, a);
    }
  }

  /** What Run leaves in a new store is the cleaned snapshot from which the drift bounds start. */
  lemma SeedIsSnapshot(entries: seq<(Address, GlobalIndex)>, users: seq<GraphUser>, c: Ledger)
    requires ListsIndices(entries, c.indices) && Reports(users, c)
    ensures D.IsSnapshot(Seed(Ledger(WithIndices(map[], entries), map[]), BorrowersOf(users)), c)
  {
    var bs := BorrowersOf(users);
    var l := Seed(Ledger(c.indices, map[]), bs);
    IndicesSeeded(entries, c.indices);
    SeedKeepsIndices(Ledger(c.indices, map[]), bs);
    BorrowersMirror(users, c);
    forall u, a
      ensures var r, s := ReserveOf(l, u, a), ReserveOf(c, u, a);
              && r.aToken == (if D.IsBorrower(c, u) then CleanUp(s.aToken) else 0)
              && r.debt == (if D.IsBorrower(c, u) then CleanUp(s.debt) else 0)
              && r.collateral == (D.IsBorrower(c, u) && !D.Skipped(s) && s.collateral)
              && r.assetAddress == a
    {
      SeedAt(bs, c, c.indices, u, a);
    }
    forall u ensures if D.IsBorrower(c, u) then D.KnowsCategory(l, c, u) else !PositionOf(l, u).eModeFetched {
      SeedCategoryAt(bs, c.indices, u);
    }
  }
}
