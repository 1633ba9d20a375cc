// internal/store/store.go and internal/models/domain.go: the in-memory state, as objects updated in place.
module Store {
  import opened Models
  import opened RayMath
  import opened Hex
  import L = Ledgers

  class UserReserve {
    const assetAddress: Address
    /** The user and the map key this object is stored under. */
    ghost const owner: Address
    ghost const key: Address
    var scaledATokenBalance: int
    var scaledVariableDebt: int
    var usageAsCollateralEnabledOnUser: bool

    constructor (ghost owner: Address, value: Reserve)
      ensures this.owner == owner && key == ToLower(value.assetAddress)
      ensures assetAddress == value.assetAddress && Value() == value
    {
      this.owner := owner;
      key := ToLower(value.assetAddress);
      assetAddress := value.assetAddress;
      scaledATokenBalance := value.aToken;
      scaledVariableDebt := value.debt;
      usageAsCollateralEnabledOnUser := value.collateral;
    }

    function Value(): Reserve
      reads this
    {
      Reserve(assetAddress, scaledATokenBalance, scaledVariableDebt, usageAsCollateralEnabledOnUser)
    }
  }

  class UserPosition {
    const userAddress: Address
    var reserves: map<Address, UserReserve>
    var eModeCategoryId: uint8
    var eModeFetched: bool

    constructor (userAddress: Address)
      ensures this.userAddress == userAddress && reserves == map[]
      ensures Valid() && Value() == L.EmptyPosition()
    {
      this.userAddress := userAddress;
      reserves, eModeCategoryId, eModeFetched := map[], 0, false;
    }

    /** Every reserve belongs to this user and sits under its own asset, so no object occurs twice. */
    ghost predicate Valid()
      reads this
    {
      forall a :: a in reserves ==> reserves[a].owner == userAddress && reserves[a].key == a
    }

    ghost predicate Within(objects: set<object>)
      reads this
    {
      this in objects && forall a :: a in reserves ==> reserves[a] in objects
    }

    function Value(): Position
      reads this, reserves.Values
    {
      Position(map a | a in reserves :: reserves[a].Value(), eModeCategoryId, eModeFetched)
    }

    method Put(a: Address, reserve: UserReserve)
      requires Valid() && reserve.owner == userAddress && reserve.key == a
      modifies this`reserves
      ensures Valid() && reserves == old(reserves)[a := reserve]
      ensures Value() == old(Value()).(reserves := old(Value()).reserves[a := reserve.Value()])
    {
      reserves := reserves[a := reserve];
      assert Value().reserves == old(Value()).reserves[a := reserve.Value()];
    }
  }

  class StateStore {
    var globalIndices: map<Address, GlobalIndex>
    var userPositions: map<Address, UserPosition>
    var anchorBlock: uint64
    var prices: map<Address, int>
    var assetConfigs: map<Address, AssetConfig>
    var assetSubscribers: map<Address, set<Address>>
    var eModeCategories: map<uint8, EModeCategory>
    var currentBlock: uint64

    /** The position and reserve objects of the store. */
    ghost var Repr: set<object>

    constructor ()
      ensures Valid() && fresh(Repr) && Ledger() == Models.Ledger(map[], map[])
      ensures anchorBlock == currentBlock == 0
    {
      globalIndices, userPositions, prices, assetConfigs := map[], map[], map[], map[];
      assetSubscribers, eModeCategories := map[], map[];
      anchorBlock, currentBlock := 0, 0;
      Repr := {};
    }

    /** Positions sit under their own users, and their objects belong to the store. */
    ghost predicate Shaped()
      reads this, Repr
    {
      && this !in Repr
      && forall u :: u in userPositions ==>
           && userPositions[u] in Repr
           && userPositions[u].userAddress == u
           && userPositions[u].Valid()
           && userPositions[u].Within(Repr)
    }

    ghost predicate HasReserve(u: Address, a: Address)
      reads this, userPositions.Values
    {
      u in userPositions && a in userPositions[u].reserves
    }

    predicate Subscribed(a: Address, u: Address)
      reads this
    {
      a in assetSubscribers && u in assetSubscribers[a]
    }

    /** assetSubscribers is the exact inverse of the reserve maps. */
    ghost predicate Inverse()
      reads this, userPositions.Values
    {
      forall u, a :: HasReserve(u, a) <==> Subscribed(a, u)
    }

    ghost predicate Valid()
      reads this, Repr, userPositions.Values
    {
      Shaped() && Inverse()
    }

    ghost function Positions(): map<Address, Position>
      requires Shaped()
      reads this, Repr
    {
      map u | u in userPositions :: userPositions[u].Value()
    }

    ghost function Ledger(): Ledger
      requires Shaped()
      reads this, Repr
    {
      Models.Ledger(globalIndices, Positions())
    }

    /** When every position but that of u is as it was, only the entry of u changes in the ledger. */
    twostate lemma OnlyOneChanged(u: Address)
      requires old(Shaped()) && Shaped()
      requires u in userPositions && userPositions == old(userPositions)[u := userPositions[u]]
      requires forall v :: v in old(userPositions) && v != u ==> unchanged(old(userPositions[v]))
      requires forall v, b :: v in old(userPositions) && v != u && b in old(userPositions[v].reserves) ==>
                 unchanged(old(userPositions[v].reserves[b]))
      ensures Positions() == old(Positions())[u := userPositions[u].Value()]
    {
      forall v | v in userPositions && v != u ensures userPositions[v].Value() == old(userPositions[v].Value()) {}
    }

    /** A stored object carries the value the ledger shows. */
    lemma ReserveValue(u: Address, a: Address, r: UserReserve)
      requires Shaped() && IsReserve(u, a, r)
      ensures L.Holds(Ledger(), u, a) && L.ReserveOf(Ledger(), u, a) == r.Value()
    {}

    /** What a risk or strategy calculation reads besides the position. */
    function View(): Market
      reads this
    {
      Market(prices, globalIndices, assetConfigs, eModeCategories)
    }

    // ---------- Blocks ----------

    method SetCurrentBlock(block: uint64)
      requires Valid()
      modifies this`currentBlock
      ensures Valid() && Ledger() == old(Ledger())
      ensures currentBlock == if block > old(currentBlock) then block else old(currentBlock)
    {
      if block > currentBlock {
        currentBlock := block;
      }
      assert forall u, a :: HasReserve(u, a) <==> old(HasReserve(u, a));
      assert Positions() == old(Positions());
    }

    method SetAnchorBlock(block: uint64)
      requires Valid()
      modifies this`anchorBlock, this`currentBlock
      ensures Valid() && Ledger() == old(Ledger())
      ensures anchorBlock == block
      ensures currentBlock == if old(currentBlock) == 0 then block else old(currentBlock)
    {
      anchorBlock := block;
      if currentBlock == 0 {
        currentBlock := block;
      }
      assert forall u, a :: HasReserve(u, a) <==> old(HasReserve(u, a));
      assert Positions() == old(Positions());
    }

    method SetEModeCategory(categoryId: uint8, category: EModeCategory)
      requires Valid()
      modifies this`eModeCategories
      ensures Valid() && Ledger() == old(Ledger())
      ensures View() == old(View()).(categories := old(eModeCategories)[categoryId := category])
    {
      eModeCategories := eModeCategories[categoryId := category];
      assert forall u, a :: HasReserve(u, a) <==> old(HasReserve(u, a));
      assert Positions() == old(Positions());
    }

    // ---------- Indices ----------

    method SetGlobalIndex(asset: Address, index: GlobalIndex)
      requires Valid()
      modifies this`globalIndices
      ensures Valid() && Ledger() == old(Ledger()).(indices := old(Ledger()).indices[ToLower(asset) := index])
    {
      globalIndices := globalIndices[ToLower(asset) := index];
      assert forall v, b :: HasReserve(v, b) <==> old(HasReserve(v, b));
      assert Positions() == old(Positions());
    }

    method GetGlobalIndex(asset: Address) returns (index: Option<GlobalIndex>)
      requires Valid()
      ensures index == if ToLower(asset) in Ledger().indices then Some(Ledger().indices[ToLower(asset)]) else None
    {
      var key := ToLower(asset);
      index := if key in globalIndices then Some(globalIndices[key]) else None;
    }

    // ---------- Positions ----------

    method AddPosition(u: Address)
      requires Valid() && u !in userPositions
      modifies this`userPositions, this`Repr
      ensures Valid() && fresh(Repr - old(Repr)) && old(Repr) <= Repr
      ensures u in userPositions && fresh(userPositions[u])
      ensures userPositions == old(userPositions)[u := userPositions[u]]
      ensures Ledger() == L.WithPosition(old(Ledger()), u)
    {
      var created := new UserPosition(u);
      userPositions := userPositions[u := created];
      Repr := Repr + {created};
      assert forall v, a :: HasReserve(v, a) <==> old(HasReserve(v, a));
      OnlyOneChanged(u);
    }

    /** The first half of the position methods: make sure the user has a position. */
    method EnsurePosition(u: Address) returns (p: UserPosition)
      requires Valid()
      modifies this`userPositions, this`Repr
      ensures Valid() && fresh(Repr - old(Repr)) && old(Repr) <= Repr
      ensures u in userPositions && p == userPositions[u] && (p in old(Repr) || fresh(p))
      ensures u in old(userPositions) ==> userPositions == old(userPositions)
      ensures Ledger() == L.WithPosition(old(Ledger()), u)
    {
      if u !in userPositions {
        AddPosition(u);
      } else {
        assert Positions()[u := Positions()[u]] == Positions();
      }
      p := userPositions[u];
    }

    /** Store a reserve object under (u, a). */
    method Link(u: Address, a: Address, p: UserPosition, reserve: UserReserve)
      requires Shaped() && u in userPositions && p == userPositions[u]
      requires reserve !in Repr && reserve.owner == u && reserve.key == a
      modifies this`Repr, p`reserves
      ensures Shaped() && Repr == old(Repr) + {reserve}
      ensures p.reserves == old(p.reserves)[a := reserve]
      ensures Ledger() == L.SetReserve(old(Ledger()), u, a, reserve.Value())
      ensures forall v, b :: HasReserve(v, b) <==> old(HasReserve(v, b)) || (b == a && v == u)
    {
      ghost var value := p.Value();
      assert L.PositionOf(Ledger(), u) == value;
      p.Put(a, reserve);
      Repr := Repr + {reserve};
      assert p.Value() == value.(reserves := value.reserves[a := reserve.Value()]);
      OnlyOneChanged(u);
      forall v, b ensures HasReserve(v, b) <==> old(HasReserve(v, b)) || (b == a && v == u) {
        if v in userPositions && v != u { assert userPositions[v] != p; }
      }
    }

    method Subscribe(a: Address, u: Address)
      requires Shaped()
      modifies this`assetSubscribers
      ensures Shaped() && Ledger() == old(Ledger())
      ensures forall b, v :: Subscribed(b, v) <==> old(Subscribed(b, v)) || (b == a && v == u)
      ensures forall v, b :: HasReserve(v, b) <==> old(HasReserve(v, b))
    {
      if a !in assetSubscribers {
        assetSubscribers := assetSubscribers[a := {}];
      }
      assetSubscribers := assetSubscribers[a := assetSubscribers[a] + {u}];
      assert Positions() == old(Positions());
    }

    /** The second half of the position methods: store a reserve and index it by asset. */
    method PutReserve(u: Address, a: Address, p: UserPosition, reserve: UserReserve)
      requires Valid() && u in userPositions && p == userPositions[u]
      requires reserve !in Repr && reserve.owner == u && reserve.key == a
      modifies this`assetSubscribers, this`Repr, p`reserves
      ensures Valid() && Repr == old(Repr) + {reserve}
      ensures p.reserves == old(p.reserves)[a := reserve]
      ensures Ledger() == L.SetReserve(old(Ledger()), u, a, reserve.Value())
    {
      Link(u, a, p, reserve);
      Subscribe(a, u);
    }

    method UpsertUserReserve(userAddr: Address, reserve: UserReserve)
      requires Valid() && reserve !in Repr
      requires reserve.owner == ToLower(userAddr) && reserve.key == ToLower(reserve.assetAddress)
      modifies this`userPositions, this`assetSubscribers, this`Repr, Repr
      ensures Valid() && fresh(Repr - old(Repr) - {reserve}) && old(Repr) <= Repr
      ensures Ledger()
           == L.SetReserve(old(Ledger()), ToLower(userAddr), ToLower(reserve.assetAddress), old(reserve.Value()))
    {
      Upsert(ToLower(userAddr), ToLower(reserve.assetAddress), reserve);
    }

    method Upsert(u: Address, a: Address, reserve: UserReserve)
      requires Valid() && reserve !in Repr && reserve.owner == u && reserve.key == a
      modifies this`userPositions, this`assetSubscribers, this`Repr, Repr
      ensures Valid() && fresh(Repr - old(Repr) - {reserve}) && old(Repr) <= Repr
      ensures Ledger() == L.SetReserve(old(Ledger()), u, a, old(reserve.Value()))
    {
      ghost var before := Ledger();
      var p := EnsurePosition(u);
      PutReserve(u, a, p, reserve);
      L.SetReserveWithPosition(before, u, a, reserve.Value());
    }

    method SetUserEMode(userAddr: Address, categoryId: uint8)
      requires Valid()
      modifies this`userPositions, this`Repr, Repr
      ensures Valid() && fresh(Repr - old(Repr)) && old(Repr) <= Repr
      ensures Ledger() == L.SetEMode(old(Ledger()), ToLower(userAddr), categoryId)
    {
      PutEMode(ToLower(userAddr), categoryId);
    }

    method PutEMode(u: Address, categoryId: uint8)
      requires Valid()
      modifies this`userPositions, this`Repr, Repr
      ensures Valid() && fresh(Repr - old(Repr)) && old(Repr) <= Repr
      ensures Ledger() == L.SetEMode(old(Ledger()), u, categoryId)
    {
      ghost var before := Ledger();
      var p := EnsurePosition(u);
      WriteEMode(u, p, categoryId);
      L.SetEModeWithPosition(before, u, categoryId);
    }

    method WriteEMode(u: Address, p: UserPosition, categoryId: uint8)
      requires Valid() && u in userPositions && p == userPositions[u]
      modifies p`eModeCategoryId, p`eModeFetched
      ensures Valid() && Ledger() == L.SetEMode(old(Ledger()), u, categoryId)
    {
      ghost var value := p.Value();
      p.eModeCategoryId := categoryId;
      p.eModeFetched := true;
      assert p.Value() == value.(eModeCategoryId := categoryId, eModeFetched := true);
      OnlyOneChanged(u);
      assert forall v, b :: HasReserve(v, b) <==> old(HasReserve(v, b));
    }

    /** The live reserve object of (user, asset), created empty when there is none. */
    method GetUserReserve(userAddr: Address, asset: Address) returns (reserve: UserReserve)
      requires Valid()
      modifies this`userPositions, this`assetSubscribers, this`Repr, Repr
      ensures Valid() && fresh(Repr - old(Repr)) && old(Repr) <= Repr
      ensures IsReserve(ToLower(userAddr), ToLower(asset), reserve)
      ensures Ledger() == L.Touch(old(Ledger()), ToLower(userAddr), ToLower(asset))
      ensures forall a :: old(HasReserve(ToLower(userAddr), a)) ==>
                IsReserve(ToLower(userAddr), a, old(userPositions[ToLower(userAddr)].reserves[a]))
    {
      ToLowerIdempotent(asset);
      reserve := GetReserve(ToLower(userAddr), ToLower(asset));
    }

    /** r is the object stored for u and a. */
    ghost predicate IsReserve(u: Address, a: Address, r: UserReserve)
      reads this, userPositions.Values
    {
      u in userPositions && a in userPositions[u].reserves && userPositions[u].reserves[a] == r
    }

    method AddReserve(u: Address, a: Address, p: UserPosition)
      requires Valid() && u in userPositions && p == userPositions[u] && a !in p.reserves && ToLower(a) == a
      modifies this`assetSubscribers, this`Repr, p`reserves
      ensures Valid() && fresh(Repr - old(Repr)) && old(Repr) <= Repr
      ensures p.reserves.Keys == old(p.reserves).Keys + {a}
      ensures forall b :: b in old(p.reserves) ==> p.reserves[b] == old(p.reserves[b])
      ensures Ledger() == L.Touch(old(Ledger()), u, a)
    {
      assert Positions()[u] == p.Value();
      var empty := new UserReserve(u, L.EmptyReserve(a));
      PutReserve(u, a, p, empty);
    }

    method GetReserve(u: Address, a: Address) returns (reserve: UserReserve)
      requires Valid() && ToLower(a) == a
      modifies this`userPositions, this`assetSubscribers, this`Repr, Repr
      ensures Valid() && fresh(Repr - old(Repr)) && old(Repr) <= Repr
      ensures IsReserve(u, a, reserve)
      ensures Ledger() == L.Touch(old(Ledger()), u, a)
      ensures forall b :: old(HasReserve(u, b)) ==> IsReserve(u, b, old(userPositions[u].reserves[b]))
    {
      ghost var before := Ledger();
      var p := EnsurePosition(u);
      L.SetReserveWithPosition(before, u, a, L.ReserveOf(before, u, a));
      if a !in p.reserves {
        AddReserve(u, a, p);
      } else {
        assert Positions()[u] == p.Value();
        L.TouchHeld(Ledger(), u, a);
      }
      reserve := p.reserves[a];
    }

    /** The users with a reserve entry for the asset, each once, in some order. */
    method GetSubscribers(asset: Address) returns (users: seq<Address>)
      requires Valid()
      ensures forall u :: u in users <==> L.Holds(Ledger(), u, ToLower(asset))
      ensures forall i, j :: 0 <= i < j < |users| ==> users[i] != users[j]
    {
      var key := ToLower(asset);
      var subs: set<Address> := if key in assetSubscribers then assetSubscribers[key] else {};
      users := [];
      var rest := subs;
      while rest != {}
        invariant rest <= subs
        invariant forall u :: u in users <==> u in subs && u !in rest
        invariant forall i, j :: 0 <= i < j < |users| ==> users[i] != users[j]
        decreases rest
      {
        var u :| u in rest;
        users := users + [u];
        rest := rest - {u};
      }
      forall u ensures u in users <==> L.Holds(Ledger(), u, key) {
        assert HasReserve(u, key) <==> Subscribed(key, u);
        if u in userPositions { assert Positions()[u] == userPositions[u].Value(); }
      }
    }

    /** Writing the fields of one reserve object changes exactly that entry of the ledger. */
    twostate lemma ReserveWritten(new u: Address, new a: Address)
      requires old(Valid()) && old(HasReserve(u, a))
      requires userPositions == old(userPositions) && globalIndices == old(globalIndices)
      requires assetSubscribers == old(assetSubscribers) && Repr == old(Repr)
      requires forall o :: o in old(Repr) && o != old(userPositions[u].reserves[a]) ==> unchanged(o)
      ensures Valid()
      ensures Ledger() == L.SetReserve(old(Ledger()), u, a, old(userPositions[u].reserves[a]).Value())
    {
      var p := userPositions[u];
      var r := p.reserves[a];
      assert forall v, b :: HasReserve(v, b) <==> old(HasReserve(v, b));
      assert p.Value().reserves == old(p.Value()).reserves[a := r.Value()];
      assert r.owner == u;
      OnlyOneChanged(u);
    }

    // ---------- The locked sections in which the log handlers update a reserve object in place ----------

    method CreditAToken(user: Address, asset: Address, reserve: UserReserve, scaled: int)
      requires Valid() && IsReserve(user, asset, reserve)
      modifies reserve`scaledATokenBalance
      ensures Valid() && Ledger() == L.AddAToken(old(Ledger()), user, asset, scaled)
    {
      ReserveValue(user, asset, reserve);
      reserve.scaledATokenBalance := reserve.scaledATokenBalance + scaled;
      ReserveWritten(user, asset);
    }

    method CreditDebt(user: Address, asset: Address, reserve: UserReserve, scaled: int)
      requires Valid() && IsReserve(user, asset, reserve)
      modifies reserve`scaledVariableDebt
      ensures Valid() && Ledger() == L.AddDebt(old(Ledger()), user, asset, scaled)
    {
      ReserveValue(user, asset, reserve);
      reserve.scaledVariableDebt := reserve.scaledVariableDebt + scaled;
      ReserveWritten(user, asset);
    }

    method DebitAToken(user: Address, asset: Address, reserve: UserReserve, scaled: int)
      requires Valid() && IsReserve(user, asset, reserve)
      modifies reserve`scaledATokenBalance
      ensures Valid() && Ledger() == L.ReduceAToken(old(Ledger()), user, asset, scaled, false)
    {
      ReserveValue(user, asset, reserve);
      reserve.scaledATokenBalance := reserve.scaledATokenBalance - scaled;
      if reserve.scaledATokenBalance < 0 || Abs(reserve.scaledATokenBalance) <= DUST_THRESHOLD {
        reserve.scaledATokenBalance := 0;
      }
      ReserveWritten(user, asset);
    }

    method DebitDebt(user: Address, asset: Address, reserve: UserReserve, scaled: int)
      requires Valid() && IsReserve(user, asset, reserve)
      modifies reserve`scaledVariableDebt
      ensures Valid() && Ledger() == L.ReduceDebt(old(Ledger()), user, asset, scaled, false)
    {
      ReserveValue(user, asset, reserve);
      reserve.scaledVariableDebt := reserve.scaledVariableDebt - scaled;
      if reserve.scaledVariableDebt < 0 || Abs(reserve.scaledVariableDebt) <= DUST_THRESHOLD {
        reserve.scaledVariableDebt := 0;
      }
      ReserveWritten(user, asset);
    }

    /** The section of a liquidation: debt first, then collateral; both may be the same object. */
    method DebitBoth(
      user: Address, collateralAsset: Address, debtAsset: Address,
      collateralReserve: UserReserve, debtReserve: UserReserve,
      scaledCollateral: int, scaledDebt: int)
      requires Valid() && IsReserve(user, collateralAsset, collateralReserve) && IsReserve(user, debtAsset, debtReserve)
      modifies debtReserve`scaledVariableDebt, collateralReserve`scaledATokenBalance
      ensures Valid()
      ensures Ledger() == L.ReduceAToken(L.ReduceDebt(old(Ledger()), user, debtAsset, scaledDebt, false),
                                         user, collateralAsset, scaledCollateral, false)
    {
      DebitDebt(user, debtAsset, debtReserve, scaledDebt);
      DebitAToken(user, collateralAsset, collateralReserve, scaledCollateral);
    }

    static function Abs(x: int): int {
      if x < 0 then -x else x
    }

    method WriteFlag(user: Address, asset: Address, reserve: UserReserve, enabled: bool)
      requires Valid() && IsReserve(user, asset, reserve)
      modifies reserve`usageAsCollateralEnabledOnUser
      ensures Valid() && Ledger() == L.SetFlag(old(Ledger()), user, asset, enabled)
    {
      ReserveValue(user, asset, reserve);
      reserve.usageAsCollateralEnabledOnUser := enabled;
      ReserveWritten(user, asset);
    }
  }
}
