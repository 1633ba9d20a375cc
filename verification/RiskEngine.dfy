// internal/engine/risk_engine.go: calculateHF on the shared store.
module RiskEngine {
  import opened Models
  import opened Store
  import RayMath
  import HF = HealthFactor
  import LE = LazyEMode
  import L = Ledgers

  class RiskEngine {
    const store: StateStore

    constructor (store: StateStore)
      ensures this.store == store
    {
      this.store := store;
    }

    /** Fetch the user's category and, if the store lacks it, its configuration; None when a call fails. */
    method LoadEMode(userAddr: Address, user: UserPosition, replies: LE.Replies) returns (catId: Option<uint8>)
      requires store.Valid() && userAddr in store.userPositions && user == store.userPositions[userAddr]
      modifies store`eModeCategories, user`eModeCategoryId, user`eModeFetched
      ensures store.Valid()
      ensures catId == LE.LoadedCategory(old(store.eModeCategories), replies)
      ensures store.View() == old(store.View()).(categories := LE.LoadedCategories(old(store.eModeCategories), replies))
      ensures store.Ledger() ==
        if catId.None? then old(store.Ledger()) else L.SetEMode(old(store.Ledger()), userAddr, catId.value)
    {
      if replies.userEMode.None? {
        return None;
      }
      var id := replies.userEMode.value;
      if id > 0 && id !in store.eModeCategories {
        if replies.category.None? {
          return None;
        }
        store.SetEModeCategory(id, replies.category.value);
      }
      store.WriteEMode(userAddr, user, id);
      catId := Some(id);
    }

    method FetchAndRecalculate(userAddr: Address, user: UserPosition, replies: LE.Replies, order: seq<Address>)
      returns (snapshot: Option<HF.RiskSnapshot>)
      requires store.Valid() && userAddr in store.userPositions && user == store.userPositions[userAddr]
      requires Enumerates(order, user.Value().reserves)
      modifies store`eModeCategories, user`eModeCategoryId, user`eModeFetched
      ensures store.Valid()
      ensures var o := LE.Fetched(old(store.View()), old(user.Value()), order, replies, store.currentBlock);
        && snapshot == o.snapshot
        && store.View() == old(store.View()).(categories := o.categories)
        && store.Ledger() == L.WithValue(old(store.Ledger()), userAddr, o.position)
    {
      var position := user.Value();
      assert L.PositionOf(store.Ledger(), userAddr) == position;
      L.WithOwnValue(store.Ledger(), userAddr);
      var catId := LoadEMode(userAddr, user, replies);
      if catId.None? {
        return None;
      }
      snapshot := HF.ComputeHFMath(store.View(), position, HF.EMode(true, catId.value), order, store.currentBlock);
    }

    /** The two rounds for a known user. The reserves may be visited in one order by the first round and in
        another by the second. */
    method CalculateForUser(
      userAddr: Address, user: UserPosition, replies: LE.Replies, first: seq<Address>, second: seq<Address>)
      returns (snapshot: Option<HF.RiskSnapshot>)
      requires store.Valid() && userAddr in store.userPositions && user == store.userPositions[userAddr]
      requires Enumerates(first, user.Value().reserves) && Enumerates(second, user.Value().reserves)
      modifies store`eModeCategories, user`eModeCategoryId, user`eModeFetched
      ensures store.Valid()
      ensures var o := LE.CalculateHF(old(store.View()), old(user.Value()), first, replies, store.currentBlock);
        && snapshot == o.snapshot
        && store.View() == old(store.View()).(categories := o.categories)
        && store.Ledger() == L.WithValue(old(store.Ledger()), userAddr, o.position)
    {
      var position := user.Value();
      assert L.PositionOf(store.Ledger(), userAddr) == position;
      L.WithOwnValue(store.Ledger(), userAddr);
      LE.TwoRounds(store.View(), position, first, second, replies, store.currentBlock);
      snapshot := HF.ComputeHFMath(store.View(), position, LE.LocalEMode(position), first, store.currentBlock);
      if LE.NeedsFetch(snapshot, position) {
        snapshot := FetchAndRecalculate(userAddr, user, replies, second);
      }
    }

    method CalculateHF(userAddr: Address, replies: LE.Replies, first: seq<Address>, second: seq<Address>)
      returns (snapshot: Option<HF.RiskSnapshot>)
      requires store.Valid()
      requires Enumerates(first, L.PositionOf(store.Ledger(), userAddr).reserves)
      requires Enumerates(second, L.PositionOf(store.Ledger(), userAddr).reserves)
      modifies store`eModeCategories, store.Repr
      ensures store.Valid() && store.Repr == old(store.Repr)
      ensures userAddr !in old(store.userPositions) ==>
        snapshot == None && store.View() == old(store.View()) && store.Ledger() == old(store.Ledger())
      ensures userAddr in old(store.userPositions) ==>
        var p := L.PositionOf(old(store.Ledger()), userAddr);
        var o := LE.CalculateHF(old(store.View()), p, first, replies, old(store.currentBlock));
        && snapshot == o.snapshot
        && store.View() == old(store.View()).(categories := o.categories)
        && store.Ledger() == L.WithValue(old(store.Ledger()), userAddr, o.position)
    {
      if userAddr !in store.userPositions {
        return None;
      }
      var user := store.userPositions[userAddr];
      assert L.PositionOf(store.Ledger(), userAddr) == user.Value();
      snapshot := CalculateForUser(userAddr, user, replies, first, second);
    }
  }
}
