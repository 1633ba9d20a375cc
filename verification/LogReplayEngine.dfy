// internal/engine/log_replay_engine.go: the engine that keeps the store in step with the chain.
module LogReplay {
  import opened Models
  import opened RayMath
  import opened Hex
  import opened Events
  import opened Ledgers
  import opened Store
  import opened DirtyUsers
  import opened Replay
  import opened LogSort

  const TASK_QUEUE_SIZE: nat := 50000

  function MarkOf(log: RPCLog): Mark {
    Mark(log.Block(), log.Index())
  }

  /** The watermark after a sequence of processed logs. */
  function LastMarkOf(water: Mark, logs: seq<RPCLog>): Mark {
    if logs == [] then water else MarkOf(logs[|logs| - 1])
  }

  /** The greatest block number seen, duplicates and late logs included. */
  function HighestBlock(current: uint64, arrivals: seq<RPCLog>): uint64 {
    if arrivals == [] then current
    else
      var before := HighestBlock(current, arrivals[..|arrivals| - 1]);
      var block := arrivals[|arrivals| - 1].Block();
      if block > before then block else before
  }

  /** How many of n users still fit into a queue of the given length. */
  function Room(length: nat, n: nat): (k: nat)
    ensures k <= n
  {
    if length >= TASK_QUEUE_SIZE then 0 else if TASK_QUEUE_SIZE - length < n then TASK_QUEUE_SIZE - length else n
  }

  /** The task channel of the risk engine. */
  class TaskQueue {
    var taskQueue: seq<Address>
    ghost var trace: seq<TraceEvent>

    constructor ()
      ensures taskQueue == [] && trace == []
    {
      taskQueue, trace := [], [];
    }

    /** A non-blocking send: a full queue drops the user. */
    method Enqueue(userAddr: Address)
      modifies this
      ensures taskQueue == if |old(taskQueue)| < TASK_QUEUE_SIZE then old(taskQueue) + [userAddr] else old(taskQueue)
      ensures trace == old(trace) + [Offered(userAddr)]
    {
      if |taskQueue| < TASK_QUEUE_SIZE {
        taskQueue := taskQueue + [userAddr];
      }
      trace := trace + [Offered(userAddr)];
    }

    /** Records that a log took the ledger from one state to another. */
    ghost method Note(before: Ledger, after: Ledger)
      modifies this`trace
      ensures trace == old(trace) + [Applied(before, after)]
    {
      trace := trace + [Applied(before, after)];
    }

    /** A batch of offers: the queue keeps what it had and takes the users in order until it is full; only the
        tail of the batch is lost. */
    method EnqueueAll(users: seq<Address>)
      modifies this
      ensures trace == old(trace) + Offers(users)
      ensures taskQueue == old(taskQueue) + users[..Room(|old(taskQueue)|, |users|)]
    {
      for i := 0 to |users|
        invariant trace == old(trace) + Offers(users[..i])
        invariant taskQueue == old(taskQueue) + users[..Room(|old(taskQueue)|, i)]
      {
        Enqueue(users[i]);
        assert Offers(users[..i + 1]) == Offers(users[..i]) + [Offered(users[i])];
      }
      assert users[..|users|] == users;
    }

    /** Offer every subscriber of the asset. */
    method EnqueueByAsset(store: StateStore, asset: Address) returns (ghost users: seq<Address>)
      requires store.Valid() && this !in store.Repr
      modifies this
      ensures trace == old(trace) + Offers(users)
      ensures forall u :: u in users <==> Holds(store.Ledger(), u, ToLower(asset))
    {
      var subscribers := store.GetSubscribers(asset);
      users := subscribers;
      EnqueueAll(subscribers);
    }
  }

  class LogReplayEngine {
    const store: StateStore
    const riskEngine: TaskQueue
    var lastProcessedBlock: uint64
    var lastProcessedLogIndex: uint64
    var currentTxHash: string
    var dirtyUsers: set<Address>

    constructor (store: StateStore, riskEngine: TaskQueue)
      requires store.Valid() && riskEngine !in store.Repr
      ensures this.store == store && this.riskEngine == riskEngine
      ensures lastProcessedBlock == lastProcessedLogIndex == 0 && dirtyUsers == {} && currentTxHash == ""
    {
      this.store := store;
      this.riskEngine := riskEngine;
      lastProcessedBlock, lastProcessedLogIndex, currentTxHash, dirtyUsers := 0, 0, "", {};
    }

    /** The store is consistent, and shares no object with the engine. */
    ghost predicate Ready()
      reads this, store, store.Repr, store.userPositions.Values
    {
      store.Valid() && this !in store.Repr && riskEngine !in store.Repr
    }

    // ---------- State changes, one per event ----------

    method MarkUserDirty(userAddr: Address)
      requires Ready()
      modifies this`dirtyUsers
      ensures Ready() && store.Ledger() == old(store.Ledger())
      ensures dirtyUsers == old(dirtyUsers) + {userAddr}
    {
      dirtyUsers := dirtyUsers + {userAddr};
    }

    /** The cached index of a lower-case asset. */
    method IndexOf(asset: Address) returns (index: Option<GlobalIndex>)
      requires Ready() && ToLower(asset) == asset
      ensures index == if asset in store.Ledger().indices then Some(store.Ledger().indices[asset]) else None
    {
      index := store.GetGlobalIndex(asset);
    }

    /** The live reserve of a lower-case (user, asset); entries already fetched stay valid. */
    method FetchReserve(user: Address, asset: Address) returns (reserve: UserReserve)
      requires Ready() && ToLower(user) == user && ToLower(asset) == asset
      modifies store`userPositions, store`assetSubscribers, store`Repr, store.Repr
      ensures Ready() && fresh(store.Repr - old(store.Repr)) && old(store.Repr) <= store.Repr
      ensures store.IsReserve(user, asset, reserve) && reserve in store.Repr
      ensures store.Ledger() == Touch(old(store.Ledger()), user, asset)
      ensures forall a :: old(store.HasReserve(user, a)) ==>
                store.IsReserve(user, a, old(store.userPositions[user].reserves[a]))
    {
      reserve := store.GetUserReserve(user, asset);
    }

    // GetUserReserve followed by a locked update, for the events that touch one reserve.

    method AddAToken(user: Address, asset: Address, scaled: int)
      requires Ready() && ToLower(user) == user && ToLower(asset) == asset
      modifies store`userPositions, store`assetSubscribers, store`Repr, store.Repr
      ensures Ready() && fresh(store.Repr - old(store.Repr))
      ensures store.Ledger() == Ledgers.AddAToken(old(store.Ledger()), user, asset, scaled)
    {
      TouchIsNeutral(store.Ledger(), user, asset, scaled, false, false);
      var reserve := FetchReserve(user, asset);
      store.CreditAToken(user, asset, reserve, scaled);
    }

    method AddDebt(user: Address, asset: Address, scaled: int)
      requires Ready() && ToLower(user) == user && ToLower(asset) == asset
      modifies store`userPositions, store`assetSubscribers, store`Repr, store.Repr
      ensures Ready() && fresh(store.Repr - old(store.Repr))
      ensures store.Ledger() == Ledgers.AddDebt(old(store.Ledger()), user, asset, scaled)
    {
      TouchIsNeutral(store.Ledger(), user, asset, scaled, false, false);
      var reserve := FetchReserve(user, asset);
      store.CreditDebt(user, asset, reserve, scaled);
    }

    method ReduceAToken(user: Address, asset: Address, scaled: int)
      requires Ready() && ToLower(user) == user && ToLower(asset) == asset
      modifies store`userPositions, store`assetSubscribers, store`Repr, store.Repr
      ensures Ready() && fresh(store.Repr - old(store.Repr))
      ensures store.Ledger() == Ledgers.ReduceAToken(old(store.Ledger()), user, asset, scaled, false)
    {
      TouchIsNeutral(store.Ledger(), user, asset, scaled, false, false);
      var reserve := FetchReserve(user, asset);
      store.DebitAToken(user, asset, reserve, scaled);
    }

    method ReduceDebt(user: Address, asset: Address, scaled: int)
      requires Ready() && ToLower(user) == user && ToLower(asset) == asset
      modifies store`userPositions, store`assetSubscribers, store`Repr, store.Repr
      ensures Ready() && fresh(store.Repr - old(store.Repr))
      ensures store.Ledger() == Ledgers.ReduceDebt(old(store.Ledger()), user, asset, scaled, false)
    {
      TouchIsNeutral(store.Ledger(), user, asset, scaled, false, false);
      var reserve := FetchReserve(user, asset);
      store.DebitDebt(user, asset, reserve, scaled);
    }

    method SetFlag(user: Address, asset: Address, enabled: bool)
      requires Ready() && ToLower(user) == user && ToLower(asset) == asset
      modifies store`userPositions, store`assetSubscribers, store`Repr, store.Repr
      ensures Ready() && fresh(store.Repr - old(store.Repr))
      ensures store.Ledger() == Ledgers.SetFlag(old(store.Ledger()), user, asset, enabled)
    {
      TouchIsNeutral(store.Ledger(), user, asset, 0, false, enabled);
      var reserve := FetchReserve(user, asset);
      store.WriteFlag(user, asset, reserve, enabled);
    }

    /** A liquidation looks both reserves up before it updates them. */
    method FetchBoth(user: Address, collateralAsset: Address, debtAsset: Address)
      returns (debtReserve: UserReserve, collateralReserve: UserReserve)
      requires Ready() && ToLower(user) == user
      requires ToLower(collateralAsset) == collateralAsset && ToLower(debtAsset) == debtAsset
      modifies store`userPositions, store`assetSubscribers, store`Repr, store.Repr
      ensures Ready() && fresh(store.Repr - old(store.Repr))
      ensures store.IsReserve(user, debtAsset, debtReserve) && debtReserve in store.Repr
      ensures store.IsReserve(user, collateralAsset, collateralReserve) && collateralReserve in store.Repr
      ensures store.Ledger() == Touch(Touch(old(store.Ledger()), user, debtAsset), user, collateralAsset)
    {
      debtReserve := FetchReserve(user, debtAsset);
      collateralReserve := FetchReserve(user, collateralAsset);
    }

    method ReduceBoth(
      user: Address, collateralAsset: Address, debtAsset: Address, scaledDebt: int, scaledCollateral: int)
      requires Ready() && ToLower(user) == user
      requires ToLower(collateralAsset) == collateralAsset && ToLower(debtAsset) == debtAsset
      modifies store`userPositions, store`assetSubscribers, store`Repr, store.Repr
      ensures Ready() && fresh(store.Repr - old(store.Repr))
      ensures store.Ledger() == Ledgers.ReduceAToken(
        Ledgers.ReduceDebt(old(store.Ledger()), user, debtAsset, scaledDebt, false),
        user, collateralAsset, scaledCollateral, false)
    {
      TouchBeforeReduce(store.Ledger(), user, collateralAsset, debtAsset, scaledDebt, scaledCollateral, false);
      var debtReserve, collateralReserve := FetchBoth(user, collateralAsset, debtAsset);
      store.DebitBoth(user, collateralAsset, debtAsset, collateralReserve, debtReserve, scaledCollateral, scaledDebt);
    }

    // ---------- State changes, one per event: skip without an index, update, mark the user ----------

    method Supply(user: Address, asset: Address, amount: int)
      requires Ready() && ToLower(user) == user && ToLower(asset) == asset
      modifies store`userPositions, store`assetSubscribers, store`Repr, store.Repr, this`dirtyUsers
      ensures Ready() && fresh(store.Repr - old(store.Repr))
      ensures store.Ledger() == ApplyUpdate(old(store.Ledger()), Supplied(user, asset, amount), false)
      ensures dirtyUsers == old(dirtyUsers) + Marked(old(store.Ledger()), Supplied(user, asset, amount))
    {
      ghost var l := store.Ledger();
      var globalIdx := IndexOf(asset);
      if globalIdx.None? || globalIdx.value.liquidityIndex == 0 {
        return;
      }
      AddAToken(user, asset, RayDiv(amount, globalIdx.value.liquidityIndex));
      assert store.Ledger() == ApplyUpdate(l, Supplied(user, asset, amount), false);
      MarkUserDirty(user);
    }

    method Withdraw(user: Address, asset: Address, amount: int)
      requires Ready() && ToLower(user) == user && ToLower(asset) == asset
      modifies store`userPositions, store`assetSubscribers, store`Repr, store.Repr, this`dirtyUsers
      ensures Ready() && fresh(store.Repr - old(store.Repr))
      ensures store.Ledger() == ApplyUpdate(old(store.Ledger()), Withdrawn(user, asset, amount), false)
      ensures dirtyUsers == old(dirtyUsers) + Marked(old(store.Ledger()), Withdrawn(user, asset, amount))
    {
      ghost var l := store.Ledger();
      var globalIdx := IndexOf(asset);
      if globalIdx.None? || globalIdx.value.liquidityIndex == 0 {
        return;
      }
      ReduceAToken(user, asset, RayDiv(amount, globalIdx.value.liquidityIndex));
      assert store.Ledger() == ApplyUpdate(l, Withdrawn(user, asset, amount), false);
      MarkUserDirty(user);
    }

    method Borrow(user: Address, asset: Address, amount: int)
      requires Ready() && ToLower(user) == user && ToLower(asset) == asset
      modifies store`userPositions, store`assetSubscribers, store`Repr, store.Repr, this`dirtyUsers
      ensures Ready() && fresh(store.Repr - old(store.Repr))
      ensures store.Ledger() == ApplyUpdate(old(store.Ledger()), Borrowed(user, asset, amount), false)
      ensures dirtyUsers == old(dirtyUsers) + Marked(old(store.Ledger()), Borrowed(user, asset, amount))
    {
      ghost var l := store.Ledger();
      var globalIdx := IndexOf(asset);
      if globalIdx.None? || globalIdx.value.variableBorrowIndex == 0 {
        return;
      }
      AddDebt(user, asset, RayDiv(amount, globalIdx.value.variableBorrowIndex));
      assert store.Ledger() == ApplyUpdate(l, Borrowed(user, asset, amount), false);
      MarkUserDirty(user);
    }

    method Repay(user: Address, asset: Address, amount: int)
      requires Ready() && ToLower(user) == user && ToLower(asset) == asset
      modifies store`userPositions, store`assetSubscribers, store`Repr, store.Repr, this`dirtyUsers
      ensures Ready() && fresh(store.Repr - old(store.Repr))
      ensures store.Ledger() == ApplyUpdate(old(store.Ledger()), Repaid(user, asset, amount), false)
      ensures dirtyUsers == old(dirtyUsers) + Marked(old(store.Ledger()), Repaid(user, asset, amount))
    {
      ghost var l := store.Ledger();
      var globalIdx := IndexOf(asset);
      if globalIdx.None? || globalIdx.value.variableBorrowIndex == 0 {
        return;
      }
      ReduceDebt(user, asset, RayDiv(amount, globalIdx.value.variableBorrowIndex));
      assert store.Ledger() == ApplyUpdate(l, Repaid(user, asset, amount), false);
      MarkUserDirty(user);
    }

    method Liquidate(user: Address, collateralAsset: Address, debtAsset: Address, debtToCover: int, seized: int)
      requires Ready() && ToLower(user) == user
      requires ToLower(collateralAsset) == collateralAsset && ToLower(debtAsset) == debtAsset
      modifies store`userPositions, store`assetSubscribers, store`Repr, store.Repr, this`dirtyUsers
      ensures Ready() && fresh(store.Repr - old(store.Repr))
      ensures var up := Liquidated(user, collateralAsset, debtAsset, debtToCover, seized);
              && store.Ledger() == ApplyUpdate(old(store.Ledger()), up, false)
              && dirtyUsers == old(dirtyUsers) + Marked(old(store.Ledger()), up)
    {
      ghost var l := store.Ledger();
      var debtIdx := IndexOf(debtAsset);
      var collateralIdx := IndexOf(collateralAsset);
      if debtIdx.None? || collateralIdx.None? {
        return;
      }
      var scaledDebtToCover := RayDiv(debtToCover, debtIdx.value.variableBorrowIndex);
      var scaledCollateralLiquidated := RayDiv(seized, collateralIdx.value.liquidityIndex);
      ReduceBoth(user, collateralAsset, debtAsset, scaledDebtToCover, scaledCollateralLiquidated);
      assert store.Ledger() == ApplyUpdate(l, Liquidated(user, collateralAsset, debtAsset, debtToCover, seized), false);
      MarkUserDirty(user);
    }

    method SetCollateral(user: Address, asset: Address, enabled: bool)
      requires Ready() && ToLower(user) == user && ToLower(asset) == asset
      modifies store`userPositions, store`assetSubscribers, store`Repr, store.Repr, this`dirtyUsers
      ensures Ready() && fresh(store.Repr - old(store.Repr))
      ensures store.Ledger() == ApplyUpdate(old(store.Ledger()), CollateralSet(user, asset, enabled), false)
      ensures dirtyUsers == old(dirtyUsers) + Marked(old(store.Ledger()), CollateralSet(user, asset, enabled))
    {
      ghost var l := store.Ledger();
      SetFlag(user, asset, enabled);
      assert store.Ledger() == ApplyUpdate(l, CollateralSet(user, asset, enabled), false);
      MarkUserDirty(user);
    }

    method SwitchEMode(user: Address, category: uint8)
      requires Ready() && ToLower(user) == user
      modifies store`userPositions, store`assetSubscribers, store`Repr, store.Repr, this`dirtyUsers
      ensures Ready() && fresh(store.Repr - old(store.Repr))
      ensures store.Ledger() == ApplyUpdate(old(store.Ledger()), EModeSet(user, category), false)
      ensures dirtyUsers == old(dirtyUsers) + Marked(old(store.Ledger()), EModeSet(user, category))
    {
      store.SetUserEMode(user, category);
      MarkUserDirty(user);
    }

    // ---------- One log ----------

    /** The handlers of the events that concern one user, after decoding. */
    method ApplyToUser(up: Update)
      requires Ready() && LowerCase(up) && !up.SetIndex?
      modifies store`userPositions, store`assetSubscribers, store`Repr, store.Repr, this`dirtyUsers
      ensures Ready() && fresh(store.Repr - old(store.Repr))
      ensures store.Ledger() == ApplyUpdate(old(store.Ledger()), up, false)
      ensures dirtyUsers == old(dirtyUsers) + Marked(old(store.Ledger()), up)
    {
      match up
      case Ignore =>
      case Supplied(user, asset, amount) => Supply(user, asset, amount);
      case Withdrawn(user, asset, amount) => Withdraw(user, asset, amount);
      case Borrowed(user, asset, amount) => Borrow(user, asset, amount);
      case Repaid(user, asset, amount) => Repay(user, asset, amount);
      case Liquidated(user, col, debt, debtToCover, seized) => Liquidate(user, col, debt, debtToCover, seized);
      case CollateralSet(user, asset, enabled) => SetCollateral(user, asset, enabled);
      case EModeSet(user, category) => SwitchEMode(user, category);
    }

    /** The handler of an index update: store the index, then offer every holder of the asset. */
    method ApplyIndex(asset: Address, index: GlobalIndex) returns (ghost offered: seq<Address>)
      requires Ready() && ToLower(asset) == asset
      modifies store`globalIndices, riskEngine
      ensures Ready() && store.Repr == old(store.Repr)
      ensures store.Ledger() == ApplyUpdate(old(store.Ledger()), SetIndex(asset, index), false)
      ensures riskEngine.trace
           == old(riskEngine.trace) + [Applied(old(store.Ledger()), store.Ledger())] + Offers(offered)
      ensures forall u :: u in offered <==> Holds(store.Ledger(), u, asset)
    {
      ghost var before := store.Ledger();
      store.SetGlobalIndex(asset, index);
      riskEngine.Note(before, store.Ledger());
      offered := riskEngine.EnqueueByAsset(store, asset);
    }

    /** Ready, and no user affected by a log so far has been forgotten. */
    ghost predicate Valid()
      reads this, store, store.Repr, store.userPositions.Values, riskEngine
    {
      Ready() && NoneLost(riskEngine.trace, dirtyUsers)
    }

    /** The switch of processLog, after decoding: whoever the update affects is marked dirty or offered. */
    method ApplyDecoded(up: Update) returns (ghost offered: seq<Address>)
      requires Ready() && LowerCase(up)
      modifies store`globalIndices, store`userPositions, store`assetSubscribers, store`Repr, store.Repr
      modifies this`dirtyUsers, riskEngine
      ensures Ready() && fresh(store.Repr - old(store.Repr))
      ensures store.Ledger() == ApplyUpdate(old(store.Ledger()), up, false)
      ensures riskEngine.trace
           == old(riskEngine.trace) + [Applied(old(store.Ledger()), store.Ledger())] + Offers(offered)
      ensures old(dirtyUsers) <= dirtyUsers && (offered != [] ==> up.SetIndex?)
      ensures forall u :: Affected(old(store.Ledger()), store.Ledger(), u) ==> u in dirtyUsers || u in offered
    {
      ghost var before := store.Ledger();
      if up.SetIndex? {
        offered := ApplyIndex(up.asset, up.index);
      } else {
        offered := [];
        ApplyToUser(up);
        riskEngine.Note(before, store.Ledger());
        assert Offers(offered) == [];
      }
      forall u | Affected(before, ApplyUpdate(before, up, false), u) ensures u in dirtyUsers || u in offered {
        AffectedAreConcerned(before, up, u);
      }
    }

    /** Applies one log; whoever it affects is marked dirty or offered to the risk engine afterwards. */
    method ProcessLog(log: RPCLog) returns (ghost offered: seq<Address>)
      requires Valid()
      modifies store`globalIndices, store`userPositions, store`assetSubscribers, store`Repr, store.Repr
      modifies this`dirtyUsers, riskEngine
      ensures Valid() && fresh(store.Repr - old(store.Repr))
      ensures store.Ledger() == ApplyLog(old(store.Ledger()), log)
      ensures riskEngine.trace
           == old(riskEngine.trace) + [Applied(old(store.Ledger()), store.Ledger())] + Offers(offered)
      ensures old(dirtyUsers) <= dirtyUsers && (offered != [] ==> Decode(log).SetIndex?)
    {
      ghost var before, trace, dirty := store.Ledger(), riskEngine.trace, dirtyUsers;
      var up := Decode(log);
      DecodedIsLower(log);
      offered := ApplyDecoded(up);
      NoneLostAfterLog(trace, dirty, before, store.Ledger(), offered, dirtyUsers);
    }

    /** Offers every dirty user and empties the set. */
    method FlushDirtyUsers() returns (ghost users: seq<Address>)
      requires Valid()
      modifies this`dirtyUsers, riskEngine
      ensures Valid() && dirtyUsers == {}
      ensures store.Ledger() == old(store.Ledger())
      ensures riskEngine.trace == old(riskEngine.trace) + Offers(users)
      ensures forall u :: u in users <==> u in old(dirtyUsers)
    {
      ghost var trace := riskEngine.trace;
      users := [];
      var rest := dirtyUsers;
      while rest != {}
        invariant riskEngine.trace == trace + Offers(users)
        invariant rest <= dirtyUsers
        invariant forall u :: u in dirtyUsers <==> u in users || u in rest
        invariant Ready() && store.Ledger() == old(store.Ledger()) && dirtyUsers == old(dirtyUsers)
        decreases rest
      {
        var userAddr :| userAddr in rest;
        riskEngine.Enqueue(userAddr);
        rest := rest - {userAddr};
        assert Offers(users + [userAddr]) == Offers(users) + [Offered(userAddr)];
        users := users + [userAddr];
      }
      NoneLostAfterFlush(trace, dirtyUsers, users);
      dirtyUsers := {};
    }

    /** A log of another transaction flushes the users of the previous one. */
    method SwitchTransaction(txHash: string) returns (ghost flushed: seq<Address>)
      requires Valid()
      modifies this`dirtyUsers, this`currentTxHash, riskEngine
      ensures Valid() && store.Ledger() == old(store.Ledger())
      ensures currentTxHash == txHash && riskEngine.trace == old(riskEngine.trace) + Offers(flushed)
      ensures old(currentTxHash) == txHash ==> flushed == [] && dirtyUsers == old(dirtyUsers)
      ensures old(currentTxHash) != txHash ==> dirtyUsers == {} && forall u :: u in flushed <==> u in old(dirtyUsers)
    {
      flushed := [];
      if txHash != currentTxHash {
        flushed := FlushDirtyUsers();
        ghost var l := store.Ledger();
        currentTxHash := txHash;
        assert Ready() && store.Ledger() == l;
      }
    }

    /** Processes a log and moves the watermark to it. */
    method Advance(logData: RPCLog) returns (ghost offered: seq<Address>)
      requires Valid()
      modifies store`globalIndices, store`userPositions, store`assetSubscribers, store`Repr, store.Repr, riskEngine
      modifies this`dirtyUsers, this`lastProcessedBlock, this`lastProcessedLogIndex
      ensures Valid() && fresh(store.Repr - old(store.Repr))
      ensures store.Ledger() == ApplyLog(old(store.Ledger()), logData)
      ensures riskEngine.trace
           == old(riskEngine.trace) + [Applied(old(store.Ledger()), store.Ledger())] + Offers(offered)
      ensures offered != [] ==> Decode(logData).SetIndex?
      ensures Mark(lastProcessedBlock, lastProcessedLogIndex) == MarkOf(logData)
    {
      offered := ProcessLog(logData);
      ghost var l := store.Ledger();
      lastProcessedBlock := logData.Block();
      lastProcessedLogIndex := logData.Index();
      assert Ready() && store.Ledger() == l;
    }

    // ---------- History ----------

    /** Fetches the logs of [fromBlock, toBlock] in chunks of ten blocks; the first failed call aborts. */
    method FetchHistoricLogs(getLogs: LogQuery<RPCLog>, fromBlock: uint64, toBlock: uint64)
      returns (allLogs: Option<seq<RPCLog>>)
      requires toBlock + CHUNK_SIZE < TWO_64
      ensures allLogs == Gather(getLogs, Chunks(fromBlock, toBlock))
    {
      var logs: seq<RPCLog> := [];
      var currentFrom: uint64 := fromBlock;
      ghost var done: seq<(nat, nat)> := [];
      while currentFrom <= toBlock
        invariant Chunks(fromBlock, toBlock) == done + Chunks(currentFrom, toBlock)
        invariant Gather(getLogs, done) == Some(logs)
        decreases if currentFrom <= toBlock then toBlock - currentFrom + 1 else 0
      {
        var currentTo: uint64 := currentFrom + CHUNK_SIZE - 1;
        if currentTo > toBlock {
          currentTo := toBlock;
        }
        var reply := getLogs(currentFrom, currentTo);
        ghost var rest := Chunks(currentFrom + CHUNK_SIZE, toBlock);
        ghost var more := done + [(currentFrom as nat, currentTo as nat)];
        assert Chunks(fromBlock, toBlock) == more + rest;
        assert more[..|more| - 1] == done;
        if reply.None? {
          GatherPrefix(getLogs, more, rest);
          return None;
        }
        logs := logs + reply.value;
        done := more;
        currentFrom := currentFrom + CHUNK_SIZE;
      }
      assert done + [] == done;
      allLogs := Some(logs);
    }

    /** One iteration of the history loop. */
    method ReplayOne(logData: RPCLog) returns (ghost step: Step)
      requires Valid()
      modifies store`globalIndices, store`userPositions, store`assetSubscribers, store`Repr, store.Repr
      modifies this, riskEngine
      ensures Valid() && fresh(store.Repr - old(store.Repr))
      ensures store.Ledger() == ApplyLog(old(store.Ledger()), logData)
      ensures Mark(lastProcessedBlock, lastProcessedLogIndex) == MarkOf(logData)
      ensures currentTxHash == logData.transactionHash
      ensures riskEngine.trace == old(riskEngine.trace) + step.Events()
      ensures step.after == ApplyLog(step.before, logData) && (step.offered != [] ==> Decode(logData).SetIndex?)
      ensures if logData.transactionHash == old(currentTxHash) then step.flushed == []
              else NoneLost(old(riskEngine.trace) + Offers(step.flushed), {})
    {
      ghost var trace := riskEngine.trace;
      ghost var flushed := SwitchTransaction(logData.transactionHash);
      ghost var before := store.Ledger();
      ghost var offered := Advance(logData);
      step := Step(flushed, before, store.Ledger(), offered);
      TraceOfStep(trace, step);
    }

    /** Replays the sorted history. Dirty users are flushed exactly where the transaction changes, and at the
        end, so a transaction is never offered half applied. */
    method ReplayHistory(logs: seq<RPCLog>) returns (ghost steps: seq<Step>, ghost last: seq<Address>)
      requires Valid()
      modifies store`globalIndices, store`userPositions, store`assetSubscribers, store`Repr, store.Repr
      modifies this, riskEngine
      ensures Valid() && fresh(store.Repr - old(store.Repr))
      ensures store.Ledger() == Fold(old(store.Ledger()), logs)
      ensures Mark(lastProcessedBlock, lastProcessedLogIndex)
           == LastMarkOf(old(Mark(lastProcessedBlock, lastProcessedLogIndex)), logs)
      ensures riskEngine.trace == old(riskEngine.trace) + TraceOf(steps) + Offers(last)
      ensures Replays(old(riskEngine.trace), logs, steps) && dirtyUsers == {}
    {
      steps := [];
      ghost var l, trace, water := store.Ledger(), riskEngine.trace, Mark(lastProcessedBlock, lastProcessedLogIndex);
      for k := 0 to |logs|
        invariant Valid() && fresh(store.Repr - old(store.Repr))
        invariant store.Ledger() == Fold(l, logs[..k])
        invariant Mark(lastProcessedBlock, lastProcessedLogIndex) == LastMarkOf(water, logs[..k])
        invariant k > 0 ==> currentTxHash == logs[k - 1].transactionHash
        invariant riskEngine.trace == trace + TraceOf(steps) && Replays(trace, logs[..k], steps)
      {
        var logData := logs[k];
        ghost var done := logs[..k];
        assert done != [] ==> done[|done| - 1] == logs[k - 1];
        ghost var step := ReplayOne(logData);
        TraceOfPush(trace, steps, step);
        ReplaysPush(trace, done, steps, logData, step);
        steps := steps + [step];
        assert logs[..k + 1] == done + [logData];
        FoldLast(l, done, logData);
      }
      assert logs[..|logs|] == logs;
      last := FlushDirtyUsers();
    }

    // ---------- Live stream ----------

    predicate IsDuplicate(logBlock: uint64, logIndex: uint64)
      reads this
    {
      if logBlock < lastProcessedBlock then true
      else logBlock == lastProcessedBlock && logIndex <= lastProcessedLogIndex
    }

    /** Drops a duplicate, processes any other log. */
    method Accept(logData: RPCLog)
      requires Valid()
      modifies store`globalIndices, store`userPositions, store`assetSubscribers, store`Repr, store.Repr, riskEngine
      modifies this`dirtyUsers, this`lastProcessedBlock, this`lastProcessedLogIndex
      ensures Valid() && fresh(store.Repr - old(store.Repr))
      ensures Accepted(old(Mark(lastProcessedBlock, lastProcessedLogIndex)), old(store.Ledger()), logData)
      ensures old(riskEngine.trace) <= riskEngine.trace
    {
      if !IsDuplicate(logData.Block(), logData.Index()) {
        var _ := Advance(logData);
      }
    }

    /** The effect of an arrival on ledger and watermark. */
    ghost predicate Accepted(water: Mark, before: Ledger, logData: RPCLog)
      requires Ready()
      reads this, store, store.Repr, store.userPositions.Values
    {
      if Duplicate(water, MarkOf(logData))
      then store.Ledger() == before && Mark(lastProcessedBlock, lastProcessedLogIndex) == water
      else
        && store.Ledger() == ApplyLog(before, logData)
        && Mark(lastProcessedBlock, lastProcessedLogIndex) == MarkOf(logData)
    }

    /** One iteration of the live loop; drained says whether the buffer is empty afterwards. */
    method Receive(logData: RPCLog, drained: bool) returns (ghost flushed: seq<Address>)
      requires Valid()
      modifies store`globalIndices, store`userPositions, store`assetSubscribers, store`currentBlock, store`Repr
      modifies store.Repr, this, riskEngine
      ensures Valid() && fresh(store.Repr - old(store.Repr))
      ensures Accepted(old(Mark(lastProcessedBlock, lastProcessedLogIndex)), old(store.Ledger()), logData)
      ensures store.currentBlock
           == if logData.Block() > old(store.currentBlock) then logData.Block() else old(store.currentBlock)
      ensures old(riskEngine.trace) + Offers(flushed) <= riskEngine.trace
      ensures logData.transactionHash != old(currentTxHash) ==> forall u :: u in old(dirtyUsers) ==> u in flushed
      ensures currentTxHash == logData.transactionHash && (drained ==> dirtyUsers == {})
    {
      store.SetCurrentBlock(logData.Block());
      flushed := SwitchTransaction(logData.transactionHash);
      Accept(logData);
      if drained {
        var _ := FlushDirtyUsers();
      }
    }

    /** The live loop over any arrivals: the ledger is the fold of the accepted logs, the watermark that of
        Live, and the dirty set is empty after an iteration that drained the buffer. */
    method LiveLoop(arrivals: seq<RPCLog>, drained: seq<bool>)
      requires Valid() && |drained| == |arrivals|
      modifies store`globalIndices, store`userPositions, store`assetSubscribers, store`currentBlock, store`Repr
      modifies store.Repr, this, riskEngine
      ensures Valid() && fresh(store.Repr - old(store.Repr))
      ensures var s := Live(MarkOf, old(Mark(lastProcessedBlock, lastProcessedLogIndex)), arrivals);
              && store.Ledger() == Fold(old(store.Ledger()), s.accepted)
              && Mark(lastProcessedBlock, lastProcessedLogIndex) == s.water
      ensures store.currentBlock == HighestBlock(old(store.currentBlock), arrivals)
      ensures if arrivals == [] then dirtyUsers == old(dirtyUsers) else drained[|drained| - 1] ==> dirtyUsers == {}
    {
      ghost var l, water := store.Ledger(), Mark(lastProcessedBlock, lastProcessedLogIndex);
      for k := 0 to |arrivals|
        invariant Valid() && fresh(store.Repr - old(store.Repr))
        invariant store.Ledger() == Fold(l, Live(MarkOf, water, arrivals[..k]).accepted)
        invariant Mark(lastProcessedBlock, lastProcessedLogIndex) == Live(MarkOf, water, arrivals[..k]).water
        invariant store.currentBlock == HighestBlock(old(store.currentBlock), arrivals[..k])
        invariant if k == 0 then dirtyUsers == old(dirtyUsers) else drained[k - 1] ==> dirtyUsers == {}
      {
        var _ := Receive(arrivals[k], drained[k]);
        LiveStep(l, water, arrivals, k);
        HighestBlockStep(old(store.currentBlock), arrivals, k);
      }
      assert arrivals[..|arrivals|] == arrivals;
    }

    lemma LiveStep(l: Ledger, water: Mark, arrivals: seq<RPCLog>, k: nat)
      requires k < |arrivals|
      ensures var s, t := Live(MarkOf, water, arrivals[..k]), Live(MarkOf, water, arrivals[..k + 1]);
              if Duplicate(s.water, MarkOf(arrivals[k])) then t == s
              else t.water == MarkOf(arrivals[k]) && Fold(l, t.accepted) == ApplyLog(Fold(l, s.accepted), arrivals[k])
    {
      assert arrivals[..k + 1][..k] == arrivals[..k];
      FoldLast(l, Live(MarkOf, water, arrivals[..k]).accepted, arrivals[k]);
    }

    lemma HighestBlockStep(current: uint64, arrivals: seq<RPCLog>, k: nat)
      requires k < |arrivals|
      ensures var before, block := HighestBlock(current, arrivals[..k]), arrivals[k].Block();
              HighestBlock(current, arrivals[..k + 1]) == if block > before then block else before
    {
      assert arrivals[..k + 1][..k] == arrivals[..k];
    }

    lemma FoldLast(l: Ledger, logs: seq<RPCLog>, log: RPCLog)
      ensures Fold(l, logs + [log]) == ApplyLog(Fold(l, logs), log)
    {}

    // ---------- The whole run ----------

    /** Fetch, sort and replay the history up to the head block, then hand over. */
    method CatchUp(getLogs: LogQuery<RPCLog>, bWs: uint64) returns (ok: bool, ghost history: seq<RPCLog>)
      requires Valid() && lastProcessedBlock == lastProcessedLogIndex == 0
      requires store.anchorBlock < TWO_64 - 1 && bWs + CHUNK_SIZE < TWO_64
      modifies store`globalIndices, store`userPositions, store`assetSubscribers, store`Repr, store.Repr
      modifies this, riskEngine
      ensures Valid() && fresh(store.Repr - old(store.Repr))
      ensures ok <==> Gather(getLogs, Chunks(old(store.anchorBlock) + 1, bWs)).Some?
      ensures ok ==> IsHistory(history, getLogs, old(store.anchorBlock), bWs)
      ensures store.Ledger() == Fold(old(store.Ledger()), history)
      ensures ok ==> Mark(lastProcessedBlock, lastProcessedLogIndex) == HandOver(MarkOf, history, bWs)
      ensures ok ==> dirtyUsers == {}
      ensures !ok ==> history == []
    {
      var sorted := SortedHistory(getLogs, store.anchorBlock, bWs);
      if sorted.None? {
        return false, [];
      }
      history := sorted.value;
      var _, _ := ReplayHistory(sorted.value);
      RaiseWatermark(bWs);
      ok := true;
    }

    /** The hand-over: a watermark before the head block moves to (bWs, 0). */
    method RaiseWatermark(bWs: uint64)
      requires Valid()
      modifies this`lastProcessedBlock, this`lastProcessedLogIndex
      ensures Valid() && store.Ledger() == old(store.Ledger())
      ensures var last := old(Mark(lastProcessedBlock, lastProcessedLogIndex));
              Mark(lastProcessedBlock, lastProcessedLogIndex) == if last.block < bWs then Mark(bWs, 0) else last
    {
      if lastProcessedBlock < bWs {
        lastProcessedBlock := bWs;
        lastProcessedLogIndex := 0;
      }
    }

    /** The historic logs of (anchor, bWs] in chain order. */
    method SortedHistory(getLogs: LogQuery<RPCLog>, anchor: uint64, bWs: uint64) returns (sorted: Option<seq<RPCLog>>)
      requires anchor < TWO_64 - 1 && bWs + CHUNK_SIZE < TWO_64
      ensures sorted.Some? <==> Gather(getLogs, Chunks(anchor + 1, bWs)).Some?
      ensures sorted.Some? ==> IsHistory(sorted.value, getLogs, anchor, bWs)
    {
      var fetched := FetchHistoricLogs(getLogs, anchor + 1, bWs);
      if fetched.None? {
        return None;
      }
      var historicLogs := new LogList<RPCLog>(MarkOf, fetched.value);
      historicLogs.Sort();
      sorted := Some(historicLogs.items[..]);
    }

    /** Start: history from the block after the snapshot up to the head block, hand-over, live stream. A failed
        call leaves the ledger alone. */
    method Start(
      latestBlock: Option<uint64>, getLogs: LogQuery<RPCLog>, arrivals: seq<RPCLog>, drained: seq<bool>)
      returns (ok: bool, ghost history: seq<RPCLog>)
      requires Valid() && |drained| == |arrivals| && lastProcessedBlock == lastProcessedLogIndex == 0
      requires store.anchorBlock < TWO_64 - 1 && (latestBlock.Some? ==> latestBlock.value + CHUNK_SIZE < TWO_64)
      modifies store`globalIndices, store`userPositions, store`assetSubscribers, store`currentBlock, store`Repr
      modifies store.Repr, this, riskEngine
      ensures Valid() && fresh(store.Repr - old(store.Repr))
      ensures ok <==> latestBlock.Some? && Gather(getLogs, Chunks(old(store.anchorBlock) + 1, latestBlock.value)).Some?
      ensures !ok ==> store.Ledger() == old(store.Ledger())
      ensures ok ==> IsHistory(history, getLogs, old(store.anchorBlock), latestBlock.value)
      ensures ok ==>
        store.Ledger() == Fold(old(store.Ledger()), Processed(MarkOf, history, latestBlock.value, arrivals))
      ensures ok && (arrivals == [] || drained[|drained| - 1]) ==> dirtyUsers == {}
    {
      if latestBlock.None? {
        return false, [];
      }
      var bWs := latestBlock.value;
      ghost var l := store.Ledger();
      ok, history := CatchUp(getLogs, bWs);
      if ok {
        FoldConcat(l, history, Live(MarkOf, HandOver(MarkOf, history, bWs), arrivals).accepted);
        LiveLoop(arrivals, drained);
      }
    }
  }

  /** history is what the engine replays: the gathered logs of (anchor, bWs], sorted. */
  ghost predicate IsHistory(history: seq<RPCLog>, getLogs: LogQuery<RPCLog>, anchor: uint64, bWs: uint64) {
    && Gather(getLogs, Chunks(anchor + 1, bWs)).Some?
    && SortedLogs(MarkOf, history)
    && multiset(history) == multiset(Gather(getLogs, Chunks(anchor + 1, bWs)).value)
  }

  /** One in-order fold over the canonical log: for every chain the node serves completely, and at every point
      of every gap-free stream, the ledger Start leaves is that of the canonical logs after the snapshot, each
      applied once and in order; and the logs processed are those exactly when the hand-over is clean. */
  lemma RunIsOneFold(
    canon: seq<RPCLog>, anchor: uint64, bWs: uint64, getLogs: LogQuery<RPCLog>, history: seq<RPCLog>,
    arrivals: seq<RPCLog>, pos: seq<nat>, l: Ledger)
    requires Ascending(MarkOf, canon) && Complete(MarkOf, getLogs, canon)
    requires IsHistory(history, getLogs, anchor, bWs)
    requires GapFree(MarkOf, canon, bWs, arrivals, pos)
    ensures Reach(pos) <= |canon|
    ensures Processed(MarkOf, history, bWs, arrivals) == Target(MarkOf, canon, anchor, bWs, pos)
       <==> CleanHandOver(MarkOf, arrivals, bWs, anchor)
    ensures CleanHandOver(MarkOf, arrivals, bWs, anchor) ==>
              Fold(l, Processed(MarkOf, history, bWs, arrivals)) == Fold(l, Target(MarkOf, canon, anchor, bWs, pos))
    ensures anchor < bWs ==> CleanHandOver(MarkOf, arrivals, bWs, anchor)
  {
    HistoryIsCanonical(MarkOf, getLogs, canon, anchor + 1, bWs, history);
    ReplayIsExactIff(MarkOf, canon, anchor, bWs, history, arrivals, pos);
    if anchor < bWs { ReplayIsExact(MarkOf, canon, anchor, bWs, history, arrivals, pos); }
  }

  /** For the engine: its run is exact on every chain and stream if and only if the anchor is older than bWs. */
  lemma StartIsExactIff(anchor: uint64, bWs: uint64)
    ensures AlwaysExact(MarkOf, anchor, bWs) <==> anchor < bWs
  {
    var log := RPCLog(NoTopics, [], "", "0x" + FormatHex(anchor), "", "0x" + FormatHex(1), false);
    QuantityRoundTrip(anchor);
    QuantityRoundTrip(1);
    AlwaysExactIff(MarkOf, log, anchor, bWs);
  }
}
