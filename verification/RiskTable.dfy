// internal/engine/risk_engine.go: the heap of users at risk together with its lookup table.
module RiskTables {
  import opened Models
  import opened RayMath
  import opened RiskHeaps

  /** 1.02 in WAD precision. */
  const WATCHDOG_THRESHOLD: int := 102 * WAD / 100

  /** What the table knows of a user: the last health factor reported, and when to check again. */
  datatype Entry = Entry(healthFactor: int, nextCheckAt: int)

  /** The table as a plain map. */
  type Table = map<Address, Entry>

  /** A report removes the user unless the health factor is below 1.05; it keeps the cool-down of a user
      already listed and starts a new one without cool-down. */
  function Reported(t: Table, user: Address, hf: Option<int>): Table {
    if hf.None? || hf.value >= HF_SAFETY_THRESHOLD then t - {user}
    else if user in t then t[user := t[user].(healthFactor := hf.value)]
    else t[user := Entry(hf.value, 0)]
  }

  function Cooled(t: Table, user: Address, until: int): Table {
    if user in t then t[user := t[user].(nextCheckAt := until)] else t
  }

  predicate Due(e: Entry, now: int) {
    e.healthFactor <= WATCHDOG_THRESHOLD && now >= e.nextCheckAt
  }

  /** The fields riskHeap and heapLookup of the store. */
  class RiskTable {
    const riskHeap: RiskHeap
    var heapLookup: map<Address, UserRiskItem>

    constructor ()
      ensures Valid() && Contents() == map[]
      ensures fresh(riskHeap)
    {
      riskHeap := new RiskHeap();
      heapLookup := map[];
    }

    /** Heap order, back-pointers, and a bijection between heap slots and lookup entries. */
    ghost predicate Valid()
      reads this, riskHeap, riskHeap.items
    {
      && riskHeap.Indexed()
      && riskHeap.Ordered()
      && (forall u :: u in heapLookup ==> heapLookup[u] in riskHeap.Elements() && heapLookup[u].userAddress == u)
      && (forall x :: x in riskHeap.Elements() ==> x.userAddress in heapLookup && heapLookup[x.userAddress] == x)
    }

    ghost function Contents(): Table
      reads this, heapLookup.Values
    {
      map u | u in heapLookup :: Entry(heapLookup[u].healthFactor, heapLookup[u].nextCheckAt)
    }

    /** updateHeap: the whole locked section. */
    method UpdateHeap(userAddr: Address, hf: Option<int>)
      requires Valid()
      modifies this, riskHeap, riskHeap.items
      ensures Valid()
      ensures Contents() == Reported(old(Contents()), userAddr, hf)
      ensures fresh(riskHeap.Elements() - old(riskHeap.Elements()))
    {
      var listed := userAddr in heapLookup;
      if hf.None? || hf.value >= HF_SAFETY_THRESHOLD {
        if listed {
          Delete(userAddr);
        } else {
          assert Contents() == Contents() - {userAddr};
        }
        return;
      }
      if listed {
        Rekey(userAddr, hf.value);
      } else {
        Insert(userAddr, hf.value);
      }
    }

    method Delete(userAddr: Address)
      requires Valid() && userAddr in heapLookup
      modifies this, riskHeap, riskHeap.items
      ensures Valid() && Contents() == old(Contents()) - {userAddr}
      ensures riskHeap.Elements() <= old(riskHeap.Elements())
    {
      var item := heapLookup[userAddr];
      assert item in riskHeap.Elements();
      var removed := riskHeap.Remove(item.index);
      heapLookup := heapLookup - {userAddr};
    }

    method Rekey(userAddr: Address, hf: int)
      requires Valid() && userAddr in heapLookup
      modifies riskHeap, riskHeap.items
      ensures Valid()
      ensures Contents() == old(Contents())[userAddr := old(Contents()[userAddr]).(healthFactor := hf)]
      ensures riskHeap.Elements() == old(riskHeap.Elements())
    {
      var item := heapLookup[userAddr];
      SetFactor(item, hf);
      ghost var rekeyed := Contents();
      riskHeap.Fix(item.index);
      assert Contents() == rekeyed;
    }

    /** Overwrites the key of an item in place; the heap order may be broken at its slot. */
    method SetFactor(item: UserRiskItem, hf: int)
      requires Valid() && item in riskHeap.Elements()
      modifies item`healthFactor
      ensures riskHeap.Indexed() && 0 <= item.index < |riskHeap.items|
      ensures Sinking(riskHeap.Keys(), |riskHeap.items|, item.index, item.index)
      ensures Contents() == old(Contents())[item.userAddress := old(Contents()[item.userAddress]).(healthFactor := hf)]
    {
      ghost var keys := riskHeap.Keys();
      item.healthFactor := hf;
      assert riskHeap.Keys() == keys[item.index := hf];
      ChangeKey(keys, item.index, hf);
    }

    method Insert(userAddr: Address, hf: int)
      requires Valid() && userAddr !in heapLookup
      modifies this, riskHeap, riskHeap.items
      ensures Valid() && Contents() == old(Contents())[userAddr := Entry(hf, 0)]
      ensures fresh(riskHeap.Elements() - old(riskHeap.Elements()))
    {
      var newItem := new UserRiskItem(userAddr, hf);
      Add(newItem);
    }

    /** Put a new item into the heap and the lookup. */
    method Add(newItem: UserRiskItem)
      requires Valid() && newItem.userAddress !in heapLookup
      modifies this`heapLookup, riskHeap`items, riskHeap.items, newItem`index
      ensures Valid() && heapLookup == old(heapLookup)[newItem.userAddress := newItem]
      ensures riskHeap.Elements() == old(riskHeap.Elements()) + {newItem}
      ensures forall x :: x in old(riskHeap.Elements()) ==>
                x.healthFactor == old(x.healthFactor) && x.nextCheckAt == old(x.nextCheckAt)
    {
      riskHeap.HeapPush(newItem);
      heapLookup := heapLookup[newItem.userAddress := newItem];
    }

    /** The cool-down a worker sets under the lock after a failed or unprofitable attempt. */
    method Cooldown(userAddr: Address, until: int)
      requires Valid()
      modifies heapLookup.Values
      ensures Valid() && Contents() == Cooled(old(Contents()), userAddr, until)
    {
      if userAddr in heapLookup {
        var item := heapLookup[userAddr];
        item.nextCheckAt := until;
        assert riskHeap.Keys() == old(riskHeap.Keys());
      }
    }

    /** The locked scan of the watchdog: exactly the users that are due, each once. */
    method WatchdogScan(now: int) returns (targets: seq<Address>)
      requires Valid()
      ensures forall u :: u in targets <==> u in Contents() && Due(Contents()[u], now)
      ensures forall i, j :: 0 <= i < j < |targets| ==> targets[i] != targets[j]
    {
      targets := [];
      var heapSlice := riskHeap.items;
      for k := 0 to |heapSlice|
        invariant forall u :: u in targets ==> u in heapLookup && Due(Contents()[u], now) && heapLookup[u].index < k
        invariant forall i :: 0 <= i < k && Due(Contents()[heapSlice[i].userAddress], now) ==>
          heapSlice[i].userAddress in targets
        invariant forall i, j :: 0 <= i < j < |targets| ==> targets[i] != targets[j]
      {
        var item := heapSlice[k];
        assert heapLookup[item.userAddress] == item;
        if item.healthFactor <= WATCHDOG_THRESHOLD && now >= item.nextCheckAt {
          targets := targets + [item.userAddress];
        }
      }
      forall u | u in Contents() && Due(Contents()[u], now) ensures u in targets {
        var i :| 0 <= i < |heapSlice| && heapSlice[i] == heapLookup[u];
      }
    }

    /** The user at the root of the heap has the least health factor of all. */
    lemma RootIsMinimal(u: Address)
      requires Valid() && u in heapLookup
      ensures riskHeap.items != [] && riskHeap.items[0].healthFactor <= Contents()[u].healthFactor
    {
      var i :| 0 <= i < |riskHeap.items| && riskHeap.items[i] == heapLookup[u];
      RootIsLeast(riskHeap.Keys(), i);
    }
  }

  // ---------- Whole runs ----------

  datatype Op = Report(user: Address, hf: Option<int>) | CoolDown(user: Address, until: int)

  function Apply(t: Table, op: Op): Table {
    match op
    case Report(u, hf) => Reported(t, u, hf)
    case CoolDown(u, until) => Cooled(t, u, until)
  }

  function Run(ops: seq<Op>): Table {
    if ops == [] then map[] else Apply(Run(ops[..|ops| - 1]), ops[|ops| - 1])
  }

  predicate Listed(op: Op) {
    op.Report? && op.hf.Some? && op.hf.value < HF_SAFETY_THRESHOLD
  }

  /** ops[i] is the last report about the user. */
  predicate LastReport(ops: seq<Op>, user: Address, i: int) {
    && 0 <= i < |ops| && ops[i].Report? && ops[i].user == user
    && forall j :: i < j < |ops| ==> !(ops[j].Report? && ops[j].user == user)
  }

  /** After any run a user is in the table exactly when the last report about it was a health factor below
      1.05, and then with that health factor. */
  lemma {:induction false} LastReportWins(ops: seq<Op>, user: Address)
    ensures user in Run(ops) <==> exists i :: LastReport(ops, user, i) && Listed(ops[i])
    ensures forall i :: LastReport(ops, user, i) && Listed(ops[i]) ==>
      user in Run(ops) && Run(ops)[user].healthFactor == ops[i].hf.value
  {
    if ops != [] {
      var n := |ops| - 1;
      var before, op := ops[..n], ops[n];
      LastReportWins(before, user);
      if op.Report? && op.user == user {
        assert LastReport(ops, user, n);
      } else {
        forall i ensures LastReport(ops, user, i) <==> LastReport(before, user, i) {
          if LastReport(before, user, i) {
            assert forall j :: 0 <= j < n ==> ops[j] == before[j];
          }
        }
        assert user in Run(ops) <==> user in Run(before);
        if user in Run(before) {
          var i :| LastReport(before, user, i) && Listed(before[i]);
          assert LastReport(ops, user, i) && Listed(ops[i]);
        }
      }
    }
  }

  /** No report about the user from i on takes it off the table. */
  predicate StaysListed(ops: seq<Op>, user: Address, i: int) {
    forall j :: 0 <= i < j < |ops| && ops[j].Report? && ops[j].user == user ==> Listed(ops[j])
  }

  /** A cool-down survives every later re-keying: if ops[i] cools a listed user down, and later operations
      neither take the user off the table nor cool it down again, the time is still in force. */
  lemma {:induction false} CooldownSurvives(ops: seq<Op>, user: Address, i: int)
    requires 0 <= i < |ops| && ops[i].CoolDown? && ops[i].user == user
    requires user in Run(ops[..i])
    requires StaysListed(ops, user, i)
    requires forall j :: i < j < |ops| ==> !(ops[j].CoolDown? && ops[j].user == user)
    ensures user in Run(ops) && Run(ops)[user].nextCheckAt == ops[i].until
  {
    var n := |ops| - 1;
    var before := ops[..n];
    if i < n {
      assert before[..i] == ops[..i];
      assert forall j :: i < j < n ==> before[j] == ops[j];
      CooldownSurvives(before, user, i);
    }
  }

  // ---------- When the watchdog returns a user ----------

  /** At or below 1.02, and not cooling down any more. */
  lemma DueExact(e: Entry, now: int)
    ensures Due(e, now) <==> 100 * e.healthFactor <= 102 * 1_000_000_000_000_000_000 && e.nextCheckAt <= now
  {}

  predicate Returned(t: Table, user: Address, now: int) {
    user in t && Due(t[user], now)
  }

  /** After a cool-down of a listed user the scan leaves the user out until the given time; from then on it returns
      the user exactly when its last report is at most 1.02, as long as nothing takes it off the table. */
  lemma SilentUntil(ops: seq<Op>, user: Address, i: int, now: int)
    requires 0 <= i < |ops| && ops[i].CoolDown? && ops[i].user == user
    requires user in Run(ops[..i])
    requires StaysListed(ops, user, i)
    requires forall j :: i < j < |ops| ==> !(ops[j].CoolDown? && ops[j].user == user)
    ensures now < ops[i].until ==> !Returned(Run(ops), user, now)
    ensures now >= ops[i].until ==> forall k :: LastReport(ops, user, k) && Listed(ops[k]) ==>
      (Returned(Run(ops), user, now) <==> 100 * ops[k].hf.value <= 102 * 1_000_000_000_000_000_000)
  {
    CooldownSurvives(ops, user, i);
    LastReportWins(ops, user);
    DueExact(Run(ops)[user], now);
  }

  /** A user reported below 1.05 who was not on the table is returned at once when at or below 1.02. */
  lemma NewUserAtOnce(ops: seq<Op>, user: Address, hf: int, now: int)
    requires user !in Run(ops) && 100 * hf < 105 * 1_000_000_000_000_000_000 && now >= 0
    ensures Returned(Run(ops + [Report(user, Some(hf))]), user, now)
       <==> 100 * hf <= 102 * 1_000_000_000_000_000_000
  {
    assert (ops + [Report(user, Some(hf))])[..|ops|] == ops;
    DueExact(Entry(hf, 0), now);
  }

  /** A user reported at 1.05 or above, or without a health factor, is never returned. */
  lemma SafeUserNever(ops: seq<Op>, user: Address, hf: Option<int>, now: int)
    requires hf.None? || 100 * hf.value >= 105 * 1_000_000_000_000_000_000
    ensures !Returned(Run(ops + [Report(user, hf)]), user, now)
  {
    assert (ops + [Report(user, hf)])[..|ops|] == ops;
  }
}
