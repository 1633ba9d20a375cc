// From the bootstrap snapshot through history, hand-over and live stream: what the parts give together.
module WholeRun {
  import opened Models
  import opened RayMath
  import opened Events
  import opened Ledgers
  import opened Drift
  import opened Replay
  import opened LogReplay
  import B = Bootstrapper
  import G = GraphClient
  import HF = HealthFactor
  import LE = LazyEMode
  import opened Classification
  import opened Sums

  function Id(): B.GraphUser -> string {
    (u: B.GraphUser) => u.id
  }

  lemma InSequence<T>(s: seq<T>, i: int)
    requires 0 <= i < |s|
    ensures multiset(s)[s[i]] >= 1
  {}

  /** A sequence in which every element counts at most once has no element twice. */
  lemma CountedOnce<T>(s: seq<T>, i: int, j: int)
    requires 0 <= i < j < |s| && multiset(s)[s[i]] <= 1
    ensures s[i] != s[j]
  {
    assert s == s[..j] + s[j..];
    InSequence(s[..j], i);
    InSequence(s[j..], 0);
    assert multiset(s)[s[i]] == multiset(s[..j])[s[i]] + multiset(s[j..])[s[i]];
  }

  ghost predicate Queryable(users: seq<B.GraphUser>, order: seq<nat>) {
    && G.InIdOrder(Id(), users) && G.IsArrivalOrder(order)
    && forall y :: y in users ==> G.IsAddressId(y.id) && y.id != G.LastId()
  }

  /** The fetched users are the server's, each once. */
  lemma FetchedOnce(users: seq<B.GraphUser>, order: seq<nat>, x: B.GraphUser)
    requires Queryable(users, order)
    ensures var fetched := G.Collected(Id(), users, order);
            multiset(fetched)[x] <= 1 && (x in fetched <==> x in users)
  {
    G.FetchedCount(Id(), users, order, x);
    assert x in G.Collected(Id(), users, order) <==> x in multiset(G.Collected(Id(), users, order));
  }

  lemma FetchedApart(users: seq<B.GraphUser>, order: seq<nat>, i: int, j: int)
    requires Queryable(users, order) && forall p, q :: 0 <= p < q < |users| ==> users[p].id != users[q].id
    requires 0 <= i < j < |G.Collected(Id(), users, order)|
    ensures G.Collected(Id(), users, order)[i].id != G.Collected(Id(), users, order)[j].id
  {
    var fetched := G.Collected(Id(), users, order);
    FetchedOnce(users, order, fetched[i]);
    FetchedOnce(users, order, fetched[j]);
    CountedOnce(fetched, i, j);
    var p :| 0 <= p < |users| && users[p] == fetched[i];
    var q :| 0 <= q < |users| && users[q] == fetched[j];
  }

  /** The bootstrap query loses nobody: whatever the order in which the sixteen partitions arrive, what was
      fetched reports the same state as the server's own list, unless a borrower has the address 0xff...ff. */
  lemma FetchReportsAll(users: seq<B.GraphUser>, order: seq<nat>, c: Ledger)
    requires B.Reports(users, c) && Queryable(users, order)
    ensures B.Reports(G.Collected(Id(), users, order), c)
  {
    var fetched := G.Collected(Id(), users, order);
    forall x ensures x in fetched <==> x in users { FetchedOnce(users, order, x); }
    forall i, j | 0 <= i < j < |fetched| ensures fetched[i].id != fetched[j].id {
      FetchedApart(users, order, i, j);
    }
    forall i | 0 <= i < |fetched| ensures B.ReportsUser(fetched[i], c) {
      assert fetched[i] in users;
    }
    forall u ensures B.Mentions(users, u) <==> B.Mentions(fetched, u) {
      MentionsCarry(users, fetched, u);
      MentionsCarry(fetched, users, u);
    }
  }

  lemma MentionsCarry(a: seq<B.GraphUser>, b: seq<B.GraphUser>, u: Address)
    requires forall x :: x in a ==> x in b
    ensures B.Mentions(a, u) ==> B.Mentions(b, u)
  {
    if i :| 0 <= i < |a| && a[i].id == u {
      assert a[i] in b;
      var j :| 0 <= j < |b| && b[j] == a[i];
    }
  }

  /** One run of the bot against a chain: the bootstrap answers, the chain c at the anchor, its canonical log, the
      node, the replayed history, the stream so far, and where its arrivals are in the canonical log. */
  datatype Run = Run(
    entries: seq<(Address, GlobalIndex)>, users: seq<B.GraphUser>, c: Ledger,
    canon: seq<RPCLog>, anchor: uint64, bWs: uint64, getLogs: LogQuery<RPCLog>,
    history: seq<RPCLog>, arrivals: seq<RPCLog>, pos: seq<nat>)
  {
    /** The answers report c, the node serves the canonical log, the stream has no gap, and the snapshot is not
        part of what the stream delivers first. */
    ghost predicate Faithful() {
      && B.ListsIndices(entries, c.indices) && B.Reports(users, c)
      && BalancesNonNeg(c) && IndicesNonNeg(c)
      && Ascending(MarkOf, canon) && Complete(MarkOf, getLogs, canon)
      && IsHistory(history, getLogs, anchor, bWs)
      && GapFree(MarkOf, canon, bWs, arrivals, pos) && Reach(pos) <= |canon|
      && CleanHandOver(MarkOf, arrivals, bWs, anchor)
      && SoundRun(c, Wanted())
    }

    /** The canonical updates after the anchor, up to what the history and the stream have reached. */
    ghost function Wanted(): seq<Update>
      requires Reach(pos) <= |canon|
    {
      Updates(Target(MarkOf, canon, anchor, bWs, pos))
    }

    /** The chain at that point. */
    ghost function Chain(): Ledger
      requires Reach(pos) <= |canon|
    {
      RunAll(c, Wanted(), true)
    }

    /** What Bootstrapper.Run leaves in a new store. */
    function Snapshot(): Ledger {
      B.Seed(Ledger(B.WithIndices(map[], entries), map[]), B.BorrowersOf(users))
    }

    /** What LogReplayEngine.Start has made of it. */
    function Local(): Ledger {
      Fold(Snapshot(), Processed(MarkOf, history, bWs, arrivals))
    }

    /** How far a borrower may be behind: ten units for the snapshot and ten per reducing event. */
    ghost function LagOf(u: Address): Lag
      requires Reach(pos) <= |canon|
    {
      var ups := Wanted();
      Lag(a => DUST_THRESHOLD * (1 + ATokenCuts(ups, u, a)), a => DUST_THRESHOLD * (1 + DebtCuts(ups, u, a)))
    }
  }

  /** Bootstrap, history, hand-over and stream amount to one fold over the wanted logs. */
  lemma LocalIsOneFold(r: Run)
    requires r.Faithful()
    ensures IsSnapshot(r.Snapshot(), r.c)
    ensures r.Local() == Fold(r.Snapshot(), Target(MarkOf, r.canon, r.anchor, r.bWs, r.pos))
  {
    B.SeedIsSnapshot(r.entries, r.users, r.c);
    RunIsOneFold(r.canon, r.anchor, r.bWs, r.getLogs, r.history, r.arrivals, r.pos, r.Snapshot());
  }

  /** At every point of every such run a borrower's balances are never negative, never above the chain's, and
      behind by at most ten units for the snapshot and ten more per reducing event. */
  lemma BorrowerTracksChain(r: Run, u: Address, a: Address)
    requires r.Faithful() && IsBorrower(r.c, u)
    ensures Lags(r.Local(), r.Chain(), u, a, r.LagOf(u).aToken(a), r.LagOf(u).debt(a))
  {
    LocalIsOneFold(r);
    BorrowerDrift(r.Snapshot(), r.c, Target(MarkOf, r.canon, r.anchor, r.bWs, r.pos), u, a);
  }

  /** And at every such point its collateral flag is the chain's if and only if the bootstrap kept it or the run
      contains a collateral event of that reserve. */
  lemma BorrowerFlagIff(r: Run, u: Address, a: Address)
    requires r.Faithful()
    ensures SameFlag(r.Local(), r.Chain(), u, a) <==> KeepsFlag(r.c, u, a) || FlagIsSet(r.Wanted(), u, a)
  {
    LocalIsOneFold(r);
    FlagTracksChainIff(r.Snapshot(), r.c, Target(MarkOf, r.canon, r.anchor, r.bWs, r.pos), u, a);
  }

  /** The chain stores each reserve under its own asset, as the store does. */
  ghost predicate UnderOwnAsset(c: Ledger, u: Address) {
    forall a {:trigger ReserveOf(c, u, a)} :: ReserveOf(c, u, a).assetAddress == a
  }

  lemma BorrowerPositionTracks(r: Run, u: Address)
    requires r.Faithful() && IsBorrower(r.c, u) && UnderOwnAsset(r.c, u)
    requires forall a :: KeepsFlag(r.c, u, a) || FlagIsSet(r.Wanted(), u, a)
    ensures PositionTracks(r.Local(), r.Chain(), u, r.LagOf(u))
  {
    LocalIsOneFold(r);
    var logs := Target(MarkOf, r.canon, r.anchor, r.bWs, r.pos);
    FoldIsRun(r.Snapshot(), logs);
    forall a
      ensures Tracks(ReserveOf(r.Local(), u, a), ReserveOf(r.Chain(), u, a), a,
                     r.LagOf(u).aToken(a), r.LagOf(u).debt(a))
    {
      BorrowerTracksChain(r, u, a);
      BorrowerFlagIff(r, u, a);
      AssetsStay(r.Snapshot(), r.Wanted(), false, u, a);
      AssetsStay(r.c, r.Wanted(), true, u, a);
      assert ReserveOf(r.Snapshot(), u, a).assetAddress == a;
    }
  }

  /** And a user's E-Mode category is known locally, and the chain's, exactly for borrowers of the snapshot and users
      with a later E-Mode event. */
  lemma UserCategoryIff(r: Run, u: Address)
    requires r.Faithful()
    ensures KnowsCategory(r.Local(), r.Chain(), u) <==> IsBorrower(r.c, u) || CategoryIsSet(r.Wanted(), u)
  {
    LocalIsOneFold(r);
    CategoryTracksChainIff(r.Snapshot(), r.c, Target(MarkOf, r.canon, r.anchor, r.bWs, r.pos), u);
  }

  /** The snapshot of the chain's own position, under the chain's own category. */
  ghost function ChainSnapshot(
    r: Run, u: Address, m: Market, keys: seq<Address>, block: uint64): Option<HF.RiskSnapshot>
    requires Reach(r.pos) <= |r.canon|
  {
    var p := PositionOf(r.Chain(), u);
    HF.Snapshot(m, p, HF.EMode(true, p.eModeCategoryId), keys, block)
  }

  /** The purpose of the mirror: at every point of every such run, calculateHF puts a borrower below a threshold
      exactly when the chain's own position and category do, unless the chain's figures are within the value of
      the lag of that threshold. */
  lemma BorrowerClassifiedAsOnChain(
    r: Run, u: Address, m: Market, keys: seq<Address>, replies: LE.Replies, block: uint64, threshold: int)
    requires r.Faithful() && IsBorrower(r.c, u) && UnderOwnAsset(r.c, u)
    requires forall a :: KeepsFlag(r.c, u, a) || FlagIsSet(r.Wanted(), u, a)
    requires m.Sound() && threshold >= 0
    requires LE.CalculateHF(m, PositionOf(r.Local(), u), keys, replies, block).snapshot.Some?
    requires ChainSnapshot(r, u, m, keys, block).Some?
    requires var s := ChainSnapshot(r, u, m, keys, block).value;
             var e := HF.EMode(true, PositionOf(r.Chain(), u).eModeCategoryId);
             Clear(threshold, s.totalCollateralBase, s.totalDebtBase,
                   Sum(WeightedGapAt(m, e, r.LagOf(u)), keys), Sum(DebtGapAt(m, r.LagOf(u)), keys))
    ensures LE.CalculateHF(m, PositionOf(r.Local(), u), keys, replies, block).snapshot.value.healthFactor < threshold
       <==> ChainSnapshot(r, u, m, keys, block).value.healthFactor < threshold
  {
    BorrowerPositionTracks(r, u);
    UserCategoryIff(r, u);
    var e := HF.EMode(true, PositionOf(r.Chain(), u).eModeCategoryId);
    LE.FetchCases(m, PositionOf(r.Local(), u), keys, replies, block);
    ClassifiedAsOnChain(m, r.Local(), r.Chain(), u, e, keys, block, r.LagOf(u), threshold);
  }

  /** Without a clean hand-over the bound is lost: when the snapshot was taken at the head block itself, a
      supply of that block which the stream delivers once more is credited a second time. */
  lemma HandOverCreditsTwice(before: Ledger, log: RPCLog, u: Address, a: Address, amount: int)
    requires Decode(log) == Supplied(u, a, amount) && HasLiquidityIndex(before, a) && log.Index() > 0
    ensures var snapshot := ApplyLog(before, log);
            var after := Fold(snapshot, Processed(MarkOf, [], log.Block(), [log]));
            ReserveOf(after, u, a).aToken
              == ReserveOf(snapshot, u, a).aToken + RayDiv(amount, before.indices[a].liquidityIndex)
    ensures !CleanHandOver(MarkOf, [log], log.Block(), log.Block())
  {
    var b := log.Block();
    var snapshot := ApplyLog(before, log);
    assert [log][..0] == [];
    assert HandOver(MarkOf, [], b) == Mark(b, 0);
    assert Live(MarkOf, Mark(b, 0), [log]).accepted == [] + [log];
    assert FirstBeyond(MarkOf, [log], b, 0);
    assert Fold(snapshot, [log]) == ApplyLog(snapshot, log);
  }
}
