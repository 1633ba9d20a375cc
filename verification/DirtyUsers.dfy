// internal/engine/log_replay_engine.go, markUserDirty/flushDirtyUsers: no change goes unreported.
module DirtyUsers {
  import opened Models
  import opened Events
  import opened Ledgers

  /** What an observer of the engine sees: a log changing the ledger, or a user offered to the risk engine. */
  datatype TraceEvent =
    | Applied(before: Ledger, after: Ledger)
    | Offered(user: Address)

  ghost predicate OfferedAfter(trace: seq<TraceEvent>, k: int, u: Address) {
    exists j :: k < j < |trace| && 0 <= j && trace[j] == Offered(u)
  }

  /** Every user affected by an applied log is still dirty or was offered after the change. */
  ghost predicate NoneLost(trace: seq<TraceEvent>, dirty: set<Address>) {
    forall k, u :: 0 <= k < |trace| && trace[k].Applied? && Affected(trace[k].before, trace[k].after, u)
      ==> u in dirty || OfferedAfter(trace, k, u)
  }

  function Offers(users: seq<Address>): seq<TraceEvent> {
    seq(|users|, i requires 0 <= i < |users| => Offered(users[i]))
  }

  lemma OfferedLater(trace: seq<TraceEvent>, more: seq<TraceEvent>, k: int, u: Address)
    requires OfferedAfter(trace, k, u)
    ensures OfferedAfter(trace + more, k, u)
  {
    var j :| k < j < |trace| && 0 <= j && trace[j] == Offered(u);
    assert (trace + more)[j] == Offered(u);
  }

  /** A log keeps the property when everybody it affects is marked or offered. */
  lemma NoneLostAfterLog(
    trace: seq<TraceEvent>, dirty: set<Address>, before: Ledger, after: Ledger, offered: seq<Address>,
    dirty': set<Address>)
    requires NoneLost(trace, dirty) && dirty <= dirty'
    requires forall u :: Affected(before, after, u) ==> u in dirty' || u in offered
    ensures NoneLost(trace + [Applied(before, after)] + Offers(offered), dirty')
  {
    var more := [Applied(before, after)] + Offers(offered);
    var whole := trace + more;
    assert trace + [Applied(before, after)] + Offers(offered) == whole;
    forall k, u | 0 <= k < |whole| && whole[k].Applied? && Affected(whole[k].before, whole[k].after, u)
      ensures u in dirty' || OfferedAfter(whole, k, u)
    {
      if k < |trace| {
        if u !in dirty { OfferedLater(trace, more, k, u); }
      } else {
        assert k == |trace|;
        if u in offered {
          var i :| 0 <= i < |offered| && offered[i] == u;
          assert whole[k + 1 + i] == Offered(u);
        }
      }
    }
  }

  /** Flushing offers everybody who is dirty, so the set may be emptied. */
  lemma NoneLostAfterFlush(trace: seq<TraceEvent>, dirty: set<Address>, offered: seq<Address>)
    requires NoneLost(trace, dirty) && forall u :: u in dirty ==> u in offered
    ensures NoneLost(trace + Offers(offered), {})
  {
    var whole := trace + Offers(offered);
    forall k, u | 0 <= k < |whole| && whole[k].Applied? && Affected(whole[k].before, whole[k].after, u)
      ensures OfferedAfter(whole, k, u)
    {
      assert k < |trace|;
      if u in dirty {
        var i :| 0 <= i < |offered| && offered[i] == u;
        assert whole[|trace| + i] == Offered(u);
      } else {
        OfferedLater(trace, Offers(offered), k, u);
      }
    }
  }

  // ---------- The trace of a replay, log by log ----------

  /** One log of a replay: the users flushed before it, its effect, and the users its handler offered. */
  datatype Step = Step(flushed: seq<Address>, before: Ledger, after: Ledger, offered: seq<Address>)
  {
    function Events(): seq<TraceEvent> {
      Offers(flushed) + [Applied(before, after)] + Offers(offered)
    }
  }

  function TraceOf(steps: seq<Step>): seq<TraceEvent> {
    if steps == [] then [] else TraceOf(steps[..|steps| - 1]) + steps[|steps| - 1].Events()
  }

  lemma TraceOfPush(trace: seq<TraceEvent>, steps: seq<Step>, step: Step)
    ensures trace + TraceOf(steps + [step]) == trace + TraceOf(steps) + step.Events()
  {}

  lemma TraceOfStep(trace: seq<TraceEvent>, step: Step)
    ensures trace + Offers(step.flushed) + [Applied(step.before, step.after)] + Offers(step.offered)
         == trace + step.Events()
  {}

  /** steps replays logs after the trace `trace`: a handler offers users only for an index update, users are
      flushed only where the transaction changes, and there nobody affected so far is left unoffered. */
  ghost predicate Replays(trace: seq<TraceEvent>, logs: seq<RPCLog>, steps: seq<Step>) {
    && |steps| == |logs|
    && (forall k :: 0 <= k < |steps| ==> steps[k].after == ApplyLog(steps[k].before, logs[k]))
    && (forall k :: 0 <= k < |steps| && steps[k].offered != [] ==> Decode(logs[k]).SetIndex?)
    && (forall k :: 0 < k < |steps| ==> AtBoundary(trace + TraceOf(steps[..k]), logs[k - 1], logs[k], steps[k].flushed))
  }

  ghost predicate AtBoundary(trace: seq<TraceEvent>, previous: RPCLog, next: RPCLog, flushed: seq<Address>) {
    if previous.transactionHash == next.transactionHash then flushed == [] else NoneLost(trace + Offers(flushed), {})
  }

  /** One more log replayed. */
  lemma ReplaysPush(trace: seq<TraceEvent>, logs: seq<RPCLog>, steps: seq<Step>, log: RPCLog, step: Step)
    requires Replays(trace, logs, steps)
    requires step.after == ApplyLog(step.before, log) && (step.offered != [] ==> Decode(log).SetIndex?)
    requires logs != [] ==> AtBoundary(trace + TraceOf(steps), logs[|logs| - 1], log, step.flushed)
    ensures Replays(trace, logs + [log], steps + [step])
  {
    var all, every := steps + [step], logs + [log];
    forall k | 0 < k < |all|
      ensures AtBoundary(trace + TraceOf(all[..k]), every[k - 1], every[k], all[k].flushed)
    {
      assert all[..k] == steps[..k];
      if k == |steps| { assert steps[..k] == steps; }
    }
  }

  // ---------- Who an update concerns ----------

  /** The user the handler marks dirty: nobody when it returns early. */
  function Marked(l: Ledger, up: Update): set<Address> {
    match up
    case Ignore => {}
    case SetIndex(_, _) => {}
    case Supplied(u, a, _) => if HasLiquidityIndex(l, a) then {u} else {}
    case Withdrawn(u, a, _) => if HasLiquidityIndex(l, a) then {u} else {}
    case Borrowed(u, a, _) => if HasBorrowIndex(l, a) then {u} else {}
    case Repaid(u, a, _) => if HasBorrowIndex(l, a) then {u} else {}
    case Liquidated(u, c, d, _, _) => if c in l.indices && d in l.indices then {u} else {}
    case CollateralSet(u, _, _) => {u}
    case EModeSet(u, _) => {u}
  }

  /** Everybody affected by an update is marked, or holds the asset whose index it sets. */
  lemma AffectedAreConcerned(l: Ledger, up: Update, v: Address)
    requires Affected(l, ApplyUpdate(l, up, false), v)
    ensures v in Marked(l, up) || (up.SetIndex? && Holds(ApplyUpdate(l, up, false), v, up.asset))
  {}
}
