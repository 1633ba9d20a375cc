// internal/engine/log_replay_engine.go and internal/models/external.go: chain order, chunking, hand-over and
// de-duplication, over any kind of log that has a position in the chain.
module Replay {
  import opened Models

  // ---------- Chain order ----------

  /** A position in the chain: block number, then log index. */
  datatype Mark = Mark(block: uint64, index: uint64)
  {
    predicate Before(m: Mark) {
      if block != m.block then block < m.block else index < m.index
    }
  }

  ghost predicate Ascending<T>(key: T -> Mark, logs: seq<T>) {
    forall i, j :: 0 <= i < j < |logs| ==> key(logs[i]).Before(key(logs[j]))
  }

  /** What sort.Sort promises for LogList.Less. */
  ghost predicate SortedLogs<T>(key: T -> Mark, logs: seq<T>) {
    forall i, j :: 0 <= i < j < |logs| ==> !key(logs[j]).Before(key(logs[i]))
  }

  /** The last element of an ascending sequence is the last element of every sorted permutation of it. */
  lemma SameLast<T>(key: T -> Mark, a: seq<T>, b: seq<T>)
    requires a != [] && multiset(a) == multiset(b)
    requires Ascending(key, a) && SortedLogs(key, b)
    ensures |b| == |a| && b[|b| - 1] == a[|a| - 1]
  {
    assert |b| == |multiset(b)| == |multiset(a)| == |a|;
    var n := |a| - 1;
    var x, y := a[n], b[n];
    assert x in multiset(b) && y in multiset(a);
    var i :| 0 <= i < |a| && a[i] == y;
    var j :| 0 <= j < |b| && b[j] == x;
    assert i < n ==> key(a[i]).Before(key(a[n]));
    assert j < n ==> !key(b[n]).Before(key(b[j]));
  }

  lemma Front<T>(a: seq<T>)
    requires a != []
    ensures multiset(a[..|a| - 1]) == multiset(a) - multiset{a[|a| - 1]}
  {
    assert a == a[..|a| - 1] + [a[|a| - 1]];
  }

  lemma DropLast<T>(a: seq<T>, b: seq<T>)
    requires a != [] && |a| == |b| && a[|a| - 1] == b[|b| - 1] && multiset(a) == multiset(b)
    ensures multiset(a[..|a| - 1]) == multiset(b[..|b| - 1])
  {
    Front(a);
    Front(b);
  }

  /** A sorted permutation of logs with distinct positions is unique, whatever the sorting algorithm. */
  lemma {:induction false} SortIsUnique<T>(key: T -> Mark, a: seq<T>, b: seq<T>)
    requires Ascending(key, a) && SortedLogs(key, b) && multiset(a) == multiset(b)
    ensures a == b
  {
    if a == [] {
      assert |b| == |multiset(b)| == 0;
    } else {
      SameLast(key, a, b);
      DropLast(a, b);
      SortIsUnique(key, a[..|a| - 1], b[..|b| - 1]);
    }
  }

  // ---------- The canonical log ----------

  /** Number of logs at the start of the chain up to and including block b. */
  function Cut<T>(key: T -> Mark, canon: seq<T>, b: int): nat
    ensures Cut(key, canon, b) <= |canon|
  {
    if canon == [] then 0
    else if key(canon[|canon| - 1]).block <= b then |canon|
    else Cut(key, canon[..|canon| - 1], b)
  }

  lemma {:induction false} CutSplits<T>(key: T -> Mark, canon: seq<T>, b: int)
    requires Ascending(key, canon)
    ensures forall i :: 0 <= i < Cut(key, canon, b) ==> key(canon[i]).block <= b
    ensures forall i :: Cut(key, canon, b) <= i < |canon| ==> key(canon[i]).block > b
  {
    if canon != [] && key(canon[|canon| - 1]).block > b {
      CutSplits(key, canon[..|canon| - 1], b);
    }
  }

  /** The canonical logs of the blocks above lo up to hi. */
  function Between<T>(key: T -> Mark, canon: seq<T>, lo: int, hi: int): seq<T> {
    if Cut(key, canon, lo) <= Cut(key, canon, hi) then canon[Cut(key, canon, lo)..Cut(key, canon, hi)] else []
  }

  lemma CutMonotone<T>(key: T -> Mark, canon: seq<T>, b: int, c: int)
    requires Ascending(key, canon) && b <= c
    ensures Cut(key, canon, b) <= Cut(key, canon, c)
    ensures Between(key, canon, c, b) == []
  {}

  /** Neighbouring block ranges join without overlap. */
  lemma BetweenJoins<T>(key: T -> Mark, canon: seq<T>, lo: int, mid: int, hi: int)
    requires Ascending(key, canon) && lo <= mid <= hi
    ensures Between(key, canon, lo, hi) == Between(key, canon, lo, mid) + Between(key, canon, mid, hi)
  {
    CutMonotone(key, canon, lo, mid);
    CutMonotone(key, canon, mid, hi);
  }

  // ---------- Chunked history ----------

  const CHUNK_SIZE: nat := 10

  function ChunkEnd(from: nat, to: nat): nat {
    if from + CHUNK_SIZE - 1 > to then to else from + CHUNK_SIZE - 1
  }

  /** The block ranges fetchHistoricLogs asks for. */
  function Chunks(from: nat, to: nat): seq<(nat, nat)>
    decreases if from > to then 0 else to - from + 1
  {
    if from > to then [] else [(from, ChunkEnd(from, to))] + Chunks(from + CHUNK_SIZE, to)
  }

  ghost predicate Covered(chunks: seq<(nat, nat)>, b: int) {
    exists i :: 0 <= i < |chunks| && chunks[i].0 <= b <= chunks[i].1
  }

  /** chunks tile [from, to]: every block is in one of them, no two overlap, none reaches outside, and each
      has at most ten blocks. */
  ghost predicate Tiles(chunks: seq<(nat, nat)>, from: nat, to: nat) {
    && (forall i :: 0 <= i < |chunks| ==> from <= chunks[i].0 <= chunks[i].1 <= to)
    && (forall i :: 0 <= i < |chunks| ==> chunks[i].1 < chunks[i].0 + 10)
    && (forall b :: from <= b <= to ==> Covered(chunks, b))
    && (forall i, j :: 0 <= i < j < |chunks| ==> chunks[i].1 < chunks[j].0)
  }

  lemma CoveredCons(c: (nat, nat), rest: seq<(nat, nat)>, b: int)
    requires c.0 <= b <= c.1 || Covered(rest, b)
    ensures Covered([c] + rest, b)
  {
    var cs := [c] + rest;
    if c.0 <= b <= c.1 {
      assert cs[0].0 <= b <= cs[0].1;
    } else {
      var i :| 0 <= i < |rest| && rest[i].0 <= b <= rest[i].1;
      assert cs[i + 1] == rest[i];
    }
  }

  lemma {:induction false} ChunksTile(from: nat, to: nat)
    ensures Tiles(Chunks(from, to), from, to)
    decreases if from > to then 0 else to - from + 1
  {
    if from <= to {
      var c, rest := (from, ChunkEnd(from, to)), Chunks(from + CHUNK_SIZE, to);
      ChunksTile(from + CHUNK_SIZE, to);
      var cs := [c] + rest;
      assert forall i :: 0 < i < |cs| ==> cs[i] == rest[i - 1];
      forall b | from <= b <= to ensures Covered(cs, b) {
        CoveredCons(c, rest, b);
      }
      assert Chunks(from, to) == cs;
    }
  }

  /** Reply of eth_getLogs per block range; None is a failed call. */
  type LogQuery<T> = (nat, nat) -> Option<seq<T>>

  /** The replies to a list of ranges, joined; None when one of them fails. */
  function Gather<T>(getLogs: LogQuery<T>, chunks: seq<(nat, nat)>): Option<seq<T>> {
    if chunks == [] then Some([])
    else
      var c := chunks[|chunks| - 1];
      var before := Gather(getLogs, chunks[..|chunks| - 1]);
      if before.None? || getLogs(c.0, c.1).None? then None
      else Some(before.value + getLogs(c.0, c.1).value)
  }

  /** The node answers every range with exactly the canonical logs in it, in any order. */
  ghost predicate Complete<T>(key: T -> Mark, getLogs: LogQuery<T>, canon: seq<T>) {
    forall lo: nat, hi: nat :: getLogs(lo, hi).Some? ==>
      multiset(getLogs(lo, hi).value) == multiset(Between(key, canon, lo - 1, hi))
  }

  lemma {:induction false} GatherFront<T>(getLogs: LogQuery<T>, c: (nat, nat), rest: seq<(nat, nat)>)
    ensures Gather(getLogs, [c] + rest).Some? <==> getLogs(c.0, c.1).Some? && Gather(getLogs, rest).Some?
    ensures Gather(getLogs, [c] + rest).Some? ==>
      Gather(getLogs, [c] + rest).value == getLogs(c.0, c.1).value + Gather(getLogs, rest).value
  {
    if rest == [] {
      assert [c] + rest == [c] && [c][..0] == [];
    } else {
      GatherFront(getLogs, c, rest[..|rest| - 1]);
      assert ([c] + rest)[..|rest|] == [c] + rest[..|rest| - 1];
    }
  }

  lemma {:induction false} GatherPrefix<T>(getLogs: LogQuery<T>, a: seq<(nat, nat)>, b: seq<(nat, nat)>)
    ensures Gather(getLogs, a).None? ==> Gather(getLogs, a + b).None?
  {
    if b == [] {
      assert a + b == a;
    } else {
      GatherPrefix(getLogs, a, b[..|b| - 1]);
      assert (a + b)[..|a + b| - 1] == a + b[..|b| - 1];
    }
  }

  /** A gathered history is a permutation of the canonical logs of the whole range. */
  lemma {:induction false} GatherComplete<T>(key: T -> Mark, getLogs: LogQuery<T>, canon: seq<T>, from: nat, to: nat)
    requires Ascending(key, canon) && Complete(key, getLogs, canon)
    requires Gather(getLogs, Chunks(from, to)).Some?
    ensures multiset(Gather(getLogs, Chunks(from, to)).value) == multiset(Between(key, canon, from - 1, to))
    decreases if from > to then 0 else to - from + 1
  {
    if from > to {
      CutMonotone(key, canon, to, from - 1);
    } else {
      var c, rest := (from, ChunkEnd(from, to)), Chunks(from + CHUNK_SIZE, to);
      GatherFront(getLogs, c, rest);
      GatherComplete(key, getLogs, canon, from + CHUNK_SIZE, to);
      if from + CHUNK_SIZE - 1 <= to {
        BetweenJoins(key, canon, from - 1, from + CHUNK_SIZE - 1, to);
      } else {
        CutMonotone(key, canon, to, from + CHUNK_SIZE - 1);
      }
    }
  }

  /** Sorting the gathered history yields the canonical logs of the range, in chain order. */
  lemma HistoryIsCanonical<T>(
    key: T -> Mark, getLogs: LogQuery<T>, canon: seq<T>, from: nat, to: nat, sorted: seq<T>)
    requires Ascending(key, canon) && Complete(key, getLogs, canon)
    requires Gather(getLogs, Chunks(from, to)).Some?
    requires SortedLogs(key, sorted) && multiset(sorted) == multiset(Gather(getLogs, Chunks(from, to)).value)
    ensures sorted == Between(key, canon, from - 1, to)
  {
    GatherComplete(key, getLogs, canon, from, to);
    SortIsUnique(key, Between(key, canon, from - 1, to), sorted);
  }

  // ---------- The live stream ----------

  /** isDuplicate. */
  predicate Duplicate(water: Mark, m: Mark) {
    m.block < water.block || (m.block == water.block && m.index <= water.index)
  }

  /** Watermark and accepted logs after a sequence of arrivals. */
  datatype LiveState<T> = LiveState(water: Mark, accepted: seq<T>)

  /** One iteration of the live loop. */
  function Arrive<T>(key: T -> Mark, s: LiveState<T>, log: T): LiveState<T> {
    if Duplicate(s.water, key(log)) then s else LiveState(key(log), s.accepted + [log])
  }

  function Live<T>(key: T -> Mark, water: Mark, arrivals: seq<T>): LiveState<T> {
    if arrivals == [] then LiveState(water, [])
    else Arrive(key, Live(key, water, arrivals[..|arrivals| - 1]), arrivals[|arrivals| - 1])
  }

  /** Whatever arrives, in whatever order and however often: accepted logs are in strict chain order, all
      beyond the hand-over point, and the watermark is the last of them. */
  lemma {:induction false} LiveIsOrdered<T>(key: T -> Mark, water: Mark, arrivals: seq<T>)
    ensures var s := Live(key, water, arrivals);
            && Ascending(key, s.accepted)
            && (forall i :: 0 <= i < |s.accepted| ==> water.Before(key(s.accepted[i])) && s.accepted[i] in arrivals)
            && s.water == if s.accepted == [] then water else key(s.accepted[|s.accepted| - 1])
  {
    if arrivals != [] {
      LiveIsOrdered(key, water, arrivals[..|arrivals| - 1]);
    }
  }

  // ---------- Hand-over ----------

  /** Position of the last log of the history, or the engine's initial zero watermark. */
  function LastMark<T>(key: T -> Mark, history: seq<T>): Mark {
    if history == [] then Mark(0, 0) else key(history[|history| - 1])
  }

  /** The watermark after the history was replayed and bWs was the head block. */
  function HandOver<T>(key: T -> Mark, history: seq<T>, bWs: uint64): Mark {
    if LastMark(key, history).block < bWs then Mark(bWs, 0) else LastMark(key, history)
  }

  /** Everything the engine processes: the history, then what it accepts from the stream. */
  function Processed<T>(key: T -> Mark, history: seq<T>, bWs: uint64, arrivals: seq<T>): seq<T> {
    history + Live(key, HandOver(key, history, bWs), arrivals).accepted
  }

  /** The stream as a walk over the canonical log: arrivals[i] is canon[pos[i]]. Logs may repeat and old logs
      may come late, but no log after bWs arrives before its predecessors after bWs. */
  ghost predicate GapFree<T>(key: T -> Mark, canon: seq<T>, bWs: uint64, arrivals: seq<T>, pos: seq<nat>) {
    && |pos| == |arrivals|
    && (forall i :: 0 <= i < |pos| ==> pos[i] < |canon| && arrivals[i] == canon[pos[i]])
    && (forall i, q :: 0 <= i < |pos| && Cut(key, canon, bWs) <= q < pos[i] ==> q in pos[..i])
  }

  /** How far the stream has got: one past the furthest log that arrived. */
  function Reach(pos: seq<nat>): nat {
    if pos == [] then 0 else Max(Reach(pos[..|pos| - 1]), pos[|pos| - 1] + 1)
  }

  function Max(a: nat, b: nat): nat {
    if a < b then b else a
  }

  lemma {:induction false} ReachBounds(pos: seq<nat>)
    ensures forall i :: 0 <= i < |pos| ==> pos[i] < Reach(pos)
    ensures Reach(pos) > 0 ==> Reach(pos) - 1 in pos
  {
    if pos != [] {
      ReachBounds(pos[..|pos| - 1]);
    }
  }

  /** i is the first arrival beyond (bWs, 0). */
  ghost predicate FirstBeyond<T>(key: T -> Mark, arrivals: seq<T>, bWs: uint64, i: int) {
    && 0 <= i < |arrivals|
    && Mark(bWs, 0).Before(key(arrivals[i]))
    && forall j :: 0 <= j < i ==> !Mark(bWs, 0).Before(key(arrivals[j]))
  }

  /** The first arrival beyond (bWs, 0), if there is one, is not already part of the snapshot at anchor. */
  ghost predicate CleanHandOver<T>(key: T -> Mark, arrivals: seq<T>, bWs: uint64, anchor: uint64) {
    forall i {:trigger FirstBeyond(key, arrivals, bWs, i)} ::
      FirstBeyond(key, arrivals, bWs, i) ==> key(arrivals[i]).block > anchor
  }

  /** The logs the engine must have processed: those after the snapshot that are in the history or that the
      stream has reached. */
  function Target<T>(key: T -> Mark, canon: seq<T>, anchor: uint64, bWs: uint64, pos: seq<nat>): seq<T>
    requires Reach(pos) <= |canon|
  {
    var a := Cut(key, canon, anchor);
    canon[a..Max(Max(a, Cut(key, canon, bWs)), Reach(pos))]
  }

  /** One run of the engine against a chain. */
  ghost predicate RunOf<T>(
    key: T -> Mark, canon: seq<T>, anchor: uint64, bWs: uint64, history: seq<T>, arrivals: seq<T>, pos: seq<nat>)
  {
    && Ascending(key, canon)
    && history == Between(key, canon, anchor, bWs)
    && GapFree(key, canon, bWs, arrivals, pos)
  }

  lemma ReachInside<T>(key: T -> Mark, canon: seq<T>, bWs: uint64, arrivals: seq<T>, pos: seq<nat>)
    requires GapFree(key, canon, bWs, arrivals, pos)
    ensures Reach(pos) <= |canon|
  {
    ReachBounds(pos);
  }

  lemma GapFreePrefix<T>(key: T -> Mark, canon: seq<T>, bWs: uint64, arrivals: seq<T>, pos: seq<nat>)
    requires GapFree(key, canon, bWs, arrivals, pos) && arrivals != []
    ensures GapFree(key, canon, bWs, arrivals[..|arrivals| - 1], pos[..|pos| - 1])
  {
    var n := |pos| - 1;
    forall i, q | 0 <= i < n && Cut(key, canon, bWs) <= q < pos[..n][i] ensures q in pos[..n][..i] {
      assert pos[..n][..i] == pos[..i];
    }
  }

  /** A new furthest log beyond `base` is the very next one. */
  lemma NextInLine<T>(key: T -> Mark, canon: seq<T>, bWs: uint64, arrivals: seq<T>, pos: seq<nat>, base: nat)
    requires GapFree(key, canon, bWs, arrivals, pos) && pos != []
    requires Cut(key, canon, bWs) <= base
    ensures var n := |pos| - 1;
            pos[n] >= Max(base, Reach(pos[..n])) ==> pos[n] == Max(base, Reach(pos[..n]))
  {
    var n := |pos| - 1;
    ReachBounds(pos[..n]);
    if pos[n] > base {
      assert pos[n] - 1 in pos[..n];
    }
  }

  /** The snapshot is older than the head block: the watermark discards exactly the logs up to bWs, so
      resetting it to (bWs, 0) neither loses nor repeats one. */
  lemma WatermarkCutsAtHead<T>(key: T -> Mark, canon: seq<T>, anchor: uint64, bWs: uint64, q: nat)
    requires Ascending(key, canon) && anchor < bWs && q < |canon|
    ensures Duplicate(HandOver(key, Between(key, canon, anchor, bWs), bWs), key(canon[q])) <==> q < Cut(key, canon, bWs)
  {
    var h := Cut(key, canon, bWs);
    CutSplits(key, canon, bWs);
    CutSplits(key, canon, anchor);
    CutMonotone(key, canon, anchor, bWs);
    if q < h {
      assert q < h - 1 ==> key(canon[q]).Before(key(canon[h - 1]));
    } else if h > 0 {
      assert key(canon[h - 1]).Before(key(canon[q]));
    }
  }

  /** The live loop has accepted the chain from base to reach. */
  ghost predicate Follows<T>(key: T -> Mark, canon: seq<T>, base: nat, water: Mark, s: LiveState<T>, reach: nat) {
    && base <= |canon| && reach <= |canon|
    && s.water == (if reach > base then key(canon[reach - 1]) else water)
    && s.accepted == canon[base..Max(base, reach)]
  }

  /** One arrival extends the accepted run of the chain by itself, or is a duplicate. */
  lemma Advance<T>(key: T -> Mark, canon: seq<T>, base: nat, water: Mark, s: LiveState<T>, reach: nat, p: nat)
    requires Ascending(key, canon) && p < |canon| && Follows(key, canon, base, water, s, reach)
    requires reach <= base ==> (Duplicate(water, key(canon[p])) <==> p < base)
    requires p >= Max(base, reach) ==> p == Max(base, reach)
    ensures Follows(key, canon, base, water, Arrive(key, s, canon[p]), Max(reach, p + 1))
  {}

  /** The same for the last arrival of a stream. */
  lemma AdvanceLast<T>(key: T -> Mark, canon: seq<T>, base: nat, water: Mark, arrivals: seq<T>, pos: seq<nat>, p: nat)
    requires Ascending(key, canon) && pos != [] && |pos| == |arrivals|
    requires p < |canon| && pos[|pos| - 1] == p && arrivals[|arrivals| - 1] == canon[p]
    requires Follows(key, canon, base, water, Live(key, water, arrivals[..|arrivals| - 1]), Reach(pos[..|pos| - 1]))
    requires Reach(pos[..|pos| - 1]) <= base ==> (Duplicate(water, key(canon[p])) <==> p < base)
    requires p >= Max(base, Reach(pos[..|pos| - 1])) ==> p == Max(base, Reach(pos[..|pos| - 1]))
    ensures Follows(key, canon, base, water, Live(key, water, arrivals), Reach(pos))
  {
    var s, reach := Live(key, water, arrivals[..|arrivals| - 1]), Reach(pos[..|pos| - 1]);
    LastArrival(key, water, arrivals, pos);
    Advance(key, canon, base, water, s, reach, p);
  }

  /** The last arrival, and the last position, as one more step. */
  lemma LastArrival<T>(key: T -> Mark, water: Mark, arrivals: seq<T>, pos: seq<nat>)
    requires pos != [] && |pos| == |arrivals|
    ensures var n := |pos| - 1;
            && Live(key, water, arrivals) == Arrive(key, Live(key, water, arrivals[..n]), arrivals[n])
            && Reach(pos) == Max(Reach(pos[..n]), pos[n] + 1)
  {}

  /** What the live loop has accepted, when the watermark discards exactly the logs before the cut at bWs. */
  lemma {:induction false} LiveFollowsChain<T>(
    key: T -> Mark, canon: seq<T>, bWs: uint64, water: Mark, arrivals: seq<T>, pos: seq<nat>)
    requires Ascending(key, canon) && GapFree(key, canon, bWs, arrivals, pos)
    requires forall q :: 0 <= q < |canon| ==> (Duplicate(water, key(canon[q])) <==> q < Cut(key, canon, bWs))
    ensures Follows(key, canon, Cut(key, canon, bWs), water, Live(key, water, arrivals), Reach(pos))
  {
    var base := Cut(key, canon, bWs);
    if arrivals != [] {
      var n := |pos| - 1;
      GapFreePrefix(key, canon, bWs, arrivals, pos);
      LiveFollowsChain(key, canon, bWs, water, arrivals[..n], pos[..n]);
      NextInLine(key, canon, bWs, arrivals, pos, base);
      AdvanceLast(key, canon, base, water, arrivals, pos, pos[n]);
    }
  }

  // ---------- A snapshot at or after the head block ----------

  /** Nothing accepted means nothing arrived beyond the watermark. */
  lemma {:induction false} NoneAccepted<T>(key: T -> Mark, water: Mark, arrivals: seq<T>)
    requires Live(key, water, arrivals).accepted == []
    ensures Live(key, water, arrivals).water == water
    ensures forall i :: 0 <= i < |arrivals| ==> !water.Before(key(arrivals[i]))
  {
    if arrivals != [] {
      NoneAccepted(key, water, arrivals[..|arrivals| - 1]);
    }
  }

  lemma {:induction false} NothingBeyond<T>(key: T -> Mark, water: Mark, arrivals: seq<T>)
    requires forall i :: 0 <= i < |arrivals| ==> !water.Before(key(arrivals[i]))
    ensures Live(key, water, arrivals) == LiveState(water, [])
  {
    if arrivals != [] {
      NothingBeyond(key, water, arrivals[..|arrivals| - 1]);
    }
  }

  /** The first arrival beyond the watermark is accepted. */
  lemma {:induction false} FirstIsAccepted<T>(key: T -> Mark, bWs: uint64, arrivals: seq<T>, i: int)
    requires FirstBeyond(key, arrivals, bWs, i)
    ensures arrivals[i] in Live(key, Mark(bWs, 0), arrivals).accepted
  {
    var n := |arrivals| - 1;
    if i < n {
      FirstIsAccepted(key, bWs, arrivals[..n], i);
    } else {
      NothingBeyond(key, Mark(bWs, 0), arrivals[..n]);
    }
  }

  lemma CleanPrefix<T>(key: T -> Mark, arrivals: seq<T>, bWs: uint64, anchor: uint64)
    requires arrivals != [] && CleanHandOver(key, arrivals, bWs, anchor)
    ensures CleanHandOver(key, arrivals[..|arrivals| - 1], bWs, anchor)
  {
    var before := arrivals[..|arrivals| - 1];
    forall i | FirstBeyond(key, before, bWs, i) ensures key(before[i]).block > anchor {
      assert FirstBeyond(key, arrivals, bWs, i);
    }
  }

  /** While nothing was accepted, the next arrival is a duplicate exactly when the snapshot contains it. */
  lemma CleanArrival<T>(
    key: T -> Mark, canon: seq<T>, anchor: uint64, bWs: uint64, arrivals: seq<T>, p: nat, reach: nat)
    requires Ascending(key, canon) && p < |canon| && arrivals != [] && arrivals[|arrivals| - 1] == canon[p]
    requires anchor >= bWs && CleanHandOver(key, arrivals, bWs, anchor)
    requires Follows(key, canon, Cut(key, canon, anchor), Mark(bWs, 0),
                     Live(key, Mark(bWs, 0), arrivals[..|arrivals| - 1]), reach)
    ensures reach <= Cut(key, canon, anchor) ==>
      (Duplicate(Mark(bWs, 0), key(canon[p])) <==> p < Cut(key, canon, anchor))
  {
    var n := |arrivals| - 1;
    if reach <= Cut(key, canon, anchor) {
      CutSplits(key, canon, anchor);
      NoneAccepted(key, Mark(bWs, 0), arrivals[..n]);
      assert forall j :: 0 <= j < n ==> arrivals[j] == arrivals[..n][j];
      if Mark(bWs, 0).Before(key(canon[p])) {
        assert FirstBeyond(key, arrivals, bWs, n);
      }
    }
  }

  /** With a snapshot at or after bWs, a clean hand-over still yields the chain after the snapshot. */
  lemma {:induction false} LiveFollowsSnapshot<T>(
    key: T -> Mark, canon: seq<T>, anchor: uint64, bWs: uint64, arrivals: seq<T>, pos: seq<nat>)
    requires Ascending(key, canon) && GapFree(key, canon, bWs, arrivals, pos)
    requires anchor >= bWs && CleanHandOver(key, arrivals, bWs, anchor)
    ensures Follows(key, canon, Cut(key, canon, anchor), Mark(bWs, 0), Live(key, Mark(bWs, 0), arrivals), Reach(pos))
  {
    if arrivals != [] {
      var n := |pos| - 1;
      GapFreePrefix(key, canon, bWs, arrivals, pos);
      CleanPrefix(key, arrivals, bWs, anchor);
      LiveFollowsSnapshot(key, canon, anchor, bWs, arrivals[..n], pos[..n]);
      CleanArrival(key, canon, anchor, bWs, arrivals, pos[n], Reach(pos[..n]));
      CutMonotone(key, canon, bWs, anchor);
      NextInLine(key, canon, bWs, arrivals, pos, Cut(key, canon, anchor));
      AdvanceLast(key, canon, Cut(key, canon, anchor), Mark(bWs, 0), arrivals, pos, pos[n]);
    }
  }

  // ---------- The main result ----------

  lemma TargetIsLater<T>(key: T -> Mark, canon: seq<T>, anchor: uint64, bWs: uint64, pos: seq<nat>, x: T)
    requires Ascending(key, canon) && Reach(pos) <= |canon| && key(x).block <= anchor
    ensures x !in Target(key, canon, anchor, bWs, pos)
  {
    CutSplits(key, canon, anchor);
  }

  /** Against any chain, any complete history and any gap-free stream, at every moment of the run: the engine
      has processed exactly the logs after its snapshot, once each and in chain order, if and only if the first
      arrival beyond (bWs, 0) is not already in the snapshot. */
  lemma ReplayIsExactIff<T>(
    key: T -> Mark, canon: seq<T>, anchor: uint64, bWs: uint64, history: seq<T>, arrivals: seq<T>, pos: seq<nat>)
    requires RunOf(key, canon, anchor, bWs, history, arrivals, pos)
    ensures Reach(pos) <= |canon|
    ensures Processed(key, history, bWs, arrivals) == Target(key, canon, anchor, bWs, pos)
       <==> CleanHandOver(key, arrivals, bWs, anchor)
  {
    ReachInside(key, canon, bWs, arrivals, pos);
    if anchor < bWs {
      ReplayIsExact(key, canon, anchor, bWs, history, arrivals, pos);
    } else {
      CutMonotone(key, canon, bWs, anchor);
      assert history == [] && HandOver(key, history, bWs) == Mark(bWs, 0);
      if CleanHandOver(key, arrivals, bWs, anchor) {
        LiveFollowsSnapshot(key, canon, anchor, bWs, arrivals, pos);
      } else {
        var i :| FirstBeyond(key, arrivals, bWs, i) && key(arrivals[i]).block <= anchor;
        FirstIsAccepted(key, bWs, arrivals, i);
        CutSplits(key, canon, anchor);
        assert arrivals[i] in Processed(key, history, bWs, arrivals);
        TargetIsLater(key, canon, anchor, bWs, pos, arrivals[i]);
      }
    }
  }

  /** With a snapshot older than the head block the hand-over is always clean. */
  lemma ReplayIsExact<T>(
    key: T -> Mark, canon: seq<T>, anchor: uint64, bWs: uint64, history: seq<T>, arrivals: seq<T>, pos: seq<nat>)
    requires RunOf(key, canon, anchor, bWs, history, arrivals, pos) && anchor < bWs
    ensures Reach(pos) <= |canon| && CleanHandOver(key, arrivals, bWs, anchor)
    ensures Processed(key, history, bWs, arrivals) == Target(key, canon, anchor, bWs, pos)
  {
    var a, h := Cut(key, canon, anchor), Cut(key, canon, bWs);
    CutMonotone(key, canon, anchor, bWs);
    forall q | 0 <= q < |canon|
      ensures Duplicate(HandOver(key, history, bWs), key(canon[q])) <==> q < h
    {
      WatermarkCutsAtHead(key, canon, anchor, bWs, q);
    }
    LiveFollowsChain(key, canon, bWs, HandOver(key, history, bWs), arrivals, pos);
    assert canon[a..h] + canon[h..Max(h, Reach(pos))] == canon[a..Max(h, Reach(pos))];
  }

  /** Once every log after bWs has arrived, nothing of the chain after the snapshot is missing. */
  lemma TargetIsWholeChain<T>(
    key: T -> Mark, canon: seq<T>, anchor: uint64, bWs: uint64, pos: seq<nat>)
    requires Ascending(key, canon) && Reach(pos) <= |canon|
    requires forall q :: Cut(key, canon, bWs) <= q < |canon| ==> q in pos
    ensures Target(key, canon, anchor, bWs, pos) == canon[Cut(key, canon, anchor)..]
  {
    ReachBounds(pos);
    if Cut(key, canon, bWs) < |canon| {
      assert |canon| - 1 in pos;
    }
  }

  // ---------- A condition known before the stream ----------

  /** Whatever the chain, the history and the stream, exactly the logs after the snapshot are processed. */
  ghost predicate AlwaysExact<T(!new)>(key: T -> Mark, anchor: uint64, bWs: uint64) {
    forall canon, history, arrivals, pos :: RunOf(key, canon, anchor, bWs, history, arrivals, pos) ==>
      && Reach(pos) <= |canon|
      && Processed(key, history, bWs, arrivals) == Target(key, canon, anchor, bWs, pos)
  }

  /** The log of the snapshot's own last block, delivered by the stream: processed although not wanted. */
  lemma RepeatedLog<T>(key: T -> Mark, log: T, anchor: uint64, bWs: uint64)
    requires bWs <= anchor && key(log) == Mark(anchor, 1)
    ensures RunOf(key, [log], anchor, bWs, [], [log], [0])
    ensures Reach([0]) == 1 && Target(key, [log], anchor, bWs, [0]) == []
    ensures Processed(key, [], bWs, [log]) == [log]
  {
    assert [log][..0] == [] && [0][..0] == [];
    assert Reach([0]) == Max(Reach([]), 1);
    CutMonotone(key, [log], bWs, anchor);
    assert Cut(key, [log], anchor) == 1;
    assert HandOver(key, [], bWs) == Mark(bWs, 0);
    assert Live(key, Mark(bWs, 0), [log][..0]) == LiveState(Mark(bWs, 0), []);
    assert Live(key, Mark(bWs, 0), [log]).accepted == [log];
  }

  /** The replay is exact in every run if and only if the anchor is older than the head block that Start reads. */
  lemma AlwaysExactIff<T(!new)>(key: T -> Mark, log: T, anchor: uint64, bWs: uint64)
    requires key(log) == Mark(anchor, 1)
    ensures AlwaysExact(key, anchor, bWs) <==> anchor < bWs
  {
    if anchor < bWs {
      forall canon, history, arrivals, pos | RunOf(key, canon, anchor, bWs, history, arrivals, pos)
        ensures Reach(pos) <= |canon|
        ensures Processed(key, history, bWs, arrivals) == Target(key, canon, anchor, bWs, pos)
      {
        ReplayIsExact(key, canon, anchor, bWs, history, arrivals, pos);
      }
    } else {
      RepeatedLog(key, log, anchor, bWs);
    }
  }
}
