// internal/rpc/graph_client.go: cursor pagination over id ranges, against a server that orders users by id.
module GraphClient {
  import opened Models
  import opened Hex

  // ---------- String order ----------

  /** The server's order on ids: lexicographic by character, a proper prefix first. */
  predicate Below(a: string, b: string) {
    if b == "" then false
    else if a == "" then true
    else if a[0] != b[0] then a[0] < b[0]
    else Below(a[1..], b[1..])
  }

  lemma {:induction false} BelowIrreflexive(a: string)
    ensures !Below(a, a)
  {
    if a != "" { BelowIrreflexive(a[1..]); }
  }

  lemma {:induction false} BelowTransitive(a: string, b: string, c: string)
    requires Below(a, b) && Below(b, c)
    ensures Below(a, c)
  {
    if a != "" && a[0] == b[0] == c[0] { BelowTransitive(a[1..], b[1..], c[1..]); }
  }

  /** Users in the order of their ids; in particular no two share an id. */
  ghost predicate InIdOrder<U>(id: U -> string, users: seq<U>) {
    forall i, j :: 0 <= i < j < |users| ==> Below(id(users[i]), id(users[j]))
  }

  // ---------- The server ----------

  /** The users with ids strictly between gt and lt, in order. */
  function Range<U>(id: U -> string, users: seq<U>, gt: string, lt: string): seq<U> {
    if users == [] then []
    else
      var init := Range(id, users[..|users| - 1], gt, lt);
      var last := users[|users| - 1];
      if Below(gt, id(last)) && Below(id(last), lt) then init + [last] else init
  }

  /** The answer to a query: the first `limit` users of the range. */
  function Page<U>(id: U -> string, users: seq<U>, gt: string, lt: string, limit: nat): seq<U> {
    var all := Range(id, users, gt, lt);
    if |all| <= limit then all else all[..limit]
  }

  lemma {:induction false} RangeMembers<U>(id: U -> string, users: seq<U>, gt: string, lt: string, x: U)
    requires InIdOrder(id, users)
    ensures InIdOrder(id, Range(id, users, gt, lt))
    ensures forall y :: y in Range(id, users, gt, lt) ==> y in users
    ensures x in Range(id, users, gt, lt) <==> x in users && Below(gt, id(x)) && Below(id(x), lt)
  {
    if users != [] {
      var init, last := users[..|users| - 1], users[|users| - 1];
      RangeMembers(id, init, gt, lt, x);
      assert users == init + [last];
      var r := Range(id, init, gt, lt);
      forall i | 0 <= i < |r| ensures Below(id(r[i]), id(last)) {
        assert r[i] in init;
      }
    }
  }

  /** Moving the cursor to the last user of a page leaves exactly what comes after that page. */
  lemma RangeAfter<U>(id: U -> string, users: seq<U>, gt: string, lt: string, k: nat)
    requires InIdOrder(id, users) && k < |Range(id, users, gt, lt)|
    ensures Range(id, users, id(Range(id, users, gt, lt)[k]), lt) == Range(id, users, gt, lt)[k + 1..]
  {
    var all := Range(id, users, gt, lt);
    var rest := Range(id, users, id(all[k]), lt);
    RangeMembers(id, users, gt, lt, all[k]);
    forall i | 0 <= i < |rest| ensures rest[i] in all[k + 1..] {
      AfterCursor(id, users, gt, lt, k, rest[i]);
    }
    var tail := all[k + 1..];
    forall i | 0 <= i < |tail| ensures tail[i] in rest {
      AfterCursor(id, users, gt, lt, k, tail[i]);
    }
    RangeMembers(id, users, id(all[k]), lt, all[k]);
    SameMembersSameOrder(id, rest, tail);
  }

  lemma AfterCursor<U>(id: U -> string, users: seq<U>, gt: string, lt: string, k: nat, x: U)
    requires InIdOrder(id, users) && k < |Range(id, users, gt, lt)|
    ensures var all := Range(id, users, gt, lt);
            x in Range(id, users, id(all[k]), lt) <==> x in all[k + 1..]
  {
    var all := Range(id, users, gt, lt);
    var cursor := id(all[k]);
    RangeMembers(id, users, gt, lt, x);
    RangeMembers(id, users, gt, lt, all[k]);
    RangeMembers(id, users, cursor, lt, x);
    BelowIrreflexive(cursor);
    if x in all {
      var i :| 0 <= i < |all| && all[i] == x;
      if i < k && Below(cursor, id(x)) { BelowTransitive(cursor, id(x), cursor); }
      if i > k { assert all[k + 1..][i - k - 1] == x; }
    } else if Below(cursor, id(x)) {
      BelowTransitive(gt, cursor, id(x));
    }
  }

  lemma TailMembers<U>(id: U -> string, a: seq<U>, x: U)
    requires InIdOrder(id, a) && a != []
    ensures x in a[1..] <==> x in a && x != a[0]
  {
    BelowIrreflexive(id(a[0]));
    assert a == [a[0]] + a[1..];
  }

  /** Ordered sequences with the same members are equal. */
  lemma {:induction false} SameMembersSameOrder<U>(id: U -> string, a: seq<U>, b: seq<U>)
    requires InIdOrder(id, a) && InIdOrder(id, b)
    requires forall i :: 0 <= i < |a| ==> a[i] in b
    requires forall i :: 0 <= i < |b| ==> b[i] in a
    ensures a == b
  {
    if a != [] {
      assert a[0] in b;
      if a[0] != b[0] {
        BelowTransitive(id(a[0]), id(b[0]), id(a[0]));
        BelowIrreflexive(id(a[0]));
      }
      var s, t := a[1..], b[1..];
      forall i | 0 <= i < |s| ensures s[i] in t {
        TailMembers(id, a, s[i]);
        TailMembers(id, b, s[i]);
      }
      forall i | 0 <= i < |t| ensures t[i] in s {
        TailMembers(id, a, t[i]);
        TailMembers(id, b, t[i]);
      }
      SameMembersSameOrder(id, s, t);
    }
  }

  // ---------- Pagination ----------

  const MAX_RETRIES: nat := 3

  /** A failed request, an answer that is no JSON or carries GraphQL errors, or a page of users. */
  datatype Reply<U> = Failed | Rejected | Users(page: seq<U>)

  /** Reply to the n-th attempt of the query for ids above a cursor and below lt. */
  type GraphServer<U> = (string, string, nat) -> Reply<U>

  /** Every page is the one the server should give for its users. */
  ghost predicate Serves<U>(server: GraphServer<U>, id: U -> string, users: seq<U>, limit: nat) {
    && InIdOrder(id, users)
    && forall gt, lt, n :: server(gt, lt, n).Users? ==> server(gt, lt, n).page == Page(id, users, gt, lt, limit)
  }

  predicate Unreachable<U>(server: GraphServer<U>, gt: string, lt: string) {
    forall n :: 0 <= n < MAX_RETRIES ==> server(gt, lt, n).Failed?
  }

  /** The first request that got through was answered with an error. */
  predicate Refused<U>(server: GraphServer<U>, gt: string, lt: string) {
    exists n :: 0 <= n < MAX_RETRIES && server(gt, lt, n).Rejected?
      && forall k :: 0 <= k < n ==> server(gt, lt, k).Failed?
  }

  /** Up to three attempts; an answer, even a rejection, is not asked for again. */
  method QueryWithRetry<U>(server: GraphServer<U>, gt: string, lt: string) returns (reply: Reply<U>)
    ensures reply.Failed? <==> Unreachable(server, gt, lt)
    ensures reply.Rejected? <==> Refused(server, gt, lt)
    ensures reply.Users? ==> exists n: nat :: server(gt, lt, n) == reply
  {
    reply := Failed;
    for attempt := 0 to MAX_RETRIES
      invariant reply.Failed? && forall n :: 0 <= n < attempt ==> server(gt, lt, n).Failed?
    {
      reply := server(gt, lt, attempt);
      if !reply.Failed? {
        return;
      }
    }
  }

  /** The cursor loop returns every user of the partition exactly once and in order, and terminates because
      each page leaves fewer users above the cursor. It fails only when some query failed three times or was
      rejected. */
  method FetchUserPartition<U>(
    server: GraphServer<U>, prefixGt: string, prefixLt: string, limit: nat, id: U -> string, ghost users: seq<U>)
    returns (r: Option<seq<U>>)
    requires Serves(server, id, users, limit) && limit > 0
    ensures r.Some? ==> r.value == Range(id, users, prefixGt, prefixLt)
    ensures r.None? ==> exists cursor :: Unreachable(server, cursor, prefixLt) || Refused(server, cursor, prefixLt)
  {
    var allPartitionUsers: seq<U> := [];
    var lastID := prefixGt;
    while true
      invariant Range(id, users, prefixGt, prefixLt) == allPartitionUsers + Range(id, users, lastID, prefixLt)
      decreases |Range(id, users, lastID, prefixLt)|
    {
      var reply := QueryWithRetry(server, lastID, prefixLt);
      if !reply.Users? {
        return None;
      }
      var page := reply.page;
      if |page| == 0 {
        break;
      }
      RangeAfter(id, users, lastID, prefixLt, |page| - 1);
      ghost var rest := Range(id, users, lastID, prefixLt);
      assert page == rest[..|page|] && rest == page + rest[|page|..];
      allPartitionUsers := allPartitionUsers + page;
      lastID := id(page[|page| - 1]);
    }
    r := Some(allPartitionUsers);
  }

  // ---------- The sixteen partitions ----------

  /** 0x and forty f's: the exclusive end of the last partition. */
  function LastId(): (s: string)
    ensures |s| == 42 && s[0] == '0' && s[1] == 'x' && forall i :: 2 <= i < 42 ==> s[i] == 'f'
  {
    "0x" + seq(40, i => 'f')
  }

  /** The bounds of partition i of the table. */
  function Gt(i: nat): string
    requires i < 16
  {
    "0x" + [Digit(i)]
  }

  function Lt(i: nat): string
    requires i < 16
  {
    if i < 15 then "0x" + [Digit(i + 1)] else LastId()
  }

  /** 0x and forty lower-case hexadecimal digits. */
  predicate IsAddressId(s: string) {
    |s| == 42 && s[0] == '0' && s[1] == 'x' && forall i :: 2 <= i < 42 ==> IsLowerHex(s[i])
  }

  predicate InPartition(s: string, i: nat)
    requires i < 16
  {
    Below(Gt(i), s) && Below(s, Lt(i))
  }

  /** Among strings that share the 0x, the third character decides. */
  lemma BelowByDigit(c: char, s: string)
    requires |s| > 3 && s[0] == '0' && s[1] == 'x'
    ensures Below("0x" + [c], s) <==> c <= s[2]
    ensures Below(s, "0x" + [c]) <==> s[2] < c
  {
    var p, t := "0x" + [c], s[2..];
    assert p[1..][1..] == [c] && s[1..][1..] == t;
    assert Below(p, s) == Below([c], t);
    assert Below(s, p) == Below(t, [c]);
    assert [c][1..] == "" && t[1..] != "" && t[0] == s[2];
    assert Below([c], t) == if c != t[0] then c < t[0] else Below("", t[1..]);
    assert Below(t, [c]) == if c != t[0] then t[0] < c else Below(t[1..], "");
  }

  lemma {:induction false} BelowAllF(s: string, t: string)
    requires |s| == |t| && (forall i :: 0 <= i < |s| ==> IsLowerHex(s[i])) && forall i :: 0 <= i < |t| ==> t[i] == 'f'
    ensures Below(s, t) <==> s != t
  {
    if s != "" {
      assert IsLowerHex(s[0]);
      BelowAllF(s[1..], t[1..]);
      assert s == [s[0]] + s[1..] && t == [t[0]] + t[1..];
    }
  }

  lemma BelowLastId(s: string)
    requires IsAddressId(s)
    ensures Below(s, LastId()) <==> s != LastId()
  {
    BelowAllF(s[2..], LastId()[2..]);
    assert s[1..][1..] == s[2..] && LastId()[1..][1..] == LastId()[2..];
    assert Below(s, LastId()) == Below(s[2..], LastId()[2..]);
    assert s == s[..2] + s[2..] && LastId() == LastId()[..2] + LastId()[2..];
    assert s[..2] == LastId()[..2];
  }

  /** The partitions are disjoint, and cover every address except 0xff...ff: an address is in the partition
      of its first digit and in no other. */
  lemma PartitionOf(s: string, i: nat)
    requires IsAddressId(s) && i < 16
    ensures InPartition(s, i) <==> DigitValue(s[2]) == i && s != LastId()
  {
    assert IsLowerHex(s[2]);
    BelowByDigit(Digit(i), s);
    if i < 15 {
      BelowByDigit(Digit(i + 1), s);
      assert LastId()[2] == 'f' && DigitValue('f') == 15;
    } else {
      BelowLastId(s);
    }
  }

  // ---------- All users ----------

  /** The partitions in the order in which their results reach the channel. */
  ghost predicate IsArrivalOrder(order: seq<nat>) {
    && |order| == 16
    && (forall k :: 0 <= k < 16 ==> order[k] < 16)
    && (forall j, k :: 0 <= j < k < 16 ==> order[j] != order[k])
    && (forall i :: 0 <= i < 16 ==> i in order)
  }

  /** Some query of some partition failed for good. */
  ghost predicate SomeQueryFails<U>(server: GraphServer<U>) {
    exists cursor, lt :: Unreachable(server, cursor, lt) || Refused(server, cursor, lt)
  }

  /** GetAllUsersAtBlock: collects sixteen concurrent partitions; one failure fails the whole, and so does a
      context cancelled before the result numbered `cancelled` is collected. */
  method GetAllUsersAtBlock<U>(
    server: GraphServer<U>, limit: nat, order: seq<nat>, cancelled: Option<nat>, id: U -> string, ghost users: seq<U>)
    returns (r: Option<seq<U>>)
    requires Serves(server, id, users, limit) && limit > 0 && IsArrivalOrder(order)
    ensures r.Some? ==> r.value == Collected(id, users, order)
    ensures cancelled.Some? && cancelled.value < 16 ==> r.None?
    ensures r.None? ==> (cancelled.Some? && cancelled.value < 16) || SomeQueryFails(server)
  {
    var allUsers: seq<U> := [];
    var failed := false;
    for k := 0 to |order|
      invariant !failed ==> allUsers == Collected(id, users, order[..k])
      invariant failed ==> SomeQueryFails(server)
      invariant cancelled.Some? ==> k <= cancelled.value
    {
      if cancelled == Some(k) {
        return None;
      }
      var part := FetchUserPartition(server, Gt(order[k]), Lt(order[k]), limit, id, users);
      if part.None? {
        failed := true;
      } else {
        allUsers := allUsers + part.value;
      }
      assert order[..k + 1][..k] == order[..k];
    }
    assert order[..|order|] == order;
    r := if failed then None else Some(allUsers);
  }

  function Collected<U>(id: U -> string, users: seq<U>, order: seq<nat>): seq<U>
    requires forall k :: 0 <= k < |order| ==> order[k] < 16
  {
    if order == [] then []
    else
      var i := order[|order| - 1];
      Collected(id, users, order[..|order| - 1]) + Range(id, users, Gt(i), Lt(i))
  }

  /** x is collected once if it belongs to one of the listed partitions, and not at all otherwise. */
  lemma {:induction false} CollectedCount<U>(id: U -> string, users: seq<U>, order: seq<nat>, x: U)
    requires InIdOrder(id, users) && (forall k :: 0 <= k < |order| ==> order[k] < 16)
    requires forall j, k :: 0 <= j < k < |order| ==> order[j] != order[k]
    requires IsAddressId(id(x))
    ensures multiset(Collected(id, users, order))[x]
         == if x in users && id(x) != LastId() && DigitValue(id(x)[2]) in order then 1 else 0
  {
    if order != [] {
      var n := |order| - 1;
      var init, i := order[..n], order[n];
      CollectedCount(id, users, init, x);
      PartitionCount(id, users, i, x);
      CountSum(Collected(id, users, init), Range(id, users, Gt(i), Lt(i)), x);
      assert forall d :: d in order <==> d in init || d == i;
    }
  }

  lemma CountSum<U>(a: seq<U>, b: seq<U>, x: U)
    ensures multiset(a + b)[x] == multiset(a)[x] + multiset(b)[x]
  {}

  lemma PartitionCount<U>(id: U -> string, users: seq<U>, i: nat, x: U)
    requires InIdOrder(id, users) && i < 16 && IsAddressId(id(x))
    ensures multiset(Range(id, users, Gt(i), Lt(i)))[x]
         == if x in users && id(x) != LastId() && DigitValue(id(x)[2]) == i then 1 else 0
  {
    PartitionOf(id(x), i);
    RangeMembers(id, users, Gt(i), Lt(i), x);
    OnceInOrder(id, Range(id, users, Gt(i), Lt(i)), x);
  }

  lemma {:induction false} OnceInOrder<U>(id: U -> string, a: seq<U>, x: U)
    requires InIdOrder(id, a)
    ensures multiset(a)[x] == if x in a then 1 else 0
  {
    if a != [] {
      OnceInOrder(id, a[1..], x);
      TailMembers(id, a, x);
      assert a == [a[0]] + a[1..];
    }
  }

  lemma {:induction false} OnlyUsers<U>(id: U -> string, users: seq<U>, order: seq<nat>, x: U)
    requires InIdOrder(id, users) && forall k :: 0 <= k < |order| ==> order[k] < 16
    ensures x in Collected(id, users, order) ==> x in users
  {
    if order != [] {
      var n := |order| - 1;
      OnlyUsers(id, users, order[..n], x);
      RangeMembers(id, users, Gt(order[n]), Lt(order[n]), x);
    }
  }

  /** How often a user is fetched: once, unless its id is 0xff...ff. */
  lemma FetchedCount<U>(id: U -> string, users: seq<U>, order: seq<nat>, x: U)
    requires InIdOrder(id, users) && IsArrivalOrder(order)
    requires forall y :: y in users ==> IsAddressId(id(y))
    ensures multiset(Collected(id, users, order))[x] == if x in users && id(x) != LastId() then 1 else 0
  {
    if x in users {
      assert IsLowerHex(id(x)[2]);
      CollectedCount(id, users, order, x);
    } else {
      OnlyUsers(id, users, order, x);
    }
  }

  /** The result holds every user exactly once, whatever the arrival order, if and only if no user has the id
      0xff...ff; that one user is never fetched. */
  lemma EveryUserOnceIff<U(!new)>(id: U -> string, users: seq<U>, order: seq<nat>)
    requires InIdOrder(id, users) && IsArrivalOrder(order)
    requires forall y :: y in users ==> IsAddressId(id(y))
    ensures multiset(Collected(id, users, order)) == multiset(users)
       <==> forall y :: y in users ==> id(y) != LastId()
  {
    forall x
      ensures multiset(Collected(id, users, order))[x] == if x in users && id(x) != LastId() then 1 else 0
      ensures multiset(users)[x] == if x in users then 1 else 0
    {
      FetchedCount(id, users, order, x);
      OnceInOrder(id, users, x);
    }
  }
}
