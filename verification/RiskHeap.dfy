// internal/models/risk.go: the intrusive min-heap of users at risk, and Go's container/heap over it.
module RiskHeaps {
  import opened Models

  class UserRiskItem {
    const userAddress: Address
    var healthFactor: int
    var index: int
    var nextCheckAt: int

    constructor (userAddress: Address, healthFactor: int)
      ensures this.userAddress == userAddress && this.healthFactor == healthFactor
      ensures index == 0 && nextCheckAt == 0
    {
      this.userAddress := userAddress;
      this.healthFactor := healthFactor;
      index, nextCheckAt := 0, 0;
    }
  }

  // ---------- Heap order on the sequence of keys ----------

  function Parent(k: int): int
    requires k > 0
  {
    (k - 1) / 2
  }

  function Exchange<T>(s: seq<T>, i: int, j: int): seq<T>
    requires 0 <= i < |s| && 0 <= j < |s|
  {
    s[i := s[j]][j := s[i]]
  }

  /** The first n keys form a min-heap; slot `hole` may come before its parent. */
  ghost predicate HeapBut(s: seq<int>, n: int, hole: int)
    requires n <= |s|
  {
    forall k :: 0 < k < n && k != hole ==> s[Parent(k)] <= s[k]
  }

  /** The children of slot i do not come before the parent of slot i. */
  ghost predicate Bridged(s: seq<int>, n: int, i: int)
    requires i < |s| && n <= |s|
  {
    i > 0 ==> forall k :: 0 < k < n && Parent(k) == i ==> s[Parent(i)] <= s[k]
  }

  /** What sifting down from i0 keeps when it has reached i: only the children of i, and the link above i0
      while nothing moved, may be out of order. */
  ghost predicate Sinking(s: seq<int>, n: int, i0: int, i: int)
    requires 0 <= i0 <= i <= n <= |s|
  {
    && (forall k :: 0 < k < n && k != i0 && Parent(k) != i ==> s[Parent(k)] <= s[k])
    && (i < n ==> Bridged(s, n, i))
    && (0 < i0 < i ==> i < n && s[Parent(i0)] <= s[i0])
  }

  lemma UpStep(s: seq<int>, n: int, j: int)
    requires 0 < j < n <= |s| && HeapBut(s, n, j) && Bridged(s, n, j)
    requires s[j] < s[Parent(j)]
    ensures var t := Exchange(s, Parent(j), j); HeapBut(t, n, Parent(j)) && Bridged(t, n, Parent(j))
  {
    var i := Parent(j);
    var t := Exchange(s, i, j);
    assert t[i] == s[j] && t[j] == s[i];
    if i > 0 { assert s[Parent(i)] <= s[i]; }
  }

  lemma DownStep(s: seq<int>, n: int, i0: int, i: int, j: int)
    requires 0 <= i0 <= i < j < n <= |s| && Parent(j) == i && Sinking(s, n, i0, i)
    requires forall k :: 0 < k < n && Parent(k) == i ==> s[j] <= s[k]
    requires s[j] < s[i]
    ensures Sinking(Exchange(s, i, j), n, i0, j)
  {}

  lemma DownDone(s: seq<int>, n: int, i0: int, i: int)
    requires 0 <= i0 <= i <= n <= |s| && Sinking(s, n, i0, i)
    requires forall k :: 0 < k < n && Parent(k) == i ==> s[i] <= s[k]
    ensures HeapBut(s, n, if i > i0 then 0 else i0)
  {}

  /** Putting the last key in slot i leaves a heap on the others, up to the position of that key. */
  lemma ReplaceByLast(s: seq<int>, i: int)
    requires 0 <= i < |s| - 1 && HeapBut(s, |s|, 0)
    ensures Sinking(Exchange(s, i, |s| - 1), |s| - 1, i, i)
  {}

  /** So does changing the key of slot i. */
  lemma ChangeKey(s: seq<int>, i: int, key: int)
    requires 0 <= i < |s| && HeapBut(s, |s|, 0)
    ensures Sinking(s[i := key], |s|, i, i)
  {}

  /** Nobody comes before the root. */
  lemma {:induction false} RootIsLeast(s: seq<int>, k: int)
    requires HeapBut(s, |s|, 0) && 0 <= k < |s|
    ensures s[0] <= s[k]
    decreases k
  {
    if k > 0 {
      RootIsLeast(s, Parent(k));
    }
  }

  class RiskHeap {
    var items: seq<UserRiskItem>

    constructor ()
      ensures items == []
    {
      items := [];
    }

    /** Every item knows its slot; in particular no item occurs twice. */
    ghost predicate Indexed()
      reads this, items
    {
      forall i :: 0 <= i < |items| ==> items[i].index == i
    }

    ghost function Keys(): (r: seq<int>)
      reads this, items
      ensures |r| == |items|
    {
      seq(|items|, i requires 0 <= i < |items| reads this, items => items[i].healthFactor)
    }

    ghost predicate Ordered()
      reads this, items
    {
      HeapBut(Keys(), |items|, 0)
    }

    ghost function Elements(): set<UserRiskItem>
      reads this
    {
      set x | x in items
    }

    predicate Less(i: int, j: int)
      requires 0 <= i < |items| && 0 <= j < |items|
      reads this, items
    {
      items[i].healthFactor < items[j].healthFactor
    }

    method Swap(i: int, j: int)
      requires 0 <= i < |items| && 0 <= j < |items|
      requires Indexed()
      modifies this`items, Elements()`index
      ensures Indexed()
      ensures items == Exchange(old(items), i, j)
      ensures Elements() == old(Elements()) && Keys() == Exchange(old(Keys()), i, j)
    {
      ghost var was := items;
      items := items[i := items[j]][j := items[i]];
      items[i].index := i;
      items[j].index := j;
      forall x ensures x in items <==> x in was {
        if x in was {
          var k :| 0 <= k < |was| && was[k] == x;
          assert items[if k == i then j else if k == j then i else k] == x;
        }
      }
    }

    method Push(item: UserRiskItem)
      requires Indexed() && item !in items
      modifies this`items, item`index
      ensures Indexed() && items == old(items) + [item]
    {
      item.index := |items|;
      items := items + [item];
    }

    method Pop() returns (item: UserRiskItem)
      requires Indexed() && items != []
      modifies this`items, Elements()`index
      ensures Indexed()
      ensures items == old(items)[..|old(items)| - 1]
      ensures item == old(items)[|old(items)| - 1] && item.index == -1 && item !in items
    {
      item := items[|items| - 1];
      assert forall i :: 0 <= i < |items| - 1 ==> items[i] != item;
      item.index := -1;
      items := items[..|items| - 1];
    }

    // ---------- container/heap ----------

    /** Sift the item at j towards the root until its parent is not larger. Only slots below n take part. */
    method Up(j0: int, ghost n: int)
      requires 0 <= j0 < n <= |items|
      requires Indexed() && HeapBut(Keys(), n, j0) && Bridged(Keys(), n, j0)
      modifies this`items, Elements()`index
      ensures Indexed() && Elements() == old(Elements()) && |items| == |old(items)|
      ensures forall k :: n <= k < |items| ==> items[k] == old(items)[k]
      ensures HeapBut(Keys(), n, 0)
    {
      var j := j0;
      while true
        invariant 0 <= j < n <= |items| == |old(items)|
        invariant Indexed() && Elements() == old(Elements())
        invariant HeapBut(Keys(), n, j) && Bridged(Keys(), n, j)
        invariant forall k :: n <= k < |items| ==> items[k] == old(items)[k]
        decreases j
      {
        var i := if j == 0 then 0 else (j - 1) / 2;
        if i == j || !Less(j, i) {
          break;
        }
        UpStep(Keys(), n, j);
        Swap(i, j);
        j := i;
      }
    }

    /** The child of i that comes first, or a slot outside the heap when i is a leaf. */
    method SmallerChild(i: int, n: int) returns (j: int)
      requires 0 <= i <= n <= |items|
      ensures j > i && Parent(j) == i
      ensures forall k :: 0 < k < n && Parent(k) == i ==> j < n && Keys()[j] <= Keys()[k]
    {
      var j1 := 2 * i + 1;
      j := j1;
      if j1 < n {
        var j2 := j1 + 1;
        if j2 < n && Less(j2, j1) {
          j := j2;
        }
      }
    }

    /** Where the item at slot i sinks next: its first child if that child comes before it, else i itself. */
    method NextSlot(ghost i0: int, i: int, n: int) returns (j: int)
      requires 0 <= i0 <= i <= n <= |items| && Sinking(Keys(), n, i0, i)
      ensures i <= j <= n
      ensures j == i ==> HeapBut(Keys(), n, if i > i0 then 0 else i0)
      ensures j > i ==> j < n && Sinking(Exchange(Keys(), i, j), n, i0, j)
    {
      ghost var keys := Keys();
      j := SmallerChild(i, n);
      assert keys == Keys();
      if j >= n || !Less(j, i) {
        assert j < n ==> keys[i] <= keys[j];
        DownDone(keys, n, i0, i);
        j := i;
      } else {
        assert keys[j] < keys[i];
        DownStep(keys, n, i0, i, j);
      }
    }

    /** Sift the item at i0 away from the root within the first n slots; reports whether it moved. */
    method Down(i0: int, n: int) returns (moved: bool)
      requires 0 <= i0 <= n <= |items|
      requires Indexed() && Sinking(Keys(), n, i0, i0)
      modifies this`items, Elements()`index
      ensures Indexed() && Elements() == old(Elements()) && |items| == |old(items)|
      ensures forall k :: n <= k < |items| ==> items[k] == old(items)[k]
      ensures moved ==> HeapBut(Keys(), n, 0)
      ensures !moved ==> items == old(items) && HeapBut(Keys(), n, i0)
    {
      var i := i0;
      while true
        invariant 0 <= i0 <= i <= n <= |items| == |old(items)|
        invariant Indexed() && Elements() == old(Elements())
        invariant Sinking(Keys(), n, i0, i)
        invariant i == i0 ==> items == old(items)
        invariant forall k :: n <= k < |items| ==> items[k] == old(items)[k]
        decreases n - i
      {
        var j := NextSlot(i0, i, n);
        if j == i {
          break;
        }
        Swap(i, j);
        i := j;
      }
      moved := i > i0;
    }

    /** Down, and Up when the item did not sink: the tail of both Fix and Remove. */
    method Reposition(i: int, n: int)
      requires 0 <= i < n <= |items|
      requires Indexed() && Sinking(Keys(), n, i, i)
      modifies this`items, Elements()`index
      ensures Indexed() && Elements() == old(Elements()) && |items| == |old(items)|
      ensures forall k :: n <= k < |items| ==> items[k] == old(items)[k]
      ensures HeapBut(Keys(), n, 0)
    {
      var moved := Down(i, n);
      if !moved {
        Up(i, n);
      }
    }

    method HeapPush(item: UserRiskItem)
      requires Indexed() && Ordered() && item !in items
      modifies this`items, Elements()`index, item`index
      ensures Indexed() && Ordered()
      ensures Elements() == old(Elements()) + {item}
    {
      Push(item);
      assert Elements() == old(Elements()) + {item};
      Up(|items| - 1, |items|);
    }

    /** Restore the order after the key of slot i changed. */
    method Fix(i: int)
      requires 0 <= i < |items| && Indexed()
      requires Sinking(Keys(), |items|, i, i)
      modifies this`items, Elements()`index
      ensures Indexed() && Ordered()
      ensures Elements() == old(Elements())
    {
      Reposition(i, |items|);
    }

    method Remove(i: int) returns (item: UserRiskItem)
      requires 0 <= i < |items| && Indexed() && Ordered()
      modifies this`items, Elements()`index
      ensures Indexed() && Ordered()
      ensures item == old(items[i]) && item.index == -1
      ensures Elements() == old(Elements()) - {item}
    {
      var n := |items| - 1;
      if n != i {
        ReplaceByLast(Keys(), i);
        Swap(i, n);
        Reposition(i, n);
      }
      item := PopElement();
    }

    /** Pop, described on the set of elements. */
    method PopElement() returns (item: UserRiskItem)
      requires Indexed() && items != [] && HeapBut(Keys(), |items| - 1, 0)
      modifies this`items, Elements()`index
      ensures Indexed() && Ordered()
      ensures item == old(items[|items| - 1]) && item.index == -1
      ensures Elements() == old(Elements()) - {item}
    {
      ghost var was := items;
      item := Pop();
      assert was == items + [item];
      assert forall x :: x in was <==> x in items || x == item;
    }
  }
}
