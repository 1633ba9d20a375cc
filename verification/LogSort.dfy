// internal/models/external.go: sorting a LogList through its Less and Swap methods.
module LogSort {
  import opened Replay

  /** A LogList: the slice that sort.Sort rearranges in place. */
  class LogList<T> {
    const items: array<T>
    const key: T -> Mark

    constructor (key: T -> Mark, logs: seq<T>)
      ensures this.key == key && fresh(items) && items[..] == logs
    {
      this.key := key;
      this.items := new T[|logs|](i requires 0 <= i < |logs| => logs[i]);
    }

    predicate Less(i: int, j: int)
      requires 0 <= i < items.Length && 0 <= j < items.Length
      reads items
    {
      key(items[i]).Before(key(items[j]))
    }

    method Swap(i: int, j: int)
      requires 0 <= i < items.Length && 0 <= j < items.Length
      modifies items
      ensures items[..] == old(items[..])[i := old(items[j])][j := old(items[i])]
      ensures multiset(items[..]) == old(multiset(items[..]))
    {
      items[i], items[j] := items[j], items[i];
      assert items[..] == old(items[..])[i := old(items[j])][j := old(items[i])];
    }

    /** The first n items are sorted, the item at `hole` possibly excepted with respect to earlier ones. */
    ghost predicate SortedBut(n: int, hole: int)
      requires 0 <= n <= items.Length
      reads items
    {
      forall p, q :: 0 <= p < q < n && q != hole ==> !key(items[q]).Before(key(items[p]))
    }

    /** Move the item at i down to its place among the first i items. */
    method Insert(i: int)
      requires 0 <= i < items.Length && SortedBut(i, i)
      modifies items
      ensures SortedBut(i + 1, i + 1)
      ensures multiset(items[..]) == old(multiset(items[..]))
    {
      var j := i;
      while j > 0 && Less(j, j - 1)
        invariant 0 <= j <= i
        invariant SortedBut(i + 1, j)
        invariant multiset(items[..]) == old(multiset(items[..]))
        invariant forall p, q :: 0 <= p < j < q <= i ==> !key(items[q]).Before(key(items[p]))
      {
        Swap(j, j - 1);
        j := j - 1;
      }
    }

    /** The contract of sort.Sort, met here by the insertion sort that Go uses on short slices. */
    method Sort()
      modifies items
      ensures SortedLogs(key, items[..])
      ensures multiset(items[..]) == old(multiset(items[..]))
    {
      for i := 0 to items.Length
        invariant SortedBut(i, i)
        invariant multiset(items[..]) == old(multiset(items[..]))
      {
        Insert(i);
      }
    }
  }
}
