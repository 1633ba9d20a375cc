// internal/models: the value types the engines share, and the integer widths they use.
module Models {

  type Address = string

  type uint8 = x: int | 0 <= x < 0x100
  type uint16 = x: int | 0 <= x < 0x1_0000
  type uint64 = x: int | 0 <= x < 0x1_0000_0000_0000_0000

  datatype Option<+T> = None | Some(value: T)

  datatype GlobalIndex = GlobalIndex(liquidityIndex: int, variableBorrowIndex: int, lastUpdateBlock: uint64)

  datatype AssetConfig = AssetConfig(
    decimals: nat,
    liquidationThreshold: uint16,
    liquidationBonus: uint16,
    reserveId: uint16,
    liquidationProtocolFee: uint16)

  datatype EModeCategory = EModeCategory(
    liquidationThreshold: uint16,
    liquidationBonus: uint16,
    collateralBitmap: nat)

  /** The value of a UserReserve object. */
  datatype Reserve = Reserve(assetAddress: Address, aToken: int, debt: int, collateral: bool)

  /** The value of a UserPosition object. */
  datatype Position = Position(reserves: map<Address, Reserve>, eModeCategoryId: uint8, eModeFetched: bool)

  /** What the event log determines: the index of every asset and the position of every user. */
  datatype Ledger = Ledger(indices: map<Address, GlobalIndex>, positions: map<Address, Position>)

  /** Everything a risk or strategy calculation reads besides the position itself. */
  datatype Market = Market(
    prices: map<Address, int>,
    indices: map<Address, GlobalIndex>,
    configs: map<Address, AssetConfig>,
    categories: map<uint8, EModeCategory>)
  {
    predicate HasData(a: Address) {
      a in prices && a in indices && a in configs
    }

    /** Prices, indices and bitmaps are unsigned on chain, and a listed price is not zero. */
    ghost predicate Sound() {
      && (forall a :: a in prices ==> prices[a] > 0)
      && (forall a :: a in indices ==> indices[a].liquidityIndex >= 0 && indices[a].variableBorrowIndex >= 0)
    }
  }

  function Pow(base: nat, e: nat): (r: nat)
    ensures base > 0 ==> r > 0
  {
    if e == 0 then 1 else base * Pow(base, e - 1)
  }

  /** Bit `id` of a bitmap, read as the source does by a right shift and a mask. */
  predicate Bit(bitmap: nat, id: nat) {
    (bitmap / Pow(2, id)) % 2 == 1
  }

  /** keys lists the domain of m without repetition: one of the orders a map iteration may take. */
  ghost predicate Enumerates<K(!new), V>(keys: seq<K>, m: map<K, V>) {
    && (forall i, j :: 0 <= i < j < |keys| ==> keys[i] != keys[j])
    && (forall k :: k in keys <==> k in m)
  }
}

// Sums over the iteration order of a map, and their independence of that order.
module Sums {
  import opened Models

  function Sum<K>(f: K -> int, keys: seq<K>): int {
    if keys == [] then 0 else Sum(f, keys[..|keys| - 1]) + f(keys[|keys| - 1])
  }

  lemma {:induction false} SumConcat<K>(f: K -> int, a: seq<K>, b: seq<K>)
    ensures Sum(f, a + b) == Sum(f, a) + Sum(f, b)
  {
    if b == [] {
      assert a + b == a;
    } else {
      SumConcat(f, a, b[..|b| - 1]);
      assert (a + b)[..|a + b| - 1] == a + b[..|b| - 1];
    }
  }

  lemma SumRemove<K>(f: K -> int, keys: seq<K>, i: nat)
    requires i < |keys|
    ensures Sum(f, keys) == Sum(f, keys[..i] + keys[i + 1..]) + f(keys[i])
  {
    assert keys == keys[..i] + ([keys[i]] + keys[i + 1..]);
    SumConcat(f, keys[..i], [keys[i]] + keys[i + 1..]);
    SumConcat(f, [keys[i]], keys[i + 1..]);
    SumConcat(f, keys[..i], keys[i + 1..]);
    assert Sum(f, [keys[i]]) == f(keys[i]) by { assert [keys[i]][..0] == []; }
  }

  /** A sum does not depend on the order in which the keys are visited. */
  lemma {:induction false} SumPermutation<K>(f: K -> int, a: seq<K>, b: seq<K>)
    requires multiset(a) == multiset(b)
    ensures Sum(f, a) == Sum(f, b)
  {
    if a == [] {
      assert |b| == |multiset(b)| == 0;
    } else {
      var last := |a| - 1;
      var x := a[last];
      assert x in multiset(b);
      var i :| 0 <= i < |b| && b[i] == x;
      assert a == a[..last] + [x];
      assert b == b[..i] + [x] + b[i + 1..];
      assert multiset(a[..last]) == multiset(a) - multiset{x};
      assert multiset(b[..i] + b[i + 1..]) == multiset(b) - multiset{x};
      SumPermutation(f, a[..last], b[..i] + b[i + 1..]);
      SumRemove(f, b, i);
    }
  }

  lemma {:induction false} SumMonotone<K>(f: K -> int, g: K -> int, keys: seq<K>)
    requires forall k :: k in keys ==> f(k) <= g(k)
    ensures Sum(f, keys) <= Sum(g, keys)
  {
    if keys != [] {
      SumMonotone(f, g, keys[..|keys| - 1]);
      assert keys[|keys| - 1] in keys;
    }
  }

  /** A sum of non-negative terms is non-negative and bounds each of them. */
  lemma {:induction false} SumBounds<K>(f: K -> int, keys: seq<K>, k: K)
    requires forall x :: x in keys ==> f(x) >= 0
    ensures Sum(f, keys) >= 0
    ensures k in keys ==> f(k) <= Sum(f, keys)
  {
    if keys != [] {
      SumBounds(f, keys[..|keys| - 1], k);
      assert keys[|keys| - 1] in keys;
    }
  }

  /** Two enumerations of one map are permutations of each other. */
  lemma EnumerationsPermute<K(!new), V>(a: seq<K>, b: seq<K>, m: map<K, V>)
    requires Enumerates(a, m) && Enumerates(b, m)
    ensures multiset(a) == multiset(b)
  {
    forall k ensures multiset(a)[k] == multiset(b)[k] {
      Multiplicity(a, k);
      Multiplicity(b, k);
      assert k in a <==> k in m;
      assert k in b <==> k in m;
    }
  }

  lemma {:induction false} Multiplicity<K>(s: seq<K>, k: K)
    requires forall i, j :: 0 <= i < j < |s| ==> s[i] != s[j]
    ensures multiset(s)[k] == if k in s then 1 else 0
  {
    if s != [] {
      var t := s[..|s| - 1];
      Multiplicity(t, k);
      assert s == t + [s[|s| - 1]];
    }
  }
}
