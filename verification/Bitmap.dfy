// internal/engine: collateral bitmaps of E-Mode categories as sets of reserve ids.
module Bitmaps {
  import opened Models
  import opened RayMath

  /** The bitmap that lists the given reserves: the sum of their powers of two. */
  function BitmapOf(ids: seq<nat>): nat {
    if ids == [] then 0 else BitmapOf(ids[..|ids| - 1]) + Pow(2, ids[|ids| - 1])
  }

  predicate Distinct(ids: seq<nat>) {
    forall i, j :: 0 <= i < j < |ids| ==> ids[i] != ids[j]
  }

  /** Shifting once and then by id is shifting by id + 1. */
  lemma ShiftOnce(b: nat, id: nat)
    ensures b / Pow(2, id + 1) == b / 2 / Pow(2, id)
  {
    var p, q := Pow(2, id), b / 2 / Pow(2, id);
    assert Pow(2, id + 1) == 2 * p;
    DivBracket(b, 2);
    DivBracket(b / 2, p);
    assert 2 * p * q == 2 * (p * q);
    DivIs(b, 2 * p, q);
  }

  lemma BitOfHalf(b: nat, id: nat)
    ensures Bit(b, id + 1) <==> Bit(b / 2, id)
  {
    ShiftOnce(b, id);
  }

  lemma LowestBit(b: nat)
    ensures Bit(b, 0) <==> b % 2 == 1
  {
    assert Pow(2, 0) == 1;
  }

  lemma HalvesOfSum(b: nat, half: nat)
    ensures (b + 2 * half) / 2 == b / 2 + half && (b + 2 * half) % 2 == b % 2
  {}

  lemma SetLowest(b: nat, k: nat)
    requires b % 2 == 0
    ensures Bit(b + 1, k) <==> Bit(b, k) || k == 0
  {
    if k == 0 {
      LowestBit(b + 1);
    } else {
      BitOfHalf(b, k - 1);
      BitOfHalf(b + 1, k - 1);
      assert (b + 1) / 2 == b / 2;
    }
  }

  /** Adding the power of a clear bit sets that bit and no other. */
  lemma {:induction false} SetBit(b: nat, j: nat, k: nat)
    requires !Bit(b, j)
    ensures Bit(b + Pow(2, j), k) <==> Bit(b, k) || k == j
    decreases j, 1
  {
    if j == 0 {
      LowestBit(b);
      SetLowest(b, k);
    } else {
      HalvesOfSum(b, Pow(2, j - 1));
      BitOfHalf(b, j - 1);
      SetHigher(b, b + Pow(2, j), j, k);
    }
  }

  lemma {:induction false} SetHigher(b: nat, c: nat, j: nat, k: nat)
    requires j > 0 && !Bit(b / 2, j - 1) && c / 2 == b / 2 + Pow(2, j - 1) && c % 2 == b % 2
    ensures Bit(c, k) <==> Bit(b, k) || k == j
    decreases j, 0
  {
    if k == 0 {
      LowestBit(b);
      LowestBit(c);
    } else {
      SetBit(b / 2, j - 1, k - 1);
      BitOfHalf(b, k - 1);
      BitOfHalf(c, k - 1);
    }
  }

  /** The shift and mask of the source test membership in the listed reserves. */
  lemma {:induction false} BitOfBitmap(ids: seq<nat>, k: nat)
    requires Distinct(ids)
    ensures Bit(BitmapOf(ids), k) <==> k in ids
  {
    if ids == [] {
      DivIs(0, Pow(2, k), 0);
    } else {
      var n := |ids| - 1;
      var j := ids[n];
      BitOfBitmap(ids[..n], j);
      BitOfBitmap(ids[..n], k);
      SetBit(BitmapOf(ids[..n]), j, k);
    }
  }

  // ---------- Every bitmap lists reserves ----------

  function Raised(ids: seq<nat>): (r: seq<nat>)
    ensures |r| == |ids|
  {
    seq(|ids|, i requires 0 <= i < |ids| => ids[i] + 1)
  }

  /** The reserves a bitmap lists, highest first. */
  function IdsOf(b: nat): seq<nat> {
    if b == 0 then [] else Raised(IdsOf(b / 2)) + if b % 2 == 1 then [0] else []
  }

  lemma {:induction false} RaisedDoubles(ids: seq<nat>)
    ensures BitmapOf(Raised(ids)) == 2 * BitmapOf(ids)
  {
    if ids != [] {
      var n := |ids| - 1;
      RaisedDoubles(ids[..n]);
      assert Raised(ids)[..n] == Raised(ids[..n]);
    }
  }

  lemma PushLowest(ids: seq<nat>)
    requires Distinct(ids)
    ensures Distinct(Raised(ids)) && Distinct(Raised(ids) + [0])
    ensures BitmapOf(Raised(ids) + [0]) == BitmapOf(Raised(ids)) + 1
  {
    assert (Raised(ids) + [0])[..|ids|] == Raised(ids);
  }

  lemma {:induction false} IdsOfBitmap(b: nat)
    ensures Distinct(IdsOf(b)) && BitmapOf(IdsOf(b)) == b
  {
    if b != 0 {
      IdsOfBitmap(b / 2);
      RaisedDoubles(IdsOf(b / 2));
      PushLowest(IdsOf(b / 2));
      assert b % 2 == 0 ==> IdsOf(b) == Raised(IdsOf(b / 2));
    }
  }

  /** A reserve is in the category of a bitmap exactly when it is listed there, for every bitmap. */
  lemma BitIsListed(b: nat, id: nat)
    ensures Bit(b, id) <==> id in IdsOf(b)
  {
    IdsOfBitmap(b);
    BitOfBitmap(IdsOf(b), id);
  }
}
