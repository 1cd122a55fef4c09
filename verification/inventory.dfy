/** The machine's holding of banknotes.

 The holding is a map from denomination to count. A denomination that is not
 a key holds no notes. Counts are plain integers, as in the source, and that
 dispensing never drives a count below zero is proved rather than assumed.
 */
module Inventories {
  import opened Banknotes

  type Inventory = map<Denomination, int>

  /** The count held for `d`; absent denominations hold nothing. */
  function Holding(inv: Inventory, d: Denomination): int
  {
    if d in inv then inv[d] else 0
  }

  /** No count is negative. */
  predicate NonNegative(inv: Inventory)
  {
    forall d :: d in inv ==> inv[d] >= 0
  }

  /** The money held in the denominations listed in `ds`. */
  function ValueOver(inv: Inventory, ds: seq<Denomination>): int
  {
    if ds == [] then 0
    else FaceValue(ds[0]) * Holding(inv, ds[0]) + ValueOver(inv, ds[1..])
  }

  /** The number of notes held in the denominations listed in `ds`. */
  function CountOver(inv: Inventory, ds: seq<Denomination>): int
  {
    if ds == [] then 0
    else Holding(inv, ds[0]) + CountOver(inv, ds[1..])
  }

  /** All the money in the machine: with no count negative, nothing or more,
      and at most 5000 per note held. */
  function TotalValue(inv: Inventory): (r: int)
    ensures NonNegative(inv) ==> 0 <= r <= 5000 * TotalCount(inv)
  {
    ValueWithinCount(inv, Descending);
    ValueOver(inv, Descending)
  }

  /** All the notes in the machine: with no count negative, none or more. */
  function TotalCount(inv: Inventory): (r: int)
    ensures NonNegative(inv) ==> r >= 0
  {
    HoldingNonNegative(inv, Descending);
    CountOver(inv, Descending)
  }

  /** With no count negative, the notes and the money held are not negative. */
  lemma {:induction false} HoldingNonNegative(inv: Inventory, ds: seq<Denomination>)
    ensures NonNegative(inv) ==> CountOver(inv, ds) >= 0 && ValueOver(inv, ds) >= 0
  {
    if NonNegative(inv) && ds != [] {
      HoldingNonNegative(inv, ds[1..]);
      MultipleDivides(ds[0], Holding(inv, ds[0]));
    }
  }

  /** With no count negative, the money held in `ds` is at most 5000 per note. */
  lemma {:induction false} ValueWithinCount(inv: Inventory, ds: seq<Denomination>)
    ensures NonNegative(inv) ==> 0 <= ValueOver(inv, ds) <= 5000 * CountOver(inv, ds)
  {
    if NonNegative(inv) && ds != [] {
      ValueWithinCount(inv, ds[1..]);
      var h := Holding(inv, ds[0]);
      assert h >= 0;
      match ds[0]
      case B10 =>
      case B50 =>
      case B100 =>
      case B200 =>
      case B500 =>
      case B1000 =>
      case B2000 =>
      case B5000 =>
    }
  }

  /** The stack of denomination `d` if it holds a note, and nothing otherwise. */
  function Keep(inv: Inventory, d: Denomination): seq<Banknote>
  {
    if d in inv && inv[d] > 0 then [Banknote(d, inv[d])] else []
  }

  /** The non-empty stacks among the denominations `ds`, in the order of `ds`. */
  function StacksOver(inv: Inventory, ds: seq<Denomination>): seq<Banknote>
  {
    if ds == [] then [] else Keep(inv, ds[0]) + StacksOver(inv, ds[1..])
  }

  /** The stacks kept hold at least one note each and are of listed
      denominations. */
  lemma {:induction false} StacksOverStocked(inv: Inventory, ds: seq<Denomination>)
    ensures forall i :: 0 <= i < |StacksOver(inv, ds)| ==>
              StacksOver(inv, ds)[i].count > 0 && StacksOver(inv, ds)[i].denomination in ds
  {
    if ds != [] {
      StacksOverStocked(inv, ds[1..]);
      var rest := StacksOver(inv, ds[1..]);
      var r := StacksOver(inv, ds);
      assert forall d :: d in ds[1..] ==> d in ds;
      if ds[0] in inv && inv[ds[0]] > 0 {
        assert r == [Banknote(ds[0], inv[ds[0]])] + rest;
        forall i | 1 <= i < |r|
          ensures r[i].count > 0 && r[i].denomination in ds
        {
          assert r[i] == rest[i - 1];
        }
      } else {
        assert r == rest;
      }
    }
  }

  /** The stacks kept are exactly the listed denominations that hold notes,
      with their counts. */
  lemma {:induction false} StacksOverCounts(inv: Inventory, ds: seq<Denomination>)
    ensures forall d :: CountOf(StacksOver(inv, ds), d)
                        == (if d in ds && d in inv && inv[d] > 0 then inv[d] else 0)
  {
    if ds != [] {
      StacksOverCounts(inv, ds[1..]);
      var rest := StacksOver(inv, ds[1..]);
      var r := StacksOver(inv, ds);
      if ds[0] in inv && inv[ds[0]] > 0 {
        assert r == [Banknote(ds[0], inv[ds[0]])] + rest;
        assert r[1..] == rest;
      } else {
        assert r == rest;
      }
      forall d
        ensures CountOf(r, d) == (if d in ds && d in inv && inv[d] > 0 then inv[d] else 0)
      {
        assert d in ds <==> d == ds[0] || d in ds[1..];
      }
    }
  }

  /** The stacks kept over a decreasing list of denominations descend. */
  lemma {:induction false} StacksOverDescends(inv: Inventory, ds: seq<Denomination>)
    requires Decreasing(ds)
    ensures Descends(StacksOver(inv, ds))
  {
    if ds != [] {
      assert Decreasing(ds[1..]);
      StacksOverDescends(inv, ds[1..]);
      StacksOverStocked(inv, ds[1..]);
      var rest := StacksOver(inv, ds[1..]);
      var r := StacksOver(inv, ds);
      assert forall d :: d in ds[1..] ==> d in ds;
      if ds[0] in inv && inv[ds[0]] > 0 {
        assert r == [Banknote(ds[0], inv[ds[0]])] + rest;
        assert r[1..] == rest;
        forall i | 0 <= i < |rest|
          ensures FaceValue(rest[i].denomination) < FaceValue(ds[0])
        {
          assert rest[i].denomination in ds[1..];
          DecreasingHead(ds, rest[i].denomination);
        }
      } else {
        assert r == rest;
      }
    }
  }

  /** In a decreasing list, every later denomination is smaller than the first. */
  lemma DecreasingHead(ds: seq<Denomination>, d: Denomination)
    requires Decreasing(ds)
    requires |ds| > 0 && d in ds[1..]
    ensures FaceValue(d) < FaceValue(ds[0])
  {
    var k :| 0 <= k < |ds[1..]| && ds[1..][k] == d;
    assert ds[k + 1] == d;
  }

  /** The non-empty stacks, largest denomination first: the order in which
      notes are selected. */
  function Available(inv: Inventory): (r: seq<Banknote>)
    ensures forall i :: 0 <= i < |r| ==> r[i].count > 0
    ensures forall d :: CountOf(r, d) == (if d in inv && inv[d] > 0 then inv[d] else 0)
    ensures Descends(r)
  {
    DescendingEnumeratesAll();
    StacksOverStocked(inv, Descending);
    StacksOverCounts(inv, Descending);
    StacksOverDescends(inv, Descending);
    StacksOver(inv, Descending)
  }

  /** The tails of the descending enumeration, written out. */
  lemma DescendingTails()
    ensures Descending == [B5000, B2000, B1000, B500, B200, B100, B50, B10]
    ensures [B5000, B2000, B1000, B500, B200, B100, B50, B10][1..] == [B2000, B1000, B500, B200, B100, B50, B10]
    ensures [B2000, B1000, B500, B200, B100, B50, B10][1..] == [B1000, B500, B200, B100, B50, B10]
    ensures [B1000, B500, B200, B100, B50, B10][1..] == [B500, B200, B100, B50, B10]
    ensures [B500, B200, B100, B50, B10][1..] == [B200, B100, B50, B10]
    ensures [B200, B100, B50, B10][1..] == [B100, B50, B10]
    ensures [B100, B50, B10][1..] == [B50, B10]
    ensures [B50, B10][1..] == [B10]
    ensures [B10][1..] == []
  {
  }

  /** The money in the machine, written out: each face value times the
      count held of it. */
  lemma ValueExpanded(inv: Inventory)
    ensures TotalValue(inv)
            == 5000 * Holding(inv, B5000)
             + 2000 * Holding(inv, B2000)
             + 1000 * Holding(inv, B1000)
             + 500 * Holding(inv, B500)
             + 200 * Holding(inv, B200)
             + 100 * Holding(inv, B100)
             + 50 * Holding(inv, B50)
             + 10 * Holding(inv, B10)
  {
    DescendingTails();
    assert ValueOver(inv, [B10]) == 10 * Holding(inv, B10);
    assert ValueOver(inv, [B50, B10]) == 50 * Holding(inv, B50) + ValueOver(inv, [B10]);
    assert ValueOver(inv, [B100, B50, B10]) == 100 * Holding(inv, B100) + ValueOver(inv, [B50, B10]);
    assert ValueOver(inv, [B200, B100, B50, B10]) == 200 * Holding(inv, B200) + ValueOver(inv, [B100, B50, B10]);
    assert ValueOver(inv, [B500, B200, B100, B50, B10]) == 500 * Holding(inv, B500) + ValueOver(inv, [B200, B100, B50, B10]);
    assert ValueOver(inv, [B1000, B500, B200, B100, B50, B10]) == 1000 * Holding(inv, B1000) + ValueOver(inv, [B500, B200, B100, B50, B10]);
    assert ValueOver(inv, [B2000, B1000, B500, B200, B100, B50, B10]) == 2000 * Holding(inv, B2000) + ValueOver(inv, [B1000, B500, B200, B100, B50, B10]);
    assert ValueOver(inv, [B5000, B2000, B1000, B500, B200, B100, B50, B10]) == 5000 * Holding(inv, B5000) + ValueOver(inv, [B2000, B1000, B500, B200, B100, B50, B10]);
  }

  /** The notes in the machine, written out: the sum of the eight counts. */
  lemma CountExpanded(inv: Inventory)
    ensures TotalCount(inv)
            == Holding(inv, B5000)
             + Holding(inv, B2000)
             + Holding(inv, B1000)
             + Holding(inv, B500)
             + Holding(inv, B200)
             + Holding(inv, B100)
             + Holding(inv, B50)
             + Holding(inv, B10)
  {
    DescendingTails();
    assert CountOver(inv, [B10]) == Holding(inv, B10);
    assert CountOver(inv, [B50, B10]) == Holding(inv, B50) + CountOver(inv, [B10]);
    assert CountOver(inv, [B100, B50, B10]) == Holding(inv, B100) + CountOver(inv, [B50, B10]);
    assert CountOver(inv, [B200, B100, B50, B10]) == Holding(inv, B200) + CountOver(inv, [B100, B50, B10]);
    assert CountOver(inv, [B500, B200, B100, B50, B10]) == Holding(inv, B500) + CountOver(inv, [B200, B100, B50, B10]);
    assert CountOver(inv, [B1000, B500, B200, B100, B50, B10]) == Holding(inv, B1000) + CountOver(inv, [B500, B200, B100, B50, B10]);
    assert CountOver(inv, [B2000, B1000, B500, B200, B100, B50, B10]) == Holding(inv, B2000) + CountOver(inv, [B1000, B500, B200, B100, B50, B10]);
    assert CountOver(inv, [B5000, B2000, B1000, B500, B200, B100, B50, B10]) == Holding(inv, B5000) + CountOver(inv, [B2000, B1000, B500, B200, B100, B50, B10]);
  }

  /** The non-empty stacks, written out from the largest denomination down. */
  lemma AvailableExpanded(inv: Inventory)
    ensures Available(inv)
            == Keep(inv, B5000) + (Keep(inv, B2000) + (Keep(inv, B1000) + (Keep(inv, B500)
             + (Keep(inv, B200) + (Keep(inv, B100) + (Keep(inv, B50) + Keep(inv, B10)))))))
  {
    DescendingTails();
    assert StacksOver(inv, [B10]) == Keep(inv, B10);
    assert StacksOver(inv, [B50, B10]) == Keep(inv, B50) + StacksOver(inv, [B10]);
    assert StacksOver(inv, [B100, B50, B10]) == Keep(inv, B100) + StacksOver(inv, [B50, B10]);
    assert StacksOver(inv, [B200, B100, B50, B10]) == Keep(inv, B200) + StacksOver(inv, [B100, B50, B10]);
    assert StacksOver(inv, [B500, B200, B100, B50, B10]) == Keep(inv, B500) + StacksOver(inv, [B200, B100, B50, B10]);
    assert StacksOver(inv, [B1000, B500, B200, B100, B50, B10]) == Keep(inv, B1000) + StacksOver(inv, [B500, B200, B100, B50, B10]);
    assert StacksOver(inv, [B2000, B1000, B500, B200, B100, B50, B10]) == Keep(inv, B2000) + StacksOver(inv, [B1000, B500, B200, B100, B50, B10]);
    assert StacksOver(inv, [B5000, B2000, B1000, B500, B200, B100, B50, B10]) == Keep(inv, B5000) + StacksOver(inv, [B2000, B1000, B500, B200, B100, B50, B10]);
  }

  /** Takes the notes of one plan entry out of the holding. */
  function Debit(inv: Inventory, b: Banknote): (r: Inventory)
    requires b.denomination in inv
    ensures r.Keys == inv.Keys
    ensures r[b.denomination] == inv[b.denomination] - b.count
    ensures forall d :: d in inv && d != b.denomination ==> r[d] == inv[d]
  {
    inv[b.denomination := inv[b.denomination] - b.count]
  }

  /** Takes the notes of every plan entry out of the holding, one entry after
      the other. */
  function Withdraw(inv: Inventory, plan: seq<Banknote>): (r: Inventory)
    requires forall i :: 0 <= i < |plan| ==> plan[i].denomination in inv
    ensures r.Keys == inv.Keys
  {
    if plan == [] then inv
    else Withdraw(Debit(inv, plan[0]), plan[1..])
  }

  /** A plan whose denominations are distinct lowers each count by exactly
      the plan's count for that denomination, and leaves the others alone. */
  lemma {:induction false} WithdrawPointwise(inv: Inventory, plan: seq<Banknote>)
    requires forall i :: 0 <= i < |plan| ==> plan[i].denomination in inv
    requires Descends(plan)
    ensures forall d :: d in inv ==> Withdraw(inv, plan)[d] == inv[d] - CountOf(plan, d)
  {
    if plan != [] {
      var e := plan[0];
      var inv' := Debit(inv, e);
      WithdrawPointwise(inv', plan[1..]);
      if CountOf(plan[1..], e.denomination) != 0 {
        var j := CountOfFound(plan[1..], e.denomination);
        assert false;
      }
    }
  }

  /** Changing one count changes the money held by that count's worth, when
      the denomination is listed once in `ds`. */
  lemma {:induction false} ValueOverUpdate(inv: Inventory, d: Denomination, n: int, ds: seq<Denomination>)
    requires Decreasing(ds)
    ensures ValueOver(inv[d := n], ds)
            == ValueOver(inv, ds) + (if d in ds then FaceValue(d) * (n - Holding(inv, d)) else 0)
  {
    if ds != [] {
      assert Decreasing(ds[1..]);
      ValueOverUpdate(inv, d, n, ds[1..]);
      if ds[0] == d {
        assert FaceValue(d) * n == FaceValue(d) * Holding(inv, d) + FaceValue(d) * (n - Holding(inv, d));
      }
    }
  }

  /** Withdrawing a plan lowers the money held by exactly the plan's worth. */
  lemma {:induction false} WithdrawValue(inv: Inventory, plan: seq<Banknote>)
    requires forall i :: 0 <= i < |plan| ==> plan[i].denomination in inv
    ensures TotalValue(Withdraw(inv, plan)) == TotalValue(inv) - PlanValue(plan)
  {
    if plan != [] {
      DebitValue(inv, plan[0]);
      assert forall i :: 0 <= i < |plan[1..]| ==> plan[1..][i] == plan[i + 1];
      WithdrawValue(Debit(inv, plan[0]), plan[1..]);
    }
  }

  /** Taking one plan entry out lowers the money held by the entry's worth. */
  lemma DebitValue(inv: Inventory, b: Banknote)
    requires b.denomination in inv
    ensures TotalValue(Debit(inv, b)) == TotalValue(inv) - Sum(b)
  {
    var d := b.denomination;
    DescendingEnumeratesAll();
    ValueOverUpdate(inv, d, inv[d] - b.count, Descending);
    assert FaceValue(d) * (inv[d] - b.count - Holding(inv, d)) == -(FaceValue(d) * b.count);
  }

  /** A fresh holding: one count per denomination, drawn in the order the
      enumeration lists its members. */
  function FreshInventory(draws: seq<int>): (r: Inventory)
    requires |draws| == 8
    ensures forall d: Denomination :: d in r
    ensures forall i :: 0 <= i < 8 ==> r[Ascending[i]] == draws[i]
  {
    var r := map[B10 := draws[0], B50 := draws[1], B100 := draws[2], B200 := draws[3],
                 B500 := draws[4], B1000 := draws[5], B2000 := draws[6], B5000 := draws[7]];
    DescendingEnumeratesAll();
    assert forall d :: d in Descending ==> d in r;
    r
  }

  /** With every draw in [1, 49] (the range a draw from [1, 50) yields),
      every denomination is stocked: the fresh machine holds at least one note
      of each face value. */
  lemma FreshStock(draws: seq<int>)
    requires |draws| == 8
    requires forall i :: 0 <= i < 8 ==> 1 <= draws[i] <= 49
    ensures forall d :: 1 <= FreshInventory(draws)[d] <= 49
    ensures TotalCount(FreshInventory(draws)) >= 8
    ensures TotalValue(FreshInventory(draws)) >= 8860
  {
    var r := FreshInventory(draws);
    DescendingEnumeratesAll();
    forall d: Denomination
      ensures 1 <= r[d] <= 49
    {
      assert d in Descending;
      var i :| 0 <= i < |Descending| && Descending[i] == d;
      assert Ascending[7 - i] == d;
    }
    FreshBounds(r, Descending);
    assert FaceSum(Descending) == 8860;
  }

  /** With every listed denomination stocked, the machine holds at least one
      note and one face value's worth of each. */
  lemma {:induction false} FreshBounds(inv: Inventory, ds: seq<Denomination>)
    ensures (forall d :: d in ds ==> Holding(inv, d) >= 1) ==>
              CountOver(inv, ds) >= |ds| && ValueOver(inv, ds) >= FaceSum(ds)
  {
    if ds != [] {
      FreshBounds(inv, ds[1..]);
      if forall d :: d in ds ==> Holding(inv, d) >= 1 {
        assert forall d :: d in ds[1..] ==> d in ds;
        assert FaceValue(ds[0]) * Holding(inv, ds[0]) >= FaceValue(ds[0]);
      }
    }
  }

  /** The face values of `ds`, added up. */
  function FaceSum(ds: seq<Denomination>): int
  {
    if ds == [] then 0 else FaceValue(ds[0]) + FaceSum(ds[1..])
  }
}
