/** Worked withdrawals on concrete holdings: the amounts the machine can and
 cannot hand out, and one amount the greedy pass misses although the notes
 to make it up are there.

 A holding is described by `Holds`, which fixes its eight counts, rather
 than by a map display, so that the verifier reasons about the holding
 step by step instead of evaluating every function applied to it.
 */
module Scenarios {
  import opened Banknotes
  import opened Inventories
  import opened Dispenser

  /** `inv` lists all eight denominations, with the given counts. */
  predicate Holds(inv: Inventory, n5000: int, n2000: int, n1000: int, n500: int,
                  n200: int, n100: int, n50: int, n10: int)
  {
    && (forall d: Denomination :: d in inv)
    && inv[B5000] == n5000 && inv[B2000] == n2000 && inv[B1000] == n1000 && inv[B500] == n500
    && inv[B200] == n200 && inv[B100] == n100 && inv[B50] == n50 && inv[B10] == n10
  }

  /** The stack of `n` notes of `d`, or nothing when `n` is not positive. */
  function StackOf(d: Denomination, n: int): seq<Banknote>
  {
    if n > 0 then [Banknote(d, n)] else []
  }

  /** The money and the notes in such a holding, written out. */
  lemma HoldsTotals(inv: Inventory, n5000: int, n2000: int, n1000: int, n500: int,
                    n200: int, n100: int, n50: int, n10: int)
    requires Holds(inv, n5000, n2000, n1000, n500, n200, n100, n50, n10)
    ensures TotalValue(inv) == 5000 * n5000 + 2000 * n2000 + 1000 * n1000 + 500 * n500
                               + 200 * n200 + 100 * n100 + 50 * n50 + 10 * n10
    ensures TotalCount(inv) == n5000 + n2000 + n1000 + n500 + n200 + n100 + n50 + n10
  {
    ValueExpanded(inv);
    CountExpanded(inv);
  }

  /** The stacks the selection walks in such a holding, written out. */
  lemma HoldsStacks(inv: Inventory, n5000: int, n2000: int, n1000: int, n500: int,
                    n200: int, n100: int, n50: int, n10: int)
    requires Holds(inv, n5000, n2000, n1000, n500, n200, n100, n50, n10)
    ensures Available(inv)
            == StackOf(B5000, n5000) + (StackOf(B2000, n2000) + (StackOf(B1000, n1000)
             + (StackOf(B500, n500) + (StackOf(B200, n200) + (StackOf(B100, n100)
             + (StackOf(B50, n50) + StackOf(B10, n10)))))))
  {
    AvailableExpanded(inv);
    assert Keep(inv, B5000) == StackOf(B5000, n5000);
    assert Keep(inv, B2000) == StackOf(B2000, n2000);
    assert Keep(inv, B1000) == StackOf(B1000, n1000);
    assert Keep(inv, B500) == StackOf(B500, n500);
    assert Keep(inv, B200) == StackOf(B200, n200);
    assert Keep(inv, B100) == StackOf(B100, n100);
    assert Keep(inv, B50) == StackOf(B50, n50);
    assert Keep(inv, B10) == StackOf(B10, n10);
  }

  /** After an issued withdrawal, each count is the old one less what the
      plan takes. */
  lemma IssuedCounts(inv: Inventory, sum: int, d: Denomination)
    requires Dispense(inv, sum).Issued?
    requires d in inv
    ensures d in Dispense(inv, sum).after
    ensures Dispense(inv, sum).after[d] == inv[d] - CountOf(Dispense(inv, sum).plan, d)
  {
    DispenseIssued(inv, sum);
  }

  /** One 5000, two 1000, one 500 and three 100 notes: 7800 in 7 notes,
      walked as 5000, 1000, 500, 100. */
  lemma MixedStacks(inv: Inventory)
    requires Holds(inv, 1, 0, 2, 1, 0, 3, 0, 0)
    ensures TotalValue(inv) == 7800 && TotalCount(inv) == 7
    ensures Available(inv) == [Banknote(B5000, 1), Banknote(B1000, 2), Banknote(B500, 1), Banknote(B100, 3)]
  {
    HoldsTotals(inv, 1, 0, 2, 1, 0, 3, 0, 0);
    HoldsStacks(inv, 1, 0, 2, 1, 0, 3, 0, 0);
  }

  /** 6800 from the mixed stacks: one note of each of 5000, 1000 and 500 and
      three 100 notes; the second 1000 note stays behind. */
  lemma MixedGreedy(stacks: seq<Banknote>)
    requires stacks == [Banknote(B5000, 1), Banknote(B1000, 2), Banknote(B500, 1), Banknote(B100, 3)]
    ensures Greedy(stacks, 6800)
            == Selection([Banknote(B5000, 1), Banknote(B1000, 1), Banknote(B500, 1), Banknote(B100, 3)], 0)
  {
    assert ToIssue(stacks[3], 300) == 3;
    assert Greedy(stacks[3..], 300) == Selection([Banknote(B100, 3)], 0);
    assert ToIssue(stacks[2], 800) == 1;
    assert Greedy(stacks[2..], 800) == Selection([Banknote(B500, 1), Banknote(B100, 3)], 0);
    assert ToIssue(stacks[1], 1800) == 1;
    assert Greedy(stacks[1..], 1800)
           == Selection([Banknote(B1000, 1), Banknote(B500, 1), Banknote(B100, 3)], 0);
    assert ToIssue(stacks[0], 6800) == 1;
  }

  /** The counts the 6800 plan takes. */
  lemma MixedPlanCounts(plan: seq<Banknote>)
    requires plan == [Banknote(B5000, 1), Banknote(B1000, 1), Banknote(B500, 1), Banknote(B100, 3)]
    ensures CountOf(plan, B5000) == 1 && CountOf(plan, B2000) == 0
    ensures CountOf(plan, B1000) == 1 && CountOf(plan, B500) == 1
    ensures CountOf(plan, B200) == 0 && CountOf(plan, B100) == 3
    ensures CountOf(plan, B50) == 0 && CountOf(plan, B10) == 0
  {
    var p1, p2, p3 := plan[1..], plan[1..][1..], plan[1..][1..][1..];
    assert p3[1..] == [];
    assert forall d :: CountOf(p3, d) == (if d == B100 then 3 else 0);
    assert forall d :: CountOf(p2, d) == (if d == B500 then 1 else CountOf(p3, d));
    assert forall d :: CountOf(p1, d) == (if d == B1000 then 1 else CountOf(p2, d));
  }

  /** The whole withdrawal of 6800 from the mixed stacks: one 5000, one 1000,
      one 500 and three 100 notes are handed out, and the machine is left
      with a single 1000 note. */
  lemma MixedWithdrawal(inv: Inventory)
    requires Holds(inv, 1, 0, 2, 1, 0, 3, 0, 0)
    ensures Dispense(inv, 6800).Issued?
    ensures Dispense(inv, 6800).plan
            == [Banknote(B5000, 1), Banknote(B1000, 1), Banknote(B500, 1), Banknote(B100, 3)]
    ensures Holds(Dispense(inv, 6800).after, 0, 0, 1, 0, 0, 0, 0, 0)
  {
    MixedStacks(inv);
    MixedGreedy(Available(inv));
    var r := Dispense(inv, 6800);
    MixedPlanCounts(r.plan);
    forall d: Denomination
      ensures d in r.after && r.after[d] == inv[d] - CountOf(r.plan, d)
    {
      IssuedCounts(inv, 6800, d);
    }
  }

  /** Three 100 notes cannot pay out 500: the machine holds too little. */
  lemma ShortOfMoney(inv: Inventory)
    requires Holds(inv, 0, 0, 0, 0, 0, 3, 0, 0)
    ensures Dispense(inv, 500) == NotEnoughMoney
  {
    HoldsTotals(inv, 0, 0, 0, 0, 0, 3, 0, 0);
  }

  /** An empty machine refuses even a request for nothing. */
  lemma EmptyMachine(inv: Inventory)
    requires Holds(inv, 0, 0, 0, 0, 0, 0, 0, 0)
    ensures Dispense(inv, 0) == NotEnoughMoney
  {
    HoldsTotals(inv, 0, 0, 0, 0, 0, 0, 0, 0);
  }

  /** A single 500 note cannot make up 300: there is money enough, but no
      note small enough. */
  lemma NoSmallNotes(inv: Inventory)
    requires Holds(inv, 0, 0, 0, 1, 0, 0, 0, 0)
    ensures Dispense(inv, 300) == CouldNotAssemble
  {
    HoldsTotals(inv, 0, 0, 0, 1, 0, 0, 0, 0);
    HoldsStacks(inv, 0, 0, 0, 1, 0, 0, 0, 0);
    var stacks := Available(inv);
    assert stacks == [Banknote(B500, 1)];
    assert Greedy(stacks[1..], 300).remaining == 300;
  }

  /** One 1000 and five 100 notes: 1500 in 6 notes, walked as 1000, 100. */
  lemma SmallStacks(inv: Inventory)
    requires Holds(inv, 0, 0, 1, 0, 0, 5, 0, 0)
    ensures TotalValue(inv) == 1500 && TotalCount(inv) == 6
    ensures Available(inv) == [Banknote(B1000, 1), Banknote(B100, 5)]
  {
    HoldsTotals(inv, 0, 0, 1, 0, 0, 5, 0, 0);
    HoldsStacks(inv, 0, 0, 1, 0, 0, 5, 0, 0);
  }

  /** 1400 from those stacks: the 1000 note and four of the five 100 notes. */
  lemma SmallGreedy(stacks: seq<Banknote>)
    requires stacks == [Banknote(B1000, 1), Banknote(B100, 5)]
    ensures Greedy(stacks, 1400) == Selection([Banknote(B1000, 1), Banknote(B100, 4)], 0)
  {
    assert ToIssue(stacks[1], 400) == 4;
    assert Greedy(stacks[1..], 400) == Selection([Banknote(B100, 4)], 0);
    assert ToIssue(stacks[0], 1400) == 1;
  }

  /** The whole withdrawal of 1400: the 1000 note and part of the 100 stack
      are handed out, and one 100 note stays behind. */
  lemma PartOfAStack(inv: Inventory)
    requires Holds(inv, 0, 0, 1, 0, 0, 5, 0, 0)
    ensures Dispense(inv, 1400).Issued?
    ensures Dispense(inv, 1400).plan == [Banknote(B1000, 1), Banknote(B100, 4)]
    ensures Holds(Dispense(inv, 1400).after, 0, 0, 0, 0, 0, 1, 0, 0)
  {
    SmallStacks(inv);
    SmallGreedy(Available(inv));
    var r := Dispense(inv, 1400);
    assert r.plan[1..][1..] == [];
    assert forall d :: CountOf(r.plan[1..], d) == (if d == B100 then 4 else 0);
    forall d: Denomination
      ensures d in r.after && r.after[d] == inv[d] - CountOf(r.plan, d)
    {
      IssuedCounts(inv, 1400, d);
    }
  }

  /** The greedy pass is not exhaustive: one 500 and three 200 notes could pay
      out 600 as three 200 notes, but the pass first takes the 500 note, then
      finds no note that fits the remaining 100, and refuses. */
  lemma GreedyMissesExactChange(inv: Inventory)
    requires Holds(inv, 0, 0, 0, 1, 3, 0, 0, 0)
    ensures PlanValue([Banknote(B200, 3)]) == 600 && 3 <= Holding(inv, B200)
    ensures Dispense(inv, 600) == CouldNotAssemble
  {
    HoldsTotals(inv, 0, 0, 0, 1, 3, 0, 0, 0);
    HoldsStacks(inv, 0, 0, 0, 1, 3, 0, 0, 0);
    var stacks := Available(inv);
    assert stacks == [Banknote(B500, 1), Banknote(B200, 3)];
    assert Greedy(stacks[1..][1..], 100).remaining == 100;
    assert Greedy(stacks[1..], 100).remaining == 100;
    assert ToIssue(stacks[0], 600) == 1;
  }

  /** A request for nothing from a stocked machine succeeds with an empty
      plan and leaves every count as it was. */
  lemma NothingRequested(inv: Inventory)
    requires Holds(inv, 0, 0, 0, 0, 0, 1, 0, 0)
    ensures Dispense(inv, 0).Issued? && Dispense(inv, 0).plan == []
    ensures Holds(Dispense(inv, 0).after, 0, 0, 0, 0, 0, 1, 0, 0)
  {
    HoldsTotals(inv, 0, 0, 0, 0, 0, 1, 0, 0);
    var r := Dispense(inv, 0);
    forall d: Denomination
      ensures d in r.after && r.after[d] == inv[d] - CountOf(r.plan, d)
    {
      IssuedCounts(inv, 0, d);
    }
  }
}
