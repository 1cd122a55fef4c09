/** Cash dispensing: greedy selection of notes, largest denomination first.

 `Dispense` is the functional description of a withdrawal; `GetMoney` is the
 step-by-step procedure (one pass over the stacks, stopping as soon as the
 amount is covered, then one pass decrementing the holding) and is proved to
 compute exactly what `Dispense` describes.
 */
module Dispenser {
  import opened Banknotes
  import opened Inventories

  /** The notes chosen so far and the amount still owed. */
  datatype Selection = Selection(plan: seq<Banknote>, remaining: int)

  /** What a withdrawal request comes to. On success the plan is handed out
      and `after` is the holding that is then saved. */
  datatype Outcome =
    | Issued(plan: seq<Banknote>, after: Inventory)
    | NotEnoughMoney
    | CouldNotAssemble

  /** How many notes of stack `b` are handed out while `owed` is still owed:
      as many as fit into the amount, but no more than the stack holds. */
  function ToIssue(b: Banknote, owed: int): (n: int)
    requires b.count > 0 && FaceValue(b.denomination) <= owed
    ensures 1 <= n <= b.count
    ensures FaceValue(b.denomination) <= n * FaceValue(b.denomination) <= owed
    ensures n == b.count || owed - n * FaceValue(b.denomination) < FaceValue(b.denomination)
  {
    var need := owed / FaceValue(b.denomination);
    DivisionBounds(b.denomination, owed, b.count);
    if need >= b.count then b.count else need
  }

  /** Floor division by a face value, and its monotonicity, for each of the
      eight face values. */
  lemma DivisionBounds(d: Denomination, owed: int, c: int)
    requires FaceValue(d) <= owed
    ensures var q := owed / FaceValue(d);
      && 1 <= q
      && q * FaceValue(d) <= owed < (q + 1) * FaceValue(d)
      && (c <= q ==> c * FaceValue(d) <= q * FaceValue(d))
      && (1 <= c ==> FaceValue(d) <= c * FaceValue(d))
  {
    match d
    case B10 =>
    case B50 =>
    case B100 =>
    case B200 =>
    case B500 =>
    case B1000 =>
    case B2000 =>
    case B5000 =>
  }

  /** Every stack holds at least one note: the stacks the selection walks. */
  predicate Stocked(stacks: seq<Banknote>)
  {
    forall i :: 0 <= i < |stacks| ==> stacks[i].count > 0
  }

  /** The greedy pass over `stacks` (largest denomination first): each stack
      whose face value does not exceed the amount still owed gives as many
      notes as fit, and the pass stops as soon as nothing is owed. What is
      chosen and what is still owed add up to the amount requested. */
  function Greedy(stacks: seq<Banknote>, owed: int): (s: Selection)
    requires Stocked(stacks)
    ensures PlanValue(s.plan) + s.remaining == owed
    ensures owed >= 0 ==> 0 <= s.remaining <= owed
    ensures owed <= 0 ==> s.plan == []
    decreases |stacks|
  {
    if stacks == [] then Selection([], owed)
    else
      var b := stacks[0];
      var f := FaceValue(b.denomination);
      if f <= owed then
        var n := ToIssue(b, owed);
        var e := Banknote(b.denomination, n);
        var left := owed - n * f;
        if left == 0 then
          Selection([e], 0)
        else
          var rest := Greedy(stacks[1..], left);
          var p := [e] + rest.plan;
          assert p[1..] == rest.plan;
          Selection(p, rest.remaining)
      else Greedy(stacks[1..], owed)
  }

  /** Over descending stacks the greedy plan is descending, and takes from
      each denomination at least one note and no more than its stack holds. */
  lemma {:induction false} GreedyPlanSound(stacks: seq<Banknote>, owed: int)
    requires Stocked(stacks) && Descends(stacks)
    ensures var p := Greedy(stacks, owed).plan;
      && Descends(p)
      && forall i :: 0 <= i < |p| ==> 1 <= p[i].count <= CountOf(stacks, p[i].denomination)
    decreases |stacks|
  {
    if stacks != [] {
      var b := stacks[0];
      var f := FaceValue(b.denomination);
      if f <= owed {
        var n := ToIssue(b, owed);
        var left := owed - n * f;
        if left != 0 {
          var rest := Greedy(stacks[1..], left);
          GreedyPlanSound(stacks[1..], left);
          LaterStacksSmaller(stacks, rest.plan);
          assert Greedy(stacks, owed).plan[1..] == rest.plan;
        }
      } else {
        GreedyPlanSound(stacks[1..], owed);
        LaterStacksSmaller(stacks, Greedy(stacks, owed).plan);
      }
    }
  }

  /** Notes drawn from the stacks after the first are of a smaller
      denomination than the first, and `CountOf` finds the same stack for them
      in the whole list as in its tail. */
  lemma LaterStacksSmaller(stacks: seq<Banknote>, p: seq<Banknote>)
    requires Descends(stacks) && |stacks| > 0
    requires forall i :: 0 <= i < |p| ==> CountOf(stacks[1..], p[i].denomination) != 0
    ensures forall i :: 0 <= i < |p| ==>
              && FaceValue(p[i].denomination) < FaceValue(stacks[0].denomination)
              && CountOf(stacks, p[i].denomination) == CountOf(stacks[1..], p[i].denomination)
  {
    forall i | 0 <= i < |p|
      ensures FaceValue(p[i].denomination) < FaceValue(stacks[0].denomination)
    {
      var j := CountOfFound(stacks[1..], p[i].denomination);
      assert stacks[j + 1] == stacks[1..][j];
    }
  }

  /** The greedy choice made for entry `i` of `plan` when `owed` was
      requested from `stacks`: the notes taken fit into what was still owed
      before them (so a denomination larger than that amount gives nothing),
      and afterwards either the whole stack has been taken or less than one
      more note of that denomination is owed. */
  predicate TakesMost(stacks: seq<Banknote>, owed: int, plan: seq<Banknote>, i: int)
    requires 0 <= i < |plan|
  {
    var before := owed - PlanValue(plan[..i]);
    var after := before - Sum(plan[i]);
    var f := FaceValue(plan[i].denomination);
    && f <= before
    && 0 <= after
    && (plan[i].count == CountOf(stacks, plan[i].denomination) || after < f)
  }

  /** Every entry of the greedy plan is a greedy choice. */
  lemma {:induction false} GreedyTakesMost(stacks: seq<Banknote>, owed: int)
    requires Stocked(stacks) && Descends(stacks)
    ensures forall i :: 0 <= i < |Greedy(stacks, owed).plan| ==>
              TakesMost(stacks, owed, Greedy(stacks, owed).plan, i)
    decreases |stacks|
  {
    var s := Greedy(stacks, owed);
    if stacks != [] {
      var b := stacks[0];
      var f := FaceValue(b.denomination);
      if f <= owed {
        var n := ToIssue(b, owed);
        var e := Banknote(b.denomination, n);
        var left := owed - n * f;
        assert Sum(e) == n * f;
        assert s.plan[0] == e && s.plan[..0] == [];
        assert TakesMost(stacks, owed, s.plan, 0);
        if left != 0 {
          var rest := Greedy(stacks[1..], left);
          GreedyTakesMost(stacks[1..], left);
          GreedyPlanSound(stacks[1..], left);
          LaterStacksSmaller(stacks, rest.plan);
          assert s.plan[1..] == rest.plan;
          TakesMostAfterFirst(stacks, owed, s.plan, left);
        }
      } else {
        GreedyTakesMost(stacks[1..], owed);
        GreedyPlanSound(stacks[1..], owed);
        LaterStacksSmaller(stacks, s.plan);
        TakesMostPassedOver(stacks, owed, s.plan);
      }
    }
  }

  /** Greedy choices made over the stacks after the first, from what is left
      once the plan's first entry is paid, are greedy choices over all the
      stacks, when the first stack holds none of their denominations. */
  lemma TakesMostAfterFirst(stacks: seq<Banknote>, owed: int, plan: seq<Banknote>, left: int)
    requires |stacks| > 0 && |plan| > 0 && left == owed - Sum(plan[0])
    requires forall i :: 0 <= i < |plan[1..]| ==> TakesMost(stacks[1..], left, plan[1..], i)
    requires forall i :: 0 <= i < |plan[1..]| ==>
               CountOf(stacks, plan[1..][i].denomination) == CountOf(stacks[1..], plan[1..][i].denomination)
    ensures forall i :: 1 <= i < |plan| ==> TakesMost(stacks, owed, plan, i)
  {
    forall i | 1 <= i < |plan|
      ensures TakesMost(stacks, owed, plan, i)
    {
      assert plan[i] == plan[1..][i - 1];
      assert plan[..i][0] == plan[0] && plan[..i][1..] == plan[1..][..i - 1];
      assert TakesMost(stacks[1..], left, plan[1..], i - 1);
    }
  }

  /** Greedy choices over the stacks after the first are greedy choices over
      all the stacks, when the first stack holds none of their denominations. */
  lemma TakesMostPassedOver(stacks: seq<Banknote>, owed: int, plan: seq<Banknote>)
    requires |stacks| > 0
    requires forall i :: 0 <= i < |plan| ==> TakesMost(stacks[1..], owed, plan, i)
    requires forall i :: 0 <= i < |plan| ==>
               CountOf(stacks, plan[i].denomination) == CountOf(stacks[1..], plan[i].denomination)
    ensures forall i :: 0 <= i < |plan| ==> TakesMost(stacks, owed, plan, i)
  {
    forall i | 0 <= i < |plan|
      ensures TakesMost(stacks, owed, plan, i)
    {
      assert TakesMost(stacks[1..], owed, plan, i);
    }
  }

  /** The notes the walk takes from stack `b` when it reaches the stack with
      `at` still owed: none when the face value exceeds `at`, and otherwise
      as many as fit into `at`, but no more than the stack holds. */
  function StackShare(b: Banknote, at: int): int
  {
    var f := FaceValue(b.denomination);
    if f <= at then (if at / f >= b.count then b.count else at / f) else 0
  }

  /** What is still owed when the walk reaches stack `k`, every stack before
      it having given its share: the walk read forwards, one index at a time. */
  function OwedAt(stacks: seq<Banknote>, owed: int, k: int): int
    requires 0 <= k <= |stacks|
    decreases k
  {
    if k == 0 then owed
    else
      var at := OwedAt(stacks, owed, k - 1);
      at - StackShare(stacks[k - 1], at) * FaceValue(stacks[k - 1].denomination)
  }

  /** Reading the walk from the second stack on, starting from what is owed
      after the first, gives the same amounts owed. */
  lemma {:induction false} OwedAtShift(stacks: seq<Banknote>, owed: int, k: int)
    requires 1 <= k <= |stacks|
    ensures OwedAt(stacks, owed, k) == OwedAt(stacks[1..], OwedAt(stacks, owed, 1), k - 1)
    decreases k
  {
    if k > 1 {
      OwedAtShift(stacks, owed, k - 1);
      assert stacks[1..][k - 2] == stacks[k - 1];
    }
  }

  /** The greedy plan takes from every stack exactly its share: a stack whose
      face value fits what is still owed when the walk reaches it is taken,
      with as many notes as fit (no more than it holds), and any other stack
      contributes nothing. */
  lemma {:induction false} GreedyTakesEveryFit(stacks: seq<Banknote>, owed: int, k: int)
    requires Stocked(stacks) && Descends(stacks)
    requires 0 <= k < |stacks|
    ensures CountOf(Greedy(stacks, owed).plan, stacks[k].denomination)
            == StackShare(stacks[k], OwedAt(stacks, owed, k))
    decreases |stacks|
  {
    var b := stacks[0];
    var f := FaceValue(b.denomination);
    SuffixStocked(stacks, 1);
    assert Descends(stacks[1..]) by {
      forall i, j | 0 <= i < j < |stacks[1..]|
        ensures FaceValue(stacks[1..][i].denomination) > FaceValue(stacks[1..][j].denomination)
      {
        assert stacks[1..][i] == stacks[i + 1] && stacks[1..][j] == stacks[j + 1];
      }
    }
    var left := owed;
    if f <= owed {
      var n := ToIssue(b, owed);
      left := owed - n * f;
      assert StackShare(b, owed) == n;
      var rest := Greedy(stacks[1..], left);
      assert Greedy(stacks, owed).plan == [Banknote(b.denomination, n)] + rest.plan;
    } else {
      GreedyPlanSound(stacks[1..], owed);
      LaterStacksSmaller(stacks, Greedy(stacks, owed).plan);
      if k == 0 && CountOf(Greedy(stacks, owed).plan, b.denomination) != 0 {
        var j := CountOfFound(Greedy(stacks, owed).plan, b.denomination);
        assert false;
      }
    }
    assert OwedAt(stacks, owed, 1) == left;
    if k > 0 {
      assert FaceValue(b.denomination) > FaceValue(stacks[k].denomination);
      assert stacks[1..][k - 1] == stacks[k];
      GreedyTakesEveryFit(stacks[1..], left, k - 1);
      OwedAtShift(stacks, owed, k);
    }
  }

  /** What the greedy pass leaves owed is what is still owed once the walk has
      passed every stack. */
  lemma {:induction false} GreedyRemainder(stacks: seq<Banknote>, owed: int)
    requires Stocked(stacks)
    ensures Greedy(stacks, owed).remaining == OwedAt(stacks, owed, |stacks|)
    decreases |stacks|
  {
    if stacks != [] {
      var b := stacks[0];
      var f := FaceValue(b.denomination);
      SuffixStocked(stacks, 1);
      var left := owed;
      if f <= owed {
        var n := ToIssue(b, owed);
        left := owed - n * f;
        assert StackShare(b, owed) == n;
      }
      assert OwedAt(stacks, owed, 1) == left;
      GreedyRemainder(stacks[1..], left);
      OwedAtShift(stacks, owed, |stacks|);
    }
  }

  /** A withdrawal of `sum` from the holding `inv`: refused when the machine
      holds no notes or too little money, refused when the greedy pass cannot
      make up the exact amount, and otherwise the greedy plan is handed out
      and taken out of the holding. */
  function Dispense(inv: Inventory, sum: int): (r: Outcome)
    ensures r.NotEnoughMoney? <==> TotalCount(inv) == 0 || TotalValue(inv) < sum
    ensures r.CouldNotAssemble? <==>
              !r.NotEnoughMoney? && Greedy(Available(inv), sum).remaining != 0
  {
    if TotalCount(inv) == 0 || TotalValue(inv) < sum then NotEnoughMoney
    else
      var s := Greedy(Available(inv), sum);
      if s.remaining != 0 then CouldNotAssemble
      else
        GreedyPlanSound(Available(inv), sum);
        PlanHeld(inv, s.plan);
        Issued(s.plan, Withdraw(inv, s.plan))
  }

  /** A withdrawal that is granted hands out the greedy plan, worth exactly
      the amount, largest denomination first, with each count between one
      and what is held; the holding keeps its denominations, loses exactly
      the plan's counts and the amount in money, and no count that was not
      negative becomes negative. */
  lemma DispenseIssued(inv: Inventory, sum: int)
    requires Dispense(inv, sum).Issued?
    ensures var r := Dispense(inv, sum);
      && r.plan == Greedy(Available(inv), sum).plan
      && PlanValue(r.plan) == sum && Descends(r.plan)
      && (forall i :: 0 <= i < |r.plan| ==>
            1 <= r.plan[i].count <= Holding(inv, r.plan[i].denomination))
      && r.after.Keys == inv.Keys
      && (forall d :: d in inv ==> r.after[d] == inv[d] - CountOf(r.plan, d))
      && TotalValue(r.after) == TotalValue(inv) - sum
      && (NonNegative(inv) ==> NonNegative(r.after))
  {
    var s := Greedy(Available(inv), sum);
    GreedyPlanSound(Available(inv), sum);
    PlanHeld(inv, s.plan);
    WithdrawPointwise(inv, s.plan);
    WithdrawValue(inv, s.plan);
  }

  /** A plan whose every entry is held lowers no count below zero, and only
      draws on denominations the holding has. */
  lemma PlanHeld(inv: Inventory, plan: seq<Banknote>)
    requires forall i :: 0 <= i < |plan| ==>
               1 <= plan[i].count <= Holding(inv, plan[i].denomination)
    ensures forall i :: 0 <= i < |plan| ==>
              plan[i].denomination in inv && plan[i].count <= inv[plan[i].denomination]
    ensures forall d :: d in inv && inv[d] >= 0 ==> inv[d] - CountOf(plan, d) >= 0
  {
    CountOfHeld(inv, plan);
  }

  /** The count a plan names for a denomination is one of its entries' counts. */
  lemma {:induction false} CountOfHeld(inv: Inventory, plan: seq<Banknote>)
    requires forall i :: 0 <= i < |plan| ==> plan[i].count <= Holding(inv, plan[i].denomination)
    ensures forall d :: CountOf(plan, d) == 0 || CountOf(plan, d) <= Holding(inv, d)
  {
    if plan != [] {
      CountOfHeld(inv, plan[1..]);
    }
  }

  /** The selection loop: walks the stacks in order, takes from each stack
      that fits as many notes as fit into what is still owed (never more than
      the stack holds), and stops as soon as nothing is owed. */
  method SelectNotes(stacks: seq<Banknote>, sum: int) returns (extradition: seq<Banknote>, owed: int)
    requires Stocked(stacks)
    ensures Selection(extradition, owed) == Greedy(stacks, sum)
  {
    extradition := [];
    owed := sum;
    var i := 0;
    while i < |stacks|
      invariant 0 <= i <= |stacks|
      invariant Pending(stacks, sum, i, extradition, owed)
    {
      var b := stacks[i];
      var face := FaceValue(b.denomination);
      if face <= owed {
        var need := owed / face;
        var toIssue := if need >= b.count then b.count else need;
        TakeStep(stacks, sum, i, extradition, owed);
        assert toIssue == ToIssue(b, owed);
        owed := owed - toIssue * face;
        extradition := extradition + [Banknote(b.denomination, toIssue)];
        if owed == 0 {
          assert extradition + [] == extradition;
          return;
        }
      } else {
        SkipStep(stacks, sum, i, extradition, owed);
      }
      i := i + 1;
    }
  }

  /** The selection loop has chosen `done` from the first `i` stacks with
      `owed` still owed: finishing the greedy pass from there gives the
      greedy pass over all the stacks. */
  predicate Pending(stacks: seq<Banknote>, sum: int, i: int, done: seq<Banknote>, owed: int)
    requires Stocked(stacks)
  {
    0 <= i <= |stacks| &&
    (SuffixStocked(stacks, i);
     var rest := Greedy(stacks[i..], owed);
     Greedy(stacks, sum) == Selection(done + rest.plan, rest.remaining))
  }

  /** A suffix of stocked stacks is stocked. */
  lemma SuffixStocked(stacks: seq<Banknote>, i: int)
    requires Stocked(stacks)
    requires 0 <= i <= |stacks|
    ensures Stocked(stacks[i..])
  {
  }

  /** A stack whose face value exceeds what is still owed is passed over,
      and the selection loop stays on the greedy pass. */
  lemma SkipStep(stacks: seq<Banknote>, sum: int, i: int, done: seq<Banknote>, owed: int)
    requires Stocked(stacks)
    requires Pending(stacks, sum, i, done, owed) && i < |stacks|
    requires owed < FaceValue(stacks[i].denomination)
    ensures Pending(stacks, sum, i + 1, done, owed)
  {
    assert stacks[i..][0] == stacks[i] && stacks[i..][1..] == stacks[i + 1..];
    SuffixStocked(stacks, i + 1);
  }

  /** A stack whose face value fits into what is still owed gives as many
      notes as the greedy pass takes from it, and the selection loop stays
      on the greedy pass. */
  lemma TakeStep(stacks: seq<Banknote>, sum: int, i: int, done: seq<Banknote>, owed: int)
    requires Stocked(stacks)
    requires Pending(stacks, sum, i, done, owed) && i < |stacks|
    requires FaceValue(stacks[i].denomination) <= owed
    ensures Pending(stacks, sum, i + 1,
                    done + [Banknote(stacks[i].denomination, ToIssue(stacks[i], owed))],
                    owed - ToIssue(stacks[i], owed) * FaceValue(stacks[i].denomination))
  {
    assert stacks[i..][0] == stacks[i] && stacks[i..][1..] == stacks[i + 1..];
    SuffixStocked(stacks, i + 1);
    var b := stacks[i];
    var f := FaceValue(b.denomination);
    var n := ToIssue(b, owed);
    var e := Banknote(b.denomination, n);
    var rest := Greedy(stacks[i + 1..], owed - n * f);
    assert done + ([e] + rest.plan) == (done + [e]) + rest.plan;
  }

  /** The decrement loop: takes the notes of each plan entry out of the
      holding, one entry after the other. */
  method TakeOut(banknotes: Inventory, extradition: seq<Banknote>) returns (after: Inventory)
    requires forall i :: 0 <= i < |extradition| ==> extradition[i].denomination in banknotes
    ensures after == Withdraw(banknotes, extradition)
  {
    after := banknotes;
    var j := 0;
    while j < |extradition|
      invariant 0 <= j <= |extradition|
      invariant after.Keys == banknotes.Keys
      invariant Withdraw(after, extradition[j..]) == Withdraw(banknotes, extradition)
    {
      var entry := extradition[j];
      assert extradition[j..][0] == entry && extradition[j..][1..] == extradition[j + 1..];
      after := after[entry.denomination := after[entry.denomination] - entry.count];
      j := j + 1;
    }
  }

  /** The withdrawal procedure. It refuses when the machine holds no notes or
      less money than requested; it then selects notes greedily, and if the
      amount was made up it takes the chosen notes out of the holding, and
      otherwise it leaves the holding as it was. */
  method GetMoney(banknotes: Inventory, sum: int) returns (ok: bool, outcome: Outcome, after: Inventory)
    ensures outcome == Dispense(banknotes, sum)
    ensures ok <==> outcome.Issued?
    ensures ok ==> PlanValue(outcome.plan) == sum && after == outcome.after
    ensures !ok ==> after == banknotes
  {
    if TotalCount(banknotes) == 0 || TotalValue(banknotes) < sum {
      return false, NotEnoughMoney, banknotes;
    }
    var extradition, owed := SelectNotes(Available(banknotes), sum);
    if owed == 0 {
      GreedyPlanSound(Available(banknotes), sum);
      PlanHeld(banknotes, extradition);
      after := TakeOut(banknotes, extradition);
      outcome := Issued(extradition, after);
      DispenseIssued(banknotes, sum);
      return true, outcome, after;
    }
    return false, CouldNotAssemble, banknotes;
  }

  /** Every face value is a multiple of ten, so an amount that is not can
      never be handed out. */
  lemma UnpayableAmountFails(inv: Inventory, sum: int)
    requires sum % 10 != 0
    ensures !Dispense(inv, sum).Issued?
  {
    var r := Dispense(inv, sum);
    if r.Issued? {
      DispenseIssued(inv, sum);
      PlanValueTens(r.plan);
    }
  }

  /** Remainders and quotients of an amount that is a multiple of ten, by
      each of the eight face values. */
  lemma RemainderFacts(d: Denomination, owed: int)
    requires owed % 10 == 0
    ensures owed - (owed / FaceValue(d)) * FaceValue(d) == owed % FaceValue(d)
    ensures (owed % FaceValue(d)) % 10 == 0
  {
    match d
    case B10 => RemainderBy10(owed);
    case B50 => RemainderBy50(owed);
    case B100 => RemainderBy100(owed);
    case B200 => RemainderBy200(owed);
    case B500 => RemainderBy500(owed);
    case B1000 => RemainderBy1000(owed);
    case B2000 => RemainderBy2000(owed);
    case B5000 => RemainderBy5000(owed);
  }

  /** The remainder facts for the face value 10. */
  lemma RemainderBy10(owed: int)
    requires owed % 10 == 0
    ensures owed - (owed / 10) * 10 == owed % 10
    ensures (owed % 10) % 10 == 0
  {
    var q, r, t := owed / 10, owed % 10, owed / 10;
    assert r == 10 * (t - 1 * q);
    TenTimes(t - 1 * q);
  }

  /** The remainder facts for the face value 50. */
  lemma RemainderBy50(owed: int)
    requires owed % 10 == 0
    ensures owed - (owed / 50) * 50 == owed % 50
    ensures (owed % 50) % 10 == 0
  {
    var q, r, t := owed / 50, owed % 50, owed / 10;
    assert r == 10 * (t - 5 * q);
    TenTimes(t - 5 * q);
  }

  /** The remainder facts for the face value 100. */
  lemma RemainderBy100(owed: int)
    requires owed % 10 == 0
    ensures owed - (owed / 100) * 100 == owed % 100
    ensures (owed % 100) % 10 == 0
  {
    var q, r, t := owed / 100, owed % 100, owed / 10;
    assert r == 10 * (t - 10 * q);
    TenTimes(t - 10 * q);
  }

  /** The remainder facts for the face value 200. */
  lemma RemainderBy200(owed: int)
    requires owed % 10 == 0
    ensures owed - (owed / 200) * 200 == owed % 200
    ensures (owed % 200) % 10 == 0
  {
    var q, r, t := owed / 200, owed % 200, owed / 10;
    assert r == 10 * (t - 20 * q);
    TenTimes(t - 20 * q);
  }

  /** The remainder facts for the face value 500. */
  lemma RemainderBy500(owed: int)
    requires owed % 10 == 0
    ensures owed - (owed / 500) * 500 == owed % 500
    ensures (owed % 500) % 10 == 0
  {
    var q, r, t := owed / 500, owed % 500, owed / 10;
    assert r == 10 * (t - 50 * q);
    TenTimes(t - 50 * q);
  }

  /** The remainder facts for the face value 1000. */
  lemma RemainderBy1000(owed: int)
    requires owed % 10 == 0
    ensures owed - (owed / 1000) * 1000 == owed % 1000
    ensures (owed % 1000) % 10 == 0
  {
    var q, r, t := owed / 1000, owed % 1000, owed / 10;
    assert r == 10 * (t - 100 * q);
    TenTimes(t - 100 * q);
  }

  /** The remainder facts for the face value 2000. */
  lemma RemainderBy2000(owed: int)
    requires owed % 10 == 0
    ensures owed - (owed / 2000) * 2000 == owed % 2000
    ensures (owed % 2000) % 10 == 0
  {
    var q, r, t := owed / 2000, owed % 2000, owed / 10;
    assert r == 10 * (t - 200 * q);
    TenTimes(t - 200 * q);
  }

  /** The remainder facts for the face value 5000. */
  lemma RemainderBy5000(owed: int)
    requires owed % 10 == 0
    ensures owed - (owed / 5000) * 5000 == owed % 5000
    ensures (owed % 5000) % 10 == 0
  {
    var q, r, t := owed / 5000, owed % 5000, owed / 10;
    assert r == 10 * (t - 500 * q);
    TenTimes(t - 500 * q);
  }

  /** Division by a face value is monotone. */
  lemma DivMonotone(d: Denomination, smaller: int, owed: int)
    requires 0 <= smaller <= owed
    ensures smaller / FaceValue(d) <= owed / FaceValue(d)
  {
    match d
    case B10 =>
    case B50 =>
    case B100 =>
    case B200 =>
    case B500 =>
    case B1000 =>
    case B2000 =>
    case B5000 =>
  }

  /** When each stack that fits holds enough notes to pay the whole amount in
      that denomination alone, the greedy pass makes up any multiple of ten. */
  lemma {:induction false} GreedyAmple(stacks: seq<Banknote>, owed: int)
    requires Stocked(stacks)
    requires owed >= 0 && owed % 10 == 0
    requires forall d :: FaceValue(d) <= owed ==> CountOf(stacks, d) >= owed / FaceValue(d)
    ensures Greedy(stacks, owed).remaining == 0
    decreases |stacks|
  {
    if stacks == [] {
      if owed != 0 {
        SmallestFaceValue();
        assert false;
      }
    } else {
      var b := stacks[0];
      var f := FaceValue(b.denomination);
      if f <= owed {
        var n := ToIssue(b, owed);
        assert CountOf(stacks, b.denomination) == b.count;
        RemainderFacts(b.denomination, owed);
        var left := owed - n * f;
        assert n == owed / f;
        if left != 0 {
          forall d | FaceValue(d) <= left
            ensures CountOf(stacks[1..], d) >= left / FaceValue(d)
          {
            assert d != b.denomination;
            DivMonotone(d, left, owed);
          }
          GreedyAmple(stacks[1..], left);
        }
      } else {
        forall d | FaceValue(d) <= owed
          ensures CountOf(stacks[1..], d) >= owed / FaceValue(d)
        {
          assert d != b.denomination;
        }
        GreedyAmple(stacks[1..], owed);
      }
    }
  }

  /** With no count negative, the holding of one denomination is a lower bound
      on the notes and (at its face value) on the money in the machine. */
  lemma {:induction false} HoldingBounds(inv: Inventory, ds: seq<Denomination>, d: Denomination)
    requires NonNegative(inv)
    requires d in ds
    ensures CountOver(inv, ds) >= Holding(inv, d)
    ensures ValueOver(inv, ds) >= FaceValue(d) * Holding(inv, d)
  {
    HoldingNonNegative(inv, ds);
    if ds[0] != d {
      HoldingBounds(inv, ds[1..], d);
    } else {
      HoldingNonNegative(inv, ds[1..]);
    }
  }

  /** The denominations are canonical: a machine that holds, of every face
      value not above the amount, enough notes to pay the whole amount in that
      face value alone, pays out every positive multiple of ten. */
  lemma AmpleStockSucceeds(inv: Inventory, sum: int)
    requires NonNegative(inv)
    requires sum > 0 && sum % 10 == 0
    requires forall d :: FaceValue(d) <= sum ==> Holding(inv, d) >= sum / FaceValue(d)
    ensures Dispense(inv, sum).Issued?
  {
    DescendingEnumeratesAll();
    assert FaceValue(B10) <= sum;
    HoldingBounds(inv, Descending, B10);
    assert 10 * Holding(inv, B10) >= sum;
    GreedyAmple(Available(inv), sum);
  }

  /** For a positive amount and a holding with no negative count, the check
      that the machine holds some notes adds nothing: the request is refused
      for want of money exactly when the money held falls short of it. */
  lemma RefusalIsShortfall(inv: Inventory, sum: int)
    requires NonNegative(inv)
    requires sum > 0
    ensures Dispense(inv, sum).NotEnoughMoney? <==> TotalValue(inv) < sum
  {
    ValueWithinCount(inv, Descending);
  }

  /** A negative amount is never handed out: it is refused for want of money
      when the machine holds no notes or less money than that amount (which
      takes a negative count), and otherwise it cannot be assembled, since no
      note fits it. */
  lemma NegativeAmountRefused(inv: Inventory, sum: int)
    requires sum < 0
    ensures TotalCount(inv) == 0 || TotalValue(inv) < sum ==> Dispense(inv, sum) == NotEnoughMoney
    ensures TotalCount(inv) != 0 && TotalValue(inv) >= sum ==> Dispense(inv, sum) == CouldNotAssemble
  {
  }

  /** A request for nothing from a machine that holds notes and no negative
      count succeeds with an empty plan and leaves the holding as it was; from
      a machine that holds no notes it is refused. */
  lemma ZeroAmountIssuesNothing(inv: Inventory)
    requires NonNegative(inv)
    ensures TotalCount(inv) != 0 ==> Dispense(inv, 0) == Issued([], inv)
    ensures TotalCount(inv) == 0 ==> Dispense(inv, 0) == NotEnoughMoney
  {
    ValueWithinCount(inv, Descending);
  }

}
