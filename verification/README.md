# ATM cash dispenser — a Dafny model

This project models the withdrawal routine of a console cash machine (ATM),
`Data.GetMoney` in `ATM/Program.cs`. It covers the closed set of eight face
values, the `Banknote` stack (a denomination paired with a count) and its worth
`Sum`.

A withdrawal works in four steps:
- The machine refuses when it holds no notes, or when it holds less money than
  requested ("not enough money").
- It walks the non-empty stacks from the largest denomination down. From each
  stack whose face value does not exceed the amount still owed, it takes as
  many notes as fit into that amount, but no more than the stack holds. It
  stops as soon as nothing is owed.
- If the amount was made up exactly, it takes the chosen notes out of the
  holding.
- Otherwise it refuses ("could not assemble") and leaves the holding as it
  was.

The model is organised in four modules:
- `Banknotes` (`banknotes.dfy`): the `Denomination` enumeration and its
  `FaceValue`; the `Banknote` stack and its `Sum`; plans as sequences of
  stacks, with `PlanValue` and `CountOf`.
- `Inventories` (`inventory.dfy`): the holding as a map from denomination to
  count. It covers the totals the refusal check uses, the ordered non-empty
  stacks (`Available`), and the decrement of the holding by a plan
  (`Withdraw`). It also has the fresh random stock, with the random draws
  passed in as a parameter.
- `Dispenser` (`dispenser.dfy`): `Greedy`, the pure recursive description of
  the selection pass, and `Dispense`, the whole withdrawal as a function. Also
  `GetMoney`, the step-by-step procedure with its two loops (`SelectNotes`,
  `TakeOut`), which is proved to compute exactly what `Dispense` describes.
- `Scenarios` (`scenarios.dfy`): worked withdrawals on concrete holdings. One
  of them shows an amount the greedy pass refuses although the notes to make
  it up are present.

Counts are unbounded `int`s, as the source's `int Count` is signed. That no
withdrawal drives a count below zero is proved, not assumed. The requested
amount is any `int`, as in `GetMoney`'s signature; the positivity check lives
in the console loop, which is not part of this model. So the model also
states what the routine does for zero and negative amounts:
- Zero, from a machine that holds notes and no negative count, succeeds with
  an empty plan and leaves the holding as it was (`ZeroAmountIssuesNothing`).
- A negative amount is never handed out. It "could not assemble" when the
  machine holds notes and at least that much money; otherwise, as for an
  empty machine, it is refused for want of money (`NegativeAmountRefused`).

## Model

| member | source | states |
|---|---|---|
| Banknotes.FaceValue | ATM/Program.cs:37-47 | every face value lies between 10 and 5000 |
| Banknotes.FaceValues | ATM/Program.cs:37-47 | the face values are exactly the eight supported amounts 10, 50, 100, 200, 500, 1000, 2000 and 5000 |
| Banknotes.FaceValueInjective | ATM/Program.cs:37-47 | two denominations have the same face value only if they are the same denomination |
| Banknotes.SmallestFaceValue | ATM/Program.cs:39 | ten is the smallest face value |
| Banknotes.DescendingEnumeratesAll | ATM/Program.cs:37-47 | the largest-first order lists every denomination once, with strictly decreasing face values, and is the enumeration's order reversed |
| Banknotes.Sum | ATM/Program.cs:144 | a stack of no notes or more is worth nothing or more, and a stack of at least one note is worth at least one note's face value |
| Banknotes.SumDivides | ATM/Program.cs:144 | a stack's worth divided by its face value gives back its count with nothing left over, and a stack of non-negative count is worth nothing or more |
| Banknotes.TenDividesSum | ATM/Program.cs:144 | every stack is worth a multiple of ten, whatever its count |
| Banknotes.PlanValueTens | ATM/Program.cs:144 | every list of stacks is worth a multiple of ten, and is worth nothing or more when no count is negative |
| Banknotes.CountOfFound | ATM/Program.cs:118 | a non-zero count looked up for a denomination comes from a stack of that denomination with that count |
| Banknotes.CountOfDescends | ATM/Program.cs:118 | in a strictly descending list, the lookup by denomination finds each stack's own count |
| Inventories.StacksOverStocked | ATM/Program.cs:102 | every stack kept from a list of denominations holds at least one note and is of a listed denomination |
| Inventories.StacksOverCounts | ATM/Program.cs:102 | the stack kept for a listed denomination carries its count when that count is positive, and no stack is kept for it otherwise |
| Inventories.StacksOverDescends | ATM/Program.cs:102 | the stacks kept from a list of strictly decreasing denominations are strictly decreasing too |
| Inventories.Available | ATM/Program.cs:102 | the stacks the selection walks all hold at least one note; they are exactly the denominations held with a positive count; and they run strictly from the largest denomination down |
| Inventories.ValueExpanded | ATM/Program.cs:95 | the money held is the sum over the eight face values of face value times count |
| Inventories.TotalValue | ATM/Program.cs:95 | with no count negative, the money held is nothing or more and at most 5000 per note held |
| Inventories.TotalCount | ATM/Program.cs:95 | with no count negative, the notes held number none or more |
| Inventories.HoldingNonNegative | ATM/Program.cs:95 | with no count negative, the notes and the money held in any list of denominations are not negative |
| Inventories.ValueWithinCount | ATM/Program.cs:95 | with no count negative, the money held in any list of denominations is between zero and 5000 per note |
| Inventories.CountExpanded | ATM/Program.cs:95 | the notes held are the eight counts added up |
| Inventories.AvailableExpanded | ATM/Program.cs:102 | the stacks walked are the non-empty ones among 5000, 2000, 1000, 500, 200, 100, 50 and 10, in that order |
| Inventories.Debit | ATM/Program.cs:118 | taking out one plan entry keeps the same denominations, lowers that entry's count by the entry's count, and leaves every other count as it was |
| Inventories.Withdraw | ATM/Program.cs:117-118 | taking a plan out of the holding keeps the same set of denominations |
| Inventories.WithdrawPointwise | ATM/Program.cs:117-118 | taking out a plan of distinct denominations lowers each count by exactly the plan's count for it and leaves every other count alone |
| Inventories.ValueOverUpdate | ATM/Program.cs:118 | changing one count changes the money held by that change times the face value |
| Inventories.DebitValue | ATM/Program.cs:118 | taking one plan entry out lowers the money held by that entry's worth |
| Inventories.WithdrawValue | ATM/Program.cs:117-118 | taking out a plan lowers the money held by exactly the plan's worth |
| Inventories.FreshInventory | ATM/Program.cs:61-64 | a fresh holding has every denomination, each count taken from the draw made for it in the enumeration's order |
| Inventories.FreshStock | ATM/Program.cs:61-64 | when each draw lies in [1, 49], every denomination holds between 1 and 49 notes, so the fresh machine holds at least 8 notes and 8860 in money |
| Inventories.FreshBounds | ATM/Program.cs:63-64 | when every listed denomination holds a note, the machine holds at least one note and one face value's worth of each |
| Dispenser.ToIssue | ATM/Program.cs:104-108 | the notes taken from a stack that fits number at least one and at most the stack's count, are worth no more than what is owed, and are either the whole stack or leave less than one note's worth owed |
| Dispenser.DivisionBounds | ATM/Program.cs:106 | proof helper for the floor division: when the face value fits, the quotient of the amount by it is at least one and brackets the amount between quotient and quotient plus one notes |
| Dispenser.Greedy | ATM/Program.cs:102-113 | the notes chosen and the amount still owed add up to the amount requested; for a non-negative amount what is still owed stays between zero and the amount; nothing is chosen for an amount of zero or less |
| Dispenser.GreedyPlanSound | ATM/Program.cs:102-109 | over descending stacks the plan is strictly descending, and takes from each denomination at least one note and no more than its stack holds |
| Dispenser.LaterStacksSmaller | ATM/Program.cs:102 | notes drawn from the later stacks have a smaller denomination than the first stack, and are looked up the same way with or without it |
| Dispenser.GreedyTakesMost | ATM/Program.cs:104-108 | every plan entry fits into what was still owed before it (a larger denomination contributes nothing), never overshoots, and takes the whole stack or leaves less than one note of it owed |
| Dispenser.GreedyTakesEveryFit | ATM/Program.cs:102-109 | over descending stacks, the greedy plan takes from every stack exactly its share: when the stack's face value fits what is still owed as the walk reaches it, as many notes as fit but no more than the stack holds, and none otherwise; what is owed at each stack is the amount less the shares of the stacks before it |
| Dispenser.GreedyRemainder | ATM/Program.cs:102-113 | what the greedy pass leaves owed is the amount less the shares of all the stacks |
| Dispenser.Dispense | ATM/Program.cs:93-126 | a withdrawal is refused for want of money exactly when no notes or too little money is held, and fails to assemble exactly when the money suffices but the greedy pass leaves a remainder; in every other case notes are issued |
| Dispenser.DispenseIssued | ATM/Program.cs:100-122 | an issued plan is the greedy plan, worth exactly the amount and strictly descending, with each count between one and what is held; the holding keeps its denominations, loses exactly the plan's count of each, loses the amount in money, and keeps every count non-negative |
| Dispenser.PlanHeld | ATM/Program.cs:117-118 | a plan within the holding names only held denominations and lowers no non-negative count below zero |
| Dispenser.CountOfHeld | ATM/Program.cs:118 | when every plan entry is within the holding, so is the count the plan names for each denomination |
| Dispenser.SelectNotes | ATM/Program.cs:100-113 | the selection loop, with its early exit, ends with exactly the greedy plan and the greedy remainder |
| Dispenser.SkipStep | ATM/Program.cs:104 | passing over a stack whose face value exceeds what is owed keeps the selection loop on the greedy pass |
| Dispenser.TakeStep | ATM/Program.cs:104-109 | taking the notes that fit from a stack keeps the selection loop on the greedy pass |
| Dispenser.SuffixStocked | ATM/Program.cs:102 | a tail of stocked stacks is stocked |
| Dispenser.TakeOut | ATM/Program.cs:117-118 | the decrement loop leaves the holding that taking out the plan describes |
| Dispenser.GetMoney | ATM/Program.cs:93-126 | the procedure's outcome is the withdrawal `Dispense` describes; it reports success exactly when notes are issued, the plan is then worth the amount and the holding is the decremented one, and on refusal the holding is returned unchanged |
| Dispenser.UnpayableAmountFails | ATM/Program.cs:104-115 | an amount that is not a multiple of ten is never handed out |
| Dispenser.RemainderFacts | ATM/Program.cs:106-108 | proof helper for the floor division: subtracting the notes that fit leaves the remainder of the amount by the face value, and that remainder of a multiple of ten is again a multiple of ten |
| Dispenser.DivMonotone | ATM/Program.cs:106 | proof helper for the floor division: a smaller amount needs no more notes of any face value |
| Dispenser.GreedyAmple | ATM/Program.cs:102-113 | when every stack that fits could pay the whole amount alone, the greedy pass leaves nothing owed on any multiple of ten |
| Dispenser.HoldingBounds | ATM/Program.cs:95 | with no count negative, one denomination's holding bounds the notes from below, and at its face value also the money held |
| Dispenser.AmpleStockSucceeds | ATM/Program.cs:93-126 | a machine with no negative count holding, of every face value not above a positive multiple of ten, enough notes to pay it alone always hands that amount out |
| Dispenser.RefusalIsShortfall | ATM/Program.cs:95 | for a positive amount and no negative count, the refusal for want of money happens exactly when the money held is less than the amount |
| Dispenser.NegativeAmountRefused | ATM/Program.cs:95-125 | a negative amount is refused for want of money when no notes or less money than the amount is held, and otherwise could not be assembled; it is never handed out |
| Dispenser.ZeroAmountIssuesNothing | ATM/Program.cs:95-122 | with no count negative, a request for nothing succeeds with an empty plan and the holding unchanged when notes are held, and is refused for want of money when none are |
| Scenarios.HoldsTotals | ATM/Program.cs:95 | a holding of all eight denominations with given counts holds the sum of each count times its face value in money, and the counts added up in notes |
| Scenarios.HoldsStacks | ATM/Program.cs:102 | the stacks walked in such a holding are those of its positive counts, from 5000 down to 10 |
| Scenarios.MixedStacks | ATM/Program.cs:95-102 | one 5000, two 1000, one 500 and three 100 notes are 7800 in 7 notes, walked as 5000, 1000, 500, 100 |
| Scenarios.MixedGreedy | ATM/Program.cs:102-113 | 6800 from those stacks is one 5000, one 1000, one 500 and three 100 notes, with nothing left owed |
| Scenarios.MixedPlanCounts | ATM/Program.cs:118 | that plan takes one 5000, one 1000, one 500 and three 100 notes and nothing of the other denominations |
| Scenarios.MixedWithdrawal | ATM/Program.cs:93-126 | 6800 from that holding is handed out as that plan and leaves a single 1000 note |
| Scenarios.ShortOfMoney | ATM/Program.cs:95-99 | three 100 notes cannot pay out 500: not enough money |
| Scenarios.EmptyMachine | ATM/Program.cs:95-99 | an empty machine refuses even a request for nothing |
| Scenarios.NoSmallNotes | ATM/Program.cs:102-125 | a single 500 note cannot make up 300 although the money suffices: could not assemble |
| Scenarios.SmallStacks | ATM/Program.cs:95-102 | one 1000 and five 100 notes are 1500 in 6 notes, walked as 1000, 100 |
| Scenarios.SmallGreedy | ATM/Program.cs:102-113 | 1400 from those stacks is one 1000 and four 100 notes |
| Scenarios.PartOfAStack | ATM/Program.cs:93-126 | 1400 from that holding is handed out as one 1000 and four 100 notes and leaves one 100 note |
| Scenarios.GreedyMissesExactChange | ATM/Program.cs:102-125 | three 200 notes are worth 600, yet 600 from one 500 and three 200 notes could not be assembled, because the 500 note is taken first |
| Scenarios.NothingRequested | ATM/Program.cs:102-122 | a request for nothing from a stocked machine succeeds with an empty plan and leaves the holding as it was |

## Left out

- Loading and saving the holding as JSON (ATM/Program.cs:53-57, 75-79, and the `Save()` call at 119) is file I/O through a foreign library. The model ends with the decremented holding that would be saved.
- The console loop in `Main` (ATM/Program.cs:9-26) is input and output. Its check that the amount is positive is not modelled; `GetMoney` accepts any `int`, and so does the model.
- `PrintState` (ATM/Program.cs:83-86) and the result messages (ATM/Program.cs:97, 121, 124) are output text only. The outcome names which message is given; the text itself is not modelled.
- The random counts of a fresh machine (ATM/Program.cs:62-64) come from `System.Random`. `FreshInventory` takes the eight draws as a parameter, and `FreshStock` states what follows when each draw lies in the range `Next(1, 50)` yields.
- The `Banknotes == null` test (ATM/Program.cs:58, 95) cannot succeed once the constructor has run, since the constructor always fills the list. The holding is therefore never absent in the model.
- The holding is a map, so each denomination appears at most once. The source's list loaded from a file could repeat a denomination. Then the selection would walk both stacks, and the decrement at ATM/Program.cs:118 would take every plan entry from the first of them. This hazard is not modelled.
- Dispenser.Dispense: does not model the 32-bit `int` arithmetic of the source. The totals at ATM/Program.cs:95 (checked LINQ sums that throw on overflow), `Banknote.Sum` and `toIssue * denomination` are computed on unbounded integers.
- Dispenser.GetMoney: the same; it does not model 32-bit overflow.
- `Main`'s positive-amount check means the driver never calls the routine with zero or a negative amount. A separate "invalid request" failure for those amounts is therefore not part of the routine, and the model follows the code: zero succeeds with an empty plan from a machine that holds notes and no negative count, and a negative amount could not be assembled unless the refusal at ATM/Program.cs:95 comes first (no notes held, or less money than the amount).
- `GetMoney` also refuses when the machine holds no notes at all, not only when the money falls short. `Dispense` keeps that test as written. `RefusalIsShortfall` shows it changes nothing for a positive amount and non-negative counts.
