/** Denominations, banknote stacks and plans (sequences of stacks).

 The machine handles a closed set of eight face values. A stack pairs a
 denomination with a count of notes; a dispensation plan is a sequence of
 stacks, largest denomination first.
 */
module Banknotes {

  /** The closed enumeration of supported face values. */
  datatype Denomination = B10 | B50 | B100 | B200 | B500 | B1000 | B2000 | B5000

  /** The integer value that stands behind each member of the enumeration. */
  function FaceValue(d: Denomination): (v: int)
    ensures 10 <= v <= 5000
  {
    match d
    case B10 => 10
    case B50 => 50
    case B100 => 100
    case B200 => 200
    case B500 => 500
    case B1000 => 1000
    case B2000 => 2000
    case B5000 => 5000
  }

  /** Every denomination, smallest first: the order in which the enumeration
      lists its members. */
  const Ascending: seq<Denomination> := [B10, B50, B100, B200, B500, B1000, B2000, B5000]

  /** Every denomination, largest first: the order in which stacks are
      visited when notes are selected. */
  const Descending: seq<Denomination> := [B5000, B2000, B1000, B500, B200, B100, B50, B10]

  /** Face values strictly decrease along `ds`; in particular no denomination
      occurs twice. */
  predicate Decreasing(ds: seq<Denomination>)
  {
    forall i, j :: 0 <= i < j < |ds| ==> FaceValue(ds[i]) > FaceValue(ds[j])
  }

  /** The face values are pairwise distinct, so a face value names its
      denomination. */
  lemma FaceValueInjective(a: Denomination, b: Denomination)
    ensures FaceValue(a) == FaceValue(b) <==> a == b
  {
  }

  /** The face values are exactly the eight supported amounts. */
  lemma FaceValues(d: Denomination)
    ensures FaceValue(d) in {10, 50, 100, 200, 500, 1000, 2000, 5000}
  {
  }

  /** The smallest face value is ten. */
  lemma SmallestFaceValue()
    ensures FaceValue(B10) == 10
    ensures forall d :: FaceValue(B10) <= FaceValue(d)
  {
  }

  /** The descending enumeration lists every denomination, once, in strictly
      decreasing order of face value, and is the ascending one reversed. */
  lemma DescendingEnumeratesAll()
    ensures forall d: Denomination :: d in Descending
    ensures Decreasing(Descending)
    ensures |Descending| == |Ascending| == 8
    ensures forall i :: 0 <= i < 8 ==> Descending[i] == Ascending[7 - i]
  {
    forall d: Denomination
      ensures d in Descending
    {
      match d
      case B10 => assert Descending[7] == d;
      case B50 => assert Descending[6] == d;
      case B100 => assert Descending[5] == d;
      case B200 => assert Descending[4] == d;
      case B500 => assert Descending[3] == d;
      case B1000 => assert Descending[2] == d;
      case B2000 => assert Descending[1] == d;
      case B5000 => assert Descending[0] == d;
    }
  }

  /** A stack of `count` notes of one denomination. */
  datatype Banknote = Banknote(denomination: Denomination, count: int)

  /** The money a stack is worth: nothing or more for a count of no notes or
      more, and at least one note's worth for a count of one or more. */
  function Sum(b: Banknote): (v: int)
    ensures b.count >= 0 ==> v >= 0
    ensures b.count > 0 ==> v >= FaceValue(b.denomination)
  {
    PeelFactor(FaceValue(b.denomination), b.count);
    FaceValue(b.denomination) * b.count
  }

  /** Dividing a stack's worth by its face value gives the count back, with
      nothing left over; a stack of no notes or more is worth nothing or more. */
  lemma SumDivides(b: Banknote)
    ensures Sum(b) % FaceValue(b.denomination) == 0
    ensures Sum(b) / FaceValue(b.denomination) == b.count
    ensures b.count >= 0 ==> Sum(b) >= 0
  {
    MultipleDivides(b.denomination, b.count);
  }

  /** Multiplying by a face value and dividing by it again is the identity. */
  lemma MultipleDivides(d: Denomination, c: int)
    ensures (FaceValue(d) * c) % FaceValue(d) == 0
    ensures (FaceValue(d) * c) / FaceValue(d) == c
    ensures c >= 0 ==> FaceValue(d) * c >= 0
  {
    ExactQuotient(FaceValue(d), c);
  }

  /** Floor division undoes multiplication by a positive factor. */
  lemma ExactQuotient(f: int, c: int)
    requires f > 0
    ensures (f * c) % f == 0 && (f * c) / f == c
    ensures c >= 0 ==> f * c >= 0
  {
    var q, r := (f * c) / f, (f * c) % f;
    assert f * (c - q) == r;
    if c - q >= 1 {
      PeelFactor(f, c - q);
      assert false;
    } else if c - q <= -1 {
      PeelFactor(f, q - c);
      assert false;
    }
  }

  /** One factor peeled off a product. */
  lemma PeelFactor(f: int, k: int)
    ensures f * k == f + f * (k - 1)
  {
  }

  /** The money a plan (or a list of stacks) is worth. */
  function PlanValue(p: seq<Banknote>): int
  {
    if p == [] then 0 else Sum(p[0]) + PlanValue(p[1..])
  }

  /** Every plan is worth a multiple of ten, and a plan of non-negative counts
      is worth nothing or more. */
  lemma {:induction false} PlanValueTens(p: seq<Banknote>)
    ensures PlanValue(p) % 10 == 0
    ensures (forall i :: 0 <= i < |p| ==> p[i].count >= 0) ==> PlanValue(p) >= 0
  {
    if p != [] {
      TenDividesSum(p[0]);
      SumDivides(p[0]);
      PlanValueTens(p[1..]);
      TensAdd(Sum(p[0]), PlanValue(p[1..]));
      assert forall i :: 1 <= i < |p| ==> p[1..][i - 1] == p[i];
    }
  }

  /** Every stack is worth a multiple of ten, since every face value is. */
  lemma TenDividesSum(b: Banknote)
    ensures Sum(b) % 10 == 0
  {
    var c := b.count;
    match b.denomination
    case B10 => TenTimes(c);
    case B50 => TenTimes(5 * c);
    case B100 => TenTimes(10 * c);
    case B200 => TenTimes(20 * c);
    case B500 => TenTimes(50 * c);
    case B1000 => TenTimes(100 * c);
    case B2000 => TenTimes(200 * c);
    case B5000 => TenTimes(500 * c);
  }

  /** Ten times anything is a multiple of ten. */
  lemma TenTimes(m: int)
    ensures (10 * m) % 10 == 0
  {
  }

  /** Multiples of ten add up to a multiple of ten. */
  lemma TensAdd(a: int, b: int)
    requires a % 10 == 0 && b % 10 == 0
    ensures (a + b) % 10 == 0
  {
    assert a + b == 10 * (a / 10 + b / 10);
  }

  /** The count of the first stack of denomination `d` in `p`, or 0 when
      there is none. */
  function CountOf(p: seq<Banknote>, d: Denomination): int
  {
    if p == [] then 0
    else if p[0].denomination == d then p[0].count
    else CountOf(p[1..], d)
  }

  /** A non-zero `CountOf` comes from a stack of that denomination in the list. */
  lemma {:induction false} CountOfFound(p: seq<Banknote>, d: Denomination) returns (j: int)
    requires CountOf(p, d) != 0
    ensures 0 <= j < |p| && p[j].denomination == d && p[j].count == CountOf(p, d)
  {
    if p[0].denomination == d {
      j := 0;
    } else {
      var k := CountOfFound(p[1..], d);
      j := k + 1;
    }
  }

  /** Denominations strictly decrease along the stacks `p`. */
  predicate Descends(p: seq<Banknote>)
  {
    forall i, j :: 0 <= i < j < |p| ==> FaceValue(p[i].denomination) > FaceValue(p[j].denomination)
  }

  /** In a descending list, each stack is the one `CountOf` finds for its
      denomination. */
  lemma {:induction false} CountOfDescends(p: seq<Banknote>, i: int)
    requires Descends(p)
    requires 0 <= i < |p|
    ensures CountOf(p, p[i].denomination) == p[i].count
  {
    if i > 0 {
      assert FaceValue(p[0].denomination) > FaceValue(p[i].denomination);
      assert p[1..][i - 1] == p[i];
      CountOfDescends(p[1..], i - 1);
    }
  }
}
