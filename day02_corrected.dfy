/**
 * Part one of day 2 as evidently intended: the sum, over the ranges, of the
 * ids in the range whose digits are one block written exactly twice.
 *
 * As written, part one enumerates prefixes with a single shifter 10^h
 * chosen from the first even digit count of the range. A range that spans
 * two even digit counts (10-9999, say) then gets numbers such as
 * 110 = 10·10 + 10, which is not a block written twice, and misses ids such
 * as 1010, since every number it adds there is 11·p. The corrected version first cuts every range at the powers of
 * ten, so that each piece holds numbers of a single digit count, and sums
 * each piece as the original does.
 */
module Day02Corrected {
  import opened Decimal
  import opened Day02

  /** An id whose digits are one block (without a leading zero) written exactly twice. */
  ghost predicate IsDoubledId(x: nat) {
    exists block: nat :: block >= 1 && Repeated(block, 2) == x
  }

  /** The doubled ids of a range. */
  ghost function DoubledIn(r: IdRange): set<nat> {
    set x: nat | r.first <= x <= r.last && IsDoubledId(x)
  }

  lemma RepeatedTwice(b: nat)
    ensures Repeated(b, 2) == Twice(b, DigitCount(b))
  {
    assert Repeated(b, 1) == b;
  }

  // ---------------------------------------------------------------------
  // The discrepancy, on the range 10-1000

  /** Part one as written adds 110 for the range 10-1000, and 110 is no block written twice. */
  lemma Part1AddsUndoubledId()
    ensures 110 in RangeCandidates(IdRange(10, 1000))
    ensures !IsDoubledId(110)
  {
    var r := IdRange(10, 1000);
    assert DigitCount(10) == 2 && DigitCount(1000) == 4 && DigitCount(110) == 3;
    assert HalfDigits(r) == 1 && FirstPrefix(r) == 1;
    assert Twice(10, 1) == 110;
    CandidatesContain(10, 1000, 1, 1, 10);
    DoubledDigitCount(110);
  }

  // ---------------------------------------------------------------------
  // Facts about the candidates of one range

  lemma TwiceMonotone(p: nat, q: nat, h: nat)
    requires p < q
    ensures Twice(p, h) < Twice(q, h)
  {
    assert q * Pow10(h) == p * Pow10(h) + (q - p) * Pow10(h);
  }

  /** A prefix from p on whose doubled number lies in [rangeStart, evenEnd] is among the candidates. */
  lemma {:induction false} CandidatesContain(rangeStart: nat, evenEnd: nat, h: nat, p: nat, q: nat)
    requires p <= q && rangeStart <= Twice(q, h) <= evenEnd
    ensures Twice(q, h) in Candidates(rangeStart, evenEnd, h, p)
    decreases q - p
  {
    if p < q {
      TwiceMonotone(p, q, h);
    }
    CandidatesStep(rangeStart, evenEnd, h, p);
    if p < q {
      CandidatesContain(rangeStart, evenEnd, h, p + 1, q);
    }
  }

  predicate StrictlyIncreasing(xs: seq<nat>) {
    forall i, j :: 0 <= i < j < |xs| ==> xs[i] < xs[j]
  }

  /** The candidates come in increasing order, each once. */
  lemma {:induction false} CandidatesIncreasing(rangeStart: nat, evenEnd: nat, h: nat, p: nat)
    ensures StrictlyIncreasing(Candidates(rangeStart, evenEnd, h, p))
    decreases evenEnd + 1 - p
  {
    var xs := Candidates(rangeStart, evenEnd, h, p);
    CandidatesStep(rangeStart, evenEnd, h, p);
    if Twice(p, h) <= evenEnd {
      var rest := Candidates(rangeStart, evenEnd, h, p + 1);
      CandidatesIncreasing(rangeStart, evenEnd, h, p + 1);
      if Twice(p, h) >= rangeStart {
        assert xs == [Twice(p, h)] + rest;
        forall j | 0 <= j < |rest| ensures Twice(p, h) < rest[j] {
          CandidatesAreTwice(rangeStart, evenEnd, h, p + 1, j);
          var q :| q >= p + 1 && rest[j] == Twice(q, h);
          TwiceMonotone(p, q, h);
        }
      } else {
        assert xs == rest;
      }
    }
  }

  /** The first prefix part one tries is at least 1. */
  lemma FirstPrefixPositive(r: IdRange)
    ensures FirstPrefix(r) >= 1
  {
    var s := EvenStart(r.first);
    var d := DigitCount(s);
    var h := HalfDigits(r);
    Pow10Monotone(h, d - 1);
    QuotientAtLeast(s, 1, Pow10(h));
  }

  lemma MulMonotone(x: nat, y: nat, p: nat)
    requires x <= y
    ensures x * p <= y * p
  {
    assert y * p == x * p + (y - x) * p;
  }

  lemma QuotientAtLeast(a: nat, c: nat, p: nat)
    requires p >= 1 && a >= c * p
    ensures a / p >= c
  {
    var q, r := a / p, a % p;
    assert a == q * p + r && r < p;
    assert (q + 1) * p == q * p + p;
    if q < c {
      MulMonotone(q + 1, c, p);
    }
  }

  lemma BelowSquare(q: nat, p: nat, x: nat)
    requires q * p <= x < p * p
    ensures q < p
  {
    if q >= p {
      MulMonotone(p, q, p);
    }
  }

  /** A block below the first prefix gives a doubled number below the range start. */
  lemma TwiceBelowStart(b: nat, p: nat, first: nat)
    requires p >= 1 && b < p && b < first / p
    ensures b * p + b < first
  {
    var p0, r := first / p, first % p;
    assert first == p0 * p + r;
    MulMonotone(b + 1, p0, p);
    assert (b + 1) * p == b * p + p;
  }

  /** The least number with `digits` digits. */
  function Lowest(digits: nat): nat {
    if digits <= 1 then 0 else Pow10(digits - 1)
  }

  lemma DigitCountBounds(x: nat, digits: nat)
    requires digits >= 1
    ensures DigitCount(x) == digits <==> Lowest(digits) <= x < Pow10(digits)
  {
    if Lowest(digits) <= x < Pow10(digits) {
      if x >= 1 {
        DigitCountUnique(x, digits);
      } else {
        assert digits == 1;
      }
    }
  }

  /**
   * On a range whose numbers all have the same digit count, part one as
   * written adds exactly the doubled ids of the range.
   */
  lemma SingleLength(r: IdRange, digits: nat, x: nat)
    requires digits >= 1 && Lowest(digits) <= r.first && r.last < Pow10(digits)
    ensures x in RangeCandidates(r) <==> r.first <= x <= r.last && IsDoubledId(x)
  {
    var xs := RangeCandidates(r);
    var h, p0 := HalfDigits(r), FirstPrefix(r);
    if x in xs {
      var i :| 0 <= i < |xs| && xs[i] == x;
      CandidatesAreTwice(r.first, EvenEnd(r.last), h, p0, i);
    }
    if r.first <= r.last {
      DigitCountBounds(r.first, digits);
      DigitCountBounds(r.last, digits);
      if digits % 2 == 1 {
        SingleLengthOdd(r, digits, x);
      } else {
        SingleLengthEven(r, digits, x);
      }
    }
  }

  lemma SingleLengthOdd(r: IdRange, digits: nat, x: nat)
    requires digits >= 1 && digits % 2 == 1
    requires DigitCount(r.first) == digits && DigitCount(r.last) == digits && r.first <= r.last
    ensures x !in RangeCandidates(r)
    ensures !(r.first <= x <= r.last && IsDoubledId(x))
  {
    OddNotDoubled(r, digits, x);
    OddNoCandidates(r, digits, x);
  }

  /** No doubled id has an odd digit count. */
  lemma OddNotDoubled(r: IdRange, digits: nat, x: nat)
    requires digits % 2 == 1 && DigitCount(r.first) == digits && DigitCount(r.last) == digits
    ensures !(r.first <= x <= r.last && IsDoubledId(x))
  {
    if r.first <= x <= r.last && IsDoubledId(x) {
      DigitCountMonotone(r.first, x);
      DigitCountMonotone(x, r.last);
      DoubledDigitCount(x);
    }
  }

  /** Part one as written adds nothing on a range whose numbers all have the same odd digit count. */
  lemma OddNoCandidates(r: IdRange, digits: nat, x: nat)
    requires digits % 2 == 1 && DigitCount(r.first) == digits && DigitCount(r.last) == digits
    ensures x !in RangeCandidates(r)
  {
    var xs := RangeCandidates(r);
    var e := EvenEnd(r.last);
    OddEvenEnd(r.first, r.last, digits);
    if x in xs {
      var i :| 0 <= i < |xs| && xs[i] == x;
      CandidatesAreTwice(r.first, e, HalfDigits(r), FirstPrefix(r), i);
      CandidatesPositive(r);
      assert false;
    }
  }

  /** Below a number with an odd digit count, `even_end` falls under any number of that digit count, or is 0. */
  lemma OddEvenEnd(first: nat, last: nat, digits: nat)
    requires digits % 2 == 1 && DigitCount(first) == digits && DigitCount(last) == digits
    ensures EvenEnd(last) < first || EvenEnd(last) == 0
  {
    assert EvenEnd(last) == Pow10(digits - 1) - 1;
  }

  /** A doubled id has an even digit count: twice that of its block. */
  lemma DoubledDigitCount(x: nat)
    ensures IsDoubledId(x) ==> DigitCount(x) % 2 == 0
  {
    if IsDoubledId(x) {
      var b :| b >= 1 && Repeated(b, 2) == x;
      DigitCountOfRepeated(b, 2);
      var d := DigitCount(b);
      assert DigitCount(x) == d + d;
    }
  }

  /** Part one never adds 0. */
  lemma CandidatesPositive(r: IdRange)
    ensures forall x :: x in RangeCandidates(r) ==> x >= 1
  {
    var xs := RangeCandidates(r);
    var h, p0 := HalfDigits(r), FirstPrefix(r);
    FirstPrefixPositive(r);
    forall x | x in xs ensures x >= 1 {
      var i :| 0 <= i < |xs| && xs[i] == x;
      CandidatesAreTwice(r.first, EvenEnd(r.last), h, p0, i);
      var q :| q >= p0 && x == Twice(q, h);
      CandidatesStep(r.first, EvenEnd(r.last), h, q);
    }
  }

  lemma SingleLengthEven(r: IdRange, digits: nat, x: nat)
    requires digits >= 2 && digits % 2 == 0
    requires DigitCount(r.first) == digits && DigitCount(r.last) == digits && r.first <= r.last
    ensures x in RangeCandidates(r) <==> r.first <= x <= r.last && IsDoubledId(x)
  {
    EvenShape(r, digits);
    if x in RangeCandidates(r) {
      EvenCandidateIsDoubled(r, digits, x);
    }
    if r.first <= x <= r.last && IsDoubledId(x) {
      EvenDoubledIsCandidate(r, digits, x);
    }
  }

  /** On a range of one even digit count, part one starts at the range start with half the digits as shift. */
  lemma EvenShape(r: IdRange, digits: nat)
    requires digits >= 2 && digits % 2 == 0
    requires DigitCount(r.first) == digits && DigitCount(r.last) == digits
    ensures EvenStart(r.first) == r.first && EvenEnd(r.last) == r.last
    ensures HalfDigits(r) == digits / 2 && FirstPrefix(r) == r.first / Pow10(digits / 2)
  {
  }

  lemma EvenCandidateIsDoubled(r: IdRange, digits: nat, x: nat)
    requires digits >= 2 && digits % 2 == 0
    requires DigitCount(r.first) == digits && DigitCount(r.last) == digits
    requires HalfDigits(r) == digits / 2 && FirstPrefix(r) == r.first / Pow10(digits / 2) && EvenEnd(r.last) == r.last
    requires x in RangeCandidates(r)
    ensures r.first <= x <= r.last && IsDoubledId(x)
  {
    var xs := RangeCandidates(r);
    var h := digits / 2;
    var i :| 0 <= i < |xs| && xs[i] == x;
    CandidatesAreTwice(r.first, r.last, h, r.first / Pow10(h), i);
    var q :| q >= r.first / Pow10(h) && x == Twice(q, h);
    assert digits == h + h;
    PrefixDigits(r.first, r.last, h, q);
    RepeatedTwice(q);
  }

  /** A prefix from first / 10^h on whose doubled number stays below last has h digits. */
  lemma PrefixDigits(first: nat, last: nat, h: nat, q: nat)
    requires h >= 1 && DigitCount(first) == h + h && DigitCount(last) == h + h
    requires q >= first / Pow10(h) && Twice(q, h) <= last
    ensures DigitCount(q) == h
  {
    var p := Pow10(h);
    SquareAbove(last, h);
    SquareBelow(first, h);
    QuotientAtLeast(first, Pow10(h - 1), p);
    BelowSquare(q, p, last);
    DigitCountUnique(q, h);
  }

  lemma SquareAbove(n: nat, h: nat)
    requires DigitCount(n) == h + h
    ensures n < Pow10(h) * Pow10(h)
  {
    Pow10Add(h, h);
  }

  lemma SquareBelow(n: nat, h: nat)
    requires h >= 1 && DigitCount(n) == h + h
    ensures n >= Pow10(h - 1) * Pow10(h)
  {
    Pow10Add(h - 1, h);
    assert h - 1 + h == DigitCount(n) - 1;
  }

  lemma EvenDoubledIsCandidate(r: IdRange, digits: nat, x: nat)
    requires digits >= 2 && digits % 2 == 0
    requires DigitCount(r.first) == digits && DigitCount(r.last) == digits
    requires HalfDigits(r) == digits / 2 && FirstPrefix(r) == r.first / Pow10(digits / 2) && EvenEnd(r.last) == r.last
    requires r.first <= x <= r.last && IsDoubledId(x)
    ensures x in RangeCandidates(r)
  {
    var h := digits / 2;
    var p := Pow10(h);
    var p0 := r.first / p;
    var b :| b >= 1 && Repeated(b, 2) == x;
    DigitCountOfRepeated(b, 2);
    DigitCountMonotone(r.first, x);
    DigitCountMonotone(x, r.last);
    RepeatedTwice(b);
    assert DigitCount(b) == h;
    if b < p0 {
      TwiceBelowStart(b, p, r.first);
    }
    CandidatesContain(r.first, r.last, h, p0, b);
  }

  // ---------------------------------------------------------------------
  // Cutting ranges at the powers of ten

  function Max(a: nat, b: nat): nat { if a < b then b else a }
  function Min(a: nat, b: nat): nat { if a < b then a else b }

  /** The numbers of r with the given digit count. */
  function Piece(r: IdRange, digits: nat): IdRange {
    IdRange(Max(r.first, Lowest(digits)), Min(r.last, Pow10(digits) - 1))
  }

  /** The doubled ids of r with at least the given digit count. */
  ghost function DoubledFrom(r: IdRange, digits: nat): set<nat> {
    set x: nat | r.first <= x <= r.last && IsDoubledId(x) && DigitCount(x) >= digits
  }

  /** The doubled ids of r with a digit count are those of its piece of that digit count. */
  lemma DoubledFromStep(r: IdRange, digits: nat)
    requires digits >= 1
    ensures DoubledFrom(r, digits) == DoubledIn(Piece(r, digits)) + DoubledFrom(r, digits + 1)
    ensures DoubledIn(Piece(r, digits)) !! DoubledFrom(r, digits + 1)
  {
    var piece := Piece(r, digits);
    forall x: nat ensures x in DoubledIn(piece) <==> x in DoubledFrom(r, digits) && DigitCount(x) == digits {
      DigitCountBounds(x, digits);
    }
  }

  /** All doubled ids of r have at least the digit count of r.first, and none more than that of r.last. */
  lemma DoubledFromEnds(r: IdRange, digits: nat)
    ensures DoubledFrom(r, DigitCount(r.first)) == DoubledIn(r)
    ensures digits > DigitCount(r.last) ==> DoubledFrom(r, digits) == {}
  {
    forall x: nat | r.first <= x <= r.last ensures DigitCount(r.first) <= DigitCount(x) <= DigitCount(r.last) {
      DigitCountMonotone(r.first, x);
      DigitCountMonotone(x, r.last);
    }
  }

  /** The sum of the doubled ids of r with at least the given digit count. */
  ghost function DoubledSum(r: IdRange, digits: nat): nat {
    SetSum(DoubledFrom(r, digits))
  }

  lemma DoubledSumEnds(r: IdRange, digits: nat)
    ensures DoubledSum(r, DigitCount(r.first)) == SetSum(DoubledIn(r))
    ensures digits > DigitCount(r.last) ==> DoubledSum(r, digits) == 0
  {
    DoubledFromEnds(r, digits);
  }

  /** What part one as written adds for the piece of a digit count, then the doubled ids with more digits. */
  lemma PieceStep(r: IdRange, digits: nat)
    requires digits >= 1
    ensures SetSum(DoubledFrom(r, digits)) == SeqSum(RangeCandidates(Piece(r, digits))) + SetSum(DoubledFrom(r, digits + 1))
  {
    var piece := Piece(r, digits);
    SingleLengthSum(piece, digits);
    DoubledFromStep(r, digits);
    SetSumUnion(DoubledIn(piece), DoubledFrom(r, digits + 1));
  }

  lemma {:induction false} SetSumUnion(a: set<nat>, b: set<nat>)
    requires a !! b
    ensures SetSum(a + b) == SetSum(a) + SetSum(b)
    decreases |a|
  {
    if a != {} {
      var x :| x in a;
      SetSumRemove(a, x);
      SetSumRemove(a + b, x);
      assert (a + b) - {x} == (a - {x}) + b;
      SetSumUnion(a - {x}, b);
    } else {
      assert a + b == b;
    }
  }

  function Elements(xs: seq<nat>): set<nat> {
    set x | x in xs
  }

  /** A sequence without repetitions adds up to the sum of the set of its elements. */
  lemma {:induction false} SeqSumOfIncreasing(xs: seq<nat>)
    requires StrictlyIncreasing(xs)
    ensures SeqSum(xs) == SetSum(Elements(xs))
  {
    if xs != [] {
      var all := Elements(xs);
      var tail := Elements(xs[1..]);
      assert all - {xs[0]} == tail by {
        forall x | x in all ensures x == xs[0] || x in tail {
          var i :| 0 <= i < |xs| && xs[i] == x;
          if i > 0 { assert xs[1..][i - 1] == x; }
        }
        assert xs[0] !in tail;
      }
      assert xs[0] in all;
      SeqSumOfIncreasing(xs[1..]);
      SetSumRemove(all, xs[0]);
      assert SetSum(all) == xs[0] + SetSum(tail);
      assert SeqSum(xs) == xs[0] + SeqSum(xs[1..]);
    }
  }

  /** On a range of a single digit count, part one as written sums exactly the doubled ids. */
  lemma SingleLengthSum(r: IdRange, digits: nat)
    requires digits >= 1 && Lowest(digits) <= r.first && r.last < Pow10(digits)
    ensures SeqSum(RangeCandidates(r)) == SetSum(DoubledIn(r))
  {
    var xs := RangeCandidates(r);
    CandidatesIncreasing(r.first, EvenEnd(r.last), HalfDigits(r), FirstPrefix(r));
    SeqSumOfIncreasing(xs);
    forall x | x in Elements(xs) ensures x in DoubledIn(r) {
      SingleLength(r, digits, x);
    }
    forall x | x in DoubledIn(r) ensures x in Elements(xs) {
      SingleLength(r, digits, x);
    }
    assert Elements(xs) == DoubledIn(r);
  }

  // ---------------------------------------------------------------------
  // The corrected part one

  /** The sum part one is evidently meant to compute: every range's doubled ids. */
  ghost function DoubledTotal(ranges: seq<IdRange>): nat {
    if ranges == [] then 0 else DoubledTotal(ranges[..|ranges| - 1]) + SetSum(DoubledIn(ranges[|ranges| - 1]))
  }

  /** Part one with every range cut at the powers of ten before it is summed. */
  method Part1Fixed(input: string) returns (sum: nat)
    requires IsRangeList(input)
    ensures sum == DoubledTotal(ParseRanges(input))
  {
    sum := SumDoubled(ParseRanges(input));
  }

  /** The loop of the corrected part one, over the parsed ranges. */
  method SumDoubled(ranges: seq<IdRange>) returns (sum: nat)
    ensures sum == DoubledTotal(ranges)
  {
    sum := 0;
    for i := 0 to |ranges|
      invariant sum == DoubledTotal(ranges[..i])
    {
      assert ranges[..i + 1][..i] == ranges[..i];
      var rangeSum := FixedRangeSum(ranges[i]);
      sum := sum + rangeSum;
    }
    assert ranges[..|ranges|] == ranges;
  }

  /**
   * One range, piece by piece: part one's sum of each of its pieces, from
   * the digit count of its start to that of its end.
   */
  method FixedRangeSum(r: IdRange) returns (sum: nat)
    ensures sum == SetSum(DoubledIn(r))
  {
    var low, high := DigitCount(r.first), DigitCount(r.last);
    sum := 0;
    var digits := low;
    while digits <= high
      invariant digits >= 1
      invariant sum + DoubledSum(r, digits) == DoubledSum(r, low)
      decreases high as int + 1 - digits
    {
      var pieceSum := PieceSum(r, digits);
      sum := sum + pieceSum;
      digits := digits + 1;
    }
    DoubledSumEnds(r, digits);
  }

  /** Part one as written, run on the piece of r with the given digit count. */
  method PieceSum(r: IdRange, digits: nat) returns (sum: nat)
    requires digits >= 1
    ensures sum + DoubledSum(r, digits + 1) == DoubledSum(r, digits)
  {
    sum := RangeSum(Piece(r, digits));
    PieceStep(r, digits);
  }
}
