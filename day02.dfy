/**
 * Day 2: the input is a comma-separated list of id ranges "a-b". An id is
 * invalid when its decimal digits are one block written several times.
 * Part one adds up the ids inside the ranges whose digits are a block
 * written exactly twice (by enumerating prefixes p and forming p·10^h + p);
 * part two collects every id inside the ranges whose digits are a block
 * written two or more times, and adds up that set.
 */
module Day02 {
  import opened Wrappers
  import opened Decimal
  import Text

  datatype IdRange = IdRange(first: nat, last: nat)

  // ---------------------------------------------------------------------
  // Input

  /** "a-b" with two unsigned decimal numbers. */
  predicate IsRangeText(s: string) {
    var split := Text.SplitOnce(s, "-");
    split.Some? && IsNumeral(split.value.0) && IsNumeral(split.value.1)
  }

  /** A character at an index below k lies in the first k characters. */
  lemma InPrefix(s: string, n: nat, k: nat)
    ensures n < k <= |s| ==> s[n] in s[..k]
  {
    if n < k <= |s| {
      assert s[..k][n] == s[n];
    }
  }

  /** k is the position of the first '-' in s. */
  predicate IsFirstDash(s: string, k: int) {
    0 <= k < |s| && s[k] == '-' && '-' !in s[..k]
  }

  /** The numbers on either side of the first '-'. */
  function ParseRange(s: string): (r: IdRange)
    requires IsRangeText(s)
    ensures forall k :: IsFirstDash(s, k) ==>
      AllDigits(s[..k]) && AllDigits(s[k + 1..]) &&
      r == IdRange(ParseNat(s[..k]), ParseNat(s[k + 1..]))
  {
    var split := Text.SplitOnce(s, "-").value;
    var n := |split.0|;
    assert s[n] == '-' by { assert s[n..n + 1] == "-"; }
    forall k | IsFirstDash(s, k) ensures k == n {
      assert Text.OccursAt(s, "-", k) by { assert s[k..k + 1] == [s[k]]; }
      InPrefix(s, n, k);
    }
    assert s[..n] == split.0 && s[n + 1..] == split.1;
    IdRange(ParseNat(split.0), ParseNat(split.1))
  }

  /** The input is, after trimming, a comma-separated list of ranges. */
  predicate IsRangeList(input: string) {
    var pieces := Text.Split(Text.Trim(input), ',');
    forall i :: 0 <= i < |pieces| ==> IsRangeText(pieces[i])
  }

  /** `input.trim().split(",")`, each piece split once at '-' and both sides parsed. */
  function ParseRanges(input: string): (ranges: seq<IdRange>)
    requires IsRangeList(input)
    ensures |ranges| == |Text.Split(Text.Trim(input), ',')| >= 1
  {
    var pieces := Text.Split(Text.Trim(input), ',');
    seq(|pieces|, i requires 0 <= i < |pieces| => ParseRange(pieces[i]))
  }

  function FormatRange(r: IdRange): string {
    Show(r.first) + "-" + Show(r.last)
  }

  /** How a list of ranges is written in the puzzle input. */
  function FormatRanges(ranges: seq<IdRange>): string
    requires |ranges| >= 1
  {
    Text.Join(seq(|ranges|, i requires 0 <= i < |ranges| => FormatRange(ranges[i])), ',')
  }

  lemma ParseFormatRange(r: IdRange)
    ensures IsRangeText(FormatRange(r)) && ParseRange(FormatRange(r)) == r
  {
    var a, b := Show(r.first), Show(r.last);
    var s := FormatRange(r);
    assert s == a + "-" + b;
    assert Text.OccursAt(s, "-", |a|) by {
      assert s[|a|..|a| + 1] == "-";
    }
    var split := Text.SplitOnce(s, "-");
    var v0 := split.value.0;
    assert |v0| <= |a|;
    assert s[|v0|] == '-' by {
      assert s == v0 + "-" + split.value.1;
    }
    assert forall k :: 0 <= k < |a| ==> s[k] == a[k] && s[k] != '-';
    assert |v0| == |a|;
    assert v0 == a && split.value.1 == b by {
      assert s == v0 + "-" + split.value.1;
      assert s[..|a|] == a && s[|a| + 1..] == b;
    }
    ParseShow(r.first);
    ParseShow(r.last);
  }

  /** Reading the written list gives the ranges back. */
  lemma ParseFormatRanges(ranges: seq<IdRange>)
    requires |ranges| >= 1
    ensures IsRangeList(FormatRanges(ranges))
    ensures ParseRanges(FormatRanges(ranges)) == ranges
  {
    var pieces := seq(|ranges|, i requires 0 <= i < |ranges| => FormatRange(ranges[i]));
    var text := FormatRanges(ranges);
    forall i | 0 <= i < |pieces|
      ensures ',' !in pieces[i] && IsRangeText(pieces[i])
      ensures |pieces[i]| > 0 && IsDigit(pieces[i][0]) && IsDigit(pieces[i][|pieces[i]| - 1])
    {
      ParseFormatRange(ranges[i]);
      FormatRangeShape(ranges[i]);
    }
    JoinedIsTrimmed(pieces);
    Text.SplitJoin(pieces, ',');
    forall i | 0 <= i < |ranges| ensures ParseRanges(text)[i] == ranges[i] {
      ParseFormatRange(ranges[i]);
    }
  }

  /** A written range holds no comma and begins and ends with a digit. */
  lemma FormatRangeShape(r: IdRange)
    ensures ',' !in FormatRange(r)
    ensures IsDigit(FormatRange(r)[0]) && IsDigit(FormatRange(r)[|FormatRange(r)| - 1])
  {
    var a, b := Show(r.first), Show(r.last);
    var s := FormatRange(r);
    assert forall k :: 0 <= k < |s| ==> s[k] == (if k < |a| then a[k] else if k == |a| then '-' else b[k - |a| - 1]);
  }

  /** A list of pieces that each begin and end with a digit has nothing to trim. */
  lemma JoinedIsTrimmed(pieces: seq<string>)
    requires |pieces| >= 1
    requires forall i :: 0 <= i < |pieces| ==> |pieces[i]| > 0 && IsDigit(pieces[i][0])
    requires forall i :: 0 <= i < |pieces| ==> IsDigit(pieces[i][|pieces[i]| - 1])
    ensures Text.Trim(Text.Join(pieces, ',')) == Text.Join(pieces, ',')
  {
    var s := Text.Join(pieces, ',');
    JoinEnds(pieces);
    assert IsDigit(s[0]) && IsDigit(s[|s| - 1]);
    Text.TrimNothing(s);
  }

  lemma {:induction false} JoinEnds(pieces: seq<string>)
    requires |pieces| >= 1
    requires forall i :: 0 <= i < |pieces| ==> |pieces[i]| > 0
    ensures |Text.Join(pieces, ',')| > 0
    ensures Text.Join(pieces, ',')[0] == pieces[0][0]
    ensures Text.Join(pieces, ',')[|Text.Join(pieces, ',')| - 1] == pieces[|pieces| - 1][|pieces[|pieces| - 1]| - 1]
  {
    if |pieces| > 1 {
      JoinEnds(pieces[1..]);
    }
  }

  // ---------------------------------------------------------------------
  // Replicating a block of digits

  /** `n` written `t` times: the sum over i < t of n·10^(d·i), d the digit count of n. */
  function Repeated(n: nat, t: nat): nat {
    if t == 0 then 0 else Repeated(n, t - 1) + n * Pow10(DigitCount(n) * (t - 1))
  }

  /** `replicate`: accumulates n·10^(count·i) for i from 0 up to times. */
  method Replicate(number: nat, times: nat) returns (replication: nat)
    ensures replication == Repeated(number, times)
  {
    var count := DigitCount(number);
    replication := 0;
    for i := 0 to times
      invariant replication == Repeated(number, i)
    {
      replication := replication + number * Pow10(count * i);
    }
  }

  /** The string s written t times. */
  function RepeatString(s: string, t: nat): (r: string)
    ensures |r| == |s| * t
  {
    if t == 0 then [] else s + RepeatString(s, t - 1)
  }

  /** `Repeated(n, t)` is the number whose decimal digits are those of n, t times over. */
  lemma {:induction false} RepeatedSpellsBlock(n: nat, t: nat)
    ensures AllDigits(RepeatString(Show(n), t))
    ensures Repeated(n, t) == ParseNat(RepeatString(Show(n), t))
  {
    if t > 0 {
      RepeatedSpellsBlock(n, t - 1);
      var s, rest := Show(n), RepeatString(Show(n), t - 1);
      ParseNatAppend(s, rest);
      ParseShow(n);
      assert |rest| == DigitCount(n) * (t - 1);
    }
  }

  /** A numeral without a leading zero has as many digits as it has characters. */
  lemma DigitCountOfNumeral(s: string)
    requires IsNumeral(s) && s[0] != '0'
    ensures DigitCount(ParseNat(s)) == |s|
  {
    ShowParse(s);
  }

  /** A block of d digits written t times has d·t digits. */
  lemma DigitCountOfRepeated(n: nat, t: nat)
    requires t >= 1
    ensures n >= 1 ==> Repeated(n, t) >= 1 && DigitCount(Repeated(n, t)) == DigitCount(n) * t
  {
    if n == 0 { return; }
    RepeatedSpellsBlock(n, t);
    var s := RepeatString(Show(n), t);
    assert s[0] == Show(n)[0];
    DigitCountOfNumeral(s);
    assert ParseNat(s) >= Pow10(|s| - 1) by {
      ShowParse(s);
    }
  }

  /**
   * `replicate_in`: n written as often as fits a number of `hostDigits`
   * digits, when it fits a whole number of times, at least twice.
   */
  function ReplicateIn(n: nat, hostDigits: nat): (r: Option<nat>)
    ensures r.Some? <==> hostDigits % DigitCount(n) == 0 && hostDigits / DigitCount(n) > 1
    ensures r.Some? ==> r.value == Repeated(n, hostDigits / DigitCount(n))
  {
    var numberDigits := DigitCount(n);
    if hostDigits % numberDigits != 0 then None
    else
      var fitCount := hostDigits / numberDigits;
      if fitCount <= 1 then None
      else
        Some(Repeated(n, fitCount))
  }

  /** What `replicate_in` produces from a block without leading zero has exactly the host's digit count. */
  lemma ReplicateInDigits(n: nat, hostDigits: nat)
    requires n >= 1 && ReplicateIn(n, hostDigits).Some?
    ensures DigitCount(ReplicateIn(n, hostDigits).value) == hostDigits
  {
    var d := DigitCount(n);
    var t := hostDigits / d;
    DigitCountOfRepeated(n, t);
    ExactQuotient(hostDigits, d);
  }

  lemma ExactQuotient(a: nat, d: nat)
    requires d >= 1 && a % d == 0
    ensures d * (a / d) == a
  {
  }

  // ---------------------------------------------------------------------
  // Part one

  /** `even_start`: from rangeStart on, the first number whose digit count is even. */
  function EvenStart(rangeStart: nat): (s: nat)
    ensures s >= rangeStart
    ensures DigitCount(s) % 2 == 0
  {
    var count := DigitCount(rangeStart);
    if count % 2 == 0 then rangeStart
    else
      assert Pow10(count + 1) == 10 * Pow10(count);
      DigitCountUnique(Pow10(count), count + 1);
      NextIsEven(count);
      Pow10(count)
  }

  lemma NextIsEven(n: nat)
    requires n % 2 != 0
    ensures (n + 1) % 2 == 0
  {
  }

  /** No number from rangeStart up to `even_start` has an even digit count. */
  lemma EvenStartIsLeast(rangeStart: nat, x: nat)
    requires rangeStart <= x < EvenStart(rangeStart)
    ensures DigitCount(x) % 2 == 1
  {
    var count := DigitCount(rangeStart);
    DigitCountMonotone(rangeStart, x);
    DigitCountBelow(x, count);
  }

  /** `even_end`: up to rangeEnd, the last number whose digit count is even, or 0. */
  function EvenEnd(rangeEnd: nat): (e: nat)
    ensures e <= rangeEnd
    ensures e == 0 || DigitCount(e) % 2 == 0
  {
    var count := DigitCount(rangeEnd);
    if count % 2 == 0 then rangeEnd
    else
      EvenEndBelow(rangeEnd, count);
      Pow10(count - 1) - 1
  }

  /** No number after `even_end` up to rangeEnd has an even digit count. */
  lemma EvenEndIsGreatest(rangeEnd: nat, x: nat)
    requires EvenEnd(rangeEnd) < x <= rangeEnd
    ensures DigitCount(x) % 2 == 1
  {
    var count := DigitCount(rangeEnd);
    assert count % 2 == 1;
    assert EvenEnd(rangeEnd) == Pow10(count - 1) - 1;
    EvenEndBelow(rangeEnd, count);
  }

  /** Below a number of `count` digits, the largest number with fewer digits is 10^(count-1) - 1. */
  lemma EvenEndBelow(rangeEnd: nat, count: nat)
    requires count == DigitCount(rangeEnd)
    ensures Pow10(count - 1) - 1 <= rangeEnd
    ensures count > 1 ==> DigitCount(Pow10(count - 1) - 1) == count - 1
    ensures forall x :: Pow10(count - 1) - 1 < x <= rangeEnd ==> DigitCount(x) == count
  {
    var e := Pow10(count - 1) - 1;
    if count > 1 {
      AllNines(count - 1);
    }
    forall x | e < x <= rangeEnd ensures DigitCount(x) == count {
      DigitCountMonotone(x, rangeEnd);
      DigitCountAbove(x, count - 1);
    }
  }

  lemma DigitCountAbove(x: nat, k: nat)
    requires Pow10(k) <= x
    ensures DigitCount(x) > k
  {
    var d := DigitCount(x);
    if d <= k {
      Pow10Monotone(d, k);
    }
  }

  /** 10^k - 1, written with k nines, has k digits. */
  lemma AllNines(k: nat)
    requires k >= 1
    ensures DigitCount(Pow10(k) - 1) == k
  {
    var m := Pow10(k) - 1;
    var p := Pow10(k - 1);
    assert Pow10(k) == 10 * p;
    assert p <= m;
    DigitCountUnique(m, k);
  }

  lemma DigitCountBelow(x: nat, k: nat)
    requires k >= 1 && x < Pow10(k)
    ensures DigitCount(x) <= k
  {
    var d := DigitCount(x);
    if d > k {
      Pow10Monotone(k, d - 1);
    }
  }

  /** p·10^h + p: the digits of p followed by h more digits spelling p. */
  function Twice(p: nat, h: nat): nat {
    p * Pow10(h) + p
  }

  /**
   * The numbers part one adds for one range, in the order it adds them:
   * for prefix, prefix + 1, ... while `prefix * shifter + prefix` does not
   * exceed evenEnd, the ones from rangeStart on.
   */
  function Candidates(rangeStart: nat, evenEnd: nat, h: nat, prefix: nat): seq<nat>
    decreases evenEnd + 1 - prefix
  {
    var number := Twice(prefix, h);
    if number > evenEnd then []
    else (if number >= rangeStart then [number] else []) + Candidates(rangeStart, evenEnd, h, prefix + 1)
  }

  /** The prefix width, shifter exponent and first prefix of a range: `half_digit_count`, `even_start / shifter`. */
  function HalfDigits(r: IdRange): nat {
    DigitCount(EvenStart(r.first)) / 2
  }

  function FirstPrefix(r: IdRange): nat {
    var start, shifter := EvenStart(r.first), Pow10(HalfDigits(r));
    NonNegativeQuotient(start, shifter);
    start / shifter
  }

  function RangeCandidates(r: IdRange): seq<nat> {
    Candidates(r.first, EvenEnd(r.last), HalfDigits(r), FirstPrefix(r))
  }

  function SeqSum(xs: seq<nat>): nat {
    if xs == [] then 0 else xs[0] + SeqSum(xs[1..])
  }

  lemma {:induction false} SeqSumAppend(xs: seq<nat>, ys: seq<nat>)
    ensures SeqSum(xs + ys) == SeqSum(xs) + SeqSum(ys)
  {
    if xs != [] {
      assert (xs + ys)[1..] == xs[1..] + ys;
      SeqSumAppend(xs[1..], ys);
    } else {
      assert xs + ys == ys;
    }
  }

  /** Part one's sum over the ranges, each range adding its candidates. */
  function Part1Total(ranges: seq<IdRange>): nat {
    if ranges == [] then 0 else Part1Total(ranges[..|ranges| - 1]) + SeqSum(RangeCandidates(ranges[|ranges| - 1]))
  }

  method Part1(input: string) returns (sum: nat)
    requires IsRangeList(input)
    ensures sum == Part1Total(ParseRanges(input))
  {
    sum := SumRanges(ParseRanges(input));
  }

  /** The loop of `part1` over the parsed ranges. */
  method SumRanges(ranges: seq<IdRange>) returns (sum: nat)
    ensures sum == Part1Total(ranges)
  {
    sum := 0;
    for i := 0 to |ranges|
      invariant sum == Part1Total(ranges[..i])
    {
      assert ranges[..i + 1][..i] == ranges[..i];
      var rangeSum := RangeSum(ranges[i]);
      sum := sum + rangeSum;
    }
    assert ranges[..|ranges|] == ranges;
  }

  /** The body of part one's loop over the ranges: what one range adds to the sum. */
  method RangeSum(r: IdRange) returns (sum: nat)
    ensures sum == SeqSum(RangeCandidates(r))
  {
    var rangeStart, rangeEnd := r.first, r.last;
    var evenStart := EvenStart(rangeStart);
    var evenEnd := EvenEnd(rangeEnd);
    var halfDigitCount := DigitCount(evenStart) / 2;
    var shifter := Pow10(halfDigitCount);
    NonNegativeQuotient(evenStart, shifter);
    var prefix := evenStart / shifter;
    sum := SumTwiceNumbers(rangeStart, evenEnd, halfDigitCount, shifter, prefix);
  }

  /**
   * Part one's inner `loop`: from the given prefix on, adds
   * `prefix * shifter + prefix` while it does not exceed evenEnd, counting
   * it when it is at least rangeStart.
   */
  method SumTwiceNumbers(rangeStart: nat, evenEnd: nat, halfDigitCount: nat, shifter: nat, prefix: nat)
    returns (sum: nat)
    requires shifter == Pow10(halfDigitCount)
    ensures sum == SeqSum(Candidates(rangeStart, evenEnd, halfDigitCount, prefix))
  {
    sum := 0;
    var p := prefix;
    while true
      invariant sum + SeqSum(Candidates(rangeStart, evenEnd, halfDigitCount, p))
                == SeqSum(Candidates(rangeStart, evenEnd, halfDigitCount, prefix))
      decreases evenEnd - p
    {
      CandidatesStep(rangeStart, evenEnd, halfDigitCount, p);
      var number := p * shifter + p;
      if number > evenEnd {
        break;
      }
      if number >= rangeStart {
        sum := sum + number;
      }
      p := p + 1;
    }
  }

  lemma NonNegativeQuotient(a: nat, b: nat)
    requires b >= 1
    ensures a / b >= 0
  {
  }

  /** One turn of part one's inner loop: the candidate of prefix p, then those of p + 1 on. */
  lemma CandidatesStep(rangeStart: nat, evenEnd: nat, h: nat, p: nat)
    ensures p <= Twice(p, h)
    ensures Twice(p, h) > evenEnd ==> Candidates(rangeStart, evenEnd, h, p) == []
    ensures Twice(p, h) <= evenEnd ==>
      SeqSum(Candidates(rangeStart, evenEnd, h, p))
      == (if Twice(p, h) >= rangeStart then Twice(p, h) else 0) + SeqSum(Candidates(rangeStart, evenEnd, h, p + 1))
  {
    var number := Twice(p, h);
    assert p * Pow10(h) >= 0;
    if number <= evenEnd {
      var rest := Candidates(rangeStart, evenEnd, h, p + 1);
      if number >= rangeStart {
        assert Candidates(rangeStart, evenEnd, h, p) == [number] + rest;
        assert ([number] + rest)[1..] == rest;
      } else {
        assert Candidates(rangeStart, evenEnd, h, p) == [] + rest;
        assert [] + rest == rest;
      }
    }
  }

  /** Every number part one adds lies in its range and has the form p·10^h + p. */
  lemma {:induction false} CandidatesAreTwice(rangeStart: nat, evenEnd: nat, h: nat, prefix: nat, i: nat)
    requires i < |Candidates(rangeStart, evenEnd, h, prefix)|
    ensures rangeStart <= Candidates(rangeStart, evenEnd, h, prefix)[i] <= evenEnd
    ensures exists p :: p >= prefix && Candidates(rangeStart, evenEnd, h, prefix)[i] == Twice(p, h)
    decreases evenEnd + 1 - prefix
  {
    var number := Twice(prefix, h);
    var rest := Candidates(rangeStart, evenEnd, h, prefix + 1);
    if number >= rangeStart && i == 0 {
      assert Candidates(rangeStart, evenEnd, h, prefix)[0] == Twice(prefix, h);
    } else {
      var j := if number >= rangeStart then i - 1 else i;
      CandidatesAreTwice(rangeStart, evenEnd, h, prefix + 1, j);
      assert Candidates(rangeStart, evenEnd, h, prefix)[i] == rest[j];
    }
  }

  lemma RangeCandidatesInRange(r: IdRange, i: nat)
    requires i < |RangeCandidates(r)|
    ensures r.first <= RangeCandidates(r)[i] <= r.last
    ensures exists p :: RangeCandidates(r)[i] == Twice(p, HalfDigits(r))
  {
    CandidatesAreTwice(r.first, EvenEnd(r.last), HalfDigits(r), FirstPrefix(r), i);
  }

  // ---------------------------------------------------------------------
  // Part two

  /** An id whose digits are one block (without a leading zero) written two or more times. */
  ghost predicate IsRepeatedId(x: nat) {
    exists block: nat, t: nat :: block >= 1 && t >= 2 && Repeated(block, t) == x
  }

  /** The id that filler produces for a host digit count, when it lies in [first, last]. */
  function Produced(first: nat, last: nat, digits: nat, filler: nat): set<nat> {
    match ReplicateIn(filler, digits)
    case Some(id) => if first <= id <= last then {id} else {}
    case None => {}
  }

  /** The ids collected for fillers 1 up to (not including) f. */
  function FillerIds(first: nat, last: nat, digits: nat, f: nat): set<nat> {
    if f <= 1 then {} else FillerIds(first, last, digits, f - 1) + Produced(first, last, digits, f - 1)
  }

  /** The ids collected for host digit counts from lo up to (not including) hi. */
  function DigitIds(first: nat, last: nat, lo: nat, hi: nat): set<nat>
    decreases hi
  {
    if hi <= lo then {}
    else DigitIds(first, last, lo, hi - 1) + FillerIds(first, last, hi - 1, Pow10((hi - 1) / 2))
  }

  function RangeIds(r: IdRange): set<nat> {
    DigitIds(r.first, r.last, DigitCount(r.first), DigitCount(r.last) + 1)
  }

  /** The `ids` set after all of the ranges. */
  function CollectedIds(ranges: seq<IdRange>): set<nat> {
    if ranges == [] then {} else CollectedIds(ranges[..|ranges| - 1]) + RangeIds(ranges[|ranges| - 1])
  }

  /** The sum of a set of numbers, which does not depend on an order. */
  ghost function SetSum(s: set<nat>): nat {
    if s == {} then 0 else var x :| x in s; x + SetSum(s - {x})
  }

  lemma {:induction false} SetSumRemove(s: set<nat>, y: nat)
    requires y in s
    ensures SetSum(s) == y + SetSum(s - {y})
    decreases |s|
  {
    var x :| x in s && SetSum(s) == x + SetSum(s - {x});
    if x != y {
      SetSumRemove(s - {x}, y);
      SetSumRemove(s - {y}, x);
      assert s - {x} - {y} == s - {y} - {x};
    }
  }

  method Part2(input: string) returns (sum: nat)
    requires IsRangeList(input)
    ensures sum == SetSum(CollectedIds(ParseRanges(input)))
  {
    var ranges := ParseRanges(input);
    var ids: set<nat> := {};
    for i := 0 to |ranges|
      invariant ids == CollectedIds(ranges[..i])
    {
      assert ranges[..i + 1][..i] == ranges[..i];
      ids := InsertRangeIds(ids, ranges[i].first, ranges[i].last);
    }
    assert ranges[..|ranges|] == ranges;
    sum := SumIds(ids);
  }

  /**
   * The body of part two's loop over the ranges: for every digit count from
   * that of start to that of end, the fillers' ids are inserted into ids.
   */
  method InsertRangeIds(ids: set<nat>, start: nat, end: nat) returns (result: set<nat>)
    ensures result == ids + RangeIds(IdRange(start, end))
  {
    result := ids;
    var startDigitCount := DigitCount(start);
    var endDigitCount := DigitCount(end);
    if startDigitCount > endDigitCount {
      // The range `start_digit_count..=end_digit_count` is empty.
      return;
    }
    for digitCount := startDigitCount to endDigitCount + 1
      invariant result == ids + DigitIds(start, end, startDigitCount, digitCount)
    {
      result := InsertDigitIds(ids, result, start, end, startDigitCount, digitCount);
    }
  }

  /** One round of the loop over digit counts: the fillers' ids for host digit count digitCount. */
  method InsertDigitIds(ids: set<nat>, sofar: set<nat>, start: nat, end: nat, lo: nat, digitCount: nat)
    returns (result: set<nat>)
    requires lo <= digitCount
    requires sofar == ids + DigitIds(start, end, lo, digitCount)
    ensures result == ids + DigitIds(start, end, lo, digitCount + 1)
  {
    var toHalfEnd := Pow10(digitCount / 2) - 1;
    result := InsertFillerIds(sofar, start, end, digitCount, toHalfEnd);
    DigitIdsStep(ids, start, end, lo, digitCount);
  }

  lemma DigitIdsStep(ids: set<nat>, first: nat, last: nat, lo: nat, hi: nat)
    requires lo <= hi
    ensures ids + DigitIds(first, last, lo, hi) + FillerIds(first, last, hi, Pow10(hi / 2))
         == ids + DigitIds(first, last, lo, hi + 1)
  {
  }

  /**
   * Part two's innermost loop: for every filler from 1 to toHalfEnd, the id
   * `replicate_in` makes of it for the host digit count, when there is one
   * and it lies in [start, end], is inserted into ids.
   */
  method InsertFillerIds(ids: set<nat>, start: nat, end: nat, digitCount: nat, toHalfEnd: nat)
    returns (result: set<nat>)
    ensures result == ids + FillerIds(start, end, digitCount, toHalfEnd + 1)
  {
    result := ids;
    for filler := 1 to toHalfEnd + 1
      invariant result == ids + FillerIds(start, end, digitCount, filler)
    {
      var replicated := ReplicateIn(filler, digitCount);
      assert FillerIds(start, end, digitCount, filler + 1)
        == FillerIds(start, end, digitCount, filler) + Produced(start, end, digitCount, filler);
      if replicated.None? {
        continue;
      }
      var invalidId := replicated.value;
      if start <= invalidId <= end {
        result := result + {invalidId};
      }
    }
  }

  /** `ids.iter().sum()`: the elements of the set added up, in whatever order the set yields them. */
  method SumIds(ids: set<nat>) returns (sum: nat)
    ensures sum == SetSum(ids)
  {
    sum := 0;
    var rest := ids;
    while rest != {}
      invariant sum + SetSum(rest) == SetSum(ids)
      decreases |rest|
    {
      var x :| x in rest;
      SetSumRemove(rest, x);
      sum := sum + x;
      rest := rest - {x};
    }
  }

  // ---------------------------------------------------------------------
  // What part two collects

  lemma {:induction false} FillerIdsMembers(first: nat, last: nat, digits: nat, f: nat, x: nat)
    ensures x in FillerIds(first, last, digits, f)
        <==> first <= x <= last && exists b :: 1 <= b < f && ReplicateIn(b, digits) == Some(x)
  {
    if f > 1 {
      FillerIdsMembers(first, last, digits, f - 1, x);
      if ReplicateIn(f - 1, digits) == Some(x) && first <= x <= last {
        assert x in Produced(first, last, digits, f - 1);
      }
    }
  }

  lemma {:induction false} DigitIdsMembers(first: nat, last: nat, lo: nat, hi: nat, x: nat)
    ensures x in DigitIds(first, last, lo, hi)
        <==> first <= x <= last
             && exists b, digits :: lo <= digits < hi && 1 <= b < Pow10(digits / 2) && ReplicateIn(b, digits) == Some(x)
    decreases hi
  {
    if hi > lo {
      var d := hi - 1;
      DigitIdsMembers(first, last, lo, d, x);
      FillerIdsMembers(first, last, d, Pow10(d / 2), x);
      assert DigitIds(first, last, lo, hi) == DigitIds(first, last, lo, d) + FillerIds(first, last, d, Pow10(d / 2));
      if x in FillerIds(first, last, d, Pow10(d / 2)) {
        var b :| 1 <= b < Pow10(d / 2) && ReplicateIn(b, d) == Some(x);
        assert lo <= d < hi;
      }
      if first <= x <= last && exists b, digits :: lo <= digits < hi && 1 <= b < Pow10(digits / 2) && ReplicateIn(b, digits) == Some(x) {
        var b, digits :| lo <= digits < hi && 1 <= b < Pow10(digits / 2) && ReplicateIn(b, digits) == Some(x);
        if digits == d {
          assert x in FillerIds(first, last, d, Pow10(d / 2));
        } else {
          assert lo <= digits < d;
        }
      }
    }
  }

  /** A product is a multiple of each factor. */
  lemma MultipleOf(d: nat, t: nat)
    requires d >= 1
    ensures (d * t) % d == 0 && (d * t) / d == t
  {
    var q, r := (d * t) / d, (d * t) % d;
    assert d * t == d * q + r && 0 <= r < d;
    assert d * (t - q) == r;
    if t - q >= 1 {
      AtLeastOnce(d, t - q);
    } else if t - q <= -1 {
      AtLeastOnce(d, q - t);
    }
  }

  lemma AtLeastOnce(d: nat, k: int)
    requires k >= 1
    ensures d * k >= d
  {
  }

  lemma HalfAtLeast(d: nat, t: nat)
    requires t >= 2
    ensures d <= (d * t) / 2
  {
    AtLeastOnce(d, t - 1);
    assert d * t == d * (t - 1) + d;
  }

  /** Every id written as a block at least twice over is found from its block. */
  lemma ReplicateInFinds(block: nat, t: nat)
    requires block >= 1 && t >= 2
    ensures var digits := DigitCount(Repeated(block, t));
            1 <= block < Pow10(digits / 2) && ReplicateIn(block, digits) == Some(Repeated(block, t))
  {
    var d := DigitCount(block);
    var x := Repeated(block, t);
    var digits := DigitCount(x);
    DigitCountOfRepeated(block, t);
    assert digits == d * t;
    MultipleOf(d, t);
    assert digits % d == 0 && digits / d == t;
    HalfAtLeast(d, t);
    Pow10Monotone(d, digits / 2);
    assert ReplicateIn(block, digits) == Some(Repeated(block, digits / d));
  }

  /** The ids part two collects for one range are the repeated-block ids inside it. */
  lemma RangeIdsAreRepeatedIds(r: IdRange, x: nat)
    ensures x in RangeIds(r) <==> r.first <= x <= r.last && IsRepeatedId(x)
  {
    var lo, hi := DigitCount(r.first), DigitCount(r.last) + 1;
    DigitIdsMembers(r.first, r.last, lo, hi, x);
    if x in RangeIds(r) {
      var b, digits :| lo <= digits < hi && 1 <= b < Pow10(digits / 2) && ReplicateIn(b, digits) == Some(x);
      assert Repeated(b, digits / DigitCount(b)) == x;
    }
    if r.first <= x <= r.last && IsRepeatedId(x) {
      var b, t :| b >= 1 && t >= 2 && Repeated(b, t) == x;
      ReplicateInFinds(b, t);
      DigitCountMonotone(r.first, x);
      DigitCountMonotone(x, r.last);
    }
  }

  /** An id lies in one of the ranges. */
  predicate InSomeRange(ranges: seq<IdRange>, x: nat) {
    exists j :: 0 <= j < |ranges| && ranges[j].first <= x <= ranges[j].last
  }

  /**
   * Part two's set holds exactly the repeated-block ids that lie in some
   * range, each once however many fillers or ranges produce it.
   */
  lemma {:induction false} CollectedIdsAreRepeatedIds(ranges: seq<IdRange>, x: nat)
    ensures x in CollectedIds(ranges) <==> InSomeRange(ranges, x) && IsRepeatedId(x)
  {
    if ranges != [] {
      var init, r := ranges[..|ranges| - 1], ranges[|ranges| - 1];
      CollectedIdsAreRepeatedIds(init, x);
      RangeIdsAreRepeatedIds(r, x);
      if InSomeRange(ranges, x) && !(r.first <= x <= r.last) {
        var j :| 0 <= j < |ranges| && ranges[j].first <= x <= ranges[j].last;
        assert init[j] == ranges[j];
      }
      if InSomeRange(init, x) {
        var j :| 0 <= j < |init| && init[j].first <= x <= init[j].last;
        assert ranges[j] == init[j];
      }
    }
  }
}
