/**
 * Day 1: a dial numbered 0 to 99 starts at 50 and is turned by a list of
 * rotations, one per line: "L<n>" turns it n clicks towards lower numbers,
 * any other first letter n clicks towards higher numbers. Part one counts the
 * rotations after which the dial shows 0; part two counts every click at
 * which it shows 0.
 *
 * The source keeps the dial as a signed i32 in (-100, 100) and reduces it
 * with Rust's `%`, whose remainder takes the sign of the dividend; `Rem`
 * models that operator.
 */
module Day01 {
  import opened Decimal

  // ---------------------------------------------------------------------
  // Arithmetic of the source

  /** Rust's `a % 100` on i32: the remainder has the sign of a. */
  function Rem(a: int): (r: int)
    ensures -100 < r < 100
    ensures a >= 0 ==> r >= 0
    ensures a <= 0 ==> r <= 0
    ensures (a - r) % 100 == 0
  {
    if a >= 0 then a % 100 else -((-a) % 100)
  }

  /** Multiples of 100 add up to a multiple of 100. */
  lemma MultiplesAdd(a: int, b: int)
    requires a % 100 == 0 && b % 100 == 0
    ensures (a + b) % 100 == 0
  {
    var p, q := a / 100, b / 100;
    assert a + b == 100 * (p + q);
  }

  /** The truncated remainder is the one remainder with those three properties. */
  lemma RemUnique(a: int, r: int)
    requires -100 < r < 100
    requires a >= 0 ==> r >= 0
    requires a <= 0 ==> r <= 0
    requires (a - r) % 100 == 0
    ensures r == Rem(a)
  {
    var r' := Rem(a);
    assert (r - r') % 100 == 0 by {
      assert r - r' == (a - r') - (a - r);
    }
  }

  function Abs(x: int): nat {
    if x < 0 then -x else x
  }

  // ---------------------------------------------------------------------
  // Parsing a rotation

  /** `str::parse::<i32>` without the range check: an optional sign, then decimal digits. */
  predicate IsIntLiteral(s: string) {
    IsNumeral(s) || (|s| >= 2 && (s[0] == '+' || s[0] == '-') && IsNumeral(s[1..]))
  }

  function ParseInt(s: string): (n: int)
    requires IsIntLiteral(s)
    ensures s[0] == '-' ==> n <= 0
    ensures s[0] != '-' ==> n >= 0
    ensures Abs(n) < Pow10(|s|)
  {
    if IsNumeral(s) then ParseNat(s)
    else
      Pow10Monotone(|s| - 1, |s|);
      if s[0] == '-' then 0 - ParseNat(s[1..]) else ParseNat(s[1..])
  }

  /** A magnitude written out, with or without a sign, parses back to its signed value. */
  lemma ParseIntSigned(m: nat)
    ensures ParseInt(Show(m)) == m
    ensures ParseInt("+" + Show(m)) == m
    ensures ParseInt("-" + Show(m)) == -(m as int)
  {
    ParseShow(m);
    assert ("+" + Show(m))[1..] == Show(m);
    assert ("-" + Show(m))[1..] == Show(m);
  }

  /**
   * The largest distance for which `dial + rotation` stays inside i32 while
   * -100 < dial < 100 (i32::MAX - 99).
   */
  const MaxDistance: nat := 2147483548

  /** A line that the source turns into a rotation without a panic or an overflow. */
  predicate IsRotationLine(line: string) {
    |line| >= 1 && IsIntLiteral(line[1..]) && Abs(ParseInt(line[1..])) <= MaxDistance
  }

  /** A line starting with 'L' turns towards lower numbers, any other towards higher ones. */
  function Rotation(line: string): (r: int)
    requires IsRotationLine(line)
    ensures Abs(r) <= MaxDistance
  {
    var direction := if line[0] == 'L' then -1 else 1;
    direction * ParseInt(line[1..])
  }

  function Rotations(lines: seq<string>): (rs: seq<int>)
    requires forall i :: 0 <= i < |lines| ==> IsRotationLine(lines[i])
    ensures |rs| == |lines|
    ensures forall i :: 0 <= i < |lines| ==> rs[i] == Rotation(lines[i])
  {
    seq(|lines|, i requires 0 <= i < |lines| => Rotation(lines[i]))
  }

  /** How a rotation is written in the puzzle input. */
  function Instruction(r: int): string {
    (if r < 0 then "L" else "R") + Show(Abs(r))
  }

  /** Parsing a line reads back the rotation it was written from. */
  lemma RotationOfInstruction(r: int)
    requires Abs(r) <= MaxDistance
    ensures IsRotationLine(Instruction(r))
    ensures Rotation(Instruction(r)) == r
  {
    var line := Instruction(r);
    assert line[1..] == Show(Abs(r));
    ParseShow(Abs(r));
  }

  /** The sum of the rotations: where the dial would be on an unbounded scale. */
  function Sum(rs: seq<int>): int {
    if rs == [] then 0 else Sum(rs[..|rs| - 1]) + rs[|rs| - 1]
  }

  // ---------------------------------------------------------------------
  // Part one

  /** One rotation in part one: `dial = (dial + rotation) % 100`. */
  function Turn(dial: int, rotation: int): int {
    Rem(dial + rotation)
  }

  /** The dial after all of the rotations, starting at 50. */
  function DialAfter(rs: seq<int>): (dial: int)
    ensures -100 < dial < 100
  {
    if rs == [] then 50 else Turn(DialAfter(rs[..|rs| - 1]), rs[|rs| - 1])
  }

  /** The dial always agrees, modulo 100, with 50 plus the rotations so far. */
  lemma {:induction false} DialAfterCongruent(rs: seq<int>)
    ensures (DialAfter(rs) - (50 + Sum(rs))) % 100 == 0
  {
    if rs != [] {
      var init := rs[..|rs| - 1];
      DialAfterCongruent(init);
      var d := DialAfter(init);
      var x := d + rs[|rs| - 1];
      assert DialAfter(rs) == Rem(x);
      assert Sum(rs) == Sum(init) + rs[|rs| - 1];
      MultiplesAdd(Rem(x) - x, d - (50 + Sum(init)));
      assert DialAfter(rs) - (50 + Sum(rs)) == (Rem(x) - x) + (d - (50 + Sum(init)));
    }
  }

  lemma DialAfterStep(rs: seq<int>, i: nat)
    requires i < |rs|
    ensures DialAfter(rs[..i + 1]) == Rem(DialAfter(rs[..i]) + rs[i])
  {
    assert rs[..i + 1][..i] == rs[..i];
    assert DialAfter(rs[..i + 1]) == Turn(DialAfter(rs[..i]), rs[i]);
  }

  /** The steps k (1-based) after which the dial shows 0, among the first n. */
  ghost function ZeroStops(rs: seq<int>, n: nat): set<nat>
    requires n <= |rs|
  {
    set k | 1 <= k <= n && DialAfter(rs[..k]) == 0
  }

  lemma ZeroStopsStep(rs: seq<int>, i: nat)
    requires i < |rs|
    ensures |ZeroStops(rs, i + 1)| == |ZeroStops(rs, i)| + (if DialAfter(rs[..i + 1]) == 0 then 1 else 0)
  {
    if DialAfter(rs[..i + 1]) == 0 {
      assert ZeroStops(rs, i + 1) == ZeroStops(rs, i) + {i + 1};
    } else {
      assert ZeroStops(rs, i + 1) == ZeroStops(rs, i);
    }
  }

  /** Part one counts the rotations after which the dial shows 0. */
  method Part1(lines: seq<string>) returns (zeros: nat)
    requires forall i :: 0 <= i < |lines| ==> IsRotationLine(lines[i])
    ensures zeros == |ZeroStops(Rotations(lines), |lines|)|
  {
    zeros := CountZeroStops(Rotations(lines));
  }

  /** The loop of part one over the parsed rotations. */
  method CountZeroStops(rotations: seq<int>) returns (zeros: nat)
    ensures zeros == |ZeroStops(rotations, |rotations|)|
  {
    var dial := 50;
    zeros := 0;
    for i := 0 to |rotations|
      invariant dial == DialAfter(rotations[..i])
      invariant zeros == |ZeroStops(rotations, i)|
    {
      DialAfterStep(rotations, i);
      ZeroStopsStep(rotations, i);
      dial := Rem(dial + rotations[i]);
      if dial == 0 {
        zeros := zeros + 1;
      }
    }
  }

  /** Part one counts exactly the steps at which 50 plus the rotations so far is a multiple of 100. */
  lemma ZeroStopsAreMultiples(rs: seq<int>)
    ensures ZeroStops(rs, |rs|) == set k | 1 <= k <= |rs| && (50 + Sum(rs[..k])) % 100 == 0
  {
    forall k | 1 <= k <= |rs|
      ensures DialAfter(rs[..k]) == 0 <==> (50 + Sum(rs[..k])) % 100 == 0
    {
      DialAfterCongruent(rs[..k]);
    }
  }

  // ---------------------------------------------------------------------
  // Part two

  /** `overshoot_dial = dial + rotation % 100`. */
  function Overshoot(dial: int, rotation: int): (o: int)
    requires -100 < dial < 100
    ensures -200 < o < 200
  {
    dial + Rem(rotation)
  }

  /** One rotation in part two: `dial = overshoot_dial % 100`. */
  function Turn2(dial: int, rotation: int): (d: int)
    requires -100 < dial < 100
    ensures -100 < d < 100
  {
    Rem(Overshoot(dial, rotation))
  }

  /**
   * The extra click of a part rotation: the dial lands on 0, the overshoot
   * passes 100 either way, or the sign changes from negative to positive or
   * from positive to negative.
   */
  predicate PartClick(previous: int, rotation: int)
    requires -100 < previous < 100
  {
    var overshoot := Overshoot(previous, rotation);
    var dial := Rem(overshoot);
    dial == 0
    || overshoot > 100 || overshoot < -100
    || (previous < 0 && overshoot > 0)
    || (previous > 0 && overshoot < 0)
  }

  /** What one rotation adds to `zeros`: one per full turn, plus one for the part rotation. */
  function Clicks(previous: int, rotation: int): (n: nat)
    requires -100 < previous < 100
    ensures Abs(rotation) / 100 <= n <= Abs(rotation) / 100 + 1
  {
    Abs(rotation) / 100 + (if PartClick(previous, rotation) then 1 else 0)
  }

  function DialAfter2(rs: seq<int>): (dial: int)
    ensures -100 < dial < 100
  {
    if rs == [] then 50 else Turn2(DialAfter2(rs[..|rs| - 1]), rs[|rs| - 1])
  }

  /** The part-two dial also agrees, modulo 100, with 50 plus the rotations so far. */
  lemma {:induction false} DialAfter2Congruent(rs: seq<int>)
    ensures (DialAfter2(rs) - (50 + Sum(rs))) % 100 == 0
  {
    if rs != [] {
      var init := rs[..|rs| - 1];
      var r := rs[|rs| - 1];
      DialAfter2Congruent(init);
      var d := DialAfter2(init);
      var o := Overshoot(d, r);
      assert Sum(rs) == Sum(init) + r;
      assert DialAfter2(rs) == Rem(o);
      DifferenceOfMultiples(o - Rem(o), r - Rem(r), d - (50 + Sum(init)));
    }
  }

  lemma DifferenceOfMultiples(a: int, b: int, c: int)
    requires a % 100 == 0 && b % 100 == 0 && c % 100 == 0
    ensures (c - a - b) % 100 == 0
  {
    assert c - a - b == 100 * (c / 100 - a / 100 - b / 100);
  }

  /** The value of `zeros` after all of the rotations. */
  function ClickTotal(rs: seq<int>): nat {
    if rs == [] then 0 else ClickTotal(rs[..|rs| - 1]) + Clicks(DialAfter2(rs[..|rs| - 1]), rs[|rs| - 1])
  }

  /** The sum of the full turns of the rotations. */
  function FullTurns(rs: seq<int>): nat {
    if rs == [] then 0 else FullTurns(rs[..|rs| - 1]) + Abs(rs[|rs| - 1]) / 100
  }

  /** Every full turn is counted, and at most one more click per rotation. */
  lemma {:induction false} ClickTotalBounds(rs: seq<int>)
    ensures FullTurns(rs) <= ClickTotal(rs) <= FullTurns(rs) + |rs|
  {
    if rs != [] {
      ClickTotalBounds(rs[..|rs| - 1]);
    }
  }

  /** Part two as written. */
  method Part2(lines: seq<string>) returns (zeros: nat)
    requires forall i :: 0 <= i < |lines| ==> IsRotationLine(lines[i])
    ensures zeros == ClickTotal(Rotations(lines))
  {
    zeros := CountClicks(Rotations(lines));
  }

  /** The loop of part two over the parsed rotations. */
  method CountClicks(rotations: seq<int>) returns (zeros: nat)
    ensures zeros == ClickTotal(rotations)
  {
    var dial := 50;
    zeros := 0;
    for i := 0 to |rotations|
      invariant dial == DialAfter2(rotations[..i])
      invariant zeros == ClickTotal(rotations[..i])
    {
      var rotation := rotations[i];
      assert rotations[..i + 1][..i] == rotations[..i];
      var previousDial := dial;
      var overshootDial := dial + Rem(rotation);
      dial := Rem(overshootDial);
      zeros := zeros + Abs(rotation) / 100;
      var clickedOnDeadZero := dial == 0;
      var clickedOnOvershoot := overshootDial > 100 || overshootDial < -100;
      var clickedClockwise := previousDial < 0 && overshootDial > 0;
      var clickedCounterclockwise := previousDial > 0 && overshootDial < 0;
      if clickedClockwise || clickedCounterclockwise || clickedOnOvershoot || clickedOnDeadZero {
        zeros := zeros + 1;
      }
    }
    assert rotations[..|rotations|] == rotations;
  }

  // ---------------------------------------------------------------------
  // Reference: the clicks at which a real dial shows 0

  function Sign(x: int): int {
    if x < 0 then -1 else if x > 0 then 1 else 0
  }

  /**
   * Turning a dial that stands at p (on an unbounded scale) by r clicks:
   * the number of the |r| single clicks after which it shows 0.
   */
  function Hits(p: int, r: int): nat
    decreases Abs(r)
  {
    if r == 0 then 0 else Hits(p, r - Sign(r)) + (if (p + r) % 100 == 0 then 1 else 0)
  }

  lemma FloorStep(x: int)
    ensures x / 100 - (x - 1) / 100 == if x % 100 == 0 then 1 else 0
  {
  }

  /** Hits counts the multiples of 100 passed: in (p, p + r] turning up, in [p + r, p) turning down. */
  lemma {:induction false} HitsClosedForm(p: int, r: int)
    ensures r >= 0 ==> Hits(p, r) == (p + r) / 100 - p / 100
    ensures r < 0 ==> Hits(p, r) == (p - 1) / 100 - (p + r - 1) / 100
    decreases Abs(r)
  {
    if r > 0 {
      HitsClosedForm(p, r - 1);
      FloorStep(p + r);
    } else if r < 0 {
      HitsClosedForm(p, r + 1);
      FloorStep(p + r);
    }
  }

  /** Only the position modulo 100 matters. */
  lemma HitsPeriodic(p: int, r: int, k: int)
    ensures Hits(p + 100 * k, r) == Hits(p, r)
  {
    HitsClosedForm(p, r);
    HitsClosedForm(p + 100 * k, r);
    assert (p + 100 * k + r) / 100 == (p + r) / 100 + k;
    assert (p + 100 * k) / 100 == p / 100 + k;
    assert (p + 100 * k - 1) / 100 == (p - 1) / 100 + k;
    assert (p + 100 * k + r - 1) / 100 == (p + r - 1) / 100 + k;
  }

  /**
   * Part two counts one click too many when the dial stands at 0 and the
   * rotation is a whole number of turns (0 included): the landing on 0 is
   * counted both as a full turn and as a part rotation.
   */
  lemma ClicksVersusHits(d: int, r: int)
    requires -100 < d < 100
    ensures Clicks(d, r) == Hits(d, r) + (if d == 0 && Rem(r) == 0 then 1 else 0)
  {
    HitsClosedForm(d, r);
    if r >= 0 {
      ClicksUp(d, r);
    } else {
      ClicksDown(d, r);
    }
  }

  lemma ClicksUp(d: int, r: int)
    requires -100 < d < 100 && r >= 0
    ensures (d + r) / 100 - d / 100
      == r / 100 + (if PartClick(d, r) then 1 else 0) - (if d == 0 && Rem(r) == 0 then 1 else 0)
  {
    var q, a := r % 100, r / 100;
    assert Rem(r) == q;
    var o := d + q;
    assert (d + r) / 100 == o / 100 + a;
    if d >= 0 {
      assert d / 100 == 0;
      if o >= 100 { assert o / 100 == 1; } else { assert o / 100 == 0; }
    } else {
      assert d / 100 == -1;
      if o >= 0 { assert o / 100 == 0; } else { assert o / 100 == -1; }
    }
  }

  lemma ClicksDown(d: int, r: int)
    requires -100 < d < 100 && r < 0
    ensures (d - 1) / 100 - (d + r - 1) / 100
      == (-r) / 100 + (if PartClick(d, r) then 1 else 0) - (if d == 0 && Rem(r) == 0 then 1 else 0)
  {
    var m, a := (-r) % 100, (-r) / 100;
    assert Rem(r) == -m;
    var o := d - m;
    assert (d + r - 1) / 100 == (o - 1) / 100 - a;
    if d > 0 {
      assert (d - 1) / 100 == 0;
      if o <= 0 { assert (o - 1) / 100 == -1; } else { assert (o - 1) / 100 == 0; }
    } else {
      assert (d - 1) / 100 == -1;
      if o <= -100 { assert (o - 1) / 100 == -2; } else { assert (o - 1) / 100 == -1; }
    }
  }

  /** "L50" then "R100": part two counts three clicks where the dial shows 0 only twice. */
  lemma Part2Overcounts()
    ensures ClickTotal([-50, 100]) == 3
    ensures TrueClicks([-50, 100]) == 2
  {
    CountedClicks();
    ActualClicks();
  }

  lemma CountedClicks()
    ensures ClickTotal([-50, 100]) == 3
  {
    var rs := [-50, 100];
    assert rs[..1] == [-50] && rs[..1][..0] == [];
    assert DialAfter2([-50]) == 0;
    assert Clicks(50, -50) == 1;
    assert Clicks(0, 100) == 2;
  }

  lemma ActualClicks()
    ensures TrueClicks([-50, 100]) == 2
  {
    var rs := [-50, 100];
    assert rs[..1] == [-50] && rs[..1][..0] == [];
    assert Sum([-50]) == -50;
    assert TrueClicks(rs) == Hits(50, -50) + Hits(0, 100);
    OneHit(50, -50);
    OneHit(0, 100);
  }

  lemma OneHit(p: int, r: int)
    requires (p == 50 && r == -50) || (p == 0 && r == 100)
    ensures Hits(p, r) == 1
  {
    HitsClosedForm(p, r);
  }

  // ---------------------------------------------------------------------
  // Part two, corrected

  /** The part-rotation click with the dead-zero flag raised only by a part rotation. */
  predicate PartClickFixed(previous: int, rotation: int)
    requires -100 < previous < 100
  {
    var overshoot := Overshoot(previous, rotation);
    var dial := Rem(overshoot);
    (dial == 0 && Rem(rotation) != 0)
    || overshoot > 100 || overshoot < -100
    || (previous < 0 && overshoot > 0)
    || (previous > 0 && overshoot < 0)
  }

  function ClicksFixed(previous: int, rotation: int): (n: nat)
    requires -100 < previous < 100
    ensures n == Hits(previous, rotation)
  {
    ClicksVersusHits(previous, rotation);
    Abs(rotation) / 100 + (if PartClickFixed(previous, rotation) then 1 else 0)
  }

  /** The clicks at which a real dial, started at 50, shows 0 over all of the rotations. */
  function TrueClicks(rs: seq<int>): nat {
    if rs == [] then 0 else TrueClicks(rs[..|rs| - 1]) + Hits(50 + Sum(rs[..|rs| - 1]), rs[|rs| - 1])
  }

  /** A rotation hits 0 as often from the part-two dial as from 50 plus the rotations before it. */
  lemma HitsFromDial(rs: seq<int>, r: int)
    ensures Hits(DialAfter2(rs), r) == Hits(50 + Sum(rs), r)
  {
    DialAfter2Congruent(rs);
    var p := 50 + Sum(rs);
    var k := (DialAfter2(rs) - p) / 100;
    assert DialAfter2(rs) == p + 100 * k;
    HitsPeriodic(p, r, k);
  }

  /** Part two with the dead-zero flag corrected: it counts every click at which the dial shows 0. */
  method Part2Fixed(lines: seq<string>) returns (zeros: nat)
    requires forall i :: 0 <= i < |lines| ==> IsRotationLine(lines[i])
    ensures zeros == TrueClicks(Rotations(lines))
  {
    zeros := CountTrueClicks(Rotations(lines));
  }

  /** The loop of the corrected part two over the parsed rotations. */
  method CountTrueClicks(rotations: seq<int>) returns (zeros: nat)
    ensures zeros == TrueClicks(rotations)
  {
    var dial := 50;
    zeros := 0;
    for i := 0 to |rotations|
      invariant dial == DialAfter2(rotations[..i])
      invariant zeros == TrueClicks(rotations[..i])
    {
      var rotation := rotations[i];
      assert rotations[..i + 1][..i] == rotations[..i];
      HitsFromDial(rotations[..i], rotation);
      zeros := zeros + ClicksFixed(dial, rotation);
      dial := Turn2(dial, rotation);
    }
    assert rotations[..|rotations|] == rotations;
  }
}
