/**
 * Day 3: every line of the input is a bank of batteries, one joltage digit
 * per character. Part one switches on two batteries of each bank, keeping
 * their order, so that the two digits read as the largest possible number;
 * part two keeps a window of twelve batteries that it improves one battery
 * at a time, and reads the twelve digits as a decimal number.
 */
module Day03 {
  import opened Wrappers
  import opened Decimal
  import Text

  // ---------------------------------------------------------------------
  // Input

  /** A line that `c.to_digit(10).unwrap()` accepts throughout, with at least size batteries. */
  predicate IsBankLine(line: string, size: nat) {
    AllDigits(line) && |line| >= size
  }

  /** Every line of the input is a bank of at least size batteries. */
  predicate IsBankList(input: string, size: nat) {
    var lines := Text.Lines(input);
    forall i :: 0 <= i < |lines| ==> IsBankLine(lines[i], size)
  }

  /** Every element is a decimal digit. */
  predicate IsDigits(xs: seq<nat>) {
    forall i :: 0 <= i < |xs| ==> xs[i] < 10
  }

  /** The joltages of a line's batteries. */
  function Bank(line: string): (bank: seq<nat>)
    requires AllDigits(line)
    ensures |bank| == |line| && IsDigits(bank)
    ensures forall i :: 0 <= i < |line| ==> bank[i] == DigitValue(line[i])
  {
    seq(|line|, i requires 0 <= i < |line| => DigitValue(line[i]))
  }

  function Max(a: nat, b: nat): nat {
    if a >= b then a else b
  }

  // ---------------------------------------------------------------------
  // Part one

  /** The joltage of the bank with the batteries at i and j (i before j) switched on. */
  function PairJoltage(bank: seq<nat>, i: nat, j: nat): nat
    requires i < j < |bank|
  {
    10 * bank[i] + bank[j]
  }

  /** The position of a largest battery among the first k. */
  function MaxPosition(bank: seq<nat>, k: nat): (p: nat)
    requires 1 <= k <= |bank|
    ensures p < k
    ensures forall i :: 0 <= i < k ==> bank[i] <= bank[p]
  {
    if k == 1 then 0
    else
      var p := MaxPosition(bank, k - 1);
      if bank[k - 1] > bank[p] then k - 1 else p
  }

  /**
   * The largest pair joltage among the first k batteries, built up one
   * battery at a time: the last of them either takes no part in the best
   * pair, or it is the second battery and the first is the largest before it.
   */
  function BestPair(bank: seq<nat>, k: nat): nat
    requires 2 <= k <= |bank|
  {
    if k == 2 then 10 * bank[0] + bank[1]
    else Max(BestPair(bank, k - 1), 10 * bank[MaxPosition(bank, k - 1)] + bank[k - 1])
  }

  /** BestPair is the joltage of some pair of batteries and no pair gives more. */
  lemma BestPairIsLargest(bank: seq<nat>, k: nat)
    requires 2 <= k <= |bank|
    ensures exists i, j :: 0 <= i < j < k && BestPair(bank, k) == PairJoltage(bank, i, j)
    ensures forall i, j :: 0 <= i < j < k ==> PairJoltage(bank, i, j) <= BestPair(bank, k)
  {
    var i, j := BestPairAchieved(bank, k);
    forall i, j | 0 <= i < j < k ensures PairJoltage(bank, i, j) <= BestPair(bank, k) {
      BestPairBounds(bank, k, i, j);
    }
  }

  /** The positions of a pair whose joltage is BestPair. */
  lemma {:induction false} BestPairAchieved(bank: seq<nat>, k: nat) returns (i: nat, j: nat)
    requires 2 <= k <= |bank|
    ensures i < j < k && BestPair(bank, k) == PairJoltage(bank, i, j)
  {
    if k == 2 {
      i, j := 0, 1;
    } else if BestPair(bank, k) == BestPair(bank, k - 1) {
      i, j := BestPairAchieved(bank, k - 1);
    } else {
      i, j := MaxPosition(bank, k - 1), k - 1;
    }
  }

  /** No pair of batteries gives more than BestPair. */
  lemma {:induction false} BestPairBounds(bank: seq<nat>, k: nat, i: nat, j: nat)
    requires 2 <= k <= |bank| && i < j < k
    ensures PairJoltage(bank, i, j) <= BestPair(bank, k)
  {
    if k > 2 && j < k - 1 {
      BestPairBounds(bank, k - 1, i, j);
    }
  }

  /** Seeing more batteries never lowers the best pair. */
  lemma {:induction false} BestPairGrows(bank: seq<nat>, k: nat, n: nat)
    requires 2 <= k <= n <= |bank|
    ensures BestPair(bank, k) <= BestPair(bank, n)
  {
    if k < n {
      BestPairGrows(bank, k, n - 1);
    }
  }

  /**
   * The loop of `part1` over one bank: the two switched-on batteries start
   * as the first two, and every further battery may become the second one
   * (the first staying) or the second one with the old second becoming the
   * first, whichever raises the joltage more.
   */
  method BankJoltage(bank: seq<nat>) returns (joltage: nat)
    requires |bank| >= 2
    ensures joltage == BestPair(bank, |bank|)
    ensures exists i, j :: 0 <= i < j < |bank| && joltage == PairJoltage(bank, i, j)
  {
    var firstBattery := bank[0];
    var secondBattery := bank[1];
    for k := 2 to |bank|
      invariant firstBattery * 10 + secondBattery == BestPair(bank, k)
      invariant Max(firstBattery, secondBattery) == bank[MaxPosition(bank, k)]
    {
      BestPairStep(bank, k);
      firstBattery, secondBattery := ConsiderBattery(firstBattery, secondBattery, bank[k]);
    }
    joltage := firstBattery * 10 + secondBattery;
    BestPairIsLargest(bank, |bank|);
  }

  /** How the best pair and the largest battery change when one more battery is seen. */
  lemma BestPairStep(bank: seq<nat>, k: nat)
    requires 2 <= k < |bank|
    ensures BestPair(bank, k + 1) == Max(BestPair(bank, k), 10 * bank[MaxPosition(bank, k)] + bank[k])
    ensures bank[MaxPosition(bank, k + 1)] == Max(bank[MaxPosition(bank, k)], bank[k])
  {
  }

  /**
   * One battery of the loop of `part1`: it becomes the second battery when
   * that raises the joltage at least as much as shifting the second battery
   * to the first place and taking the new one as second; the shift is taken
   * when it raises the joltage more. Either way the result is the larger of
   * the current pair and the best pair that ends with the new battery.
   */
  method ConsiderBattery(firstBattery: nat, secondBattery: nat, battery: nat)
    returns (newFirst: nat, newSecond: nat)
    ensures newFirst * 10 + newSecond
         == Max(firstBattery * 10 + secondBattery, 10 * Max(firstBattery, secondBattery) + battery)
    ensures Max(newFirst, newSecond) == Max(Max(firstBattery, secondBattery), battery)
  {
    newFirst, newSecond := firstBattery, secondBattery;
    var current := firstBattery * 10 + secondBattery;
    var lhs := firstBattery * 10 + battery;
    var rhs := secondBattery * 10 + battery;
    if lhs > current && lhs >= rhs {
      newSecond := battery;
      return;
    }
    if rhs > current && rhs > lhs {
      newFirst := secondBattery;
      newSecond := battery;
    }
  }

  /** The sum over the banks of the best pair joltage. */
  function PairTotal(lines: seq<string>): nat
    requires forall i :: 0 <= i < |lines| ==> IsBankLine(lines[i], 2)
  {
    if |lines| == 0 then 0
    else
      var line := lines[|lines| - 1];
      assert IsBankLine(line, 2);
      PairTotal(lines[..|lines| - 1]) + BestPair(Bank(line), |line|)
  }

  /** `part1`: the sum over the banks of their largest pair joltage. */
  method Part1(input: string) returns (totalJoltage: nat)
    requires IsBankList(input, 2)
    ensures totalJoltage == PairTotal(Text.Lines(input))
  {
    var lines := Text.Lines(input);
    totalJoltage := 0;
    assert forall i :: 0 <= i < |lines| ==> IsBankLine(lines[i], 2);
    for i := 0 to |lines|
      invariant totalJoltage == PairTotal(lines[..i])
    {
      assert lines[..i + 1][..i] == lines[..i];
      var joltage := BankJoltage(Bank(lines[i]));
      totalJoltage := totalJoltage + joltage;
    }
    assert lines[..|lines|] == lines;
  }

  // ---------------------------------------------------------------------
  // Part two: where to squeeze

  /** No element is greater than the one before it. */
  predicate NonIncreasing(xs: seq<nat>) {
    forall j :: 0 <= j < |xs| - 1 ==> xs[j + 1] <= xs[j]
  }

  /** The least i with xs[i+1] > xs[i], when there is one. */
  function FirstAscent(xs: seq<nat>): (r: Option<nat>)
    ensures r.None? <==> NonIncreasing(xs)
    ensures r.Some? ==> r.value + 1 < |xs| && xs[r.value] < xs[r.value + 1]
    ensures r.Some? ==> forall j :: 0 <= j < r.value ==> xs[j + 1] <= xs[j]
  {
    if |xs| < 2 then None
    else if xs[1] > xs[0] then Some(0)
    else
      match FirstAscent(xs[1..])
      case None => None
      case Some(i) => Some(i + 1)
  }

  /** `squeeze_position`: walks the windows of two neighbours and stops at the first ascent. */
  method SqueezePosition(xs: seq<nat>) returns (position: Option<nat>)
    ensures position == FirstAscent(xs)
  {
    var i := 0;
    while i + 1 < |xs|
      invariant i == 0 || i < |xs|
      invariant forall j :: 0 <= j < i ==> xs[j + 1] <= xs[j]
    {
      if xs[i + 1] > xs[i] {
        return Some(i);
      }
      i := i + 1;
    }
    assert NonIncreasing(xs);
    return None;
  }

  // ---------------------------------------------------------------------
  // Part two: the window

  /** How many batteries part two switches on. */
  const WindowSize: nat := 12

  /**
   * One battery of part two's loop: when the slots hold an ascent, the slot
   * before the first ascent is removed and the battery pushed at the end;
   * then the battery replaces the last slot when it is greater.
   */
  function Squeeze(batteries: seq<nat>, battery: nat): (next: seq<nat>)
    requires |batteries| >= 1
    ensures |next| == |batteries|
  {
    var pushed := Pushed(batteries, battery);
    if battery > pushed[|pushed| - 1] then pushed[..|pushed| - 1] + [battery] else pushed
  }

  /** The slots after the squeeze step proper: unchanged when they hold no ascent. */
  function Pushed(batteries: seq<nat>, battery: nat): (pushed: seq<nat>)
    ensures |pushed| == |batteries|
  {
    var ascent := FirstAscent(batteries);
    if ascent.Some? then Without(batteries, ascent.value) + [battery] else batteries
  }

  /** `Vec::remove(p)`: xs without its element at p, the later ones moving down. */
  function Without<T>(xs: seq<T>, p: nat): (r: seq<T>)
    requires p < |xs|
    ensures |r| == |xs| - 1
    ensures forall t :: 0 <= t < p ==> r[t] == xs[t]
    ensures forall t :: p <= t < |r| ==> r[t] == xs[t + 1]
  {
    xs[..p] + xs[p + 1..]
  }

  /** The slots after the batteries bank[12..n] went through the loop. */
  function Window(bank: seq<nat>, n: nat): (batteries: seq<nat>)
    requires WindowSize <= n <= |bank|
    ensures |batteries| == WindowSize
  {
    if n == WindowSize then bank[..WindowSize] else Squeeze(Window(bank, n - 1), bank[n - 1])
  }

  /** picks lists, in increasing order, positions in ys below n that hold xs. */
  predicate Embeds(picks: seq<nat>, xs: seq<nat>, ys: seq<nat>, n: nat) {
    && |picks| == |xs|
    && (forall t :: 0 <= t < |picks| ==> picks[t] < n && picks[t] < |ys| && xs[t] == ys[picks[t]])
    && (forall t :: 0 <= t < |picks| - 1 ==> picks[t] < picks[t + 1])
  }

  /** xs is made of elements of ys[..n], taken in their order. */
  ghost predicate IsSubsequence(xs: seq<nat>, ys: seq<nat>, n: nat) {
    exists picks :: Embeds(picks, xs, ys, n)
  }

  /** Removing a slot and pushing the battery at n keeps the slots a subsequence. */
  lemma PushedEmbeds(picks: seq<nat>, batteries: seq<nat>, bank: seq<nat>, n: nat, p: nat)
    requires p < |batteries| && n < |bank|
    requires Embeds(picks, batteries, bank, n)
    ensures Embeds(Without(picks, p) + [n], Without(batteries, p) + [bank[n]], bank, n + 1)
  {
    var kept, keptPicks := Without(batteries, p), Without(picks, p);
    assert Embeds(keptPicks, kept, bank, n) by {
      forall t | 0 <= t < |keptPicks| - 1 ensures keptPicks[t] < keptPicks[t + 1] {
        if t + 1 == p {
          assert keptPicks[t] == picks[t] < picks[t + 1] < picks[t + 2] == keptPicks[t + 1];
        }
      }
    }
    AppendEmbeds(keptPicks, kept, bank, n);
  }

  /** A battery after all the slots can be pushed at the end. */
  lemma AppendEmbeds(picks: seq<nat>, xs: seq<nat>, bank: seq<nat>, n: nat)
    requires n < |bank|
    requires Embeds(picks, xs, bank, n)
    ensures Embeds(picks + [n], xs + [bank[n]], bank, n + 1)
  {
  }

  /** Embedded below n is embedded below n + 1. */
  lemma WidenEmbeds(picks: seq<nat>, xs: seq<nat>, bank: seq<nat>, n: nat)
    requires Embeds(picks, xs, bank, n)
    ensures Embeds(picks, xs, bank, n + 1)
  {
  }

  /** The battery at n can replace the last slot. */
  lemma RaiseEmbeds(picks: seq<nat>, xs: seq<nat>, bank: seq<nat>, n: nat)
    requires |xs| >= 1 && n < |bank|
    requires Embeds(picks, xs, bank, n + 1)
    ensures Embeds(picks[..|xs| - 1] + [n], xs[..|xs| - 1] + [bank[n]], bank, n + 1)
  {
    var last := |xs| - 1;
    if last > 0 {
      assert picks[last - 1] < picks[last] <= n;
      IncreasingBelow(picks, last - 1);
    }
  }

  /** In an increasing sequence, every element before i is below the one at i. */
  lemma {:induction false} IncreasingBelow(picks: seq<nat>, i: nat)
    requires i < |picks|
    requires forall t :: 0 <= t < |picks| - 1 ==> picks[t] < picks[t + 1]
    ensures forall t :: 0 <= t < i ==> picks[t] < picks[i]
  {
    if i > 0 {
      IncreasingBelow(picks, i - 1);
    }
  }

  /** Squeezing keeps the slots a subsequence when the battery comes after all of them. */
  lemma SqueezeEmbeds(picks: seq<nat>, batteries: seq<nat>, bank: seq<nat>, n: nat) returns (squeezedPicks: seq<nat>)
    requires |batteries| >= 1 && n < |bank|
    requires Embeds(picks, batteries, bank, n)
    ensures Embeds(squeezedPicks, Squeeze(batteries, bank[n]), bank, n + 1)
  {
    var ascent := FirstAscent(batteries);
    var pushed := Pushed(batteries, bank[n]);
    var pushedPicks;
    if ascent.Some? {
      pushedPicks := Without(picks, ascent.value) + [n];
      PushedEmbeds(picks, batteries, bank, n, ascent.value);
    } else {
      pushedPicks := picks;
      WidenEmbeds(picks, batteries, bank, n);
    }
    var last := |pushed| - 1;
    if bank[n] > pushed[last] {
      RaiseEmbeds(pushedPicks, pushed, bank, n);
      squeezedPicks := pushedPicks[..last] + [n];
    } else {
      squeezedPicks := pushedPicks;
    }
  }

  /** The positions in the bank of the slots after the batteries bank[12..n] went through the loop. */
  lemma {:induction false} WindowPicks(bank: seq<nat>, n: nat) returns (picks: seq<nat>)
    requires WindowSize <= n <= |bank|
    ensures Embeds(picks, Window(bank, n), bank, n)
  {
    if n == WindowSize {
      assert Window(bank, n) == bank[..n];
      picks := PrefixPicks(bank, n);
    } else {
      var previousPicks := WindowPicks(bank, n - 1);
      picks := WindowStepPicks(bank, n, previousPicks);
    }
  }

  /** One more battery through the loop keeps the slots embedded. */
  lemma WindowStepPicks(bank: seq<nat>, n: nat, previousPicks: seq<nat>) returns (picks: seq<nat>)
    requires WindowSize < n <= |bank|
    requires Embeds(previousPicks, Window(bank, n - 1), bank, n - 1)
    ensures Embeds(picks, Window(bank, n), bank, n)
  {
    var previous := Window(bank, n - 1);
    assert Window(bank, n) == Squeeze(previous, bank[n - 1]);
    picks := SqueezeEmbedsAt(previousPicks, previous, bank, n);
  }

  lemma SqueezeEmbedsAt(picks: seq<nat>, batteries: seq<nat>, bank: seq<nat>, n: nat) returns (squeezedPicks: seq<nat>)
    requires |batteries| >= 1 && 0 < n <= |bank|
    requires Embeds(picks, batteries, bank, n - 1)
    ensures Embeds(squeezedPicks, Squeeze(batteries, bank[n - 1]), bank, n)
  {
    squeezedPicks := SqueezeEmbeds(picks, batteries, bank, n - 1);
    EmbedsBelowEqual(squeezedPicks, Squeeze(batteries, bank[n - 1]), bank, n - 1 + 1, n);
  }

  /** The bound of an embedding is a value, however it is written. */
  lemma EmbedsBelowEqual(picks: seq<nat>, xs: seq<nat>, ys: seq<nat>, n: nat, m: nat)
    requires n == m && Embeds(picks, xs, ys, n)
    ensures Embeds(picks, xs, ys, m)
  {
  }

  /** The first n batteries sit at positions 0 to n - 1. */
  lemma PrefixPicks(bank: seq<nat>, n: nat) returns (picks: seq<nat>)
    requires n <= |bank|
    ensures Embeds(picks, bank[..n], bank, n)
  {
    picks := seq(n, t => t);
  }

  /** The slots are always batteries of the bank, in the bank's order. */
  lemma WindowIsSubsequence(bank: seq<nat>, n: nat)
    requires WindowSize <= n <= |bank|
    ensures IsSubsequence(Window(bank, n), bank, n)
  {
    var picks := WindowPicks(bank, n);
  }

  // ---------------------------------------------------------------------
  // Part two: the joltage of the slots

  /** The digits read as a decimal number: the sum of xs[i]·10^(|xs|-1-i). */
  function PlaceValue(xs: seq<nat>): nat {
    if xs == [] then 0 else xs[0] * Pow10(|xs| - 1) + PlaceValue(xs[1..])
  }

  lemma DigitTimesPower(d: nat, p: nat)
    requires d < 10
    ensures d * p <= 9 * p
  {
  }

  lemma {:induction false} PlaceValueBound(xs: seq<nat>)
    requires IsDigits(xs)
    ensures PlaceValue(xs) < Pow10(|xs|)
  {
    if xs != [] {
      PlaceValueBound(xs[1..]);
      DigitTimesPower(xs[0], Pow10(|xs| - 1));
    }
  }

  /** Of two digit strings of one length, the one with the greater digit at the first difference is larger. */
  lemma {:induction false} PlaceValueCompare(a: seq<nat>, b: seq<nat>, i: nat)
    requires |a| == |b| && IsDigits(a) && IsDigits(b)
    requires i < |a| && a[..i] == b[..i] && a[i] > b[i]
    ensures PlaceValue(a) > PlaceValue(b)
  {
    var p := Pow10(|a| - 1);
    assert PlaceValue(a) == a[0] * p + PlaceValue(a[1..]);
    assert PlaceValue(b) == b[0] * p + PlaceValue(b[1..]);
    if i == 0 {
      PlaceValueBound(b[1..]);
      MoreTimesPower(a[0], b[0] + 1, p);
      assert (b[0] + 1) * p == b[0] * p + p;
    } else {
      assert a[0] == a[..i][0] == b[..i][0] == b[0];
      assert a[1..][..i - 1] == b[1..][..i - 1];
      PlaceValueCompare(a[1..], b[1..], i - 1);
    }
  }

  lemma MoreTimesPower(x: nat, y: nat, p: nat)
    requires x >= y
    ensures x * p >= y * p
  {
  }

  /** A squeeze never lowers the joltage that the slots spell. */
  lemma SqueezeGrows(batteries: seq<nat>, battery: nat)
    requires |batteries| >= 1 && IsDigits(batteries) && battery < 10
    ensures IsDigits(Squeeze(batteries, battery))
    ensures PlaceValue(batteries) <= PlaceValue(Squeeze(batteries, battery))
  {
    var pushed := Pushed(batteries, battery);
    PushedGrows(batteries, battery);
    var last := |pushed| - 1;
    if battery > pushed[last] {
      RaiseGrows(pushed, battery);
    }
  }

  /** Removing the slot before the first ascent and pushing a digit raises the joltage. */
  lemma PushedGrows(batteries: seq<nat>, battery: nat)
    requires IsDigits(batteries) && battery < 10
    ensures IsDigits(Pushed(batteries, battery))
    ensures PlaceValue(batteries) <= PlaceValue(Pushed(batteries, battery))
  {
    var ascent := FirstAscent(batteries);
    if ascent.Some? {
      var p := ascent.value;
      var pushed := Without(batteries, p) + [battery];
      assert IsDigits(pushed);
      assert pushed[..p] == batteries[..p];
      PlaceValueCompare(pushed, batteries, p);
    }
  }

  /** Raising the last slot to a greater digit raises the joltage. */
  lemma RaiseGrows(xs: seq<nat>, battery: nat)
    requires |xs| >= 1 && IsDigits(xs) && xs[|xs| - 1] < battery < 10
    ensures IsDigits(xs[..|xs| - 1] + [battery])
    ensures PlaceValue(xs) < PlaceValue(xs[..|xs| - 1] + [battery])
  {
    var last := |xs| - 1;
    var raised := xs[..last] + [battery];
    assert raised[..last] == xs[..last];
    PlaceValueCompare(raised, xs, last);
  }

  /** Every pass of the loop keeps or raises the joltage of the slots. */
  lemma WindowGrows(bank: seq<nat>, n: nat)
    requires IsDigits(bank) && WindowSize < n <= |bank|
    ensures IsDigits(Window(bank, n - 1))
    ensures PlaceValue(Window(bank, n - 1)) <= PlaceValue(Window(bank, n))
  {
    WindowDigits(bank, n - 1);
    SqueezeGrows(Window(bank, n - 1), bank[n - 1]);
    assert Window(bank, n) == Squeeze(Window(bank, n - 1), bank[n - 1]);
  }

  lemma {:induction false} WindowDigits(bank: seq<nat>, n: nat)
    requires IsDigits(bank) && WindowSize <= n <= |bank|
    ensures IsDigits(Window(bank, n))
  {
    if n > WindowSize {
      WindowDigits(bank, n - 1);
      SqueezeGrows(Window(bank, n - 1), bank[n - 1]);
      assert Window(bank, n) == Squeeze(Window(bank, n - 1), bank[n - 1]);
    }
  }

  /** `b.to_string()` for every slot, collected into one string. */
  function Spell(batteries: seq<nat>): string {
    if batteries == [] then [] else Show(batteries[0]) + Spell(batteries[1..])
  }

  /** The spelled slots parse back as their place value. */
  lemma {:induction false} SpellValue(batteries: seq<nat>)
    requires IsDigits(batteries)
    ensures |Spell(batteries)| == |batteries| && AllDigits(Spell(batteries))
    ensures ParseNat(Spell(batteries)) == PlaceValue(batteries)
  {
    if batteries != [] {
      var rest := batteries[1..];
      SpellValue(rest);
      var head := Show(batteries[0]);
      assert head == [DigitChar(batteries[0])];
      ParseNatAppend(head, Spell(rest));
    }
  }

  /** The loop of `part2` over one bank, and the joltage its slots spell. */
  method WindowJoltage(bank: seq<nat>) returns (joltage: nat)
    requires |bank| >= WindowSize && IsDigits(bank)
    ensures joltage == PlaceValue(Window(bank, |bank|))
  {
    var batteries := bank[..WindowSize];
    for n := WindowSize to |bank|
      invariant batteries == Window(bank, n)
    {
      batteries := SqueezeIn(batteries, bank[n]);
    }
    WindowDigits(bank, |bank|);
    SpellValue(batteries);
    var formattedJoltage := Spell(batteries);
    joltage := ParseNat(formattedJoltage);
  }

  /** The body of the loop of `part2`: `remove` and `push` at the first ascent, then raise the last slot. */
  method SqueezeIn(batteries: seq<nat>, battery: nat) returns (next: seq<nat>)
    requires |batteries| >= 1
    ensures next == Squeeze(batteries, battery)
  {
    next := batteries;
    var position := SqueezePosition(next);
    if position.Some? {
      next := next[..position.value] + next[position.value + 1..];
      next := next + [battery];
    }
    if battery > next[|next| - 1] {
      next := next[..|next| - 1] + [battery];
    }
  }

  /** The sum over the banks of the joltage of the final slots. */
  function WindowTotal(lines: seq<string>): nat
    requires forall i :: 0 <= i < |lines| ==> IsBankLine(lines[i], WindowSize)
  {
    if |lines| == 0 then 0
    else
      var line := lines[|lines| - 1];
      assert IsBankLine(line, WindowSize);
      var bank := Bank(line);
      WindowTotal(lines[..|lines| - 1]) + PlaceValue(Window(bank, |bank|))
  }

  /** `part2`: the sum over the banks of the twelve-digit joltage of the window. */
  method Part2(input: string) returns (totalJoltage: nat)
    requires IsBankList(input, WindowSize)
    ensures totalJoltage == WindowTotal(Text.Lines(input))
  {
    var lines := Text.Lines(input);
    totalJoltage := 0;
    assert forall i :: 0 <= i < |lines| ==> IsBankLine(lines[i], WindowSize);
    for i := 0 to |lines|
      invariant totalJoltage == WindowTotal(lines[..i])
    {
      assert lines[..i + 1][..i] == lines[..i];
      var bankJoltage := WindowJoltage(Bank(lines[i]));
      totalJoltage := totalJoltage + bankJoltage;
    }
    assert lines[..|lines|] == lines;
  }
}
