/**
 * Day 5: the input is a list of inclusive ranges of fresh ingredient ids
 * ("a-b" lines), a blank line, and a list of available ingredient ids.
 * The ranges are parsed, sorted by start and merged. Part one counts the
 * available ids that lie in some range, each found by a binary search
 * over the merged ranges. Part two adds up the lengths of the merged
 * ranges, which is the number of distinct fresh ids.
 */
module Day05 {
  import opened Wrappers
  import opened Decimal
  import Text

  /** The one error of `CustomRange::from_str`. */
  datatype ParseError = InvalidFormat

  /** `std::cmp::Ordering`. */
  datatype Ordering = Less | Equal | Greater

  /** An inclusive range of ids. Nothing forces start <= end. */
  datatype CustomRange = CustomRange(start: nat, end: nat)

  // ---------------------------------------------------------------------
  // One range

  /** The ids from low to high inclusive; b - a + 1 of them when a <= b + 1. */
  function Between(low: nat, high: int): (ids: set<nat>)
    ensures forall id :: id in ids <==> low <= id <= high
    ensures |ids| == if low <= high then high - low + 1 else 0
    decreases high - low
  {
    if high < low then {}
    else
      var below := Between(low, high - 1);
      assert high !in below;
      below + {high}
  }

  /** The ids a range covers. */
  function IdsOf(r: CustomRange): set<nat> {
    Between(r.start, r.end)
  }

  /** When the line holds a '-', both sides are unsigned decimal numbers (otherwise `parse().unwrap()` panics). */
  predicate NumeralSides(s: string) {
    var split := Text.SplitOnce(s, "-");
    split.Some? ==> IsNumeral(split.value.0) && IsNumeral(split.value.1)
  }

  /** `CustomRange::from_str`: split once at '-', fail with InvalidFormat when there is none. */
  function FromStr(s: string): (r: Result<CustomRange, ParseError>)
    requires NumeralSides(s)
    ensures r.Err? <==> '-' !in s
  {
    DashOccurs(s);
    var split := Text.SplitOnce(s, "-");
    if split.None? then Err(InvalidFormat)
    else Ok(CustomRange(ParseNat(split.value.0), ParseNat(split.value.1)))
  }

  /** "-" occurs in s as a substring exactly when '-' is one of its characters. */
  lemma DashOccurs(s: string)
    ensures (forall j :: !Text.OccursAt(s, "-", j)) <==> '-' !in s
  {
    if '-' in s {
      var k :| 0 <= k < |s| && s[k] == '-';
      assert s[k..k + 1] == "-";
      assert Text.OccursAt(s, "-", k);
    } else {
      forall j: nat ensures !Text.OccursAt(s, "-", j) {
        if j + 1 <= |s| {
          assert s[j..j + 1][0] == s[j];
        }
      }
    }
  }

  /** A range written the way the input writes it. */
  function Format(r: CustomRange): string {
    Show(r.start) + "-" + Show(r.end)
  }

  /** Reading a written range gives it back. */
  lemma FromStrFormat(r: CustomRange)
    ensures NumeralSides(Format(r)) && FromStr(Format(r)) == Ok(r)
  {
    var a, b := Show(r.start), Show(r.end);
    var s := Format(r);
    assert s == a + "-" + b;
    assert Text.OccursAt(s, "-", |a|) by {
      assert s[|a|..|a| + 1] == "-";
    }
    var split := Text.SplitOnce(s, "-");
    var v0 := split.value.0;
    assert s[|v0|] == '-' by {
      assert s == v0 + "-" + split.value.1;
    }
    assert forall k :: 0 <= k < |a| ==> s[k] == a[k] && s[k] != '-';
    assert v0 == a && split.value.1 == b by {
      assert s == v0 + "-" + split.value.1;
      assert s[..|a|] == a && s[|a| + 1..] == b;
    }
    ParseShow(r.start);
    ParseShow(r.end);
  }

  /** `compare_value`: where num lies relative to the range, as binary search wants it. */
  function CompareValue(r: CustomRange, num: nat): (o: Ordering)
    ensures o == Equal <==> num in IdsOf(r)
    ensures o == Greater <==> num < r.start
    ensures o == Less <==> r.start <= num && r.end < num
  {
    if num < r.start then Greater
    else if num > r.end then Less
    else Equal
  }

  /** `len`: `end - start + 1` on u64, which underflows unless start <= end. */
  function Len(r: CustomRange): (n: nat)
    requires r.start <= r.end
    ensures n == |IdsOf(r)|
  {
    r.end - r.start + 1
  }

  // ---------------------------------------------------------------------
  // Lists of ranges

  /** The ids some range of the list covers. */
  function Ids(rs: seq<CustomRange>): set<nat> {
    if |rs| == 0 then {} else IdsOf(rs[0]) + Ids(rs[1..])
  }

  /** An id is covered by the list exactly when one of its ranges covers it. */
  lemma {:induction false} IdsAt(rs: seq<CustomRange>, id: nat)
    ensures id in Ids(rs) <==> exists k :: 0 <= k < |rs| && id in IdsOf(rs[k])
  {
    if |rs| > 0 {
      var tail := rs[1..];
      IdsAt(tail, id);
      if id in Ids(tail) {
        var k :| 0 <= k < |tail| && id in IdsOf(tail[k]);
        assert rs[k + 1] == tail[k];
      }
      if exists k :: 0 <= k < |rs| && id in IdsOf(rs[k]) {
        var k :| 0 <= k < |rs| && id in IdsOf(rs[k]);
        if k > 0 {
          assert tail[k - 1] == rs[k];
        }
      }
    }
  }

  /** Reordering the ranges changes nothing about what they cover. */
  lemma IdsPermutation(rs: seq<CustomRange>, ss: seq<CustomRange>)
    requires multiset(rs) == multiset(ss)
    ensures Ids(rs) == Ids(ss)
  {
    forall id ensures id in Ids(rs) ==> id in Ids(ss) {
      IdsAt(rs, id);
      IdsAt(ss, id);
      if id in Ids(rs) {
        var k :| 0 <= k < |rs| && id in IdsOf(rs[k]);
        assert rs[k] in multiset(ss);
        var l :| 0 <= l < |ss| && ss[l] == rs[k];
      }
    }
    forall id ensures id in Ids(ss) ==> id in Ids(rs) {
      IdsAt(rs, id);
      IdsAt(ss, id);
      if id in Ids(ss) {
        var k :| 0 <= k < |ss| && id in IdsOf(ss[k]);
        assert ss[k] in multiset(rs);
        var l :| 0 <= l < |rs| && rs[l] == ss[k];
      }
    }
  }

  predicate SortedByStart(rs: seq<CustomRange>) {
    forall i, j :: 0 <= i < j < |rs| ==> rs[i].start <= rs[j].start
  }

  /** Each range ends before the next one starts: no overlap and no contact. */
  predicate Separated(rs: seq<CustomRange>) {
    forall i :: 0 <= i < |rs| - 1 ==> rs[i].end < rs[i + 1].start
  }

  predicate WellFormed(rs: seq<CustomRange>) {
    forall i :: 0 <= i < |rs| ==> rs[i].start <= rs[i].end
  }

  // ---------------------------------------------------------------------
  // parse_ranges

  /**
   * Every line up to the first one without a '-' has numeric sides: the
   * lines after a failure are never parsed.
   */
  predicate ParsesWithoutPanic(lines: seq<string>) {
    forall i :: 0 <= i < |lines| ==> (forall j :: 0 <= j < i ==> '-' in lines[j]) ==> NumeralSides(lines[i])
  }

  /** Every line is a range "a-b". */
  predicate Readable(lines: seq<string>) {
    forall i :: 0 <= i < |lines| ==> '-' in lines[i] && NumeralSides(lines[i])
  }

  /** The ranges of the lines, in input order. */
  function Parsed(lines: seq<string>): (rs: seq<CustomRange>)
    requires Readable(lines)
    ensures |rs| == |lines|
  {
    seq(|lines|, i requires 0 <= i < |lines| => FromStr(lines[i]).value)
  }

  /** `sort_by_key(|r| r.start)` places r before the first range that does not start earlier. */
  function InsertByStart(r: CustomRange, sorted: seq<CustomRange>): (result: seq<CustomRange>)
    requires SortedByStart(sorted)
    ensures SortedByStart(result)
    ensures multiset(result) == multiset(sorted) + multiset{r}
    ensures result[0] == r || (|sorted| > 0 && result[0] == sorted[0])
  {
    if |sorted| == 0 || r.start <= sorted[0].start then
      [r] + sorted
    else
      var rest := InsertByStart(r, sorted[1..]);
      assert sorted == [sorted[0]] + sorted[1..];
      [sorted[0]] + rest
  }

  /** A stable sort by start: the library sort that `parse_ranges` calls. */
  function SortByStart(rs: seq<CustomRange>): (sorted: seq<CustomRange>)
    ensures SortedByStart(sorted)
    ensures multiset(sorted) == multiset(rs)
  {
    if |rs| == 0 then []
    else
      assert rs == [rs[0]] + rs[1..];
      InsertByStart(rs[0], SortByStart(rs[1..]))
  }

  /**
   * `parse_ranges`: parse the lines in order, return the first error, and
   * sort what was read by start.
   */
  method ParseRanges(input: string) returns (result: Result<seq<CustomRange>, ParseError>)
    requires ParsesWithoutPanic(Text.Lines(input))
    ensures result.Ok? <==> forall i :: 0 <= i < |Text.Lines(input)| ==> '-' in Text.Lines(input)[i]
    ensures result.Ok? ==> Readable(Text.Lines(input))
    ensures result.Ok? ==> SortedByStart(result.value)
    ensures result.Ok? ==> multiset(result.value) == multiset(Parsed(Text.Lines(input)))
  {
    var lines := Text.Lines(input);
    var ranges: seq<CustomRange> := [];
    for i := 0 to |lines|
      invariant ReadSoFar(lines, i, ranges)
    {
      assert NumeralSides(lines[i]);
      var range := FromStr(lines[i]);
      if range.Err? {
        return Err(range.error);
      }
      ReadNext(lines, i, ranges);
      ranges := ranges + [range.value];
    }
    ReadAll(lines, ranges);
    result := Ok(SortByStart(ranges));
  }

  /** The first i lines are ranges and ranges holds what they read. */
  ghost predicate ReadSoFar(lines: seq<string>, i: nat, ranges: seq<CustomRange>) {
    i <= |lines| && |ranges| == i
    && forall j :: 0 <= j < i ==> '-' in lines[j] && NumeralSides(lines[j]) && Ok(ranges[j]) == FromStr(lines[j])
  }

  lemma ReadNext(lines: seq<string>, i: nat, ranges: seq<CustomRange>)
    requires ReadSoFar(lines, i, ranges) && i < |lines|
    requires NumeralSides(lines[i]) && FromStr(lines[i]).Ok?
    ensures ReadSoFar(lines, i + 1, ranges + [FromStr(lines[i]).value])
  {
  }

  lemma ReadAll(lines: seq<string>, ranges: seq<CustomRange>)
    requires ReadSoFar(lines, |lines|, ranges)
    ensures Readable(lines) && ranges == Parsed(lines)
  {
  }

  // ---------------------------------------------------------------------
  // merged_ranges

  /** The current range widened to the end of range. */
  function Widened(current: CustomRange, range: CustomRange): (widened: CustomRange)
    requires range.start <= current.end
    ensures IdsOf(widened) <= IdsOf(current) + IdsOf(range)
    ensures current.start <= range.start ==> IdsOf(widened) == IdsOf(current) + IdsOf(range)
  {
    CustomRange(current.start, if current.end >= range.end then current.end else range.end)
  }

  /**
   * What the loop of `merged_ranges` produces from a current range and the
   * ranges still to read: the ranges pushed from here on, the last one included.
   */
  function MergeTail(current: CustomRange, rest: seq<CustomRange>): seq<CustomRange>
    decreases |rest|
  {
    if |rest| == 0 then [current]
    else if current.end >= rest[0].start then MergeTail(Widened(current, rest[0]), rest[1..])
    else [current] + MergeTail(rest[0], rest[1..])
  }

  /** The result of `merged_ranges`. */
  function Merged(ranges: seq<CustomRange>): seq<CustomRange> {
    if |ranges| == 0 then [] else MergeTail(ranges[0], ranges[1..])
  }

  /** Every range of rest starts at or after start. */
  predicate StartsFrom(start: nat, rest: seq<CustomRange>) {
    forall j :: 0 <= j < |rest| ==> start <= rest[j].start
  }

  /** The merge keeps the first start and pushes at most one range per input range. */
  lemma {:induction false} MergeTailShape(current: CustomRange, rest: seq<CustomRange>)
    ensures 1 <= |MergeTail(current, rest)| <= |rest| + 1
    ensures MergeTail(current, rest)[0].start == current.start
    decreases |rest|
  {
    if |rest| > 0 {
      if current.end >= rest[0].start {
        MergeTailShape(Widened(current, rest[0]), rest[1..]);
      } else {
        MergeTailShape(rest[0], rest[1..]);
      }
    }
  }

  /** Merging never covers an id that no input range covers, and covers them all when sorted. */
  lemma {:induction false} MergeTailCoverage(current: CustomRange, rest: seq<CustomRange>)
    ensures Ids(MergeTail(current, rest)) <= IdsOf(current) + Ids(rest)
    ensures StartsFrom(current.start, rest) && SortedByStart(rest) ==>
      Ids(MergeTail(current, rest)) == IdsOf(current) + Ids(rest)
    decreases |rest|
  {
    if |rest| > 0 {
      var next, tail := rest[0], rest[1..];
      assert Ids(rest) == IdsOf(next) + Ids(tail);
      if current.end >= next.start {
        MergeTailCoverage(Widened(current, next), tail);
      } else {
        MergeTailCoverage(next, tail);
        assert Ids([current] + MergeTail(next, tail)) == IdsOf(current) + Ids(MergeTail(next, tail)) by {
          assert ([current] + MergeTail(next, tail))[1..] == MergeTail(next, tail);
        }
      }
    } else {
      assert Ids([current]) == IdsOf(current) + Ids([]) by {
        assert [current][1..] == [];
      }
    }
  }

  /** Merging ranges that all have start <= end gives such ranges. */
  lemma {:induction false} MergeTailWellFormed(current: CustomRange, rest: seq<CustomRange>)
    requires current.start <= current.end && WellFormed(rest)
    ensures WellFormed(MergeTail(current, rest))
    decreases |rest|
  {
    if |rest| > 0 {
      if current.end >= rest[0].start {
        MergeTailWellFormed(Widened(current, rest[0]), rest[1..]);
      } else {
        MergeTailWellFormed(rest[0], rest[1..]);
      }
    }
  }

  /** Merging ranges sorted by start gives ranges sorted by start, each ending before the next starts. */
  lemma {:induction false} MergeTailOrder(current: CustomRange, rest: seq<CustomRange>)
    requires StartsFrom(current.start, rest) && SortedByStart(rest)
    ensures SortedByStart(MergeTail(current, rest)) && Separated(MergeTail(current, rest))
    decreases |rest|
  {
    if |rest| > 0 {
      var next, tail := rest[0], rest[1..];
      if current.end >= next.start {
        MergeTailOrder(Widened(current, next), tail);
      } else {
        MergeTailOrder(next, tail);
        var pushed := MergeTail(next, tail);
        MergeTailShape(next, tail);
        assert forall k :: 0 <= k < |pushed| ==> next.start <= pushed[k].start;
      }
    }
  }

  /** A sorted list, read from its first range, starts from that range's start. */
  lemma SortedStartsFrom(ranges: seq<CustomRange>)
    requires SortedByStart(ranges) && |ranges| > 0
    ensures StartsFrom(ranges[0].start, ranges[1..]) && SortedByStart(ranges[1..])
  {
  }

  /** What the merge promises: see MergeTailShape, MergeTailCoverage, MergeTailWellFormed and MergeTailOrder. */
  lemma MergedProperties(ranges: seq<CustomRange>)
    ensures ranges == [] <==> Merged(ranges) == []
    ensures |Merged(ranges)| <= |ranges|
    ensures Ids(Merged(ranges)) <= Ids(ranges)
    ensures WellFormed(ranges) ==> WellFormed(Merged(ranges))
    ensures SortedByStart(ranges) ==> Ids(Merged(ranges)) == Ids(ranges)
    ensures SortedByStart(ranges) ==> SortedByStart(Merged(ranges)) && Separated(Merged(ranges))
  {
    if |ranges| > 0 {
      var first, rest := ranges[0], ranges[1..];
      MergeTailShape(first, rest);
      MergeTailCoverage(first, rest);
      if WellFormed(ranges) {
        MergeTailWellFormed(first, rest);
      }
      if SortedByStart(ranges) {
        SortedStartsFrom(ranges);
        MergeTailOrder(first, rest);
      }
    }
  }

  /**
   * `merged_ranges`: walk the ranges keeping a current one, widen it while
   * the next range starts no later than its end, push it otherwise.
   */
  method MergedRanges(ranges: seq<CustomRange>) returns (merged: seq<CustomRange>)
    ensures merged == Merged(ranges)
  {
    if |ranges| == 0 {
      return [];
    }
    merged := [];
    var current := ranges[0];
    for i := 1 to |ranges|
      invariant merged + MergeTail(current, ranges[i..]) == Merged(ranges)
    {
      var range := ranges[i];
      assert ranges[i..][0] == range && ranges[i..][1..] == ranges[i + 1..];
      if current.end >= range.start {
        current := Widened(current, range);
      } else {
        assert merged + MergeTail(current, ranges[i..]) == (merged + [current]) + MergeTail(range, ranges[i + 1..]);
        merged := merged + [current];
        current := range;
      }
    }
    merged := merged + [current];
  }

  // ---------------------------------------------------------------------
  // Binary search

  /**
   * `binary_search_by(|r| r.compare_value(id))` over sorted, separated
   * ranges: Ok(index of a range holding id) or Err(where it would go).
   */
  method BinarySearchBy(merged: seq<CustomRange>, id: nat) returns (result: Result<nat, nat>)
    requires SortedByStart(merged) && Separated(merged)
    ensures result.Ok? ==> result.value < |merged| && CompareValue(merged[result.value], id) == Equal
    ensures result.Err? ==> result.error <= |merged|
    ensures result.Err? ==> forall k :: 0 <= k < result.error ==> CompareValue(merged[k], id) == Less
    ensures result.Err? ==> forall k :: result.error <= k < |merged| ==> CompareValue(merged[k], id) == Greater
    ensures result.Ok? <==> id in Ids(merged)
  {
    var low, high := 0, |merged|;
    while low < high
      invariant 0 <= low <= high <= |merged|
      invariant forall k :: 0 <= k < low ==> CompareValue(merged[k], id) == Less
      invariant forall k :: high <= k < |merged| ==> CompareValue(merged[k], id) == Greater
    {
      var mid := (low + high) / 2;
      var order := CompareValue(merged[mid], id);
      if order == Equal {
        IdsAt(merged, id);
        return Ok(mid);
      } else if order == Less {
        LessBefore(merged, id, mid);
        low := mid + 1;
      } else {
        GreaterAfter(merged, id, mid);
        high := mid;
      }
    }
    IdsAt(merged, id);
    result := Err(low);
  }

  /** If id lies past range mid, it lies past every earlier range too. */
  lemma LessBefore(merged: seq<CustomRange>, id: nat, mid: nat)
    requires SortedByStart(merged) && Separated(merged)
    requires mid < |merged| && CompareValue(merged[mid], id) == Less
    ensures forall k :: 0 <= k <= mid ==> CompareValue(merged[k], id) == Less
  {
    forall k | 0 <= k < mid ensures CompareValue(merged[k], id) == Less {
      assert merged[k].end < merged[k + 1].start;
      assert merged[k + 1].start <= merged[mid].start;
    }
  }

  /** If id lies before range mid, it lies before every later range too. */
  lemma GreaterAfter(merged: seq<CustomRange>, id: nat, mid: nat)
    requires SortedByStart(merged)
    requires mid < |merged| && CompareValue(merged[mid], id) == Greater
    ensures forall k :: mid <= k < |merged| ==> CompareValue(merged[k], id) == Greater
  {
    forall k | mid < k < |merged| ensures CompareValue(merged[k], id) == Greater {
      assert merged[mid].start <= merged[k].start;
    }
  }

  // ---------------------------------------------------------------------
  // part1 and part2

  /** How many entries of ids lie in covered. */
  function CountCovered(ids: seq<nat>, covered: set<nat>): (n: nat)
    ensures n <= |ids|
  {
    if |ids| == 0 then 0
    else CountCovered(ids[..|ids| - 1], covered) + (if ids[|ids| - 1] in covered then 1 else 0)
  }

  /** The sum of the lengths of the ranges. */
  function SumLengths(rs: seq<CustomRange>): nat
    requires WellFormed(rs)
  {
    if |rs| == 0 then 0 else Len(rs[0]) + SumLengths(rs[1..])
  }

  /** Over ranges sorted by start, every covered id is at least the first start. */
  lemma {:induction false} IdsAboveFirstStart(rs: seq<CustomRange>)
    requires SortedByStart(rs) && |rs| > 0
    ensures forall id :: id in Ids(rs) ==> rs[0].start <= id
  {
    if |rs| > 1 {
      IdsAboveFirstStart(rs[1..]);
    } else {
      assert rs[1..] == [];
    }
  }

  /** For sorted, separated ranges the lengths add up to the number of distinct covered ids. */
  lemma {:induction false} SumLengthsCountsIds(rs: seq<CustomRange>)
    requires WellFormed(rs) && SortedByStart(rs) && Separated(rs)
    ensures SumLengths(rs) == |Ids(rs)|
  {
    if |rs| > 0 {
      var first, tail := rs[0], rs[1..];
      assert WellFormed(tail) && SortedByStart(tail) && Separated(tail);
      SumLengthsCountsIds(tail);
      if |tail| > 0 {
        IdsAboveFirstStart(tail);
        assert first.end < tail[0].start;
      }
      assert IdsOf(first) * Ids(tail) == {};
      assert |IdsOf(first) + Ids(tail)| == |IdsOf(first)| + |Ids(tail)|;
    }
  }

  /** The input splits at its first blank line into range lines and id lines. */
  function Sections(input: string): (sections: Option<(seq<string>, seq<string>)>) {
    var split := Text.SplitOnce(input, "\n\n");
    if split.None? then None else Some((Text.Lines(split.value.0), Text.Lines(split.value.1)))
  }

  /** What `part1` unwraps: a blank line, range lines that all read, id lines that all parse. */
  predicate IsDatabase(input: string) {
    var sections := Sections(input);
    sections.Some? && Readable(sections.value.0)
    && forall i :: 0 <= i < |sections.value.1| ==> IsNumeral(sections.value.1[i])
  }

  /** The available ids, in order. */
  function AvailableIds(lines: seq<string>): (ids: seq<nat>)
    requires forall i :: 0 <= i < |lines| ==> IsNumeral(lines[i])
    ensures |ids| == |lines|
  {
    seq(|lines|, i requires 0 <= i < |lines| => assert IsNumeral(lines[i]); ParseNat(lines[i]))
  }

  /** Parsing, sorting and merging the range lines of a readable section. */
  method MergedSection(rangeLines: string) returns (merged: seq<CustomRange>)
    requires Readable(Text.Lines(rangeLines))
    ensures SortedByStart(merged) && Separated(merged)
    ensures Ids(merged) == Ids(Parsed(Text.Lines(rangeLines)))
    ensures WellFormed(Parsed(Text.Lines(rangeLines))) ==> WellFormed(merged)
  {
    var lines := Text.Lines(rangeLines);
    assert ParsesWithoutPanic(lines);
    var ranges := ParseRanges(rangeLines);
    assert ranges.Ok?;
    IdsPermutation(ranges.value, Parsed(lines));
    assert WellFormed(Parsed(lines)) ==> WellFormed(ranges.value) by {
      if WellFormed(Parsed(lines)) {
        forall k | 0 <= k < |ranges.value| ensures ranges.value[k].start <= ranges.value[k].end {
          assert ranges.value[k] in multiset(Parsed(lines));
        }
      }
    }
    merged := MergedRanges(ranges.value);
    MergedProperties(ranges.value);
  }

  /** `part1`: how many available ids lie in some range. */
  method Part1(input: string) returns (freshCount: nat)
    requires IsDatabase(input)
    ensures freshCount == CountCovered(AvailableIds(Sections(input).value.1), Ids(Parsed(Sections(input).value.0)))
  {
    var split := Text.SplitOnce(input, "\n\n").value;
    var ids := AvailableIds(Text.Lines(split.1));
    var merged := MergedSection(split.0);
    freshCount := CountFresh(merged, ids);
  }

  /** The counting loop of `part1`: one binary search per available id. */
  method CountFresh(merged: seq<CustomRange>, ids: seq<nat>) returns (freshCount: nat)
    requires SortedByStart(merged) && Separated(merged)
    ensures freshCount == CountCovered(ids, Ids(merged))
  {
    freshCount := 0;
    for i := 0 to |ids|
      invariant freshCount == CountCovered(ids[..i], Ids(merged))
    {
      var found := BinarySearchBy(merged, ids[i]);
      assert ids[..i + 1][..i] == ids[..i];
      if found.Ok? {
        freshCount := freshCount + 1;
      }
    }
    assert ids[..|ids|] == ids;
  }

  /** What `part2` unwraps: a blank line and range lines that all read, each with start <= end. */
  predicate IsRangeSection(input: string) {
    var sections := Sections(input);
    sections.Some? && Readable(sections.value.0) && WellFormed(Parsed(sections.value.0))
  }

  /** `part2`: the sum of the merged lengths, which is the number of distinct fresh ids. */
  method Part2(input: string) returns (total: nat)
    requires IsRangeSection(input)
    ensures total == |Ids(Parsed(Sections(input).value.0))|
  {
    var split := Text.SplitOnce(input, "\n\n").value;
    var merged := MergedSection(split.0);
    SumLengthsCountsIds(merged);
    total := SumLengths(merged);
  }
}
