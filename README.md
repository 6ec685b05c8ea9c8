# Advent of Code 2025, days 1 to 6, in Dafny

This project models the six Rust solvers of the repository's 2025 puzzles
(`2025/rust/day01` to `2025/rust/day06`, one `main.rs` each) and proves what
each of their two parts computes.

- **Day 1** (`day01.dfy`, module `Day01`): a safe dial numbered 0 to 99 starts at 50.
  It is turned by "L<n>"/"R<n>" rotations. The dial is a signed value in (-100, 100), reduced by Rust's truncating `%`.
  - Part one counts the rotations that leave the dial on 0.
  - Part two counts the clicks on 0 during the rotations.
- **Day 2** (`day02.dfy`, `day02_corrected.dfy`): comma-separated id ranges "a-b".
  - Part one enumerates prefixes p and adds the numbers p·10^h + p inside each range.
  - Part two uses `replicate_in`/`replicate` to collect into a set every id whose digits are one block written two or more times. It then adds up the set.
- **Day 3** (`day03.dfy`): banks of battery digits.
  - Part one keeps the best two batteries with a running pair.
  - Part two keeps a window of twelve batteries. Each step removes the slot before the first ascent (`squeeze_position`) and pushes the new battery. It then reads the twelve digits as a number.
- **Day 4** (`day04.dfy`): rolls '@' on a grid.
  - A `ConnectionMap` class holds the neighbour counts (`add_connections`, `remove_connections`).
  - Part one counts the rolls with fewer than four neighbouring rolls.
  - Part two removes such rolls in rounds until none is left to remove.
- **Day 5** (`day05.dfy`): fresh id ranges, a blank line, then available ids.
  - `parse_ranges` parses the ranges (with `CustomRange::from_str`) and sorts them by start. `merged_ranges` merges them.
  - Part one counts the ids that `binary_search_by` with `compare_value` finds.
  - Part two adds up the merged lengths.
- **Day 6** (`day06.dfy`): a worksheet of number columns above a line of '*'/'+' operators.
  - Part one folds each column upward with `apply`.
  - Part two reads every character column as a number and groups the columns by the operator characters. It adds up the group values.

Three support modules model the Rust library behaviour the solvers rely on:

- `text.dfy` (module `Text`): `str::lines`, `split`, `split_once`, `trim` and `split_ascii_whitespace`.
- `decimal.dfy` (module `Decimal`): the decimal digit count, `str::parse` of an unsigned number and `to_string`.
- `wrappers.dfy`: `Option` and `Result`.

Each solver part is a method that takes the input text (Day 1: its lines). It is proved equal to a specification function of that input. Lemmas then prove what that function means. Panicking `unwrap`s and indexing become preconditions. Errors the source returns become `Result` values.

## Model

| member | source | states |
|---|---|---|
| Text.Lines | 2025/rust/day01/src/main.rs:6 | `lines()` yields lines without any '\n' |
| Text.LinesUnlines | 2025/rust/day01/src/main.rs:6 | `lines()` of plain lines (no line break, no final carriage return), each ended by a line feed, gives those lines back |
| Text.Split | 2025/rust/day02/src/main.rs:10 | `split(",")` yields at least one piece, and no piece holds the separator |
| Text.SplitJoin | 2025/rust/day02/src/main.rs:10 | `split(",")` of pieces joined by ',' (none holding ',') gives the pieces back |
| Text.JoinSplit | 2025/rust/day02/src/main.rs:10 | joining the pieces of `split` with the separator restores the text |
| Text.SplitOnce | 2025/rust/day02/src/main.rs:12 | `split_once` fails exactly when the pattern does not occur; otherwise left + pattern + right is the text, split at the first occurrence |
| Text.TrimStart | 2025/rust/day02/src/main.rs:9 | the result is a suffix of the text, everything removed is whitespace, and it does not start with whitespace |
| Text.TrimEnd | 2025/rust/day02/src/main.rs:9 | the result is a prefix of the text, everything removed is whitespace, and it does not end with whitespace |
| Text.Trim | 2025/rust/day02/src/main.rs:9 | the trimmed text is a slice of the input, everything around it is whitespace, and it neither starts nor ends with whitespace |
| Text.Tokens | 2025/rust/day06/src/main.rs:4 | `split_ascii_whitespace` yields non-empty words without whitespace |
| Text.TokensUnwords | 2025/rust/day06/src/main.rs:4 | splitting words joined by single spaces gives the words back |
| Decimal.DigitCount | 2025/rust/day02/src/main.rs:3-5 | `digit_count(n)` is the d >= 1 with 10^(d-1) <= n < 10^d (d = 1 for n = 0) |
| Decimal.DigitCountUnique | 2025/rust/day02/src/main.rs:3-5 | any d with those bounds is the digit count |
| Decimal.ParseNat | 2025/rust/day02/src/main.rs:13 | `parse` of a string of k digits is a number below 10^k |
| Decimal.Show | 2025/rust/day02/src/main.rs:13 | `to_string` writes DigitCount(n) digits with no leading zero |
| Decimal.ParseShow | 2025/rust/day02/src/main.rs:13 | parsing `to_string(n)` gives n back |
| Decimal.ShowParse | 2025/rust/day02/src/main.rs:13 | a numeral without a leading zero is the `to_string` of its value |
| Day01.Rem | 2025/rust/day01/src/main.rs:17 | `a % 100` on i32 lies in (-100, 100), has the sign of a and differs from a by a multiple of 100 |
| Day01.RemUnique | 2025/rust/day01/src/main.rs:17 | those properties determine the remainder |
| Day01.ParseInt | 2025/rust/day01/src/main.rs:8 | `parse::<i32>` gives a non-positive value after '-', a non-negative one otherwise, below 10^len in magnitude |
| Day01.ParseIntSigned | 2025/rust/day01/src/main.rs:8 | a magnitude written with '-', '+' or no sign parses to its signed value |
| Day01.Rotation | 2025/rust/day01/src/main.rs:6-11 | a parsed rotation is bounded so that `dial + rotation` fits in i32 |
| Day01.Rotations | 2025/rust/day01/src/main.rs:6-11 | one rotation per line, in order |
| Day01.RotationOfInstruction | 2025/rust/day01/src/main.rs:6-11 | "L<n>" parses to -n and "R<n>" to n |
| Day01.DialAfter | 2025/rust/day01/src/main.rs:13-22 | the part-one dial stays in (-100, 100) |
| Day01.DialAfterCongruent | 2025/rust/day01/src/main.rs:13-22 | the dial equals 50 plus the rotations so far, modulo 100 |
| Day01.DialAfterStep | 2025/rust/day01/src/main.rs:16-17 | each loop step turns the previous dial by the next rotation |
| Day01.ZeroStopsStep | 2025/rust/day01/src/main.rs:19-21 | each rotation adds one zero stop exactly when it leaves the dial on 0 |
| Day01.Part1 | 2025/rust/day01/src/main.rs:3-27 | `zeros` is the number of rotations after which the dial shows 0 |
| Day01.CountZeroStops | 2025/rust/day01/src/main.rs:13-22 | the loop counts the rotations after which the dial shows 0 |
| Day01.ZeroStopsAreMultiples | 2025/rust/day01/src/main.rs:16-22 | the dial shows 0 after k rotations exactly when 50 plus the first k rotations is a multiple of 100 |
| Day01.Overshoot | 2025/rust/day01/src/main.rs:44 | `overshoot_dial` lies in (-200, 200) |
| Day01.Turn2 | 2025/rust/day01/src/main.rs:45 | the part-two dial stays in (-100, 100) |
| Day01.Clicks | 2025/rust/day01/src/main.rs:47-62 | one rotation adds its full turns \|r\|/100, plus at most one |
| Day01.DialAfter2 | 2025/rust/day01/src/main.rs:42-45 | the part-two dial stays in (-100, 100) |
| Day01.DialAfter2Congruent | 2025/rust/day01/src/main.rs:42-45 | the part-two dial also equals 50 plus the rotations so far, modulo 100 |
| Day01.ClickTotalBounds | 2025/rust/day01/src/main.rs:42-63 | the total lies between the full turns and the full turns plus the number of rotations |
| Day01.Part2 | 2025/rust/day01/src/main.rs:29-68 | `zeros` is the sum of the clicks that the source counts per rotation |
| Day01.CountClicks | 2025/rust/day01/src/main.rs:39-63 | the loop adds up the clicks the source counts for each rotation |
| Day01.HitsClosedForm | 2025/rust/day01/src/main.rs:42-63 | the number of single clicks that land on a multiple of 100 (the reference count) has a closed form in floor divisions |
| Day01.HitsPeriodic | 2025/rust/day01/src/main.rs:42-63 | that count depends on the position only modulo 100 |
| Day01.ClicksVersusHits | 2025/rust/day01/src/main.rs:47-62 | the source's count for one rotation equals the reference count, except from 0 by a multiple of 100, where it counts one more |
| Day01.Part2Overcounts | 2025/rust/day01/src/main.rs:50-58 | for "L50", "R100" the source counts 3 clicks on 0 where the dial passes 0 twice |
| Day01.ClicksFixed | 2025/rust/day01/src/main.rs:47-62 | the corrected per-rotation count equals the reference count |
| Day01.HitsFromDial | 2025/rust/day01/src/main.rs:42-45 | counting from the reduced dial gives the same as counting from 50 plus the rotations so far |
| Day01.Part2Fixed | 2025/rust/day01/src/main.rs:29-68 | the corrected part two returns the reference count of clicks on 0 |
| Day01.CountTrueClicks | 2025/rust/day01/src/main.rs:39-63 | the corrected loop adds up the reference clicks of each rotation |
| Day02.ParseRanges | 2025/rust/day02/src/main.rs:8-15 | one range per comma-separated piece of the trimmed input |
| Day02.ParseRange | 2025/rust/day02/src/main.rs:12-13 | the range is the two numbers on either side of the first '-' |
| Day02.ParseFormatRange | 2025/rust/day02/src/main.rs:12-13 | "a-b" parses back to the range it was written from |
| Day02.ParseFormatRanges | 2025/rust/day02/src/main.rs:8-15 | a written list of ranges parses back to the same list |
| Day02.EvenStart | 2025/rust/day02/src/main.rs:20-28 | `even_start` is at least the range start and has an even digit count |
| Day02.EvenStartIsLeast | 2025/rust/day02/src/main.rs:20-28 | every number from the range start up to `even_start` has an odd digit count |
| Day02.EvenEnd | 2025/rust/day02/src/main.rs:30-38 | `even_end` is at most the range end and is 0 or has an even digit count |
| Day02.EvenEndIsGreatest | 2025/rust/day02/src/main.rs:30-38 | every number above `even_end` up to the range end has an odd digit count |
| Day02.SumTwiceNumbers | 2025/rust/day02/src/main.rs:44-56 | the prefix loop adds exactly the candidates p·10^h + p (from the first prefix up to `even_end`) that are at least the range start |
| Day02.CandidatesAreTwice | 2025/rust/day02/src/main.rs:44-56 | every number the loop adds lies in [range start, `even_end`] and is some p·10^h + p |
| Day02.RangeCandidatesInRange | 2025/rust/day02/src/main.rs:19-56 | every number added for a range lies inside the range |
| Day02.RangeSum | 2025/rust/day02/src/main.rs:19-56 | one range contributes the sum of its candidates |
| Day02.Part1 | 2025/rust/day02/src/main.rs:7-62 | `sum` is the total of the candidates over the parsed ranges |
| Day02.SumRanges | 2025/rust/day02/src/main.rs:19-57 | the loop over the ranges returns the total of every range's candidates |
| Day02.Replicate | 2025/rust/day02/src/main.rs:80-89 | `replicate(n, t)` is the sum of n·10^(count·i) for i < t |
| Day02.RepeatedSpellsBlock | 2025/rust/day02/src/main.rs:80-89 | that sum is the number whose digits are those of n written t times |
| Day02.DigitCountOfRepeated | 2025/rust/day02/src/main.rs:80-89 | the replication of n >= 1 has t times the digits of n |
| Day02.ReplicateIn | 2025/rust/day02/src/main.rs:64-78 | `replicate_in` is Some exactly when the block's digit count divides the host count at least twice, and then it holds the replication |
| Day02.ReplicateInDigits | 2025/rust/day02/src/main.rs:64-78 | a found id has exactly the host digit count |
| Day02.ReplicateInFinds | 2025/rust/day02/src/main.rs:107-113 | every block written t >= 2 times is a filler below 10^(digits/2) that `replicate_in` turns into that id |
| Day02.InsertFillerIds | 2025/rust/day02/src/main.rs:110-118 | the filler loop adds exactly the produced ids inside the range |
| Day02.InsertDigitIds | 2025/rust/day02/src/main.rs:107-119 | each host digit count adds its fillers' ids |
| Day02.InsertRangeIds | 2025/rust/day02/src/main.rs:103-119 | one range adds its collected ids to the set |
| Day02.FillerIdsMembers | 2025/rust/day02/src/main.rs:110-118 | an id is collected for a digit count exactly when it is in range and some filler below the bound produces it |
| Day02.DigitIdsMembers | 2025/rust/day02/src/main.rs:107-119 | an id is collected for a range of digit counts exactly when it is in range and some filler and digit count produce it |
| Day02.RangeIdsAreRepeatedIds | 2025/rust/day02/src/main.rs:103-119 | the ids collected for a range are exactly its ids whose digits are a block written at least twice |
| Day02.CollectedIdsAreRepeatedIds | 2025/rust/day02/src/main.rs:101-120 | the final set is exactly the ids inside some range that are a block written at least twice |
| Day02.SetSumRemove | 2025/rust/day02/src/main.rs:122 | the sum of a set does not depend on the order it is taken in |
| Day02.SumIds | 2025/rust/day02/src/main.rs:122 | `ids.iter().sum()` is the sum of the set |
| Day02.Part2 | 2025/rust/day02/src/main.rs:91-125 | `sum` is the sum of the collected set of repeated ids |
| Day02Corrected.Part1AddsUndoubledId | 2025/rust/day02/src/main.rs:40-56 | for the range 10-1000, part one adds 110, which is not a block written twice |
| Day02Corrected.CandidatesIncreasing | 2025/rust/day02/src/main.rs:44-56 | the numbers the prefix loop adds strictly increase, so none is added twice |
| Day02Corrected.SingleLength | 2025/rust/day02/src/main.rs:19-56 | within one digit length, the loop adds exactly the ids of the range that are a block written twice |
| Day02Corrected.SeqSumOfIncreasing | 2025/rust/day02/src/main.rs:44-56 | adding a strictly increasing list equals adding its set |
| Day02Corrected.SingleLengthSum | 2025/rust/day02/src/main.rs:19-56 | within one digit length, the loop's sum is the sum of the doubled ids in the range |
| Day02Corrected.FixedRangeSum | 2025/rust/day02/src/main.rs:19-56 | running the loop once per digit length sums exactly the doubled ids of the range |
| Day02Corrected.Part1Fixed | 2025/rust/day02/src/main.rs:7-62 | the corrected part one returns the sum, over the ranges, of their ids that are a block written twice |
| Day03.Bank | 2025/rust/day03/src/main.rs:4-7 | each character becomes its digit value, in order |
| Day03.MaxPosition | 2025/rust/day03/src/main.rs:11-29 | a position of a largest battery among the first k |
| Day03.BestPairIsLargest | 2025/rust/day03/src/main.rs:11-31 | the best pair of the first k batteries is the joltage of some i < j < k, and no pair i < j < k has a larger one |
| Day03.BestPairGrows | 2025/rust/day03/src/main.rs:15-29 | looking at more batteries never lowers the best pair |
| Day03.BestPairStep | 2025/rust/day03/src/main.rs:15-29 | one more battery makes the best pair the larger of the old one and the largest earlier digit followed by the battery |
| Day03.ConsiderBattery | 2025/rust/day03/src/main.rs:15-29 | one step of the pair loop keeps `first*10 + second` at the larger of the current joltage and the best digit so far followed by the battery |
| Day03.BankJoltage | 2025/rust/day03/src/main.rs:11-31 | a bank's part-one joltage is its largest ordered pair of digits |
| Day03.Part1 | 2025/rust/day03/src/main.rs:3-35 | the total is the sum over the banks of their largest pair |
| Day03.FirstAscent | 2025/rust/day03/src/main.rs:37-45 | None exactly when the slots never increase; otherwise the first i with xs[i] < xs[i+1] |
| Day03.SqueezePosition | 2025/rust/day03/src/main.rs:37-45 | `squeeze_position` returns that first ascent |
| Day03.Without | 2025/rust/day03/src/main.rs:60 | `Vec::remove(p)` keeps the elements before p and moves the later ones down |
| Day03.SqueezeIn | 2025/rust/day03/src/main.rs:58-67 | one step of the window loop computes the squeeze of the slots by the battery |
| Day03.SqueezeEmbeds | 2025/rust/day03/src/main.rs:58-67 | when the slots are batteries of the bank in order, they still are after a squeeze step |
| Day03.WindowIsSubsequence | 2025/rust/day03/src/main.rs:55-67 | the twelve slots are always twelve batteries of the bank, in bank order |
| Day03.SqueezeGrows | 2025/rust/day03/src/main.rs:58-67 | a squeeze step never lowers the slots' twelve-digit value |
| Day03.WindowGrows | 2025/rust/day03/src/main.rs:55-67 | the window's value never decreases from one battery to the next |
| Day03.WindowDigits | 2025/rust/day03/src/main.rs:55-67 | the slots always hold digits |
| Day03.PlaceValueBound | 2025/rust/day03/src/main.rs:69-70 | k digits read as a number stay below 10^k |
| Day03.PlaceValueCompare | 2025/rust/day03/src/main.rs:69-70 | digit strings of equal length compare by their first difference |
| Day03.SpellValue | 2025/rust/day03/src/main.rs:69-70 | formatting the digits and parsing the text gives their place value |
| Day03.WindowJoltage | 2025/rust/day03/src/main.rs:55-71 | a bank's part-two joltage is the value of its final window |
| Day03.Part2 | 2025/rust/day03/src/main.rs:47-75 | the total is the sum over the banks of their window values |
| Day04.Around | 2025/rust/day04/src/main.rs:4-19 | `cells_around` gives eight cells, each a neighbour of the cell |
| Day04.AroundIsNeighbourhood | 2025/rust/day04/src/main.rs:4-19 | `cells_around` gives eight distinct cells, which are exactly the neighbours |
| Day04.NeighbourSymmetric | 2025/rust/day04/src/main.rs:4-19 | a is around b exactly when b is around a |
| Day04.AroundAtSlot | 2025/rust/day04/src/main.rs:8-15 | offset (drow, dcolumn) sits at its place in the row-major order |
| Day04.CellsAround | 2025/rust/day04/src/main.rs:4-19 | the double loop pushes the eight neighbours in row-major order |
| Day04.Added | 2025/rust/day04/src/main.rs:21-28 | adding connections gives an entry to every neighbour and keeps the others |
| Day04.AddedCounts | 2025/rust/day04/src/main.rs:21-28 | adding raises each neighbour's count by one and leaves every other count |
| Day04.Removed | 2025/rust/day04/src/main.rs:30-34 | removing never adds or drops an entry |
| Day04.RemovedCounts | 2025/rust/day04/src/main.rs:30-34 | removing lowers each present neighbour's count by one and leaves every other count |
| Day04.AddThenRemove | 2025/rust/day04/src/main.rs:21-34 | removing a cell's connections after adding them restores every count |
| Day04.ConnectionMap.constructor | 2025/rust/day04/src/main.rs:47 | a new map is empty |
| Day04.ConnectionMap.AddConnections | 2025/rust/day04/src/main.rs:21-28 | the map becomes the old map with the cell's connections added |
| Day04.ConnectionMap.AddEach | 2025/rust/day04/src/main.rs:22-27 | the loop over the cells around adds each of them as a key and raises its count by one, reading an absent key as 0; every other count is unchanged |
| Day04.ConnectionMap.RemoveConnections | 2025/rust/day04/src/main.rs:30-34 | the map becomes the old map with the cell's connections removed |
| Day04.Rolls | 2025/rust/day04/src/main.rs:39-45 | the rolls are exactly the cells holding '@' |
| Day04.ParseRollList | 2025/rust/day04/src/main.rs:37-45 | the list holds every '@' cell exactly once |
| Day04.ParseRollSet | 2025/rust/day04/src/main.rs:66-74 | the set is exactly the '@' cells |
| Day04.AddKeepsMatch | 2025/rust/day04/src/main.rs:49-51 | adding a new roll's connections keeps every count equal to the number of neighbouring rolls |
| Day04.RemoveKeepsMatch | 2025/rust/day04/src/main.rs:98-101 | removing a roll's connections keeps every count equal to the number of neighbouring rolls left |
| Day04.ConnectList | 2025/rust/day04/src/main.rs:47-51 | after the loop, each cell's count is its number of neighbouring rolls |
| Day04.ConnectSet | 2025/rust/day04/src/main.rs:76-80 | the same for the roll set of part two |
| Day04.AccessibleByCount | 2025/rust/day04/src/main.rs:56-57 | a count below 4 means exactly that the roll is accessible |
| Day04.CountInDistinct | 2025/rust/day04/src/main.rs:55-60 | counting the wanted cells of a list of distinct cells counts the wanted set within the list |
| Day04.CountAllAccessible | 2025/rust/day04/src/main.rs:55-60 | over distinct rolls, counting the accessible entries counts the accessible rolls |
| Day04.CountAccessible | 2025/rust/day04/src/main.rs:53-60 | the loop counts exactly the accessible rolls |
| Day04.Part1 | 2025/rust/day04/src/main.rs:36-63 | the result is the number of rolls with fewer than four neighbouring rolls |
| Day04.SelectAccessible | 2025/rust/day04/src/main.rs:85-92 | `removed_rolls` is exactly the accessible rolls |
| Day04.RemoveBatch | 2025/rust/day04/src/main.rs:98-101 | the batch leaves the set and the counts still match the remaining rolls |
| Day04.SmallerAfterRemoval | 2025/rust/day04/src/main.rs:94-103 | a non-empty batch shrinks the set by its size, so the loop ends |
| Day04.SurvivorsAreStable | 2025/rust/day04/src/main.rs:84-104 | the rolls left at the end are a subset with no accessible roll, each with at least four neighbouring rolls |
| Day04.RoundsBound | 2025/rust/day04/src/main.rs:84-104 | the rounds of removal, counted by the recursion that defines the survivors, number at most the rolls; Day04.Part2's loop keeps a round counter tied to this count and asserts the bound after the loop |
| Day04.PeelingRemovesAccessible | 2025/rust/day04/src/main.rs:65-107 | part two removes at least as many rolls as part one counts accessible: the accessible rolls are all gone after the first round |
| Day04.Part2 | 2025/rust/day04/src/main.rs:65-107 | the total is the number of rolls minus the rolls left when nothing is accessible |
| Day05.FromStr | 2025/rust/day05/src/main.rs:28-35 | `from_str` fails with InvalidFormat exactly when the line has no '-' |
| Day05.FromStrFormat | 2025/rust/day05/src/main.rs:28-35 | "a-b" parses back to the range it was written from |
| Day05.CompareValue | 2025/rust/day05/src/main.rs:39-49 | Equal exactly for ids in the range, Greater exactly below its start, Less exactly above its end |
| Day05.Len | 2025/rust/day05/src/main.rs:51-53 | `len` is the number of ids in a well-formed range |
| Day05.IdsAt | 2025/rust/day05/src/main.rs:56-76 | an id is covered by a list of ranges exactly when one of them covers it |
| Day05.IdsPermutation | 2025/rust/day05/src/main.rs:86 | reordering the ranges does not change the ids they cover |
| Day05.InsertByStart | 2025/rust/day05/src/main.rs:86 | insertion into a sorted list keeps it sorted by start and adds exactly the range |
| Day05.SortByStart | 2025/rust/day05/src/main.rs:86 | `sort_by_key(start)` gives a permutation sorted by start |
| Day05.ParseRanges | 2025/rust/day05/src/main.rs:78-89 | Ok exactly when every line has a '-'; then the ranges of the lines, sorted by start |
| Day05.Widened | 2025/rust/day05/src/main.rs:65-66 | widening an overlapping range covers exactly the union of both |
| Day05.MergeTailCoverage | 2025/rust/day05/src/main.rs:61-73 | merging covers no new id, and covers exactly the same ids when the input is sorted |
| Day05.MergeTailOrder | 2025/rust/day05/src/main.rs:61-73 | merging sorted ranges gives sorted ranges in which each ends before the next starts |
| Day05.MergedProperties | 2025/rust/day05/src/main.rs:56-76 | `merged_ranges` of sorted ranges is sorted, disjoint, no longer than the input, and covers the same ids |
| Day05.MergedRanges | 2025/rust/day05/src/main.rs:56-76 | the loop computes the merge |
| Day05.BinarySearchBy | 2025/rust/day05/src/main.rs:100 | on sorted disjoint ranges the search is Ok exactly when some range holds the id; Err gives the insertion point |
| Day05.MergedSection | 2025/rust/day05/src/main.rs:94-96 | the merged ranges are sorted, disjoint and cover the parsed ranges' ids |
| Day05.CountFresh | 2025/rust/day05/src/main.rs:98-102 | the count is the number of ids found in the ranges |
| Day05.Part1 | 2025/rust/day05/src/main.rs:91-105 | the result is the number of available ids that some range holds |
| Day05.SumLengthsCountsIds | 2025/rust/day05/src/main.rs:111 | the lengths of sorted disjoint ranges add up to the number of ids they cover |
| Day05.Part2 | 2025/rust/day05/src/main.rs:107-112 | the result is the number of distinct fresh ids |
| Day06.Apply | 2025/rust/day06/src/main.rs:9-15 | "*" multiplies and "+" adds |
| Day06.ApplyIdentity | 2025/rust/day06/src/main.rs:57 | the restart value 1 for '*' and 0 for '+' leaves the first number unchanged |
| Day06.ParseLineNumbers | 2025/rust/day06/src/main.rs:3-7 | one number per whitespace-separated word |
| Day06.ParseLineNumbersShown | 2025/rust/day06/src/main.rs:3-7 | a line of written numbers parses back to those numbers |
| Day06.AboveOf | 2025/rust/day06/src/main.rs:18-23 | the rows above the bottom row are taken from the bottom upward |
| Day06.FoldColumnValue | 2025/rust/day06/src/main.rs:23-28 | a '+' column is its bottom value plus the sum of the numbers above; a '*' column is its bottom value times their product |
| Day06.FoldColumnNext | 2025/rust/day06/src/main.rs:24-27 | one more row applies its operator to exactly the columns it has numbers for |
| Day06.FoldRows | 2025/rust/day06/src/main.rs:23-28 | the row loop leaves every column folded over the rows above |
| Day06.Part1 | 2025/rust/day06/src/main.rs:17-31 | the total is the sum of the folded columns |
| Day06.ColumnText | 2025/rust/day06/src/main.rs:39-47 | a character column's text has no whitespace and at most one character per row |
| Day06.Pushed | 2025/rust/day06/src/main.rs:41-46 | a non-whitespace character is appended to its column's entry (created if missing); whitespace changes nothing |
| Day06.ColumnTextNext | 2025/rust/day06/src/main.rs:39-47 | one more row appends its non-whitespace character to the column |
| Day06.PushNext | 2025/rust/day06/src/main.rs:40-47 | each character keeps the map holding the columns read so far |
| Day06.CollectNumbers | 2025/rust/day06/src/main.rs:37-48 | `numbers` holds exactly the non-empty columns, each read top to bottom |
| Day06.GroupsOf | 2025/rust/day06/src/main.rs:54-59 | the groups have operator characters, non-empty spans inside the line, and the last reaches the line's end |
| Day06.GroupsStartAtOperators | 2025/rust/day06/src/main.rs:55-58 | each group starts at its operator character |
| Day06.GroupsHoldOneOperator | 2025/rust/day06/src/main.rs:55-58 | no other operator character lies inside a group |
| Day06.GroupsAreContiguous | 2025/rust/day06/src/main.rs:54-59 | each group ends where the next starts |
| Day06.GroupsExistAtOperators | 2025/rust/day06/src/main.rs:54-59 | there is no group exactly when the line has no operator, and none of the columns before the first group has an operator |
| Day06.GroupValueIs | 2025/rust/day06/src/main.rs:57-63 | a '+' group's value is the sum of its column numbers; a '*' group's value is their product |
| Day06.FlushAtOperator | 2025/rust/day06/src/main.rs:55-58 | an operator character adds the running value to the sum and starts its group |
| Day06.TakeNext | 2025/rust/day06/src/main.rs:61-63 | a column with a number applies the current operator to it; an empty column changes nothing |
| Day06.SummedEnd | 2025/rust/day06/src/main.rs:66 | the final flush makes the sum the total over the groups |
| Day06.SumColumns | 2025/rust/day06/src/main.rs:50-66 | the operator loop returns the sum of the group values |
| Day06.Part2 | 2025/rust/day06/src/main.rs:33-69 | the result is the sum of the group values of the operator line |

## Left out

- Reading the input file, `println!`, `main` and the tests: Day 1's parts take the input lines and the other parts take the input text.
- Integer widths: u32, u64 and i32 are modelled as unbounded `nat`/`int`, so sums and products that would overflow in the source are not modelled. The exception is Day 1, where the rotation distance is bounded by i32::MAX - 99 so that part one's `dial + rotation` (day01/src/main.rs:17) fits in i32.
- Day01.Part2, Day01.Part2Fixed: require part one's distance bound of i32::MAX - 99 (through `IsRotationLine`). Part two only adds `rotation % 100` (day01/src/main.rs:44), so the source accepts any distance up to i32::MAX there.
- Decimal.DigitCount: `digit_count` computes `log10` in f64. The model uses the exact digit count, so f64 rounding on numbers just below a power of ten above 2^53 is not modelled.
- Panics (`unwrap`, out-of-range indexing, `apply` of another operator, `u32` subtraction below zero) are preconditions that rule them out. No member models the panic itself.
- Decimal.ParseNat: `str::parse` of an unsigned number also accepts a leading '+'. The model accepts only digits, so a '+'-prefixed number is excluded by the preconditions. Day 1's signed parse does accept both signs.
- Text.IsWhitespace: ASCII whitespace only. `trim`, `split_whitespace` and `char::is_whitespace` in the source also treat other Unicode spaces as whitespace.
- Hash iteration order: `HashMap` and `HashSet` are maps and sets. Only order-independent results are stated: a set sum, a set of removed rolls.
- Day05.SortByStart: `sort_by_key` is modelled as an insertion sort on a sequence. It is proved sorted and a permutation, not proved stable. The results only depend on the merge's coverage.
- Day05.BinarySearchBy: `binary_search_by` is modelled as a low/high search. Which index an `Ok` carries is not pinned down, because the source only asks `is_ok()`.
- Day05.Part2: requires every range to have start <= end. The source also accepts a reversed range that the merge absorbs into an earlier range: "3-5", "4-2" sorts to [3-5, 4-2], the merge widens this to [3-5] (day05/src/main.rs:65-66), `len` never sees 4-2, and part two returns 3. The model excludes that input. A reversed range that survives the merge reaches `len`, whose `end - start` underflows u64 and panics in a debug build.
- Day03.Part2: the window is proved to be twelve batteries of the bank in bank order, and its value never decreases. It is not proved to be the largest twelve-digit choice.
- Day06.FoldRows, Day06.CollectNumbers, Day06.SumColumns, Day05.CountFresh, Day01.CountZeroStops, Day01.CountClicks, Day02.SumRanges, Day02Corrected.SumDoubled, Day04.ConnectionMap.AddEach: these are the loops of `part1`, `part2` and `add_connections`, written as their own methods. They keep the same steps and order.

## Findings

| source | as written | input that shows it | evidently intended | confidence | as-written member | corrected member |
|---|---|---|---|---|---|---|
| 2025/rust/day01/src/main.rs:48-58 | a rotation by a multiple of 100 that starts on 0 counts its full turns and also counts `clicked_on_dead_zero` | rotations "L50", "R100": the dial passes 0 twice, the source counts 3 | count each click that lands on 0 once: \|r\|/100 full turns, plus one for the part rotation only when it reaches 0 | not executed | Day01.Part2Overcounts | Day01.Part2Fixed |
| 2025/rust/day02/src/main.rs:40-56 | the prefix width comes from `even_start` alone, so a range spanning several digit lengths also gets numbers p·10^h + p whose p has more than h digits | range 10-1000: part one adds 110, which is not a block written twice | add only ids whose digits are one block written exactly twice | not executed | Day02Corrected.Part1AddsUndoubledId | Day02Corrected.Part1Fixed |
