/**
 * Day 6: a worksheet of numbers standing in columns, with a last line of
 * operators ('*' or '+'). Part one reads the whitespace-separated numbers
 * row by row, folds each column upward from the row above the operators
 * with that column's operator, and adds the column values. Part two reads
 * every character column top to bottom as one number, groups the
 * character columns by the operator characters of the last line, and adds
 * up the group values.
 */
module Day06 {
  import opened Wrappers
  import opened Decimal
  import Text

  // ---------------------------------------------------------------------
  // apply

  predicate IsOperator(op: string) {
    op == "*" || op == "+"
  }

  /** `apply`: multiply or add; any other operator panics. */
  function Apply(op: string, lhs: nat, rhs: nat): (r: nat)
    requires IsOperator(op)
    ensures op == "*" ==> r == lhs * rhs
    ensures op == "+" ==> r == lhs + rhs
  {
    if op == "*" then lhs * rhs else lhs + rhs
  }

  /** The value part two restarts a group at: 1 for '*', 0 for '+'. */
  function Identity(op: string): nat {
    if op == "*" then 1 else 0
  }

  /** The restart value changes nothing: the first number of a group is its value so far. */
  lemma ApplyIdentity(op: string, x: nat)
    requires IsOperator(op)
    ensures Apply(op, Identity(op), x) == x
  {
  }

  function Sum(xs: seq<nat>): nat {
    if |xs| == 0 then 0 else Sum(xs[..|xs| - 1]) + xs[|xs| - 1]
  }

  function Product(xs: seq<nat>): nat {
    if |xs| == 0 then 1 else Product(xs[..|xs| - 1]) * xs[|xs| - 1]
  }

  lemma MultiplyAssociates(a: nat, b: nat, c: nat)
    ensures a * b * c == a * (b * c)
  {
  }

  // ---------------------------------------------------------------------
  // parse_line_numbers

  /** Every whitespace-separated token of the line is an unsigned decimal number. */
  predicate NumeralTokens(line: string) {
    forall i :: 0 <= i < |Text.Tokens(line)| ==> IsNumeral(Text.Tokens(line)[i])
  }

  /** `parse_line_numbers`: the tokens of the line, each read as a number, in order. */
  function ParseLineNumbers(line: string): (numbers: seq<nat>)
    requires NumeralTokens(line)
    ensures |numbers| == |Text.Tokens(line)|
  {
    var tokens := Text.Tokens(line);
    seq(|tokens|, i requires 0 <= i < |tokens| => ParseNat(tokens[i]))
  }

  /** The numbers written in decimal. */
  function Shown(numbers: seq<nat>): (words: seq<string>)
    ensures |words| == |numbers|
    ensures forall i :: 0 <= i < |words| ==> words[i] == Show(numbers[i])
  {
    seq(|numbers|, i requires 0 <= i < |numbers| => Show(numbers[i]))
  }

  /** A line of numbers written with spaces between them reads back as those numbers. */
  lemma ParseLineNumbersShown(numbers: seq<nat>)
    ensures NumeralTokens(Text.Unwords(Shown(numbers)))
    ensures ParseLineNumbers(Text.Unwords(Shown(numbers))) == numbers
  {
    var words := Shown(numbers);
    forall i | 0 <= i < |words| ensures words[i] != [] && Text.NoWhitespace(words[i]) {
      var w := words[i];
      assert IsNumeral(w);
      forall k | 0 <= k < |w| ensures !Text.IsWhitespace(w[k]) {
        assert IsDigit(w[k]);
      }
    }
    Text.TokensUnwords(words);
    forall i | 0 <= i < |numbers| ensures ParseNat(words[i]) == numbers[i] {
      ParseShow(numbers[i]);
    }
  }

  // ---------------------------------------------------------------------
  // part1

  /** Every row of above has an operator, '*' or '+', for each of its numbers. */
  predicate OperatorsCover(operators: seq<string>, above: seq<seq<nat>>) {
    forall k :: 0 <= k < |above| ==>
      |above[k]| <= |operators| && forall j :: 0 <= j < |above[k]| ==> IsOperator(operators[j])
  }

  /** No row of above is longer than the bottom row (otherwise `values[i]` panics). */
  predicate NoWiderThan(width: nat, above: seq<seq<nat>>) {
    forall k :: 0 <= k < |above| ==> |above[k]| <= width
  }

  /**
   * Column j after folding the rows of above in order into start, each with
   * operator j; a row without a j-th number leaves the column alone.
   */
  function FoldColumn(start: nat, operators: seq<string>, above: seq<seq<nat>>, j: nat): nat
    requires OperatorsCover(operators, above)
  {
    if |above| == 0 then start
    else
      var row := above[|above| - 1];
      var value := FoldColumn(start, operators, above[..|above| - 1], j);
      if j < |row| then Apply(operators[j], value, row[j]) else value
  }

  /** The j-th numbers of the rows of above that have one, in order. */
  function Entries(above: seq<seq<nat>>, j: nat): (entries: seq<nat>)
    ensures |entries| <= |above|
  {
    if |above| == 0 then []
    else
      var row := above[|above| - 1];
      Entries(above[..|above| - 1], j) + (if j < |row| then [row[j]] else [])
  }

  /** A column's value is its start combined with every number above it by the column's operator. */
  lemma {:induction false} FoldColumnValue(start: nat, operators: seq<string>, above: seq<seq<nat>>, j: nat)
    requires OperatorsCover(operators, above)
    ensures Entries(above, j) == [] ==> FoldColumn(start, operators, above, j) == start
    ensures Entries(above, j) != [] ==> j < |operators| && IsOperator(operators[j])
    ensures Entries(above, j) != [] && operators[j] == "+" ==>
      FoldColumn(start, operators, above, j) == start + Sum(Entries(above, j))
    ensures Entries(above, j) != [] && operators[j] == "*" ==>
      FoldColumn(start, operators, above, j) == start * Product(Entries(above, j))
  {
    if |above| > 0 {
      var init, row := above[..|above| - 1], above[|above| - 1];
      FoldColumnValue(start, operators, init, j);
      var before := Entries(init, j);
      var value := FoldColumn(start, operators, init, j);
      if j < |row| {
        var x := row[j];
        var entries := before + [x];
        assert Entries(above, j) == entries;
        assert entries[..|entries| - 1] == before;
        if operators[j] == "+" {
          assert value == start + Sum(before);
          assert Sum(entries) == Sum(before) + x;
          assert FoldColumn(start, operators, above, j) == value + x;
        } else {
          assert value == start * Product(before);
          assert Product(entries) == Product(before) * x;
          assert FoldColumn(start, operators, above, j) == value * x;
          MultiplyAssociates(start, Product(before), x);
        }
      } else {
        assert Entries(above, j) == before;
        assert FoldColumn(start, operators, above, j) == value;
      }
    }
  }

  /** The column values of part one: the bottom row folded upward. */
  function Columns(bottom: seq<nat>, operators: seq<string>, above: seq<seq<nat>>): (values: seq<nat>)
    requires OperatorsCover(operators, above)
    ensures |values| == |bottom|
  {
    seq(|bottom|, j requires 0 <= j < |bottom| => FoldColumn(bottom[j], operators, above, j))
  }

  /** `part1` reads the tokens of the last line as operators, */
  function OperatorsOf(lines: seq<string>): seq<string>
    requires |lines| >= 1
  {
    Text.Tokens(lines[|lines| - 1])
  }

  /** the line above them as the starting values, */
  function BottomOf(lines: seq<string>): seq<nat>
    requires |lines| >= 2 && NumeralTokens(lines[|lines| - 2])
  {
    ParseLineNumbers(lines[|lines| - 2])
  }

  /** and the lines above that as rows, from the bottom upward. */
  function AboveOf(lines: seq<string>): (above: seq<seq<nat>>)
    requires |lines| >= 2
    requires forall k :: 0 <= k < |lines| - 1 ==> NumeralTokens(lines[k])
    ensures |above| == |lines| - 2
    ensures forall p :: 0 <= p < |above| ==> above[p] == ParseLineNumbers(lines[|lines| - 3 - p])
  {
    seq(|lines| - 2, p requires 0 <= p < |lines| - 2 => ParseLineNumbers(lines[|lines| - 3 - p]))
  }

  /** What `part1` unwraps and indexes without panicking. */
  predicate IsWorksheet(lines: seq<string>) {
    |lines| >= 2
    && (forall k :: 0 <= k < |lines| - 1 ==> NumeralTokens(lines[k]))
    && OperatorsCover(OperatorsOf(lines), AboveOf(lines))
    && NoWiderThan(|BottomOf(lines)|, AboveOf(lines))
  }

  /** `part1`: fold every column upward and add up the column values. */
  method Part1(input: string) returns (total: nat)
    requires IsWorksheet(Text.Lines(input))
    ensures total == Sum(Columns(BottomOf(Text.Lines(input)), OperatorsOf(Text.Lines(input)), AboveOf(Text.Lines(input))))
  {
    var lines := Text.Lines(input);
    var n := |lines|;
    var operators := Text.Tokens(lines[n - 1]);
    var values := ParseLineNumbers(lines[n - 2]);
    assert operators == OperatorsOf(lines) && values == BottomOf(lines);
    values := FoldRows(lines, operators, values);
    total := Sum(values);
  }

  /** The loop of `part1`: the lines above the bottom row, from the bottom up, folded into the columns. */
  method FoldRows(lines: seq<string>, operators: seq<string>, bottom: seq<nat>) returns (values: seq<nat>)
    requires |lines| >= 2
    requires forall k :: 0 <= k < |lines| - 1 ==> NumeralTokens(lines[k])
    requires OperatorsCover(operators, AboveOf(lines)) && NoWiderThan(|bottom|, AboveOf(lines))
    ensures values == Columns(bottom, operators, AboveOf(lines))
  {
    var n := |lines|;
    values := bottom;
    ghost var above := AboveOf(lines);
    for p := 0 to n - 2
      invariant |values| == |bottom|
      invariant OperatorsCover(operators, above[..p])
      invariant forall j :: 0 <= j < |values| ==> values[j] == FoldColumn(bottom[j], operators, above[..p], j)
    {
      var numbers := ParseLineNumbers(lines[n - 3 - p]);
      assert numbers == above[p];
      FoldColumnNext(bottom, operators, above, p);
      for i := 0 to |numbers|
        invariant |values| == |bottom|
        invariant forall j :: 0 <= j < i ==> values[j] == FoldColumn(bottom[j], operators, above[..p + 1], j)
        invariant forall j :: i <= j < |values| ==> values[j] == FoldColumn(bottom[j], operators, above[..p], j)
      {
        values := values[i := Apply(operators[i], values[i], numbers[i])];
      }
    }
    assert above[..n - 2] == above;
  }

  /** Folding one more row changes exactly the columns that row has a number for. */
  lemma FoldColumnNext(bottom: seq<nat>, operators: seq<string>, above: seq<seq<nat>>, p: nat)
    requires OperatorsCover(operators, above) && p < |above|
    ensures OperatorsCover(operators, above[..p]) && OperatorsCover(operators, above[..p + 1])
    ensures forall j :: 0 <= j < |bottom| && j < |above[p]| ==>
      FoldColumn(bottom[j], operators, above[..p + 1], j) == Apply(operators[j], FoldColumn(bottom[j], operators, above[..p], j), above[p][j])
    ensures forall j :: 0 <= j < |bottom| && |above[p]| <= j ==>
      FoldColumn(bottom[j], operators, above[..p + 1], j) == FoldColumn(bottom[j], operators, above[..p], j)
  {
    assert above[..p + 1][..p] == above[..p];
  }

  // ---------------------------------------------------------------------
  // part2: the character columns

  /** The non-whitespace characters at index idx of the rows, top to bottom. */
  function ColumnText(rows: seq<string>, idx: nat): (text: string)
    ensures |text| <= |rows| && Text.NoWhitespace(text)
  {
    if |rows| == 0 then []
    else
      var row := rows[|rows| - 1];
      ColumnText(rows[..|rows| - 1], idx) + (if idx < |row| && !Text.IsWhitespace(row[idx]) then [row[idx]] else [])
  }

  /** numbers holds, for every index, the column text of rows when that is not empty. */
  ghost predicate HoldsColumns(numbers: map<nat, string>, rows: seq<string>) {
    forall idx: nat :: (idx in numbers <==> ColumnText(rows, idx) != [])
      && (idx in numbers ==> numbers[idx] == ColumnText(rows, idx))
  }

  /** The column text at k while row r is read up to index idx. */
  ghost function PartialText(rows: seq<string>, r: nat, idx: nat, k: nat): string
    requires r < |rows|
  {
    if k < idx then ColumnText(rows[..r + 1], k) else ColumnText(rows[..r], k)
  }

  /** numbers holds the columns of the rows before r and of row r up to idx. */
  ghost predicate HoldsPartial(numbers: map<nat, string>, rows: seq<string>, r: nat, idx: nat)
    requires r < |rows|
  {
    forall k: nat :: (k in numbers <==> PartialText(rows, r, idx, k) != [])
      && (k in numbers ==> numbers[k] == PartialText(rows, r, idx, k))
  }

  /** Reading a character onto the string of its index, as the inner loop of `part2` does. */
  function Pushed(numbers: map<nat, string>, idx: nat, c: char): (pushed: map<nat, string>)
    ensures Text.IsWhitespace(c) ==> pushed == numbers
    ensures !Text.IsWhitespace(c) ==> idx in pushed && pushed[idx] == (if idx in numbers then numbers[idx] else []) + [c]
    ensures forall k :: k != idx ==> (k in pushed <==> k in numbers) && (k in numbers ==> pushed[k] == numbers[k])
  {
    if Text.IsWhitespace(c) then numbers
    else if idx in numbers then numbers[idx := numbers[idx] + [c]]
    else numbers[idx := [c]]
  }

  /** The column text of one more row. */
  lemma ColumnTextNext(rows: seq<string>, r: nat, idx: nat)
    requires r < |rows|
    ensures ColumnText(rows[..r + 1], idx) == ColumnText(rows[..r], idx)
      + (if idx < |rows[r]| && !Text.IsWhitespace(rows[r][idx]) then [rows[r][idx]] else [])
  {
    assert rows[..r + 1][..r] == rows[..r];
  }

  /** A row starts with the columns of the rows above it. */
  lemma RowStart(numbers: map<nat, string>, rows: seq<string>, r: nat)
    requires r < |rows| && HoldsColumns(numbers, rows[..r])
    ensures HoldsPartial(numbers, rows, r, 0)
  {
  }

  /** Reading one character of row r keeps the partial columns. */
  lemma {:induction false} PushNext(numbers: map<nat, string>, rows: seq<string>, r: nat, idx: nat)
    requires r < |rows| && idx < |rows[r]| && HoldsPartial(numbers, rows, r, idx)
    ensures HoldsPartial(Pushed(numbers, idx, rows[r][idx]), rows, r, idx + 1)
  {
    var pushed := Pushed(numbers, idx, rows[r][idx]);
    forall k: nat
      ensures (k in pushed <==> PartialText(rows, r, idx + 1, k) != [])
        && (k in pushed ==> pushed[k] == PartialText(rows, r, idx + 1, k))
    {
      if k == idx {
        ColumnTextNext(rows, r, idx);
        assert PartialText(rows, r, idx, k) == ColumnText(rows[..r], k);
      } else {
        assert PartialText(rows, r, idx + 1, k) == PartialText(rows, r, idx, k);
      }
    }
  }

  /** A row read to its end leaves the columns of the rows up to it. */
  lemma {:induction false} RowEnd(numbers: map<nat, string>, rows: seq<string>, r: nat)
    requires r < |rows| && HoldsPartial(numbers, rows, r, |rows[r]|)
    ensures HoldsColumns(numbers, rows[..r + 1])
  {
    forall k: nat
      ensures (k in numbers <==> ColumnText(rows[..r + 1], k) != [])
        && (k in numbers ==> numbers[k] == ColumnText(rows[..r + 1], k))
    {
      ColumnTextNext(rows, r, k);
      assert PartialText(rows, r, |rows[r]|, k) == ColumnText(rows[..r + 1], k);
    }
  }

  /**
   * The first loop of `part2`: every non-whitespace character is pushed
   * onto the string of its index, or starts it.
   */
  method CollectNumbers(rows: seq<string>) returns (numbers: map<nat, string>)
    ensures HoldsColumns(numbers, rows)
  {
    numbers := map[];
    for r := 0 to |rows|
      invariant HoldsColumns(numbers, rows[..r])
    {
      var line := rows[r];
      RowStart(numbers, rows, r);
      for idx := 0 to |line|
        invariant HoldsPartial(numbers, rows, r, idx)
      {
        var c := line[idx];
        PushNext(numbers, rows, r, idx);
        if !Text.IsWhitespace(c) {
          if idx in numbers {
            numbers := numbers[idx := numbers[idx] + [c]];
          } else {
            numbers := numbers[idx := [c]];
          }
        }
      }
      RowEnd(numbers, rows, r);
    }
    assert rows[..|rows|] == rows;
  }

  // ---------------------------------------------------------------------
  // part2: the groups

  predicate IsOperatorChar(c: char) {
    c == '*' || c == '+'
  }

  /**
   * A group of character columns: it starts at an operator character and
   * runs up to the next one or to the end of the operator line.
   */
  datatype Group = Group(op: char, start: nat, end: nat)

  /** The groups of an operator line; the columns before its first operator belong to none. */
  function GroupsOf(line: string): (groups: seq<Group>)
    ensures forall i :: 0 <= i < |groups| ==>
      IsOperatorChar(groups[i].op) && groups[i].start < groups[i].end <= |line|
    ensures groups != [] ==> groups[|groups| - 1].end == |line|
  {
    if |line| == 0 then []
    else
      var init, c := line[..|line| - 1], line[|line| - 1];
      var groups := GroupsOf(init);
      if IsOperatorChar(c) then groups + [Group(c, |line| - 1, |line|)]
      else if groups == [] then []
      else groups[..|groups| - 1] + [groups[|groups| - 1].(end := |line|)]
  }

  /** The groups of one more character of the operator line. */
  lemma GroupsNext(line: string, k: nat)
    requires k < |line|
    ensures GroupsOf(line[..k + 1]) ==
      var groups := GroupsOf(line[..k]);
      if IsOperatorChar(line[k]) then groups + [Group(line[k], k, k + 1)]
      else if groups == [] then []
      else groups[..|groups| - 1] + [groups[|groups| - 1].(end := k + 1)]
  {
    assert line[..k + 1][..k] == line[..k];
  }

  /** Each group starts at its own operator character. */
  lemma {:induction false} GroupsStartAtOperators(line: string)
    ensures forall i :: 0 <= i < |GroupsOf(line)| ==> line[GroupsOf(line)[i].start] == GroupsOf(line)[i].op
  {
    if |line| > 0 {
      var init := line[..|line| - 1];
      GroupsStartAtOperators(init);
      var before, groups := GroupsOf(init), GroupsOf(line);
      forall i | 0 <= i < |groups| ensures line[groups[i].start] == groups[i].op {
        if i < |before| {
          assert groups[i].start == before[i].start && groups[i].op == before[i].op;
          assert init[before[i].start] == line[before[i].start];
        }
      }
    }
  }

  /** No group holds an operator character after its start. */
  lemma {:induction false} GroupsHoldOneOperator(line: string)
    ensures forall i, idx :: 0 <= i < |GroupsOf(line)| && GroupsOf(line)[i].start < idx < GroupsOf(line)[i].end ==>
      !IsOperatorChar(line[idx])
  {
    if |line| > 0 {
      var n := |line| - 1;
      var init := line[..n];
      GroupsHoldOneOperator(init);
      var before, groups := GroupsOf(init), GroupsOf(line);
      forall i, idx | 0 <= i < |groups| && groups[i].start < idx < groups[i].end ensures !IsOperatorChar(line[idx]) {
        if idx < n {
          assert i < |before| && before[i].start == groups[i].start && idx < before[i].end;
          assert init[idx] == line[idx];
        }
      }
    }
  }

  /** Each group ends where the next one starts. */
  lemma {:induction false} GroupsAreContiguous(line: string)
    ensures forall i :: 0 <= i < |GroupsOf(line)| - 1 ==> GroupsOf(line)[i].end == GroupsOf(line)[i + 1].start
  {
    if |line| > 0 {
      GroupsAreContiguous(line[..|line| - 1]);
    }
  }

  /**
   * There are groups exactly when the line has an operator character, and
   * none comes before the first group.
   */
  lemma {:induction false} GroupsExistAtOperators(line: string)
    ensures GroupsOf(line) == [] <==> forall idx :: 0 <= idx < |line| ==> !IsOperatorChar(line[idx])
    ensures GroupsOf(line) != [] ==> forall idx :: 0 <= idx < GroupsOf(line)[0].start ==> !IsOperatorChar(line[idx])
  {
    if |line| > 0 {
      var n := |line| - 1;
      var init := line[..n];
      GroupsExistAtOperators(init);
      forall idx | 0 <= idx < n ensures init[idx] == line[idx] {
      }
    }
  }

  /** Every character column from lo up to hi reads as digits. */
  predicate DigitColumns(rows: seq<string>, lo: nat, hi: nat) {
    forall idx :: lo <= idx < hi ==> AllDigits(ColumnText(rows, idx))
  }

  /**
   * A group's value: start from the operator's restart value and apply the
   * operator to each character column of the group that holds a number.
   */
  function GroupValue(op: char, rows: seq<string>, lo: nat, hi: nat): nat
    requires IsOperatorChar(op) && DigitColumns(rows, lo, hi)
    decreases hi
  {
    if hi <= lo then Identity([op])
    else
      var value := GroupValue(op, rows, lo, hi - 1);
      var text := ColumnText(rows, hi - 1);
      if text == [] then value else Apply([op], value, ParseNat(text))
  }

  /** The numbers of the character columns from lo up to hi, left to right. */
  function GroupNumbers(rows: seq<string>, lo: nat, hi: nat): (numbers: seq<nat>)
    requires DigitColumns(rows, lo, hi)
    decreases hi
  {
    if hi <= lo then []
    else
      var text := ColumnText(rows, hi - 1);
      GroupNumbers(rows, lo, hi - 1) + (if text == [] then [] else [ParseNat(text)])
  }

  /** A '+' group adds its numbers and a '*' group multiplies them. */
  lemma {:induction false} GroupValueIs(op: char, rows: seq<string>, lo: nat, hi: nat)
    requires IsOperatorChar(op) && DigitColumns(rows, lo, hi)
    ensures op == '+' ==> GroupValue(op, rows, lo, hi) == Sum(GroupNumbers(rows, lo, hi))
    ensures op == '*' ==> GroupValue(op, rows, lo, hi) == Product(GroupNumbers(rows, lo, hi))
    decreases hi
  {
    if lo < hi {
      GroupValueIs(op, rows, lo, hi - 1);
      var value := GroupValue(op, rows, lo, hi - 1);
      var before := GroupNumbers(rows, lo, hi - 1);
      var text := ColumnText(rows, hi - 1);
      if text != [] {
        var x := ParseNat(text);
        ApplyAppends(op, value, before, x);
        assert GroupValue(op, rows, lo, hi) == Apply([op], value, x);
        assert GroupNumbers(rows, lo, hi) == before + [x];
      } else {
        assert GroupValue(op, rows, lo, hi) == value;
        assert GroupNumbers(rows, lo, hi) == before;
      }
    }
  }

  /** Applying the operator to one more number keeps the value a sum, or a product, of the numbers so far. */
  lemma ApplyAppends(op: char, value: nat, numbers: seq<nat>, x: nat)
    requires IsOperatorChar(op)
    requires op == '+' ==> value == Sum(numbers)
    requires op == '*' ==> value == Product(numbers)
    ensures op == '+' ==> Apply([op], value, x) == Sum(numbers + [x])
    ensures op == '*' ==> Apply([op], value, x) == Product(numbers + [x])
  {
    assert (numbers + [x])[..|numbers|] == numbers;
  }

  /** The groups all read as digits. */
  predicate GroupsRead(groups: seq<Group>, rows: seq<string>) {
    forall i :: 0 <= i < |groups| ==> IsOperatorChar(groups[i].op) && DigitColumns(rows, groups[i].start, groups[i].end)
  }

  /** The sum of the group values. */
  function SumGroups(groups: seq<Group>, rows: seq<string>): nat
    requires GroupsRead(groups, rows)
  {
    if |groups| == 0 then 0
    else
      var last := groups[|groups| - 1];
      SumGroups(groups[..|groups| - 1], rows) + GroupValue(last.op, rows, last.start, last.end)
  }

  /** The columns before the first operator hold no digits (otherwise `current_operator.unwrap()` panics). */
  predicate NothingBeforeOperators(line: string, rows: seq<string>) {
    forall idx :: 0 <= idx < |line| && GroupsOf(line[..idx + 1]) == [] ==> ColumnText(rows, idx) == []
  }

  /**
   * The state of the second loop of `part2` with the given groups read and
   * the columns before upto applied: the finished groups summed, the last
   * one's value so far and its operator.
   */
  ghost predicate Summed(groups: seq<Group>, rows: seq<string>, upto: nat, sum: nat, columnSum: nat, operator: Option<string>) {
    GroupsRead(groups, rows)
    && (groups == [] ==> sum == 0 && columnSum == 0 && operator == None)
    && (groups != [] ==>
          var last := groups[|groups| - 1];
          last.start <= upto
          && DigitColumns(rows, last.start, upto)
          && operator == Some([last.op])
          && sum == SumGroups(groups[..|groups| - 1], rows)
          && columnSum == GroupValue(last.op, rows, last.start, upto))
  }

  /** An operator character at k flushes the running value into the sum and starts a group. */
  lemma FlushAtOperator(line: string, rows: seq<string>, k: nat, sum: nat, columnSum: nat, operator: Option<string>)
    requires k < |line| && IsOperatorChar(line[k]) && DigitColumns(rows, 0, |line|)
    requires Summed(GroupsOf(line[..k]), rows, k, sum, columnSum, operator)
    ensures Summed(GroupsOf(line[..k + 1]), rows, k, sum + columnSum, Identity([line[k]]), Some([line[k]]))
  {
    GroupsNext(line, k);
    var groups := GroupsOf(line[..k]);
    var next := GroupsOf(line[..k + 1]);
    assert next == groups + [Group(line[k], k, k + 1)];
    assert next[..|next| - 1] == groups;
    SummedEnd(groups, rows, k, sum, columnSum, operator);
    assert DigitColumns(rows, k, k + 1);
    assert GroupValue(line[k], rows, k, k) == Identity([line[k]]);
  }

  /** Any other character at k leaves the running value to the current group. */
  lemma CarryPastColumn(line: string, rows: seq<string>, k: nat, sum: nat, columnSum: nat, operator: Option<string>)
    requires k < |line| && !IsOperatorChar(line[k]) && DigitColumns(rows, 0, |line|)
    requires Summed(GroupsOf(line[..k]), rows, k, sum, columnSum, operator)
    ensures Summed(GroupsOf(line[..k + 1]), rows, k, sum, columnSum, operator)
  {
    GroupsNext(line, k);
    var groups := GroupsOf(line[..k]);
    var next := GroupsOf(line[..k + 1]);
    if groups != [] {
      ExtendLastGroup(groups, rows, k, sum, columnSum, operator);
    }
  }

  /** Widening the last group past the column k keeps the sums of the others and its value so far. */
  lemma ExtendLastGroup(groups: seq<Group>, rows: seq<string>, k: nat, sum: nat, columnSum: nat, operator: Option<string>)
    requires groups != [] && Summed(groups, rows, k, sum, columnSum, operator)
    requires DigitColumns(rows, groups[|groups| - 1].start, k + 1)
    ensures Summed(groups[..|groups| - 1] + [groups[|groups| - 1].(end := k + 1)], rows, k, sum, columnSum, operator)
  {
    var init, last := groups[..|groups| - 1], groups[|groups| - 1];
    var next := init + [last.(end := k + 1)];
    assert next[..|next| - 1] == init;
    assert GroupsRead(next, rows);
  }

  /** The number in column k, if there is one, is applied to the running value. */
  lemma TakeNext(line: string, rows: seq<string>, numbers: map<nat, string>, k: nat, sum: nat, columnSum: nat, operator: Option<string>)
    requires k < |line| && DigitColumns(rows, 0, |line|) && HoldsColumns(numbers, rows)
    requires NothingBeforeOperators(line, rows)
    requires Summed(GroupsOf(line[..k + 1]), rows, k, sum, columnSum, operator)
    ensures k in numbers ==> operator.Some? && IsOperator(operator.value) && AllDigits(numbers[k])
    ensures k in numbers ==>
      Summed(GroupsOf(line[..k + 1]), rows, k + 1, sum, Apply(operator.value, columnSum, ParseNat(numbers[k])), operator)
    ensures k !in numbers ==> Summed(GroupsOf(line[..k + 1]), rows, k + 1, sum, columnSum, operator)
  {
  }

  /** Flushing the running value of the last group completes the sum. */
  lemma SummedEnd(groups: seq<Group>, rows: seq<string>, upto: nat, sum: nat, columnSum: nat, operator: Option<string>)
    requires Summed(groups, rows, upto, sum, columnSum, operator)
    requires groups != [] ==> groups[|groups| - 1].end == upto
    ensures GroupsRead(groups, rows) && sum + columnSum == SumGroups(groups, rows)
  {
    if groups != [] {
      assert groups[..|groups| - 1] + [groups[|groups| - 1]] == groups;
    }
  }

  /**
   * The second loop of `part2`: an operator character flushes the running
   * group value into the sum and restarts it; a column number is applied
   * to it; the last group is flushed after the loop.
   */
  method SumColumns(line: string, numbers: map<nat, string>, ghost rows: seq<string>) returns (sum: nat)
    requires HoldsColumns(numbers, rows)
    requires DigitColumns(rows, 0, |line|) && NothingBeforeOperators(line, rows)
    ensures GroupsRead(GroupsOf(line), rows)
    ensures sum == SumGroups(GroupsOf(line), rows)
  {
    var currentOperator: Option<string> := None;
    var columnSum: nat := 0;
    sum := 0;
    assert line[..0] == [];
    for k := 0 to |line|
      invariant Summed(GroupsOf(line[..k]), rows, k, sum, columnSum, currentOperator)
    {
      var c := line[k];
      if c == '*' || c == '+' {
        FlushAtOperator(line, rows, k, sum, columnSum, currentOperator);
        sum := sum + columnSum;
        columnSum := if c == '*' then 1 else 0;
        currentOperator := Some([c]);
      } else {
        CarryPastColumn(line, rows, k, sum, columnSum, currentOperator);
      }
      TakeNext(line, rows, numbers, k, sum, columnSum, currentOperator);
      if k in numbers {
        var number := ParseNat(numbers[k]);
        columnSum := Apply(currentOperator.value, columnSum, number);
      }
    }
    assert line[..|line|] == line;
    SummedEnd(GroupsOf(line), rows, |line|, sum, columnSum, currentOperator);
    sum := sum + columnSum;
  }

  /** What `part2` unwraps without panicking. */
  predicate IsColumnWorksheet(lines: seq<string>) {
    |lines| >= 1
    && DigitColumns(lines[..|lines| - 1], 0, |lines[|lines| - 1]|)
    && NothingBeforeOperators(lines[|lines| - 1], lines[..|lines| - 1])
  }

  /** `part2`: the sum over the groups of the operator line of the group values. */
  method Part2(input: string) returns (sum: nat)
    requires IsColumnWorksheet(Text.Lines(input))
    ensures var lines := Text.Lines(input);
      GroupsRead(GroupsOf(lines[|lines| - 1]), lines[..|lines| - 1])
      && sum == SumGroups(GroupsOf(lines[|lines| - 1]), lines[..|lines| - 1])
  {
    var lines := Text.Lines(input);
    var operatorLine := lines[|lines| - 1];
    var numbers := CollectNumbers(lines[..|lines| - 1]);
    sum := SumColumns(operatorLine, numbers, lines[..|lines| - 1]);
  }
}
