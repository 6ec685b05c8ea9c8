/**
 * Day 4: the input is a grid in which '@' marks a roll of paper. A roll is
 * accessible when fewer than four of the eight cells around it hold a roll.
 * Part one counts the accessible rolls; part two removes every accessible
 * roll in rounds, each round judged on the grid as it was when the round
 * began, until no roll is accessible, and counts the rolls removed.
 *
 * Both parts keep, for every cell, the number of rolls around it in a hash
 * map that grows when a roll is added and shrinks when one is removed.
 */
module Day04 {
  import Text

  /** A (row, column) position of the grid; the source keeps both as i32. */
  datatype Cell = Cell(row: int, column: int)

  // ---------------------------------------------------------------------
  // The Moore neighbourhood

  /** The eight cells around cell, in the order `cells_around` yields them. */
  function Around(cell: Cell): (cells: seq<Cell>)
    ensures |cells| == 8
    ensures forall i :: 0 <= i < |cells| ==> IsNeighbour(cell, cells[i])
  {
    var r, c := cell.row, cell.column;
    [Cell(r - 1, c - 1), Cell(r - 1, c), Cell(r - 1, c + 1),
     Cell(r, c - 1), Cell(r, c + 1),
     Cell(r + 1, c - 1), Cell(r + 1, c), Cell(r + 1, c + 1)]
  }

  /** other differs from cell by at most one in row and in column, and is not cell. */
  predicate IsNeighbour(cell: Cell, other: Cell) {
    other != cell
    && -1 <= other.row - cell.row <= 1
    && -1 <= other.column - cell.column <= 1
  }

  function Neighbours(cell: Cell): set<Cell> {
    set other | other in Around(cell)
  }

  /** The neighbours are the cells at the eight slots of Around. */
  lemma NeighboursBySlot(cell: Cell)
    ensures (set k | 0 <= k < 8 :: Around(cell)[k]) == Neighbours(cell)
  {
    var around := Around(cell);
    forall other | other in Neighbours(cell) ensures exists k :: 0 <= k < 8 && around[k] == other {
      var k :| 0 <= k < |around| && around[k] == other;
    }
  }

  /** The eight cells are distinct and are exactly the neighbours of cell. */
  lemma AroundIsNeighbourhood(cell: Cell)
    ensures |Around(cell)| == 8
    ensures forall i, j :: 0 <= i < j < 8 ==> Around(cell)[i] != Around(cell)[j]
    ensures forall other :: other in Neighbours(cell) <==> IsNeighbour(cell, other)
  {
    forall other | IsNeighbour(cell, other) ensures other in Around(cell) {
      var dr, dc := other.row - cell.row, other.column - cell.column;
      assert other == Cell(cell.row + dr, cell.column + dc);
    }
  }

  /** Being neighbours is symmetric. */
  lemma NeighbourSymmetric(a: Cell, b: Cell)
    ensures a in Neighbours(b) <==> b in Neighbours(a)
  {
    AroundIsNeighbourhood(a);
    AroundIsNeighbourhood(b);
  }

  /** Where the cell at offset (drow, dcolumn) sits in Around: the centre is skipped. */
  function Slot(drow: int, dcolumn: int): int {
    var k := 3 * (drow + 1) + (dcolumn + 1);
    if k > 4 then k - 1 else k
  }

  lemma AroundAtSlot(cell: Cell, drow: int, dcolumn: int)
    requires -1 <= drow <= 1 && -1 <= dcolumn <= 1 && (drow, dcolumn) != (0, 0)
    ensures 0 <= Slot(drow, dcolumn) < 8
    ensures Around(cell)[Slot(drow, dcolumn)] == Cell(cell.row + drow, cell.column + dcolumn)
  {
  }

  /** `cells_around`: the two nested loops over the offsets -1, 0, 1, skipping (0, 0). */
  method CellsAround(cell: Cell) returns (cells: seq<Cell>)
    ensures cells == Around(cell)
  {
    cells := [];
    for drow := -1 to 2
      invariant cells == Around(cell)[..Slot(drow, -1)]
    {
      for dcolumn := -1 to 2
        invariant cells == Around(cell)[..Slot(drow, dcolumn)]
      {
        if drow == 0 && dcolumn == 0 {
          continue;
        }
        AroundAtSlot(cell, drow, dcolumn);
        assert Around(cell)[..Slot(drow, dcolumn) + 1]
            == Around(cell)[..Slot(drow, dcolumn)] + [Cell(cell.row + drow, cell.column + dcolumn)];
        cells := cells + [Cell(cell.row + drow, cell.column + dcolumn)];
      }
    }
    assert Around(cell)[..8] == Around(cell);
  }

  // ---------------------------------------------------------------------
  // The connection map

  /** `connections.get(cell).copied().unwrap_or(0)`: an absent key reads as 0. */
  function Count(counts: map<Cell, nat>, cell: Cell): nat {
    if cell in counts then counts[cell] else 0
  }

  /** The map after `add_connections(cell)`: every neighbour's count one higher, present from then on. */
  function Added(counts: map<Cell, nat>, cell: Cell): (added: map<Cell, nat>)
    ensures added.Keys == counts.Keys + Neighbours(cell)
  {
    map other | other in counts.Keys + Neighbours(cell)
      :: Count(counts, other) + (if other in Neighbours(cell) then 1 else 0)
  }

  /** The neighbours of cell that are present in the map all count at least one. */
  predicate CanRemove(counts: map<Cell, nat>, cell: Cell) {
    forall other :: other in counts && other in Neighbours(cell) ==> counts[other] >= 1
  }

  /** The map after `remove_connections(cell)`: present neighbours one lower, absent ones still absent. */
  function Removed(counts: map<Cell, nat>, cell: Cell): (removed: map<Cell, nat>)
    requires CanRemove(counts, cell)
    ensures removed.Keys == counts.Keys
  {
    map other | other in counts :: if other in Neighbours(cell) then counts[other] - 1 else counts[other]
  }

  /** Adding a cell raises exactly its neighbours' counts, by one. */
  lemma AddedCounts(counts: map<Cell, nat>, cell: Cell, other: Cell)
    ensures Count(Added(counts, cell), other) == Count(counts, other) + (if IsNeighbour(cell, other) then 1 else 0)
  {
    AroundIsNeighbourhood(cell);
  }

  /** Removing a cell lowers exactly its present neighbours' counts, by one. */
  lemma RemovedCounts(counts: map<Cell, nat>, cell: Cell, other: Cell)
    requires CanRemove(counts, cell)
    ensures other in Removed(counts, cell) <==> other in counts
    ensures Count(Removed(counts, cell), other)
         == Count(counts, other) - (if IsNeighbour(cell, other) && other in counts then 1 else 0)
  {
    AroundIsNeighbourhood(cell);
  }

  /**
   * Removing what was added restores every count, an absent key reading as
   * 0; the map keeps the neighbours as keys, possibly with count 0.
   */
  lemma AddThenRemove(counts: map<Cell, nat>, cell: Cell)
    ensures CanRemove(Added(counts, cell), cell)
    ensures Removed(Added(counts, cell), cell).Keys == counts.Keys + Neighbours(cell)
    ensures forall other :: Count(Removed(Added(counts, cell), cell), other) == Count(counts, other)
  {
  }

  /** The `HashMap<(i32, i32), u32>` that both parts keep up to date. */
  class ConnectionMap {
    var counts: map<Cell, nat>

    constructor ()
      ensures counts == map[]
    {
      counts := map[];
    }

    /** `connections.get(cell).copied().unwrap_or(0)` */
    function Get(cell: Cell): nat
      reads this
    {
      Count(counts, cell)
    }

    /** `add_connections`: `and_modify(+1).or_insert(1)` for each of the eight cells around. */
    method AddConnections(cell: Cell)
      modifies this
      ensures counts == Added(old(counts), cell)
    {
      var around := CellsAround(cell);
      AroundIsNeighbourhood(cell);
      ghost var before := counts;
      AddEach(around);
      NeighboursBySlot(cell);
      forall other | other in counts ensures counts[other] == Added(before, cell)[other] {
        assert Count(counts, other) == counts[other];
      }
    }

    /** The loop of `add_connections`: one more connection for each of the distinct cells. */
    method AddEach(cells: seq<Cell>)
      requires forall i, j :: 0 <= i < j < |cells| ==> cells[i] != cells[j]
      modifies this
      ensures counts.Keys == old(counts).Keys + set k | 0 <= k < |cells| :: cells[k]
      ensures forall other :: Count(counts, other)
                == Count(old(counts), other) + (if other in cells then 1 else 0)
    {
      for i := 0 to |cells|
        invariant counts.Keys == old(counts).Keys + set k | 0 <= k < i :: cells[k]
        invariant forall other :: Count(counts, other)
                    == Count(old(counts), other) + (if other in cells[..i] then 1 else 0)
      {
        var neighbour := cells[i];
        assert neighbour !in cells[..i];
        if neighbour in counts {
          counts := counts[neighbour := counts[neighbour] + 1];
        } else {
          counts := counts[neighbour := 1];
        }
        assert cells[..i + 1] == cells[..i] + [neighbour];
      }
      assert cells[..|cells|] == cells;
    }

    /** `remove_connections`: `and_modify(-1)` for each of the eight cells around; absent keys stay absent. */
    method RemoveConnections(cell: Cell)
      requires CanRemove(counts, cell)
      modifies this
      ensures counts == Removed(old(counts), cell)
    {
      var around := CellsAround(cell);
      AroundIsNeighbourhood(cell);
      ghost var before := counts;
      for i := 0 to |around|
        invariant counts.Keys == before.Keys
        invariant forall other :: other in counts ==>
                    counts[other] == before[other] - (if other in around[..i] then 1 else 0)
      {
        var neighbour := around[i];
        assert neighbour !in around[..i];
        if neighbour in counts {
          counts := counts[neighbour := counts[neighbour] - 1];
        }
        assert around[..i + 1] == around[..i] + [neighbour];
      }
      assert around[..|around|] == around;
    }
  }

  // ---------------------------------------------------------------------
  // The grid

  /** Character column of line row is an '@'. */
  predicate IsRoll(lines: seq<string>, cell: Cell) {
    0 <= cell.row < |lines| && 0 <= cell.column < |lines[cell.row]| && lines[cell.row][cell.column] == '@'
  }

  /** The rolls read before reaching (row, column), reading line by line. */
  function RollsBefore(lines: seq<string>, row: int, column: int): set<Cell> {
    set r, c | 0 <= r < |lines| && 0 <= c < |lines[r]| && lines[r][c] == '@' && (r < row || (r == row && c < column))
      :: Cell(r, c)
  }

  /** Every roll of the grid. */
  function Rolls(lines: seq<string>): (rolls: set<Cell>)
    ensures forall cell :: cell in rolls <==> IsRoll(lines, cell)
  {
    RollsBefore(lines, |lines|, 0)
  }

  /** The cells that a sequence holds. */
  function Elements(cells: seq<Cell>): set<Cell> {
    set cell | cell in cells
  }

  /** a is read before b. */
  predicate Before(a: Cell, b: Cell) {
    a.row < b.row || (a.row == b.row && a.column < b.column)
  }

  /** The loops of `part1` that push every roll into a Vec, in reading order. */
  method ParseRollList(lines: seq<string>) returns (rolls: seq<Cell>)
    ensures forall i, j :: 0 <= i < j < |rolls| ==> rolls[i] != rolls[j]
    ensures forall cell :: cell in rolls <==> IsRoll(lines, cell)
  {
    rolls := [];
    for row := 0 to |lines|
      invariant forall i, j :: 0 <= i < j < |rolls| ==> rolls[i] != rolls[j]
      invariant forall i :: 0 <= i < |rolls| ==> Before(rolls[i], Cell(row, 0))
      invariant forall cell :: cell in rolls <==> cell in RollsBefore(lines, row, 0)
    {
      var line := lines[row];
      for column := 0 to |line|
        invariant forall i, j :: 0 <= i < j < |rolls| ==> rolls[i] != rolls[j]
        invariant forall i :: 0 <= i < |rolls| ==> Before(rolls[i], Cell(row, column))
        invariant forall cell :: cell in rolls <==> cell in RollsBefore(lines, row, column)
      {
        if line[column] == '@' {
          rolls := rolls + [Cell(row, column)];
        }
      }
    }
  }

  /** The loops of `part2` that insert every roll into a HashSet. */
  method ParseRollSet(lines: seq<string>) returns (rolls: set<Cell>)
    ensures rolls == Rolls(lines)
  {
    rolls := {};
    for row := 0 to |lines|
      invariant rolls == RollsBefore(lines, row, 0)
    {
      var line := lines[row];
      for column := 0 to |line|
        invariant rolls == RollsBefore(lines, row, column)
      {
        if line[column] == '@' {
          rolls := rolls + {Cell(row, column)};
        }
      }
      assert RollsBefore(lines, row, |line|) == RollsBefore(lines, row + 1, 0);
    }
  }

  // ---------------------------------------------------------------------
  // Counts that match the rolls

  /** The number of rolls around cell. */
  function RollsAround(rolls: set<Cell>, cell: Cell): nat {
    |rolls * Neighbours(cell)|
  }

  /** For every cell, the map holds the number of rolls around it (absent meaning 0). */
  ghost predicate CountsMatch(counts: map<Cell, nat>, rolls: set<Cell>) {
    forall cell :: Count(counts, cell) == RollsAround(rolls, cell)
  }

  /** Adding a new roll keeps the counts matching. */
  lemma AddKeepsMatch(counts: map<Cell, nat>, rolls: set<Cell>, roll: Cell)
    requires CountsMatch(counts, rolls) && roll !in rolls
    ensures CountsMatch(Added(counts, roll), rolls + {roll})
  {
    forall cell ensures Count(Added(counts, roll), cell) == RollsAround(rolls + {roll}, cell) {
      AddedCounts(counts, roll, cell);
      AddedRollAround(rolls, roll, cell);
    }
  }

  /** A new roll adds one to the rolls around exactly its neighbours. */
  lemma AddedRollAround(rolls: set<Cell>, roll: Cell, cell: Cell)
    requires roll !in rolls
    ensures RollsAround(rolls + {roll}, cell) == RollsAround(rolls, cell) + (if IsNeighbour(roll, cell) then 1 else 0)
  {
    NeighbourSymmetric(roll, cell);
    AroundIsNeighbourhood(roll);
    if roll in Neighbours(cell) {
      assert (rolls + {roll}) * Neighbours(cell) == rolls * Neighbours(cell) + {roll};
    } else {
      assert (rolls + {roll}) * Neighbours(cell) == rolls * Neighbours(cell);
    }
  }

  /** Removing a roll is allowed (no count goes below zero) and keeps the counts matching. */
  lemma RemoveKeepsMatch(counts: map<Cell, nat>, rolls: set<Cell>, roll: Cell)
    requires CountsMatch(counts, rolls) && roll in rolls
    ensures CanRemove(counts, roll)
    ensures CountsMatch(Removed(counts, roll), rolls - {roll})
  {
    forall other | other in counts && other in Neighbours(roll) ensures counts[other] >= 1 {
      NeighbourSymmetric(roll, other);
      assert roll in rolls * Neighbours(other);
      assert Count(counts, other) == RollsAround(rolls, other);
    }
    forall cell ensures Count(Removed(counts, roll), cell) == RollsAround(rolls - {roll}, cell) {
      RemovedCounts(counts, roll, cell);
      NeighbourSymmetric(roll, cell);
      AroundIsNeighbourhood(roll);
      if roll in Neighbours(cell) {
        assert roll in rolls * Neighbours(cell);
        assert Count(counts, cell) == RollsAround(rolls, cell);
        assert (rolls - {roll}) * Neighbours(cell) == rolls * Neighbours(cell) - {roll};
      } else {
        assert (rolls - {roll}) * Neighbours(cell) == rolls * Neighbours(cell);
      }
    }
  }

  /** With no rolls, no counts. */
  lemma EmptyMatches()
    ensures CountsMatch(map[], {})
  {
  }

  // ---------------------------------------------------------------------
  // Accessible rolls and the peeling

  /** The rolls with fewer than four rolls around them. */
  function Accessible(rolls: set<Cell>): (accessible: set<Cell>)
    ensures accessible <= rolls
  {
    set cell | cell in rolls && RollsAround(rolls, cell) < 4
  }

  /** What is left when the rounds of part two stop: no accessible roll remains. */
  function Survivors(rolls: set<Cell>): set<Cell>
    decreases |rolls|
  {
    var accessible := Accessible(rolls);
    if accessible == {} then rolls
    else
      SmallerAfterRemoval(rolls, accessible);
      Survivors(rolls - accessible)
  }

  /** How many rounds part two makes before it stops (the last round removing nothing). */
  function Rounds(rolls: set<Cell>): nat
    decreases |rolls|
  {
    var accessible := Accessible(rolls);
    if accessible == {} then 0
    else
      SmallerAfterRemoval(rolls, accessible);
      1 + Rounds(rolls - accessible)
  }

  lemma SmallerAfterRemoval(rolls: set<Cell>, removed: set<Cell>)
    requires removed <= rolls && removed != {}
    ensures |rolls - removed| < |rolls|
    ensures |rolls - removed| == |rolls| - |removed|
  {
    var x :| x in removed;
    assert rolls == (rolls - removed) + removed;
  }

  /** The survivors are rolls of the start, and none of them is accessible. */
  lemma {:induction false} SurvivorsAreStable(rolls: set<Cell>)
    ensures Survivors(rolls) <= rolls
    ensures Accessible(Survivors(rolls)) == {}
    ensures forall cell :: cell in Survivors(rolls) ==> RollsAround(Survivors(rolls), cell) >= 4
    decreases |rolls|
  {
    var accessible := Accessible(rolls);
    if accessible != {} {
      SmallerAfterRemoval(rolls, accessible);
      SurvivorsAreStable(rolls - accessible);
    }
    var survivors := Survivors(rolls);
    forall cell | cell in survivors ensures RollsAround(survivors, cell) >= 4 {
      assert RollsAround(survivors, cell) < 4 ==> cell in Accessible(survivors);
    }
  }

  /** Every round but the last removes at least one roll, so there are at most |rolls| of them. */
  lemma {:induction false} RoundsBound(rolls: set<Cell>)
    ensures Rounds(rolls) <= |rolls|
    decreases |rolls|
  {
    var accessible := Accessible(rolls);
    if accessible != {} {
      SmallerAfterRemoval(rolls, accessible);
      RoundsBound(rolls - accessible);
    }
  }

  /** Part two's cascade removes at least the rolls that part one counts as accessible. */
  lemma PeelingRemovesAccessible(rolls: set<Cell>)
    ensures |Accessible(rolls)| <= |rolls| - |Survivors(rolls)|
  {
    var accessible := Accessible(rolls);
    if accessible != {} {
      SmallerAfterRemoval(rolls, accessible);
      SurvivorsAreStable(rolls - accessible);
    }
  }

  // ---------------------------------------------------------------------
  // Part one

  /** The first loop of both parts: `add_connections` for every roll. */
  method ConnectList(rolls: seq<Cell>) returns (connections: ConnectionMap)
    requires forall i, j :: 0 <= i < j < |rolls| ==> rolls[i] != rolls[j]
    ensures fresh(connections)
    ensures CountsMatch(connections.counts, Elements(rolls))
  {
    connections := new ConnectionMap();
    EmptyMatches();
    for i := 0 to |rolls|
      invariant CountsMatch(connections.counts, Elements(rolls[..i]))
    {
      assert rolls[i] !in rolls[..i];
      AddKeepsMatch(connections.counts, Elements(rolls[..i]), rolls[i]);
      connections.AddConnections(rolls[i]);
      assert Elements(rolls[..i + 1]) == Elements(rolls[..i]) + {rolls[i]};
    }
    assert rolls[..|rolls|] == rolls;
  }

  /** `part1`: the number of accessible rolls. */
  method Part1(input: string) returns (rollCount: nat)
    ensures rollCount == |Accessible(Rolls(Text.Lines(input)))|
  {
    var lines := Text.Lines(input);
    var rolls := ParseRollList(lines);
    assert Elements(rolls) == Rolls(lines);
    var connections := ConnectList(rolls);
    rollCount := CountAccessible(connections, rolls);
  }

  /** The second loop of `part1`: the rolls whose count is below four. */
  method CountAccessible(connections: ConnectionMap, rolls: seq<Cell>) returns (rollCount: nat)
    requires forall i, j :: 0 <= i < j < |rolls| ==> rolls[i] != rolls[j]
    requires CountsMatch(connections.counts, Elements(rolls))
    ensures rollCount == |Accessible(Elements(rolls))|
  {
    ghost var accessible := Accessible(Elements(rolls));
    rollCount := 0;
    for i := 0 to |rolls|
      invariant rollCount == CountIn(accessible, rolls[..i])
    {
      var connectionCount := connections.Get(rolls[i]);
      AccessibleByCount(connections.counts, Elements(rolls), rolls[i]);
      assert rolls[..i + 1][..i] == rolls[..i];
      assert CountIn(accessible, rolls[..i + 1]) == CountIn(accessible, rolls[..i]) + (if rolls[i] in accessible then 1 else 0);
      if connectionCount < 4 {
        rollCount := rollCount + 1;
      }
    }
    assert rolls[..|rolls|] == rolls;
    CountAllAccessible(rolls);
  }

  /** Over a list of distinct rolls, counting the accessible entries counts the accessible rolls. */
  lemma CountAllAccessible(rolls: seq<Cell>)
    requires forall i, j :: 0 <= i < j < |rolls| ==> rolls[i] != rolls[j]
    ensures CountIn(Accessible(Elements(rolls)), rolls) == |Accessible(Elements(rolls))|
  {
    var accessible := Accessible(Elements(rolls));
    CountInDistinct(accessible, rolls);
    IntersectSubset(accessible, Elements(rolls));
  }

  /** Intersecting a set with a superset leaves it unchanged. */
  lemma IntersectSubset(small: set<Cell>, large: set<Cell>)
    requires small <= large
    ensures small * large == small
  {
  }

  /** How many entries of cells belong to wanted. */
  function CountIn(wanted: set<Cell>, cells: seq<Cell>): (n: nat)
    ensures n <= |cells|
  {
    if |cells| == 0 then 0
    else CountIn(wanted, cells[..|cells| - 1]) + (if cells[|cells| - 1] in wanted then 1 else 0)
  }

  /** Over distinct cells, the count is the size of the intersection. */
  lemma {:induction false} CountInDistinct(wanted: set<Cell>, cells: seq<Cell>)
    requires forall i, j :: 0 <= i < j < |cells| ==> cells[i] != cells[j]
    ensures CountIn(wanted, cells) == |wanted * Elements(cells)|
  {
    if |cells| > 0 {
      var init := cells[..|cells| - 1];
      var last := cells[|cells| - 1];
      CountInDistinct(wanted, init);
      assert last !in init;
      assert Elements(cells) == Elements(init) + {last};
      CountStep(wanted, Elements(init), last);
    } else {
      assert wanted * Elements(cells) == {};
    }
  }

  /** With matching counts, a roll is accessible exactly when its count is below four. */
  lemma AccessibleByCount(counts: map<Cell, nat>, rolls: set<Cell>, roll: Cell)
    requires CountsMatch(counts, rolls) && roll in rolls
    ensures Count(counts, roll) < 4 <==> roll in Accessible(rolls)
  {
    assert Count(counts, roll) == RollsAround(rolls, roll);
  }

  /** Counting one more element of seen: one more in acc exactly when it belongs to acc. */
  lemma CountStep(acc: set<Cell>, seen: set<Cell>, x: Cell)
    requires x !in seen
    ensures |acc * (seen + {x})| == |acc * seen| + (if x in acc then 1 else 0)
  {
    if x in acc {
      assert acc * (seen + {x}) == acc * seen + {x};
    } else {
      assert acc * (seen + {x}) == acc * seen;
    }
  }

  // ---------------------------------------------------------------------
  // Part two

  /** The first loop of part two: `add_connections` for every roll of the set, in any order. */
  method ConnectSet(rolls: set<Cell>) returns (connections: ConnectionMap)
    ensures fresh(connections)
    ensures CountsMatch(connections.counts, rolls)
  {
    connections := new ConnectionMap();
    EmptyMatches();
    var rest := rolls;
    ghost var done: set<Cell> := {};
    while rest != {}
      invariant done + rest == rolls && done * rest == {}
      invariant CountsMatch(connections.counts, done)
      decreases |rest|
    {
      var roll :| roll in rest;
      AddKeepsMatch(connections.counts, done, roll);
      connections.AddConnections(roll);
      done := done + {roll};
      rest := rest - {roll};
    }
  }

  /** The snapshot of a round: every roll with a count below four, before anything is removed. */
  method SelectAccessible(connections: ConnectionMap, rolls: set<Cell>) returns (removedRolls: set<Cell>)
    requires CountsMatch(connections.counts, rolls)
    ensures removedRolls == Accessible(rolls)
  {
    removedRolls := {};
    var rest := rolls;
    while rest != {}
      invariant rest <= rolls
      invariant removedRolls == Accessible(rolls) - rest
      decreases |rest|
    {
      var roll :| roll in rest;
      var connectionCount := connections.Get(roll);
      AccessibleByCount(connections.counts, rolls, roll);
      SelectStep(Accessible(rolls), rest, removedRolls, roll);
      if connectionCount < 4 {
        removedRolls := removedRolls + {roll};
      }
      rest := rest - {roll};
    }
  }

  /** Visiting one more element of rest: it joins the selection exactly when it belongs to wanted. */
  lemma SelectStep(wanted: set<Cell>, rest: set<Cell>, selected: set<Cell>, x: Cell)
    requires x in rest && selected == wanted - rest
    ensures x in wanted ==> selected + {x} == wanted - (rest - {x})
    ensures x !in wanted ==> selected == wanted - (rest - {x})
  {
  }

  /** The second half of a round: every selected roll leaves the set and its connections are removed. */
  method RemoveBatch(connections: ConnectionMap, rolls: set<Cell>, removedRolls: set<Cell>)
    returns (remaining: set<Cell>)
    requires CountsMatch(connections.counts, rolls) && removedRolls <= rolls
    modifies connections
    ensures remaining == rolls - removedRolls
    ensures CountsMatch(connections.counts, remaining)
  {
    remaining := rolls;
    var rest := removedRolls;
    while rest != {}
      invariant rest <= removedRolls
      invariant remaining == rolls - (removedRolls - rest)
      invariant CountsMatch(connections.counts, remaining)
      decreases |rest|
    {
      var roll :| roll in rest;
      RemoveKeepsMatch(connections.counts, remaining, roll);
      remaining := remaining - {roll};
      connections.RemoveConnections(roll);
      rest := rest - {roll};
    }
  }

  /** `part2`: rounds of removing all accessible rolls at once, until a round finds none. */
  method Part2(input: string) returns (totalRollCount: nat)
    ensures totalRollCount == |Rolls(Text.Lines(input))| - |Survivors(Rolls(Text.Lines(input)))|
  {
    var lines := Text.Lines(input);
    var rolls := ParseRollSet(lines);
    ghost var initial := rolls;
    var connections := ConnectSet(rolls);
    totalRollCount := 0;
    SurvivorsAreStable(initial);
    ghost var rounds := 0;
    while true
      invariant CountsMatch(connections.counts, rolls)
      invariant Survivors(rolls) == Survivors(initial)
      invariant rounds + Rounds(rolls) == Rounds(initial)
      invariant totalRollCount + |rolls| == |initial|
      decreases |rolls|
    {
      var removedRolls := SelectAccessible(connections, rolls);
      if removedRolls == {} {
        break;
      }
      SmallerAfterRemoval(rolls, removedRolls);
      rolls := RemoveBatch(connections, rolls, removedRolls);
      totalRollCount := totalRollCount + |removedRolls|;
      rounds := rounds + 1;
    }
    // The loop made at most one round per initial roll before the round that found none.
    RoundsBound(initial);
    assert rounds <= |initial|;
  }
}
