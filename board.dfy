/** The 8x8 grids of the game and the cell vocabulary they share.

    Every grid is indexed as grid[y, x] (row y, column x), as in the C
    program. A side's own grid holds Empty, ShipCell, HitCell or MissCell;
    a side's tracker ("attacked cells") holds 0 (not yet targeted) or 1. */
module Board {

  const GridSize := 8

  const Empty := 0
  const ShipCell := 1
  const HitCell := 2
  const MissCell := -1

  /** A grid coordinate (column x, row y); it may lie off the board. */
  datatype Coord = Coord(x: int, y: int)

  predicate InBounds(x: int, y: int) {
    0 <= x < GridSize && 0 <= y < GridSize
  }

  /** The fixed shape of every grid of the game state. */
  predicate IsGrid(g: array2<int>) {
    g.Length0 == GridSize && g.Length1 == GridSize
  }

  /** An 8x8 board as a value: rows indexed by y, columns by x. */
  predicate IsBoard(b: seq<seq<int>>) {
    |b| == GridSize && forall y :: 0 <= y < GridSize ==> |b[y]| == GridSize
  }

  /** The board of a grid freshly cleared by initializeGrid. */
  const Blank: seq<seq<int>> := seq(GridSize, _ => seq(GridSize, _ => Empty))

  /** The cells of grid g as a value, row by row. */
  ghost function Contents(g: array2<int>): (b: seq<seq<int>>)
    requires IsGrid(g)
    reads g
    ensures IsBoard(b)
    ensures forall y, x :: 0 <= y < GridSize && 0 <= x < GridSize ==> b[y][x] == g[y, x]
  {
    seq(GridSize, y requires 0 <= y < GridSize reads g =>
      seq(GridSize, x requires 0 <= x < GridSize reads g => g[y, x]))
  }

  /** A grid whose every cell is Empty has the blank board as contents. */
  lemma ClearedIsBlank(g: array2<int>)
    requires IsGrid(g)
    requires forall y, x :: 0 <= y < GridSize && 0 <= x < GridSize ==> g[y, x] == Empty
    ensures Contents(g) == Blank
  {
    var b := Contents(g);
    forall y | 0 <= y < GridSize
      ensures b[y] == Blank[y]
    {
      assert forall x :: 0 <= x < GridSize ==> b[y][x] == Blank[y][x];
    }
  }

  /** isValidAttack: the coordinate is on the board and not yet targeted. */
  predicate IsValidAttack(attacked: array2<int>, x: int, y: int)
    requires IsGrid(attacked)
    reads attacked
  {
    InBounds(x, y) && attacked[y, x] == 0
  }

  /** The win condition checked by checkGameOver: no ship cell is left. */
  ghost predicate NoShipsLeft(g: array2<int>)
    requires IsGrid(g)
    reads g
  {
    forall y, x :: 0 <= y < GridSize && 0 <= x < GridSize ==> g[y, x] != ShipCell
  }

  /** A cell of a side's own grid holds one of the four codes. */
  predicate IsCellCode(v: int) {
    v == Empty || v == ShipCell || v == HitCell || v == MissCell
  }

  /** The tracker of an attacker agrees with the defender's grid: every
      defender cell holds a cell code, a tracker cell is 0 or 1, and it is
      marked (1) exactly when the defender's cell shows a hit or a miss. */
  ghost predicate Tracks(attacked: array2<int>, defender: array2<int>)
    requires IsGrid(attacked) && IsGrid(defender)
    reads attacked, defender
  {
    forall y, x :: 0 <= y < GridSize && 0 <= x < GridSize ==>
      && IsCellCode(defender[y, x])
      && (attacked[y, x] == 0 || attacked[y, x] == 1)
      && (attacked[y, x] == 1 <==> defender[y, x] == HitCell || defender[y, x] == MissCell)
  }

  /** An untouched tracker agrees with a grid holding only empty and ship
      cells. */
  lemma FreshTracks(attacked: array2<int>, defender: array2<int>)
    requires IsGrid(attacked) && IsGrid(defender)
    requires forall y, x :: 0 <= y < GridSize && 0 <= x < GridSize ==>
      attacked[y, x] == 0 && (defender[y, x] == Empty || defender[y, x] == ShipCell)
    ensures Tracks(attacked, defender)
  {
  }

  /** Between the two states, cell t of g was set to v and no other cell changed. */
  twostate predicate CellWritten(g: array2<int>, t: Coord, v: int)
    requires IsGrid(g)
    reads g
  {
    && InBounds(t.x, t.y)
    && g[t.y, t.x] == v
    && forall y, x :: 0 <= y < GridSize && 0 <= x < GridSize && (x != t.x || y != t.y) ==>
         g[y, x] == old(g[y, x])
  }

  /** An open cell under a consistent tracker has never been hit or missed:
      it is still empty or holds an untouched ship cell, so an attack on it
      never revisits a cell and a miss overwrites only an empty cell. */
  lemma OpenCellIsFresh(attacked: array2<int>, defender: array2<int>, x: int, y: int)
    requires IsGrid(attacked) && IsGrid(defender)
    requires Tracks(attacked, defender) && IsValidAttack(attacked, x, y)
    ensures defender[y, x] == Empty || defender[y, x] == ShipCell
  {
  }

  /** isValidAttack, read against the defender's grid: under a consistent
      tracker a cell on the board is open exactly when the defender's cell
      shows neither a hit nor a miss. */
  lemma ValidAttackIffUnresolved(attacked: array2<int>, defender: array2<int>, x: int, y: int)
    requires IsGrid(attacked) && IsGrid(defender)
    requires Tracks(attacked, defender) && InBounds(x, y)
    ensures IsValidAttack(attacked, x, y) <==> defender[y, x] != HitCell && defender[y, x] != MissCell
  {
  }

  /** A ship cell left under a consistent tracker is still open to attack. */
  lemma ShipCellIsOpen(attacked: array2<int>, defender: array2<int>, x: int, y: int)
    requires IsGrid(attacked) && IsGrid(defender)
    requires Tracks(attacked, defender) && InBounds(x, y) && defender[y, x] == ShipCell
    ensures IsValidAttack(attacked, x, y)
  {
  }
}
