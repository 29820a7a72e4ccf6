/** The turn engine: the GameState record, checkGameOver, the state resets
    of main, onPlaceShips and startGame, the two attack functions and the
    engine part of playGame. */
module Game {
  import opened Board
  import opened Placement
  import opened Targeting

  const GameContinue := 0
  const GameOver := 1
  const ParentTurn := 0
  const ChildTurn := 1

  datatype Side = Parent | Child

  datatype Option<T> = None | Some(value: T)

  /** One line of the moves history. */
  datatype Move = Move(side: Side, x: int, y: int, hit: bool)

  /** initializeGrid: every cell becomes empty. */
  method InitializeGrid(grid: array2<int>)
    requires IsGrid(grid)
    modifies grid
    ensures forall y, x :: 0 <= y < GridSize && 0 <= x < GridSize ==> grid[y, x] == Empty
  {
    forall y, x | 0 <= y < GridSize && 0 <= x < GridSize {
      grid[y, x] := Empty;
    }
  }

  /** checkGameOver: the row-by-row scan with an early exit at the first
      ship cell decides exactly that no ship cell is left. */
  method CheckGameOver(grid: array2<int>) returns (over: bool)
    requires IsGrid(grid)
    ensures over <==> NoShipsLeft(grid)
  {
    var y := 0;
    while y < GridSize
      invariant 0 <= y <= GridSize
      invariant forall y', x :: 0 <= y' < y && 0 <= x < GridSize ==> grid[y', x] != ShipCell
    {
      var x := 0;
      while x < GridSize
        invariant 0 <= x <= GridSize
        invariant forall y', x' :: 0 <= y' < y && 0 <= x' < GridSize ==> grid[y', x'] != ShipCell
        invariant forall x' :: 0 <= x' < x ==> grid[y, x'] != ShipCell
      {
        if grid[y, x] == ShipCell {
          return false;
        }
        x := x + 1;
      }
      y := y + 1;
    }
    return true;
  }

  /** How onPlaceShips draws the two fleets: each on a cleared board, every
      ship at the first draw of its round that fits; the child's draws start
      right after the parent's, and the child is not placed when the
      parent's fleet fails (`base` is the cleared board). It succeeds iff both fleets are complete. */
  ghost predicate FleetsDrawn(base: seq<seq<int>>, draws: seq<Attempt>, ok: bool, parentShips: seq<Attempt>, childShips: seq<Attempt>,
                              parentUsed: nat, childUsed: nat, parentPicks: seq<nat>, childPicks: seq<nat>)
    requires IsBoard(base)
  {
    && |parentShips| <= |Ships| && |childShips| <= |Ships|
    && parentUsed <= |Ships| * MaxAttempts && parentUsed <= |draws|
    && (ok <==> |parentShips| == |Ships| && |childShips| == |Ships|)
    && FirstFits(base, parentShips, parentPicks, draws)
    && parentUsed == RoundStart(parentPicks, |parentShips|) + (if |parentShips| == |Ships| then 0 else MaxAttempts)
    && FirstFits(base, childShips, childPicks, draws[parentUsed..])
    && (|parentShips| < |Ships| ==> childShips == [] && childUsed == 0)
    && (|parentShips| == |Ships| ==>
          childUsed == RoundStart(childPicks, |childShips|) + (if |childShips| == |Ships| then 0 else MaxAttempts))
  }

  /** What the two fleet grids hold after onPlaceShips. On success each grid
      holds exactly its fleet, pairwise apart. On failure either the
      parent's next ship, or (with the parent's fleet complete) the child's
      next ship, fitted at none of the last MaxAttempts draws. */
  ghost predicate FleetsOnGrids(parentGrid: array2<int>, childGrid: array2<int>, draws: seq<Attempt>, ok: bool,
                                parentShips: seq<Attempt>, childShips: seq<Attempt>, parentUsed: nat, childUsed: nat)
    requires IsGrid(parentGrid) && IsGrid(childGrid)
    requires |parentShips| <= |Ships| && |childShips| <= |Ships| && parentUsed <= |draws|
    reads parentGrid, childGrid
  {
    && (!ok ==>
          || (|parentShips| < |Ships| && Exhausted(parentGrid, draws, parentUsed, Ships[|parentShips|].length))
          || (&& |parentShips| == |Ships| && |childShips| < |Ships|
              && Exhausted(childGrid, draws[parentUsed..], childUsed, Ships[|childShips|].length)))
    && (ok ==> FleetApart(parentShips) && FleetApart(childShips))
    && (ok ==> forall y, x :: 0 <= y < GridSize && 0 <= x < GridSize ==>
          && parentGrid[y, x] == (if OnAnyShip(parentShips, x, y) then ShipCell else Empty)
          && childGrid[y, x] == (if OnAnyShip(childShips, x, y) then ShipCell else Empty))
  }

  /** The fleet part of onPlaceShips: clear both grids, then placeAllShips
      for the parent and, from the draws that follow, for the child. */
  method PlaceFleets(parentGrid: array2<int>, childGrid: array2<int>, draws: seq<Attempt>)
    returns (ok: bool, ghost parentShips: seq<Attempt>, ghost childShips: seq<Attempt>,
             ghost parentUsed: nat, ghost childUsed: nat,
             ghost parentPicks: seq<nat>, ghost childPicks: seq<nat>)
    requires IsGrid(parentGrid) && IsGrid(childGrid) && parentGrid != childGrid
    requires |draws| >= 2 * |Ships| * MaxAttempts
    modifies parentGrid, childGrid
    ensures FleetsDrawn(Blank, draws, ok, parentShips, childShips, parentUsed, childUsed, parentPicks, childPicks)
    ensures FleetsOnGrids(parentGrid, childGrid, draws, ok, parentShips, childShips, parentUsed, childUsed)
  {
    InitializeGrid(parentGrid);
    InitializeGrid(childGrid);
    ClearedIsBlank(parentGrid);
    var used, used';
    ok, used, parentShips, parentPicks := PlaceAllShips(parentGrid, draws);
    parentUsed, childShips, childUsed, childPicks := used, [], 0, [];
    if !ok {
      return;
    }
    ClearedIsBlank(childGrid);
    ok, used', childShips, childPicks := PlaceAllShips(childGrid, draws[used..]);
    childUsed := used';
  }

  class GameState {
    var parentGrid: array2<int>
    var childGrid: array2<int>
    var parentAttackedCells: array2<int>
    var childAttackedCells: array2<int>
    /** gameStatus[0]: GameContinue or GameOver. */
    var status: int
    /** gameStatus[1]: ParentTurn or ChildTurn. */
    var turn: int
    /** The hunt memory of parentAttack (its static lastHitX, lastHitY). */
    var parentLastHit: Coord
    /** The hunt memory of childAttack. */
    var childLastHit: Coord
    /** The moves history, one entry per logged move. */
    var moves: seq<Move>

    /** Four distinct 8x8 grids. */
    ghost predicate Valid()
      reads this
    {
      && IsGrid(parentGrid) && IsGrid(childGrid)
      && IsGrid(parentAttackedCells) && IsGrid(childAttackedCells)
      && parentGrid != childGrid && parentGrid != parentAttackedCells && parentGrid != childAttackedCells
      && childGrid != parentAttackedCells && childGrid != childAttackedCells
      && parentAttackedCells != childAttackedCells
    }

    /** Each side's tracker agrees with the other side's grid. */
    ghost predicate Consistent()
      reads this, parentGrid, childGrid, parentAttackedCells, childAttackedCells
    {
      && Valid()
      && Tracks(parentAttackedCells, childGrid)
      && Tracks(childAttackedCells, parentGrid)
    }

    /** The set-up of main: four empty grids, parent to move, no hunt. */
    constructor ()
      ensures Valid() && Consistent()
      ensures fresh(parentGrid) && fresh(childGrid) && fresh(parentAttackedCells) && fresh(childAttackedCells)
      ensures forall y, x :: 0 <= y < GridSize && 0 <= x < GridSize ==>
        parentGrid[y, x] == Empty && childGrid[y, x] == Empty &&
        parentAttackedCells[y, x] == 0 && childAttackedCells[y, x] == 0
      ensures status == GameContinue && turn == ParentTurn
      ensures parentLastHit == NoHunt && childLastHit == NoHunt
      ensures moves == []
    {
      parentGrid := new int[GridSize, GridSize];
      childGrid := new int[GridSize, GridSize];
      parentAttackedCells := new int[GridSize, GridSize];
      childAttackedCells := new int[GridSize, GridSize];
      parentLastHit, childLastHit := NoHunt, NoHunt;
      moves := [];
      status, turn := GameContinue, ParentTurn;
      new;
      InitializeGrid(parentGrid);
      InitializeGrid(childGrid);
      InitializeGrid(parentAttackedCells);
      InitializeGrid(childAttackedCells);
    }

    /** onPlaceShips: clear the four grids, lay the parent's fleet and then
        the child's from the draws, parent to move, empty moves history.
        The hunt memories are left as they are, as the C statics are. A
        false `ok` is the fatal exit of placeShip. */
    method PlaceShips(draws: seq<Attempt>)
      returns (ok: bool, ghost parentShips: seq<Attempt>, ghost childShips: seq<Attempt>,
               ghost parentUsed: nat, ghost childUsed: nat,
               ghost parentPicks: seq<nat>, ghost childPicks: seq<nat>)
      requires Valid() && |draws| >= 2 * |Ships| * MaxAttempts
      modifies this, parentGrid, childGrid, parentAttackedCells, childAttackedCells
      ensures Valid() && parentLastHit == old(parentLastHit) && childLastHit == old(childLastHit)
      ensures parentGrid == old(parentGrid) && childGrid == old(childGrid)
      ensures parentAttackedCells == old(parentAttackedCells) && childAttackedCells == old(childAttackedCells)
      ensures FleetsDrawn(Blank, draws, ok, parentShips, childShips, parentUsed, childUsed, parentPicks, childPicks)
      ensures FleetsOnGrids(parentGrid, childGrid, draws, ok, parentShips, childShips, parentUsed, childUsed)
      ensures ok ==> Consistent() && status == GameContinue && turn == ParentTurn && moves == []
      ensures ok ==> forall y, x :: 0 <= y < GridSize && 0 <= x < GridSize ==>
        parentAttackedCells[y, x] == 0 && childAttackedCells[y, x] == 0
    {
      InitializeGrid(parentAttackedCells);
      InitializeGrid(childAttackedCells);
      ok, parentShips, childShips, parentUsed, childUsed, parentPicks, childPicks :=
        PlaceFleets(parentGrid, childGrid, draws);
      if !ok {
        return;
      }
      FreshTracks(parentAttackedCells, childGrid);
      FreshTracks(childAttackedCells, parentGrid);
      status, turn := GameContinue, ParentTurn;
      moves := [];
    }

    /** The state part of startGame: a finished game restarts with the
        parent to move; a game in progress keeps its status and turn. */
    method StartGame()
      requires Valid()
      modifies this
      ensures Valid() && status == GameContinue
      ensures turn == if old(status) == GameContinue then old(turn) else ParentTurn
      ensures parentGrid == old(parentGrid) && childGrid == old(childGrid)
      ensures parentAttackedCells == old(parentAttackedCells) && childAttackedCells == old(childAttackedCells)
      ensures parentLastHit == old(parentLastHit) && childLastHit == old(childLastHit)
      ensures moves == old(moves)
    {
      if status != GameContinue {
        status, turn := GameContinue, ParentTurn;
      }
    }

    /** parentAttack: the parent attacks the child's grid. */
    method ParentAttack(pick: Coord) returns (target: Coord, hit: bool)
      requires Valid() && IsOpen(parentAttackedCells, pick)
      modifies this`parentLastHit, parentAttackedCells, childGrid
      ensures Valid()
      ensures target == old(ChosenTarget(parentAttackedCells, parentLastHit, pick))
      ensures old(IsOpen(parentAttackedCells, target))
      ensures CellWritten(parentAttackedCells, target, 1)
      ensures hit <==> old(childGrid[target.y, target.x]) == ShipCell
      ensures CellWritten(childGrid, target, if hit then HitCell else MissCell)
      ensures parentLastHit == if hit then target else old(HuntAfterChoice(parentAttackedCells, parentLastHit))
      ensures old(Tracks(parentAttackedCells, childGrid)) ==> Tracks(parentAttackedCells, childGrid)
    {
      target, hit, parentLastHit := Attack(parentAttackedCells, childGrid, parentLastHit, pick);
    }

    /** childAttack: the mirror image, against the parent's grid. */
    method ChildAttack(pick: Coord) returns (target: Coord, hit: bool)
      requires Valid() && IsOpen(childAttackedCells, pick)
      modifies this`childLastHit, childAttackedCells, parentGrid
      ensures Valid()
      ensures target == old(ChosenTarget(childAttackedCells, childLastHit, pick))
      ensures old(IsOpen(childAttackedCells, target))
      ensures CellWritten(childAttackedCells, target, 1)
      ensures hit <==> old(parentGrid[target.y, target.x]) == ShipCell
      ensures CellWritten(parentGrid, target, if hit then HitCell else MissCell)
      ensures childLastHit == if hit then target else old(HuntAfterChoice(childAttackedCells, childLastHit))
      ensures old(Tracks(childAttackedCells, parentGrid)) ==> Tracks(childAttackedCells, parentGrid)
    {
      target, hit, childLastHit := Attack(childAttackedCells, parentGrid, childLastHit, pick);
    }

    /** The side to move, if a move is due: none once the game is over, and
        none for a turn value that is neither side's. */
    function Mover(): (s: Option<Side>)
      reads this
    {
      if status == GameOver then None
      else if turn == ParentTurn then Some(Parent)
      else if turn == ChildTurn then Some(Child)
      else None
    }

    /** playGame, one timer tick. Returns false to stop the timer. */
    method PlayGame(pick: Coord) returns (more: bool)
      requires Valid()
      requires Mover() == Some(Parent) ==> IsOpen(parentAttackedCells, pick)
      requires Mover() == Some(Child) ==> IsOpen(childAttackedCells, pick)
      modifies this, parentGrid, childGrid, parentAttackedCells, childAttackedCells
      ensures Valid()
      ensures parentGrid == old(parentGrid) && childGrid == old(childGrid)
      ensures parentAttackedCells == old(parentAttackedCells) && childAttackedCells == old(childAttackedCells)
      ensures old(Consistent()) ==> Consistent()
      // A finished game, or a turn value that names neither side: nothing happens.
      ensures old(Mover()).None? ==>
        && more == (old(status) != GameOver)
        && unchanged(this, parentGrid, childGrid, parentAttackedCells, childAttackedCells)
      // The parent's move.
      ensures old(Mover()) == Some(Parent) ==>
        var t := old(ChosenTarget(parentAttackedCells, parentLastHit, pick));
        var hit := old(childGrid[t.y, t.x]) == ShipCell;
        && old(IsOpen(parentAttackedCells, t))
        && CellWritten(parentAttackedCells, t, 1)
        && CellWritten(childGrid, t, if hit then HitCell else MissCell)
        && unchanged(parentGrid, childAttackedCells)
        && parentLastHit == (if hit then t else old(HuntAfterChoice(parentAttackedCells, parentLastHit)))
        && childLastHit == old(childLastHit)
        && (more <==> !(hit && NoShipsLeft(childGrid)))
        && (more ==> status == old(status) && turn == ChildTurn && moves == old(moves) + [Move(Parent, t.x, t.y, hit)])
        && (!more ==> status == GameOver && turn == old(turn) && moves == old(moves))
      // The child's move, the mirror image.
      ensures old(Mover()) == Some(Child) ==>
        var t := old(ChosenTarget(childAttackedCells, childLastHit, pick));
        var hit := old(parentGrid[t.y, t.x]) == ShipCell;
        && old(IsOpen(childAttackedCells, t))
        && CellWritten(childAttackedCells, t, 1)
        && CellWritten(parentGrid, t, if hit then HitCell else MissCell)
        && unchanged(childGrid, parentAttackedCells)
        && childLastHit == (if hit then t else old(HuntAfterChoice(childAttackedCells, childLastHit)))
        && parentLastHit == old(parentLastHit)
        && (more <==> !(hit && NoShipsLeft(parentGrid)))
        && (more ==> status == old(status) && turn == ParentTurn && moves == old(moves) + [Move(Child, t.x, t.y, hit)])
        && (!more ==> status == GameOver && turn == old(turn) && moves == old(moves))
    {
      if status == GameOver {
        return false;
      }
      if turn == ParentTurn {
        var t, hit := ParentAttack(pick);
        if hit {
          var over := CheckGameOver(childGrid);
          if over {
            status := GameOver;
            return false;
          }
        }
        moves := moves + [Move(Parent, t.x, t.y, hit)];
        turn := ChildTurn;
      } else if turn == ChildTurn {
        var t, hit := ChildAttack(pick);
        if hit {
          var over := CheckGameOver(parentGrid);
          if over {
            status := GameOver;
            return false;
          }
        }
        moves := moves + [Move(Child, t.x, t.y, hit)];
        turn := ParentTurn;
      }
      return true;
    }
  }
}
