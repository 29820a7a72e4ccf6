/** Fleet placement: isValidPlacement, placeShip and placeAllShips.

    The C program draws each attempt with rand(); here the attempts are a
    caller-supplied sequence of draws, consumed in order, one per attempt. */
module Placement {
  import opened Board

  datatype Ship = Ship(length: int, name: string)

  /** The fleet, in the order it is placed. */
  const Ships: seq<Ship> := [
    Ship(4, "Battleship"),
    Ship(3, "Cruiser"),
    Ship(3, "Cruiser"),
    Ship(2, "Destroyer"),
    Ship(2, "Destroyer")
  ]

  const MaxAttempts := 1000

  /** One random draw of placeShip: a start cell and an orientation. */
  datatype Attempt = Attempt(x: int, y: int, horizontal: bool)

  /** The i-th cell of a ship laid from attempt a. */
  function Cell(a: Attempt, i: int): Coord {
    if a.horizontal then Coord(a.x + i, a.y) else Coord(a.x, a.y + i)
  }

  /** Cell (x, y) is one of the first `length` cells laid from attempt a. */
  predicate OnShip(a: Attempt, length: int, x: int, y: int) {
    if a.horizontal then y == a.y && a.x <= x < a.x + length
    else x == a.x && a.y <= y < a.y + length
  }

  /** c and d are equal or 8-neighbours. */
  predicate Touching(c: Coord, d: Coord) {
    -1 <= c.x - d.x <= 1 && -1 <= c.y - d.y <= 1
  }

  /** No in-bounds 8-neighbour of c (other than c itself) is occupied. */
  ghost predicate ClearAround(grid: array2<int>, c: Coord)
    requires IsGrid(grid)
    reads grid
  {
    forall nx, ny :: InBounds(nx, ny) && Touching(c, Coord(nx, ny)) && (nx != c.x || ny != c.y) ==>
      grid[ny, nx] == Empty
  }

  /** A ship cell may go at c: on the board, empty, and nothing around it. */
  ghost predicate CellFits(grid: array2<int>, c: Coord)
    requires IsGrid(grid)
    reads grid
  {
    InBounds(c.x, c.y) && grid[c.y, c.x] == Empty && ClearAround(grid, c)
  }

  /** The specification of isValidPlacement. */
  ghost predicate Fits(grid: array2<int>, a: Attempt, length: int)
    requires IsGrid(grid)
    reads grid
  {
    forall i :: 0 <= i < length ==> CellFits(grid, Cell(a, i))
  }

  predicate ShipInBounds(a: Attempt, length: int) {
    forall i :: 0 <= i < length ==> InBounds(Cell(a, i).x, Cell(a, i).y)
  }

  /** No cell of one ship touches a cell of the other, not even diagonally. */
  ghost predicate Apart(a: Attempt, la: int, b: Attempt, lb: int) {
    forall i, j :: 0 <= i < la && 0 <= j < lb ==> !Touching(Cell(a, i), Cell(b, j))
  }

  /** Cell (x, y) belongs to one of the ships laid from `ships`, the m-th of
      which has the length of the m-th ship of the fleet. */
  ghost predicate OnAnyShip(ships: seq<Attempt>, x: int, y: int)
    requires |ships| <= |Ships|
  {
    exists m :: 0 <= m < |ships| && OnShip(ships[m], Ships[m].length, x, y)
  }

  /** The ships laid so far are on the board and pairwise apart. */
  ghost predicate FleetApart(ships: seq<Attempt>)
    requires |ships| <= |Ships|
  {
    && (forall m :: 0 <= m < |ships| ==> ShipInBounds(ships[m], Ships[m].length))
    && (forall m, n :: 0 <= m < n < |ships| ==>
          Apart(ships[m], Ships[m].length, ships[n], Ships[n].length))
  }

  /** isValidPlacement: the nested loops of the C function, with its early
      returns, decide exactly Fits. */
  method IsValidPlacement(grid: array2<int>, x: int, y: int, length: int, horizontal: bool)
    returns (ok: bool)
    requires IsGrid(grid)
    ensures ok == Fits(grid, Attempt(x, y, horizontal), length)
  {
    var a := Attempt(x, y, horizontal);
    var i := 0;
    while i < length
      invariant 0 <= i && (i <= length || i == 0)
      invariant forall j :: 0 <= j < i ==> CellFits(grid, Cell(a, j))
    {
      var c := Cell(a, i);
      if !InBounds(c.x, c.y) {
        return false;
      }
      if grid[c.y, c.x] != Empty {
        return false;
      }
      var dx := -1;
      while dx <= 1
        invariant -1 <= dx <= 2
        invariant forall nx, ny ::
          (InBounds(nx, ny) && c.x - 1 <= nx < c.x + dx && Touching(c, Coord(nx, ny)) && (nx != c.x || ny != c.y))
          ==> grid[ny, nx] == Empty
      {
        var checkX := c.x + dx;
        var dy := -1;
        while dy <= 1
          invariant -1 <= dy <= 2
          invariant forall nx, ny ::
            (InBounds(nx, ny) && c.x - 1 <= nx < c.x + dx && Touching(c, Coord(nx, ny)) && (nx != c.x || ny != c.y))
            ==> grid[ny, nx] == Empty
          invariant forall ny ::
            (InBounds(checkX, ny) && c.y - 1 <= ny < c.y + dy && (dx != 0 || ny != c.y))
            ==> grid[ny, checkX] == Empty
        {
          var checkY := c.y + dy;
          if InBounds(checkX, checkY) {
            if grid[checkY, checkX] != Empty && !(checkX == c.x && checkY == c.y) {
              assert !ClearAround(grid, c);
              assert !CellFits(grid, Cell(a, i));
              return false;
            }
          }
          dy := dy + 1;
        }
        dx := dx + 1;
      }
      assert CellFits(grid, c);
      i := i + 1;
    }
    return true;
  }

  /** The loop at placeShip's success: write a ship cell along the segment. */
  method LayShip(grid: array2<int>, a: Attempt, length: int)
    requires IsGrid(grid) && ShipInBounds(a, length)
    modifies grid
    ensures forall y, x :: 0 <= y < GridSize && 0 <= x < GridSize ==>
      grid[y, x] == if OnShip(a, length, x, y) then ShipCell else old(grid[y, x])
  {
    var i := 0;
    while i < length
      invariant 0 <= i && (i <= length || i == 0)
      invariant forall y, x :: 0 <= y < GridSize && 0 <= x < GridSize ==>
        grid[y, x] == if OnShip(a, i, x, y) then ShipCell else old(grid[y, x])
    {
      var c := Cell(a, i);
      grid[c.y, c.x] := ShipCell;
      i := i + 1;
    }
  }

  /** placeShip: try the draws in order, at most MaxAttempts of them, and lay
      the ship at the first one that fits. `used` is the number of draws
      consumed; a false `placed` is the C program's fatal exit. */
  method PlaceShip(grid: array2<int>, length: int, draws: seq<Attempt>) returns (placed: bool, used: nat)
    requires IsGrid(grid) && |draws| >= MaxAttempts
    modifies grid
    ensures 1 <= used <= MaxAttempts
    ensures forall j :: 0 <= j < used - 1 ==> !old(Fits(grid, draws[j], length))
    ensures placed <==> old(Fits(grid, draws[used - 1], length))
    ensures !placed ==> used == MaxAttempts && unchanged(grid)
    ensures placed ==> ShipInBounds(draws[used - 1], length)
    ensures placed ==> old(KeepsClear(grid, draws[used - 1], length))
    ensures forall y, x :: 0 <= y < GridSize && 0 <= x < GridSize ==>
      grid[y, x] == if placed && OnShip(draws[used - 1], length, x, y) then ShipCell else old(grid[y, x])
  {
    placed, used := false, 0;
    while !placed && used < MaxAttempts
      invariant used <= MaxAttempts
      invariant forall j :: 0 <= j < used - (if placed then 1 else 0) ==> !old(Fits(grid, draws[j], length))
      invariant !placed ==> unchanged(grid)
      invariant placed ==> 1 <= used && old(Fits(grid, draws[used - 1], length))
      invariant placed ==> ShipInBounds(draws[used - 1], length)
      invariant placed ==> old(KeepsClear(grid, draws[used - 1], length))
      invariant placed ==> forall y, x :: 0 <= y < GridSize && 0 <= x < GridSize ==>
        grid[y, x] == if OnShip(draws[used - 1], length, x, y) then ShipCell else old(grid[y, x])
    {
      var a := draws[used];
      var ok := IsValidPlacement(grid, a.x, a.y, length, a.horizontal);
      if ok {
        FitsIffClear(grid, a, length);
        LayShip(grid, a, length);
        placed := true;
      }
      used := used + 1;
    }
  }

  /** Every cell of the ship laid from a keeps its distance from every
      occupied cell of the grid (equal cells touch, so the ship's own cells
      are empty too). */
  ghost predicate KeepsClear(grid: array2<int>, a: Attempt, length: int)
    requires IsGrid(grid)
    reads grid
  {
    forall i, x, y :: 0 <= i < length && InBounds(x, y) && grid[y, x] != Empty ==>
      !Touching(Cell(a, i), Coord(x, y))
  }

  /** isValidPlacement accepts exactly the segments that lie on the board and
      touch no occupied cell, not even diagonally. */
  lemma FitsIffClear(grid: array2<int>, a: Attempt, length: int)
    requires IsGrid(grid)
    ensures Fits(grid, a, length) <==> ShipInBounds(a, length) && KeepsClear(grid, a, length)
  {
    if Fits(grid, a, length) {
      forall i, x, y | 0 <= i < length && InBounds(x, y) && grid[y, x] != Empty
        ensures !Touching(Cell(a, i), Coord(x, y))
      {
        assert CellFits(grid, Cell(a, i));
      }
    }
    if ShipInBounds(a, length) && KeepsClear(grid, a, length) {
      forall i | 0 <= i < length ensures CellFits(grid, Cell(a, i)) {
        var c := Cell(a, i);
        assert InBounds(c.x, c.y);
        assert Touching(c, Coord(c.x, c.y));
      }
    }
  }

  lemma OnAnyShipAppend(ships: seq<Attempt>, a: Attempt, x: int, y: int)
    requires |ships| < |Ships|
    ensures OnAnyShip(ships + [a], x, y) <==>
      OnAnyShip(ships, x, y) || OnShip(a, Ships[|ships|].length, x, y)
  {
    var s := ships + [a];
    if OnShip(a, Ships[|ships|].length, x, y) {
      assert OnShip(s[|ships|], Ships[|ships|].length, x, y);
    }
    if OnAnyShip(ships, x, y) {
      var m :| 0 <= m < |ships| && OnShip(ships[m], Ships[m].length, x, y);
      assert s[m] == ships[m];
    }
  }

  /** The last MaxAttempts draws before `used` all failed to fit a ship of
      the given length: the condition under which placeShip gives up. */
  ghost predicate Exhausted(grid: array2<int>, draws: seq<Attempt>, used: int, length: int)
    requires IsGrid(grid)
    reads grid
  {
    && MaxAttempts <= used <= |draws|
    && forall j :: used - MaxAttempts <= j < used ==> !Fits(grid, draws[j], length)
  }

  /** The value of cell (x, y) of board `base` once the ships of `ships`
      are laid on it. */
  ghost function Laid(base: seq<seq<int>>, ships: seq<Attempt>, x: int, y: int): int
    requires IsBoard(base) && |ships| <= |Ships| && InBounds(x, y)
  {
    if OnAnyShip(ships, x, y) then ShipCell else base[y][x]
  }

  /** CellFits, read on board `base` with `ships` laid on it. */
  ghost predicate CellFitsOnLaid(base: seq<seq<int>>, ships: seq<Attempt>, c: Coord)
    requires IsBoard(base) && |ships| <= |Ships|
  {
    && InBounds(c.x, c.y) && Laid(base, ships, c.x, c.y) == Empty
    && forall nx, ny :: InBounds(nx, ny) && Touching(c, Coord(nx, ny)) && (nx != c.x || ny != c.y) ==>
         Laid(base, ships, nx, ny) == Empty
  }

  /** Fits, read on board `base` with `ships` laid on it. */
  ghost predicate FitsOnLaid(base: seq<seq<int>>, ships: seq<Attempt>, a: Attempt, length: int)
    requires IsBoard(base) && |ships| <= |Ships|
  {
    forall i :: 0 <= i < length ==> CellFitsOnLaid(base, ships, Cell(a, i))
  }

  /** A grid that holds `base` with `ships` laid on it accepts exactly the
      segments FitsOnLaid accepts. */
  lemma FitsOnLaidIff(grid: array2<int>, base: seq<seq<int>>, ships: seq<Attempt>, a: Attempt, length: int)
    requires IsGrid(grid) && IsBoard(base) && |ships| <= |Ships|
    requires forall y, x :: 0 <= y < GridSize && 0 <= x < GridSize ==> grid[y, x] == Laid(base, ships, x, y)
    ensures Fits(grid, a, length) <==> FitsOnLaid(base, ships, a, length)
  {
    forall i | 0 <= i < length
      ensures CellFits(grid, Cell(a, i)) <==> CellFitsOnLaid(base, ships, Cell(a, i))
    {
    }
  }

  /** Where round m of placeAllShips starts reading draws: right after the
      draw that laid ship m - 1. */
  function RoundStart(picks: seq<nat>, m: nat): nat
    requires m <= |picks|
  {
    if m == 0 then 0 else picks[m - 1] + 1
  }

  /** Ship m is draw picks[m], the first draw of its round, within
      MaxAttempts draws, that fits board `base` with ships 0 .. m - 1 laid. */
  ghost predicate FirstFits(base: seq<seq<int>>, ships: seq<Attempt>, picks: seq<nat>, draws: seq<Attempt>)
    requires IsBoard(base) && |ships| <= |Ships|
  {
    && |picks| == |ships|
    && forall m :: 0 <= m < |ships| ==>
         && RoundStart(picks, m) <= picks[m] < RoundStart(picks, m) + MaxAttempts
         && picks[m] < |draws| && ships[m] == draws[picks[m]]
         && FitsOnLaid(base, ships[..m], ships[m], Ships[m].length)
         && forall j :: RoundStart(picks, m) <= j < picks[m] ==>
              !FitsOnLaid(base, ships[..m], draws[j], Ships[m].length)
  }

  /** Every ship laid under FirstFits lies on cells that are empty on the
      board it was laid on. */
  lemma FirstFitsOnEmpty(base: seq<seq<int>>, ships: seq<Attempt>, picks: seq<nat>, draws: seq<Attempt>)
    requires IsBoard(base) && |ships| <= |Ships| && FirstFits(base, ships, picks, draws)
    ensures forall m, i :: 0 <= m < |ships| && 0 <= i < Ships[m].length ==>
      InBounds(Cell(ships[m], i).x, Cell(ships[m], i).y) &&
      base[Cell(ships[m], i).y][Cell(ships[m], i).x] == Empty
  {
    forall m, i | 0 <= m < |ships| && 0 <= i < Ships[m].length
      ensures InBounds(Cell(ships[m], i).x, Cell(ships[m], i).y)
      ensures base[Cell(ships[m], i).y][Cell(ships[m], i).x] == Empty
    {
      assert CellFitsOnLaid(base, ships[..m], Cell(ships[m], i));
    }
  }

  /** Ship m never skips a fitting draw: if some draw of its round fits the
      board with the earlier ships laid, ship m is that draw or an earlier
      one. In particular, when the first draw of the round fits, it is
      ship m. */
  lemma FirstFitsTakesFirst(base: seq<seq<int>>, ships: seq<Attempt>, picks: seq<nat>, draws: seq<Attempt>, m: nat, j: nat)
    requires IsBoard(base) && |ships| <= |Ships| && FirstFits(base, ships, picks, draws)
    requires m < |ships| && RoundStart(picks, m) <= j < |draws|
    requires FitsOnLaid(base, ships[..m], draws[j], Ships[m].length)
    ensures picks[m] <= j
    ensures j == RoundStart(picks, m) ==> ships[m] == draws[j]
  {
  }

  /** A round that lays draw p, the first fitting one of the round, extends
      FirstFits by one ship. */
  lemma FirstFitsAppend(base: seq<seq<int>>, ships: seq<Attempt>, picks: seq<nat>, draws: seq<Attempt>, p: nat)
    requires IsBoard(base) && |ships| < |Ships| && FirstFits(base, ships, picks, draws)
    requires RoundStart(picks, |ships|) <= p < RoundStart(picks, |ships|) + MaxAttempts && p < |draws|
    requires FitsOnLaid(base, ships, draws[p], Ships[|ships|].length)
    requires forall j :: RoundStart(picks, |ships|) <= j < p ==>
      !FitsOnLaid(base, ships, draws[j], Ships[|ships|].length)
    ensures FirstFits(base, ships + [draws[p]], picks + [p], draws)
  {
    var ships', picks' := ships + [draws[p]], picks + [p];
    forall m | 0 <= m <= |ships|
      ensures ships'[..m] == if m < |ships| then ships[..m] else ships
      ensures RoundStart(picks', m) == RoundStart(picks, m)
    {
    }
  }

  /** A ship that fitted at none of the MaxAttempts draws from `used` on
      exhausts them. */
  lemma ExhaustedAfter(grid: array2<int>, draws: seq<Attempt>, used: nat, length: int)
    requires IsGrid(grid) && used + MaxAttempts <= |draws|
    requires forall j :: 0 <= j < MaxAttempts ==> !Fits(grid, draws[used..][j], length)
    ensures Exhausted(grid, draws, used + MaxAttempts, length)
  {
    forall j | used <= j < used + MaxAttempts
      ensures !Fits(grid, draws[j], length)
    {
      assert draws[j] == draws[used..][j - used];
    }
  }

  /** One round of placeAllShips: lay the next ship of the fleet, the one
      after `ships` (the k-th), from the draws starting at `used`, on a grid
      that holds board `base` with `ships` laid. The new ship `a` is the
      first of the draws read that fits, and the last draw consumed; it lies
      on empty cells and is apart from every ship already laid. On failure
      the draws are exhausted. */
  method PlaceNext(grid: array2<int>, draws: seq<Attempt>, used: nat, k: nat,
                   ghost base: seq<seq<int>>, ghost ships: seq<Attempt>)
    returns (placed: bool, n: nat, ghost a: Attempt)
    requires IsGrid(grid) && k == |ships| < |Ships| && used + MaxAttempts <= |draws|
    requires FleetApart(ships) && IsBoard(base)
    requires forall y, x :: 0 <= y < GridSize && 0 <= x < GridSize ==> grid[y, x] == Laid(base, ships, x, y)
    modifies grid
    ensures 1 <= n <= MaxAttempts
    ensures forall j :: used <= j < used + n - 1 ==> !old(Fits(grid, draws[j], Ships[k].length))
    ensures forall j :: used <= j < used + n - 1 ==> !FitsOnLaid(base, ships, draws[j], Ships[k].length)
    ensures placed ==> FitsOnLaid(base, ships, a, Ships[k].length)
    ensures !placed ==> n == MaxAttempts && Exhausted(grid, draws, used + n, Ships[|ships|].length)
    ensures placed ==> a == draws[used + n - 1] && FleetApart(ships + [a])
    ensures placed ==> forall y, x :: 0 <= y < GridSize && 0 <= x < GridSize ==>
      grid[y, x] == Laid(base, ships + [a], x, y)
    ensures placed ==> forall i :: 0 <= i < Ships[|ships|].length ==>
      old(grid[Cell(a, i).y, Cell(a, i).x]) == Empty
    ensures forall y, x :: 0 <= y < GridSize && 0 <= x < GridSize ==>
      grid[y, x] == if placed && OnShip(a, Ships[|ships|].length, x, y) then ShipCell else old(grid[y, x])
  {
    var length := Ships[k].length;
    forall j | used <= j < used + MaxAttempts
      ensures Fits(grid, draws[j], length) <==> FitsOnLaid(base, ships, draws[j], length)
    {
      FitsOnLaidIff(grid, base, ships, draws[j], length);
    }
    placed, n := PlaceShip(grid, length, draws[used..]);
    a := draws[used..][n - 1];
    forall j | used <= j < used + n - 1
      ensures !old(Fits(grid, draws[j], length))
    {
      assert draws[j] == draws[used..][j - used];
    }
    if !placed {
      ExhaustedAfter(grid, draws, used, length);
      return;
    }
    forall m, i, j | 0 <= m < |ships| && 0 <= i < Ships[m].length && 0 <= j < length
      ensures !Touching(Cell(ships[m], i), Cell(a, j))
    {
      var d := Cell(ships[m], i);
      assert OnShip(ships[m], Ships[m].length, d.x, d.y);
      assert old(grid[d.y, d.x]) == ShipCell;
    }
    forall i | 0 <= i < length
      ensures old(grid[Cell(a, i).y, Cell(a, i).x]) == Empty
    {
      var c := Cell(a, i);
      assert Touching(c, Coord(c.x, c.y));
    }
    forall y, x | 0 <= y < GridSize && 0 <= x < GridSize
      ensures grid[y, x] == Laid(base, ships + [a], x, y)
    {
      OnAnyShipAppend(ships, a, x, y);
    }
  }

  /** placeAllShips: place the fleet in order, each ship from the draws its
      predecessors left. `ships` are the attempts that were laid, and
      `picks` their positions among the draws. It falls short of the fleet
      exactly when the next ship fitted at none of the last MaxAttempts
      draws. */
  method PlaceAllShips(grid: array2<int>, draws: seq<Attempt>)
    returns (ok: bool, used: nat, ghost ships: seq<Attempt>, ghost picks: seq<nat>)
    requires IsGrid(grid) && |draws| >= |Ships| * MaxAttempts
    modifies grid
    ensures used <= |Ships| * MaxAttempts && |ships| <= |Ships|
    ensures ok <==> |ships| == |Ships|
    ensures FirstFits(old(Contents(grid)), ships, picks, draws)
    ensures used == RoundStart(picks, |ships|) + if ok then 0 else MaxAttempts
    ensures !ok ==> Exhausted(grid, draws, used, Ships[|ships|].length)
    ensures FleetApart(ships)
    ensures forall m, i :: 0 <= m < |ships| && 0 <= i < Ships[m].length ==>
      old(grid[Cell(ships[m], i).y, Cell(ships[m], i).x]) == Empty
    ensures forall y, x :: 0 <= y < GridSize && 0 <= x < GridSize ==>
      grid[y, x] == if OnAnyShip(ships, x, y) then ShipCell else old(grid[y, x])
  {
    ok, used, ships, picks := true, 0, [], [];
    ghost var base := Contents(grid);
    var k := 0;
    while k < |Ships|
      invariant 0 <= k <= |Ships|
      invariant used <= k * MaxAttempts
      invariant |ships| == k
      invariant FirstFits(base, ships, picks, draws)
      invariant used == RoundStart(picks, k)
      invariant FleetApart(ships)
      invariant forall y, x :: 0 <= y < GridSize && 0 <= x < GridSize ==> grid[y, x] == Laid(base, ships, x, y)
    {
      var placed, n, a := PlaceNext(grid, draws, used, k, base, ships);
      if !placed {
        ok, used := false, used + n;
        break;
      }
      FirstFitsAppend(base, ships, picks, draws, used + n - 1);
      ships, picks := ships + [a], picks + [used + n - 1];
      used := used + n;
      k := k + 1;
    }
    FirstFitsOnEmpty(base, ships, picks, draws);
    forall y, x | 0 <= y < GridSize && 0 <= x < GridSize
      ensures grid[y, x] == if OnAnyShip(ships, x, y) then ShipCell else old(grid[y, x])
    {
      assert base[y][x] == old(grid[y, x]);
    }
  }
}
