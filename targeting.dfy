/** Hunt targeting and attack resolution, shared by parentAttack and
    childAttack: the two C functions are mirror images that differ only in
    which tracker, which defender grid and which hunt memory they use.

    The hunt memory is the pair (lastHitX, lastHitY) of the C function;
    (-1, -1) is "no hunt". The random attack (a rejection loop over rand())
    is the cell that loop settles on, supplied by the caller as `pick`. */
module Targeting {
  import opened Board

  const NoHunt := Coord(-1, -1)

  /** Left, Right, Up, Down. */
  const Directions: seq<Coord> := [Coord(-1, 0), Coord(1, 0), Coord(0, -1), Coord(0, 1)]

  /** The C test `lastHitX != -1 && lastHitY != -1`. */
  predicate Hunting(h: Coord) {
    h.x != -1 && h.y != -1
  }

  /** The neighbour of h in direction k. */
  function Probe(h: Coord, k: int): Coord
    requires 0 <= k < |Directions|
  {
    Coord(h.x + Directions[k].x, h.y + Directions[k].y)
  }

  predicate IsOpen(attacked: array2<int>, c: Coord)
    requires IsGrid(attacked)
    reads attacked
  {
    IsValidAttack(attacked, c.x, c.y)
  }

  /** The first direction, from `from` on, whose neighbour of h is open to
      attack; |Directions| when there is none. */
  ghost function FirstOpen(attacked: array2<int>, h: Coord, from: nat): (k: nat)
    requires IsGrid(attacked) && from <= |Directions|
    reads attacked
    ensures from <= k <= |Directions|
    ensures k < |Directions| ==> IsOpen(attacked, Probe(h, k))
    ensures forall j :: from <= j < k ==> !IsOpen(attacked, Probe(h, j))
    decreases |Directions| - from
  {
    if from == |Directions| then from
    else if IsOpen(attacked, Probe(h, from)) then from
    else FirstOpen(attacked, h, from + 1)
  }

  /** The cell an attack targets: the first open neighbour of a remembered
      hit, or else the random pick. */
  ghost function ChosenTarget(attacked: array2<int>, h: Coord, pick: Coord): Coord
    requires IsGrid(attacked)
    reads attacked
  {
    if Hunting(h) && FirstOpen(attacked, h, 0) < |Directions| then Probe(h, FirstOpen(attacked, h, 0))
    else pick
  }

  /** The hunt memory once the target is chosen: forgotten when all four
      neighbours of the remembered hit are closed, otherwise kept. */
  ghost function HuntAfterChoice(attacked: array2<int>, h: Coord): Coord
    requires IsGrid(attacked)
    reads attacked
  {
    if Hunting(h) && FirstOpen(attacked, h, 0) == |Directions| then NoHunt else h
  }

  /** The targeting part of parentAttack/childAttack: the direction loop
      with its early exit, then the random fallback. */
  method ChooseTarget(attacked: array2<int>, hunt: Coord, pick: Coord) returns (target: Coord, hunt': Coord)
    requires IsGrid(attacked) && IsOpen(attacked, pick)
    ensures IsOpen(attacked, target)
    ensures target == ChosenTarget(attacked, hunt, pick)
    ensures hunt' == HuntAfterChoice(attacked, hunt)
  {
    hunt' := hunt;
    if Hunting(hunt) {
      var i := 0;
      while i < |Directions|
        invariant 0 <= i <= |Directions|
        invariant forall j :: 0 <= j < i ==> !IsOpen(attacked, Probe(hunt, j))
      {
        var c := Probe(hunt, i);
        if IsValidAttack(attacked, c.x, c.y) {
          assert FirstOpen(attacked, hunt, 0) == i;
          return c, hunt;
        }
        i := i + 1;
      }
      hunt' := NoHunt;
    }
    target := pick;
  }

  /** With a hit remembered, the target is the first of Left, Right, Up,
      Down that is open; every direction before it is closed. */
  lemma HuntTakesFirstOpen(attacked: array2<int>, h: Coord, pick: Coord, k: int)
    requires IsGrid(attacked) && Hunting(h) && 0 <= k < |Directions|
    requires IsOpen(attacked, Probe(h, k))
    requires forall j :: 0 <= j < k ==> !IsOpen(attacked, Probe(h, j))
    ensures ChosenTarget(attacked, h, pick) == Probe(h, k)
    ensures HuntAfterChoice(attacked, h) == h
  {
    var f := FirstOpen(attacked, h, 0);
    assert f <= k;
    assert f == k;
  }

  /** With a hit remembered and all four neighbours closed, the memory is
      reset to (-1, -1) and the random pick is attacked. */
  lemma HuntExhausted(attacked: array2<int>, h: Coord, pick: Coord)
    requires IsGrid(attacked) && Hunting(h)
    requires forall j :: 0 <= j < |Directions| ==> !IsOpen(attacked, Probe(h, j))
    ensures ChosenTarget(attacked, h, pick) == pick
    ensures HuntAfterChoice(attacked, h) == NoHunt
  {
  }

  /** A hunt from (3, 3) whose Left, Right and Down neighbours are already
      attacked, while Up (3, 2) is not, attacks (3, 2). */
  lemma HuntFromThreeThreeGoesUp(attacked: array2<int>, pick: Coord)
    requires IsGrid(attacked)
    requires attacked[3, 2] == 1 && attacked[3, 4] == 1 && attacked[4, 3] == 1 && attacked[2, 3] == 0
    ensures ChosenTarget(attacked, Coord(3, 3), pick) == Coord(3, 2)
  {
    HuntTakesFirstOpen(attacked, Coord(3, 3), pick, 2);
  }

  /** One attack by one side: choose the target, mark it in the attacker's
      tracker, and write a hit (2) or a miss (-1) into the defender's grid.
      A hit becomes the new hunt memory; a miss leaves the memory as the
      choice left it. */
  method Attack(attacked: array2<int>, defender: array2<int>, hunt: Coord, pick: Coord)
    returns (target: Coord, hit: bool, hunt': Coord)
    requires IsGrid(attacked) && IsGrid(defender) && attacked != defender
    requires IsOpen(attacked, pick)
    modifies attacked, defender
    ensures target == old(ChosenTarget(attacked, hunt, pick))
    ensures old(IsOpen(attacked, target))
    ensures CellWritten(attacked, target, 1)
    ensures hit <==> old(defender[target.y, target.x]) == ShipCell
    ensures CellWritten(defender, target, if hit then HitCell else MissCell)
    ensures hunt' == if hit then target else old(HuntAfterChoice(attacked, hunt))
    ensures old(Tracks(attacked, defender)) ==> Tracks(attacked, defender)
  {
    var h;
    target, h := ChooseTarget(attacked, hunt, pick);
    attacked[target.y, target.x] := 1;
    if defender[target.y, target.x] == ShipCell {
      defender[target.y, target.x] := HitCell;
      hit, hunt' := true, target;
    } else {
      defender[target.y, target.x] := MissCell;
      hit, hunt' := false, h;
    }
  }
}
