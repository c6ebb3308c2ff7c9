/** Grid primitives of the pathfinding game: cells, the four directions, unit
    moves, distances, and the bounded rejection sampler that places the start,
    the end and the obstacles of a level.

    Math.random is not modelled: the sampler reads an injected stream
    `rng: nat -> Unit` of draws in [0, 1), two draws (x, then y) per attempt,
    starting at a cursor that it returns advanced past the draws it used. */
module Grid {

  datatype Option<T> = None | Some(value: T)

  datatype Direction = Up | Down | Left | Right

  datatype Position = Position(x: int, y: int)

  /** One queued instruction: move `steps` cells towards `direction`. */
  datatype Instruction = Instruction(direction: Direction, steps: nat)

  /** A value returned by Math.random: a number in [0, 1). */
  type Unit = r: real | 0.0 <= r < 1.0

  /** The sampler gives up rejecting after this many attempts. */
  const MaxAttempts: nat := 100

  // ---------------------------------------------------------------------------
  // Positions and moves

  /** The bounds check of a cell against a gridWidth x gridHeight board. */
  predicate IsValidPosition(pos: Position, gridWidth: int, gridHeight: int)
    ensures IsValidPosition(pos, gridWidth, gridHeight) ==> gridWidth >= 1 && gridHeight >= 1
  {
    pos.x >= 0 && pos.x < gridWidth && pos.y >= 0 && pos.y < gridHeight
  }

  /** The cells of a board, enumerated: a reference for the bounds check. */
  ghost function Cells(gridWidth: int, gridHeight: int): set<Position>
  {
    set x: int, y: int | 0 <= x < gridWidth && 0 <= y < gridHeight :: Position(x, y)
  }

  lemma ValidIffCell(pos: Position, gridWidth: int, gridHeight: int)
    ensures IsValidPosition(pos, gridWidth, gridHeight) <==> pos in Cells(gridWidth, gridHeight)
  {
    if IsValidPosition(pos, gridWidth, gridHeight) {
      assert pos == Position(pos.x, pos.y);
    }
  }

  /** The cell one step away from `pos` towards `direction`; "up" decreases y. */
  function GetNextPosition(pos: Position, direction: Direction): (next: Position)
    ensures next.x != pos.x || next.y != pos.y
  {
    match direction
    case Up => Position(pos.x, pos.y - 1)
    case Down => Position(pos.x, pos.y + 1)
    case Left => Position(pos.x - 1, pos.y)
    case Right => Position(pos.x + 1, pos.y)
  }

  /** A move reaches a neighbouring cell: vertical moves keep x, horizontal
      moves keep y, and only "up" and "left" decrease a coordinate. */
  lemma NextIsNeighbour(pos: Position, direction: Direction)
    ensures ManhattanDistance(pos, GetNextPosition(pos, direction)) == 1
    ensures GetNextPosition(pos, direction).x == pos.x <==> direction in {Up, Down}
    ensures GetNextPosition(pos, direction).y == pos.y <==> direction in {Left, Right}
    ensures GetNextPosition(pos, direction).x + GetNextPosition(pos, direction).y < pos.x + pos.y
        <==> direction in {Up, Left}
  {
  }

  function Opposite(direction: Direction): Direction
  {
    match direction
    case Up => Down
    case Down => Up
    case Left => Right
    case Right => Left
  }

  /** A step followed by the opposite step comes back to the start cell. */
  lemma StepBack(pos: Position, direction: Direction)
    ensures GetNextPosition(GetNextPosition(pos, direction), Opposite(direction)) == pos
  {
  }

  /** The direction of the single move from `from` to `to`, if there is one. */
  function StepDirection(from: Position, to: Position): (d: Option<Direction>)
    ensures d.Some? ==> GetNextPosition(from, d.value) == to
  {
    if to == Position(from.x, from.y - 1) then Some(Up)
    else if to == Position(from.x, from.y + 1) then Some(Down)
    else if to == Position(from.x - 1, from.y) then Some(Left)
    else if to == Position(from.x + 1, from.y) then Some(Right)
    else None
  }

  /** Two cells are one move apart exactly when their Manhattan distance is 1,
      and the move between them is unique. */
  lemma AdjacentIffOneMove(from: Position, to: Position)
    ensures ManhattanDistance(from, to) == 1 <==> StepDirection(from, to).Some?
    ensures forall d :: GetNextPosition(from, d) == to ==> StepDirection(from, to) == Some(d)
  {
  }

  function Abs(n: int): nat
  {
    if n < 0 then -n else n
  }

  /** Cells are equal exactly when both coordinates match. */
  function PositionsEqual(pos1: Position, pos2: Position): (eq: bool)
    ensures eq <==> pos1 == pos2
  {
    pos1.x == pos2.x && pos1.y == pos2.y
  }

  lemma PositionsEqualIsEquivalence(p: Position, q: Position, r: Position)
    ensures PositionsEqual(p, p)
    ensures PositionsEqual(p, q) == PositionsEqual(q, p)
    ensures PositionsEqual(p, q) && PositionsEqual(q, r) ==> PositionsEqual(p, r)
  {
  }

  function ManhattanDistance(pos1: Position, pos2: Position): (d: nat)
    ensures d == 0 <==> pos1 == pos2
  {
    Abs(pos1.x - pos2.x) + Abs(pos1.y - pos2.y)
  }

  /** The distance is a metric on cells. */
  lemma ManhattanIsMetric(p: Position, q: Position, r: Position)
    ensures ManhattanDistance(p, q) == ManhattanDistance(q, p)
    ensures ManhattanDistance(p, r) <= ManhattanDistance(p, q) + ManhattanDistance(q, r)
  {
  }

  /** `positions.some(p => positionsEqual(p, pos))`. */
  function Contains(positions: seq<Position>, pos: Position): (found: bool)
    ensures found <==> pos in positions
  {
    if positions == [] then false
    else PositionsEqual(positions[0], pos) || Contains(positions[1..], pos)
  }

  // ---------------------------------------------------------------------------
  // Random placement

  /** `Math.floor(r * n)`, over the reals. */
  function Coord(r: Unit, n: int): (c: int)
    ensures (c as real) <= r * (n as real) < (c as real) + 1.0
  {
    (r * (n as real)).Floor
  }

  lemma CoordInRange(r: Unit, n: int)
    requires n >= 1
    ensures 0 <= Coord(r, n) < n
  {
    var rn := r * (n as real);
    assert (n as real) - rn == (n as real) * (1.0 - r);
    assert (n as real) * (1.0 - r) > 0.0;
  }

  /** The cell built from the two draws at `cursor` and `cursor + 1`. */
  function DrawAt(gridWidth: int, gridHeight: int, rng: nat -> Unit, cursor: nat): Position
  {
    Position(Coord(rng(cursor), gridWidth), Coord(rng(cursor + 1), gridHeight))
  }

  lemma DrawInBounds(gridWidth: int, gridHeight: int, rng: nat -> Unit, cursor: nat)
    requires gridWidth >= 1 && gridHeight >= 1
    ensures IsValidPosition(DrawAt(gridWidth, gridHeight, rng, cursor), gridWidth, gridHeight)
  {
    CoordInRange(rng(cursor), gridWidth);
    CoordInRange(rng(cursor + 1), gridHeight);
  }

  /** The cell drawn by attempt `j` of a sampler that started reading the
      stream at `cursor`. */
  function Attempt(gridWidth: int, gridHeight: int, rng: nat -> Unit, cursor: nat, j: nat): Position
  {
    DrawAt(gridWidth, gridHeight, rng, cursor + 2 * j)
  }

  /** What one run of the sampler returns when it starts reading the stream at
      `cursor` and makes `attempts` attempts: every attempt but the last drew an
      excluded cell, and the last one is either the first cell outside `exclude`
      or the hundredth attempt, which is accepted whatever it drew. */
  ghost predicate IsSample(gridWidth: int, gridHeight: int, exclude: seq<Position>,
                           rng: nat -> Unit, cursor: nat, pos: Position, attempts: nat)
  {
    && 1 <= attempts <= MaxAttempts
    && pos == Attempt(gridWidth, gridHeight, rng, cursor, attempts - 1)
    && (forall j :: 0 <= j < attempts - 1 ==> Attempt(gridWidth, gridHeight, rng, cursor, j) in exclude)
    && (attempts < MaxAttempts ==> pos !in exclude)
  }

  /** The description above pins the sampler down: for a given stream and
      cursor there is only one result. */
  lemma SampleIsDeterministic(gridWidth: int, gridHeight: int, exclude: seq<Position>,
                              rng: nat -> Unit, cursor: nat,
                              pos1: Position, attempts1: nat, pos2: Position, attempts2: nat)
    requires IsSample(gridWidth, gridHeight, exclude, rng, cursor, pos1, attempts1)
    requires IsSample(gridWidth, gridHeight, exclude, rng, cursor, pos2, attempts2)
    ensures pos1 == pos2 && attempts1 == attempts2
  {
    // the shorter run's accepted cell is one the longer run rejected
    var last1: nat, last2: nat := attempts1 - 1, attempts2 - 1;
    assert attempts1 < attempts2 ==> Attempt(gridWidth, gridHeight, rng, cursor, last1) in exclude;
    assert attempts2 < attempts1 ==> Attempt(gridWidth, gridHeight, rng, cursor, last2) in exclude;
  }

  /** The fallback is real: on a 1 x 1 board whose only cell is excluded, the
      sampler makes all MaxAttempts attempts and returns the excluded cell. */
  lemma SamplerGivesUpOnFullBoard(rng: nat -> Unit, cursor: nat, pos: Position, attempts: nat)
    requires IsSample(1, 1, [Position(0, 0)], rng, cursor, pos, attempts)
    ensures pos == Position(0, 0) && attempts == MaxAttempts
  {
    DrawInBounds(1, 1, rng, cursor + 2 * (attempts - 1));
  }

  /** `generateRandomPosition`: draw until the cell is not excluded, at most
      MaxAttempts times. The stream position after the call is
      `cursor + 2 * attempts`. */
  method GenerateRandomPosition(gridWidth: int, gridHeight: int, excludePositions: seq<Position>,
                                rng: nat -> Unit, cursor: nat)
    returns (pos: Position, attempts: nat)
    ensures IsSample(gridWidth, gridHeight, excludePositions, rng, cursor, pos, attempts)
    ensures gridWidth >= 1 && gridHeight >= 1 ==> IsValidPosition(pos, gridWidth, gridHeight)
  {
    attempts := 0;
    var next := cursor;
    pos := Position(Coord(rng(next), gridWidth), Coord(rng(next + 1), gridHeight));
    next := next + 2;
    attempts := attempts + 1;
    while attempts < MaxAttempts && Contains(excludePositions, pos)
      invariant 1 <= attempts <= MaxAttempts
      invariant next == cursor + 2 * attempts
      invariant pos == Attempt(gridWidth, gridHeight, rng, cursor, attempts - 1)
      invariant forall j :: 0 <= j < attempts - 1 ==> Attempt(gridWidth, gridHeight, rng, cursor, j) in excludePositions
    {
      pos := Position(Coord(rng(next), gridWidth), Coord(rng(next + 1), gridHeight));
      next := next + 2;
      attempts := attempts + 1;
    }
    if gridWidth >= 1 && gridHeight >= 1 {
      DrawInBounds(gridWidth, gridHeight, rng, next - 2);
    }
  }

  /** `marks[i]` is where the sampler for obstacle i started reading the stream
      and `tries[i]` how many attempts it made; each obstacle was drawn against
      the original exclusions plus every earlier obstacle. */
  ghost predicate IsObstacleRun(gridWidth: int, gridHeight: int, exclude: seq<Position>, rng: nat -> Unit,
                                obstacles: seq<Position>, marks: seq<nat>, tries: seq<nat>)
  {
    && |marks| == |obstacles| + 1
    && |tries| == |obstacles|
    && forall i :: 0 <= i < |obstacles| ==>
         && IsSample(gridWidth, gridHeight, exclude + obstacles[..i], rng, marks[i], obstacles[i], tries[i])
         && marks[i + 1] == marks[i] + 2 * tries[i]
  }

  /** `generateObstacles`: `count` samples, each excluding what came before. */
  method GenerateObstacles(gridWidth: int, gridHeight: int, count: nat, excludePositions: seq<Position>,
                           rng: nat -> Unit, cursor: nat)
    returns (obstacles: seq<Position>, next: nat, ghost marks: seq<nat>, ghost tries: seq<nat>)
    ensures |obstacles| == count
    ensures IsObstacleRun(gridWidth, gridHeight, excludePositions, rng, obstacles, marks, tries)
    ensures marks[0] == cursor && marks[count] == next
    ensures gridWidth >= 1 && gridHeight >= 1 ==>
              forall i :: 0 <= i < count ==> IsValidPosition(obstacles[i], gridWidth, gridHeight)
  {
    obstacles := [];
    next := cursor;
    marks, tries := [cursor], [];
    for i := 0 to count
      invariant |obstacles| == i && |marks| == i + 1
      invariant marks[0] == cursor && marks[i] == next
      invariant IsObstacleRun(gridWidth, gridHeight, excludePositions, rng, obstacles, marks, tries)
      invariant gridWidth >= 1 && gridHeight >= 1 ==>
                  forall j :: 0 <= j < i ==> IsValidPosition(obstacles[j], gridWidth, gridHeight)
    {
      var obstacle, attempts := GenerateRandomPosition(gridWidth, gridHeight, excludePositions + obstacles, rng, next);
      assert obstacles == (obstacles + [obstacle])[..i];
      forall j | 0 <= j < i
        ensures (obstacles + [obstacle])[..j] == obstacles[..j]
      {
      }
      obstacles := obstacles + [obstacle];
      next := next + 2 * attempts;
      marks, tries := marks + [next], tries + [attempts];
    }
  }

  /** Best effort only: an obstacle whose sampler stopped before its last
      attempt avoids the exclusions and every earlier obstacle. */
  lemma ObstacleAvoidsWhenSampled(gridWidth: int, gridHeight: int, exclude: seq<Position>,
                                  rng: nat -> Unit, obstacles: seq<Position>, marks: seq<nat>, tries: seq<nat>, i: nat)
    requires IsObstacleRun(gridWidth, gridHeight, exclude, rng, obstacles, marks, tries)
    requires i < |obstacles| && tries[i] < MaxAttempts
    ensures obstacles[i] !in exclude
    ensures forall j :: 0 <= j < i ==> obstacles[j] != obstacles[i]
  {
    forall j | 0 <= j < i
      ensures obstacles[j] != obstacles[i]
    {
      assert obstacles[j] in exclude + obstacles[..i];
    }
  }
}
