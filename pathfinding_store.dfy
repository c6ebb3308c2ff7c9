/** The pathfinding game's session: a level (board, start, end, obstacles), a
    run-length-merged queue of instructions, and a tick-by-tick executor that
    moves the player one cell per tick and ends the game won or lost.

    Each setTimeout callback of the executor is one call of
    `Store.ExecuteNextStep`; `Store.Play` is the driver that keeps calling it
    while a next tick is scheduled. */
module PathfindingStore {
  import opened Grid

  datatype Status = Idle | Playing | Won | Lost

  const DefaultGridWidth: int := 8
  const DefaultGridHeight: int := 8
  const DefaultObstacleCount: nat := 8

  // ---------------------------------------------------------------------------
  // The instruction queue, as values

  /** Sum of the step counts of a queue. */
  function TotalSteps(queue: seq<Instruction>): (total: nat)
    ensures queue != [] ==> queue[0].steps <= total
  {
    if queue == [] then 0 else TotalSteps(queue[..|queue| - 1]) + queue[|queue| - 1].steps
  }

  /** No instruction asks for more steps than the whole queue, and the queue
      moves the player only if some instruction has a step. */
  lemma {:induction false} TotalStepsBounds(queue: seq<Instruction>)
    ensures forall i :: 0 <= i < |queue| ==> queue[i].steps <= TotalSteps(queue)
    ensures TotalSteps(queue) == 0 <==> forall i :: 0 <= i < |queue| ==> queue[i].steps == 0
  {
    if queue != [] {
      var init := queue[..|queue| - 1];
      TotalStepsBounds(init);
      assert forall i :: 0 <= i < |init| ==> queue[i] == init[i];
    }
  }

  function Repeat(direction: Direction, n: nat): (moves: seq<Direction>)
    ensures |moves| == n
    ensures forall i :: 0 <= i < n ==> moves[i] == direction
  {
    seq(n, _ => direction)
  }

  /** The single-cell moves a queue stands for, in order. */
  function Flatten(queue: seq<Instruction>): (moves: seq<Direction>)
    ensures |moves| == TotalSteps(queue)
  {
    if queue == [] then []
    else Flatten(queue[..|queue| - 1]) + Repeat(queue[|queue| - 1].direction, queue[|queue| - 1].steps)
  }

  /** No two neighbouring instructions share a direction: they would have been merged. */
  ghost predicate NoAdjacentRepeats(queue: seq<Instruction>)
  {
    forall i :: 0 < i < |queue| ==> queue[i - 1].direction != queue[i].direction
  }

  /** The queue after `addInstruction(direction, steps)`: the steps are merged
      into the last instruction when it has the same direction, otherwise a new
      instruction is appended. Either way the queue stands for the old moves
      followed by `steps` moves towards `direction`. */
  function Appended(queue: seq<Instruction>, direction: Direction, steps: nat): (result: seq<Instruction>)
    ensures queue != [] && queue[|queue| - 1].direction == direction ==>
              && |result| == |queue|
              && result[..|queue| - 1] == queue[..|queue| - 1]
              && result[|queue| - 1] == Instruction(direction, queue[|queue| - 1].steps + steps)
    ensures !(queue != [] && queue[|queue| - 1].direction == direction) ==>
              result == queue + [Instruction(direction, steps)]
    ensures Flatten(result) == Flatten(queue) + Repeat(direction, steps)
    ensures TotalSteps(result) == TotalSteps(queue) + steps
    ensures NoAdjacentRepeats(queue) ==> NoAdjacentRepeats(result)
  {
    var n := |queue|;
    if n > 0 && queue[n - 1].direction == direction then
      var merged := queue[..n - 1] + [Instruction(direction, queue[n - 1].steps + steps)];
      assert merged[..n - 1] == queue[..n - 1];
      assert queue[..n - 1] == queue[..n - 1][..n - 1] by {
      }
      RepeatSplit(direction, queue[n - 1].steps, steps);
      merged
    else
      var grown := queue + [Instruction(direction, steps)];
      assert grown[..n] == queue;
      grown
  }

  lemma RepeatSplit(direction: Direction, a: nat, b: nat)
    ensures Repeat(direction, a + b) == Repeat(direction, a) + Repeat(direction, b)
  {
  }

  /** The queue after `removeLastInstruction`: the whole last instruction goes. */
  function RemovedLast(queue: seq<Instruction>): (result: seq<Instruction>)
    ensures queue == [] ==> result == []
    ensures queue != [] ==> result + [queue[|queue| - 1]] == queue
  {
    if queue == [] then [] else queue[..|queue| - 1]
  }

  /** Adding an instruction in a new direction and then removing the last one
      gives back the queue. */
  lemma RemoveUndoesNewInstruction(queue: seq<Instruction>, direction: Direction, steps: nat)
    requires queue == [] || queue[|queue| - 1].direction != direction
    ensures RemovedLast(Appended(queue, direction, steps)) == queue
  {
  }

  /** Two taps on the same arrow make one instruction of two steps; a tap on
      another arrow makes a second instruction. */
  /** From an empty queue, two taps in one direction make one instruction with
      the steps added up, and taps in two directions make two instructions. */
  lemma MergeFromEmpty(d: Direction, e: Direction, a: nat, b: nat)
    ensures Appended(Appended([], d, a), d, b) == [Instruction(d, a + b)]
    ensures d != e ==> Appended(Appended([], d, a), e, b) == [Instruction(d, a), Instruction(e, b)]
  {
    assert Appended([], d, a) == [Instruction(d, a)];
  }

  lemma {:induction false} TotalStepsGrows(queue: seq<Instruction>, i: nat, j: nat)
    requires i <= j <= |queue|
    ensures TotalSteps(queue[..i]) <= TotalSteps(queue[..j])
    decreases j - i
  {
    if i < j {
      TotalStepsGrows(queue, i, j - 1);
      assert queue[..j][..j - 1] == queue[..j - 1];
    }
  }

  lemma TotalStepsNext(queue: seq<Instruction>, i: nat)
    requires i < |queue|
    ensures TotalSteps(queue[..i + 1]) == TotalSteps(queue[..i]) + queue[i].steps
  {
    assert queue[..i + 1][..i] == queue[..i];
  }

  /** Appending leaves the instructions before the last one alone, and the
      instruction at the old end only grows. */
  lemma PrefixOfAppended(queue: seq<Instruction>, direction: Direction, steps: nat, i: nat)
    requires i < |queue|
    ensures var result := Appended(queue, direction, steps);
            i < |result| && result[..i] == queue[..i] && result[i].direction == queue[i].direction
            && result[i].steps >= queue[i].steps
  {
    var result := Appended(queue, direction, steps);
    var n := |queue|;
    if n > 0 && queue[n - 1].direction == direction {
      assert result[..i] == result[..n - 1][..i];
      assert queue[..i] == queue[..n - 1][..i];
      if i < n - 1 {
        assert result[i] == result[..n - 1][i];
      }
    } else {
      assert result[..i] == (queue + [Instruction(direction, steps)])[..i];
    }
  }

  /** The moves of a prefix of the queue are a prefix of its moves. */
  lemma {:induction false} FlattenPrefix(queue: seq<Instruction>, i: nat)
    requires i <= |queue|
    ensures TotalSteps(queue[..i]) <= |Flatten(queue)|
    ensures Flatten(queue)[..TotalSteps(queue[..i])] == Flatten(queue[..i])
    decreases |queue| - i
  {
    if i < |queue| {
      FlattenPrefix(queue, i + 1);
      var m := queue[..i + 1];
      assert m[..|m| - 1] == queue[..i];
      assert Flatten(m) == Flatten(queue[..i]) + Repeat(queue[i].direction, queue[i].steps);
    } else {
      assert queue[..i] == queue;
    }
  }

  /** Move k of the queue belongs to the instruction whose step range holds k. */
  lemma FlattenAt(queue: seq<Instruction>, i: nat, k: nat)
    requires i < |queue|
    requires TotalSteps(queue[..i]) <= k < TotalSteps(queue[..i + 1])
    ensures k < |Flatten(queue)| && Flatten(queue)[k] == queue[i].direction
  {
    FlattenPrefix(queue, i + 1);
    var m := queue[..i + 1];
    assert m[..|m| - 1] == queue[..i];
    assert Flatten(m) == Flatten(queue[..i]) + Repeat(queue[i].direction, queue[i].steps);
    assert Flatten(queue)[k] == Flatten(m)[k];
  }

  // ---------------------------------------------------------------------------
  // What a whole run does, as a reference for the executor

  /** The board a run is played on. */
  datatype World = World(width: int, height: int, obstacles: seq<Position>)

  /** The executor's move check: on the board and not an obstacle. */
  predicate IsFree(world: World, pos: Position)
  {
    IsValidPosition(pos, world.width, world.height) && !Contains(world.obstacles, pos)
  }

  /** The cells visited from `pos` and whether a move was refused. */
  datatype Run = Run(trail: seq<Position>, blocked: bool)

  /** Follow the moves from `pos` until they run out or the next cell is not
      free; the refused move is not taken. */
  function Walk(pos: Position, moves: seq<Direction>, world: World): (run: Run)
    ensures |run.trail| >= 1 && run.trail[0] == pos
    ensures |run.trail| - 1 <= |moves|
    decreases |moves|
  {
    if moves == [] then Run([pos], false)
    else
      var next := GetNextPosition(pos, moves[0]);
      if !IsFree(world, next) then Run([pos], true)
      else
        var rest := Walk(next, moves[1..], world);
        Run([pos] + rest.trail, rest.blocked)
  }

  /** The walk takes the moves in order, each onto a free cell; it takes them
      all unless it is refused, and then exactly the next move leads to a cell
      that is not free. */
  lemma {:induction false} WalkFollowsMoves(pos: Position, moves: seq<Direction>, world: World)
    ensures var run := Walk(pos, moves, world);
            && (forall i :: 0 < i < |run.trail| ==>
                  run.trail[i] == GetNextPosition(run.trail[i - 1], moves[i - 1]) && IsFree(world, run.trail[i]))
            && (!run.blocked ==> |run.trail| - 1 == |moves|)
            && (run.blocked ==> |run.trail| - 1 < |moves|)
            && (run.blocked ==>
                  !IsFree(world, GetNextPosition(run.trail[|run.trail| - 1], moves[|run.trail| - 1])))
    decreases |moves|
  {
    if moves != [] {
      var next := GetNextPosition(pos, moves[0]);
      if IsFree(world, next) {
        WalkFollowsMoves(next, moves[1..], world);
        var rest := Walk(next, moves[1..], world);
        var trail := [pos] + rest.trail;
        forall i | 0 < i < |trail|
          ensures trail[i] == GetNextPosition(trail[i - 1], moves[i - 1]) && IsFree(world, trail[i])
        {
          if i > 1 {
            assert trail[i] == rest.trail[i - 1] && trail[i - 1] == rest.trail[i - 2];
            assert moves[i - 1] == moves[1..][i - 2];
          }
        }
        if rest.blocked {
          var k := |rest.trail| - 1;
          assert trail[|trail| - 1] == rest.trail[k] && moves[|trail| - 1] == moves[1..][k];
        }
      }
    }
  }

  /** How a run ends: won when every move was taken and the last cell is the end. */
  function Verdict(run: Run, endPosition: Position): Status
    requires run.trail != []
  {
    if !run.blocked && run.trail[|run.trail| - 1] == endPosition then Won else Lost
  }

  /** A history that follows the moves through free cells is the start of the walk. */
  lemma {:induction false} WalkAlong(history: seq<Position>, moves: seq<Direction>, world: World)
    requires 1 <= |history| <= |moves| + 1
    requires forall i :: 0 <= i < |history| - 1 ==> history[i + 1] == GetNextPosition(history[i], moves[i])
    requires forall i :: 0 < i < |history| ==> IsFree(world, history[i])
    ensures var k := |history| - 1;
            var rest := Walk(history[k], moves[k..], world);
            Walk(history[0], moves, world) == Run(history[..k] + rest.trail, rest.blocked)
    decreases |history|
  {
    var k := |history| - 1;
    if k == 0 {
      assert moves[0..] == moves && history[..0] == [];
    } else {
      var tail, later := history[1..], moves[1..];
      AlongTail(history, moves, world);
      WalkAlong(tail, later, world);
      assert tail[0] == history[1] && tail[k - 1] == history[k] && later[k - 1..] == moves[k..];
      WalkAlongStep(history, moves, world, Walk(history[k], moves[k..], world));
    }
  }

  /** One step of `WalkAlong`: the walk from the second cell, prefixed by the first. */
  lemma WalkAlongStep(history: seq<Position>, moves: seq<Direction>, world: World, rest: Run)
    requires 2 <= |history| <= |moves| + 1
    requires history[1] == GetNextPosition(history[0], moves[0]) && IsFree(world, history[1])
    requires Walk(history[1], moves[1..], world) == Run(history[1..][..|history| - 2] + rest.trail, rest.blocked)
    ensures Walk(history[0], moves, world) == Run(history[..|history| - 1] + rest.trail, rest.blocked)
  {
    WalkFirstMove(history[0], moves, world);
    ConsPrefix(history, |history| - 1, rest.trail);
  }

  lemma ConsPrefix<T>(s: seq<T>, k: nat, t: seq<T>)
    requires 1 <= k <= |s|
    ensures s[..k] + t == [s[0]] + (s[1..][..k - 1] + t)
  {
    assert s[..k] == [s[0]] + s[1..][..k - 1];
  }

  /** A free first move is taken and the walk continues from there. */
  lemma WalkFirstMove(pos: Position, moves: seq<Direction>, world: World)
    requires moves != [] && IsFree(world, GetNextPosition(pos, moves[0]))
    ensures var rest := Walk(GetNextPosition(pos, moves[0]), moves[1..], world);
            Walk(pos, moves, world) == Run([pos] + rest.trail, rest.blocked)
  {
  }

  lemma AlongTail(history: seq<Position>, moves: seq<Direction>, world: World)
    requires 2 <= |history| <= |moves| + 1
    requires forall i :: 0 <= i < |history| - 1 ==> history[i + 1] == GetNextPosition(history[i], moves[i])
    requires forall i :: 0 < i < |history| ==> IsFree(world, history[i])
    ensures history[1] == GetNextPosition(history[0], moves[0]) && IsFree(world, history[1])
    ensures var tail, later := history[1..], moves[1..];
            && (forall i :: 0 <= i < |tail| - 1 ==> tail[i + 1] == GetNextPosition(tail[i], later[i]))
            && (forall i :: 0 < i < |tail| ==> IsFree(world, tail[i]))
  {
    var tail, later := history[1..], moves[1..];
    forall i | 0 <= i < |tail| - 1
      ensures tail[i + 1] == GetNextPosition(tail[i], later[i])
    {
      assert tail[i + 1] == history[i + 2] && tail[i] == history[i + 1] && later[i] == moves[i + 1];
    }
  }

  lemma FlattenOne(instruction: Instruction)
    ensures Flatten([instruction]) == Repeat(instruction.direction, instruction.steps)
  {
    assert [instruction][..0] == [];
  }

  /** On a board without obstacles, moving right k times from (x, y) takes
      every move while the row lasts: the run visits (x, y), (x + 1, y), ...
      and is refused exactly when the moves would leave the board. */
  lemma {:induction false} WalkRightAlongRow(world: World, x: int, y: int, k: nat)
    requires world.obstacles == [] && 0 <= x < world.width && 0 <= y < world.height
    ensures var run := Walk(Position(x, y), Repeat(Right, k), world);
            && (run.blocked <==> x + k >= world.width)
            && |run.trail| == (if x + k >= world.width then world.width - x else k + 1)
            && forall i :: 0 <= i < |run.trail| ==> run.trail[i] == Position(x + i, y)
    decreases k
  {
    var pos, moves := Position(x, y), Repeat(Right, k);
    if k == 0 {
      assert moves == [];
    } else if x + 1 >= world.width {
      assert moves[0] == Right && !IsFree(world, GetNextPosition(pos, moves[0]));
      assert Walk(pos, moves, world) == Run([pos], true);
    } else {
      assert moves[1..] == Repeat(Right, k - 1);
      assert moves[0] == Right && GetNextPosition(pos, moves[0]) == Position(x + 1, y);
      WalkRightAlongRow(world, x + 1, y, k - 1);
      WalkFirstMove(pos, moves, world);
      var rest := Walk(Position(x + 1, y), moves[1..], world);
      var trail := [pos] + rest.trail;
      assert Walk(pos, moves, world) == Run(trail, rest.blocked);
      forall i | 0 < i < |trail|
        ensures trail[i] == Position(x + i, y)
      {
        assert trail[i] == rest.trail[i - 1];
      }
    }
  }

  /** On a 4 x 4 board without obstacles, three moves right from (0, 0) reach
      (3, 0) and win. The board, queue and start are parameters fixed by the
      requires so that the verifier reasons through `WalkRightAlongRow` rather
      than unfolding `Walk` on literals. */
  lemma ExecutorWinExample(world: World, queue: seq<Instruction>, start: Position)
    requires world == World(4, 4, []) && start == Position(0, 0) && queue == [Instruction(Right, 3)]
    ensures var run := Walk(start, Flatten(queue), world);
            run == Run([Position(0, 0), Position(1, 0), Position(2, 0), Position(3, 0)], false)
            && Verdict(run, Position(3, 0)) == Won
  {
    FlattenOne(Instruction(Right, 3));
    WalkRightAlongRow(world, start.x, start.y, 3);
    var trail := Walk(start, Flatten(queue), world).trail;
    assert |trail| == 4 && trail[0] == Position(0, 0) && trail[1] == Position(1, 0);
    assert trail[2] == Position(2, 0) && trail[3] == Position(3, 0);
  }

  /** Same board, five moves right: the fourth is off the board, so the run is
      lost with the player on (3, 0). Parameters as in `ExecutorWinExample`. */
  lemma ExecutorBorderExample(world: World, queue: seq<Instruction>, start: Position)
    requires world == World(4, 4, []) && start == Position(0, 0) && queue == [Instruction(Right, 5)]
    ensures var run := Walk(start, Flatten(queue), world);
            run == Run([Position(0, 0), Position(1, 0), Position(2, 0), Position(3, 0)], true)
            && Verdict(run, Position(3, 0)) == Lost
  {
    FlattenOne(Instruction(Right, 5));
    WalkRightAlongRow(world, start.x, start.y, 5);
    var trail := Walk(start, Flatten(queue), world).trail;
    assert |trail| == 4 && trail[0] == Position(0, 0) && trail[1] == Position(1, 0);
    assert trail[2] == Position(2, 0) && trail[3] == Position(3, 0);
  }

  // ---------------------------------------------------------------------------
  // Level generation

  datatype Level = Level(startPosition: Position, endPosition: Position, obstacles: seq<Position>)

  /** The level `createInitialLevel` builds from the stream at `cursor`, with the
      attempt counts of its samplers as witnesses: the start is drawn freely, the
      end avoiding the start, the obstacles avoiding both and each other, and the
      stream is read up to `next`. */
  ghost predicate LevelDrawnWith(width: int, height: int, obstacleCount: nat, rng: nat -> Unit,
                                 cursor: nat, level: Level, next: nat,
                                 startTries: nat, endTries: nat, marks: seq<nat>, tries: seq<nat>)
  {
    && IsSample(width, height, [], rng, cursor, level.startPosition, startTries)
    && IsSample(width, height, [level.startPosition], rng, cursor + 2 * startTries, level.endPosition, endTries)
    && |level.obstacles| == obstacleCount
    && IsObstacleRun(width, height, [level.startPosition, level.endPosition], rng, level.obstacles, marks, tries)
    && marks[0] == cursor + 2 * startTries + 2 * endTries
    && marks[obstacleCount] == next
  }

  ghost predicate IsLevelDraw(width: int, height: int, obstacleCount: nat, rng: nat -> Unit,
                              cursor: nat, level: Level, next: nat)
  {
    exists startTries, endTries, marks, tries ::
      LevelDrawnWith(width, height, obstacleCount, rng, cursor, level, next, startTries, endTries, marks, tries)
  }

  predicate LevelInBounds(level: Level, width: int, height: int)
  {
    && IsValidPosition(level.startPosition, width, height)
    && IsValidPosition(level.endPosition, width, height)
    && forall i :: 0 <= i < |level.obstacles| ==> IsValidPosition(level.obstacles[i], width, height)
  }

  /** `createInitialLevel`. */
  method CreateInitialLevel(width: int, height: int, obstacleCount: nat, rng: nat -> Unit, cursor: nat)
    returns (level: Level, next: nat)
    ensures IsLevelDraw(width, height, obstacleCount, rng, cursor, level, next)
    ensures |level.obstacles| == obstacleCount
    ensures width >= 1 && height >= 1 ==> LevelInBounds(level, width, height)
  {
    var startPosition, startTries := GenerateRandomPosition(width, height, [], rng, cursor);
    var endPosition, endTries := GenerateRandomPosition(width, height, [startPosition], rng, cursor + 2 * startTries);
    var obstacles, after, marks, tries :=
      GenerateObstacles(width, height, obstacleCount, [startPosition, endPosition], rng,
                        cursor + 2 * startTries + 2 * endTries);
    level := Level(startPosition, endPosition, obstacles);
    next := after;
    assert LevelDrawnWith(width, height, obstacleCount, rng, cursor, level, next, startTries, endTries, marks, tries);
  }

  /** When no sampler had to give up, the start, the end and the obstacles are
      pairwise distinct. */
  lemma LevelDistinctWhenSampled(width: int, height: int, obstacleCount: nat, rng: nat -> Unit,
                                 cursor: nat, level: Level, next: nat,
                                 startTries: nat, endTries: nat, marks: seq<nat>, tries: seq<nat>)
    requires LevelDrawnWith(width, height, obstacleCount, rng, cursor, level, next, startTries, endTries, marks, tries)
    requires endTries < MaxAttempts
    requires forall i :: 0 <= i < obstacleCount ==> tries[i] < MaxAttempts
    ensures level.endPosition != level.startPosition
    ensures forall i :: 0 <= i < obstacleCount ==>
              level.obstacles[i] != level.startPosition && level.obstacles[i] != level.endPosition
    ensures forall i, j :: 0 <= j < i < obstacleCount ==> level.obstacles[j] != level.obstacles[i]
  {
    forall i | 0 <= i < obstacleCount
      ensures level.obstacles[i] != level.startPosition && level.obstacles[i] != level.endPosition
      ensures forall j :: 0 <= j < i ==> level.obstacles[j] != level.obstacles[i]
    {
      ObstacleAvoidsWhenSampled(width, height, [level.startPosition, level.endPosition], rng,
                                level.obstacles, marks, tries, i);
    }
  }

  // ---------------------------------------------------------------------------
  // The store

  class Store {
    /** The random source and how many draws have been used. */
    const rng: nat -> Unit
    var drawn: nat

    var gridWidth: int
    var gridHeight: int
    var obstacleCount: nat

    var startPosition: Position
    var endPosition: Position
    var obstacles: seq<Position>

    var currentPosition: Position
    var pathHistory: seq<Position>

    var instructions: seq<Instruction>
    var currentInstructionIndex: nat

    var isPlaying: bool
    var gameStatus: Status
    var showResultModal: bool

    ghost function Board(): World
      reads this
    {
      World(gridWidth, gridHeight, obstacles)
    }

    /** What holds in every state: the history starts at the start cell, ends at
        the current cell, moves one cell at a time through free cells, and the
        playing flag agrees with the status. */
    ghost predicate Valid()
      reads this
    {
      && |pathHistory| >= 1
      && pathHistory[0] == startPosition
      && currentPosition == pathHistory[|pathHistory| - 1]
      && (forall i :: 0 < i < |pathHistory| ==> IsFree(Board(), pathHistory[i]))
      && (forall i :: 0 < i < |pathHistory| ==> ManhattanDistance(pathHistory[i - 1], pathHistory[i]) == 1)
      && (isPlaying <==> gameStatus == Playing)
    }

    /** What holds while a run is in progress: the history is the queue's moves
        taken so far, and the cursor points at the instruction whose step range
        holds the number of moves taken (or past the end once all are taken). */
    ghost predicate Tracking()
      reads this
    {
      var moves := Flatten(instructions);
      var taken := |pathHistory| - 1;
      && 0 <= taken <= |moves|
      && currentInstructionIndex <= |instructions|
      && (forall i :: 0 <= i < taken ==> pathHistory[i + 1] == GetNextPosition(pathHistory[i], moves[i]))
      && TotalSteps(instructions[..currentInstructionIndex]) <= taken
      && (currentInstructionIndex < |instructions| ==>
            taken <= TotalSteps(instructions[..currentInstructionIndex + 1]))
      && (currentInstructionIndex == |instructions| ==> taken == |moves|)
    }

    /** Ticks left before the run must end: moves not yet taken plus
        instructions not yet passed. */
    ghost function Remaining(): nat
      reads this
      requires Tracking()
    {
      (TotalSteps(instructions) - (|pathHistory| - 1)) + (|instructions| - currentInstructionIndex)
    }

    /** The whole run from the start cell, by the reference semantics. */
    ghost function Expected(): Run
      reads this
    {
      Walk(startPosition, Flatten(instructions), Board())
    }

    /** A run is over and its outcome is the reference one. */
    ghost predicate Concluded()
      reads this
    {
      && !isPlaying
      && showResultModal
      && pathHistory == Expected().trail
      && gameStatus == Verdict(Expected(), endPosition)
    }

    /** `stepInCurrentInstruction`: moves taken minus the steps of the earlier instructions. */
    ghost function StepInCurrentInstruction(): int
      reads this
      requires currentInstructionIndex <= |instructions|
    {
      |pathHistory| - 1 - TotalSteps(instructions[..currentInstructionIndex])
    }

    /** The tick will try to move one cell. */
    ghost predicate Moving()
      reads this
    {
      && isPlaying && gameStatus == Playing
      && currentInstructionIndex < |instructions|
      && StepInCurrentInstruction() < instructions[currentInstructionIndex].steps
    }

    ghost function NextCell(): Position
      reads this
      requires currentInstructionIndex < |instructions|
    {
      GetNextPosition(currentPosition, instructions[currentInstructionIndex].direction)
    }

    /** The initial store: a default-sized level drawn from the stream at `cursor`. */
    constructor (rng: nat -> Unit, cursor: nat)
      ensures Valid()
      ensures this.rng == rng
      ensures gridWidth == DefaultGridWidth && gridHeight == DefaultGridHeight
      ensures obstacleCount == DefaultObstacleCount
      ensures IsLevelDraw(gridWidth, gridHeight, obstacleCount, rng, cursor,
                          Level(startPosition, endPosition, obstacles), drawn)
      ensures currentPosition == startPosition && pathHistory == [startPosition]
      ensures instructions == [] && currentInstructionIndex == 0
      ensures !isPlaying && gameStatus == Idle && !showResultModal
    {
      var level, next := CreateInitialLevel(DefaultGridWidth, DefaultGridHeight, DefaultObstacleCount, rng, cursor);
      this.rng := rng;
      drawn := next;
      gridWidth, gridHeight, obstacleCount := DefaultGridWidth, DefaultGridHeight, DefaultObstacleCount;
      startPosition, endPosition, obstacles := level.startPosition, level.endPosition, level.obstacles;
      currentPosition := level.startPosition;
      pathHistory := [level.startPosition];
      instructions, currentInstructionIndex := [], 0;
      isPlaying, gameStatus, showResultModal := false, Idle, false;
    }

    /** `addInstruction(direction, steps)`. */
    method AddInstruction(direction: Direction, steps: nat)
      requires Valid()
      modifies this`instructions
      ensures Valid()
      ensures instructions == Appended(old(instructions), direction, steps)
      ensures old(isPlaying && Tracking() && currentInstructionIndex < |instructions|) ==> Tracking()
    {
      ghost var before := instructions;
      ghost var tracked := Tracking();
      instructions := Appended(instructions, direction, steps);
      if tracked && isPlaying && currentInstructionIndex < |before| {
        KeepsTracking(before, direction, steps);
      }
    }

    /** Adding at the end of the queue does not disturb a run whose cursor is
        still inside it. */
    lemma KeepsTracking(before: seq<Instruction>, direction: Direction, steps: nat)
      requires instructions == Appended(before, direction, steps)
      requires currentInstructionIndex < |before|
      requires var moves := Flatten(before);
               var taken := |pathHistory| - 1;
               && 0 <= taken <= |moves|
               && (forall i :: 0 <= i < taken ==> pathHistory[i + 1] == GetNextPosition(pathHistory[i], moves[i]))
               && TotalSteps(before[..currentInstructionIndex]) <= taken
               && taken <= TotalSteps(before[..currentInstructionIndex + 1])
      ensures Tracking()
    {
      var idx := currentInstructionIndex;
      var taken := |pathHistory| - 1;
      var oldMoves, moves := Flatten(before), Flatten(instructions);
      assert moves == oldMoves + Repeat(direction, steps);
      assert taken <= |moves|;
      PrefixOfAppended(before, direction, steps, idx);
      assert instructions[..idx] == before[..idx];
      TotalStepsNext(before, idx);
      TotalStepsNext(instructions, idx);
      assert taken <= TotalSteps(instructions[..idx + 1]);
      forall i | 0 <= i < taken
        ensures pathHistory[i + 1] == GetNextPosition(pathHistory[i], moves[i])
      {
        assert moves[i] == oldMoves[i];
      }
    }

    /** `removeLastInstruction`. */
    method RemoveLastInstruction()
      requires Valid()
      modifies this`instructions
      ensures Valid()
      ensures instructions == RemovedLast(old(instructions))
    {
      instructions := if instructions == [] then [] else instructions[..|instructions| - 1];
    }

    /** `clearInstructions`. */
    method ClearInstructions()
      requires Valid()
      modifies this`instructions, this`currentInstructionIndex
      ensures Valid()
      ensures instructions == [] && currentInstructionIndex == 0
    {
      instructions := [];
      currentInstructionIndex := 0;
    }

    /** `startGame`: nothing with an empty queue; otherwise the player goes back
        to the start and the first tick runs. The result says whether a next
        tick is scheduled. */
    method StartGame() returns (scheduled: bool)
      requires Valid()
      modifies this
      ensures Valid()
      ensures old(instructions) == [] ==> unchanged(this) && !scheduled
      ensures unchanged(this`gridWidth, this`gridHeight, this`obstacleCount, this`startPosition,
                        this`endPosition, this`obstacles, this`instructions, this`drawn)
      ensures old(instructions) != [] ==>
                && scheduled == isPlaying
                && (isPlaying ==> Tracking() && gameStatus == Playing)
                && (!isPlaying ==> Concluded())
      // exactly one tick runs after the reset, with one of three outcomes
      ensures old(instructions) != [] ==>
                var first := instructions[0];
                var next := GetNextPosition(startPosition, first.direction);
                && (first.steps == 0 ==>
                      && currentInstructionIndex == 1 && currentPosition == startPosition
                      && pathHistory == [startPosition]
                      && isPlaying && gameStatus == Playing && showResultModal == old(showResultModal))
                && (first.steps > 0 && IsFree(Board(), next) ==>
                      && currentInstructionIndex == 0 && currentPosition == next
                      && pathHistory == [startPosition, next]
                      && isPlaying && gameStatus == Playing && showResultModal == old(showResultModal))
                && (first.steps > 0 && !IsFree(Board(), next) ==>
                      && currentInstructionIndex == 0 && currentPosition == startPosition
                      && pathHistory == [startPosition]
                      && !isPlaying && gameStatus == Lost && showResultModal)
    {
      if |instructions| == 0 {
        scheduled := false;
        return;
      }
      BeginRun();
      scheduled := ExecuteNextStep();
    }

    /** The state `startGame` sets before its first tick: playing, on the start
        cell, with nothing taken yet and the cursor on the first instruction. */
    method BeginRun()
      requires Valid() && instructions != []
      modifies this`isPlaying, this`gameStatus, this`currentPosition, this`pathHistory,
               this`currentInstructionIndex
      ensures Valid() && Tracking()
      ensures isPlaying && gameStatus == Playing
      ensures currentPosition == startPosition && pathHistory == [startPosition]
      ensures currentInstructionIndex == 0
    {
      isPlaying, gameStatus := true, Playing;
      currentPosition := startPosition;
      pathHistory := [startPosition];
      currentInstructionIndex := 0;
      assert instructions[..0] == [];
      assert instructions[..1] == [instructions[0]];
    }

    /** `executeNextStep`: one tick. */
    method ExecuteNextStep() returns (scheduled: bool)
      requires Valid()
      modifies this
      ensures Valid()
      ensures unchanged(this`gridWidth, this`gridHeight, this`obstacleCount, this`startPosition,
                        this`endPosition, this`obstacles, this`instructions, this`drawn)
      // a tick that finds the game not playing does nothing
      ensures !old(isPlaying && gameStatus == Playing) ==> unchanged(this) && !scheduled
      // the cursor is past the last instruction: the game is judged
      ensures old(isPlaying && gameStatus == Playing && currentInstructionIndex >= |instructions|) ==>
                && !isPlaying && showResultModal && !scheduled
                && gameStatus == (if old(currentPosition) == endPosition then Won else Lost)
                && unchanged(this`currentPosition, this`pathHistory, this`currentInstructionIndex)
      // the current instruction is used up: the cursor moves on
      ensures old(isPlaying && gameStatus == Playing && currentInstructionIndex < |instructions| && !Moving()) ==>
                && currentInstructionIndex == old(currentInstructionIndex) + 1 && scheduled
                && unchanged(this`currentPosition, this`pathHistory, this`isPlaying, this`gameStatus,
                             this`showResultModal)
      // the next cell is off the board or an obstacle: lost, and the player stays put
      ensures old(Moving() && !IsFree(Board(), NextCell())) ==>
                && !isPlaying && gameStatus == Lost && showResultModal && !scheduled
                && unchanged(this`currentPosition, this`pathHistory, this`currentInstructionIndex)
      // otherwise the player moves one cell and the cell joins the history
      ensures old(Moving() && IsFree(Board(), NextCell())) ==>
                && currentPosition == old(NextCell()) && pathHistory == old(pathHistory) + [currentPosition]
                && scheduled
                && unchanged(this`currentInstructionIndex, this`isPlaying, this`gameStatus, this`showResultModal)
      // over a whole run: progress while playing, the reference outcome at the end
      ensures old(isPlaying && Tracking()) ==>
                && scheduled == isPlaying
                && (isPlaying ==> Tracking() && Remaining() < old(Remaining()))
                && (!isPlaying ==> Concluded())
    {
      if !isPlaying || gameStatus != Playing {
        scheduled := false;
        return;
      }
      if currentInstructionIndex >= |instructions| {
        Judge();
        scheduled := false;
        return;
      }
      var currentInstruction := instructions[currentInstructionIndex];
      var stepsCompleted := |pathHistory| - 1;
      var instructionStartStep := TotalSteps(instructions[..currentInstructionIndex]);
      var stepInCurrentInstruction := stepsCompleted - instructionStartStep;

      if stepInCurrentInstruction >= currentInstruction.steps {
        AdvanceCursor();
        scheduled := true;
        return;
      }

      var nextPos := GetNextPosition(currentPosition, currentInstruction.direction);
      if !IsValidPosition(nextPos, gridWidth, gridHeight) || Contains(obstacles, nextPos) {
        Lose();
        scheduled := false;
        return;
      }

      MoveTo(nextPos);
      scheduled := true;
    }

    /** The tick that finds the cursor past the last instruction judges the game. */
    method Judge()
      requires Valid() && isPlaying && gameStatus == Playing
      requires currentInstructionIndex >= |instructions|
      modifies this`isPlaying, this`gameStatus, this`showResultModal
      ensures Valid()
      ensures !isPlaying && showResultModal
      ensures gameStatus == (if currentPosition == endPosition then Won else Lost)
      ensures old(Tracking()) ==> Concluded()
    {
      ghost var tracked := Tracking();
      CheckGameEnd();
      if tracked {
        JudgedRunIsReference();
      }
    }

    /** The tick that finds the current instruction used up moves the cursor on. */
    method AdvanceCursor()
      requires Valid() && isPlaying && gameStatus == Playing
      requires currentInstructionIndex < |instructions| && !Moving()
      modifies this`currentInstructionIndex
      ensures Valid()
      ensures currentInstructionIndex == old(currentInstructionIndex) + 1
      ensures old(Tracking()) ==> Tracking() && Remaining() < old(Remaining())
    {
      ghost var tracked := Tracking();
      currentInstructionIndex := currentInstructionIndex + 1;
      if tracked {
        CursorAdvanceKeepsTracking();
      }
    }

    /** The tick whose next cell is off the board or an obstacle loses the game. */
    method Lose()
      requires Valid() && Moving() && !IsFree(Board(), NextCell())
      modifies this`isPlaying, this`gameStatus, this`showResultModal
      ensures Valid()
      ensures !isPlaying && gameStatus == Lost && showResultModal
      ensures old(Tracking()) ==> Concluded()
    {
      ghost var tracked := Tracking();
      if tracked {
        BlockedRunIsReference(NextCell());
      }
      isPlaying, gameStatus, showResultModal := false, Lost, true;
    }

    /** The tick whose next cell is free moves the player there. */
    method MoveTo(nextPos: Position)
      requires Valid() && Moving() && nextPos == NextCell() && IsFree(Board(), nextPos)
      modifies this`currentPosition, this`pathHistory
      ensures Valid()
      ensures currentPosition == nextPos && pathHistory == old(pathHistory) + [nextPos]
      ensures old(Tracking()) ==> Tracking() && Remaining() < old(Remaining())
    {
      ghost var tracked := Tracking();
      ghost var before := pathHistory;
      NextIsNeighbour(currentPosition, instructions[currentInstructionIndex].direction);
      currentPosition := nextPos;
      pathHistory := pathHistory + [nextPos];
      if tracked {
        MoveKeepsTracking(before);
      }
    }

    /** The cursor has just passed a used-up instruction. */
    lemma CursorAdvanceKeepsTracking()
      requires 1 <= currentInstructionIndex <= |instructions|
      requires var moves := Flatten(instructions);
               var taken := |pathHistory| - 1;
               var idx := currentInstructionIndex - 1;
               && 0 <= taken <= |moves|
               && (forall i :: 0 <= i < taken ==> pathHistory[i + 1] == GetNextPosition(pathHistory[i], moves[i]))
               && TotalSteps(instructions[..idx]) <= taken <= TotalSteps(instructions[..idx + 1])
               && taken - TotalSteps(instructions[..idx]) >= instructions[idx].steps
      ensures Tracking()
    {
      var idx := currentInstructionIndex;
      TotalStepsNext(instructions, idx - 1);
      if idx < |instructions| {
        TotalStepsGrows(instructions, idx, idx + 1);
      } else {
        assert instructions[..idx] == instructions;
      }
    }

    /** The player has just moved one cell inside the current instruction. */
    lemma MoveKeepsTracking(before: seq<Position>)
      requires currentInstructionIndex < |instructions|
      requires |before| >= 1 && pathHistory == before + [GetNextPosition(before[|before| - 1], instructions[currentInstructionIndex].direction)]
      requires var moves := Flatten(instructions);
               var taken := |before| - 1;
               var idx := currentInstructionIndex;
               && 0 <= taken <= |moves|
               && (forall i :: 0 <= i < taken ==> before[i + 1] == GetNextPosition(before[i], moves[i]))
               && TotalSteps(instructions[..idx]) <= taken
               && taken - TotalSteps(instructions[..idx]) < instructions[idx].steps
      ensures Tracking()
    {
      var idx := currentInstructionIndex;
      var taken := |before| - 1;
      TotalStepsNext(instructions, idx);
      FlattenAt(instructions, idx, taken);
      FlattenPrefix(instructions, idx + 1);
    }

    /** The cursor is past the end of a tracked run: every move was taken. */
    lemma JudgedRunIsReference()
      requires Valid() && Tracking()
      requires currentInstructionIndex >= |instructions|
      ensures Expected() == Run(pathHistory, false)
    {
      var moves := Flatten(instructions);
      var k := |pathHistory| - 1;
      WalkAlong(pathHistory, moves, Board());
      assert moves[k..] == [];
      assert pathHistory[..k] + [pathHistory[k]] == pathHistory;
    }

    /** The move of a tracked run was refused: the walk stops here too. */
    lemma BlockedRunIsReference(nextPos: Position)
      requires Valid() && Tracking()
      requires currentInstructionIndex < |instructions|
      requires StepInCurrentInstruction() < instructions[currentInstructionIndex].steps
      requires nextPos == NextCell() && !IsFree(Board(), nextPos)
      ensures Expected() == Run(pathHistory, true)
    {
      var moves := Flatten(instructions);
      var k := |pathHistory| - 1;
      TotalStepsNext(instructions, currentInstructionIndex);
      FlattenAt(instructions, currentInstructionIndex, k);
      WalkAlong(pathHistory, moves, Board());
      assert moves[k..][0] == moves[k];
      assert pathHistory[..k] + [pathHistory[k]] == pathHistory;
    }

    /** `checkGameEnd`: won exactly when the player stands on the end cell. */
    method CheckGameEnd()
      requires Valid()
      modifies this`isPlaying, this`gameStatus, this`showResultModal
      ensures Valid()
      ensures !isPlaying && showResultModal
      ensures gameStatus == (if currentPosition == endPosition then Won else Lost)
    {
      if PositionsEqual(currentPosition, endPosition) {
        isPlaying, gameStatus, showResultModal := false, Won, true;
      } else {
        isPlaying, gameStatus, showResultModal := false, Lost, true;
      }
    }

    /** `startGame` and then every tick it schedules, each timer callback being
        one iteration. A run always ends, and it ends as the reference walk does. */
    method Play()
      requires Valid()
      modifies this
      ensures Valid()
      ensures old(instructions) == [] ==> unchanged(this)
      ensures unchanged(this`gridWidth, this`gridHeight, this`obstacleCount, this`startPosition,
                        this`endPosition, this`obstacles, this`instructions, this`drawn)
      ensures old(instructions) != [] ==> Concluded()
    {
      var scheduled := StartGame();
      while scheduled
        invariant Valid()
        invariant unchanged(this`gridWidth, this`gridHeight, this`obstacleCount, this`startPosition,
                            this`endPosition, this`obstacles, this`instructions, this`drawn)
        invariant scheduled ==> isPlaying && gameStatus == Playing && Tracking()
        invariant !scheduled && old(instructions) == [] ==> unchanged(this)
        invariant !scheduled && old(instructions) != [] ==> Concluded()
        invariant old(instructions) != [] || !scheduled
        decreases if scheduled then Remaining() + 1 else 0
      {
        scheduled := ExecuteNextStep();
      }
    }

    /** `resetLevel`: back to the start cell with an empty queue; the level is kept. */
    method ResetLevel()
      modifies this`currentPosition, this`pathHistory, this`instructions, this`currentInstructionIndex,
               this`isPlaying, this`gameStatus, this`showResultModal
      ensures Valid()
      ensures currentPosition == startPosition && pathHistory == [startPosition]
      ensures instructions == [] && currentInstructionIndex == 0
      ensures !isPlaying && gameStatus == Idle && !showResultModal
    {
      currentPosition := startPosition;
      pathHistory := [startPosition];
      instructions, currentInstructionIndex := [], 0;
      isPlaying, gameStatus, showResultModal := false, Idle, false;
    }

    /** Replace the level by `level` and return to an idle store. */
    method InstallLevel(level: Level)
      modifies this`startPosition, this`endPosition, this`obstacles, this`currentPosition,
               this`pathHistory, this`instructions, this`currentInstructionIndex,
               this`isPlaying, this`gameStatus, this`showResultModal
      ensures Valid()
      ensures startPosition == level.startPosition && endPosition == level.endPosition
      ensures obstacles == level.obstacles
      ensures currentPosition == startPosition && pathHistory == [startPosition]
      ensures instructions == [] && currentInstructionIndex == 0
      ensures !isPlaying && gameStatus == Idle && !showResultModal
    {
      startPosition, endPosition, obstacles := level.startPosition, level.endPosition, level.obstacles;
      currentPosition := level.startPosition;
      pathHistory := [level.startPosition];
      instructions, currentInstructionIndex := [], 0;
      isPlaying, gameStatus, showResultModal := false, Idle, false;
    }

    /** `newLevel`: a fresh level of the current size, idle. Whatever the
        session was doing, it is replaced. */
    method NewLevel()
      modifies this`drawn, this`startPosition, this`endPosition, this`obstacles, this`currentPosition,
               this`pathHistory, this`instructions, this`currentInstructionIndex,
               this`isPlaying, this`gameStatus, this`showResultModal
      ensures Valid()
      ensures IsLevelDraw(gridWidth, gridHeight, obstacleCount, rng, old(drawn),
                          Level(startPosition, endPosition, obstacles), drawn)
      ensures gridWidth >= 1 && gridHeight >= 1 ==>
                LevelInBounds(Level(startPosition, endPosition, obstacles), gridWidth, gridHeight)
      ensures currentPosition == startPosition && pathHistory == [startPosition]
      ensures instructions == [] && currentInstructionIndex == 0
      ensures !isPlaying && gameStatus == Idle && !showResultModal
    {
      var level, next := CreateInitialLevel(gridWidth, gridHeight, obstacleCount, rng, drawn);
      drawn := next;
      InstallLevel(level);
      assert Level(startPosition, endPosition, obstacles) == level;
    }

    /** `updateGridConfig`: a new board size and obstacle count, a fresh level, idle. */
    method UpdateGridConfig(width: int, height: int, count: nat)
      modifies this`drawn, this`gridWidth, this`gridHeight, this`obstacleCount,
               this`startPosition, this`endPosition, this`obstacles, this`currentPosition,
               this`pathHistory, this`instructions, this`currentInstructionIndex,
               this`isPlaying, this`gameStatus, this`showResultModal
      ensures Valid()
      ensures gridWidth == width && gridHeight == height && obstacleCount == count
      ensures IsLevelDraw(width, height, count, rng, old(drawn),
                          Level(startPosition, endPosition, obstacles), drawn)
      ensures width >= 1 && height >= 1 ==>
                LevelInBounds(Level(startPosition, endPosition, obstacles), width, height)
      ensures currentPosition == startPosition && pathHistory == [startPosition]
      ensures instructions == [] && currentInstructionIndex == 0
      ensures !isPlaying && gameStatus == Idle && !showResultModal
    {
      gridWidth, gridHeight, obstacleCount := width, height, count;
      NewLevel();
    }

    /** `closeModal`. */
    method CloseModal()
      requires Valid()
      modifies this`showResultModal
      ensures Valid()
      ensures !showResultModal
    {
      showResultModal := false;
    }
  }
}
