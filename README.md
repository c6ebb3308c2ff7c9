# Pathfinding and binary-routing game cores, in Dafny

This project models the game logic of two small browser games and proves
properties of it.

**Pathfinding game** (modules `Grid` and `PathfindingStore`).
- A level is a `gridWidth x gridHeight` board. It has a start cell, an end cell and randomly placed obstacles.
- The player builds a queue of instructions (a direction and a number of steps). A new instruction in the direction of the last one is merged into it.
- When the game starts, an executor moves the player one cell per timer tick.
- The game is lost at the first move off the board or onto an obstacle.
- Otherwise, once the queue runs out, the game is won exactly when the player stands on the end cell.

`Grid` models the grid utilities: bounds, unit moves, cell equality, Manhattan distance, and the bounded rejection sampler that places the start, the end and the obstacles. `Math.random` is an injected stream `rng: nat -> Unit` of reals in [0, 1). The sampler reads two draws per attempt (x, then y) from a cursor and returns how many attempts it made.

`PathfindingStore` models the session store as the class `Store`, one method per store action. Each timer callback of the executor is one call of `Store.ExecuteNextStep`. `Store.Play` is the driver that keeps calling it while a next tick is scheduled. A run is specified by a reference semantics, `Walk`: the queue flattened to single moves, followed from the start cell until a move is refused. The store is proved to follow it, and `Play` is proved to terminate in the reference outcome.

**Binary routing game** (module `RamiStore`).
- Four row toggles steer a marble down a perfect binary tree of 15 nodes, stored level by level. The children of node i are 2i+1 and 2i+2.
- The marble ends in one of 16 bins.
- `GameStore` holds the store. Its `StartGame` loop builds the 12-point fall path and records the bin. `CalculatePreviewPath` builds the 5-point preview.
- Both loops are proved equal to pure functions (`FallPath`, `PreviewPath`, `BinOf`).
- The bin is proved to be the rows read as a 4-bit binary number, first row most significant. The mapping from rows to bins is proved to be a bijection.
- Waypoints are symbolic (`NodeTop(i)`, `BinCenter(b)`, ...) rather than drawing coordinates.

## Model

| member | source | states |
|---|---|---|
| Grid.IsValidPosition | src/features/PathfindingGame/lib/pathfinding-utils.ts:16-22 | the bounds check of a cell; only a board at least 1 x 1 has a cell that passes it (`ValidIffCell` states it exactly) |
| Grid.ValidIffCell | src/features/PathfindingGame/lib/pathfinding-utils.ts:16-22 | a cell passes the bounds check exactly when it is one of the cells (x, y) with 0 <= x < width and 0 <= y < height |
| Grid.GetNextPosition | src/features/PathfindingGame/lib/pathfinding-utils.ts:27-38 | the four moves of the switch; every move leaves the current cell (`NextIsNeighbour` states each move exactly) |
| Grid.NextIsNeighbour | src/features/PathfindingGame/lib/pathfinding-utils.ts:27-38 | a move reaches a cell at Manhattan distance 1; up/down keep x, left/right keep y; only up and left decrease a coordinate |
| Grid.StepBack | src/features/PathfindingGame/lib/pathfinding-utils.ts:27-38 | a move followed by the opposite move returns to the starting cell |
| Grid.StepDirection | src/features/PathfindingGame/lib/pathfinding-utils.ts:27-38 | when a direction from one cell to another is found, moving in it from the first cell reaches the second |
| Grid.AdjacentIffOneMove | src/features/PathfindingGame/lib/pathfinding-utils.ts:27-38 | two cells are at Manhattan distance 1 exactly when one move joins them, and that move is unique |
| Grid.PositionsEqual | src/features/PathfindingGame/lib/pathfinding-utils.ts:43-45 | true exactly when the two cells are the same cell |
| Grid.PositionsEqualIsEquivalence | src/features/PathfindingGame/lib/pathfinding-utils.ts:43-45 | cell equality is reflexive, symmetric and transitive |
| Grid.ManhattanDistance | src/features/PathfindingGame/lib/pathfinding-utils.ts:98-100 | the distance is a natural number, zero exactly when the cells are equal |
| Grid.ManhattanIsMetric | src/features/PathfindingGame/lib/pathfinding-utils.ts:98-100 | the distance is symmetric and satisfies the triangle inequality |
| Grid.Contains | src/features/PathfindingGame/lib/pathfinding-utils.ts:66-67 | the `some(positionsEqual)` scan finds a cell exactly when it is in the list |
| Grid.Coord | src/features/PathfindingGame/lib/pathfinding-utils.ts:60-63 | `Math.floor(r * n)`: the largest integer not above r * n |
| Grid.CoordInRange | src/features/PathfindingGame/lib/pathfinding-utils.ts:60-63 | floor(r * n) for a draw r in [0, 1) and n >= 1 lies in 0..n-1 |
| Grid.DrawInBounds | src/features/PathfindingGame/lib/pathfinding-utils.ts:59-63 | on a board at least 1 x 1, every drawn cell is on the board |
| Grid.SampleIsDeterministic | src/features/PathfindingGame/lib/pathfinding-utils.ts:55-70 | for a given stream and cursor, only one cell and attempt count fit the sampler's description |
| Grid.SamplerGivesUpOnFullBoard | src/features/PathfindingGame/lib/pathfinding-utils.ts:65-68 | on a 1 x 1 board whose only cell is excluded, the sampler makes all 100 attempts and returns the excluded cell |
| Grid.GenerateRandomPosition | src/features/PathfindingGame/lib/pathfinding-utils.ts:50-71 | at most 100 attempts; every attempt but the last drew an excluded cell; a result returned before the 100th attempt is not excluded; the result is on the board when the board is at least 1 x 1 |
| Grid.GenerateObstacles | src/features/PathfindingGame/lib/pathfinding-utils.ts:76-93 | exactly `count` obstacles; each is a sample against the exclusions plus every earlier obstacle, read from the stream where the previous one stopped; all are on the board when the board is at least 1 x 1 |
| Grid.ObstacleAvoidsWhenSampled | src/features/PathfindingGame/lib/pathfinding-utils.ts:82-92 | an obstacle whose sampler stopped before the 100th attempt avoids the exclusions and every earlier obstacle |
| PathfindingStore.Appended | src/features/PathfindingGame/lib/pathfinding-game-store.ts:86-105 | same direction as the last instruction: same length, last instruction grows by `steps`, the rest unchanged; otherwise `{direction, steps}` is appended; the queue's moves gain exactly `steps` moves in `direction`; total steps grow by `steps`; no two neighbouring instructions share a direction if that held before |
| PathfindingStore.RemovedLast | src/features/PathfindingGame/lib/pathfinding-game-store.ts:110-115 | the whole last instruction is dropped; an empty queue stays empty |
| PathfindingStore.RemoveUndoesNewInstruction | src/features/PathfindingGame/lib/pathfinding-game-store.ts:86-115 | adding an instruction in a new direction and then removing the last one restores the queue |
| PathfindingStore.MergeFromEmpty | src/features/PathfindingGame/lib/pathfinding-game-store.ts:89-103 | from an empty queue, two taps in one direction make one instruction whose steps are the sum; taps in two different directions make two instructions, in order |
| PathfindingStore.TotalSteps | src/features/PathfindingGame/lib/pathfinding-game-store.ts:166-168 | the `reduce` sum of the steps of a queue; it includes the first instruction's steps |
| PathfindingStore.TotalStepsBounds | src/features/PathfindingGame/lib/pathfinding-game-store.ts:166-168 | no instruction has more steps than the sum, and the sum is 0 exactly when every instruction has 0 steps |
| PathfindingStore.TotalStepsNext | src/features/PathfindingGame/lib/pathfinding-game-store.ts:166-168 | the steps before instruction i+1 are the steps before instruction i plus its own |
| PathfindingStore.FlattenAt | src/features/PathfindingGame/lib/pathfinding-game-store.ts:164-169 | move k of the queue belongs to the instruction whose step range holds k |
| PathfindingStore.Walk | src/features/PathfindingGame/lib/pathfinding-game-store.ts:151-216 | the reference run starts at the start cell and visits at most one new cell per queued move |
| PathfindingStore.WalkFollowsMoves | src/features/PathfindingGame/lib/pathfinding-game-store.ts:184-210 | each cell of the reference run is the previous one moved by the next queued move and is free; an unrefused run takes every move; a refused run stops exactly before a move to a cell off the board or on an obstacle |
| PathfindingStore.WalkAlong | src/features/PathfindingGame/lib/pathfinding-game-store.ts:165-210 | a history that follows the queued moves through free cells is a prefix of the reference run, which continues from its last cell |
| PathfindingStore.WalkRightAlongRow | src/features/PathfindingGame/lib/pathfinding-game-store.ts:185-210 | on a board without obstacles, k moves right from (x, y) visit (x, y), (x + 1, y), ... and are refused exactly when x + k reaches past the board's width |
| PathfindingStore.ExecutorWinExample | src/features/PathfindingGame/lib/pathfinding-game-store.ts:151-239 | three moves right on an empty 4 x 4 board go from (0, 0) to (3, 0) without a refusal |
| PathfindingStore.ExecutorBorderExample | src/features/PathfindingGame/lib/pathfinding-game-store.ts:185-203 | five moves right on an empty 4 x 4 board stop at (3, 0), refused at the border |
| PathfindingStore.CreateInitialLevel | src/features/PathfindingGame/lib/pathfinding-game-store.ts:40-62 | the start is sampled freely, the end avoiding the start, then `obstacleCount` obstacles avoiding both, each sampler continuing the stream; everything is on the board when the board is at least 1 x 1 |
| PathfindingStore.LevelDistinctWhenSampled | src/features/PathfindingGame/lib/pathfinding-game-store.ts:48-54 | when no sampler had to give up, start, end and obstacles are pairwise distinct |
| PathfindingStore.Store.constructor | src/features/PathfindingGame/lib/pathfinding-game-store.ts:64-77 | default 8 x 8 board with 8 obstacles, a drawn level, the player on the start cell, empty queue, idle, no modal |
| PathfindingStore.Store.AddInstruction | src/features/PathfindingGame/lib/pathfinding-game-store.ts:86-105 | the queue becomes `Appended(queue, direction, steps)`; the store's invariant is kept, and so is the run accounting while the cursor is inside the queue |
| PathfindingStore.Store.KeepsTracking | src/features/PathfindingGame/lib/pathfinding-game-store.ts:86-105 | appending to the queue keeps the history on the queue's moves and the cursor on the instruction that holds the moves taken |
| PathfindingStore.Store.RemoveLastInstruction | src/features/PathfindingGame/lib/pathfinding-game-store.ts:110-115 | the queue becomes `RemovedLast(queue)` and nothing else changes |
| PathfindingStore.Store.ClearInstructions | src/features/PathfindingGame/lib/pathfinding-game-store.ts:120-126 | the queue is emptied and the cursor set to 0 |
| PathfindingStore.Store.StartGame | src/features/PathfindingGame/lib/pathfinding-game-store.ts:131-146 | nothing with an empty queue; otherwise a run from the start cell begins and exactly one tick runs: a first instruction of 0 steps moves the cursor to 1; a first move to a free cell makes the history `[start, next]`, still playing with the modal as it was; a first move off the board or onto an obstacle loses with the player on the start cell and the modal shown; the run accounting is in place while playing, and a concluded run has the reference outcome |
| PathfindingStore.Store.BeginRun | src/features/PathfindingGame/lib/pathfinding-game-store.ts:135-142 | playing, on the start cell, history `[start]`, cursor 0, and the run accounting holds from the outset |
| PathfindingStore.Store.ExecuteNextStep | src/features/PathfindingGame/lib/pathfinding-game-store.ts:151-216 | no-op unless playing; past the last instruction: won exactly on the end cell, else lost, modal shown; a used-up instruction advances the cursor; a move off the board or onto an obstacle loses with the player left in place; a free move appends exactly the next cell; over a tracked run each tick keeps the run accounting and decreases the ticks left, and a finished run ends as the reference walk |
| PathfindingStore.Store.Judge | src/features/PathfindingGame/lib/pathfinding-game-store.ts:156-162 | past the last instruction the game is judged, and in a tracked run the history is the whole reference run with its verdict |
| PathfindingStore.Store.AdvanceCursor | src/features/PathfindingGame/lib/pathfinding-game-store.ts:171-182 | a used-up instruction moves the cursor on by one, keeping the run accounting and decreasing the ticks left |
| PathfindingStore.Store.Lose | src/features/PathfindingGame/lib/pathfinding-game-store.ts:190-203 | a refused move ends the game lost with the modal shown, and in a tracked run the history is the refused reference run |
| PathfindingStore.Store.MoveTo | src/features/PathfindingGame/lib/pathfinding-game-store.ts:205-210 | a free move sets the player on the next cell and appends exactly it to the history, keeping the run accounting and decreasing the ticks left |
| PathfindingStore.Store.CursorAdvanceKeepsTracking | src/features/PathfindingGame/lib/pathfinding-game-store.ts:172-176 | after passing a used-up instruction, the moves taken still lie in the new cursor's step range, or all are taken at the end of the queue |
| PathfindingStore.Store.MoveKeepsTracking | src/features/PathfindingGame/lib/pathfinding-game-store.ts:206-210 | the cell added by a move is the next queued move from the previous cell, and the step count stays inside the current instruction |
| PathfindingStore.Store.JudgedRunIsReference | src/features/PathfindingGame/lib/pathfinding-game-store.ts:156-162 | when the cursor passes the end of a tracked run, every queued move was taken and the history is the whole unrefused reference run |
| PathfindingStore.Store.BlockedRunIsReference | src/features/PathfindingGame/lib/pathfinding-game-store.ts:185-203 | when a tracked run's move is refused, the reference run is refused at the same point with the same history |
| PathfindingStore.Store.CheckGameEnd | src/features/PathfindingGame/lib/pathfinding-game-store.ts:221-239 | won exactly when the player stands on the end cell, else lost; not playing; modal shown |
| PathfindingStore.Store.Play | src/features/PathfindingGame/lib/pathfinding-game-store.ts:131-216 | start plus every scheduled tick always terminates; with a non-empty queue the store ends concluded: history equal to the reference run, status its verdict, modal shown |
| PathfindingStore.Store.ResetLevel | src/features/PathfindingGame/lib/pathfinding-game-store.ts:244-256 | player back on the start cell, history `[start]`, empty queue, cursor 0, idle, no modal; board, start, end and obstacles kept |
| PathfindingStore.Store.InstallLevel | src/features/PathfindingGame/lib/pathfinding-game-store.ts:269-278 | the level is replaced and the session returns to idle with history `[start]`, empty queue and cursor 0 |
| PathfindingStore.Store.NewLevel | src/features/PathfindingGame/lib/pathfinding-game-store.ts:261-279 | a level drawn for the current size and obstacle count from the stream, then idle with history `[start]`, empty queue, cursor 0, no modal |
| PathfindingStore.Store.UpdateGridConfig | src/features/PathfindingGame/lib/pathfinding-game-store.ts:294-310 | the new size and count are stored, a level is drawn for them, then idle with history `[start]`, empty queue, cursor 0, no modal |
| PathfindingStore.Store.CloseModal | src/features/PathfindingGame/lib/pathfinding-game-store.ts:284-289 | the modal is hidden |
| RamiStore.BinOf | src/features/RamiGame/lib/rami-game-store.ts:78-86 | the bin index computed from the level-3 node and the last row is one of the 16 bins |
| RamiStore.NodeAtIsValue | src/features/RamiGame/lib/rami-game-store.ts:65-77 | the node after L rows is 2^L - 1 plus the first L rows read as a binary number |
| RamiStore.NodeLevelRange | src/features/RamiGame/lib/rami-game-store.ts:65-77 | the node after L rows lies in [2^L - 1, 2^(L+1) - 2], so in [7, 14] after three rows |
| RamiStore.WalkGoesToChild | src/features/RamiGame/lib/rami-game-store.ts:69 | each step goes to a child 2i+1 or 2i+2 of the current node, whose parent is the current node |
| RamiStore.BinIsValue | src/features/RamiGame/lib/rami-game-store.ts:78-86 | the bin equals 8*b0 + 4*b1 + 2*b2 + b3, the four rows as a binary number, lies in 0..15, and is one more tree step counted from the first bin |
| RamiStore.RowsForBin | src/features/RamiGame/lib/rami-game-store.ts:78-86 | every bin has a four-row setting |
| RamiStore.BinRoundTrip | src/features/RamiGame/lib/rami-game-store.ts:78-86 | the rows of a bin lead to that bin, and the bin of a setting gives that setting back |
| RamiStore.BinInjective | src/features/RamiGame/lib/rami-game-store.ts:78-86 | two settings lead to the same bin exactly when they are equal |
| RamiStore.ToggleShiftsBin | src/features/RamiGame/lib/rami-game-store.ts:78-86 | flipping row L moves the bin by 2^(3-L): up when the row was off, down when it was on |
| RamiStore.BinExamples | src/features/RamiGame/lib/rami-game-store.ts:78-86 | all rows off give bin 0, all on give bin 15, on-off-on-off gives bin 10 |
| RamiStore.GetLevel | src/features/RamiGame/lib/rami-game-store.ts:25-30 | every index gets a level 0..3 |
| RamiStore.GetLevelIsTreeLevel | src/features/RamiGame/lib/rami-game-store.ts:25-30 | for a node 0..14, the level is L exactly when 2^L - 1 <= index <= 2^(L+1) - 2 |
| RamiStore.LevelsOfNodes | src/features/RamiGame/lib/rami-game-store.ts:25-30 | the level ranges hold for every node and level at once |
| RamiStore.VisitedNodeLevel | src/features/RamiGame/lib/rami-game-store.ts:25-30 | the node visited after L rows is a tree node whose level is L |
| RamiStore.VisitedNodeLevels | src/features/RamiGame/lib/rami-game-store.ts:25-30 | the visited node of every level is a tree node at that level |
| RamiStore.FallFollowsPreview | src/features/RamiGame/lib/rami-game-store.ts:48-88 | the fall has 12 points and the preview 5; they pass the same nodes in the same order and end in the same bin |
| RamiStore.PreviewDescends | src/features/RamiGame/lib/rami-game-store.ts:148-165 | each preview node is a child of the previous one, and the bin hangs under the last node (bins 2j and 2j+1 under leaf 7+j) |
| RamiStore.GameStore.constructor | src/features/RamiGame/lib/rami-game-store.ts:14-22 | all rows off, no path, no bin, nothing playing or shown |
| RamiStore.GameStore.ToggleRow | src/features/RamiGame/lib/rami-game-store.ts:34-41 | locked while playing; otherwise flips exactly row `level` |
| RamiStore.GameStore.StartGame | src/features/RamiGame/lib/rami-game-store.ts:43-96 | ignored while playing; otherwise the path becomes the fall for the current rows, the target bin their bin, playing starts and the modal is hidden; rows and toggles unchanged |
| RamiStore.GameStore.FinishGame | src/features/RamiGame/lib/rami-game-store.ts:98-104 | not playing, modal shown |
| RamiStore.GameStore.ResetGame | src/features/RamiGame/lib/rami-game-store.ts:106-111 | all four rows off, nothing else changed |
| RamiStore.GameStore.CloseModal | src/features/RamiGame/lib/rami-game-store.ts:113-115 | the modal is hidden |
| RamiStore.GameStore.ToggleHelp | src/features/RamiGame/lib/rami-game-store.ts:117-119 | the help flag is flipped |
| RamiStore.GameStore.TogglePathPreview | src/features/RamiGame/lib/rami-game-store.ts:121-126 | the preview flag is flipped |
| RamiStore.GameStore.GetNodeStates | src/features/RamiGame/lib/rami-game-store.ts:130-133 | 15 flags; every node of level L shows row L, so every visited node shows the row that steers it |
| RamiStore.GameStore.CalculatePreviewPath | src/features/RamiGame/lib/rami-game-store.ts:136-168 | the points are the preview path of the current rows |

## Left out

- Rendering is not modelled: the React and three.js components, the camera and the marble physics.
- `getNodePosition` and `getBinPosition` are floating-point layout. Waypoints name the node or bin they belong to (`NodeTop(i)`, `BinCenter(b)`, ...), not coordinates.
- `Math.random` is not modelled. The draws are an injected stream of reals in [0, 1). `Math.floor(r * n)` is computed over exact reals, so floating-point rounding of the product is not modelled.
- The 300 ms and 400 ms `setTimeout` delays are not modelled. Each timer callback is one call of `ExecuteNextStep`, and `Play` runs them in order. The code has no cancellation of scheduled ticks. A stale tick is stopped only by the `isPlaying`/status guard, which the model has.
- The `@tanstack/store` subscription machinery is not modelled. Each `setState` is applied in place, in program order.
- `getDirectionLabel` and `getDirectionArrow` are display strings only and are not modelled.
- The legacy copy of the routing game under `src/components/game` is not modelled.
- JavaScript numbers are modelled as unbounded integers. Instruction steps and the obstacle count are natural numbers. Board sizes are any integers, and the bounds results are stated for sizes of at least 1.
- Store.ResetLevel: follows the code, which empties the instruction queue on reset. The written design says that only a new level clears the queue.
- Store.AddInstruction: the run accounting is kept only while the cursor is inside the queue. The store does not guard queue edits during play; the interface disables them instead.
- Store.ExecuteNextStep: the whole-run guarantees (progress, and the reference outcome at the end) are stated for ticks of a run whose accounting holds, that is, a run begun by `StartGame`.
- Store.RemoveLastInstruction, Store.ClearInstructions: edits during play can leave the run accounting broken. Only `Valid` is kept, which matches the code's lack of a guard.
- GameStore.ToggleRow: requires `level < 4`. The only callers pass a row 0..3. In JavaScript a larger index would grow the array.
- GameStore.GetNodeStates: requires four rows. Every action keeps exactly four.
