# Snake grid simulation in Dafny

This project models the grid simulation at the heart of `snake_game.py`, a
pygame Snake game with three modes: Classic, AI Battle (a second snake that
steers itself with a breadth-first search toward the food) and Obstacle
Challenge (interior obstacle cells). The model covers:

- cells, the four directions with their unit deltas, and the 40 by 30 grid
  (module `Grid`);
- a snake's body, heading, score, liveness and collected power-ups, with
  `move`, `grow` and `check_collision` (module `Snakes`);
- the reversal guard of the keyboard handler (module `Steering`);
- the breadth-first search `bfs_path`, as a function `FindPath` and as a
  queue-and-visited-set method `BfsPath` proved equal to it (module
  `Pathfinder`);
- the AI's turn toward the second cell of the path, `ai_move` (module
  `AiControl`);
- the three spawners for food, power-ups and obstacles (module `Spawning`);
- the start of a round, the frame's steering, and one tick of `update`
  (module `Simulation`).

Random draws are modelled as choices. Each spawner picks any cell that passes
the game's own test. The two random gates of the power-up spawn and the kind
it draws are given as a `Luck` value, and the clock reading stamped on a
collected power-up is a parameter `now`. The rejection loops only end when a
passing cell exists, so each spawner requires one to exist.

The main results:

- `FindPath` returns a path exactly when the food can be reached. The path
  starts at the head and ends at the goal. It moves one unit step at a time
  and enters only open cells. It never repeats a cell. It is a shortest walk,
  and among the shortest walks it is the first in Up, Down, Left, Right order.
- The AI never reverses onto its neck, although `ai_move` has no reversal
  guard.
- The tick scores, grows, respawns the food and picks up power-ups exactly
  as `update` does, including its quirks. Eating is decided on the heads
  before the move. The food is respawned at most once per tick. A power-up
  spawn does not avoid the AI. The player's collision ends play and the AI's
  does not.

## Model

| member | source | states |
|---|---|---|
| Grid.StepInjective | snake_game.py:33-38 | different directions lead from a cell to different cells, and no direction leads back to the same cell |
| Snakes.Spawn | snake_game.py:63-71 | a new snake is one cell at the spawn point, heading right, with score 0, alive, without power-ups, and AI-steered exactly when asked to be |
| Snakes.Move | snake_game.py:73-81 | the new head is the old head plus the heading's delta; every later cell is the old cell one position earlier; the length grows by one exactly when growing; nothing but the body changes |
| Snakes.MoveLeavesNeckBehind | snake_game.py:73-81 | after a move of a snake at least two cells long, its second cell lies directly behind the head, opposite the heading |
| Snakes.Grow | snake_game.py:83-86 | the body keeps all its cells and gains a copy of its tail cell at the end |
| Snakes.MoveGrowIsGrowThenMove | snake_game.py:73-86 | moving while growing gives the same snake as growing by the tail and then moving without growth |
| Snakes.CheckCollision | snake_game.py:88-104 | a collision holds exactly when the head is outside the grid, equals a later body cell, or is an obstacle |
| Snakes.CollisionAfterMove | snake_game.py:73-104 | after a move, a collision holds exactly when the next cell is off the grid, an obstacle, or a body cell the move does not vacate |
| Snakes.SelfCollision | snake_game.py:73-104 | a snake that moves onto one of its cells other than the tail collides with itself |
| Snakes.MoveKeepsDistinct | snake_game.py:73-104 | a move that ends without collision keeps a body free of repeated cells |
| Steering.ChangeDirection | snake_game.py:446-453 | a key press is ignored exactly when it asks for the opposite of the heading, and adopted otherwise |
| Steering.ApplyRequests | snake_game.py:440-453 | the heading after a frame's key presses is the old heading or one of the requested directions |
| Steering.ApplyRequestsLast | snake_game.py:440-453 | the heading after a frame is determined press by press: the last press is checked by the guard against the heading the earlier presses left |
| Steering.TwoRequestsCanReverse | snake_game.py:440-453 | heading right, the presses Up then Left in one frame leave the snake heading left |
| Steering.LastRequestWins | snake_game.py:440-453 | when each press passes the guard against the heading the previous press left, the last press decides the heading |
| Pathfinder.Search | snake_game.py:136-155 | no contract of its own: the `while queue` loop as a function of the queue and the visited set; `SearchCorrect` states what it returns |
| Pathfinder.DirectionTo | snake_game.py:116-126 | for an adjacent cell, the chosen direction's delta leads from the head to that cell |
| Pathfinder.FindPath | snake_game.py:128-155 | a path is returned exactly when the goal is reachable over open cells; it leads from start to goal in unit steps through open cells, repeats no cell, is shortest, and is the first shortest walk in Up, Down, Left, Right expansion order |
| Pathfinder.BfsPath | snake_game.py:128-155 | the loop over a queue and a visited set returns the same result as the search function, with the same guarantees |
| Pathfinder.DownBeforeRight | snake_game.py:142-153 | on an empty 3 by 3 grid, the path from the corner to the centre goes Down first, because Down is expanded before Right |
| Pathfinder.SearchCorrect | snake_game.py:136-155 | from any queue and visited set satisfying the breadth-first invariant, the result is a best path when one is returned and the goal is unreachable when none is |
| Pathfinder.ExpandKeepsInv | snake_game.py:142-153 | appending the open, unvisited neighbours of the front entry keeps the breadth-first invariant and visits every open neighbour |
| Pathfinder.PopKeepsInv | snake_game.py:139-144 | popping a non-goal front entry whose neighbours are all visited keeps the breadth-first invariant |
| Pathfinder.ClosedTrap | snake_game.py:155 | when every visited cell has all its open neighbours visited, no walk from the start reaches an unvisited cell, so returning nothing is right |
| AiControl.AiMove | snake_game.py:106-126 | a non-AI snake is unchanged; with no path or with the head on the food the heading is kept; otherwise the new heading steps from the head to the second cell of the best path; nothing but the heading changes |
| AiControl.AiTurnIsOpen | snake_game.py:106-150 | when the AI turns, the cell ahead is inside the grid, not an obstacle and not one of its own cells |
| AiControl.AiNeverReverses | snake_game.py:106-126 | when the second body cell lies behind the head, the AI never turns to the opposite heading |
| AiControl.AiNeverReversesAfterMove | snake_game.py:73-126 | once the AI has moved and is at least two cells long, its search never turns it to the opposite heading, whatever the food and obstacles |
| Spawning.SpawnFood | snake_game.py:194-204 | the food lies on the grid, off the obstacles, off the player's body and off the AI's body, dead or alive |
| Spawning.SpawnPowerUp | snake_game.py:206-218 | when the chance gate fails nothing changes; otherwise a power-up of the drawn kind lies on the grid, off the player's body, off the food and off the obstacles |
| Spawning.PlaceObstacles | snake_game.py:225-233 | drawing n new cells one at a time from the candidates yields n distinct candidate cells |
| Spawning.SpawnObstacles | snake_game.py:220-234 | the level's obstacle count of distinct interior cells, none on the player's body and none on the food known at the time |
| Simulation.InitRound | snake_game.py:419-436 | a round starts at level 1 with the player at the centre, the AI at a quarter point in AI Battle only, twelve obstacles in Obstacle Challenge and none otherwise, obstacles that avoid the previous round's food, food on a free cell off the obstacles and the snakes, and no power-up |
| Simulation.Steer | snake_game.py:438-457 | the key presses change the player's heading and nothing else, to the old heading or a requested one; no press keeps the round as it was; a single press is ignored exactly when it asks for the opposite heading and adopted otherwise |
| Simulation.SteerLastPress | snake_game.py:440-453 | for a frame of several presses, the player's heading is the guard applied to the last press and the heading the earlier presses left |
| Simulation.StandardStart | snake_game.py:14-18 | the game's grid is 800/20 by 600/20 = 40 by 30 cells; the player starts at (20, 15) and the AI at (10, 7), both on the grid |
| Simulation.Update | snake_game.py:459-501 | no contract of its own: one call of `update`, staged as move, feed, offer, collect and collision check; the `Tick*` rows below state its behaviour |
| Simulation.Frame | snake_game.py:608-613 | no contract of its own: one pass of the play loop, the frame's key presses followed by one tick; `OneKeyNoReversal` states a property of it |
| Simulation.TickScores | snake_game.py:461-485 | the player gains 10 points, or 20 while holding Double Points, exactly when its head was on the food before the move; a living AI gains 10 exactly when its head was |
| Simulation.TickMoves | snake_game.py:461-469 | the player moves one cell along its heading and grows exactly when it eats; a living AI moves along the heading its search chose and grows exactly when it eats; a dead AI is left as it was |
| Simulation.TickFood | snake_game.py:472-485 | when anyone eats, the food is replaced once, by one draw against the bodies after the move, on a free cell that differs from the eaten one; otherwise it stays; obstacles and level never change |
| Simulation.FoodOffObstacles | snake_game.py:194-204 | a tick keeps the food off the obstacles |
| Simulation.FoodOnGrid | snake_game.py:472-485 | a tick keeps the food on the grid |
| Simulation.EatingIsLate | snake_game.py:461-469 | a player stepping onto the food (while the AI does not eat) ends the tick with its head on the food, unscored and ungrown, and eats on the next tick |
| Simulation.AiEatingIsLate | snake_game.py:461-469 | a living AI whose move lands on the food (while the player does not eat) ends the tick with its head on the food, unscored and ungrown, and eats on the next tick if still alive |
| Simulation.TickPickup | snake_game.py:487-490 | without a fresh spawn, a power-up under the player's new head is recorded with the time of collection and leaves the grid; otherwise power-ups are unchanged |
| Simulation.TickSpawnsPowerUp | snake_game.py:472-490 | after the player's meal with both gates passing, the grid holds a power-up of the drawn kind off the player, the new food and the obstacles, and the player collects nothing in that tick |
| Simulation.TickCollision | snake_game.py:492-501 | play stops exactly when the player's next cell is off the grid, an obstacle or a body cell not vacated; then the player is dead and the AI is not checked; otherwise a living AI dies exactly when its own move collides |
| Simulation.InvincibleStillDies | snake_game.py:492-496 | a player holding Invincibility still dies, and play stops, when its next cell is off the grid or an obstacle |
| Simulation.AiIgnoresPlayer | snake_game.py:465-469 | the AI's body, heading and score after a tick do not depend on the player |
| Simulation.TickAiBody | snake_game.py:465-469 | the AI is neither added nor removed by a tick, and leaves it with the body and heading of its own move |
| Simulation.OneKeyNoReversal | snake_game.py:446-453 | a frame with one key press never moves the player onto the cell behind its head |

## Left out

- Rendering, menus, instruction pages, the high-score screen and the game-over screen: these are display code.
- Event polling, the quit and escape keys, the main loop and the frame clock: these are input plumbing and pacing. Only the reversal guard of the key handler is modelled, as `ChangeDirection`, with the presses of one frame given as a sequence.
- Loading and saving the high-score file, and the high-score update on game over: file input and output.
- The probabilities of the random draws (0.2 and 0.3 for the power-up gates, uniform cells and kinds): the draws are choices, and the gate outcomes are inputs.
- The clock reading stored with a collected power-up: it is the parameter `now`.
- Colours, the speed multiplier and the power-up duration: no game logic reads them.
- Power-up effects: the in-game instructions promise faster movement, slower movement and invincibility (snake_game.py:376-379), but only Double Points has any effect in the code. Speed Boost, Slow Down and Invincibility are recorded when collected and never read. `InvincibleStillDies` shows that Invincibility does not prevent death.
- A full grid: the spawners' rejection loops never end when no cell passes the test. `SpawnFood`, `SpawnPowerUp`, `SpawnObstacles`, `Update` and `InitRound` require a passing cell to exist.
- Power-up expiry: the game never consults the stored timestamps, and neither does the model. Double Points applies whenever the kind has ever been collected.
- Levels: the game sets the level to 1 at the start of a round and never changes it, so an Obstacle Challenge round has twelve obstacles and the other modes have none. The in-game instructions promise more obstacles as the level increases (snake_game.py:364), which the code never does. `SpawnObstacles` takes any level.
- The mode numbers 1, 2 and 3 of the menu are the datatype `Mode`.
- Food on a snake: the food is kept off every snake when it is placed, but a snake's head, player or AI, can sit on the food for one tick before eating it (`EatingIsLate`, `AiEatingIsLate`). Across ticks the food stays on the grid and off the obstacles (`FoodOnGrid`, `FoodOffObstacles`), but not off the snakes.
- Reversal: the in-game instructions say the snake cannot reverse direction (snake_game.py:335-336). The key handler checks each press against the heading left by the previous press of the same frame, so two presses can reverse the snake (`TwoRequestsCanReverse`). The model follows the handler.
- Growth: `grow` adds a copy of the tail (snake_game.py:83-86), but the tick never calls it and moves with growth instead. `MoveGrowIsGrowThenMove` shows that the two give the same body.
