/**
 * Placing food, power-ups and obstacles. The game draws random cells until one
 * passes its test; here the drawn cell is any cell that passes the test, and the
 * random gates and the power-up kind are inputs. The draw loops only end when a
 * passing cell exists, which the preconditions require.
 */
module Spawning {
  import opened Wrappers
  import opened Grid
  import opened Snakes

  /** A power-up on the grid; its fixed duration is never consulted and is not kept. */
  datatype PowerUp = PowerUp(cell: Cell, kind: PowerUpKind)

  /** The food test: on the grid, off the player, off the AI snake (even a dead one), off the obstacles. */
  predicate FoodFree(g: Dims, player: Snake, ai: Option<Snake>, obstacles: set<Cell>, c: Cell)
  {
    g.Contains(c) && c !in player.body && (ai.Some? ==> c !in ai.value.body) && c !in obstacles
  }

  ghost function SpawnFood(g: Dims, player: Snake, ai: Option<Snake>, obstacles: set<Cell>): (food: Cell)
    requires exists c :: FoodFree(g, player, ai, obstacles, c)
    ensures g.Contains(food) && food !in obstacles
    ensures food !in player.body && (ai.Some? ==> food !in ai.value.body)
  {
    var c :| FoodFree(g, player, ai, obstacles, c);
    c
  }

  /** The power-up test: on the grid, off the player, not the food, off the obstacles. The AI body is not consulted. */
  predicate PowerUpFree(g: Dims, player: Snake, food: Cell, obstacles: set<Cell>, c: Cell)
  {
    g.Contains(c) && c !in player.body && c != food && c !in obstacles
  }

  /** On the grid, off a body and off the obstacles. */
  predicate Vacant(g: Dims, body: seq<Cell>, obstacles: set<Cell>, c: Cell)
  {
    g.Contains(c) && c !in body && c !in obstacles
  }

  /**
   * The power-up spawner: when its own chance roll passes, a power-up of the
   * given kind on a free cell replaces whatever power-up was on the grid;
   * otherwise the grid keeps its current power-up. Two vacant cells are needed
   * because the food occupies one of them.
   */
  ghost function SpawnPowerUp(g: Dims, player: Snake, food: Cell, obstacles: set<Cell>,
                              chance: bool, kind: PowerUpKind, current: Option<PowerUp>): (p: Option<PowerUp>)
    requires chance ==> exists c, d :: c != d && Vacant(g, player.body, obstacles, c) && Vacant(g, player.body, obstacles, d)
    ensures !chance ==> p == current
    ensures chance ==> p.Some? && p.value.kind == kind
    ensures chance ==> g.Contains(p.value.cell) && p.value.cell !in player.body
    ensures chance ==> p.value.cell != food && p.value.cell !in obstacles
  {
    if chance then
      var c, d :| c != d && Vacant(g, player.body, obstacles, c) && Vacant(g, player.body, obstacles, d);
      var cell := if c != food then c else d;
      assert PowerUpFree(g, player, food, obstacles, cell);
      var e :| PowerUpFree(g, player, food, obstacles, e);
      Some(PowerUp(e, kind))
    else
      current
  }

  /** `10 + 2 * level` obstacles; a count below one places none. */
  function ObstacleCount(level: int): (n: nat)
    ensures level >= -5 ==> n == 10 + 2 * level
    ensures level < -5 ==> n == 0
  {
    if 10 + 2 * level > 0 then 10 + 2 * level else 0
  }

  /** Interior cells off the player's body and not the food cell known at the time. */
  function ObstacleRoom(g: Dims, playerBody: seq<Cell>, food: Option<Cell>): (room: set<Cell>)
    ensures forall c :: c in room <==> g.InInterior(c) && c !in playerBody && food != Some(c)
  {
    set c | c in InteriorCells(g) && c !in playerBody && food != Some(c)
  }

  /** `n` distinct cells of `room`, drawn one at a time, each one new. */
  ghost function PlaceObstacles(room: set<Cell>, n: nat): (obstacles: set<Cell>)
    requires n <= |room|
    ensures obstacles <= room && |obstacles| == n
  {
    if n == 0 then {}
    else
      var placed := PlaceObstacles(room, n - 1);
      assert room - placed != {};
      var c :| c in room && c !in placed;
      placed + {c}
  }

  /**
   * The obstacle set for a level: the required count of distinct interior
   * cells, none on the player's body and none on the food cell known when the
   * obstacles are placed (at the start of a round that is the previous round's
   * food, or none).
   */
  ghost function SpawnObstacles(g: Dims, level: int, playerBody: seq<Cell>, food: Option<Cell>): (obstacles: set<Cell>)
    requires ObstacleCount(level) <= |ObstacleRoom(g, playerBody, food)|
    ensures |obstacles| == ObstacleCount(level)
    ensures forall c :: c in obstacles ==> g.InInterior(c) && c !in playerBody && food != Some(c)
  {
    PlaceObstacles(ObstacleRoom(g, playerBody, food), ObstacleCount(level))
  }

}
