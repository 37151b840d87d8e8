/**
 * One round of play: the state the game keeps between frames, the start of a
 * round, the steering applied from key presses, and the update that advances
 * both snakes by one cell and settles eating, power-ups and collisions.
 */
module Simulation {
  import opened Wrappers
  import opened Grid
  import opened Snakes
  import opened Steering
  import opened Pathfinder
  import opened AiControl
  import opened Spawning

  /** The three game modes of the menu. */
  datatype Mode = Classic | AiBattle | ObstacleChallenge

  /** Everything a tick reads and writes. The level is set when a round starts and never changes. */
  datatype Round = Round(
    player: Snake,
    ai: Option<Snake>,
    food: Cell,
    powerUp: Option<PowerUp>,
    obstacles: set<Cell>,
    level: int)

  /**
   * The outcomes of the random draws of one tick: the first power-up gate
   * in the update, the spawner's own chance gate, and the kind it would pick.
   */
  datatype Luck = Luck(powerUpRoll: bool, powerUpChance: bool, kind: PowerUpKind)

  /** The round after a tick, and whether play goes on. */
  datatype Tick = Tick(round: Round, running: bool)

  /** An AI snake that still takes part: present and alive. */
  predicate AiActive(r: Round)
  {
    r.ai.Some? && r.ai.value.alive
  }

  /** Eating is decided on the heads before the move. */
  predicate PlayerEats(r: Round)
  {
    r.player.Head() == r.food
  }

  predicate AiEats(r: Round)
  {
    AiActive(r) && r.ai.value.Head() == r.food
  }

  /** The AI snake after steering toward the current food; the player is not consulted. */
  function AiSteered(g: Dims, r: Round): Snake
    requires r.ai.Some?
  {
    AiMove(r.ai.value, r.food, g, r.obstacles)
  }

  /** Both snakes moved one cell, each growing when it eats; a dead AI stays put. */
  function Advance(g: Dims, r: Round): Round
  {
    var player := Move(r.player, PlayerEats(r));
    if AiActive(r) then r.(player := player, ai := Some(Move(AiSteered(g, r), AiEats(r))))
    else r.(player := player)
  }

  /** Points for the player's meal: doubled while Double Points has ever been collected. */
  function Points(s: Snake): int
  {
    if DoublePoints in s.powerUps then 20 else 10
  }

  /** A free cell for the food exists whenever someone eats. */
  ghost predicate FoodRoom(g: Dims, r: Round)
  {
    PlayerEats(r) || AiEats(r) ==> exists c :: FoodFree(g, Advance(g, r).player, Advance(g, r).ai, r.obstacles, c)
  }

  /**
   * The draws of the tick can succeed: a free cell for the food when anyone
   * eats, and two vacant cells for the power-up when both gates pass.
   */
  ghost predicate Roomy(g: Dims, r: Round, luck: Luck)
  {
    var body := Advance(g, r).player.body;
    FoodRoom(g, r) &&
    (PlayerEats(r) && luck.powerUpRoll && luck.powerUpChance ==>
      exists c, d :: c != d && Vacant(g, body, r.obstacles, c) && Vacant(g, body, r.obstacles, d))
  }

  /**
   * Scoring after the move, in the order the game does it: the player's
   * points and one new food if it ate, then the AI's points and a new food
   * only if the AI alone ate. Both draws test the same bodies, so one draw
   * stands for whichever happens.
   */
  ghost function Feed(g: Dims, r: Round): Round
    requires FoodRoom(g, r)
  {
    var a := Advance(g, r);
    var player := if PlayerEats(r) then a.player.(score := a.player.score + Points(r.player)) else a.player;
    var ai := if AiEats(r) then Some(a.ai.value.(score := a.ai.value.score + 10)) else a.ai;
    var food := if PlayerEats(r) || AiEats(r) then SpawnFood(g, a.player, a.ai, r.obstacles) else r.food;
    a.(player := player, ai := ai, food := food)
  }

  /** The power-up draw, made only after the player's meal and when the first gate passes. */
  ghost function Offer(g: Dims, r: Round, luck: Luck): Round
    requires Roomy(g, r, luck)
  {
    var f := Feed(g, r);
    if PlayerEats(r) && luck.powerUpRoll then
      f.(powerUp := SpawnPowerUp(g, f.player, f.food, r.obstacles, luck.powerUpChance, luck.kind, f.powerUp))
    else f
  }

  /** A power-up under the player's new head is collected, stamped with `now`. */
  ghost function Collect(g: Dims, r: Round, luck: Luck, now: int): Round
    requires Roomy(g, r, luck)
  {
    var o := Offer(g, r, luck);
    if o.powerUp.Some? && o.player.Head() == o.powerUp.value.cell then
      o.(player := o.player.(powerUps := o.player.powerUps[o.powerUp.value.kind := now]), powerUp := None)
    else o
  }

  /**
   * One tick: move, score and respawn the food once, maybe spawn a power-up,
   * pick up a power-up under the new head, then check the player (ending
   * play) and, only if it survived, the AI.
   */
  ghost function Update(g: Dims, r: Round, luck: Luck, now: int): Tick
    requires Roomy(g, r, luck)
  {
    var c := Collect(g, r, luck, now);
    if CheckCollision(c.player, g, r.obstacles) then
      Tick(c.(player := c.player.(alive := false)), false)
    else if AiActive(r) && CheckCollision(c.ai.value, g, r.obstacles) then
      Tick(c.(ai := Some(c.ai.value.(alive := false))), true)
    else
      Tick(c, true)
  }

  /** The frame's key presses applied to the player's heading; nothing else changes. */
  function Steer(r: Round, requests: seq<Direction>): (s: Round)
    ensures s == r.(player := r.player.(direction := s.player.direction))
    ensures s.player.direction == r.player.direction || s.player.direction in requests
    ensures requests == [] ==> s == r
    ensures |requests| == 1 ==> s.player.direction == ChangeDirection(r.player.direction, requests[0])
  {
    r.(player := r.player.(direction := ApplyRequests(r.player.direction, requests)))
  }

  /**
   * Steering is press by press: the frame's last press is checked against
   * the heading left by the presses before it.
   */
  lemma {:induction false} SteerLastPress(r: Round, requests: seq<Direction>, d: Direction)
    ensures Steer(r, requests + [d]).player.direction == ChangeDirection(Steer(r, requests).player.direction, d)
  {
    ApplyRequestsLast(r.player.direction, requests, d);
  }

  /** A frame of play: the key presses, then one tick. */
  ghost function Frame(g: Dims, r: Round, requests: seq<Direction>, luck: Luck, now: int): Tick
    requires Roomy(g, Steer(r, requests), luck)
  {
    Update(g, Steer(r, requests), luck, now)
  }

  /** The player at the centre of the grid. */
  function StartPlayer(g: Dims): Snake
  {
    Spawn(g.width / 2, g.height / 2, false)
  }

  /** The AI at a quarter of the grid, in AI Battle only. */
  function StartAi(g: Dims, mode: Mode): Option<Snake>
  {
    if mode == AiBattle then Some(Spawn(g.width / 4, g.height / 4, true)) else None
  }

  /**
   * On the game's 40 by 30 grid the player starts at (20, 15) and the AI of
   * AI Battle at (10, 7).
   */
  lemma {:induction false} StandardStart()
    ensures Standard == Dims(40, 30)
    ensures StartPlayer(Standard).Head() == Cell(20, 15) && Standard.Contains(Cell(20, 15))
    ensures StartAi(Standard, AiBattle).Some? && StartAi(Standard, AiBattle).value.Head() == Cell(10, 7)
    ensures Standard.Contains(Cell(10, 7))
  {
  }

  /**
   * The draws of the round's start can succeed: enough room for the level-one
   * obstacles in Obstacle Challenge, and then a free cell for the food.
   */
  ghost predicate Startable(g: Dims, mode: Mode, staleFood: Option<Cell>)
  {
    (mode == ObstacleChallenge ==> ObstacleCount(1) <= |ObstacleRoom(g, StartPlayer(g).body, staleFood)|) &&
    (var obstacles := if mode == ObstacleChallenge then SpawnObstacles(g, 1, StartPlayer(g).body, staleFood) else {};
     exists c :: FoodFree(g, StartPlayer(g), StartAi(g, mode), obstacles, c))
  }

  /**
   * The start of a round: level one, the snakes at their spawn points, the
   * obstacles placed while the food is still the previous round's (or none),
   * then the food, and no power-up.
   */
  ghost function InitRound(g: Dims, mode: Mode, staleFood: Option<Cell>): (r: Round)
    requires Startable(g, mode, staleFood)
    ensures r.level == 1 && r.powerUp == None
    ensures r.player == Spawn(g.width / 2, g.height / 2, false)
    ensures r.ai.Some? <==> mode == AiBattle
    ensures r.ai.Some? ==> r.ai.value == Spawn(g.width / 4, g.height / 4, true)
    ensures mode != ObstacleChallenge ==> r.obstacles == {}
    ensures mode == ObstacleChallenge ==> |r.obstacles| == 12
    ensures forall c :: c in r.obstacles ==> g.InInterior(c) && c != r.player.Head() && staleFood != Some(c)
    ensures g.Contains(r.food) && r.food !in r.obstacles && r.food != r.player.Head()
    ensures r.ai.Some? ==> r.food != r.ai.value.Head()
  {
    var player := StartPlayer(g);
    var ai := StartAi(g, mode);
    var obstacles := if mode == ObstacleChallenge then SpawnObstacles(g, 1, player.body, staleFood) else {};
    Round(player, ai, SpawnFood(g, player, ai, obstacles), None, obstacles, 1)
  }

  /** The collision checks only clear the alive flags. */
  lemma {:induction false} CollideFrame(g: Dims, r: Round, luck: Luck, now: int)
    requires Roomy(g, r, luck)
    ensures
      var t := Update(g, r, luck, now);
      var c := Collect(g, r, luck, now);
      t.round == c.(player := t.round.player, ai := t.round.ai) &&
      t.round.player == c.player.(alive := t.round.player.alive) &&
      (t.round.ai.Some? <==> c.ai.Some?) &&
      (c.ai.Some? ==> t.round.ai.value == c.ai.value.(alive := t.round.ai.value.alive))
  {
  }

  /** Collecting only touches the player's power-ups and the grid's power-up. */
  lemma {:induction false} CollectFrame(g: Dims, r: Round, luck: Luck, now: int)
    requires Roomy(g, r, luck)
    ensures
      var c := Collect(g, r, luck, now);
      var o := Offer(g, r, luck);
      c == o.(player := c.player, powerUp := c.powerUp) && c.player == o.player.(powerUps := c.player.powerUps)
  {
  }

  /** The power-up draw only touches the grid's power-up. */
  lemma {:induction false} OfferFrame(g: Dims, r: Round, luck: Luck)
    requires Roomy(g, r, luck)
    ensures Offer(g, r, luck) == Feed(g, r).(powerUp := Offer(g, r, luck).powerUp)
  {
  }

  /** Scoring only touches the scores and the food. */
  lemma {:induction false} FeedFrame(g: Dims, r: Round)
    requires FoodRoom(g, r)
    ensures
      var f := Feed(g, r);
      var a := Advance(g, r);
      f == a.(player := f.player, ai := f.ai, food := f.food) &&
      f.player == a.player.(score := f.player.score) &&
      (f.ai.Some? <==> a.ai.Some?) &&
      (f.ai.Some? ==> f.ai.value == a.ai.value.(score := f.ai.value.score))
  {
  }

  /** Offering and collecting keep the bodies, headings, scores, liveness and food the meal left. */
  lemma {:induction false} SettleFrame(g: Dims, r: Round, luck: Luck, now: int)
    requires Roomy(g, r, luck)
    ensures
      var c := Collect(g, r, luck, now);
      var f := Feed(g, r);
      c.food == f.food && c.obstacles == r.obstacles && c.level == r.level && c.ai == f.ai &&
      c.player.body == f.player.body && c.player.direction == f.player.direction &&
      c.player.score == f.player.score && c.player.alive == f.player.alive
  {
    CollectFrame(g, r, luck, now);
    OfferFrame(g, r, luck);
    FeedFrame(g, r);
  }

  /**
   * Scores: the player gains 10 points, or 20 while holding Double Points,
   * exactly when its head was on the food before the move; a living AI gains
   * 10 exactly when its head was. The AI is neither added nor removed.
   */
  lemma {:induction false} TickScores(g: Dims, r: Round, luck: Luck, now: int)
    requires Roomy(g, r, luck)
    ensures
      var t := Update(g, r, luck, now);
      t.round.player.score == r.player.score +
        (if r.player.Head() == r.food then (if DoublePoints in r.player.powerUps then 20 else 10) else 0)
    ensures
      var t := Update(g, r, luck, now);
      (t.round.ai.Some? <==> r.ai.Some?) &&
      (r.ai.Some? ==>
        t.round.ai.value.score == r.ai.value.score + (if r.ai.value.alive && r.ai.value.Head() == r.food then 10 else 0))
  {
    CollideFrame(g, r, luck, now);
    SettleFrame(g, r, luck, now);
    FeedFrame(g, r);
  }

  /**
   * Movement: the player advances one cell along its heading and grows by one
   * exactly when it eats; a living AI advances along the heading its search
   * chose and grows exactly when it eats; a dead AI is left as it was.
   */
  lemma {:induction false} TickMoves(g: Dims, r: Round, luck: Luck, now: int)
    requires Roomy(g, r, luck)
    ensures
      var p := Update(g, r, luck, now).round.player;
      p.Head() == Step(r.player.Head(), r.player.direction) && p.direction == r.player.direction &&
      |p.body| == |r.player.body| + (if r.player.Head() == r.food then 1 else 0) &&
      forall i :: 1 <= i < |p.body| ==> p.body[i] == r.player.body[i - 1]
    ensures
      var t := Update(g, r, luck, now);
      r.ai.Some? && r.ai.value.alive ==>
        var s := AiMove(r.ai.value, r.food, g, r.obstacles);
        t.round.ai.value.Head() == Step(s.Head(), s.direction) && t.round.ai.value.direction == s.direction &&
        |t.round.ai.value.body| == |r.ai.value.body| + (if r.ai.value.Head() == r.food then 1 else 0)
    ensures
      var t := Update(g, r, luck, now);
      r.ai.Some? && !r.ai.value.alive ==> t.round.ai == r.ai
  {
    CollideFrame(g, r, luck, now);
    SettleFrame(g, r, luck, now);
    FeedFrame(g, r);
  }

  /**
   * Power-ups without a fresh spawn this tick: one under the player's new head
   * is collected, its kind stamped with `now`, and leaves the grid; otherwise
   * the grid's power-up and the player's collection stay as they were.
   */
  lemma {:induction false} TickPickup(g: Dims, r: Round, luck: Luck, now: int)
    requires Roomy(g, r, luck)
    requires !(r.player.Head() == r.food && luck.powerUpRoll && luck.powerUpChance)
    ensures
      var t := Update(g, r, luck, now);
      if r.powerUp.Some? && r.powerUp.value.cell == Step(r.player.Head(), r.player.direction) then
        t.round.powerUp == None && t.round.player.powerUps == r.player.powerUps[r.powerUp.value.kind := now]
      else
        t.round.powerUp == r.powerUp && t.round.player.powerUps == r.player.powerUps
  {
    CollideFrame(g, r, luck, now);
    OfferFrame(g, r, luck);
    FeedFrame(g, r);
  }

  /**
   * A power-up spawned this tick (the player ate and both gates passed) has the
   * drawn kind and lies on the grid, off the player's body, off the new food
   * and off the obstacles; it replaces any power-up already present, and since
   * it is off the player's new head it is not collected in the same tick.
   */
  lemma {:induction false} TickSpawnsPowerUp(g: Dims, r: Round, luck: Luck, now: int)
    requires Roomy(g, r, luck)
    requires r.player.Head() == r.food && luck.powerUpRoll && luck.powerUpChance
    ensures
      var t := Update(g, r, luck, now);
      t.round.powerUp.Some? && t.round.powerUp.value.kind == luck.kind &&
      g.Contains(t.round.powerUp.value.cell) && t.round.powerUp.value.cell !in t.round.player.body &&
      t.round.powerUp.value.cell != t.round.food && t.round.powerUp.value.cell !in t.round.obstacles &&
      t.round.player.powerUps == r.player.powerUps
  {
    CollideFrame(g, r, luck, now);
    OfferFrame(g, r, luck);
    FeedFrame(g, r);
  }

  /**
   * The food: when anyone eats it is replaced, once, by a single draw against
   * the bodies after the move, landing on a free cell other than the eaten
   * one; otherwise it stays where it is. Obstacles and level never change.
   */
  lemma {:induction false} TickFood(g: Dims, r: Round, luck: Luck, now: int)
    requires Roomy(g, r, luck)
    ensures
      var t := Update(g, r, luck, now);
      t.round.obstacles == r.obstacles && t.round.level == r.level
    ensures
      var t := Update(g, r, luck, now);
      PlayerEats(r) || AiEats(r) ==>
        t.round.food == SpawnFood(g, Advance(g, r).player, Advance(g, r).ai, r.obstacles) &&
        FoodFree(g, t.round.player, t.round.ai, t.round.obstacles, t.round.food) &&
        t.round.food != r.food
    ensures
      var t := Update(g, r, luck, now);
      !PlayerEats(r) && !AiEats(r) ==> t.round.food == r.food
  {
    var a := Advance(g, r);
    var t := Update(g, r, luck, now);
    CollideFrame(g, r, luck, now);
    SettleFrame(g, r, luck, now);
    FeedFrame(g, r);
    if PlayerEats(r) {
      assert a.player.body[1] == r.food;
    } else if AiEats(r) {
      assert a.ai.value.body[1] == r.food;
    }
    if PlayerEats(r) || AiEats(r) {
      assert t.round.player.body == a.player.body;
      assert t.round.ai.Some? <==> a.ai.Some?;
      assert t.round.ai.Some? ==> t.round.ai.value.body == a.ai.value.body;
    }
  }

  /** The food is never on an obstacle, at the start of a round or after any tick. */
  lemma {:induction false} FoodOffObstacles(g: Dims, r: Round, luck: Luck, now: int)
    requires Roomy(g, r, luck)
    requires r.food !in r.obstacles
    ensures
      var t := Update(g, r, luck, now);
      t.round.food !in t.round.obstacles
  {
    TickFood(g, r, luck, now);
  }

  /** The food stays on the grid: a tick either keeps it or redraws it on a free grid cell. */
  lemma {:induction false} FoodOnGrid(g: Dims, r: Round, luck: Luck, now: int)
    requires Roomy(g, r, luck)
    requires g.Contains(r.food)
    ensures g.Contains(Update(g, r, luck, now).round.food)
  {
    TickFood(g, r, luck, now);
  }

  /**
   * Eating is a tick late: a player stepping onto the food, with the AI not
   * eating, leaves the food under its head, unscored and ungrown; the meal
   * happens on the following tick.
   */
  lemma {:induction false} EatingIsLate(g: Dims, r: Round, luck: Luck, now: int)
    requires Roomy(g, r, luck)
    requires r.player.Head() != r.food && !AiEats(r)
    requires Step(r.player.Head(), r.player.direction) == r.food
    ensures
      var t := Update(g, r, luck, now);
      t.round.food == r.food && t.round.player.Head() == t.round.food &&
      t.round.player.score == r.player.score && |t.round.player.body| == |r.player.body| &&
      PlayerEats(t.round)
  {
    TickFood(g, r, luck, now);
  }

  /**
   * The AI eats a tick late too: a living AI whose move lands on the food,
   * with the player not eating, ends the tick with its head on the food,
   * unscored and ungrown, and eats on the next tick if it survived.
   */
  lemma {:induction false} AiEatingIsLate(g: Dims, r: Round, luck: Luck, now: int)
    requires Roomy(g, r, luck)
    requires AiActive(r) && r.ai.value.Head() != r.food && !PlayerEats(r)
    requires Step(AiSteered(g, r).Head(), AiSteered(g, r).direction) == r.food
    ensures
      var t := Update(g, r, luck, now);
      t.round.food == r.food && t.round.ai.Some? && t.round.ai.value.Head() == t.round.food &&
      t.round.ai.value.score == r.ai.value.score && |t.round.ai.value.body| == |r.ai.value.body| &&
      (t.round.ai.value.alive ==> AiEats(t.round))
  {
    TickFood(g, r, luck, now);
    TickScores(g, r, luck, now);
    TickMoves(g, r, luck, now);
  }

  /**
   * Collisions: play stops exactly when the player's next cell is off the
   * grid, an obstacle, or a body cell its move does not vacate; then the
   * player is marked dead and the AI is not checked. Otherwise a living AI
   * dies exactly when its own move collides, and play goes on.
   */
  lemma {:induction false} TickCollision(g: Dims, r: Round, luck: Luck, now: int)
    requires Roomy(g, r, luck)
    ensures
      var t := Update(g, r, luck, now);
      var next := Step(r.player.Head(), r.player.direction);
      !t.running <==> !g.Contains(next) || next in r.obstacles || next in Trail(r.player, PlayerEats(r))
    ensures
      var t := Update(g, r, luck, now);
      (t.running ==> t.round.player.alive == r.player.alive) &&
      (!t.running ==> !t.round.player.alive && (r.ai.Some? ==> t.round.ai.value.alive == r.ai.value.alive))
    ensures
      var t := Update(g, r, luck, now);
      t.running && AiActive(r) ==>
        var s := AiMove(r.ai.value, r.food, g, r.obstacles);
        var next := Step(s.Head(), s.direction);
        (!t.round.ai.value.alive <==> !g.Contains(next) || next in r.obstacles || next in Trail(s, AiEats(r)))
  {
    var a := Advance(g, r);
    CollisionVerdict(g, r, luck, now);
    SettleFrame(g, r, luck, now);
    FeedFrame(g, r);
    CollisionAfterMove(r.player, g, r.obstacles, PlayerEats(r));
    if AiActive(r) {
      CollisionAfterMove(AiSteered(g, r), g, r.obstacles, AiEats(r));
    }
  }

  /**
   * Invincibility has no effect: a player holding it still dies when its
   * next cell is off the grid or an obstacle, and play stops.
   */
  lemma {:induction false} InvincibleStillDies(g: Dims, r: Round, luck: Luck, now: int)
    requires Roomy(g, r, luck)
    requires Invincibility in r.player.powerUps
    requires !g.Contains(Step(r.player.Head(), r.player.direction)) || Step(r.player.Head(), r.player.direction) in r.obstacles
    ensures
      var t := Update(g, r, luck, now);
      !t.running && !t.round.player.alive
  {
    TickCollision(g, r, luck, now);
  }

  /** The verdict of the collision checks on the round after collecting. */
  lemma {:induction false} CollisionVerdict(g: Dims, r: Round, luck: Luck, now: int)
    requires Roomy(g, r, luck)
    ensures
      var t := Update(g, r, luck, now);
      var c := Collect(g, r, luck, now);
      (t.running <==> !CheckCollision(c.player, g, r.obstacles)) &&
      (!t.running ==> t.round == c.(player := c.player.(alive := false))) &&
      (t.running && AiActive(r) ==>
        t.round.player == c.player && c.ai.Some? &&
        t.round.ai == Some(c.ai.value.(alive := !CheckCollision(c.ai.value, g, r.obstacles)))) &&
      (t.running && !AiActive(r) ==> t.round == c)
  {
  }

  /**
   * The AI's move, growth and score do not depend on the player: two rounds
   * that differ only in the player give the AI the same body, heading and score.
   */
  lemma {:induction false} AiIgnoresPlayer(g: Dims, r: Round, p: Snake, luck: Luck, now: int)
    requires Roomy(g, r, luck) && Roomy(g, r.(player := p), luck)
    ensures
      var t := Update(g, r, luck, now);
      var u := Update(g, r.(player := p), luck, now);
      (t.round.ai.Some? <==> u.round.ai.Some?) &&
      (t.round.ai.Some? ==>
        t.round.ai.value.body == u.round.ai.value.body &&
        t.round.ai.value.direction == u.round.ai.value.direction &&
        t.round.ai.value.score == u.round.ai.value.score)
  {
    var q := r.(player := p);
    assert Advance(g, r).ai == Advance(g, q).ai;
    TickScores(g, r, luck, now);
    TickScores(g, q, luck, now);
    TickAiBody(g, r, luck, now);
    TickAiBody(g, q, luck, now);
  }

  /** The AI leaves a tick with the body and heading of its move. */
  lemma {:induction false} TickAiBody(g: Dims, r: Round, luck: Luck, now: int)
    requires Roomy(g, r, luck)
    ensures
      var t := Update(g, r, luck, now);
      t.round.ai.Some? <==> r.ai.Some?
    ensures
      var t := Update(g, r, luck, now);
      r.ai.Some? ==> t.round.ai.value.body == Advance(g, r).ai.value.body && t.round.ai.value.direction == Advance(g, r).ai.value.direction
  {
    CollideFrame(g, r, luck, now);
    SettleFrame(g, r, luck, now);
    FeedFrame(g, r);
  }

  /**
   * A frame with a single key press never walks the player back onto the
   * cell just behind its head.
   */
  lemma {:induction false} OneKeyNoReversal(g: Dims, r: Round, request: Direction, luck: Luck, now: int)
    requires Roomy(g, Steer(r, [request]), luck)
    ensures
      var t := Frame(g, r, [request], luck, now);
      t.round.player.Head() != Step(r.player.Head(), Opposite(r.player.direction))
  {
    var s := Steer(r, [request]);
    assert [request][1..] == [];
    assert s.player.direction == ChangeDirection(r.player.direction, request);
    NoSingleReversal(r.player.direction, request);
    StepInjective(r.player.Head(), s.player.direction, Opposite(r.player.direction));
    TickMoves(g, s, luck, now);
  }

}
