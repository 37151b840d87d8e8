/**
 * A snake: its body (head first), its heading, score, liveness and the
 * power-ups it has collected, with the three operations the game applies to
 * it: moving one cell, growing by a tail cell, and checking for a collision.
 */
module Snakes {
  import opened Grid

  /** The four power-up kinds. */
  datatype PowerUpKind = SpeedBoost | SlowDown | DoublePoints | Invincibility

  /** A body is never empty: it starts with one cell and a move keeps its length or grows it. */
  type Body = b: seq<Cell> | |b| > 0 witness [Cell(0, 0)]

  /**
   * `powerUps` maps each collected kind to the timestamp of its collection.
   * Colour and speed multiplier are presentation-only and are not kept.
   */
  datatype Snake = Snake(
    body: Body,
    direction: Direction,
    score: int,
    isAI: bool,
    alive: bool,
    powerUps: map<PowerUpKind, int>)
  {
    function Head(): Cell
    {
      body[0]
    }
  }

  /** A fresh snake: one cell at `(x, y)`, heading right, no score, alive, no power-ups. */
  function Spawn(x: int, y: int, isAI: bool): (s: Snake)
    ensures s.Head() == Cell(x, y) && |s.body| == 1
    ensures s.direction == Right && s.score == 0 && s.alive && s.powerUps == map[]
    ensures s.isAI == isAI
  {
    Snake([Cell(x, y)], Right, 0, isAI, true, map[])
  }

  /**
   * One move: a new head one step ahead in the current direction; the tail
   * cell is dropped unless the snake grows.
   */
  function Move(s: Snake, grow: bool): (r: Snake)
    ensures |r.body| == if grow then |s.body| + 1 else |s.body|
    ensures r.Head() == Step(s.Head(), s.direction)
    ensures forall i :: 1 <= i < |r.body| ==> r.body[i] == s.body[i - 1]
    ensures r == s.(body := r.body)
  {
    var head := Step(s.body[0], s.direction);
    if grow then s.(body := [head] + s.body)
    else s.(body := [head] + s.body[..|s.body| - 1])
  }

  /**
   * After a move of a snake at least two cells long, the second cell lies
   * directly behind the head, opposite the heading.
   */
  lemma {:induction false} MoveLeavesNeckBehind(s: Snake, grow: bool)
    requires |Move(s, grow).body| >= 2
    ensures
      var r := Move(s, grow);
      r.body[1] == Step(r.Head(), Opposite(r.direction))
  {
    StepOpposite(s.Head(), s.direction);
  }

  /** Growth by duplicating the tail cell. */
  function Grow(s: Snake): (r: Snake)
    ensures |r.body| == |s.body| + 1
    ensures r.body[..|s.body|] == s.body && r.body[|s.body|] == s.body[|s.body| - 1]
    ensures r == s.(body := r.body)
  {
    s.(body := s.body + [s.body[|s.body| - 1]])
  }

  /**
   * The head is off the grid, on another cell of the body, or on an obstacle.
   * Another snake's body is not consulted.
   */
  function CheckCollision(s: Snake, g: Dims, obstacles: set<Cell>): (hit: bool)
    ensures hit <==> !g.Contains(s.Head()) || s.Head() in s.body[1..] || s.Head() in obstacles
  {
    var head := s.body[0];
    if head.x < 0 || head.x >= g.width || head.y < 0 || head.y >= g.height then true
    else if exists i :: 1 <= i < |s.body| && s.body[i] == head then true
    else if head in obstacles then true
    else false
  }

  /** Growing while moving is the same as growing by the tail and then moving. */
  lemma {:induction false} MoveGrowIsGrowThenMove(s: Snake)
    ensures Move(s, true) == Move(Grow(s), false)
  {
    var g := Grow(s);
    assert g.body[..|g.body| - 1] == s.body;
  }

  /** The cells a move leaves behind: the old body, less its tail unless it grows. */
  function Trail(s: Snake, grow: bool): (cells: seq<Cell>)
    ensures |cells| == if grow then |s.body| else |s.body| - 1
    ensures forall c :: c in cells ==> c in s.body
  {
    if grow then s.body else s.body[..|s.body| - 1]
  }

  /**
   * The collision after a move, stated on the snake before the move: the next
   * cell is off the grid, an obstacle, or a body cell the move does not vacate.
   */
  lemma {:induction false} CollisionAfterMove(s: Snake, g: Dims, obstacles: set<Cell>, grow: bool)
    ensures
      var next := Step(s.Head(), s.direction);
      CheckCollision(Move(s, grow), g, obstacles) <==>
        !g.Contains(next) || next in obstacles || next in Trail(s, grow)
  {
    var r := Move(s, grow);
    assert r.body[1..] == Trail(s, grow);
  }

  /** A snake whose next cell lies outside the grid collides after its move, grown or not. */
  lemma {:induction false} WallCollision(s: Snake, g: Dims, obstacles: set<Cell>, grow: bool)
    requires !g.Contains(Step(s.Head(), s.direction))
    ensures CheckCollision(Move(s, grow), g, obstacles)
  {
  }

  /**
   * A snake moving onto one of its own cells other than the tail collides with
   * itself (a snake of length 4 turning into its third cell, for one).
   */
  lemma {:induction false} SelfCollision(s: Snake, g: Dims, obstacles: set<Cell>, k: int)
    requires 0 <= k < |s.body| - 1 && Step(s.Head(), s.direction) == s.body[k]
    ensures CheckCollision(Move(s, false), g, obstacles)
  {
    var r := Move(s, false);
    assert r.body[k + 1] == s.body[k];
  }

  /** A move without collision keeps a duplicate-free body duplicate-free. */
  lemma {:induction false} MoveKeepsDistinct(s: Snake, g: Dims, obstacles: set<Cell>, grow: bool)
    requires Distinct(s.body)
    requires !CheckCollision(Move(s, grow), g, obstacles)
    ensures Distinct(Move(s, grow).body)
  {
    var r := Move(s, grow);
    forall i, j | 0 <= i < j < |r.body|
      ensures r.body[i] != r.body[j]
    {
      if i == 0 {
        assert r.body[j] in r.body[1..];
      } else {
        assert r.body[i] == s.body[i - 1] && r.body[j] == s.body[j - 1];
      }
    }
  }

}
