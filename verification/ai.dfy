/**
 * The AI snake's steering: search for the food from its head and turn toward
 * the second cell of the path found. The search sees the grid, the obstacles
 * and the AI's own body only.
 */
module AiControl {
  import opened Wrappers
  import opened Grid
  import opened Snakes
  import opened Pathfinder

  /** What the AI's search may step on: its own body blocks, no other snake does. */
  function Sight(s: Snake, g: Dims, obstacles: set<Cell>): Maze
  {
    Maze(g, obstacles, s.body)
  }

  /**
   * Turn toward the second cell of the path to the food; keep the heading for a
   * non-AI snake, when there is no path, or when the head is on the food.
   */
  function AiMove(s: Snake, food: Cell, g: Dims, obstacles: set<Cell>): (r: Snake)
    ensures r == s.(direction := r.direction)
    ensures !s.isAI ==> r == s
    ensures s.isAI && (!Reachable(Sight(s, g, obstacles), s.Head(), food) || s.Head() == food) ==> r == s
    ensures s.isAI && Reachable(Sight(s, g, obstacles), s.Head(), food) && s.Head() != food ==>
      exists p :: Best(Sight(s, g, obstacles), p, s.Head(), food) && |p| > 1 && p[1] == Step(s.Head(), r.direction)
  {
    if !s.isAI then s
    else
      var head := s.body[0];
      var path := FindPath(Sight(s, g, obstacles), head, food);
      if path.Some? && |path.value| > 1 then
        var next := path.value[1];
        var dx := next.x - head.x;
        var dy := next.y - head.y;
        assert Adjacent(head, next);
        if dx == 1 then s.(direction := Right)
        else if dx == -1 then s.(direction := Left)
        else if dy == 1 then s.(direction := Down)
        else if dy == -1 then s.(direction := Up)
        else s
      else
        assert path.Some? ==> Precedes(path.value, [head]) by {
          if path.Some? && head == food {
            assert Leads(Sight(s, g, obstacles), [head], head, food);
          }
        }
        s
  }

  /**
   * When the AI turns, it turns onto an open cell: inside the grid, not an
   * obstacle and not a cell of its own body.
   */
  lemma {:induction false} AiTurnIsOpen(s: Snake, food: Cell, g: Dims, obstacles: set<Cell>)
    ensures
      var r := AiMove(s, food, g, obstacles);
      r.direction == s.direction || Sight(s, g, obstacles).Open(Step(s.Head(), r.direction))
  {
    var r := AiMove(s, food, g, obstacles);
    if r.direction != s.direction {
      var p :| Best(Sight(s, g, obstacles), p, s.Head(), food) && |p| > 1 && p[1] == Step(s.Head(), r.direction);
    }
  }

  /**
   * The AI never turns back onto its neck: when the second body cell lies
   * directly behind the head, the new heading is not the opposite one.
   */
  lemma {:induction false} AiNeverReverses(s: Snake, food: Cell, g: Dims, obstacles: set<Cell>)
    requires |s.body| >= 2 && s.body[1] == Step(s.Head(), Opposite(s.direction))
    ensures AiMove(s, food, g, obstacles).direction != Opposite(s.direction)
  {
    AiTurnIsOpen(s, food, g, obstacles);
  }

  /**
   * Once the AI has moved and is at least two cells long, its search never
   * turns it around, whatever the food and obstacles.
   */
  lemma {:induction false} AiNeverReversesAfterMove(s: Snake, grow: bool, food: Cell, g: Dims, obstacles: set<Cell>)
    requires |Move(s, grow).body| >= 2
    ensures
      var moved := Move(s, grow);
      AiMove(moved, food, g, obstacles).direction != Opposite(moved.direction)
  {
    MoveLeavesNeckBehind(s, grow);
    AiNeverReverses(Move(s, grow), food, g, obstacles);
  }

}
