/**
 * The player's steering rule: a key press for a direction is taken unless it
 * asks for the exact opposite of the current heading. Key presses of one frame
 * are applied one after another, each checked against the heading left by the
 * previous one.
 */
module Steering {
  import opened Grid

  /** One key press, checked in the order Up, Down, Left, Right as the input handler does. */
  function ChangeDirection(current: Direction, requested: Direction): (next: Direction)
    ensures requested == Opposite(current) ==> next == current
    ensures requested != Opposite(current) ==> next == requested
  {
    if requested == Up && current != Down then Up
    else if requested == Down && current != Up then Down
    else if requested == Left && current != Right then Left
    else if requested == Right && current != Left then Right
    else current
  }

  /** A single key press never turns the heading around. */
  lemma {:induction false} NoSingleReversal(current: Direction, requested: Direction)
    ensures ChangeDirection(current, requested) != Opposite(current)
  {
  }

  /** All key presses of one frame, in arrival order. */
  function ApplyRequests(current: Direction, requests: seq<Direction>): (next: Direction)
    ensures next == current || next in requests
    decreases |requests|
  {
    if requests == [] then current
    else ApplyRequests(ChangeDirection(current, requests[0]), requests[1..])
  }

  /**
   * The heading after a frame is computed press by press: the last press is
   * checked against the heading the earlier presses left.
   */
  lemma {:induction false} ApplyRequestsLast(current: Direction, requests: seq<Direction>, d: Direction)
    ensures ApplyRequests(current, requests + [d]) == ChangeDirection(ApplyRequests(current, requests), d)
    decreases |requests|
  {
    if requests == [] {
      assert [d][1..] == [];
    } else {
      assert (requests + [d])[0] == requests[0];
      assert (requests + [d])[1..] == requests[1..] + [d];
      ApplyRequestsLast(ChangeDirection(current, requests[0]), requests[1..], d);
    }
  }

  /**
   * Two key presses in one frame can reverse the heading: moving right, Up and
   * then Left leaves the snake heading left.
   */
  lemma {:induction false} TwoRequestsCanReverse()
    ensures ApplyRequests(Right, [Up, Left]) == Opposite(Right)
  {
    assert [Up, Left][1..] == [Left];
    assert [Left][1..] == [];
  }

  /** Requests that all pass the guard leave the heading at the last of them. */
  lemma {:induction false} LastRequestWins(current: Direction, requests: seq<Direction>)
    requires requests != []
    requires requests[0] != Opposite(current)
    requires forall i :: 0 < i < |requests| ==> requests[i] != Opposite(requests[i - 1])
    ensures ApplyRequests(current, requests) == requests[|requests| - 1]
    decreases |requests|
  {
    var rest := requests[1..];
    if rest != [] {
      LastRequestWins(requests[0], rest);
    }
  }

}
