/** Concrete situations that pin down the collision and turning rules,
    including the two that a reader might not expect: the tail cell counts
    as occupied, and two quick turns can point the head into the neck. */
module Scenarios {
  import opened Grid
  import opened Game

  /** On a 20 by 15 board a one-cell snake heading right onto the food grows
      to two cells and scores 10; the new food is whichever cell off the
      snake the sampling settles on, and no other cell can be drawn. */
  lemma EatOnFirstMove(highScore: nat, food: Point)
    ensures
      var g := GameState([Point(10, 10)], Point(1, 0), Point(11, 10), 0, highScore, true, false);
      && (TickDraw(g, 20, 15, food) <==>
          InBounds(food, 20, 15) && food !in [Point(11, 10), Point(10, 10)])
      && (TickDraw(g, 20, 15, food) ==>
          var r := Tick(g, 20, 15, food);
          && r.snake == [Point(11, 10), Point(10, 10)]
          && r.score == 10
          && r.highScore == Max(highScore, 10)
          && r.food == food)
  {
  }

  /** A head on the right edge moving right ends the game and keeps the score. */
  lemma WallEndsGame(score: nat, food: Point)
    ensures
      var g := GameState([Point(19, 5), Point(18, 5)], Point(1, 0), Point(3, 3), score, score, true, false);
      Tick(g, 20, 20, food) == g.(running := false)
  {
  }

  /** A snake curled into a square, with the head about to step onto the
      tail: the tail would move away this tick, yet the move ends the game. */
  lemma TailCountsAsOccupied(food: Point)
    ensures
      var g := Curled();
      && Valid(g, 20, 20)
      && NextHead(g) == g.snake[|g.snake| - 1]
      && NextHead(g) !in g.snake[..|g.snake| - 1]
      && !Tick(g, 20, 20, food).running
  {
  }

  /** A four-cell snake curled into a square, the head turned left towards
      the tail. */
  function Curled(): GameState {
    GameState([Point(1, 0), Point(1, 1), Point(0, 1), Point(0, 0)],
              Point(-1, 0), Point(5, 5), 30, 30, true, false)
  }

  /** Pressing Left straight after moving right is refused, but Up then Left
      before the next tick is accepted, and that tick runs into the neck. */
  lemma DoubleTurnIntoNeck(food: Point)
    ensures
      var g := GameState([Point(11, 10), Point(10, 10)], Point(1, 0), Point(0, 0), 0, 0, true, false);
      var turned := PressKey(PressKey(g, ArrowUp), ArrowLeft);
      && PressKey(g, ArrowLeft) == g
      && turned.direction == Reverse(g.direction)
      && TickDraw(turned, 20, 20, food)
      && Tick(turned, 20, 20, food) == turned.(running := false)
  {
  }
}
