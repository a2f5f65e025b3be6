/** Properties of the game transitions: the validity invariant is kept by
    every transition, the key filter never reverses the heading, and the
    tick is always defined on a valid state unless the board fills up. */
module Properties {
  import opened Grid
  import opened Food
  import opened Game

  /** A valid snake leaves at least the food's cell free. */
  lemma ValidLeavesRoom(g: GameState, w: int, h: int)
    requires Valid(g, w, h)
    ensures 0 < w && 0 < h
    ensures |g.snake| < w * h
  {
    assert InBounds(g.snake[0], w, h);
    FreeCellIffRoom(g.snake, w, h);
  }

  /** On a valid state the tick fails to complete exactly when it eats the
      food and the grown snake would cover the whole board, leaving nowhere
      to put new food. */
  lemma TickDefinedIff(g: GameState, w: int, h: int)
    requires Valid(g, w, h)
    ensures !TickDefined(g, w, h) <==> WouldEat(g, w, h) && |g.snake| + 1 == w * h
  {
    ValidLeavesRoom(g, w, h);
    if WouldEat(g, w, h) {
      var body := [NextHead(g)] + g.snake;
      assert Distinct(body) by {
        forall i, j | 0 <= i < j < |body| ensures body[i] != body[j] {
          if i > 0 {
            assert body[i] == g.snake[i - 1] && body[j] == g.snake[j - 1];
          } else {
            assert body[j] in g.snake;
          }
        }
      }
      assert AllInBounds(body, w, h) by {
        forall i | 0 <= i < |body| ensures InBounds(body[i], w, h) {
          if i > 0 { assert body[i] == g.snake[i - 1]; }
        }
      }
      FreeCellIffRoom(body, w, h);
    }
  }

  /** Every tick of a valid game keeps it valid: the snake stays non-empty,
      on the board, self-avoiding and connected, the food stays off it, and
      the score stays a multiple of 10 not above the high score. */
  lemma TickKeepsValid(g: GameState, w: int, h: int, food: Point)
    requires Valid(g, w, h) && TickDraw(g, w, h, food)
    ensures Valid(Tick(g, w, h, food), w, h)
  {
  }

  /** A tick can complete exactly when the food sampling has some cell to
      settle on; `PlaceFood` supplies one. */
  lemma TickDrawExists(g: GameState, w: int, h: int)
    ensures TickDefined(g, w, h) <==> exists food :: TickDraw(g, w, h, food)
  {
    if TickDefined(g, w, h) {
      if WouldEat(g, w, h) {
        assert TickDraw(g, w, h, PlaceFood([NextHead(g)] + g.snake, w, h));
      } else {
        assert TickDraw(g, w, h, g.food);
      }
    }
    if food :| TickDraw(g, w, h, food) {
      if WouldEat(g, w, h) {
        assert InBounds(food, w, h) && food !in [NextHead(g)] + g.snake;
      }
    }
  }

  /** On a board that holds the start cell the food sampling after a start
      always has a cell to settle on. */
  lemma StartDrawExists(w: int, h: int)
    requires GridOk(w, h)
    ensures HasFreeCell([StartCell], w, h)
    ensures StartDraw(w, h, PlaceFood([StartCell], w, h))
  {
    assert InBounds(Point(0, 0), w, h) && Point(0, 0) !in [StartCell];
  }

  /** An accepted arrow key always yields one of the four headings, and
      never the reverse of the heading held in `direction`. */
  lemma PressKeyNeverReverses(g: GameState, k: Key)
    requires IsUnit(g.direction)
    ensures IsUnit(PressKey(g, k).direction)
    ensures PressKey(g, k).direction != Reverse(g.direction)
  {
  }

  /** The key filter, stated geometrically: on an active game an arrow key
      changes the heading exactly when it is perpendicular to it. */
  lemma PressKeyTurnsIffPerpendicular(g: GameState, k: Key)
    ensures PressKey(g, k).direction != g.direction <==>
      Active(g) && k != OtherKey && Dot(KeyHeading(k), g.direction) == 0
  {
    KeyAxisRule(g, k);
    if k != OtherKey {
      KeyDotRule(k, g.direction);
    }
  }

  /** Up and Down need a heading with no vertical part; Left and Right
      need one with no horizontal part. */
  predicate AxisFree(k: Key, d: Point) {
    match k
    case ArrowUp | ArrowDown => d.y == 0
    case _ => d.x == 0
  }

  /** The key filter as the code tests it: on an active game an arrow key
      changes the heading exactly when the key's axis component of the
      heading is zero. */
  lemma KeyAxisRule(g: GameState, k: Key)
    ensures PressKey(g, k).direction != g.direction <==>
      Active(g) && k != OtherKey && AxisFree(k, g.direction)
  {
  }

  /** The code's axis test is perpendicularity. */
  lemma KeyDotRule(k: Key, d: Point)
    requires k != OtherKey
    ensures Dot(KeyHeading(k), d) == 0 <==> AxisFree(k, d)
  {
  }

  lemma PressKeyKeepsValid(g: GameState, k: Key, w: int, h: int)
    requires Valid(g, w, h)
    ensures Valid(PressKey(g, k), w, h)
  {
    PressKeyNeverReverses(g, k);
  }

  /** Pausing keeps the game valid, and two presses restore the state. */
  lemma TogglePauseKeepsValid(g: GameState, w: int, h: int)
    requires Valid(g, w, h)
    ensures Valid(TogglePause(g), w, h)
    ensures TogglePause(TogglePause(g)) == g
  {
  }

  /** Before the first start, ticks, keys and the pause button do nothing. */
  lemma InitialIsInert(highScore: nat, k: Key, w: int, h: int, food: Point)
    ensures TickDefined(Initial(highScore), w, h) && TickDraw(Initial(highScore), w, h, food)
    ensures Tick(Initial(highScore), w, h, food) == Initial(highScore)
    ensures PressKey(Initial(highScore), k) == Initial(highScore)
    ensures TogglePause(Initial(highScore)) == Initial(highScore)
  {
  }
}
