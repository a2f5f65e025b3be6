/** The snake game's state machine: one record holding the whole game, and
    one transition per entry point of the game (timer tick, key press,
    pause button, start button). */
module Game {
  import opened Grid

  /** The whole game. `snake[0]` is the head; `direction` is the heading
      the next tick applies; `paused` only matters while `running`. */
  datatype GameState = GameState(
    snake: seq<Point>,
    direction: Point,
    food: Point,
    score: nat,
    highScore: nat,
    running: bool,
    paused: bool)

  /** The keys the game listens to; every other key is `OtherKey`. */
  datatype Key = ArrowUp | ArrowDown | ArrowLeft | ArrowRight | OtherKey

  const StartCell := Point(10, 10)
  const StartHeading := Point(1, 0)
  /** Points awarded per food eaten. */
  const Reward: nat := 10

  /** The state when the page loads, before the start button is pressed;
      `highScore` is whatever was saved by earlier sessions. */
  function Initial(highScore: nat): (r: GameState)
    ensures r.snake == [StartCell] && r.direction == Point(0, 0) && r.food == Point(15, 15)
    ensures r.score == 0 && r.highScore == highScore
    ensures !r.running && !r.paused
  {
    GameState([StartCell], Point(0, 0), Point(15, 15), 0, highScore, false, false)
  }

  /** Ticks and keys act only in this state. */
  predicate Active(g: GameState) {
    g.running && !g.paused
  }

  function Max(a: nat, b: nat): nat {
    if a < b then b else a
  }

  /** The cell the head would move to on the next tick. */
  function NextHead(g: GameState): Point
    requires |g.snake| > 0
  {
    Add(g.snake[0], g.direction)
  }

  /** The next tick eats the food: the game is active and the head moves,
      without colliding, onto the food. */
  predicate WouldEat(g: GameState, w: int, h: int) {
    && Active(g)
    && |g.snake| > 0
    && InBounds(NextHead(g), w, h)
    && NextHead(g) !in g.snake
    && NextHead(g) == g.food
  }

  /** The tick runs to completion: it does not read the head of an empty
      snake, and when it eats, a free cell is left for the new food (without
      one, the food sampling would never stop). */
  ghost predicate TickDefined(g: GameState, w: int, h: int) {
    && (Active(g) ==> |g.snake| > 0)
    && (WouldEat(g, w, h) ==> HasFreeCell([NextHead(g)] + g.snake, w, h))
  }

  /** `food` is a cell the food sampling can settle on during this tick: the
      tick does not read the head of an empty snake, and when it eats, `food`
      is on the board and off the grown snake. A tick that does not eat
      ignores `food`. */
  predicate TickDraw(g: GameState, w: int, h: int, food: Point) {
    && (Active(g) ==> |g.snake| > 0)
    && (WouldEat(g, w, h) ==> InBounds(food, w, h) && food !in [NextHead(g)] + g.snake)
  }

  /** `food` is a cell the food sampling can settle on after a start. */
  predicate StartDraw(w: int, h: int, food: Point) {
    InBounds(food, w, h) && food != StartCell
  }

  /** What every state reached after a start satisfies. */
  predicate Valid(g: GameState, w: int, h: int) {
    && |g.snake| > 0
    && AllInBounds(g.snake, w, h)
    && Distinct(g.snake)
    && Connected(g.snake)
    && InBounds(g.food, w, h)
    && g.food !in g.snake
    && g.score % Reward == 0
    && g.score <= g.highScore
    && IsUnit(g.direction)
    && (g.paused ==> g.running)
  }

  /** The game-over transition: only the running flag changes. */
  function GameOver(g: GameState): (r: GameState)
    ensures !r.running
    ensures r.(running := g.running) == g
  {
    g.(running := false)
  }

  /** One timer tick: move the head one step, end the game on a wall or
      body hit (the tail still counts as body), then either eat the food and
      put new food on `food`, the cell the random sampling settled on, or
      drop the tail. */
  function Tick(g: GameState, w: int, h: int, food: Point): (r: GameState)
    requires TickDraw(g, w, h, food)
    // idle ticks change nothing
    ensures !Active(g) ==> r == g
    // the game ends exactly when the next head leaves the board or lands
    // on a cell of the current body, tail included
    ensures Active(g) ==> (r.running <==> InBounds(NextHead(g), w, h) && NextHead(g) !in g.snake)
    // ending the game mutates nothing else
    ensures Active(g) && !r.running ==> r == g.(running := false)
    // a move puts the new head in front of a prefix of the old body,
    // one cell longer exactly when the food was eaten
    ensures Active(g) && r.running ==>
      && |r.snake| == |g.snake| + (if WouldEat(g, w, h) then 1 else 0)
      && r.snake[0] == NextHead(g)
      && r.snake[1..] <= g.snake
    ensures r.score == g.score + (if WouldEat(g, w, h) then Reward else 0)
    ensures r.highScore == if WouldEat(g, w, h) then Max(g.highScore, r.score) else g.highScore
    ensures WouldEat(g, w, h) ==> r.food == food && InBounds(r.food, w, h) && r.food !in r.snake
    ensures !WouldEat(g, w, h) ==> r.food == g.food
    ensures r.direction == g.direction && r.paused == g.paused
  {
    if !Active(g) then g
    else
      var head := NextHead(g);
      if !InBounds(head, w, h) then GameOver(g)
      else if head in g.snake then GameOver(g)
      else
        var body := [head] + g.snake;
        if head == g.food then
          var score := g.score + Reward;
          var high := if score > g.highScore then score else g.highScore;
          g.(snake := body, score := score, highScore := high, food := food)
        else
          g.(snake := body[..|body| - 1])
  }

  /** The heading an arrow key asks for (Up is towards row 0). */
  function KeyHeading(k: Key): Point
    requires k != OtherKey
  {
    match k
    case ArrowUp => Point(0, -1)
    case ArrowDown => Point(0, 1)
    case ArrowLeft => Point(-1, 0)
    case ArrowRight => Point(1, 0)
  }

  /** A key press: while active, an arrow key turns the snake if its axis
      differs from that of the current `direction`; anything else is ignored. */
  function PressKey(g: GameState, k: Key): (r: GameState)
    ensures r == g.(direction := r.direction)
    ensures r.direction == g.direction || (k != OtherKey && Active(g) && r.direction == KeyHeading(k))
  {
    if !Active(g) then g
    else
      match k
      case ArrowUp => if g.direction.y == 0 then g.(direction := Point(0, -1)) else g
      case ArrowDown => if g.direction.y == 0 then g.(direction := Point(0, 1)) else g
      case ArrowLeft => if g.direction.x == 0 then g.(direction := Point(-1, 0)) else g
      case ArrowRight => if g.direction.x == 0 then g.(direction := Point(1, 0)) else g
      case OtherKey => g
  }

  /** The pause button: ignored when no game runs, otherwise flips `paused`. */
  function TogglePause(g: GameState): (r: GameState)
    ensures r.paused != g.paused <==> g.running
    ensures r == g.(paused := r.paused)
  {
    if !g.running then g else g.(paused := !g.paused)
  }

  /** The start (and restart) button: a one-cell snake on the start cell
      heading right, score zero, running and not paused, food on `food`, the
      cell the random sampling settled on; only the high score survives from
      the previous state. */
  function Start(g: GameState, w: int, h: int, food: Point): (r: GameState)
    requires GridOk(w, h) && StartDraw(w, h, food)
    ensures r.snake == [StartCell] && r.direction == StartHeading
    ensures r.score == 0 && r.running && !r.paused
    ensures r.highScore == g.highScore
    ensures r.food == food
    ensures Valid(r, w, h)
  {
    GameState([StartCell], StartHeading, food, 0, g.highScore, true, false)
  }
}
