/** A session of the game as a sequence of input events applied to the
    state, starting from any settled state such as the page-load state. */
module Session {
  import opened Grid
  import opened Game
  import opened Properties

  /** The inputs that drive the game: a timer expiry, a key press, a click
      on the pause button, a click on the start button. A timer expiry and a
      start click carry `food`, the cell the random food sampling settles on
      if that event places food; a tick that does not eat ignores it. */
  datatype Event = TimerFired(food: Point) | KeyDown(key: Key) | PauseClicked | StartClicked(food: Point)

  /** `Stuck` stands for a tick whose food sampling never stops;
      `NoSuchDraw` for an event naming a food cell the sampling cannot
      settle on (one off the board or on the snake), which cannot happen. */
  datatype Outcome = Live(state: GameState) | Stuck | NoSuchDraw

  /** The game's event dispatch: the timer runs a tick, a key press the key
      handler, and the two buttons their handlers. */
  ghost function Step(g: GameState, e: Event, w: int, h: int): (r: Outcome)
    requires GridOk(w, h)
    // only a start click affects a game that is not running
    ensures r.Live? && !g.running && !e.StartClicked? ==> r.state == g
    ensures r.Live? && e.StartClicked? ==>
      r.state.running && r.state.score == 0 && r.state.highScore == g.highScore
    // key presses and pause clicks always complete
    ensures e.KeyDown? || e.PauseClicked? ==> r.Live?
    // the sampling can only spin forever when the tick eats
    // (or, on a malformed state, when an active game has no snake)
    ensures r.Stuck? ==> e.TimerFired? && Active(g) && (|g.snake| == 0 || WouldEat(g, w, h))
    // an event is refused only for a food cell the sampling cannot return
    ensures r.NoSuchDraw? ==>
      || (e.StartClicked? && (!InBounds(e.food, w, h) || e.food == StartCell))
      || (e.TimerFired? && WouldEat(g, w, h) &&
          (!InBounds(e.food, w, h) || e.food in [NextHead(g)] + g.snake))
  {
    match e
    case TimerFired(food) =>
      if !TickDefined(g, w, h) then Stuck
      else if TickDraw(g, w, h, food) then Live(Tick(g, w, h, food))
      else NoSuchDraw
    case KeyDown(k) => Live(PressKey(g, k))
    case PauseClicked => Live(TogglePause(g))
    case StartClicked(food) =>
      if StartDraw(w, h, food) then Live(Start(g, w, h, food)) else NoSuchDraw
  }

  /** The state after a sequence of events, unless some event gets stuck or
      names an impossible draw. */
  ghost function Run(g: GameState, es: seq<Event>, w: int, h: int): Outcome
    requires GridOk(w, h)
    decreases |es|
  {
    if |es| == 0 then Live(g)
    else
      match Step(g, es[0], w, h)
      case Live(next) => Run(next, es[1..], w, h)
      case other => other
  }

  /** Either untouched since a page load that read `saved` as the high
      score, or a valid game. */
  ghost predicate Settled(g: GameState, saved: nat, w: int, h: int) {
    g == Initial(saved) || Valid(g, w, h)
  }

  /** One event keeps the state settled and never lowers the high score;
      the only event that gets stuck is a tick that eats the food with the
      grown snake covering the whole board. */
  lemma StepKeepsSettled(g: GameState, saved: nat, e: Event, w: int, h: int)
    requires GridOk(w, h) && Settled(g, saved, w, h)
    ensures Step(g, e, w, h).Live? ==> Settled(Step(g, e, w, h).state, saved, w, h)
    ensures Step(g, e, w, h).Live? ==> Step(g, e, w, h).state.highScore >= g.highScore
    ensures Step(g, e, w, h).Stuck? <==>
      e.TimerFired? && WouldEat(g, w, h) && |g.snake| + 1 == w * h
  {
    if g == Initial(saved) {
      InitialIsInert(saved, if e.KeyDown? then e.key else OtherKey, w, h,
                     if e.TimerFired? then e.food else StartCell);
    } else {
      match e
      case TimerFired(food) =>
        TickDefinedIff(g, w, h);
        if TickDraw(g, w, h, food) { TickKeepsValid(g, w, h, food); }
      case KeyDown(k) => PressKeyKeepsValid(g, k, w, h);
      case PauseClicked => TogglePauseKeepsValid(g, w, h);
      case StartClicked(_) =>
    }
  }

  /** Every state a session reaches is settled, and the high score only
      ever grows, across restarts too. */
  lemma {:induction false} RunKeepsSettled(g: GameState, saved: nat, es: seq<Event>, w: int, h: int)
    requires GridOk(w, h) && Settled(g, saved, w, h)
    ensures Run(g, es, w, h).Live? ==> Settled(Run(g, es, w, h).state, saved, w, h)
    ensures Run(g, es, w, h).Live? ==> Run(g, es, w, h).state.highScore >= g.highScore
    decreases |es|
  {
    if |es| > 0 {
      StepKeepsSettled(g, saved, es[0], w, h);
      var s := Step(g, es[0], w, h);
      if s.Live? {
        RunKeepsSettled(s.state, saved, es[1..], w, h);
      }
    }
  }

  /** From page load, every reachable state is the page-load state itself or
      a valid game whose score never exceeds its high score. */
  lemma FromPageLoad(highScore: nat, es: seq<Event>, w: int, h: int)
    requires GridOk(w, h)
    ensures Run(Initial(highScore), es, w, h).Live? ==>
      var r := Run(Initial(highScore), es, w, h).state;
      && (r == Initial(highScore) || Valid(r, w, h))
      && r.score <= r.highScore
      && highScore <= r.highScore
  {
    RunKeepsSettled(Initial(highScore), highScore, es, w, h);
  }
}
