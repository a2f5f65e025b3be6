# Snake game state machine in Dafny

This project models the game logic of a browser snake game (`game.js`). The
whole game is one immutable `GameState` record: the snake body (head first),
the heading, the food cell, the score, the high score, and the `running` and
`paused` flags. Each entry point of the game is a pure transition on that
record:

- `Tick`: the timer callback `update`;
- `PressKey`: the key handler `handleKeyPress`;
- `TogglePause`: the pause button;
- `Start`: the start/restart button `startGame`;
- `GameOver`: the flag part of `gameOver`.

The board is `w` cells wide and `h` cells high. These are integer parameters
with `w > 10` and `h > 10` (`GridOk`), so the start cell (10, 10) is on the
board.

Modules:

- `Grid` (grid.dfy): cells, unit headings, bounds, and the counting argument
  that a free cell exists exactly when the body is shorter than the board.
- `Food` (food.dfy): food placement. `SampleFood` and `FirstFree` model the
  rejection-sampling loop over a given sequence of random draws. The cell
  the loop settles on is an input of `Tick`, `Start` and the session events,
  so every result holds for every placement the random draws can produce.
  `PlaceFood` only witnesses that such a cell exists.
- `Game` (game.dfy): the state record, the transitions, and the invariant
  `Valid`.
- `Properties` (properties.dfy): each transition preserves `Valid`; the key
  filter never reverses the heading; on a valid state a tick fails to finish
  only when the board fills up.
- `Session` (session.dfy): sequences of events from page load. Every state
  reached is either the untouched page-load state or a valid game, and the
  high score never decreases.
- `Scenarios` (scenarios.dfy): concrete cases of the collision and turning
  rules.

The code has two quirks, and the model keeps both:

- **The tail counts as occupied.** The self-collision check uses the whole
  body before the move. Stepping onto the cell the tail is about to leave
  therefore ends the game (`Scenarios.TailCountsAsOccupied`).
- **Turns are checked against the `direction` variable.** The key filter does
  not compare with the direction the snake last moved. Pressing Up and then
  Left between two ticks makes a right-moving snake turn back into its own
  neck (`Scenarios.DoubleTurnIntoNeck`).

Three further facts about the code, each proved:

- The key filter accepts only keys perpendicular to `direction`, so
  pressing the current heading is ignored too
  (`Properties.PressKeyTurnsIffPerpendicular`).
- The no-reversal rule holds per key press, not per tick
  (`Scenarios.DoubleTurnIntoNeck`).
- On page load the heading is (0, 0) and the food is (15, 15); the start
  button sets the heading to (1, 0). The page-load state is therefore not
  `Valid`, but every tick, key and pause press leaves it unchanged
  (`Properties.InitialIsInert`).

## Model

| member | source | states |
|---|---|---|
| Game.Initial | game.js:11-17 | The page-load state: snake [(10, 10)], heading (0, 0), food (15, 15), score 0, the loaded high score, neither running nor paused. |
| Game.Tick | game.js:98-143 | An idle tick (not running or paused) changes nothing. The game ends exactly when the next head is off the board or on any cell of the current body, tail included, and nothing else changes then. Otherwise the new head goes in front of a prefix of the old body, and the body grows by one exactly when the food was eaten. Eating adds 10 to the score, raises the high score to the maximum of the two, and puts the new food on the drawn cell, which is on the board and off the grown snake; otherwise score, high score and food are unchanged. The heading and pause flag are never touched. |
| Game.GameOver | game.js:238-240 | Game over clears `running` and changes nothing else. |
| Game.PressKey | game.js:74-96 | A key press changes only the heading, and only while the game is active. The new heading is the one the arrow key names. |
| Game.TogglePause | game.js:61-64 | The pause flag flips exactly when a game is running; nothing else changes. |
| Game.Start | game.js:34-59 | From any state: a one-cell snake on (10, 10) heading right, score 0, running and not paused, the high score carried over, the food on the drawn cell, and the result satisfies the full invariant (including food on the board and off the snake). |
| Food.PlaceFood | game.js:145-159 | The placed food is on the board and not on any snake cell, provided such a cell exists. |
| Food.FirstFree | game.js:148-158 | Reading the sampling loop as a function of the random draws: no result exactly when every draw hits the snake; otherwise the result is a draw off the snake, and every earlier draw hit the snake. |
| Food.SampleFood | game.js:146-158 | The sampling loop itself stops exactly when the reference reading finds a cell, and on that cell, which is a draw off the snake. |
| Food.FirstFreeUnique | game.js:148-158 | The draw at which the loop stops is determined: the first draw off the snake. |
| Food.SampledIsPlacement | game.js:148-158 | With draws on the board (the floor of a random fraction of the board size), the loop's result is a legal placement. |
| Food.EveryFreeCellReachable | game.js:148-158 | Every legal placement can be the loop's result: after any run of draws that hit the snake, a draw of a free cell stops the loop there. |
| Grid.FreeCellIffRoom | game.js:148-158 | A body of distinct on-board cells leaves a free cell exactly when it is shorter than the number of board cells; this is when the sampling loop can stop. |
| Properties.ValidLeavesRoom | game.js:154-158 | A valid game's snake is shorter than the board, because the food's cell is free. |
| Properties.TickDefinedIff | game.js:122-136 | On a valid state a tick fails to complete exactly when it eats the food and the grown snake covers the whole board, leaving the placement loop no free cell. |
| Properties.TickDrawExists | game.js:145-158 | A tick has a food cell the sampling can settle on exactly when it can complete at all: when it eats, a free cell remains off the grown snake. |
| Properties.StartDrawExists | game.js:50-51 | After a start the one-cell snake always leaves a free board cell, so the sampling has a cell to settle on. |
| Properties.TickKeepsValid | game.js:98-143 | Every tick keeps the invariant: the snake is non-empty, on the board, self-avoiding and connected; the food is on the board and off the snake; the score is a multiple of 10 and not above the high score; the heading is a unit step; paused implies running. |
| Properties.PressKeyNeverReverses | game.js:82-95 | Starting from a unit heading, a key press leaves a unit heading that is never the reverse of the heading before the press. |
| Properties.KeyAxisRule | game.js:82-95 | A key press changes the heading exactly when the game is active, the key is an arrow, and the heading's component along the key's axis is zero: vertical for Up and Down, horizontal for Left and Right. |
| Properties.PressKeyTurnsIffPerpendicular | game.js:82-95 | A key press changes the heading exactly when the game is active, the key is an arrow, and the arrow is perpendicular (zero dot product) to the heading. |
| Properties.PressKeyKeepsValid | game.js:74-96 | Key presses keep the invariant. |
| Properties.TogglePauseKeepsValid | game.js:61-64 | Pausing keeps the invariant, and two presses restore the state. |
| Properties.InitialIsInert | game.js:10-17 | The page-load state is left unchanged by ticks (whatever the draw), key presses and the pause button until the start button is pressed. |
| Session.Step | game.js:30-32 | The event dispatch (the start and pause buttons, key presses, and the timer `startGame` sets up). Before a start only the start click changes anything; a start resets the score, keeps the high score and sets the game running; key and pause events always complete; a tick can fail to complete only when it eats; an event is refused only when its drawn cell is one the sampling cannot return. |
| Session.StepKeepsSettled | game.js:30-32 | Any one event (timer, key, pause click, start click) keeps a settled state settled and never lowers the high score. The only event that cannot complete is a tick that eats with the board about to fill. |
| Session.RunKeepsSettled | game.js:30-32 | Over any sequence of events, whatever cells the food draws land on, every state reached is settled and its high score is at least the starting one, across restarts too. |
| Session.FromPageLoad | game.js:11-17 | From page load, every reachable state is the page-load state or a valid game. Its score is at most its high score, which is at least the saved high score. |
| Scenarios.EatOnFirstMove | game.js:121-136 | On a 20 by 15 board, snake [(10,10)] heading right onto food at (11,10) becomes [(11,10),(10,10)] and scores 10. The new food can be exactly the board cells off the grown snake, and lands on the drawn one. |
| Scenarios.WallEndsGame | game.js:107-111 | A head on the right edge moving right ends the game with everything else, including the score, unchanged. |
| Scenarios.TailCountsAsOccupied | game.js:113-119 | In a valid square-curled snake whose next head is the tail cell, a cell the tail would leave, the tick still ends the game. |
| Scenarios.DoubleTurnIntoNeck | game.js:82-95 | Left right after moving right is refused. Up then Left before the next tick turns the heading into the exact reverse, and that tick ends the game on the neck. |

## Left out

- Drawing (`draw`, the game-over overlay): canvas output with floating-point colours and arcs, no effect on the state.
- DOM wiring: button labels, the disabled flag, the score and high-score text, `preventDefault`. These are UI only.
- The interval timer (`setInterval`/`clearInterval`). Ticks are explicit `Tick` calls or `TimerFired` events. The model relies on a paused or ended game getting no ticks, and `Tick` is a no-op in those states anyway.
- Saving the high score to local storage, and the string-to-number coercion of the loaded value. The loaded high score is a `nat` parameter of `Initial`, and saving is unobservable.
- `Math.random`: the draws are a given sequence of board cells (`SampleFood`), and the cell the loop settles on is a parameter of `Tick` and `Start` and a field of the `TimerFired` and `StartClicked` events. Termination of the sampling loop is not modelled. A tick that eats with no free cell left is `Stuck`, because the page's loop would never stop; an event naming a cell the loop cannot return is `NoSuchDraw`. For `Start`, `GridOk` guarantees a free cell (`Properties.StartDrawExists`).
- The board size taken from the canvas (width and height divided by 20): the sizes are integer parameters.
- Game.Tick: requires (`TickDraw`) a non-empty snake when active, because the code would fail on reading the head of an empty snake, and, when eating, that the drawn cell is on the board and off the grown snake, because that is the only cell the sampling loop can stop on. Every valid state meets the first condition, and a drawn cell exists except on a full board (`Properties.TickDrawExists`, `Properties.TickDefinedIff`).
- Game.Start: requires the drawn cell to be on the board and off the start cell, for the same reason.
