/** Food placement: the game draws random cells until one is off the snake.
    The random draws are modelled as a finite sequence of samples; the
    abstract placement is any on-board cell not covered by the snake. */
module Food {
  import opened Grid

  /** The placement the game relies on: some on-board cell off the snake.
      Which one is left open, as the random draws leave it open. */
  ghost function PlaceFood(snake: seq<Point>, w: int, h: int): (c: Point)
    requires HasFreeCell(snake, w, h)
    ensures InBounds(c, w, h) && c !in snake
  {
    var c :| InBounds(c, w, h) && c !in snake; c
  }

  datatype Option<T> = None | Some(value: T)

  /** Reference reading of the sampling loop: the first sample that is
      off the snake, if the samples contain one. */
  function FirstFree(snake: seq<Point>, samples: seq<Point>): (r: Option<Point>)
    ensures r.None? <==> forall i | 0 <= i < |samples| :: samples[i] in snake
    ensures r.Some? ==> exists i | 0 <= i < |samples| ::
      samples[i] == r.value && r.value !in snake &&
      forall j | 0 <= j < i :: samples[j] in snake
  {
    if |samples| == 0 then None
    else if samples[0] !in snake then Some(samples[0])
    else
      var r := FirstFree(snake, samples[1..]);
      if r.Some? then
        var i :| 0 <= i < |samples[1..]| && samples[1..][i] == r.value &&
          r.value !in snake && forall j | 0 <= j < i :: samples[1..][j] in snake;
        assert samples[i + 1] == r.value;
        r
      else r
  }

  /** The rejection-sampling loop, drawing from `samples` in order. `food`
      holds the last cell drawn (or `current` if nothing was drawn);
      `found` tells whether the loop would have stopped. */
  method SampleFood(snake: seq<Point>, samples: seq<Point>, current: Point)
    returns (found: bool, food: Point)
    ensures found <==> FirstFree(snake, samples).Some?
    ensures found ==> food == FirstFree(snake, samples).value
    ensures found ==> food in samples && food !in snake
    ensures !found ==> food == if |samples| == 0 then current else samples[|samples| - 1]
  {
    found := false;
    food := current;
    var i := 0;
    while !found && i < |samples|
      invariant 0 <= i <= |samples|
      invariant !found ==> forall j | 0 <= j < i :: samples[j] in snake
      invariant found ==> 0 < i && food == samples[i - 1] && food !in snake
      invariant found ==> forall j | 0 <= j < i - 1 :: samples[j] in snake
      invariant food == if i == 0 then current else samples[i - 1]
      decreases |samples| - i
    {
      food := samples[i];
      i := i + 1;
      found := food !in snake;
    }
    if found {
      FirstFreeUnique(snake, samples, i - 1);
    }
  }

  /** Only one sample can be the first free one. */
  lemma FirstFreeUnique(snake: seq<Point>, samples: seq<Point>, k: nat)
    requires k < |samples| && samples[k] !in snake
    requires forall j | 0 <= j < k :: samples[j] in snake
    ensures FirstFree(snake, samples) == Some(samples[k])
  {
  }

  /** When the draws stay on the board, whatever the loop settles on is a
      legal placement. */
  lemma SampledIsPlacement(snake: seq<Point>, samples: seq<Point>, w: int, h: int)
    requires AllInBounds(samples, w, h)
    requires FirstFree(snake, samples).Some?
    ensures InBounds(FirstFree(snake, samples).value, w, h)
    ensures FirstFree(snake, samples).value !in snake
  {
  }

  /** Conversely, every legal placement can come out of the loop: after any
      run of draws that hit the snake, drawing `c` stops on `c`. */
  lemma {:induction false} EveryFreeCellReachable(snake: seq<Point>, misses: seq<Point>, c: Point)
    requires forall i | 0 <= i < |misses| :: misses[i] in snake
    requires c !in snake
    ensures FirstFree(snake, misses + [c]) == Some(c)
  {
    if |misses| > 0 {
      EveryFreeCellReachable(snake, misses[1..], c);
      assert (misses + [c])[1..] == misses[1..] + [c];
    }
  }
}
