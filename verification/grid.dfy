/** Geometry of the playing field: integer cells, unit steps, bounds, and
    the counting facts that tell when a free cell is left on the board. */
module Grid {

  /** A cell of the board, or a heading when read as a delta. */
  datatype Point = Point(x: int, y: int)

  /** The board is `w` cells wide and `h` cells high; the game starts the
      snake on (10, 10), so both sides must exceed 10. */
  predicate GridOk(w: int, h: int) {
    w > 10 && h > 10
  }

  predicate InBounds(p: Point, w: int, h: int) {
    0 <= p.x < w && 0 <= p.y < h
  }

  function Add(p: Point, d: Point): Point {
    Point(p.x + d.x, p.y + d.y)
  }

  function Reverse(d: Point): Point {
    Point(-d.x, -d.y)
  }

  function Dot(a: Point, b: Point): int {
    a.x * b.x + a.y * b.y
  }

  /** One of the four headings Up, Down, Left, Right. */
  predicate IsUnit(d: Point) {
    || (d.x == 0 && (d.y == 1 || d.y == -1))
    || (d.y == 0 && (d.x == 1 || d.x == -1))
  }

  /** `q` is one unit step away from `p`. */
  predicate Adjacent(p: Point, q: Point) {
    IsUnit(Point(q.x - p.x, q.y - p.y))
  }

  predicate AllInBounds(s: seq<Point>, w: int, h: int) {
    forall i | 0 <= i < |s| :: InBounds(s[i], w, h)
  }

  predicate Distinct(s: seq<Point>) {
    forall i, j | 0 <= i < j < |s| :: s[i] != s[j]
  }

  /** Each cell of `s` is one step from the next one. */
  predicate Connected(s: seq<Point>) {
    forall i | 0 <= i < |s| - 1 :: Adjacent(s[i], s[i + 1])
  }

  /** Some cell of the board is not covered by `s`. */
  ghost predicate HasFreeCell(s: seq<Point>, w: int, h: int) {
    exists p :: InBounds(p, w, h) && p !in s
  }

  /** The cells of row `y` with x below `w`. */
  function Row(w: nat, y: int): (r: set<Point>)
    ensures forall p :: p in r <==> 0 <= p.x < w && p.y == y
    ensures |r| == w
  {
    if w == 0 then {} else Row(w - 1, y) + {Point(w - 1, y)}
  }

  /** Every cell of a `w` by `h` board. */
  function Cells(w: nat, h: nat): (r: set<Point>)
    ensures forall p :: p in r <==> InBounds(p, w, h)
    ensures |r| == w * h
  {
    if h == 0 then {}
    else
      var below := Cells(w, h - 1);
      var row := Row(w, h - 1);
      assert below !! row;
      assert w * h == w * (h - 1) + w;
      below + row
  }

  /** The set of cells a sequence covers. */
  function Covered(s: seq<Point>): (r: set<Point>)
    ensures forall p :: p in r <==> p in s
    ensures |r| <= |s|
    ensures Distinct(s) ==> |r| == |s|
  {
    if |s| == 0 then {}
    else
      var rest := Covered(s[1..]);
      assert forall p :: p in s <==> p == s[0] || p in s[1..];
      assert Distinct(s) ==> s[0] !in s[1..];
      {s[0]} + rest
  }

  lemma SubsetSize<T>(a: set<T>, b: set<T>)
    requires a <= b
    ensures |a| <= |b|
    ensures |a| == |b| ==> a == b
  {
    var rest := b - a;
    assert b == a + rest;
    assert a !! rest;
  }

  /** A body of distinct on-board cells leaves a free cell exactly when it
      is shorter than the board has cells. */
  lemma FreeCellIffRoom(s: seq<Point>, w: nat, h: nat)
    requires Distinct(s) && AllInBounds(s, w, h)
    ensures HasFreeCell(s, w, h) <==> |s| < w * h
  {
    var board := Cells(w, h);
    var body := Covered(s);
    assert body <= board by {
      forall p | p in body ensures p in board {
        var i :| 0 <= i < |s| && s[i] == p;
      }
    }
    SubsetSize(body, board);
    if HasFreeCell(s, w, h) {
      var p :| InBounds(p, w, h) && p !in s;
      SubsetSize(body, board - {p});
    }
    if |s| < w * h {
      assert body != board;
      var p :| p in board && p !in body;
      assert InBounds(p, w, h) && p !in s;
    }
  }
}
