/**
 * Board geometry and the distance test shared by the apple capture and the
 * self-collision checks of the snake game.
 *
 * Coordinates are integer pixels. The game compares `sqrt(dx^2 + dy^2) < 30`;
 * since dx^2 + dy^2 is a non-negative integer, that is the same as
 * `dx^2 + dy^2 < 900`, which is what `Near` states.
 */
module Geometry {

  /** Side of one snake segment in pixels; the head moves this far per tick. */
  const SIZE: int := 30

  /** The distance below which two points collide (a literal 30 in both tests). */
  const THRESHOLD: int := 30

  /** Where the apple may be spawned: both ends inclusive, as `random.randint` draws. */
  const APPLE_MIN_X: int := 30
  const APPLE_MAX_X: int := 730
  const APPLE_MIN_Y: int := 50
  const APPLE_MAX_Y: int := 550

  /** The x coordinate that hides the snake and the apple off screen at game over. */
  const OFF_SCREEN: int := 2000

  /** The heading of the snake's head. */
  datatype Direction = Left | Right | Up | Down

  predicate InSpawnRange(x: int, y: int)
  {
    APPLE_MIN_X <= x <= APPLE_MAX_X && APPLE_MIN_Y <= y <= APPLE_MAX_Y
  }

  /** Squared Euclidean distance between (x1, y1) and (x2, y2). */
  function SquaredDistance(x1: int, y1: int, x2: int, y2: int): (d: int)
    ensures d >= 0
    ensures d == 0 <==> x1 == x2 && y1 == y2
  {
    (x1 - x2) * (x1 - x2) + (y1 - y2) * (y1 - y2)
  }

  /** The two points are closer than THRESHOLD pixels: a point always collides
      with itself, and a point exactly THRESHOLD away along one axis does not. */
  predicate Near(x1: int, y1: int, x2: int, y2: int)
    ensures x1 == x2 && y1 == y2 ==> Near(x1, y1, x2, y2)
    ensures x1 - x2 == THRESHOLD || x2 - x1 == THRESHOLD ==> !Near(x1, y1, x2, y2)
    ensures y1 - y2 == THRESHOLD || y2 - y1 == THRESHOLD ==> !Near(x1, y1, x2, y2)
  {
    SquaredDistance(x1, y1, x2, y2) < THRESHOLD * THRESHOLD
  }

  /** A coordinate the snake can reach: a multiple of SIZE. */
  predicate OnGrid(v: int)
  {
    v % SIZE == 0
  }

  function Abs(v: int): (r: nat)
    ensures r == v || r == -v
  {
    if v < 0 then -v else v
  }

  /** Multiplying by a natural number is monotone. */
  lemma {:induction false} MulMonotone(a: nat, b: int, c: int)
    requires b <= c
    ensures a * b <= a * c
  {
    if a > 0 {
      MulMonotone(a - 1, b, c);
      assert a * b == (a - 1) * b + b && a * c == (a - 1) * c + c;
    }
  }

  /** Squaring is monotone on magnitudes. */
  lemma SquareMonotone(a: int, b: int)
    requires Abs(a) <= Abs(b)
    ensures a * a <= b * b
  {
    var p, q := Abs(a), Abs(b);
    assert a * a == p * p && b * b == q * q;
    MulMonotone(p, p, q);
    MulMonotone(q, p, q);
    assert p * q == q * p;
  }

  /** Two points that are Near differ by less than THRESHOLD on each axis, so in
      particular a point exactly THRESHOLD pixels away along an axis is not Near. */
  lemma NearWithinBox(x1: int, y1: int, x2: int, y2: int)
    requires Near(x1, y1, x2, y2)
    ensures Abs(x1 - x2) < THRESHOLD && Abs(y1 - y2) < THRESHOLD
  {
    if Abs(x1 - x2) >= THRESHOLD {
      SquareMonotone(THRESHOLD, x1 - x2);
      assert false;
    }
    if Abs(y1 - y2) >= THRESHOLD {
      SquareMonotone(THRESHOLD, y1 - y2);
      assert false;
    }
  }

  /** Conversely, two points whose axis distances add up to less than THRESHOLD
      are Near (the Manhattan distance bounds the Euclidean one). */
  lemma NearWhenManhattanClose(x1: int, y1: int, x2: int, y2: int)
    requires Abs(x1 - x2) + Abs(y1 - y2) < THRESHOLD
    ensures Near(x1, y1, x2, y2)
  {
    var p, q := Abs(x1 - x2), Abs(y1 - y2);
    SquareMonotone(x1 - x2, p);
    SquareMonotone(y1 - y2, q);
    SumOfSquares(p, q);
    SquareMonotone(p + q, THRESHOLD - 1);
  }

  lemma SumOfSquares(p: nat, q: nat)
    ensures p * p + q * q <= (p + q) * (p + q)
  {
    assert (p + q) * (p + q) == (p + q) * p + (p + q) * q;
    assert (p + q) * p == p * p + q * p && (p + q) * q == p * q + q * q;
    MulMonotone(p, 0, q);
    MulMonotone(q, 0, p);
  }

  /** Two distinct multiples of SIZE are at least SIZE apart. */
  lemma GridGap(a: int, b: int)
    requires OnGrid(a) && OnGrid(b) && a != b
    ensures Abs(a - b) >= SIZE
  {
    var k := a / SIZE - b / SIZE;
    assert a - b == SIZE * k;
    assert k != 0;
  }

  /** On grid points the distance test is exact cell equality. */
  lemma {:induction false} GridNearIffSame(x1: int, y1: int, x2: int, y2: int)
    requires OnGrid(x1) && OnGrid(y1) && OnGrid(x2) && OnGrid(y2)
    ensures Near(x1, y1, x2, y2) <==> x1 == x2 && y1 == y2
  {
    if Near(x1, y1, x2, y2) {
      NearWithinBox(x1, y1, x2, y2);
      if x1 != x2 { GridGap(x1, x2); }
      if y1 != y2 { GridGap(y1, y2); }
    }
  }
}
