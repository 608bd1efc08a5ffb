/** The integer line walk of the snapshot canvas: where its centres are. */
module BresenhamLine {

  /** From one rounded end point to the other. */
  datatype Line = Line(x1: int, y1: int, x2: int, y2: int) {
    function Dx(): (d: int)
      ensures d >= 0
    {
      if x1 < x2 then x2 - x1 else x1 - x2
    }

    function Dy(): (d: int)
      ensures d >= 0
    {
      if y1 < y2 then y2 - y1 else y1 - y2
    }

    function Sx(): int {
      if x1 < x2 then 1 else -1
    }

    function Sy(): int {
      if y1 < y2 then 1 else -1
    }

    /** Steps along the longer axis. */
    function Length(): nat {
      if Dx() > Dy() then Dx() else Dy()
    }
  }

  /** After `i` steps in x and `j` steps in y, with the running error. */
  datatype Cursor = Cursor(i: nat, j: nat, err: int) {
    function X(l: Line): int {
      if l.Sx() == 1 then l.x1 + i else l.x1 - i
    }

    function Y(l: Line): int {
      if l.Sy() == 1 then l.y1 + j else l.y1 - j
    }
  }

  function Start(l: Line): Cursor {
    Cursor(0, 0, l.Dx() - l.Dy())
  }

  /** One turn of the loop: both tests look at the error before either move. */
  function Next(l: Line, c: Cursor): Cursor {
    var e2 := 2 * c.err;
    var stepX, stepY := e2 >= -l.Dy(), e2 <= l.Dx();
    Cursor(
      if stepX then c.i + 1 else c.i,
      if stepY then c.j + 1 else c.j,
      c.err - (if stepX then l.Dy() else 0) + (if stepY then l.Dx() else 0))
  }

  function After(l: Line, n: nat): Cursor {
    if n == 0 then Start(l) else Next(l, After(l, n - 1))
  }

  /** Twice the signed distance from the ideal line, scaled by the line's length
      along the axes: `2 * (dx * j - dy * i)`. */
  function Deviation(l: Line, c: Cursor): int {
    2 * (l.Dx() * c.j - l.Dy() * c.i)
  }

  /** The error always is the deviation of the next diagonal point. */
  ghost predicate ErrorIsDeviation(l: Line, c: Cursor) {
    2 * c.err == Deviation(l, c) + 2 * l.Dx() - 2 * l.Dy()
  }

  lemma DeviationSteps(l: Line, c: Cursor)
    requires ErrorIsDeviation(l, c)
    ensures ErrorIsDeviation(l, Next(l, c))
    ensures Deviation(l, Next(l, c)) == Deviation(l, c)
      - (if 2 * c.err >= -l.Dy() then 2 * l.Dy() else 0) + (if 2 * c.err <= l.Dx() then 2 * l.Dx() else 0)
  {
    var a, b := l.Dx(), l.Dy();
    assert a * (c.j + 1) == a * c.j + a;
    assert b * (c.i + 1) == b * c.i + b;
  }

  /** The longer axis moves at every step, and the centre stays within half a pixel
      of the ideal line, measured along the shorter axis. */
  ghost predicate OnTrack(l: Line, n: nat, c: Cursor) {
    && ErrorIsDeviation(l, c)
    && Deviation(l, c) <= l.Length() && -Deviation(l, c) <= l.Length()
    && (l.Dx() >= l.Dy() ==> c.i == n && c.j <= n)
    && (l.Dx() <= l.Dy() ==> c.j == n && c.i <= n)
  }

  lemma {:induction false} EveryCentreIsOnTrack(l: Line, n: nat)
    ensures OnTrack(l, n, After(l, n))
  {
    if n == 0 {
      assert l.Dx() * 0 == 0 && l.Dy() * 0 == 0;
    } else {
      EveryCentreIsOnTrack(l, n - 1);
      DeviationSteps(l, After(l, n - 1));
    }
  }

  lemma MultipleIsFar(a: int, k: int)
    requires a >= 0
    ensures k >= 1 ==> a * k >= a
    ensures k <= -1 ==> a * k <= -a
  {
    assert a * k == a + a * (k - 1) == -a + a * (k + 1);
  }

  predicate AtEnd(l: Line, c: Cursor) {
    c.X(l) == l.x2 && c.Y(l) == l.y2
  }

  lemma EndArithmetic(a: int, b: int, j: int)
    requires a > 0 && -a <= 2 * (a * j - b * a) <= a
    ensures j == b
  {
    assert a * j - b * a == a * (j - b);
    MultipleIsFar(a, j - b);
  }

  lemma FlatEnd(l: Line)
    requires l.Dx() >= l.Dy()
    ensures After(l, l.Dx()).i == l.Dx() && After(l, l.Dx()).j == l.Dy()
  {
    EveryCentreIsOnTrack(l, l.Dx());
    if l.Dx() > 0 {
      EndArithmetic(l.Dx(), l.Dy(), After(l, l.Dx()).j);
    }
  }

  lemma SteepEnd(l: Line)
    requires l.Dx() < l.Dy()
    ensures After(l, l.Dy()).i == l.Dx() && After(l, l.Dy()).j == l.Dy()
  {
    EveryCentreIsOnTrack(l, l.Dy());
    EndArithmetic(l.Dy(), l.Dx(), After(l, l.Dy()).i);
  }

  /** The walk reaches the end point after exactly `max(|dx|, |dy|)` steps, and not
      before. */
  lemma EndsExactlyAtTheEnd(l: Line, n: nat)
    requires n <= l.Length()
    ensures AtEnd(l, After(l, n)) <==> n == l.Length()
  {
    if n < l.Length() {
      EveryCentreIsOnTrack(l, n);
    } else if l.Dx() >= l.Dy() {
      FlatEnd(l);
    } else {
      SteepEnd(l);
    }
  }

  /** Consecutive centres touch: each step moves at most one in each direction. */
  lemma CentresTouch(l: Line, n: nat)
    ensures
      var c, d := After(l, n), After(l, n + 1);
      -1 <= d.X(l) - c.X(l) <= 1 && -1 <= d.Y(l) - c.Y(l) <= 1 && (d.X(l) != c.X(l) || d.Y(l) != c.Y(l))
  {
    EveryCentreIsOnTrack(l, n);
    EveryCentreIsOnTrack(l, n + 1);
  }

  function Abs(k: int): int {
    if k < 0 then -k else k
  }

  lemma NearestArithmetic(a: int, ideal: int, j: int, other: int)
    requires a >= 0 && -a <= 2 * (a * j - ideal) <= a
    ensures Abs(a * j - ideal) <= Abs(a * other - ideal)
  {
    assert a * other - a * j == a * (other - j);
    MultipleIsFar(a, other - j);
  }

  /** The centre's offset along the shorter axis is a nearest integer to the ideal
      one: no other integer is closer. */
  lemma NearestPoint(l: Line, n: nat, other: int)
    ensures l.Dx() >= l.Dy() ==>
      Abs(l.Dx() * After(l, n).j - l.Dy() * n) <= Abs(l.Dx() * other - l.Dy() * n)
    ensures l.Dx() <= l.Dy() ==>
      Abs(l.Dy() * After(l, n).i - l.Dx() * n) <= Abs(l.Dy() * other - l.Dx() * n)
  {
    EveryCentreIsOnTrack(l, n);
    if l.Dx() >= l.Dy() {
      NearestArithmetic(l.Dx(), l.Dy() * n, After(l, n).j, other);
    }
    if l.Dx() <= l.Dy() {
      NearestArithmetic(l.Dy(), l.Dx() * n, After(l, n).i, other);
    }
  }
}
