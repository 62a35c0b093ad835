/** draw_line: the points of a straight line on the pixel grid, and the loop that draws them. */
module LineDrawing {
  import opened Bits

  const SCREEN_W := 1024
  const SCREEN_H := 768

  newtype int32 = x: int | -0x8000_0000 <= x < 0x8000_0000

  datatype Point = Point(x: int, y: int)

  datatype Line = Line(x1: int, y1: int, x2: int, y2: int)

  function Abs(x: int): nat {
    if x >= 0 then x else -x
  }

  function Dx(l: Line): nat {
    Abs(l.x2 - l.x1)
  }

  function Dy(l: Line): nat {
    Abs(l.y2 - l.y1)
  }

  function Toward(from: int, to: int): int {
    if from < to then 1 else -1
  }

  /** The number of steps along the longer axis. */
  function Steps(l: Line): nat {
    if Dx(l) >= Dy(l) then Dx(l) else Dy(l)
  }

  /** The number of steps along the other one. */
  function Minor(l: Line): nat {
    if Dx(l) >= Dy(l) then Dy(l) else Dx(l)
  }

  /** How long a line may be, depending on its slope, for twice the error term and for err - dy to fit in an int. */
  predicate FitsInt(l: Line) {
    3 * Steps(l) - 2 * Minor(l) <= 0x8000_0000 && 3 * Steps(l) <= 0x1_0000_0000
  }

  /** The integer nearest to k * minor / major, the lower one when two are equally near. */
  function Near(k: nat, minor: nat, major: nat): int
    requires major > 0
  {
    (2 * (k * minor) + major - 1) / (2 * major)
  }

  /** How far along each axis the line is after k steps. */
  function Along(l: Line, k: nat): (int, int)
  {
    if Steps(l) == 0 then (0, 0)
    else if Dx(l) >= Dy(l) then (k, Near(k, Dy(l), Dx(l)))
    else (Near(k, Dx(l), Dy(l)), k)
  }

  /** The point after k steps. */
  function PointAt(l: Line, k: nat): Point {
    var (i, j) := Along(l, k);
    Point(l.x1 + i * Toward(l.x1, l.x2), l.y1 + j * Toward(l.y1, l.y2))
  }

  /** The error term after k steps. */
  function ErrorAt(l: Line, k: nat): int {
    var (i, j) := Along(l, k);
    j * Dx(l) - i * Dy(l) + Dx(l) - Dy(l)
  }

  lemma Halves(a: int, q: int, n: nat)
    requires n > 0 && q == a / (2 * n)
    ensures 2 * (q * n) <= a < 2 * (q * n) + 2 * n
  {
    assert a == (2 * n) * q + a % (2 * n);
    assert (2 * n) * q == 2 * (q * n);
  }

  lemma HalvesUnique(a: int, q: int, n: nat)
    requires n > 0 && 2 * (q * n) <= a < 2 * (q * n) + 2 * n
    ensures q == a / (2 * n)
  {
    Doubled(q, n);
    DivideUnique(a, 2 * n, q, a - 2 * (q * n));
  }

  lemma Doubled(q: int, n: int)
    ensures (2 * n) * q == 2 * (q * n)
  {
  }

  /** Near is within half a step of the exact value. */
  lemma NearBounds(k: nat, minor: nat, major: nat)
    requires major > 0
    ensures 0 - major <= 2 * (Near(k, minor, major) * major - k * minor) < major
  {
    Halves(2 * (k * minor) + major - 1, Near(k, minor, major), major);
  }

  /** And it is the only such integer. */
  lemma NearUnique(j: int, k: nat, minor: nat, major: nat)
    requires major > 0 && 0 - major <= 2 * (j * major - k * minor) < major
    ensures j == Near(k, minor, major)
  {
    HalvesUnique(2 * (k * minor) + major - 1, j, major);
  }

  lemma Times(a: int, b: int)
    ensures (a + 1) * b == a * b + b
  {
  }

  /** The next nearest integer is one more exactly when that brings the error back within half a step. */
  lemma NearNext(k: nat, minor: nat, major: nat)
    requires major > 0 && minor <= major
    ensures
      var j := Near(k, minor, major);
      Near(k + 1, minor, major) == if 2 * (j * major - k * minor) < 2 * minor - major then j + 1 else j
  {
    var j := Near(k, minor, major);
    NearBounds(k, minor, major);
    Times(k, minor);
    Times(j, major);
    if 2 * (j * major - k * minor) < 2 * minor - major {
      NearUnique(j + 1, k + 1, minor, major);
    } else {
      NearUnique(j, k + 1, minor, major);
    }
  }

  lemma NearEnds(minor: nat, major: nat)
    requires major > 0
    ensures Near(0, minor, major) == 0 && Near(major, minor, major) == minor
  {
    NearUnique(0, 0, minor, major);
    assert minor * major == major * minor;
    NearUnique(minor, major, minor, major);
  }

  lemma ErrorStart(l: Line)
    ensures ErrorAt(l, 0) == Dx(l) - Dy(l)
  {
    if Steps(l) > 0 {
      NearEnds(Minor(l), Steps(l));
    }
  }

  /** The error term stays within half a step of the longer axis around the difference of the extents. */
  lemma ErrorRange(l: Line, k: nat)
    requires Steps(l) > 0
    ensures
      var e := ErrorAt(l, k);
      if Dx(l) >= Dy(l) then Dx(l) - 2 * Dy(l) <= 2 * e < 3 * Dx(l) - 2 * Dy(l)
      else 2 * Dx(l) - 3 * Dy(l) < 2 * e <= 2 * Dx(l) - Dy(l)
  {
    NearBounds(k, Minor(l), Steps(l));
  }

  /** For a line that rises by one pixel alone the limit is met to within one: beyond it, twice the error overflows. */
  lemma LimitTight(l: Line)
    requires Dy(l) == 1 && Dx(l) >= 4
    ensures FitsInt(l) ==> 3 * Dx(l) - 2 <= 0x8000_0000
    ensures 3 * Dx(l) - 4 >= 0x8000_0000 ==> exists k :: 0 <= k < Steps(l) && 2 * ErrorAt(l, k) > 0x7FFF_FFFF
  {
    var n := Dx(l);
    var d := (n - 1) / 2;
    var k := n - d;
    assert 1 * n == n && k * 1 == k;
    NearUnique(1, k, 1, n);
    assert ErrorAt(l, k) == d + n - 1;
  }

  /** One turn of the loop: the tests on the error term choose exactly the moves to the line's next point. */
  lemma StepOn(l: Line, k: nat)
    requires k < Steps(l)
    ensures
      var e := ErrorAt(l, k);
      var p := PointAt(l, k);
      var h, v := 2 * e > 0 - Dy(l), 2 * e < Dx(l);
      && PointAt(l, k + 1) == Point(if h then p.x + Toward(l.x1, l.x2) else p.x, if v then p.y + Toward(l.y1, l.y2) else p.y)
      && ErrorAt(l, k + 1) == e - (if h then Dy(l) else 0) + (if v then Dx(l) else 0)
  {
    var dx, dy := Dx(l), Dy(l);
    var (i, j) := Along(l, k);
    Times(i, dy);
    Times(j, dx);
    Times(i, Toward(l.x1, l.x2));
    Times(j, Toward(l.y1, l.y2));
    if dx >= dy {
      NearBounds(k, dy, dx);
      NearNext(k, dy, dx);
      if dx == dy {
        NearUnique(k, k, dy, dx);
      }
    } else {
      NearBounds(k, dx, dy);
      NearNext(k, dx, dy);
    }
  }

  lemma OneTo(i: int, from: int, to: int)
    ensures Abs(to - from) * Toward(from, to) == to - from
    ensures from == to || Abs(i * Toward(from, to)) == Abs(i)
    ensures i == 0 ==> i * Toward(from, to) == 0
  {
  }

  /** The line starts at its first end, and only its last step is at the second. */
  lemma LineEnds(l: Line, k: nat)
    requires k <= Steps(l)
    ensures PointAt(l, 0) == Point(l.x1, l.y1)
    ensures PointAt(l, k) == Point(l.x2, l.y2) <==> k == Steps(l)
  {
    var dx, dy := Dx(l), Dy(l);
    OneTo(0, l.x1, l.x2);
    OneTo(0, l.y1, l.y2);
    OneTo(k, l.x1, l.x2);
    OneTo(k, l.y1, l.y2);
    if Steps(l) > 0 {
      if dx >= dy {
        NearEnds(dy, dx);
      } else {
        NearEnds(dx, dy);
      }
      OnMajor(l, k);
    }
  }

  /** After k steps the line is k along its longer axis. */
  lemma OnMajor(l: Line, k: nat)
    requires Steps(l) > 0
    ensures
      var p := PointAt(l, k);
      if Dx(l) >= Dy(l) then p.x == l.x1 + k * Toward(l.x1, l.x2) && Abs(p.x - l.x1) == k
      else p.y == l.y1 + k * Toward(l.y1, l.y2) && Abs(p.y - l.y1) == k
  {
    OneTo(k, l.x1, l.x2);
    OneTo(k, l.y1, l.y2);
  }

  lemma Signs(i: int, j: int, dx: int, dy: int, sx: int, sy: int)
    requires (sx == 1 || sx == -1) && (sy == 1 || sy == -1)
    ensures Abs((j * sy) * (dx * sx) - (i * sx) * (dy * sy)) == Abs(j * dx - i * dy)
  {
    assert (j * sy) * (dx * sx) == if sx == sy then j * dx else -(j * dx);
    assert (i * sx) * (dy * sy) == if sx == sy then i * dy else -(i * dy);
  }

  /** Every point is within half a pixel, along the shorter axis, of the true line through the two ends. */
  lemma Straight(l: Line, k: nat)
    ensures
      var p := PointAt(l, k);
      2 * Abs((p.y - l.y1) * (l.x2 - l.x1) - (p.x - l.x1) * (l.y2 - l.y1)) <= Steps(l)
  {
    var (i, j) := Along(l, k);
    var dx, dy := Dx(l), Dy(l);
    OneTo(i, l.x1, l.x2);
    OneTo(j, l.y1, l.y2);
    if Steps(l) > 0 {
      if dx >= dy {
        NearBounds(k, dy, dx);
      } else {
        NearBounds(k, dx, dy);
      }
    }
    Signs(i, j, dx, dy, Toward(l.x1, l.x2), Toward(l.y1, l.y2));
  }

  /** Consecutive points are neighbours: one pixel on along the longer axis, at most one along the other. */
  lemma Connected(l: Line, k: nat)
    requires k < Steps(l)
    ensures
      var p, q := PointAt(l, k), PointAt(l, k + 1);
      if Dx(l) >= Dy(l) then Abs(q.x - p.x) == 1 && Abs(q.y - p.y) <= 1 else Abs(q.y - p.y) == 1 && Abs(q.x - p.x) <= 1
  {
    StepOn(l, k);
    OnMajor(l, k);
    OnMajor(l, k + 1);
  }

  function Reverse(l: Line): Line {
    Line(l.x2, l.y2, l.x1, l.y1)
  }

  /** Two integers are equally near. */
  predicate Tie(k: nat, minor: nat, major: nat)
    requires major > 0
  {
    (2 * (k * minor) + major) % (2 * major) == 0
  }

  lemma TieIsEdge(k: nat, minor: nat, major: nat)
    requires major > 0
    ensures Tie(k, minor, major) <==> 2 * (Near(k, minor, major) * major - k * minor) == 0 - major
  {
    var a, j := 2 * (k * minor) + major, Near(k, minor, major);
    NearBounds(k, minor, major);
    Doubled(j, major);
    Doubled(j + 1, major);
    Times(j, major);
    var r := a - 2 * (j * major);
    assert 0 < r <= 2 * major;
    if r == 2 * major {
      DivideUnique(a, 2 * major, j + 1, 0);
    } else {
      DivideUnique(a, 2 * major, j, r);
    }
  }

  lemma NearReversed(k: nat, minor: nat, major: nat)
    requires major > 0 && k <= major
    ensures Near(major - k, minor, major) == minor - Near(k, minor, major) <==> !Tie(k, minor, major)
  {
    var j := Near(k, minor, major);
    NearBounds(k, minor, major);
    NearBounds(major - k, minor, major);
    TieIsEdge(k, minor, major);
    assert (minor - j) * major - (major - k) * minor == k * minor - j * major by {
      assert (minor - j) * major == minor * major - j * major;
      assert (major - k) * minor == major * minor - k * minor;
    }
    if !Tie(k, minor, major) {
      NearUnique(minor - j, major - k, minor, major);
    }
  }

  /** Drawn from its other end, a line shows the same point exactly where no two pixels are equally near. */
  lemma ReversedPoint(l: Line, k: nat)
    requires 0 < k < Steps(l) && Dx(l) > 0 && Dy(l) > 0
    ensures
      var minor := if Dx(l) >= Dy(l) then Dy(l) else Dx(l);
      PointAt(Reverse(l), Steps(l) - k) == PointAt(l, k) <==> !Tie(k, minor, Steps(l))
  {
    var n := Steps(l);
    var minor := if Dx(l) >= Dy(l) then Dy(l) else Dx(l);
    NearReversed(k, minor, n);
    var j, j' := Near(k, minor, n), Near(n - k, minor, n);
    if Dx(l) >= Dy(l) {
      Back(n - k, k, l.x1, l.x2);
      Back(j', j, l.y1, l.y2);
    } else {
      Back(j', j, l.x1, l.x2);
      Back(n - k, k, l.y1, l.y2);
    }
  }

  /** i steps back from one end is where j steps from the other end leads, exactly when they add up to the way. */
  lemma Back(i: int, j: int, from: int, to: int)
    requires from != to
    ensures to + i * Toward(to, from) == from + j * Toward(from, to) <==> i == Abs(to - from) - j
  {
    OneTo(i, from, to);
    assert i * Toward(to, from) == -(i * Toward(from, to));
  }

  // Drawing.

  predicate OnScreen(p: Point) {
    0 <= p.x < SCREEN_W && 0 <= p.y < SCREEN_H
  }

  /** A point's place in the back buffer, or -1 off the screen. */
  function PixelOf(p: Point): int {
    if OnScreen(p) then p.y * SCREEN_W + p.x else -1
  }

  lemma PixelUnique(p: Point, q: Point)
    requires OnScreen(p)
    ensures 0 <= PixelOf(p) < SCREEN_W * SCREEN_H
    ensures PixelOf(p) == PixelOf(q) <==> p == q
  {
  }

  /** Pixel i is shown by one of the line's first n points. */
  predicate Shows(l: Line, n: nat, i: int) {
    exists k :: 0 <= k < n && PixelOf(PointAt(l, k)) == i
  }

  predicate Painted(before: seq<int>, after: seq<int>, l: Line, n: nat, color: int) {
    && |after| == |before|
    && forall i | 0 <= i < |before| :: after[i] == if Shows(l, n, i) then color else before[i]
  }

  class Screen {
    var backBuffer: array?<int>

    predicate Ready()
      reads this
    {
      backBuffer == null || backBuffer.Length == SCREEN_W * SCREEN_H
    }

    constructor (buffer: array?<int>)
      requires buffer == null || buffer.Length == SCREEN_W * SCREEN_H
      ensures backBuffer == buffer
    {
      backBuffer := buffer;
    }

    method PutPixel(x: int32, y: int32, color: int)
      requires Ready()
      modifies backBuffer
      ensures PixelOf(Point(x as int, y as int)) < SCREEN_W * SCREEN_H
      ensures
        var i := PixelOf(Point(x as int, y as int));
        backBuffer != null ==> backBuffer[..] == if i >= 0 then old(backBuffer[..])[i := color] else old(backBuffer[..])
    {
      if backBuffer == null || x < 0 || x >= SCREEN_W as int32 || y < 0 || y >= SCREEN_H as int32 {
        return;
      }
      PixelUnique(Point(x as int, y as int), Point(x as int, y as int));
      backBuffer[(y * (SCREEN_W as int32) + x) as int] := color;
    }

    /** Draws exactly the line's points, the part of them that is on the screen, and comes to an end. */
    method DrawLine(xs: int32, ys: int32, x2: int32, y2: int32, color: int)
      requires Ready()
      requires FitsInt(Line(xs as int, ys as int, x2 as int, y2 as int))
      modifies backBuffer
      ensures
        var l := Line(xs as int, ys as int, x2 as int, y2 as int);
        backBuffer != null ==> Painted(old(backBuffer[..]), backBuffer[..], l, Steps(l) + 1, color)
    {
      hide PixelOf, ErrorAt, PointAt, Painted, Near;
      ghost var l := Line(xs as int, ys as int, x2 as int, y2 as int);
      var x1, y1 := xs, ys;
      var dx := if x2 > x1 then x2 - x1 else x1 - x2;
      var dy := if y2 > y1 then y2 - y1 else y1 - y2;
      var sx: int32 := if x1 < x2 then 1 else -1;
      var sy: int32 := if y1 < y2 then 1 else -1;
      var err := dx - dy;
      ghost var k := 0;
      LineEnds(l, 0);
      ErrorStart(l);
      if backBuffer != null {
        NothingPainted(backBuffer[..], l, color);
      }
      while true
        invariant 0 <= k <= Steps(l) && PointAt(l, k) == Point(x1 as int, y1 as int) && ErrorAt(l, k) == err as int
        invariant backBuffer != null ==> Painted(old(backBuffer[..]), backBuffer[..], l, k, color)
        decreases Steps(l) - k
      {
        hide Steps, Dx, Dy, Toward, Minor, FitsInt;
        ghost var before := if backBuffer == null then [] else backBuffer[..];
        PutPixel(x1, y1, color);
        if backBuffer != null {
          PaintOne(old(backBuffer[..]), before, backBuffer[..], l, k, color);
        }
        LineEnds(l, k);
        if x1 == x2 && y1 == y2 {
          break;
        }
        Turn(l, k);
        x1, y1, err := Move(l, k, x1, y1, err, dx, dy, sx, sy);
        k := k + 1;
      }
    }

    /** The moves of one turn; no sum or product in them leaves the range of an int. */
    method Move(ghost l: Line, ghost k: nat, x: int32, y: int32, error: int32, dx: int32, dy: int32, sx: int32, sy: int32)
      returns (x1: int32, y1: int32, err: int32)
      requires dx as int == Dx(l) && dy as int == Dy(l) && sx as int == Toward(l.x1, l.x2) && sy as int == Toward(l.y1, l.y2)
      requires Moves(l, k, Point(x as int, y as int), error as int)
      ensures PointAt(l, k + 1) == Point(x1 as int, y1 as int) && ErrorAt(l, k + 1) == err as int
    {
      hide PointAt, ErrorAt;
      x1, y1, err := x, y, error;
      var e2 := 2 * err;
      if e2 > -dy {
        err := err - dy;
        x1 := x1 + sx;
      }
      if e2 < dx {
        err := err + dx;
        y1 := y1 + sy;
      }
    }
  }

  predicate Small(x: int) {
    -0x8000_0000 <= x < 0x8000_0000
  }

  /** From a point and error term, the tests of one turn lead to the next ones, all in the range of an int. */
  predicate Moves(l: Line, k: nat, p: Point, e: int) {
    var h, v := 2 * e > 0 - Dy(l), 2 * e < Dx(l);
    var q := PointAt(l, k + 1);
    && q == Point(if h then p.x + Toward(l.x1, l.x2) else p.x, if v then p.y + Toward(l.y1, l.y2) else p.y)
    && ErrorAt(l, k + 1) == e - (if h then Dy(l) else 0) + (if v then Dx(l) else 0)
    && Small(2 * e) && (h ==> Small(e - Dy(l))) && Small(ErrorAt(l, k + 1)) && Small(q.x) && Small(q.y)
  }

  lemma Turn(l: Line, k: nat)
    requires k < Steps(l) && FitsInt(l) && Small(l.x1) && Small(l.x2) && Small(l.y1) && Small(l.y2)
    ensures Moves(l, k, PointAt(l, k), ErrorAt(l, k))
  {
    hide PointAt, ErrorAt;
    StepOn(l, k);
    StepStays(l, k);
    ErrorRange(l, k);
    ErrorRange(l, k + 1);
  }

  /** Between its ends a line stays between their coordinates. */
  lemma StepStays(l: Line, k: nat)
    requires k < Steps(l)
    ensures
      var q := PointAt(l, k + 1);
      && (l.x1 <= q.x <= l.x2 || l.x2 <= q.x <= l.x1) && (l.y1 <= q.y <= l.y2 || l.y2 <= q.y <= l.y1)
  {
    var dx, dy, n := Dx(l), Dy(l), k + 1;
    if dx >= dy {
      NearBetween(n, dy, dx);
      NearBounds(n, dy, dx);
    } else {
      NearBetween(n, dx, dy);
      NearBounds(n, dx, dy);
    }
    var (i, j) := Along(l, n);
    Reached(i, l.x1, l.x2);
    Reached(j, l.y1, l.y2);
  }

  lemma Reached(i: int, from: int, to: int)
    requires 0 <= i <= Abs(to - from)
    ensures from <= from + i * Toward(from, to) <= to || to <= from + i * Toward(from, to) <= from
  {
  }

  lemma Grows(a: int, b: int, n: nat)
    requires a < b
    ensures a * n + n <= b * n
  {
    MulStep(n, a, b);
  }

  lemma NearBetween(k: nat, minor: nat, major: nat)
    requires 0 < major && k <= major
    ensures 0 <= Near(k, minor, major) <= minor
  {
    var j := Near(k, minor, major);
    NearBounds(k, minor, major);
    assert 0 <= k * minor <= major * minor;
    if j < 0 {
      Grows(j, 0, major);
    } else if j > minor {
      Grows(minor, j, major);
    }
  }

  lemma NothingPainted(start: seq<int>, l: Line, color: int)
    ensures Painted(start, start, l, 0, color)
  {
  }

  lemma PaintOne(start: seq<int>, before: seq<int>, after: seq<int>, l: Line, k: nat, color: int)
    requires Painted(start, before, l, k, color) && |start| == SCREEN_W * SCREEN_H
    requires
      var i := PixelOf(PointAt(l, k));
      i < |before| && after == if i >= 0 then before[i := color] else before
    ensures Painted(start, after, l, k + 1, color)
  {
    hide PixelOf;
    forall i | 0 <= i < |start| ensures after[i] == if Shows(l, k + 1, i) then color else start[i] {
      ShowsMore(l, k, i);
    }
  }

  lemma ShowsMore(l: Line, k: nat, i: int)
    ensures Shows(l, k + 1, i) <==> Shows(l, k, i) || PixelOf(PointAt(l, k)) == i
  {
    hide PixelOf, PointAt;
    if Shows(l, k, i) {
      var j :| 0 <= j < k && PixelOf(PointAt(l, j)) == i;
      assert 0 <= j < k + 1 && PixelOf(PointAt(l, j)) == i;
    }
  }
}
