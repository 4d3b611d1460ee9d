/** The integer line rasteriser of the console engine, as the sequence of
    points it visits, with the facts the algorithm is known for: how many
    points, where they start and end, 8-connectivity, nearness to the ideal
    line and independence of the direction the line is drawn in. */
module Bresenham {

  datatype Point = Point(x: int, y: int)

  /** Absolute value, as the engine's `abs` helper computes it. */
  function Abs(n: int): (r: int)
    ensures r >= 0
    ensures r == n || r == -n
  {
    if n < 0 then -n else n
  }

  function Max(a: int, b: int): int {
    if a < b then b else a
  }

  function Sign(n: int): int {
    if n > 0 then 1 else if n < 0 then -1 else 0
  }

  /** Direction of a minor-axis step: +1 when both deltas have the same
      strict sign, -1 otherwise (including when either delta is zero). */
  function Direction(dx: int, dy: int): int {
    if (dx < 0 && dy < 0) || (dx > 0 && dy > 0) then 1 else -1
  }

  /** The minor step goes forwards exactly when the product of the deltas
      is positive, that is when the line rises to the right or falls to
      the left. */
  lemma {:induction false} DirectionAgreement(dx: int, dy: int)
    ensures Direction(dx, dy) == 1 || Direction(dx, dy) == -1
    ensures Direction(dx, dy) == 1 <==> dx * dy > 0
  {
    if dx > 0 && dy < 0 {
      assert dx * dy < 0;
    } else if dx < 0 && dy > 0 {
      assert dx * dy < 0;
    } else if dx > 0 && dy > 0 {
      assert dx * dy > 0;
    } else if dx < 0 && dy < 0 {
      assert dx * dy > 0;
    }
  }

  /** What stays fixed while a line is walked: the major and minor deltas
      (both non-negative), the minor step direction, whether a zero error
      already causes a minor step, and which axis is the major one. */
  datatype Stepper = Stepper(dMajor: int, dMinor: int, dir: int, stepOnTie: bool, yMajor: bool)
  {
    ghost predicate Valid() {
      0 <= dMinor <= dMajor && (dir == 1 || dir == -1)
    }

    function Place(major: int, minor: int): Point {
      if yMajor then Point(minor, major) else Point(major, minor)
    }

    function Major(p: Point): int {
      if yMajor then p.y else p.x
    }

    function Minor(p: Point): int {
      if yMajor then p.x else p.y
    }

    /** The error test: the x-driven loop steps the minor axis unless
        `px < 0`, the y-driven loop only when `py > 0`. */
    predicate StepsMinor(err: int) {
      if stepOnTie then err >= 0 else err > 0
    }

    /** Number of minor steps (in direction `dir`) from minor coordinate
        `n0` to `n`. */
    function Advance(n0: int, n: int): int {
      if dir == 1 then n - n0 else n0 - n
    }

    /** Error accumulator after `k` major and `j` minor steps. */
    ghost function ErrAt(k: int, j: int): int {
      2 * dMinor * (k + 1) - dMajor * (2 * j + 1)
    }

    /** After `k` major steps, `j` minor steps is the ideal minor offset
        k*dMinor/dMajor rounded to the nearest integer: half-way cases are
        rounded up when a zero error steps, down otherwise. */
    ghost predicate Near(k: int, j: int) {
      var e := 2 * dMinor * k - 2 * dMajor * j;
      if stepOnTie then -dMajor <= e < dMajor else -dMajor < e <= dMajor
    }
  }

  /** The points the rasteriser's loop paints after its first one: from
      major coordinate `major` it repeatedly advances the major axis by one
      and, as the error accumulator says, the minor axis by `dir`, until it
      reaches `end`. */
  function Walk(st: Stepper, major: int, minor: int, end: int, err: int): seq<Point>
    decreases end - major
  {
    if major >= end then []
    else
      var step := st.StepsMinor(err);
      var minor' := if step then minor + st.dir else minor;
      var err' := if step then err + 2 * (st.dMinor - st.dMajor) else err + 2 * st.dMinor;
      [st.Place(major + 1, minor')] + Walk(st, major + 1, minor', end, err')
  }

  /** How a line is set up: the stepper, the first point painted, the major
      coordinate the loop stops at and the initial error. */
  datatype Plan = Plan(st: Stepper, start: Point, end: int, err0: int)

  /** The x-driven regime is taken when |dy| <= |dx|, the y-driven one
      otherwise; the start is the endpoint with the smaller major
      coordinate (the first one when the major delta is zero). */
  function LinePlan(x1: int, y1: int, x2: int, y2: int): Plan {
    var dx, dy := x2 - x1, y2 - y1;
    var dx1, dy1 := Abs(dx), Abs(dy);
    var dir := Direction(dx, dy);
    if dy1 <= dx1 then
      var st := Stepper(dx1, dy1, dir, true, false);
      if dx >= 0 then Plan(st, Point(x1, y1), x2, 2 * dy1 - dx1)
      else Plan(st, Point(x2, y2), x1, 2 * dy1 - dx1)
    else
      var st := Stepper(dy1, dx1, dir, false, true);
      if dy >= 0 then Plan(st, Point(x1, y1), y2, 2 * dx1 - dy1)
      else Plan(st, Point(x2, y2), y1, 2 * dx1 - dy1)
  }

  /** Every point `drawLine(x1, y1, x2, y2)` paints, in painting order. */
  function Line(x1: int, y1: int, x2: int, y2: int): seq<Point> {
    var pl := LinePlan(x1, y1, x2, y2);
    [pl.start] + Walk(pl.st, pl.st.Major(pl.start), pl.st.Minor(pl.start), pl.end, pl.err0)
  }

  /** The major delta of a line: dx in the x-driven regime, dy otherwise. */
  function MajorDelta(x1: int, y1: int, x2: int, y2: int): int {
    if Abs(y2 - y1) <= Abs(x2 - x1) then x2 - x1 else y2 - y1
  }

  // ---------------------------------------------------------------------
  // Facts about one walk

  /** Moving the next point from the rest of a walk onto the points
      already visited keeps their concatenation. */
  lemma {:induction false} VisitNext(visited: seq<Point>, p: Point, rest: seq<Point>, line: seq<Point>)
    requires visited + ([p] + rest) == line
    ensures (visited + [p]) + rest == line
  {
    assert visited + ([p] + rest) == (visited + [p]) + rest;
  }

  /** One loop iteration: the next point painted, then the rest. */
  lemma {:induction false} WalkNext(st: Stepper, m: int, n: int, e: int, err: int)
    requires m < e
    ensures var step := st.StepsMinor(err);
      var n' := if step then n + st.dir else n;
      var err' := if step then err + 2 * (st.dMinor - st.dMajor) else err + 2 * st.dMinor;
      Walk(st, m, n, e, err) == [st.Place(m + 1, n')] + Walk(st, m + 1, n', e, err')
  {
  }

  lemma {:induction false} WalkShape(st: Stepper, m: int, n: int, e: int, err: int)
    ensures var w := Walk(st, m, n, e, err);
      |w| == (if m < e then e - m else 0) &&
      forall t :: 0 <= t < |w| ==> st.Major(w[t]) == m + t + 1
    decreases e - m
  {
    if m < e {
      var step := st.StepsMinor(err);
      var n' := if step then n + st.dir else n;
      var err' := if step then err + 2 * (st.dMinor - st.dMajor) else err + 2 * st.dMinor;
      WalkShape(st, m + 1, n', e, err');
    }
  }

  /** Consecutive points of a walk (the point before the first being the
      walk's origin) differ by one on the major axis and by 0 or `dir` on
      the minor axis. */
  lemma {:induction false} WalkStep(st: Stepper, m: int, n: int, e: int, err: int, t: int)
    requires 0 <= t < |Walk(st, m, n, e, err)|
    ensures var w := Walk(st, m, n, e, err);
      var prev := if t == 0 then st.Place(m, n) else w[t - 1];
      st.Major(w[t]) == st.Major(prev) + 1 &&
      (st.Minor(w[t]) == st.Minor(prev) || st.Minor(w[t]) == st.Minor(prev) + st.dir)
    decreases e - m
  {
    var step := st.StepsMinor(err);
    var n' := if step then n + st.dir else n;
    var err' := if step then err + 2 * (st.dMinor - st.dMajor) else err + 2 * st.dMinor;
    var w := Walk(st, m, n, e, err);
    assert w == [st.Place(m + 1, n')] + Walk(st, m + 1, n', e, err');
    if t > 0 {
      WalkStep(st, m + 1, n', e, err', t - 1);
    }
  }

  /** The error accumulator keeps every painted point within half a cell of
      the ideal line through the origin (m0, n0). */
  lemma {:induction false} WalkNear(st: Stepper, m0: int, n0: int, m: int, n: int, e: int, err: int, t: int)
    requires st.Valid() && st.dMajor > 0
    requires err == st.ErrAt(m - m0, st.Advance(n0, n))
    requires st.Near(m - m0, st.Advance(n0, n))
    requires 0 <= t < |Walk(st, m, n, e, err)|
    ensures var w := Walk(st, m, n, e, err);
      st.Near(st.Major(w[t]) - m0, st.Advance(n0, st.Minor(w[t])))
    decreases e - m
  {
    var step := st.StepsMinor(err);
    var n' := if step then n + st.dir else n;
    var err' := if step then err + 2 * (st.dMinor - st.dMajor) else err + 2 * st.dMinor;
    var k, j := m - m0, st.Advance(n0, n);
    var j' := st.Advance(n0, n');
    assert j' == if step then j + 1 else j;
    NearStep(st, k, j, err);
    if t > 0 {
      WalkNear(st, m0, n0, m + 1, n', e, err', t - 1);
    }
  }

  /** One iteration of the loop keeps the error accumulator equal to
      ErrAt and the painted point near the ideal line. */
  lemma {:induction false} NearStep(st: Stepper, k: int, j: int, err: int)
    requires st.Valid()
    requires err == st.ErrAt(k, j) && st.Near(k, j)
    ensures var step := st.StepsMinor(err);
      var j' := if step then j + 1 else j;
      var err' := if step then err + 2 * (st.dMinor - st.dMajor) else err + 2 * st.dMinor;
      err' == st.ErrAt(k + 1, j') && st.Near(k + 1, j')
  {
    var a, b := st.dMajor, st.dMinor;
    var e := 2 * b * k - 2 * a * j;
    assert err == e + 2 * b - a;
    assert st.ErrAt(k + 1, j) == err + 2 * b;
    assert st.ErrAt(k + 1, j + 1) == err + 2 * b - 2 * a;
    assert 2 * b * (k + 1) - 2 * a * j == e + 2 * b;
    assert 2 * b * (k + 1) - 2 * a * (j + 1) == e + 2 * b - 2 * a;
  }

  /** An integer z with |2 a z| <= a is zero. */
  lemma {:induction false} ZeroBand(a: int, z: int)
    requires a > 0 && -a <= 2 * a * z <= a
    ensures z == 0
  {
  }

  /** Near at the end of the major span pins the minor offset. */
  lemma {:induction false} NearAtEnd(st: Stepper, j: int)
    requires st.Valid() && st.dMajor > 0
    requires st.Near(st.dMajor, j)
    ensures j == st.dMinor
  {
    assert 2 * st.dMinor * st.dMajor - 2 * st.dMajor * j == 2 * st.dMajor * (st.dMinor - j);
    ZeroBand(st.dMajor, st.dMinor - j);
  }

  /** With no minor delta the walk never leaves the origin's minor line. */
  lemma {:induction false} NearFlat(st: Stepper, k: int, j: int)
    requires st.Valid() && st.dMajor > 0 && st.dMinor == 0
    requires st.Near(k, j)
    ensures j == 0
  {
    assert 2 * st.dMinor * k - 2 * st.dMajor * j == 2 * st.dMajor * -j;
    ZeroBand(st.dMajor, -j);
  }

  // ---------------------------------------------------------------------
  // Facts about the plan of a line

  lemma {:induction false} PlanFacts(x1: int, y1: int, x2: int, y2: int)
    ensures var pl := LinePlan(x1, y1, x2, y2);
      pl.st.Valid() &&
      pl.st.dMajor == Max(Abs(x2 - x1), Abs(y2 - y1)) &&
      pl.st.yMajor == (Abs(y2 - y1) > Abs(x2 - x1)) &&
      pl.end - pl.st.Major(pl.start) == pl.st.dMajor &&
      pl.err0 == pl.st.ErrAt(0, 0) &&
      (pl.st.dMajor > 0 ==> pl.st.Near(0, 0))
  {
  }

  /** The last point reached is the far endpoint (the minor offset there is
      the whole minor delta). */
  lemma {:induction false} FarEnd(x1: int, y1: int, x2: int, y2: int)
    ensures var pl := LinePlan(x1, y1, x2, y2);
      var far := if pl.start == Point(x1, y1) then Point(x2, y2) else Point(x1, y1);
      pl.st.Place(pl.end, pl.st.Minor(pl.start) + pl.st.dir * pl.st.dMinor) == far &&
      pl.st.Advance(pl.st.Minor(pl.start), pl.st.Minor(far)) == pl.st.dMinor
  {
  }

  // ---------------------------------------------------------------------
  // Facts about a whole line

  /** `drawLine` paints max(|dx|, |dy|) + 1 points; the first is the
      endpoint with the smaller major coordinate and the last is the other
      endpoint, so a line from a point to itself paints just that point. */
  lemma {:induction false} LineEnds(x1: int, y1: int, x2: int, y2: int)
    ensures var l := Line(x1, y1, x2, y2);
      |l| == Max(Abs(x2 - x1), Abs(y2 - y1)) + 1 &&
      (MajorDelta(x1, y1, x2, y2) >= 0 ==> l[0] == Point(x1, y1) && l[|l| - 1] == Point(x2, y2)) &&
      (MajorDelta(x1, y1, x2, y2) < 0 ==> l[0] == Point(x2, y2) && l[|l| - 1] == Point(x1, y1))
  {
    var pl := LinePlan(x1, y1, x2, y2);
    var st := pl.st;
    var m, n := st.Major(pl.start), st.Minor(pl.start);
    var w := Walk(st, m, n, pl.end, pl.err0);
    var l := Line(x1, y1, x2, y2);
    PlanFacts(x1, y1, x2, y2);
    FarEnd(x1, y1, x2, y2);
    WalkShape(st, m, n, pl.end, pl.err0);
    if st.dMajor > 0 {
      var t := |w| - 1;
      WalkNear(st, m, n, m, n, pl.end, pl.err0, t);
      NearAtEnd(st, st.Advance(n, st.Minor(w[t])));
      assert l[|l| - 1] == w[t];
    }
  }

  lemma {:induction false} LineHasEndpoints(x1: int, y1: int, x2: int, y2: int)
    ensures Point(x1, y1) in Line(x1, y1, x2, y2)
    ensures Point(x2, y2) in Line(x1, y1, x2, y2)
  {
    LineEnds(x1, y1, x2, y2);
    var l := Line(x1, y1, x2, y2);
    assert l[0] in l && l[|l| - 1] in l;
  }

  lemma {:induction false} LineDegenerate(x: int, y: int)
    ensures Line(x, y, x, y) == [Point(x, y)]
  {
  }

  /** Along a line the major coordinate of the i-th point is the start's
      plus i, and its minor offset from the start is the ideal one rounded
      to the nearest integer (ties: x-driven lines step, y-driven ones do
      not), hence within half a cell of the true line. */
  lemma {:induction false} LineNearIdeal(x1: int, y1: int, x2: int, y2: int, i: int)
    requires Point(x1, y1) != Point(x2, y2)
    requires 0 <= i < |Line(x1, y1, x2, y2)|
    ensures var pl := LinePlan(x1, y1, x2, y2);
      var l := Line(x1, y1, x2, y2);
      pl.st.Major(l[i]) == pl.st.Major(l[0]) + i &&
      pl.st.Near(i, pl.st.Advance(pl.st.Minor(l[0]), pl.st.Minor(l[i])))
  {
    var pl := LinePlan(x1, y1, x2, y2);
    var st := pl.st;
    var m, n := st.Major(pl.start), st.Minor(pl.start);
    var w := Walk(st, m, n, pl.end, pl.err0);
    PlanFacts(x1, y1, x2, y2);
    WalkShape(st, m, n, pl.end, pl.err0);
    if i > 0 {
      WalkNear(st, m, n, m, n, pl.end, pl.err0, i - 1);
      assert Line(x1, y1, x2, y2)[i] == w[i - 1];
    }
  }

  /** 8-connectivity: consecutive points advance the major axis by exactly
      one and move the minor axis by at most one, towards the last point. */
  lemma {:induction false} LineConnected(x1: int, y1: int, x2: int, y2: int, i: int)
    requires 0 <= i < |Line(x1, y1, x2, y2)| - 1
    ensures var l := Line(x1, y1, x2, y2);
      var a, b := l[i], l[i + 1];
      if Abs(y2 - y1) <= Abs(x2 - x1) then
        b.x == a.x + 1 && (b.y == a.y || b.y == a.y + Sign(l[|l| - 1].y - l[0].y))
      else
        b.y == a.y + 1 && (b.x == a.x || b.x == a.x + Sign(l[|l| - 1].x - l[0].x))
  {
    var pl := LinePlan(x1, y1, x2, y2);
    var st := pl.st;
    var m, n := st.Major(pl.start), st.Minor(pl.start);
    var w := Walk(st, m, n, pl.end, pl.err0);
    var l := Line(x1, y1, x2, y2);
    PlanFacts(x1, y1, x2, y2);
    FarEnd(x1, y1, x2, y2);
    LineEnds(x1, y1, x2, y2);
    WalkShape(st, m, n, pl.end, pl.err0);
    WalkStep(st, m, n, pl.end, pl.err0, i);
    assert l[i + 1] == w[i];
    assert l[i] == if i == 0 then st.Place(m, n) else w[i - 1];
    if st.dMinor == 0 {
      LineNearIdeal(x1, y1, x2, y2, i);
      LineNearIdeal(x1, y1, x2, y2, i + 1);
      NearFlat(st, i, st.Advance(n, st.Minor(l[i])));
      NearFlat(st, i + 1, st.Advance(n, st.Minor(l[i + 1])));
    }
  }

  /** A line whose minor delta is zero keeps its minor coordinate. */
  lemma {:induction false} LineFlat(x1: int, y1: int, x2: int, y2: int, i: int)
    requires Point(x1, y1) != Point(x2, y2)
    requires LinePlan(x1, y1, x2, y2).st.dMinor == 0
    requires 0 <= i < |Line(x1, y1, x2, y2)|
    ensures var st := LinePlan(x1, y1, x2, y2).st;
      st.Minor(Line(x1, y1, x2, y2)[i]) == st.Minor(Line(x1, y1, x2, y2)[0])
  {
    var st := LinePlan(x1, y1, x2, y2).st;
    var l := Line(x1, y1, x2, y2);
    PlanFacts(x1, y1, x2, y2);
    LineNearIdeal(x1, y1, x2, y2, i);
    NearFlat(st, i, st.Advance(st.Minor(l[0]), st.Minor(l[i])));
  }

  /** A horizontal line keeps y, a vertical one keeps x. */
  lemma {:induction false} LineAxisAligned(x1: int, y1: int, x2: int, y2: int, i: int)
    requires 0 <= i < |Line(x1, y1, x2, y2)|
    ensures y1 == y2 ==> Line(x1, y1, x2, y2)[i].y == y1
    ensures x1 == x2 ==> Line(x1, y1, x2, y2)[i].x == x1
  {
    var pl := LinePlan(x1, y1, x2, y2);
    if Point(x1, y1) == Point(x2, y2) {
      LineDegenerate(x1, y1);
    } else if y1 == y2 || x1 == x2 {
      assert pl.st.dMinor == 0 && pl.st.yMajor == (x1 == x2);
      assert Line(x1, y1, x2, y2)[0] == pl.start;
      LineFlat(x1, y1, x2, y2, i);
    }
  }

  /** Drawing a line from q to p paints the very same points, in the same
      order, as drawing it from p to q. */
  lemma {:induction false} LineReversible(x1: int, y1: int, x2: int, y2: int)
    ensures Line(x1, y1, x2, y2) == Line(x2, y2, x1, y1)
  {
    assert LinePlan(x1, y1, x2, y2) == LinePlan(x2, y2, x1, y1);
  }

  /** The tie-break asymmetry: on a zero error the x-driven loop steps the
      minor axis and the y-driven loop does not, so a line and its mirror
      image in the diagonal are not mirror images of each other. */
  lemma {:induction false} TieBreakExamples()
    ensures Line(0, 0, 2, 1) == [Point(0, 0), Point(1, 1), Point(2, 1)]
    ensures Line(0, 0, 1, 2) == [Point(0, 0), Point(0, 1), Point(1, 2)]
  {
  }
}
