/** The integer path/zone geometry of the evaluator, and what it means over the reals. */
module Geometry {

  const MAX_ABS_COORDINATE_MM := 10_000_000
  const MAX_EXACT_DOUBLE := 0x20_0000_0000_0000

  datatype Point = Point(x: int, y: int)

  datatype Rectangle = Rectangle(minX: int, minY: int, maxX: int, maxY: int) {
    predicate Positive() {
      minX < maxX && minY < maxY
    }
  }

  function Min(a: int, b: int): int {
    if a <= b then a else b
  }

  function Max(a: int, b: int): int {
    if a <= b then b else a
  }

  predicate PointInside(p: Point, r: Rectangle) {
    && r.minX <= p.x <= r.maxX
    && r.minY <= p.y <= r.maxY
  }

  function Orientation(first: Point, second: Point, third: Point): int {
    (second.x - first.x) * (third.y - first.y) - (second.y - first.y) * (third.x - first.x)
  }

  predicate PointOnSegment(p: Point, start: Point, end: Point) {
    && Orientation(start, end, p) == 0
    && Min(start.x, end.x) <= p.x <= Max(start.x, end.x)
    && Min(start.y, end.y) <= p.y <= Max(start.y, end.y)
  }

  predicate OppositeSigns(a: int, b: int) {
    (a > 0 && b < 0) || (a < 0 && b > 0)
  }

  predicate SegmentsIntersect(s1: Point, e1: Point, s2: Point, e2: Point) {
    var o1 := Orientation(s1, e1, s2);
    var o2 := Orientation(s1, e1, e2);
    var o3 := Orientation(s2, e2, s1);
    var o4 := Orientation(s2, e2, e1);
    || (OppositeSigns(o1, o2) && OppositeSigns(o3, o4))
    || (o1 == 0 && PointOnSegment(s2, s1, e1))
    || (o2 == 0 && PointOnSegment(e2, s1, e1))
    || (o3 == 0 && PointOnSegment(s1, s2, e2))
    || (o4 == 0 && PointOnSegment(e1, s2, e2))
  }

  predicate SegmentIntersectsRectangle(start: Point, end: Point, r: Rectangle) {
    || PointInside(start, r)
    || PointInside(end, r)
    || (var bottomLeft := Point(r.minX, r.minY);
        var bottomRight := Point(r.maxX, r.minY);
        var topRight := Point(r.maxX, r.maxY);
        var topLeft := Point(r.minX, r.maxY);
        || SegmentsIntersect(start, end, bottomLeft, bottomRight)
        || SegmentsIntersect(start, end, bottomRight, topRight)
        || SegmentsIntersect(start, end, topRight, topLeft)
        || SegmentsIntersect(start, end, topLeft, bottomLeft))
  }

  // ---------- The real-valued meaning ----------

  /** One coordinate of the robot at time t of a step from a to b. */
  ghost function At(a: int, b: int, t: real): real {
    a as real + t * (b - a) as real
  }

  ghost predicate InsideAt(start: Point, end: Point, t: real, r: Rectangle) {
    && r.minX as real <= At(start.x, end.x, t) <= r.maxX as real
    && r.minY as real <= At(start.y, end.y, t) <= r.maxY as real
  }

  /** Some point of the continuous step lies in the closed rectangle. */
  ghost predicate PathMeets(start: Point, end: Point, r: Rectangle) {
    exists t: real :: 0.0 <= t <= 1.0 && InsideAt(start, end, t, r)
  }

  // ---------- Linear motion in one coordinate ----------

  lemma ScaleStrict(x: real, y: real, d: real)
    requires x < y
    ensures d > 0.0 ==> x * d < y * d
    ensures d < 0.0 ==> x * d > y * d
  {
  }

  /** A coordinate that reaches or passes c from a strict side takes the value c on the way. */
  lemma CrossingTime(a: int, b: int, t: real, c: int) returns (t0: real)
    requires 0.0 <= t <= 1.0
    requires (a < c && c as real <= At(a, b, t)) || (c < a && At(a, b, t) <= c as real)
    ensures 0.0 < t0 <= t
    ensures At(a, b, t0) == c as real
  {
    var d := (b - a) as real;
    var g := (c - a) as real;
    assert a < c ==> t * d >= g > 0.0;
    assert c < a ==> t * d <= g < 0.0;
    assert d != 0.0;
    t0 := g / d;
    assert t0 * d == g;
    if t0 > t {
      ScaleStrict(t, t0, d);
    }
    if t0 < 0.0 {
      ScaleStrict(t0, 0.0, d);
    }
  }

  /** Motion is monotone: a later time is further in the same direction. */
  lemma Monotone(a: int, b: int, t0: real, t1: real)
    requires t0 <= t1
    ensures a <= b ==> At(a, b, t0) <= At(a, b, t1)
    ensures a >= b ==> At(a, b, t0) >= At(a, b, t1)
  {
    var d := (b - a) as real;
    if a <= b {
      assert t0 * d <= t1 * d;
    } else {
      assert t0 * d >= t1 * d;
    }
  }

  lemma StaysWithin(a: int, b: int, t0: real, t: real, t1: real, lo: int, hi: int)
    requires t0 <= t <= t1
    requires lo as real <= At(a, b, t0) <= hi as real
    requires lo as real <= At(a, b, t1) <= hi as real
    ensures lo as real <= At(a, b, t) <= hi as real
  {
    Monotone(a, b, t0, t);
    Monotone(a, b, t, t1);
  }

  lemma AtEnds(a: int, b: int)
    ensures At(a, b, 0.0) == a as real
    ensures At(a, b, 1.0) == b as real
  {
  }

  // ---------- A horizontal edge ----------

  /** The orientation of a point on the line y = c, read as a distance from the crossing point. */
  lemma OrientationAtCrossing(s: Point, e: Point, t: real, c: int, px: int)
    requires At(s.y, e.y, t) == c as real
    ensures Orientation(s, e, Point(px, c)) as real == (e.y - s.y) as real * (At(s.x, e.x, t) - px as real)
  {
    var dx, dy := (e.x - s.x) as real, (e.y - s.y) as real;
    var q := (px - s.x) as real;
    assert (c - s.y) as real == t * dy;
    assert Orientation(s, e, Point(px, c)) as real == dx * (c - s.y) as real - dy * q by {
      assert ((e.x - s.x) * (c - s.y)) as real == dx * (c - s.y) as real;
      assert ((e.y - s.y) * (px - s.x)) as real == dy * q;
    }
    assert dx * (t * dy) - dy * q == dy * (t * dx - q);
  }

  /** Two segments whose end points lie strictly on both sides of each other meet. */
  lemma Crossing(s: Point, e: Point, a: Point, b: Point)
    requires OppositeSigns(Orientation(s, e, a), Orientation(s, e, b))
    requires OppositeSigns(Orientation(a, b, s), Orientation(a, b, e))
    requires OppositeSigns(Orientation(b, a, s), Orientation(b, a, e))
    ensures SegmentsIntersect(s, e, a, b) && SegmentsIntersect(s, e, b, a)
  {
  }

  /** A segment that passes through an end point of another meets it. */
  lemma Touching(s: Point, e: Point, a: Point, b: Point)
    requires PointOnSegment(a, s, e)
    ensures SegmentsIntersect(s, e, a, b) && SegmentsIntersect(s, e, b, a)
  {
  }

  /** The ends of the path lie on different sides of the line of the edge. */
  lemma EdgeOpposite(s: Point, e: Point, c: int, lo: int, hi: int)
    requires lo < hi && OppositeSigns(s.y - c, e.y - c)
    ensures OppositeSigns(Orientation(Point(lo, c), Point(hi, c), s), Orientation(Point(lo, c), Point(hi, c), e))
    ensures OppositeSigns(Orientation(Point(hi, c), Point(lo, c), s), Orientation(Point(hi, c), Point(lo, c), e))
  {
    EdgeSides(s, c, lo, hi);
    EdgeSides(e, c, lo, hi);
  }

  /** The ends of the edge lie on different sides of the line of the path that crosses between them. */
  lemma PathOpposite(s: Point, e: Point, t: real, c: int, lo: int, hi: int)
    requires At(s.y, e.y, t) == c as real && s.y != e.y
    requires lo as real < At(s.x, e.x, t) < hi as real
    ensures OppositeSigns(Orientation(s, e, Point(lo, c)), Orientation(s, e, Point(hi, c)))
  {
    var x := At(s.x, e.x, t);
    var dy := (e.y - s.y) as real;
    OrientationAtCrossing(s, e, t, c, lo);
    OrientationAtCrossing(s, e, t, c, hi);
    ProductSign(dy, x - lo as real);
    ProductSign(dy, x - hi as real);
  }

  /** A path point on a horizontal edge makes the integer test of that edge succeed. */
  lemma HorizontalEdgeHit(s: Point, e: Point, t: real, c: int, lo: int, hi: int)
    requires 0.0 <= t <= 1.0
    requires At(s.y, e.y, t) == c as real
    requires lo as real <= At(s.x, e.x, t) <= hi as real
    requires OppositeSigns(s.y - c, e.y - c)
    requires lo < hi
    ensures SegmentsIntersect(s, e, Point(lo, c), Point(hi, c))
    ensures SegmentsIntersect(s, e, Point(hi, c), Point(lo, c))
  {
    var x := At(s.x, e.x, t);
    if x == lo as real {
      CornerOnPath(s, e, t, lo, c);
      Touching(s, e, Point(lo, c), Point(hi, c));
    } else if x == hi as real {
      CornerOnPath(s, e, t, hi, c);
      Touching(s, e, Point(hi, c), Point(lo, c));
    } else {
      EdgeOpposite(s, e, c, lo, hi);
      PathOpposite(s, e, t, c, lo, hi);
      Crossing(s, e, Point(lo, c), Point(hi, c));
    }
  }

  lemma ProductSign(a: real, b: real)
    ensures a > 0.0 && b > 0.0 ==> a * b > 0.0
    ensures a < 0.0 && b < 0.0 ==> a * b > 0.0
    ensures a > 0.0 && b < 0.0 ==> a * b < 0.0
    ensures a < 0.0 && b > 0.0 ==> a * b < 0.0
  {
  }

  /** Which side of a horizontal edge a point is on, in both directions of the edge. */
  lemma EdgeSides(p: Point, c: int, lo: int, hi: int)
    requires lo < hi
    ensures Orientation(Point(lo, c), Point(hi, c), p) == (hi - lo) * (p.y - c)
    ensures Orientation(Point(hi, c), Point(lo, c), p) == -((hi - lo) * (p.y - c))
    ensures p.y > c ==> (hi - lo) * (p.y - c) > 0
    ensures p.y < c ==> (hi - lo) * (p.y - c) < 0
  {
  }

  /** An integer point that the path passes through is on the segment for the integer test. */
  lemma CornerOnPath(s: Point, e: Point, t: real, x: int, y: int)
    requires 0.0 <= t <= 1.0
    requires At(s.x, e.x, t) == x as real
    requires At(s.y, e.y, t) == y as real
    ensures PointOnSegment(Point(x, y), s, e)
  {
    OrientationAtCrossing(s, e, t, y, x);
    AtEnds(s.x, e.x);
    AtEnds(s.y, e.y);
    StaysWithin(s.x, e.x, 0.0, t, 1.0, Min(s.x, e.x), Max(s.x, e.x));
    StaysWithin(s.y, e.y, 0.0, t, 1.0, Min(s.y, e.y), Max(s.y, e.y));
  }

  // ---------- Vertical edges are horizontal edges with the axes swapped ----------

  function Swap(p: Point): Point {
    Point(p.y, p.x)
  }

  lemma SwapOrientation(a: Point, b: Point, c: Point)
    ensures Orientation(Swap(a), Swap(b), Swap(c)) == -Orientation(a, b, c)
  {
  }

  lemma SwapIntersect(s1: Point, e1: Point, s2: Point, e2: Point)
    requires SegmentsIntersect(Swap(s1), Swap(e1), Swap(s2), Swap(e2))
    ensures SegmentsIntersect(s1, e1, s2, e2)
  {
    SwapOrientation(s1, e1, s2);
    SwapOrientation(s1, e1, e2);
    SwapOrientation(s2, e2, s1);
    SwapOrientation(s2, e2, e1);
  }

  lemma VerticalEdgeHit(s: Point, e: Point, t: real, c: int, lo: int, hi: int)
    requires 0.0 <= t <= 1.0
    requires At(s.x, e.x, t) == c as real
    requires lo as real <= At(s.y, e.y, t) <= hi as real
    requires OppositeSigns(s.x - c, e.x - c)
    requires lo < hi
    ensures SegmentsIntersect(s, e, Point(c, lo), Point(c, hi))
    ensures SegmentsIntersect(s, e, Point(c, hi), Point(c, lo))
  {
    HorizontalEdgeHit(Swap(s), Swap(e), t, c, lo, hi);
    SwapIntersect(s, e, Point(c, lo), Point(c, hi));
    SwapIntersect(s, e, Point(c, hi), Point(c, lo));
  }

  // ---------- Completeness: a path that meets the rectangle is detected ----------

  /** The path enters through the line x = c at time t, already inside in y. */
  lemma EnterThroughX(s: Point, e: Point, r: Rectangle, t: real, c: int)
    requires r.Positive() && !PointInside(s, r) && !PointInside(e, r)
    requires c == r.minX || c == r.maxX
    requires 0.0 < t <= 1.0 && At(s.x, e.x, t) == c as real && s.x != c
    requires InsideAt(s, e, t, r)
    ensures SegmentIntersectsRectangle(s, e, r)
  {
    AtEnds(s.x, e.x);
    AtEnds(s.y, e.y);
    PassesBeyond(s.x, e.x, t, c);
    if e.x == c {
      AtEndTime(s.x, e.x, t);
    } else {
      VerticalEdgeHit(s, e, t, c, r.minY, r.maxY);
    }
  }

  lemma EnterThroughY(s: Point, e: Point, r: Rectangle, t: real, c: int)
    requires r.Positive() && !PointInside(s, r) && !PointInside(e, r)
    requires c == r.minY || c == r.maxY
    requires 0.0 < t <= 1.0 && At(s.y, e.y, t) == c as real && s.y != c
    requires InsideAt(s, e, t, r)
    ensures SegmentIntersectsRectangle(s, e, r)
  {
    AtEnds(s.x, e.x);
    AtEnds(s.y, e.y);
    PassesBeyond(s.y, e.y, t, c);
    if e.y == c {
      AtEndTime(s.y, e.y, t);
    } else {
      HorizontalEdgeHit(s, e, t, c, r.minX, r.maxX);
    }
  }

  lemma PassesBeyond(a: int, b: int, t: real, c: int)
    requires 0.0 < t <= 1.0 && At(a, b, t) == c as real && a != c
    ensures b == c || OppositeSigns(a - c, b - c)
  {
    AtEnds(a, b);
    Monotone(a, b, 0.0, t);
    Monotone(a, b, t, 1.0);
  }

  lemma AtEndTime(a: int, b: int, t: real)
    requires a != b && At(a, b, t) == b as real
    ensures t == 1.0
  {
    var d := (b - a) as real;
    assert t * d == 1.0 * d;
    if t < 1.0 {
      ScaleStrict(t, 1.0, d);
    } else if t > 1.0 {
      ScaleStrict(1.0, t, d);
    }
  }

  /** When a starts outside [lo, hi], the last moment before t at which it was at the violated bound. */
  lemma EntryTime(a: int, b: int, t: real, lo: int, hi: int) returns (c: int, t0: real)
    requires 0.0 <= t <= 1.0 && lo <= hi
    requires lo as real <= At(a, b, t) <= hi as real
    requires a < lo || hi < a
    ensures (c == lo && a < lo) || (c == hi && hi < a)
    ensures 0.0 < t0 <= t && At(a, b, t0) == c as real
  {
    c := if a < lo then lo else hi;
    t0 := CrossingTime(a, b, t, c);
  }

  lemma {:induction false} MeetsImpliesTest(s: Point, e: Point, r: Rectangle, t: real)
    requires r.Positive() && 0.0 <= t <= 1.0 && InsideAt(s, e, t, r)
    ensures SegmentIntersectsRectangle(s, e, r)
  {
    AtEnds(s.x, e.x);
    AtEnds(s.y, e.y);
    var outX := s.x < r.minX || r.maxX < s.x;
    var outY := s.y < r.minY || r.maxY < s.y;
    if PointInside(s, r) || PointInside(e, r) {
    } else if outX && outY {
      var cx, tx := EntryTime(s.x, e.x, t, r.minX, r.maxX);
      var cy, ty := EntryTime(s.y, e.y, t, r.minY, r.maxY);
      if ty <= tx {
        StaysWithin(s.y, e.y, ty, tx, t, r.minY, r.maxY);
        EnterThroughX(s, e, r, tx, cx);
      } else {
        StaysWithin(s.x, e.x, tx, ty, t, r.minX, r.maxX);
        EnterThroughY(s, e, r, ty, cy);
      }
    } else if outX {
      var cx, tx := EntryTime(s.x, e.x, t, r.minX, r.maxX);
      StaysWithin(s.y, e.y, 0.0, tx, t, r.minY, r.maxY);
      EnterThroughX(s, e, r, tx, cx);
    } else {
      var cy, ty := EntryTime(s.y, e.y, t, r.minY, r.maxY);
      StaysWithin(s.x, e.x, 0.0, ty, t, r.minX, r.maxX);
      EnterThroughY(s, e, r, ty, cy);
    }
  }

  // ---------- Soundness: a detected path meets the rectangle ----------

  /** A point that the integer test puts on the segment is passed through at some time. */
  lemma SegmentPointTime(p: Point, s: Point, e: Point) returns (t: real)
    requires PointOnSegment(p, s, e)
    ensures 0.0 <= t <= 1.0
    ensures At(s.x, e.x, t) == p.x as real && At(s.y, e.y, t) == p.y as real
  {
    if s.x != e.x {
      t := FractionBetween(s.x, e.x, p.x);
      Collinear(s, e, p, t);
    } else if s.y != e.y {
      t := FractionBetween(s.y, e.y, p.y);
    } else {
      t := 0.0;
    }
  }

  lemma FractionBetween(a: int, b: int, c: int) returns (t: real)
    requires a != b && Min(a, b) <= c <= Max(a, b)
    ensures 0.0 <= t <= 1.0 && At(a, b, t) == c as real
  {
    var d, g := (b - a) as real, (c - a) as real;
    t := g / d;
    assert t * d == g;
    if t < 0.0 {
      ScaleStrict(t, 0.0, d);
    } else if t > 1.0 {
      ScaleStrict(1.0, t, d);
    }
  }

  lemma Collinear(s: Point, e: Point, p: Point, t: real)
    requires s.x != e.x && Orientation(s, e, p) == 0 && At(s.x, e.x, t) == p.x as real
    ensures At(s.y, e.y, t) == p.y as real
  {
    var dx, dy := (e.x - s.x) as real, (e.y - s.y) as real;
    var px, py := (p.x - s.x) as real, (p.y - s.y) as real;
    assert px == t * dx;
    assert ((e.x - s.x) * (p.y - s.y)) as real == dx * py;
    assert ((e.y - s.y) * (p.x - s.x)) as real == dy * px;
    assert dx * py == dx * (t * dy);
    CancelFactor(dx, py, t * dy);
  }

  lemma CancelFactor(k: real, a: real, b: real)
    requires k != 0.0 && k * a == k * b
    ensures a == b
  {
    assert a == (k * a) / k;
  }

  /** A proper crossing of a horizontal edge happens strictly between its ends. */
  lemma HorizontalCrossing(s: Point, e: Point, c: int, lo: int, hi: int) returns (t: real)
    requires lo < hi
    requires OppositeSigns(Orientation(s, e, Point(lo, c)), Orientation(s, e, Point(hi, c)))
    requires OppositeSigns(Orientation(Point(lo, c), Point(hi, c), s), Orientation(Point(lo, c), Point(hi, c), e))
    ensures 0.0 <= t <= 1.0
    ensures At(s.y, e.y, t) == c as real
    ensures lo as real <= At(s.x, e.x, t) <= hi as real
  {
    EdgeSides(s, c, lo, hi);
    EdgeSides(e, c, lo, hi);
    t := FractionBetween(s.y, e.y, c);
    OrientationAtCrossing(s, e, t, c, lo);
    OrientationAtCrossing(s, e, t, c, hi);
    var dy, x := (e.y - s.y) as real, At(s.x, e.x, t);
    ProductSign(dy, x - lo as real);
    ProductSign(dy, x - hi as real);
  }

  lemma HorizontalEdgeSound(s: Point, e: Point, c: int, lo: int, hi: int) returns (t: real)
    requires lo < hi
    requires SegmentsIntersect(s, e, Point(lo, c), Point(hi, c)) || SegmentsIntersect(s, e, Point(hi, c), Point(lo, c))
    ensures 0.0 <= t <= 1.0
    ensures At(s.y, e.y, t) == c as real
    ensures lo as real <= At(s.x, e.x, t) <= hi as real
  {
    EdgeSides(s, c, lo, hi);
    EdgeSides(e, c, lo, hi);
    AtEnds(s.x, e.x);
    AtEnds(s.y, e.y);
    if PointOnSegment(Point(lo, c), s, e) {
      t := SegmentPointTime(Point(lo, c), s, e);
    } else if PointOnSegment(Point(hi, c), s, e) {
      t := SegmentPointTime(Point(hi, c), s, e);
    } else if s.y == c && lo <= s.x <= hi {
      t := 0.0;
    } else if e.y == c && lo <= e.x <= hi {
      t := 1.0;
    } else {
      t := HorizontalCrossing(s, e, c, lo, hi);
    }
  }

  lemma VerticalEdgeSound(s: Point, e: Point, c: int, lo: int, hi: int) returns (t: real)
    requires lo < hi
    requires SegmentsIntersect(s, e, Point(c, lo), Point(c, hi)) || SegmentsIntersect(s, e, Point(c, hi), Point(c, lo))
    ensures 0.0 <= t <= 1.0
    ensures At(s.x, e.x, t) == c as real
    ensures lo as real <= At(s.y, e.y, t) <= hi as real
  {
    var s', e' := Swap(s), Swap(e);
    assert s == Swap(s') && e == Swap(e');
    if SegmentsIntersect(s, e, Point(c, lo), Point(c, hi)) {
      SwapIntersect(s', e', Point(lo, c), Point(hi, c));
    } else {
      SwapIntersect(s', e', Point(hi, c), Point(lo, c));
    }
    t := HorizontalEdgeSound(s', e', c, lo, hi);
  }

  lemma TestImpliesMeets(s: Point, e: Point, r: Rectangle) returns (t: real)
    requires r.Positive() && SegmentIntersectsRectangle(s, e, r)
    ensures 0.0 <= t <= 1.0 && InsideAt(s, e, t, r)
  {
    AtEnds(s.x, e.x);
    AtEnds(s.y, e.y);
    if PointInside(s, r) {
      t := 0.0;
    } else if PointInside(e, r) {
      t := 1.0;
    } else if SegmentsIntersect(s, e, Point(r.minX, r.minY), Point(r.maxX, r.minY)) {
      t := HorizontalEdgeSound(s, e, r.minY, r.minX, r.maxX);
    } else if SegmentsIntersect(s, e, Point(r.maxX, r.maxY), Point(r.minX, r.maxY)) {
      t := HorizontalEdgeSound(s, e, r.maxY, r.minX, r.maxX);
    } else if SegmentsIntersect(s, e, Point(r.maxX, r.minY), Point(r.maxX, r.maxY)) {
      t := VerticalEdgeSound(s, e, r.maxX, r.minY, r.maxY);
    } else {
      t := VerticalEdgeSound(s, e, r.minX, r.minY, r.maxY);
    }
  }

  // ---------- Main results ----------

  /** The integer test is exact, for every segment (also a stationary one) and every rectangle of positive size. */
  lemma {:induction false} SegmentTestExact(start: Point, end: Point, r: Rectangle)
    requires r.Positive()
    ensures SegmentIntersectsRectangle(start, end, r) <==> PathMeets(start, end, r)
  {
    if SegmentIntersectsRectangle(start, end, r) {
      var t := TestImpliesMeets(start, end, r);
    }
    if PathMeets(start, end, r) {
      var t :| 0.0 <= t <= 1.0 && InsideAt(start, end, t, r);
      MeetsImpliesTest(start, end, r, t);
    }
  }

  predicate Supported(p: Point) {
    && -MAX_ABS_COORDINATE_MM <= p.x <= MAX_ABS_COORDINATE_MM
    && -MAX_ABS_COORDINATE_MM <= p.y <= MAX_ABS_COORDINATE_MM
  }

  predicate ExactDouble(n: int) {
    -MAX_EXACT_DOUBLE <= n <= MAX_EXACT_DOUBLE
  }

  /** Every intermediate of Orientation is an integer that a double holds exactly, so it never rounds. */
  lemma OrientationNeverRounds(a: Point, b: Point, c: Point)
    requires Supported(a) && Supported(b) && Supported(c)
    ensures ExactDouble(b.x - a.x) && ExactDouble(c.y - a.y) && ExactDouble(b.y - a.y) && ExactDouble(c.x - a.x)
    ensures -400_000_000_000_000 <= (b.x - a.x) * (c.y - a.y) <= 400_000_000_000_000
    ensures -400_000_000_000_000 <= (b.y - a.y) * (c.x - a.x) <= 400_000_000_000_000
    ensures -800_000_000_000_000 <= Orientation(a, b, c) <= 800_000_000_000_000
    ensures ExactDouble(Orientation(a, b, c))
  {
    ProductBound(b.x - a.x, c.y - a.y);
    ProductBound(b.y - a.y, c.x - a.x);
  }

  lemma ProductBound(u: int, v: int)
    requires -20_000_000 <= u <= 20_000_000 && -20_000_000 <= v <= 20_000_000
    ensures -400_000_000_000_000 <= u * v <= 400_000_000_000_000
  {
    Bounded(u, v, 20_000_000);
  }

  lemma Bounded(u: int, v: int, m: int)
    requires -m <= u <= m && -m <= v <= m
    ensures -(m * m) <= u * v <= m * m
  {
    assert (m - u) * (m + v) + (m + u) * (m - v) == 2 * (m * m) - 2 * (u * v);
    assert (m - u) * (m - v) + (m + u) * (m + v) == 2 * (m * m) + 2 * (u * v);
    NonNegative(m - u, m + v);
    NonNegative(m + u, m - v);
    NonNegative(m - u, m - v);
    NonNegative(m + u, m + v);
  }

  lemma NonNegative(a: int, b: int)
    requires a >= 0 && b >= 0
    ensures a * b >= 0
  {
  }
}
