/**
 * main-browserify's richer geometry: the twelve-key position, the span overlap
 * test along the axis across the move, the bearing with its line-of-sight
 * short-circuit, and the wrap-around angle difference with JavaScript's `%`.
 */
module Angles {
  import opened Base
  import opened Geometry

  /** The cached position of main-browserify: the rounded centre and the ten anchors. */
  datatype Position = Position(centerX: int, centerY: int, anchors: Anchors)

  /** `_getPosition` of main-browserify. */
  function PositionOf(r: Rect): (p: Position)
    ensures p.anchors == AnchorsOf(r)
    ensures p.centerX == p.anchors.otx == p.anchors.obx == Round(r.left as real + r.width as real / 2.0)
    ensures p.centerY == p.anchors.oly == p.anchors.ory == Round(r.top as real + r.height as real / 2.0)
    ensures p.anchors.oty == r.top && p.anchors.oby == r.bottom
    ensures p.anchors.olx == r.left && p.anchors.orx == r.right
  {
    var a := AnchorsOf(r);
    Position(a.otx, a.oly, a)
  }

  /** `_inside`: a closed-interval membership test; only a non-empty interval has a pin inside. */
  predicate Inside(pin: int, lower: int, upper: int)
    ensures Inside(pin, lower, upper) ==> lower <= upper
  {
    pin >= lower && pin <= upper
  }

  /** The interval is closed: both bounds of a non-empty interval are inside it. */
  lemma InsideIsClosed(lower: int, upper: int)
    ensures Inside(lower, lower, upper) <==> lower <= upper
    ensures Inside(upper, lower, upper) <==> lower <= upper
  {
  }

  /**
   * `_overlap`: for up and down it compares the horizontal spans, for left and right
   * the vertical spans. The third disjunct of the horizontal case bounds
   * `current.olx` by `current.orx`, as the source writes it. For well-formed boxes
   * the test is exactly "the spans across the move intersect".
   */
  predicate Overlap(current: Anchors, other: Anchors, d: Direction)
    ensures current.olx <= current.orx && other.olx <= other.orx
            && current.oty <= current.oby && other.oty <= other.oby ==>
              (Overlap(current, other, d) <==>
                 if d == Up || d == Down then SpansMeet(current.olx, current.orx, other.olx, other.orx)
                 else SpansMeet(current.oty, current.oby, other.oty, other.oby))
  {
    match d
    case Up | Down =>
      Inside(other.olx, current.olx, current.orx) ||
      Inside(other.orx, current.olx, current.orx) ||
      (Inside(current.olx, other.olx, current.orx) && Inside(current.orx, other.olx, other.orx))
    case Left | Right =>
      Inside(other.oty, current.oty, current.oby) ||
      Inside(other.oby, current.oty, current.oby) ||
      (Inside(current.oty, other.oty, other.oby) && Inside(current.oby, other.oty, other.oby))
  }

  /** Closed spans `[a1, a2]` and `[b1, b2]` share a point. */
  predicate SpansMeet(a1: int, a2: int, b1: int, b2: int)
  {
    b1 <= a2 && a1 <= b2
  }

  /** The overlap test ignores the coordinates along the move. */
  lemma OverlapReadsCrossAxisOnly(c: Anchors, o: Anchors, c': Anchors, o': Anchors)
    requires c.olx == c'.olx && c.orx == c'.orx && o.olx == o'.olx && o.orx == o'.orx
    ensures Overlap(c, o, Up) == Overlap(c', o', Up) == Overlap(c', o', Down)
  {
  }

  /** Likewise for left and right moves, which read only the vertical spans. */
  lemma SideOverlapReadsCrossAxisOnly(c: Anchors, o: Anchors, c': Anchors, o': Anchors)
    requires c.oty == c'.oty && c.oby == c'.oby && o.oty == o'.oty && o.oby == o'.oby
    ensures Overlap(c, o, Left) == Overlap(c', o', Left) == Overlap(c', o', Right)
  {
  }

  /** The canonical bearing of each direction, in degrees (y grows downward). */
  function Canonical(d: Direction): real
  {
    match d
    case Up => 270.0
    case Down => 90.0
    case Left => 180.0
    case Right => 0.0
  }

  /**
   * `_getAngle`: the canonical bearing when the two elements overlap across the
   * move; otherwise `atan2` (in degrees, supplied by the runtime) between the
   * corners the source picks for the side the other element lies on.
   */
  function Angle(current: Anchors, other: Anchors, d: Direction, atan2: (int, int) -> real): (a: real)
    ensures Overlap(current, other, d) ==> a == Canonical(d)
  {
    if Overlap(current, other, d) then Canonical(d)
    else
      match d
      case Up =>
        if other.orx > current.orx then atan2(other.oby - current.oty, other.olx - current.orx)
        else atan2(other.oby - current.oty, other.orx - current.olx)
      case Down =>
        if other.orx > current.orx then atan2(other.oty - current.oby, other.olx - current.orx)
        else atan2(other.oty - current.oby, other.orx - current.olx)
      case Left =>
        if other.oty > current.oty then atan2(other.oty - current.oby, other.orx - current.olx)
        else atan2(other.oby - current.oty, other.orx - current.olx)
      case Right =>
        if other.oty > current.oty then atan2(other.oty - current.oby, other.olx - current.orx)
        else atan2(other.oby - current.oty, other.olx - current.orx)
  }

  /** Truncation toward zero. */
  function Trunc(v: real): int
  {
    if v >= 0.0 then v.Floor else -((-v).Floor)
  }

  /** JavaScript's `%` on numbers: the remainder of truncated division, signed like the dividend. */
  function TruncRem(a: real, m: real): (r: real)
    requires m > 0.0
    ensures a >= 0.0 ==> 0.0 <= r < m
    ensures a < 0.0 ==> -m < r <= 0.0
  {
    var q := Trunc(a / m);
    TruncQuotient(a, m);
    a - m * q as real
  }

  lemma TruncQuotient(a: real, m: real)
    requires m > 0.0
    ensures a >= 0.0 ==> 0.0 <= a - m * Trunc(a / m) as real < m
    ensures a < 0.0 ==> -m < a - m * Trunc(a / m) as real <= 0.0
  {
    if a >= 0.0 {
      var f: real := (a / m).Floor as real;
      ScaleBetween(a, m, f);
      assert Trunc(a / m) as real == f;
      assert m * f == f * m;
    } else {
      assert (-a) / m == -(a / m);
      var f: real := ((-a) / m).Floor as real;
      ScaleBetween(-a, m, f);
      assert Trunc(a / m) as real == -f;
      assert m * -f == -(f * m);
    }
  }

  /** From `f <= a / m < f + 1` and `m > 0` follows `f * m <= a < f * m + m`. */
  lemma ScaleBetween(a: real, m: real, f: real)
    requires m > 0.0 && f <= a / m < f + 1.0
    ensures f * m <= a < f * m + m
  {
    var t := a / m;
    assert t * m == a;
    var g := f + 1.0 - t;
    assert g * m > 0.0;
    assert g * m == f * m + 1.0 * m - t * m;
    assert a < f * m + m;
    var h := t - f;
    assert h * m >= 0.0;
    assert h * m == t * m - f * m;
  }

  function Abs(v: real): real
  {
    if v < 0.0 then -v else v
  }

  /** `_getAngleDifference`: `Math.abs((angle1 + 180 - angle2) % 360 - 180)`. */
  function AngleDifference(angle1: real, angle2: real): (r: real)
    ensures r >= 0.0
  {
    Abs(TruncRem(angle1 + 180.0 - angle2, 360.0) - 180.0)
  }

  /** Comparing an angle with itself gives zero. */
  lemma AngleDifferenceSelf(c: real)
    ensures AngleDifference(c, c) == 0.0
  {
    assert (180.0 / 360.0).Floor == 0;
  }

  /**
   * Within one turn of the first angle the difference is the wrap-around distance
   * between the two bearings, and never more than half a turn.
   */
  lemma AngleDifferenceWraps(angle1: real, angle2: real)
    requires -180.0 <= angle1 - angle2 < 540.0
    ensures AngleDifference(angle1, angle2) <= 180.0
    ensures angle1 - angle2 < 180.0 ==> AngleDifference(angle1, angle2) == Abs(angle1 - angle2)
    ensures angle1 - angle2 >= 180.0 ==> AngleDifference(angle1, angle2) == Abs(angle1 - angle2 - 360.0)
  {
    var x := angle1 + 180.0 - angle2;
    assert 0.0 <= x < 720.0;
    if x < 360.0 {
      assert 0.0 <= x / 360.0 < 1.0;
      assert (x / 360.0).Floor == 0;
    } else {
      assert 1.0 <= x / 360.0 < 2.0;
      assert (x / 360.0).Floor == 1;
    }
  }

  /**
   * For the bearings the runtime produces (`atan2` lies in [-180, 180] degrees) the
   * deviation from any canonical bearing is at most half a turn.
   */
  lemma DeviationBounded(d: Direction, bearing: real)
    requires -180.0 <= bearing <= 180.0
    ensures 0.0 <= AngleDifference(Canonical(d), bearing) <= 180.0
  {
    AngleDifferenceWraps(Canonical(d), bearing);
  }

  /**
   * Line of sight: whenever two elements overlap across the move, the azimuth
   * deviation the scorer sees is exactly zero.
   */
  lemma OverlapMeansZeroDeviation(current: Anchors, other: Anchors, d: Direction, atan2: (int, int) -> real)
    ensures Overlap(current, other, d) ==> AngleDifference(Canonical(d), Angle(current, other, d, atan2)) == 0.0
  {
    AngleDifferenceSelf(Canonical(d));
  }

  /** The boxes box41, box42 and box44 of the test suite (box44's width disagrees with its edges). */
  const Box41 := Rect(50, 50, 100, 100, 50, 50)
  const Box42 := Rect(75, 125, 125, 175, 50, 50)
  const Box44 := Rect(150, 75, 175, 125, 50, 50)

  /** The test suite's overlap cases get the canonical bearings 90, 270, 0 and 180. */
  lemma TestBoxesGetCanonicalBearings(atan2: (int, int) -> real)
    ensures Angle(PositionOf(Box41).anchors, PositionOf(Box42).anchors, Down, atan2) == 90.0
    ensures Angle(PositionOf(Box42).anchors, PositionOf(Box41).anchors, Up, atan2) == 270.0
    ensures Angle(PositionOf(Box41).anchors, PositionOf(Box44).anchors, Right, atan2) == 0.0
    ensures Angle(PositionOf(Box44).anchors, PositionOf(Box41).anchors, Left, atan2) == 180.0
  {
    var a41, a42, a44 := PositionOf(Box41).anchors, PositionOf(Box42).anchors, PositionOf(Box44).anchors;
    assert a41.otx == 75 && a41.oly == 75;
    assert a42.otx == 100 && a42.oly == 150;
    assert a44.otx == 175 && a44.oly == 100;
  }
}
