/**
 * The positional descriptor every generation computes for an element (the ten
 * anchor coordinates), the directional reachability filters, and the anchor
 * pairs the distance is measured between.
 */
module Geometry {
  import opened Base

  /**
   * The anchor coordinates of an element: its top-left corner (x, y) and the centre
   * points of its four outer edges (top, bottom, left, right).
   */
  datatype Anchors = Anchors(
    x: int, y: int,
    otx: int, oty: int,
    obx: int, oby: int,
    olx: int, oly: int,
    orx: int, ory: int)

  /** `Math.round`: the nearest integer, halves rounded upward. */
  function Round(v: real): int
  {
    (v + 0.5).Floor
  }

  /** The rounded midpoint of a span, in integers: `Math.round(a + w / 2)`. */
  function Mid(a: int, w: int): (m: int)
    ensures m == Round(a as real + w as real / 2.0)
  {
    RoundHalf(a, w);
    a + (w + 1) / 2
  }

  /** `Math.round(a + w / 2)` equals `a + (w + 1) / 2` with floor division, for every integer width. */
  lemma RoundHalf(a: int, w: int)
    ensures Round(a as real + w as real / 2.0) == a + (w + 1) / 2
  {
    var q := (w + 1) / 2;
    var v := a as real + w as real / 2.0 + 0.5;
    assert w + 1 == 2 * q + (w + 1) % 2;
    assert v == (a + q) as real + ((w + 1) % 2) as real / 2.0;
  }

  /**
   * `_getPosition` of main-browserify, the vendored copy and main.js: the centre is
   * the rounded midpoint of the rectangle, the edges are the rectangle's own.
   */
  function AnchorsOf(r: Rect): (p: Anchors)
    ensures p.x == p.olx == r.left && p.y == p.oty == r.top
    ensures p.oby == r.bottom && p.orx == r.right
    ensures p.otx == p.obx == Round(r.left as real + r.width as real / 2.0)
    ensures p.oly == p.ory == Round(r.top as real + r.height as real / 2.0)
  {
    var cx := Mid(r.left, r.width);
    var cy := Mid(r.top, r.height);
    Anchors(r.left, r.top, cx, r.top, cx, r.bottom, r.left, cy, r.right, cy)
  }

  /**
   * keyJumper `getPosition`, from the jQuery offset and outer size: the outer right
   * and bottom are rounded from the already rounded centre, not taken from a rectangle.
   */
  function KeyJumperAnchors(left: int, top: int, width: int, height: int): (p: Anchors)
    ensures p.x == p.olx == left && p.y == p.oty == top
    ensures p.otx == p.obx == Round(left as real + width as real / 2.0)
    ensures p.oly == p.ory == Round(top as real + height as real / 2.0)
    ensures p.orx == Round(p.otx as real + width as real / 2.0)
    ensures p.oby == Round(p.oly as real + height as real / 2.0)
  {
    var cx := Mid(left, width);
    var cy := Mid(top, height);
    Anchors(left, top, cx, top, cx, Mid(cy, height), left, cy, Mid(cx, width), cy)
  }

  /**
   * Because keyJumper rounds twice, an odd size pushes the far edge one pixel past
   * `left + width` (and `top + height`); an even size lands on it.
   */
  lemma KeyJumperFarEdges(left: int, top: int, width: nat, height: nat)
    ensures KeyJumperAnchors(left, top, width, height).orx == left + width + width % 2
    ensures KeyJumperAnchors(left, top, width, height).oby == top + height + height % 2
  {
    assert 2 * ((width + 1) / 2) == width + width % 2;
    assert 2 * ((height + 1) / 2) == height + height % 2;
  }

  /**
   * The directional half-plane filter (`isClose` of each move): an element is
   * reachable upward when its bottom is at or above the current top, and so on.
   * An element of positive height never reaches itself up or down, nor one of
   * positive width left or right; a flat element does, which is why each filter
   * also excludes the focused element explicitly.
   */
  predicate Reaches(d: Direction, current: Anchors, other: Anchors)
    ensures current == other ==> (Reaches(d, current, other) <==> match d
      case Up => other.oby <= other.oty
      case Down => other.oby <= other.oty
      case Left => other.orx <= other.olx
      case Right => other.orx <= other.olx)
  {
    match d
    case Up => current.oty >= other.oby
    case Down => current.oby <= other.oty
    case Left => current.olx >= other.orx
    case Right => current.orx <= other.olx
  }

  /** Reachability is dual across opposite directions. */
  lemma ReachesOpposite(a: Anchors, b: Anchors)
    ensures Reaches(Up, a, b) <==> Reaches(Down, b, a)
    ensures Reaches(Left, a, b) <==> Reaches(Right, b, a)
  {
  }

  function Square(v: int): nat
  {
    if v >= 0 then v * v else (-v) * (-v)
  }

  /**
   * The square of the Euclidean distance each move measures: from the current top
   * centre to the other's bottom centre when moving up, bottom to top down, left
   * centre to right centre left, right centre to left centre right. It is zero
   * exactly when the two anchor points coincide.
   */
  function GapSquared(d: Direction, current: Anchors, other: Anchors): (g: nat)
    ensures g == 0 <==> match d
      case Up => current.oty == other.oby && current.otx == other.obx
      case Down => current.oby == other.oty && current.obx == other.otx
      case Left => current.olx == other.orx && current.oly == other.ory
      case Right => current.orx == other.olx && current.ory == other.oly
  {
    SquareZero();
    match d
    case Up => Square(current.oty - other.oby) + Square(current.otx - other.obx)
    case Down => Square(current.obx - other.otx) + Square(current.oby - other.oty)
    case Left => Square(current.olx - other.orx) + Square(current.oly - other.ory)
    case Right => Square(current.orx - other.olx) + Square(current.ory - other.oly)
  }

  /** The measured gap is the same walking either way between two elements. */
  lemma GapOpposite(a: Anchors, b: Anchors)
    ensures GapSquared(Up, a, b) == GapSquared(Down, b, a)
    ensures GapSquared(Left, a, b) == GapSquared(Right, b, a)
  {
  }

  /** Only zero squares to zero. */
  lemma SquareZero()
    ensures forall v :: Square(v) == 0 <==> v == 0
  {
    forall v: int ensures Square(v) == 0 <==> v == 0 {
      if v > 0 { assert v * v >= v; } else if v < 0 { assert (-v) * (-v) >= -v; }
    }
  }

  /** Every element of the list has a cached position (otherwise the filter throws a TypeError). */
  predicate AllPositioned(list: seq<Elem>, positions: map<Elem, Anchors>)
  {
    forall k :: k in list ==> k in positions
  }

  /**
   * `_findCloseElements`: the known elements, in order, that the direction's filter
   * keeps, leaving out the element `exclude` names (the focused one).
   */
  function CloseElements(known: seq<Elem>, positions: map<Elem, Anchors>, d: Direction, current: Anchors, exclude: Option<Elem>): (r: seq<Elem>)
    requires AllPositioned(known, positions)
    ensures |r| <= |known|
    ensures forall e :: e in r <==> e in known && Reaches(d, current, positions[e]) && exclude != Some(e)
  {
    if known == [] then []
    else
      var rest := CloseElements(known[1..], positions, d, current, exclude);
      var k := known[0];
      assert forall e :: e in known <==> e == k || e in known[1..];
      if Reaches(d, current, positions[k]) && exclude != Some(k) then [k] + rest else rest
  }

  /** Filtering a list with one more element appends that element when it passes. */
  lemma {:induction false} CloseElementsSnoc(known: seq<Elem>, positions: map<Elem, Anchors>, d: Direction, current: Anchors,
                                             exclude: Option<Elem>, x: Elem)
    requires AllPositioned(known + [x], positions)
    ensures CloseElements(known + [x], positions, d, current, exclude)
            == CloseElements(known, positions, d, current, exclude)
               + (if Reaches(d, current, positions[x]) && exclude != Some(x) then [x] else [])
    decreases |known|
  {
    if known == [] {
      assert known + [x] == [x];
    } else {
      assert (known + [x])[1..] == known[1..] + [x];
      CloseElementsSnoc(known[1..], positions, d, current, exclude, x);
    }
  }

  /** The focused element never appears among its own close elements. */
  lemma CurrentExcluded(known: seq<Elem>, positions: map<Elem, Anchors>, d: Direction, current: Anchors, c: Elem)
    requires AllPositioned(known, positions)
    ensures c !in CloseElements(known, positions, d, current, Some(c))
  {
  }

  /** The squared gap from the focused element to each close element. */
  function Gaps(d: Direction, current: Anchors, close: seq<Elem>, positions: map<Elem, Anchors>): (gs: seq<nat>)
    requires forall k :: k in close ==> k in positions
    ensures |gs| == |close|
    ensures forall i :: 0 <= i < |close| ==> gs[i] == GapSquared(d, current, positions[close[i]])
  {
    seq(|close|, i requires 0 <= i < |close| => GapSquared(d, current, positions[close[i]]))
  }
}
