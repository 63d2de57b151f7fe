/**
 * The selection step of the earlier generations (the vendored copy, main.js and
 * keyJumper): the candidate at the first strictly smallest distance wins. The two
 * module versions stop early at a distance of zero.
 */
module Nearest {
  import opened Base
  import opened Geometry

  /** The running minimum: index of the first strictly smallest value, `None` for no values. */
  function FirstMin(xs: seq<real>): (r: Option<nat>)
    ensures r.None? <==> xs == []
    ensures r.Some? ==> r.value < |xs|
  {
    if xs == [] then None
    else
      var p := FirstMin(xs[..|xs| - 1]);
      if p.Some? && !(xs[|xs| - 1] < xs[p.value]) then p else Some(|xs| - 1)
  }

  /** `xs[k]` is no larger than any value and strictly smaller than every earlier one. */
  predicate IsFirstMin(xs: seq<real>, k: int)
  {
    0 <= k < |xs| &&
    (forall j :: 0 <= j < |xs| ==> xs[k] <= xs[j]) &&
    (forall j :: 0 <= j < k ==> xs[k] < xs[j])
  }

  /** The running minimum finds exactly the first strictly smallest value. */
  lemma {:induction false} FirstMinCharacterised(xs: seq<real>, k: int)
    ensures FirstMin(xs) == Some(k) <==> IsFirstMin(xs, k)
    decreases |xs|
  {
    if xs != [] {
      var n := |xs| - 1;
      var prefix := xs[..n];
      assert forall j :: 0 <= j < n ==> prefix[j] == xs[j];
      var p := FirstMin(prefix);
      if p.Some? {
        FirstMinCharacterised(prefix, p.value);
        FirstMinCharacterised(prefix, k);
      }
      if IsFirstMin(xs, k) && k < n {
        assert IsFirstMin(prefix, k);
      }
    }
  }

  /** Values that compare alike pick the same index: only the order of the distances matters. */
  lemma SameOrderSameFirstMin(xs: seq<real>, ys: seq<real>)
    requires |xs| == |ys|
    requires forall i, j :: 0 <= i < |xs| && 0 <= j < |xs| ==> (xs[i] < xs[j] <==> ys[i] < ys[j])
    ensures FirstMin(xs) == FirstMin(ys)
  {
    if xs != [] {
      var k := FirstMin(xs).value;
      FirstMinCharacterised(xs, k);
      FirstMinCharacterised(ys, k);
    }
  }

  /** The distances `Math.sqrt` gives for a list of squared gaps. */
  function Roots(sqrt: int -> real, gaps: seq<nat>): (r: seq<real>)
    ensures |r| == |gaps|
    ensures forall i :: 0 <= i < |gaps| ==> r[i] == sqrt(gaps[i])
  {
    seq(|gaps|, i requires 0 <= i < |gaps| => sqrt(gaps[i]))
  }

  function AsReals(gaps: seq<nat>): (r: seq<real>)
    ensures |r| == |gaps|
    ensures forall i :: 0 <= i < |gaps| ==> r[i] == gaps[i] as real
  {
    seq(|gaps|, i requires 0 <= i < |gaps| => gaps[i] as real)
  }

  /** A strictly increasing square root on the non-negative integers. */
  ghost predicate StrictlyIncreasing(sqrt: int -> real)
  {
    forall a: nat, b: nat :: a < b ==> sqrt(a) < sqrt(b)
  }

  /** Comparing squared gaps picks the same candidate as comparing their square roots. */
  lemma SquaredGapsSuffice(sqrt: int -> real, gaps: seq<nat>)
    requires StrictlyIncreasing(sqrt)
    ensures FirstMin(Roots(sqrt, gaps)) == FirstMin(AsReals(gaps))
  {
    var rs, qs := Roots(sqrt, gaps), AsReals(gaps);
    forall i, j | 0 <= i < |gaps| && 0 <= j < |gaps|
      ensures rs[i] < rs[j] <==> qs[i] < qs[j]
    {
      if gaps[i] < gaps[j] {
        assert sqrt(gaps[i]) < sqrt(gaps[j]);
      } else if gaps[j] < gaps[i] {
        assert sqrt(gaps[j]) < sqrt(gaps[i]);
      }
    }
    SameOrderSameFirstMin(rs, qs);
  }

  /** How many values the early-exit loop looks at: up to and including the first zero. */
  function ExitPoint(xs: seq<real>): (n: nat)
    ensures n <= |xs|
    ensures forall j :: 0 <= j < n - 1 ==> xs[j] != 0.0
    ensures n < |xs| ==> n >= 1 && xs[n - 1] == 0.0
  {
    if xs == [] then 0
    else if xs[0] == 0.0 then 1
    else 1 + ExitPoint(xs[1..])
  }

  /** For non-negative distances the early exit at zero does not change the winner. */
  lemma EarlyExitSound(xs: seq<real>)
    requires forall i :: 0 <= i < |xs| ==> xs[i] >= 0.0
    ensures FirstMin(xs[..ExitPoint(xs)]) == FirstMin(xs)
  {
    var n := ExitPoint(xs);
    if n < |xs| {
      var cut := xs[..n];
      FirstMinCharacterised(xs, n - 1);
      FirstMinCharacterised(cut, n - 1);
      assert forall j :: 0 <= j < n - 1 ==> xs[j] > 0.0;
    } else {
      assert xs[..n] == xs;
    }
  }

  /** With a negative distance after a zero, the early exit does change the winner. */
  lemma EarlyExitNeedsNonNegative()
    ensures FirstMin([0.0, -1.0][..ExitPoint([0.0, -1.0])]) == Some(0)
    ensures FirstMin([0.0, -1.0]) == Some(1)
  {
    assert [0.0, -1.0][..1] == [0.0];
    assert [0.0, -1.0][..1][..0] == [];
    assert [0.0, -1.0][..1] == [0.0];
  }

  /** The distance `Math.sqrt` gives from the focused element to each close element. */
  function Distances(sqrt: int -> real, d: Direction, current: Anchors, close: seq<Elem>, positions: map<Elem, Anchors>): (ds: seq<real>)
    requires forall k :: k in close ==> k in positions
    ensures |ds| == |close|
    ensures forall i :: 0 <= i < |close| ==> ds[i] == sqrt(GapSquared(d, current, positions[close[i]]))
  {
    Roots(sqrt, Gaps(d, current, close, positions))
  }

  /**
   * The element a move picks: among the known elements in the direction's
   * half-plane (without `exclude`), the first whose distance is strictly smallest;
   * with `earlyExit` the scan stops after the first distance of zero.
   */
  function NearestCandidate(known: seq<Elem>, positions: map<Elem, Anchors>, sqrt: int -> real, d: Direction,
                            c: Elem, exclude: Option<Elem>, earlyExit: bool): (r: Option<Elem>)
    requires c in positions && AllPositioned(known, positions)
    ensures r.Some? ==> r.value in known && exclude != r && r.value in positions
                        && Reaches(d, positions[c], positions[r.value])
    ensures r.None? <==> forall k :: k in known && exclude != Some(k) ==> !Reaches(d, positions[c], positions[k])
  {
    var close := CloseElements(known, positions, d, positions[c], exclude);
    var ds := Distances(sqrt, d, positions[c], close, positions);
    match FirstMin(if earlyExit then ds[..ExitPoint(ds)] else ds)
    case None => None
    case Some(i) =>
      assert close[i] in close;
      Some(close[i])
  }

  /**
   * The reference choice: among the close elements, the first whose squared gap
   * is no larger than any other's and strictly smaller than every earlier one's.
   */
  function SmallestGap(known: seq<Elem>, positions: map<Elem, Anchors>, d: Direction, c: Elem, exclude: Option<Elem>): Option<Elem>
    requires c in positions && AllPositioned(known, positions)
  {
    var close := CloseElements(known, positions, d, positions[c], exclude);
    match FirstMin(AsReals(Gaps(d, positions[c], close, positions)))
    case None => None
    case Some(i) => Some(close[i])
  }

  /**
   * For a square root that is strictly increasing and never negative, the early
   * exit changes nothing and a move picks exactly the first close element whose
   * squared gap is strictly smallest: its gap is no larger than any other's and
   * strictly smaller than every earlier one's.
   */
  lemma NearestIsSmallestGap(known: seq<Elem>, positions: map<Elem, Anchors>, sqrt: int -> real, d: Direction,
                             c: Elem, exclude: Option<Elem>, earlyExit: bool)
    requires c in positions && AllPositioned(known, positions)
    requires StrictlyIncreasing(sqrt) && forall n: nat :: sqrt(n) >= 0.0
    ensures NearestCandidate(known, positions, sqrt, d, c, exclude, earlyExit) == SmallestGap(known, positions, d, c, exclude)
  {
    var close := CloseElements(known, positions, d, positions[c], exclude);
    var gs := Gaps(d, positions[c], close, positions);
    EarlyExitSound(Roots(sqrt, gs));
    SquaredGapsSuffice(sqrt, gs);
  }

  /**
   * The `_.each` loop of the two module versions: keep the first strictly smaller
   * distance, and stop after a distance of zero.
   */
  method ClosestWithEarlyExit(ds: seq<real>) returns (k: Option<nat>)
    ensures k == FirstMin(ds[..ExitPoint(ds)])
  {
    k := None;
    var i := 0;
    while i < |ds|
      invariant 0 <= i <= ExitPoint(ds)
      invariant k == FirstMin(ds[..i])
      invariant forall j :: 0 <= j < i ==> ds[j] != 0.0
    {
      assert ds[..i + 1][..i] == ds[..i];
      if k.None? || ds[i] < ds[k.value] {
        k := Some(i);
      }
      if ds[i] == 0.0 {
        i := i + 1;
        break;
      }
      i := i + 1;
    }
  }

  /** keyJumper's `for` loop: keep the first strictly smaller distance, over all candidates. */
  method ClosestIndex(ds: seq<real>) returns (k: Option<nat>)
    ensures k == FirstMin(ds)
    ensures k.Some? ==> IsFirstMin(ds, k.value)
  {
    k := None;
    var i := 0;
    while i < |ds|
      invariant 0 <= i <= |ds|
      invariant k == FirstMin(ds[..i])
    {
      assert ds[..i + 1][..i] == ds[..i];
      if k.None? || ds[i] < ds[k.value] {
        k := Some(i);
      }
      i := i + 1;
    }
    assert ds[..|ds|] == ds;
    if k.Some? {
      FirstMinCharacterised(ds, k.value);
    }
  }
}
