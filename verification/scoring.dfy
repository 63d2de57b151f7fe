/**
 * The selection step of main-browserify (`_activateClosest`): every candidate gets
 * a distance and an azimuth deviation, both are normalised against their maxima
 * over the visible candidates, weighted, and the running best is chosen with the
 * line-of-sight rule.
 */
module Scoring {
  import opened Base
  import opened Geometry
  import opened Angles

  /** The two weights of the weighted sum (`azimuthWeight`, `distanceWeight`). */
  datatype Weights = Weights(azimuth: real, distance: real)

  /** The host's `Math.sqrt` and `Math.atan2` (in degrees), taken as given functions. */
  datatype Numerics = Numerics(sqrt: int -> real, atan2: (int, int) -> real)

  /** What `getDistance` returns for one candidate, tagged with the candidate. */
  datatype Measure = Measure(el: Elem, visible: bool, distance: real, azimuth: real)

  /** A candidate after weighting: the reduce's `{azimuth, computed, closeElement}`. */
  datatype Scored = Scored(el: Elem, azimuth: real, computed: real)

  /** The distance/azimuth measure a move in direction `d` gives `other` seen from `current`. */
  function MeasureOf(math: Numerics, d: Direction, current: Anchors, other: Anchors, el: Elem, visible: bool): (m: Measure)
    ensures m.el == el && m.visible == visible
    ensures m.distance == math.sqrt(GapSquared(d, current, other))
    ensures m.azimuth == AngleDifference(Canonical(d), Angle(current, other, d, math.atan2))
    ensures Overlap(current, other, d) ==> m.azimuth == 0.0
  {
    OverlapMeansZeroDeviation(current, other, d, math.atan2);
    Measure(el, visible, math.sqrt(GapSquared(d, current, other)),
            AngleDifference(Canonical(d), Angle(current, other, d, math.atan2)))
  }

  /**
   * The weights a move uses: a direction's weight override of 'distance' or
   * 'azimuth' replaces the configured pair, anything else keeps it.
   */
  function EffectiveWeights(config: Weights, preference: Option<string>): (w: Weights)
    ensures preference == Some("distance") ==> w == Weights(0.001, 1.0)
    ensures preference == Some("azimuth") ==> w == Weights(1.0, 0.001)
    ensures preference != Some("distance") && preference != Some("azimuth") ==> w == config
  {
    if preference == Some("distance") then Weights(0.001, 1.0)
    else if preference == Some("azimuth") then Weights(1.0, 0.001)
    else config
  }

  /** The line-of-sight rule applies unless the direction's weight override is 'distance'. */
  predicate LineOfSight(preference: Option<string>)
  {
    preference != Some("distance")
  }

  function Abs(v: real): real
  {
    if v < 0.0 then -v else v
  }

  /** `maximum || 1`: a zero maximum is replaced by one. */
  function NonZero(m: real): (r: real)
    ensures r != 0.0
    ensures m != 0.0 ==> r == m
  {
    if m == 0.0 then 1.0 else m
  }

  /**
   * `_getWeightedResult`. With non-negative weights and measures within their
   * maxima, the result lies between 0 and the sum of the weights.
   */
  function WeightedResult(azimuth: real, maxAzimuth: real, w: Weights, distance: real, maxDistance: real): (r: real)
    ensures w.azimuth >= 0.0 && w.distance >= 0.0 && 0.0 <= azimuth <= maxAzimuth && 0.0 <= distance <= maxDistance ==>
              0.0 <= r <= w.azimuth + w.distance
  {
    Weighted(w.azimuth, azimuth, maxAzimuth) + Weighted(w.distance, distance, maxDistance)
  }

  /** One weighted ratio `weight * (|v| / (m || 1))`; for a value within its maximum it is between 0 and the weight. */
  function Weighted(weight: real, v: real, m: real): (t: real)
    ensures weight >= 0.0 && 0.0 <= v <= m ==> 0.0 <= t <= weight
  {
    var ratio := Abs(v) / NonZero(m);
    if weight >= 0.0 && 0.0 <= v <= m then
      UnitRatio(v, m);
      assert ratio == v / NonZero(m);
      ScaleUnit(weight, ratio);
      weight * ratio
    else weight * ratio
  }

  /** The visible candidates, in order (the `map` that returns nothing for the rest, then `compact`). */
  function VisibleMeasures(ms: seq<Measure>): (r: seq<Measure>)
    ensures |r| <= |ms|
    ensures forall i :: 0 <= i < |r| ==> r[i].visible && r[i] in ms
    ensures forall i :: 0 <= i < |ms| && ms[i].visible ==> ms[i] in r
  {
    if ms == [] then []
    else VisibleMeasures(ms[..|ms| - 1]) + (if ms[|ms| - 1].visible then [ms[|ms| - 1]] else [])
  }

  /** Filtering a concatenation filters each part, so the candidates keep their order. */
  lemma {:induction false} VisibleMeasuresAppend(a: seq<Measure>, b: seq<Measure>)
    ensures VisibleMeasures(a + b) == VisibleMeasures(a) + VisibleMeasures(b)
  {
    if b == [] {
      assert a + b == a;
    } else {
      var b' := b[..|b| - 1];
      assert (a + b)[..|a + b| - 1] == a + b';
      VisibleMeasuresAppend(a, b');
    }
  }

  function Max(a: real, b: real): real
  {
    if a >= b then a else b
  }

  /** `maxDistance`, starting from 0 and raised by every measure. */
  function MaxDistance(ms: seq<Measure>): (r: real)
    ensures r >= 0.0
    ensures forall i :: 0 <= i < |ms| ==> ms[i].distance <= r
    ensures ms == [] ==> r == 0.0
    ensures r == 0.0 || exists i :: 0 <= i < |ms| && r == ms[i].distance
  {
    if ms == [] then 0.0
    else
      var prefix := ms[..|ms| - 1];
      assert forall i :: 0 <= i < |prefix| ==> prefix[i] == ms[i];
      Max(MaxDistance(prefix), ms[|ms| - 1].distance)
  }

  /** `maxAzimuth`, starting from 0 and raised by every measure. */
  function MaxAzimuth(ms: seq<Measure>): (r: real)
    ensures r >= 0.0
    ensures forall i :: 0 <= i < |ms| ==> ms[i].azimuth <= r
    ensures ms == [] ==> r == 0.0
    ensures r == 0.0 || exists i :: 0 <= i < |ms| && r == ms[i].azimuth
  {
    if ms == [] then 0.0
    else
      var prefix := ms[..|ms| - 1];
      assert forall i :: 0 <= i < |prefix| ==> prefix[i] == ms[i];
      Max(MaxAzimuth(prefix), ms[|ms| - 1].azimuth)
  }

  function ScoreOf(m: Measure, maxAzimuth: real, maxDistance: real, w: Weights): Scored
  {
    Scored(m.el, m.azimuth, WeightedResult(m.azimuth, maxAzimuth, w, m.distance, maxDistance))
  }

  function ScoreAll(ms: seq<Measure>, maxAzimuth: real, maxDistance: real, w: Weights): (r: seq<Scored>)
    ensures |r| == |ms|
    ensures forall i :: 0 <= i < |ms| ==> r[i] == ScoreOf(ms[i], maxAzimuth, maxDistance, w)
    ensures forall i :: 0 <= i < |ms| ==> r[i].el == ms[i].el && r[i].azimuth == ms[i].azimuth
  {
    seq(|ms|, i requires 0 <= i < |ms| => ScoreOf(ms[i], maxAzimuth, maxDistance, w))
  }

  /** Under the line-of-sight rule a non-zero azimuth ranks behind every zero azimuth. */
  function Rank(los: bool, s: Scored): nat
  {
    if los && s.azimuth != 0.0 then 1 else 0
  }

  /** The reduce keeps the stored best exactly when it comes strictly first in (rank, computed). */
  predicate Before(los: bool, a: Scored, b: Scored)
  {
    Rank(los, a) < Rank(los, b) || (Rank(los, a) == Rank(los, b) && a.computed < b.computed)
  }

  /**
   * The reduce of `_activateClosest`. The initial `{azimuth: Infinity, computed:
   * Infinity}` never survives the first candidate, so it is `None` here.
   */
  function Pick(los: bool, xs: seq<Scored>): (r: Option<Scored>)
    ensures r.None? <==> xs == []
    ensures r.Some? ==> r.value in xs
  {
    if xs == [] then None
    else
      var stored := Pick(los, xs[..|xs| - 1]);
      var current := xs[|xs| - 1];
      if stored.Some? && Before(los, stored.value, current) then stored else Some(current)
  }

  /** `xs[k]` comes first in (rank, computed) order, and is the last candidate to do so. */
  predicate LastBest(los: bool, xs: seq<Scored>, k: int)
  {
    0 <= k < |xs| &&
    (forall j :: 0 <= j < |xs| ==> !Before(los, xs[j], xs[k])) &&
    (forall j :: k < j < |xs| ==> Before(los, xs[k], xs[j]))
  }

  /** Not coming after is transitive: (rank, computed) is a total preorder. */
  lemma NotBeforeTransitive(los: bool, a: Scored, b: Scored, c: Scored)
    requires !Before(los, a, b) && !Before(los, b, c)
    ensures !Before(los, a, c)
  {
  }

  /** One more candidate: the stored best survives when it comes strictly first, else the newcomer wins. */
  lemma {:induction false} LastBestExtend(los: bool, xs: seq<Scored>, k: int)
    requires |xs| >= 2 && LastBest(los, xs[..|xs| - 1], k)
    ensures Before(los, xs[k], xs[|xs| - 1]) ==> LastBest(los, xs, k)
    ensures !Before(los, xs[k], xs[|xs| - 1]) ==> LastBest(los, xs, |xs| - 1)
  {
    var n := |xs| - 1;
    var prefix := xs[..n];
    assert forall j :: 0 <= j < n ==> prefix[j] == xs[j];
    if Before(los, xs[k], xs[n]) {
      assert !Before(los, xs[n], xs[k]);
    } else {
      forall j | 0 <= j < n
        ensures !Before(los, xs[j], xs[n])
      {
        assert !Before(los, prefix[j], prefix[k]);
        NotBeforeTransitive(los, xs[j], xs[k], xs[n]);
      }
    }
  }

  /** The reduce returns the last candidate that is best in (rank, computed) order. */
  lemma {:induction false} PickIsLastBest(los: bool, xs: seq<Scored>)
    requires xs != []
    ensures exists k :: LastBest(los, xs, k) && Pick(los, xs) == Some(xs[k])
    decreases |xs|
  {
    var n := |xs| - 1;
    var prefix := xs[..n];
    if prefix == [] {
      assert LastBest(los, xs, 0);
    } else {
      PickIsLastBest(los, prefix);
      var k :| LastBest(los, prefix, k) && Pick(los, prefix) == Some(prefix[k]);
      LastBestExtend(los, xs, k);
      assert prefix[k] == xs[k];
      if Before(los, xs[k], xs[n]) {
        assert Pick(los, xs) == Some(xs[k]);
      } else {
        assert Pick(los, xs) == Some(xs[n]);
      }
    }
  }

  /**
   * Line of sight: when the rule applies and some candidate has azimuth zero, the
   * chosen one has azimuth zero.
   */
  lemma LineOfSightWins(los: bool, xs: seq<Scored>, i: int)
    requires los && 0 <= i < |xs| && xs[i].azimuth == 0.0
    ensures Pick(los, xs).Some? && Pick(los, xs).value.azimuth == 0.0
  {
    PickIsLastBest(los, xs);
    var k :| LastBest(los, xs, k) && Pick(los, xs) == Some(xs[k]);
    assert !Before(los, xs[i], xs[k]);
  }

  /**
   * Without the rule (override 'distance'), or against any candidate of the
   * chosen one's rank, the chosen candidate has the lowest computed score.
   */
  lemma LowestComputedWins(los: bool, xs: seq<Scored>, i: int)
    requires 0 <= i < |xs|
    requires !los || Rank(los, xs[i]) == Rank(los, Pick(los, xs).value)
    ensures Pick(los, xs).value.computed <= xs[i].computed
  {
    PickIsLastBest(los, xs);
    var k :| LastBest(los, xs, k) && Pick(los, xs) == Some(xs[k]);
    assert !Before(los, xs[i], xs[k]);
  }

  /** A tie in (rank, computed) goes to the later candidate: the earlier one is never the last best. */
  lemma TieGoesToLater(los: bool, xs: seq<Scored>, i: int, j: int)
    requires 0 <= i < j < |xs|
    requires Rank(los, xs[i]) == Rank(los, xs[j]) && xs[i].computed == xs[j].computed
    ensures !LastBest(los, xs, i)
  {
    assert !Before(los, xs[i], xs[j]);
  }

  /** The element `_activateClosest` hands to `setCurrent`, or `None` when there is no visible candidate. */
  function Closest(ms: seq<Measure>, los: bool, w: Weights): (r: Option<Elem>)
    ensures r.None? <==> forall m :: m in ms ==> !m.visible
    ensures r.Some? ==> exists m :: m in ms && m.visible && m.el == r.value
  {
    var vis := VisibleMeasures(ms);
    var scored := ScoreAll(vis, MaxAzimuth(vis), MaxDistance(vis), w);
    match Pick(los, scored)
    case None => None
    case Some(s) =>
      assert exists i :: 0 <= i < |scored| && scored[i] == s;
      Some(s.el)
  }

  /**
   * With a visible candidate, the chosen element is the last visible candidate that
   * comes first in (line-of-sight rank, weighted score) order: no visible candidate
   * has a lower rank, none of the same rank has a lower score, and every later one
   * comes strictly after it.
   */
  lemma ClosestIsLastBest(ms: seq<Measure>, los: bool, w: Weights)
    requires exists m :: m in ms && m.visible
    ensures var vis := VisibleMeasures(ms);
            var scored := ScoreAll(vis, MaxAzimuth(vis), MaxDistance(vis), w);
            exists k :: 0 <= k < |vis| && Closest(ms, los, w) == Some(vis[k].el)
                        && LastBest(los, scored, k)
                        && forall j :: 0 <= j < |vis| ==>
                             Rank(los, scored[k]) <= Rank(los, scored[j])
                             && (Rank(los, scored[k]) == Rank(los, scored[j]) ==> scored[k].computed <= scored[j].computed)
  {
    var vis := VisibleMeasures(ms);
    var scored := ScoreAll(vis, MaxAzimuth(vis), MaxDistance(vis), w);
    SomeVisible(ms);
    PickIsLastBest(los, scored);
    var k :| LastBest(los, scored, k) && Pick(los, scored) == Some(scored[k]);
    LastBestIsLeast(los, scored, k);
    assert scored[k].el == vis[k].el;
  }

  /** A visible measure survives the filter. */
  lemma SomeVisible(ms: seq<Measure>)
    requires exists m :: m in ms && m.visible
    ensures VisibleMeasures(ms) != []
  {
    var m :| m in ms && m.visible;
    assert m in VisibleMeasures(ms);
  }

  /** The last best candidate has the lowest rank, and the lowest score within that rank. */
  lemma LastBestIsLeast(los: bool, xs: seq<Scored>, k: int)
    requires LastBest(los, xs, k)
    ensures forall j :: 0 <= j < |xs| ==>
              Rank(los, xs[k]) <= Rank(los, xs[j])
              && (Rank(los, xs[k]) == Rank(los, xs[j]) ==> xs[k].computed <= xs[j].computed)
  {
    forall j | 0 <= j < |xs|
      ensures Rank(los, xs[k]) <= Rank(los, xs[j])
      ensures Rank(los, xs[k]) == Rank(los, xs[j]) ==> xs[k].computed <= xs[j].computed
    {
      assert !Before(los, xs[j], xs[k]);
    }
  }

  /**
   * A zero maximum is replaced by one, so no score divides by zero, and with
   * non-negative weights and distances every visible score lies between zero and
   * the sum of the weights.
   */
  lemma ScoresBounded(ms: seq<Measure>, w: Weights, i: int)
    requires w.azimuth >= 0.0 && w.distance >= 0.0
    requires forall j :: 0 <= j < |ms| ==> ms[j].distance >= 0.0 && ms[j].azimuth >= 0.0
    requires 0 <= i < |VisibleMeasures(ms)|
    ensures var vis := VisibleMeasures(ms);
            var c := ScoreOf(vis[i], MaxAzimuth(vis), MaxDistance(vis), w).computed;
            0.0 <= c <= w.azimuth + w.distance
  {
    var vis := VisibleMeasures(ms);
    var m := vis[i];
    assert m in ms;
  }

  lemma UnitRatio(v: real, m: real)
    requires 0.0 <= v <= m
    ensures 0.0 <= v / NonZero(m) <= 1.0
  {
    if m != 0.0 {
      assert v / m * m == v;
    }
  }

  lemma ScaleUnit(w: real, r: real)
    requires w >= 0.0 && 0.0 <= r <= 1.0
    ensures 0.0 <= w * r <= w
  {
    assert w * (1.0 - r) >= 0.0;
  }

  /** The maxima ignore hidden candidates: adding an invisible one changes no score. */
  lemma {:induction false} HiddenCandidateIgnored(ms: seq<Measure>, m: Measure, los: bool, w: Weights)
    requires !m.visible
    ensures Closest(ms + [m], los, w) == Closest(ms, los, w)
  {
    assert (ms + [m])[..|ms + [m]| - 1] == ms;
    assert VisibleMeasures(ms + [m]) == VisibleMeasures(ms);
  }

  /**
   * `_activateClosest` as its two passes: the `map` gathers the visible measures
   * and raises the maxima, the `reduce` keeps the running best.
   */
  method ChooseClosest(ms: seq<Measure>, los: bool, w: Weights) returns (chosen: Option<Elem>)
    ensures chosen == Closest(ms, los, w)
  {
    var vis, maxAzimuth, maxDistance := GatherVisible(ms);
    var best := KeepBest(vis, maxAzimuth, maxDistance, los, w);
    chosen := if best.Some? then Some(best.value.el) else None;
  }

  /** The `map` pass: the visible measures, and the maxima raised by each of them. */
  method GatherVisible(ms: seq<Measure>) returns (vis: seq<Measure>, maxAzimuth: real, maxDistance: real)
    ensures vis == VisibleMeasures(ms)
    ensures maxAzimuth == MaxAzimuth(vis) && maxDistance == MaxDistance(vis)
  {
    vis, maxAzimuth, maxDistance := [], 0.0, 0.0;
    var i := 0;
    while i < |ms|
      invariant 0 <= i <= |ms|
      invariant vis == VisibleMeasures(ms[..i])
      invariant maxDistance == MaxDistance(vis) && maxAzimuth == MaxAzimuth(vis)
    {
      assert ms[..i + 1][..i] == ms[..i];
      if ms[i].visible {
        assert (vis + [ms[i]])[..|vis|] == vis;
        maxDistance := Max(maxDistance, ms[i].distance);
        maxAzimuth := Max(maxAzimuth, ms[i].azimuth);
        vis := vis + [ms[i]];
      }
      i := i + 1;
    }
    assert ms[..|ms|] == ms;
  }

  /** The running best after one more candidate: the stored best unless the newcomer ties or beats it. */
  lemma PickNext(los: bool, xs: seq<Scored>, j: nat)
    requires j < |xs|
    ensures var stored := Pick(los, xs[..j]);
            Pick(los, xs[..j + 1]) == if stored.Some? && Before(los, stored.value, xs[j]) then stored else Some(xs[j])
  {
    assert xs[..j + 1][..j] == xs[..j];
  }

  /** The `reduce` pass: the running best over the weighted candidates. */
  method KeepBest(vis: seq<Measure>, maxAzimuth: real, maxDistance: real, los: bool, w: Weights)
    returns (stored: Option<Scored>)
    ensures stored == Pick(los, ScoreAll(vis, maxAzimuth, maxDistance, w))
  {
    ghost var xs := ScoreAll(vis, maxAzimuth, maxDistance, w);
    stored := None;
    var j := 0;
    while j < |vis|
      invariant 0 <= j <= |vis|
      invariant stored == Pick(los, xs[..j])
    {
      var current := ScoreOf(vis[j], maxAzimuth, maxDistance, w);
      PickNext(los, xs, j);
      if !(stored.Some? && Before(los, stored.value, current)) {
        stored := Some(current);
      }
      j := j + 1;
    }
    assert xs[..|xs|] == xs;
  }
}
