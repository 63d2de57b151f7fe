/**
 * The current engine (main-browserify): a singleton holding the known elements,
 * the focused element, the lock and the configuration, driven by key presses.
 * The transitions are given as functions on `State`; the class `Engine` holds the
 * same state in fields and its methods are proved to perform those transitions.
 */
module FocusFinder {
  import opened Base
  import opened Tokens
  import opened Geometry
  import opened Angles
  import opened Scoring

  /** The configuration entries the engine reads. */
  datatype Config = Config(
    keymap: map<int, Key>,
    weightOverrideAttribute: string,
    focusableAttribute: string,
    defaultFocusedElement: Target,
    container: Container,
    overrideDirectionAttribute: string,
    captureFocusAttribute: string,
    dynamicPositionAttribute: string,
    useRealFocus: bool,
    weights: Weights)

  const DefaultKeymap: map<int, Key> :=
    map[38 := Arrow(Up), 40 := Arrow(Down), 37 := Arrow(Left), 39 := Arrow(Right), 13 := Enter]

  const DefaultConfig: Config := Config(
    DefaultKeymap, "weight-override", "focusable", NoTarget, Named("document"),
    "focus-overrides", "capture-focus", "dynamic-position", true, Weights(1.0, 1.0))

  /**
   * The engine's state. `positions`, `directionOverrides` and `weightOverrides` are
   * the properties the engine stores on each element it registers; they stay on
   * the element when it leaves `known`. `dynamic` holds the elements the engine
   * itself marked with the dynamic-position attribute, `focused` those carrying
   * the focused class, and `log` the effects emitted so far.
   */
  datatype State = State(
    config: Config,
    canMove: bool,
    current: Option<Elem>,
    known: seq<Elem>,
    positions: map<Elem, Position>,
    directionOverrides: map<Elem, map<Direction, Option<string>>>,
    weightOverrides: map<Elem, map<Direction, string>>,
    dynamic: set<Elem>,
    focused: set<Elem>,
    log: seq<Effect>)

  /** The state before anything is registered. */
  function Initial(config: Config): State
  {
    State(config, true, None, [], map[], map[], map[], {}, {}, [])
  }

  // ---------------------------------------------------------------- setCurrent

  /** The effects on the element losing focus: losing-focus, blur, focus-lost. */
  function LeaveEffects(prev: Option<Elem>, events: bool, realFocus: bool): seq<Effect>
  {
    match prev
    case None => []
    case Some(p) =>
      (if events then [LosingFocus(p)] else []) + (if realFocus then [Blur(p)] else [])
      + (if events then [FocusLost(p)] else [])
  }

  /** The effects on the element gaining focus: gaining-focus, focus, focus-gained, focus-moved. */
  function EnterEffects(prev: Option<Elem>, e: Elem, direction: Option<Direction>, events: bool, realFocus: bool): seq<Effect>
  {
    (if events then [GainingFocus(e)] else []) + (if realFocus then [Focus(e)] else [])
    + (if events then [FocusGained(e), FocusMoved(direction, prev, e)] else [])
  }

  /**
   * `setCurrent(target, direction, {events})`: an unresolved target changes nothing;
   * otherwise the focused class and the focus move to the target. There is no
   * check for the target already being focused.
   */
  function SetCurrentSpec(s: State, dom: Dom, target: Target, direction: Option<Direction>, events: bool): (r: State)
    ensures Resolve(dom, target).None? ==> r == s
    ensures Resolve(dom, target).Some? ==> r.current == Resolve(dom, target)
    ensures Resolve(dom, target).Some? ==> r.focused == s.focused - AsSet(s.current) + {r.current.value}
    ensures Resolve(dom, target).Some? ==> r == s.(current := r.current, focused := r.focused, log := r.log)
    ensures r.known == s.known && r.canMove == s.canMove && r.config == s.config && r.positions == s.positions
  {
    match Resolve(dom, target)
    case None => s
    case Some(e) =>
      s.(current := Some(e),
         focused := s.focused - AsSet(s.current) + {e},
         log := s.log + LeaveEffects(s.current, events, s.config.useRealFocus)
                      + EnterEffects(s.current, e, direction, events, s.config.useRealFocus))
  }

  /**
   * The notifications of one focus change come in the order losing-focus,
   * focus-lost (only with a previous element), gaining-focus, focus-gained,
   * focus-moved carrying direction, from and to.
   */
  lemma SetCurrentNotifies(s: State, dom: Dom, target: Target, direction: Option<Direction>)
    requires Resolve(dom, target).Some?
    ensures var e := Resolve(dom, target).value;
            var leaving := match s.current case None => [] case Some(p) => [LosingFocus(p), FocusLost(p)];
            Notifications(SetCurrentSpec(s, dom, target, direction, true).log)
              == Notifications(s.log) + leaving
                 + [GainingFocus(e), FocusGained(e), FocusMoved(direction, s.current, e)]
  {
    var e := Resolve(dom, target).value;
    var rf := s.config.useRealFocus;
    var leave := LeaveEffects(s.current, true, rf);
    var enter := EnterEffects(s.current, e, direction, true, rf);
    assert SetCurrentSpec(s, dom, target, direction, true).log == s.log + leave + enter;
    NotificationsAppend(s.log + leave, enter);
    NotificationsAppend(s.log, leave);
    if s.current.Some? {
      LeaveNotifies(s.current.value, rf);
    }
    EnterNotifies(s.current, e, direction, rf);
  }

  /** Of the effects on the element losing focus, losing-focus and focus-lost are notifications. */
  lemma LeaveNotifies(p: Elem, rf: bool)
    ensures Notifications(LeaveEffects(Some(p), true, rf)) == [LosingFocus(p), FocusLost(p)]
  {
    var a, b, c := [LosingFocus(p)], (if rf then [Blur(p)] else []), [FocusLost(p)];
    assert LeaveEffects(Some(p), true, rf) == a + b + c;
    NotificationsAppend(a + b, c);
    NotificationsAppend(a, b);
    NotificationsSingle(LosingFocus(p));
    NotificationsSingle(FocusLost(p));
    NotificationsSingle(Blur(p));
  }

  /** Of the effects on the element gaining focus, all but the host focus call are notifications. */
  lemma EnterNotifies(prev: Option<Elem>, e: Elem, direction: Option<Direction>, rf: bool)
    ensures Notifications(EnterEffects(prev, e, direction, true, rf))
            == [GainingFocus(e), FocusGained(e), FocusMoved(direction, prev, e)]
  {
    var notes := [GainingFocus(e), FocusGained(e), FocusMoved(direction, prev, e)];
    var rest := [FocusGained(e), FocusMoved(direction, prev, e)];
    NotificationsOnly(notes);
    if rf {
      assert EnterEffects(prev, e, direction, true, rf) == [GainingFocus(e)] + [Focus(e)] + rest;
      NotificationsSkip([GainingFocus(e)], Focus(e), rest);
      assert [GainingFocus(e)] + rest == notes;
    } else {
      assert EnterEffects(prev, e, direction, true, rf) == notes;
    }
  }

  /** With `events: false` no notification is emitted, whatever else happens. */
  lemma SetCurrentSilently(s: State, dom: Dom, target: Target, direction: Option<Direction>)
    ensures Notifications(SetCurrentSpec(s, dom, target, direction, false).log) == Notifications(s.log)
  {
    if Resolve(dom, target).Some? {
      var e := Resolve(dom, target).value;
      var rf := s.config.useRealFocus;
      var leave := LeaveEffects(s.current, false, rf);
      var enter := EnterEffects(s.current, e, direction, false, rf);
      assert SetCurrentSpec(s, dom, target, direction, false).log == s.log + leave + enter;
      QuietEffects(s.current, e, direction, rf);
      NotificationsAppend(s.log + leave, enter);
      NotificationsAppend(s.log, leave);
    }
  }

  /** Without events, leaving and entering emit only host focus calls, no notification. */
  lemma QuietEffects(prev: Option<Elem>, e: Elem, direction: Option<Direction>, realFocus: bool)
    ensures Notifications(LeaveEffects(prev, false, realFocus)) == []
    ensures Notifications(EnterEffects(prev, e, direction, false, realFocus)) == []
  {
    if prev.Some? {
      assert LeaveEffects(prev, false, realFocus) == if realFocus then [Blur(prev.value)] else [];
      NotificationsSingle(Blur(prev.value));
    }
    assert EnterEffects(prev, e, direction, false, realFocus) == if realFocus then [Focus(e)] else [];
    NotificationsSingle(Focus(e));
  }

  /** When only the focused element carries the focused class, that stays so after a focus change. */
  lemma FocusedClassFollowsFocus(s: State, dom: Dom, target: Target, direction: Option<Direction>, events: bool)
    requires s.focused == AsSet(s.current)
    ensures var r := SetCurrentSpec(s, dom, target, direction, events); r.focused == AsSet(r.current)
  {
  }

  // ---------------------------------------------------------- registration

  /** The attribute holding the weight preference for one direction: `weight-override-up`, ... */
  function WeightAttribute(prefix: string, d: Direction): string
  {
    prefix + "-" + DirectionName(d)
  }

  /** `_getPreferedOverrides`: the directions whose weight-override attribute is present, with its value. */
  function PreferredOverrides(dom: Dom, e: Elem, prefix: string): (m: map<Direction, string>)
    ensures forall d :: d in m <==> dom.Attr(e, WeightAttribute(prefix, d)).Some?
    ensures forall d :: d in m ==> Some(m[d]) == dom.Attr(e, WeightAttribute(prefix, d))
  {
    map d | d in {Up, Down, Left, Right} && dom.Attr(e, WeightAttribute(prefix, d)).Some?
      :: dom.Attr(e, WeightAttribute(prefix, d)).value
  }

  /** The weight preference stored for an element and a direction (`weightOverrides[direction]`). */
  function Preference(s: State, e: Elem, d: Direction): Option<string>
  {
    if e in s.weightOverrides && d in s.weightOverrides[e] then Some(s.weightOverrides[e][d]) else None
  }

  /**
   * `_registerElement`: a hidden element is marked dynamic (but still registered);
   * the position and both override readings are cached; a capture-focus element
   * takes the focus; the element is appended.
   */
  function RegisterSpec(s: State, dom: Dom, e: Elem): (r: State)
    ensures r.known == s.known + [e]
    ensures r.config == s.config && r.canMove == s.canMove
    ensures e in r.positions && r.positions[e] == PositionOf(dom.NodeOf(e).rect)
    ensures forall k :: k in s.positions && k != e ==> k in r.positions && r.positions[k] == s.positions[k]
    ensures r.positions.Keys == s.positions.Keys + {e}
    ensures e in r.dynamic <==> e in s.dynamic || dom.NodeOf(e).hidden
    ensures r.directionOverrides == s.directionOverrides[e := DirectionOverrides(dom.Attr(e, s.config.overrideDirectionAttribute))]
    ensures r.weightOverrides == s.weightOverrides[e := PreferredOverrides(dom, e, s.config.weightOverrideAttribute)]
    ensures dom.Attr(e, s.config.captureFocusAttribute).Some? ==>
              r.current == Some(e)
              && r.log == SetCurrentSpec(s, dom, NodeRef(e), None, true).log
              && r.focused == SetCurrentSpec(s, dom, NodeRef(e), None, true).focused
    ensures dom.Attr(e, s.config.captureFocusAttribute).None? ==>
              r.current == s.current && r.log == s.log && r.focused == s.focused
  {
    var c := s.config;
    var node := dom.NodeOf(e);
    var s1 := s.(
      dynamic := if node.hidden then s.dynamic + {e} else s.dynamic,
      positions := s.positions[e := PositionOf(node.rect)],
      directionOverrides := s.directionOverrides[e := DirectionOverrides(dom.Attr(e, c.overrideDirectionAttribute))],
      weightOverrides := s.weightOverrides[e := PreferredOverrides(dom, e, c.weightOverrideAttribute)]);
    var s2 := if dom.Attr(e, c.captureFocusAttribute).Some? then SetCurrentSpec(s1, dom, NodeRef(e), None, true) else s1;
    s2.(known := s2.known + [e])
  }

  /**
   * Registering a list of elements in order (the `forEach` over the scan): the
   * elements are appended in order and each gets a cached position.
   */
  function RegisterAll(s: State, dom: Dom, es: seq<Elem>): (r: State)
    ensures r.known == s.known + es
    ensures forall k :: k in r.positions <==> k in s.positions || k in es
    ensures r.config == s.config && r.canMove == s.canMove
    decreases |es|
  {
    if es == [] then s
    else
      var r := RegisterAll(s, dom, es[..|es| - 1]);
      RegisterOneMore(s, r, dom, es);
      RegisterSpec(r, dom, es[|es| - 1])
  }

  /** Registering one element more of a list registers it after the ones before it. */
  lemma RegisterAllSnoc(s: State, dom: Dom, es: seq<Elem>, i: nat)
    requires i < |es|
    ensures RegisterAll(s, dom, es[..i + 1]) == RegisterSpec(RegisterAll(s, dom, es[..i]), dom, es[i])
  {
    assert es[..i + 1][..i] == es[..i];
  }

  /** One more registration extends what registering all but the last element established. */
  lemma RegisterOneMore(s: State, r: State, dom: Dom, es: seq<Elem>)
    requires es != []
    requires r.known == s.known + es[..|es| - 1]
    requires forall k :: k in r.positions <==> k in s.positions || k in es[..|es| - 1]
    requires r.config == s.config && r.canMove == s.canMove
    ensures var next := RegisterSpec(r, dom, es[|es| - 1]);
            next.known == s.known + es
            && (forall k :: k in next.positions <==> k in s.positions || k in es)
            && next.config == s.config && next.canMove == s.canMove
  {
    var prefix, last := es[..|es| - 1], es[|es| - 1];
    var next := RegisterSpec(r, dom, last);
    assert es == prefix + [last];
    assert next.positions.Keys == r.positions.Keys + {last};
    assert forall k :: k in es <==> k in prefix || k == last;
  }

  /**
   * `refresh`: the resolved container is written back into the configuration, the
   * known elements are cleared and every element the scan finds is registered.
   * A selector that finds nothing leaves a null container and no known elements
   * (the scan then throws); a null container throws before anything changes.
   */
  function RefreshSpec(s: State, dom: Dom): (r: State)
    ensures LookupContainer(dom, s.config.container).Broken? ==> r == s
    ensures LookupContainer(dom, s.config.container).NotFound? ==>
              r.known == [] && r.config.container == NullContainer
  {
    match LookupContainer(dom, s.config.container)
    case Broken => s
    case NotFound => s.(config := s.config.(container := NullContainer), known := [])
    case Found(root) =>
      RegisterAll(s.(config := s.config.(container := Element(root)), known := []), dom,
                  dom.Scan(root, s.config.focusableAttribute))
  }

  /**
   * After a refresh that finds its container, the known elements are exactly the
   * scanned ones in document order (hidden ones included), each with a cached
   * position, and a later refresh keeps using the same container.
   */
  lemma RefreshRegistersScan(s: State, dom: Dom)
    requires LookupContainer(dom, s.config.container).Found?
    ensures var root := LookupContainer(dom, s.config.container).root;
            var r := RefreshSpec(s, dom);
            r.known == dom.Scan(root, s.config.focusableAttribute)
            && (forall k :: k in r.known ==> k in r.positions)
            && LookupContainer(dom, r.config.container) == Found(root)
  {
    var root := LookupContainer(dom, s.config.container).root;
    var s0 := s.(config := s.config.(container := Element(root)), known := []);
  }

  // -------------------------------------------------------- unregistration

  /** `_setDefaultFocus`: the configured default if truthy, else the first known element. */
  function SetDefaultFocusSpec(s: State, dom: Dom): (r: State)
    ensures Truthy(s.config.defaultFocusedElement) && Resolve(dom, s.config.defaultFocusedElement).Some? ==>
              r.current == Resolve(dom, s.config.defaultFocusedElement)
    ensures !Truthy(s.config.defaultFocusedElement) && s.known != [] ==> r.current == Some(s.known[0])
    ensures Truthy(s.config.defaultFocusedElement) && Resolve(dom, s.config.defaultFocusedElement).None? ==> r == s
    ensures !Truthy(s.config.defaultFocusedElement) && s.known == [] && Resolve(dom, Undefined).Some? ==>
              r.current == Resolve(dom, Undefined)
    ensures !Truthy(s.config.defaultFocusedElement) && s.known == [] && Resolve(dom, Undefined).None? ==> r == s
  {
    if Truthy(s.config.defaultFocusedElement) then SetCurrentSpec(s, dom, s.config.defaultFocusedElement, None, true)
    else SetCurrentSpec(s, dom, if s.known == [] then Undefined else NodeRef(s.known[0]), None, true)
  }

  /**
   * `_unregisterElement`: every known entry equal to the element is removed; if it
   * was the focused element the default focus is applied.
   */
  function UnregisterSpec(s: State, dom: Dom, e: Elem): (r: State)
    ensures r.known == Without(s.known, e)
    ensures e !in r.known
    ensures forall x :: x in r.known <==> x in s.known && x != e
    ensures s.current != Some(e) ==> r == s.(known := r.known)
  {
    var s1 := s.(known := Without(s.known, e));
    if s1.current == Some(e) then SetDefaultFocusSpec(s1, dom) else s1
  }

  /**
   * When the focused element is unregistered and there is no default, the focus
   * goes to the first remaining known element, which is the first entry of the
   * old list other than the removed element.
   */
  lemma UnregisterRefocuses(s: State, dom: Dom, e: Elem)
    requires s.current == Some(e) && !Truthy(s.config.defaultFocusedElement)
    requires exists x :: x in s.known && x != e
    ensures var r := UnregisterSpec(s, dom, e);
            r.current == Some(Without(s.known, e)[0]) && r.current != Some(e)
            && exists j :: 0 <= j < |s.known| && s.known[j] == r.current.value
                           && forall i :: 0 <= i < j ==> s.known[i] == e
  {
    var x :| x in s.known && x != e;
    assert x in Without(s.known, e);
    WithoutHead(s.known, e);
  }

  // ------------------------------------------------------- lock and destroy

  function LockSpec(s: State): (r: State)
    ensures !r.canMove && r == s.(canMove := false)
  {
    s.(canMove := false)
  }

  function UnlockSpec(s: State): (r: State)
    ensures r.canMove && r == s.(canMove := true)
  {
    s.(canMove := true)
  }

  /**
   * `destroy`: known elements and focus are cleared and the configuration is reset.
   * The lock is not released (the source assigns a misspelt `canMode`), and the
   * focused class stays on the last focused element.
   */
  function DestroySpec(s: State): (r: State)
    ensures r.known == [] && r.current.None? && r.config == DefaultConfig
    ensures r.canMove == s.canMove && r.focused == s.focused && r.positions == s.positions
    ensures r.log == s.log && r.dynamic == s.dynamic
    ensures r.directionOverrides == s.directionOverrides && r.weightOverrides == s.weightOverrides
    ensures r == s.(known := [], current := None, config := DefaultConfig)
  {
    s.(known := [], current := None, config := DefaultConfig)
  }

  // ---------------------------------------------------------------- moving

  /** Whether the dynamic-position attribute is on an element, from the page or set by registration. */
  predicate IsDynamic(s: State, dom: Dom, k: Elem)
  {
    dom.Attr(k, s.config.dynamicPositionAttribute).Some? || k in s.dynamic
  }

  /** `_recalculateDynamicElementPositions` over a prefix of the known elements. */
  function Recalc(s: State, dom: Dom, ks: seq<Elem>): (ps: map<Elem, Position>)
    ensures forall k :: k in ps <==> k in s.positions || (k in ks && IsDynamic(s, dom, k))
  {
    if ks == [] then s.positions
    else
      var k := ks[|ks| - 1];
      var ps := Recalc(s, dom, ks[..|ks| - 1]);
      if IsDynamic(s, dom, k) then ps[k := PositionOf(dom.NodeOf(k).rect)] else ps
  }

  /**
   * Recalculation re-reads the rectangle of exactly the dynamic known elements and
   * leaves every other cached position as it was.
   */
  lemma {:induction false} RecalcRefreshesDynamic(s: State, dom: Dom, ks: seq<Elem>, k: Elem)
    ensures k in ks && IsDynamic(s, dom, k) ==>
              k in Recalc(s, dom, ks) && Recalc(s, dom, ks)[k] == PositionOf(dom.NodeOf(k).rect)
    ensures !(k in ks && IsDynamic(s, dom, k)) ==>
              (k in Recalc(s, dom, ks) <==> k in s.positions)
              && (k in s.positions ==> Recalc(s, dom, ks)[k] == s.positions[k])
    decreases |ks|
  {
    if ks != [] {
      var prefix := ks[..|ks| - 1];
      RecalcRefreshesDynamic(s, dom, prefix, k);
      assert ks == prefix + [ks[|ks| - 1]];
    }
  }

  /** One more element of the list: its position is re-read exactly when it is dynamic. */
  lemma RecalcSnoc(s: State, dom: Dom, ks: seq<Elem>, i: nat)
    requires i < |ks|
    ensures var ps := Recalc(s, dom, ks[..i]);
            Recalc(s, dom, ks[..i + 1]) == if IsDynamic(s, dom, ks[i]) then ps[ks[i] := PositionOf(dom.NodeOf(ks[i]).rect)] else ps
  {
    assert ks[..i + 1][..i] == ks[..i];
  }

  /**
   * `_recalculateDynamicElementPositions`: only positions change; every dynamic
   * known element gets its current rectangle, every other cached position stays.
   */
  function RecalcSpec(s: State, dom: Dom): (r: State)
    ensures r == s.(positions := r.positions)
    ensures forall k :: k in s.known && IsDynamic(s, dom, k) ==>
              k in r.positions && r.positions[k] == PositionOf(dom.NodeOf(k).rect)
    ensures forall k :: k in s.positions && !(k in s.known && IsDynamic(s, dom, k)) ==>
              k in r.positions && r.positions[k] == s.positions[k]
    ensures forall k :: k in r.positions ==> k in s.positions || k in s.known
  {
    RecalcRefreshesKnown(s, dom);
    s.(positions := Recalc(s, dom, s.known))
  }

  /** `RecalcRefreshesDynamic` for every element at once, over the whole known list. */
  lemma RecalcRefreshesKnown(s: State, dom: Dom)
    ensures var ps := Recalc(s, dom, s.known);
            (forall k :: k in s.known && IsDynamic(s, dom, k) ==> k in ps && ps[k] == PositionOf(dom.NodeOf(k).rect))
            && (forall k :: k in s.positions && !(k in s.known && IsDynamic(s, dom, k)) ==> k in ps && ps[k] == s.positions[k])
            && (forall k :: k in ps ==> k in s.positions || k in s.known)
  {
    forall k {
      RecalcRefreshesDynamic(s, dom, s.known, k);
    }
  }

  /** The anchors of every cached position. */
  function AnchorMap(ps: map<Elem, Position>): (m: map<Elem, Anchors>)
    ensures m.Keys == ps.Keys
    ensures forall k :: k in ps ==> m[k] == ps[k].anchors
  {
    map k | k in ps :: ps[k].anchors
  }

  /** The distance and azimuth measure of each close element, seen from the focused one. */
  function Measures(math: Numerics, dom: Dom, d: Direction, current: Anchors, close: seq<Elem>, anchors: map<Elem, Anchors>): (ms: seq<Measure>)
    requires forall k :: k in close ==> k in anchors
    ensures |ms| == |close|
    ensures forall i :: 0 <= i < |close| ==> ms[i] == MeasureOf(math, d, current, anchors[close[i]], close[i], dom.NodeOf(close[i]).visible)
  {
    seq(|close|, i requires 0 <= i < |close| => MeasureOf(math, d, current, anchors[close[i]], close[i], dom.NodeOf(close[i]).visible))
  }

  /**
   * The element `_activateClosest` picks for a move from the focused element `c`:
   * the close elements are measured, weighted with the focused element's weight
   * preference, and the best visible one is returned.
   */
  function Chosen(s: State, dom: Dom, math: Numerics, d: Direction, c: Elem): (r: Option<Elem>)
    requires c in s.positions && AllPositioned(s.known, AnchorMap(s.positions))
    ensures r.Some? ==> r.value in s.known && r.value != c && r.value in s.positions
                        && dom.NodeOf(r.value).visible
                        && Reaches(d, s.positions[c].anchors, s.positions[r.value].anchors)
    ensures r.None? <==> forall k :: k in s.known && k != c && Reaches(d, s.positions[c].anchors, s.positions[k].anchors)
                                     ==> !dom.NodeOf(k).visible
  {
    var anchors := AnchorMap(s.positions);
    var close := CloseElements(s.known, anchors, d, anchors[c], Some(c));
    var pref := Preference(s, c, d);
    var ms := Measures(math, dom, d, anchors[c], close, anchors);
    MeasuresTrackClose(math, dom, d, anchors[c], close, anchors);
    Closest(ms, LineOfSight(pref), EffectiveWeights(s.config.weights, pref))
  }

  /** Each visible measure belongs to a visible close element, and each visible close element has one. */
  lemma MeasuresTrackClose(math: Numerics, dom: Dom, d: Direction, current: Anchors, close: seq<Elem>, anchors: map<Elem, Anchors>)
    requires forall k :: k in close ==> k in anchors
    ensures var ms := Measures(math, dom, d, current, close, anchors);
            (forall m :: m in ms && m.visible ==> m.el in close && dom.NodeOf(m.el).visible)
            && ((forall m :: m in ms ==> !m.visible) <==> forall k :: k in close ==> !dom.NodeOf(k).visible)
  {
    var ms := Measures(math, dom, d, current, close, anchors);
    forall m | m in ms
      ensures m.el in close && m.visible == dom.NodeOf(m.el).visible
    {
      var i :| 0 <= i < |ms| && ms[i] == m;
    }
    forall k | k in close
      ensures exists m :: m in ms && m.el == k && m.visible == dom.NodeOf(k).visible
    {
      var i :| 0 <= i < |close| && close[i] == k;
      assert ms[i] in ms;
    }
  }

  /**
   * `_moveUp` and its siblings: dynamic positions are recalculated, the close
   * elements are filtered, measured and scored, and the winner (if any) gets the
   * focus with the move's direction, announced or not as the move's `events`
   * option says. Reading the position of a focused element the engine never
   * registered throws, which leaves the recalculated state.
   */
  function MoveSpec(s: State, dom: Dom, math: Numerics, d: Direction, events: bool): (r: State)
    ensures r.known == s.known && r.config == s.config && r.canMove == s.canMove
    ensures r.positions == RecalcSpec(s, dom).positions
  {
    var s1 := RecalcSpec(s, dom);
    match s1.current
    case None => s1
    case Some(c) =>
      if c !in s1.positions || !AllPositioned(s1.known, AnchorMap(s1.positions)) then s1
      else
        match Chosen(s1, dom, math, d, c)
        case None => s1
        case Some(e) => SetCurrentSpec(s1, dom, NodeRef(e), Some(d), events)
  }

  /**
   * A move only ever focuses a visible known element, other than the focused one,
   * that lies in the move's half-plane.
   */
  lemma MoveTargetsReachable(s: State, dom: Dom, math: Numerics, d: Direction, events: bool)
    requires MoveSpec(s, dom, math, d, events).current != s.current
    ensures var r := MoveSpec(s, dom, math, d, events);
            var ps := RecalcSpec(s, dom).positions;
            s.current.Some? && r.current.Some? && r.current.value in s.known
            && r.current.value != s.current.value && dom.NodeOf(r.current.value).visible
            && s.current.value in ps && r.current.value in ps
            && Reaches(d, ps[s.current.value].anchors, ps[r.current.value].anchors)
  {
  }

  /** With no visible element in the move's half-plane, focus and effects stay as they were. */
  lemma MoveWithoutCandidateKeepsFocus(s: State, dom: Dom, math: Numerics, d: Direction, events: bool)
    requires s.current.Some?
    requires var ps := RecalcSpec(s, dom).positions;
             s.current.value in ps && AllPositioned(s.known, AnchorMap(ps))
             && forall k :: k in s.known && k != s.current.value && Reaches(d, ps[s.current.value].anchors, ps[k].anchors)
                  ==> !dom.NodeOf(k).visible
    ensures MoveSpec(s, dom, math, d, events).current == s.current && MoveSpec(s, dom, math, d, events).log == s.log
  {
  }

  /** A move with `{events: false}` emits no notification, whether or not the focus moves. */
  lemma MoveSilently(s: State, dom: Dom, math: Numerics, d: Direction)
    ensures Notifications(MoveSpec(s, dom, math, d, false).log) == Notifications(s.log)
  {
    var s1 := RecalcSpec(s, dom);
    assert s1.log == s.log;
    if s1.current.Some? {
      var c := s1.current.value;
      if c in s1.positions && AllPositioned(s1.known, AnchorMap(s1.positions)) {
        var chosen := Chosen(s1, dom, math, d, c);
        if chosen.Some? {
          SetCurrentSilently(s1, dom, NodeRef(chosen.value), Some(d));
        }
      }
    }
  }

  /** A move with events on announces the new focus like any other `setCurrent` does. */
  lemma MoveNotifies(s: State, dom: Dom, math: Numerics, d: Direction)
    requires MoveSpec(s, dom, math, d, true).current != s.current
    ensures var r := MoveSpec(s, dom, math, d, true);
            r.current.Some?
            && Notifications(r.log) == Notifications(s.log)
                 + (if s.current.Some? then [LosingFocus(s.current.value), FocusLost(s.current.value)] else [])
                 + [GainingFocus(r.current.value), FocusGained(r.current.value), FocusMoved(Some(d), s.current, r.current.value)]
  {
    var s1 := RecalcSpec(s, dom);
    var c := s1.current.value;
    var e := Chosen(s1, dom, math, d, c).value;
    SetCurrentNotifies(s1, dom, NodeRef(e), Some(d));
  }

  // ---------------------------------------------------------- key handling

  /**
   * `_eventManager`: locked, nothing happens; with nothing focused the default
   * focus applies; otherwise the focused element's overrides are re-read and
   * stored, and a mapped key is either swallowed by 'skip', jumps to a truthy
   * override selector, clicks on 'enter', or moves.
   */
  function HandleKeySpec(s: State, dom: Dom, math: Numerics, code: int): (r: State)
    ensures !s.canMove ==> r == s
    ensures r.known == s.known && r.config == s.config && r.canMove == s.canMove
  {
    if !s.canMove then s
    else match s.current
      case None => SetDefaultFocusSpec(s, dom)
      case Some(c) =>
        var overrides := DirectionOverrides(dom.Attr(c, s.config.overrideDirectionAttribute));
        var s1 := s.(directionOverrides := s.directionOverrides[c := overrides]);
        if code !in s.config.keymap then s1
        else match s.config.keymap[code]
          case Enter => s1.(log := s1.log + [Click(c)])
          case Arrow(d) =>
            var token := OverrideFor(overrides, d);
            if token == Some("skip") then s1
            else if token.Some? && token.value != "" then SetCurrentSpec(s1, dom, SelectorRef(token.value), Some(d), true)
            else MoveSpec(s1, dom, math, d, true)
  }

  /** A locked engine ignores every key. */
  lemma LockedIgnoresKeys(s: State, dom: Dom, math: Numerics, code: int)
    ensures HandleKeySpec(LockSpec(s), dom, math, code) == LockSpec(s)
  {
  }

  /** A 'skip' override for the key's direction swallows the key: focus, positions and effects stay. */
  lemma SkipSwallowsKey(s: State, dom: Dom, math: Numerics, code: int, d: Direction)
    requires s.canMove && s.current.Some? && code in s.config.keymap && s.config.keymap[code] == Arrow(d)
    requires OverrideFor(DirectionOverrides(dom.Attr(s.current.value, s.config.overrideDirectionAttribute)), d) == Some("skip")
    ensures var r := HandleKeySpec(s, dom, math, code);
            r.current == s.current && r.log == s.log && r.positions == s.positions && r.known == s.known
  {
  }

  /**
   * Any other truthy override jumps straight to the element its selector finds,
   * without recalculating positions, and a selector that finds nothing leaves the
   * focus where it was.
   */
  lemma OverrideJumps(s: State, dom: Dom, math: Numerics, code: int, d: Direction, sel: string)
    requires s.canMove && s.current.Some? && code in s.config.keymap && s.config.keymap[code] == Arrow(d)
    requires OverrideFor(DirectionOverrides(dom.Attr(s.current.value, s.config.overrideDirectionAttribute)), d) == Some(sel)
    requires sel != "skip" && sel != ""
    ensures var r := HandleKeySpec(s, dom, math, code);
            r.positions == s.positions
            && r.current == (if !dom.Rejects(sel) && dom.Query(sel).Some? then dom.Query(sel) else s.current)
  {
  }

  /** With nothing focused, any key focuses the default element, else the first known element. */
  lemma UnfocusedFallsBack(s: State, dom: Dom, math: Numerics, code: int)
    requires s.canMove && s.current.None?
    ensures var r := HandleKeySpec(s, dom, math, code);
            r.current == (if Truthy(s.config.defaultFocusedElement) then Resolve(dom, s.config.defaultFocusedElement)
                          else if s.known == [] then Resolve(dom, Undefined) else Some(s.known[0]))
  {
  }

  /**
   * A mapped arrow key whose direction has no override, or only a falsy one,
   * re-reads the overrides and then moves, with events.
   */
  lemma NoOverrideMoves(s: State, dom: Dom, math: Numerics, code: int, d: Direction)
    requires s.canMove && s.current.Some? && code in s.config.keymap && s.config.keymap[code] == Arrow(d)
    requires var token := OverrideFor(DirectionOverrides(dom.Attr(s.current.value, s.config.overrideDirectionAttribute)), d);
             token.None? || token.value == ""
    ensures var c := s.current.value;
            var overrides := DirectionOverrides(dom.Attr(c, s.config.overrideDirectionAttribute));
            HandleKeySpec(s, dom, math, code)
              == MoveSpec(s.(directionOverrides := s.directionOverrides[c := overrides]), dom, math, d, true)
  {
  }

  // ------------------------------------------------------------------ engine

  /** The module-level `internal` object, with the transitions above as its methods. */
  class Engine {
    var config: Config
    var canMove: bool
    var current: Option<Elem>
    var known: seq<Elem>
    var positions: map<Elem, Position>
    var directionOverrides: map<Elem, map<Direction, Option<string>>>
    var weightOverrides: map<Elem, map<Direction, string>>
    var dynamic: set<Elem>
    var focused: set<Elem>
    var log: seq<Effect>

    function Model(): State
      reads this
    {
      State(config, canMove, current, known, positions, directionOverrides, weightOverrides, dynamic, focused, log)
    }

    constructor (config0: Config)
      ensures Model() == Initial(config0)
    {
      config, canMove, current, known := config0, true, None, [];
      positions, directionOverrides, weightOverrides := map[], map[], map[];
      dynamic, focused, log := {}, {}, [];
    }

    method SetCurrent(dom: Dom, target: Target, direction: Option<Direction>, events: bool)
      modifies this
      ensures Model() == SetCurrentSpec(old(Model()), dom, target, direction, events)
    {
      var next := Resolve(dom, target);
      if next.Some? {
        var e := next.value;
        var leave := LeaveEffects(current, events, config.useRealFocus);
        var enter := EnterEffects(current, e, direction, events, config.useRealFocus);
        focused := focused - AsSet(current) + {e};
        log := log + leave + enter;
        current := Some(e);
      }
    }

    method Register(dom: Dom, e: Elem)
      modifies this
      ensures Model() == RegisterSpec(old(Model()), dom, e)
    {
      var node := dom.NodeOf(e);
      if node.hidden {
        dynamic := dynamic + {e};
      }
      positions := positions[e := PositionOf(node.rect)];
      directionOverrides := directionOverrides[e := DirectionOverrides(dom.Attr(e, config.overrideDirectionAttribute))];
      weightOverrides := weightOverrides[e := PreferredOverrides(dom, e, config.weightOverrideAttribute)];
      if dom.Attr(e, config.captureFocusAttribute).Some? {
        SetCurrent(dom, NodeRef(e), None, true);
      }
      known := known + [e];
    }

    method Refresh(dom: Dom)
      modifies this
      ensures Model() == RefreshSpec(old(Model()), dom)
    {
      var lookup := LookupContainer(dom, config.container);
      match lookup
      case Broken =>
      case NotFound =>
        config := config.(container := NullContainer);
        known := [];
      case Found(root) =>
        config := config.(container := Element(root));
        known := [];
        RegisterEach(dom, dom.Scan(root, config.focusableAttribute));
    }

    /** The `forEach` of `refresh` over the scanned elements. */
    method RegisterEach(dom: Dom, es: seq<Elem>)
      modifies this
      ensures Model() == RegisterAll(old(Model()), dom, es)
    {
      ghost var s0 := Model();
      var i := 0;
      while i < |es|
        invariant 0 <= i <= |es|
        invariant Model() == RegisterAll(s0, dom, es[..i])
      {
        RegisterAllSnoc(s0, dom, es, i);
        Register(dom, es[i]);
        i := i + 1;
      }
      assert es[..i] == es;
    }

    method SetDefaultFocus(dom: Dom)
      modifies this
      ensures Model() == SetDefaultFocusSpec(old(Model()), dom)
    {
      if Truthy(config.defaultFocusedElement) {
        SetCurrent(dom, config.defaultFocusedElement, None, true);
      } else {
        SetCurrent(dom, if known == [] then Undefined else NodeRef(known[0]), None, true);
      }
    }

    method Unregister(dom: Dom, e: Elem)
      modifies this
      ensures Model() == UnregisterSpec(old(Model()), dom, e)
    {
      known := Without(known, e);
      if current == Some(e) {
        SetDefaultFocus(dom);
      }
    }

    method Lock()
      modifies this
      ensures Model() == LockSpec(old(Model()))
    {
      canMove := false;
    }

    method Unlock()
      modifies this
      ensures Model() == UnlockSpec(old(Model()))
    {
      canMove := true;
    }

    method Destroy()
      modifies this
      ensures Model() == DestroySpec(old(Model()))
    {
      known := [];
      current := None;
      config := DefaultConfig;
    }

    method RecalculateDynamicPositions(dom: Dom)
      modifies this
      ensures Model() == RecalcSpec(old(Model()), dom)
    {
      ghost var s0 := Model();
      var i := 0;
      while i < |known|
        invariant 0 <= i <= |known|
        invariant Model() == s0.(positions := Recalc(s0, dom, known[..i]))
      {
        var k := known[i];
        RecalcSnoc(s0, dom, known, i);
        if dom.Attr(k, config.dynamicPositionAttribute).Some? || k in dynamic {
          positions := positions[k := PositionOf(dom.NodeOf(k).rect)];
        }
        i := i + 1;
      }
      assert known[..i] == known;
    }

    method Move(dom: Dom, math: Numerics, d: Direction, events: bool)
      modifies this
      ensures Model() == MoveSpec(old(Model()), dom, math, d, events)
    {
      RecalculateDynamicPositions(dom);
      if current.None? {
        return;
      }
      var c := current.value;
      if c !in positions || !AllPositioned(known, AnchorMap(positions)) {
        return;
      }
      var anchors := AnchorMap(positions);
      var close := CloseElements(known, anchors, d, anchors[c], Some(c));
      var pref := Preference(Model(), c, d);
      var ms := Measures(math, dom, d, anchors[c], close, anchors);
      var chosen := ChooseClosest(ms, LineOfSight(pref), EffectiveWeights(config.weights, pref));
      assert chosen == Chosen(Model(), dom, math, d, c);
      if chosen.Some? {
        SetCurrent(dom, NodeRef(chosen.value), Some(d), events);
      }
    }

    method HandleKey(dom: Dom, math: Numerics, code: int)
      modifies this
      ensures Model() == HandleKeySpec(old(Model()), dom, math, code)
    {
      if !canMove {
        return;
      }
      if current.None? {
        SetDefaultFocus(dom);
        return;
      }
      var c := current.value;
      var overrides := DirectionOverrides(dom.Attr(c, config.overrideDirectionAttribute));
      directionOverrides := directionOverrides[c := overrides];
      if code !in config.keymap {
        return;
      }
      match config.keymap[code]
      case Enter =>
        log := log + [Click(c)];
      case Arrow(d) =>
        var token := OverrideFor(overrides, d);
        if token == Some("skip") {
        } else if token.Some? && token.value != "" {
          SetCurrent(dom, SelectorRef(token.value), Some(d), true);
        } else {
          Move(dom, math, d, true);
        }
    }
  }
}
