/**
 * The vendored copy of magic-focus-finder: the same registry and focus state
 * machine as the current engine, but moves pick the nearest reachable element
 * (the first strictly smallest distance, stopping early at zero), hidden elements
 * are never registered, and there is no lock, no weighting and no 'skip'.
 */
module VendorFocusFinder {
  import opened Base
  import opened Tokens
  import opened Geometry
  import opened Nearest

  /** The configuration entries the engine reads. */
  datatype Config = Config(
    keymap: seq<Binding>,
    focusableAttribute: string,
    defaultFocusedElement: Target,
    container: Container,
    overrideDirectionAttribute: string,
    captureFocusAttribute: string,
    dynamicPositionAttribute: string)

  const DefaultKeymap: seq<Binding> :=
    [Binding(38, Arrow(Up)), Binding(40, Arrow(Down)), Binding(37, Arrow(Left)), Binding(39, Arrow(Right)), Binding(13, Enter)]

  const DefaultConfig: Config := Config(
    DefaultKeymap, "focusable", NoTarget, Named("document"), "focus-overrides", "capture-focus", "dynamic-position")

  /**
   * The engine's state. `positions` and `overrides` are the properties stored on
   * each registered element; they stay on the element when it leaves `known`.
   * `focused` holds the elements carrying the focused class.
   */
  datatype State = State(
    config: Config,
    canMove: bool,
    current: Option<Elem>,
    known: seq<Elem>,
    positions: map<Elem, Anchors>,
    overrides: map<Elem, map<Direction, Option<string>>>,
    focused: set<Elem>,
    log: seq<Effect>)

  function Initial(config: Config): State
  {
    State(config, true, None, [], map[], map[], {}, [])
  }

  // ---------------------------------------------------------------- setCurrent

  /** The effects on the element losing focus: losing-focus, blur, focus-lost. */
  function LeaveEffects(prev: Option<Elem>): seq<Effect>
  {
    match prev
    case None => []
    case Some(p) => [LosingFocus(p), Blur(p), FocusLost(p)]
  }

  /** The effects on the element gaining focus: gaining-focus, focus, focus-gained. */
  function EnterEffects(e: Elem): seq<Effect>
  {
    [GainingFocus(e), Focus(e), FocusGained(e)]
  }

  /**
   * `setCurrent(querySelector)`: an unresolved target changes nothing; otherwise
   * the focused class moves from the previous element to the target, which
   * becomes the current element. There is no focus-moved notification.
   */
  function SetCurrentSpec(s: State, dom: Dom, target: Target): (r: State)
    ensures Resolve(dom, target).None? ==> r == s
    ensures Resolve(dom, target).Some? ==>
              r.current == Resolve(dom, target)
              && r.focused == s.focused - AsSet(s.current) + {Resolve(dom, target).value}
              && |r.log| == |s.log| + |LeaveEffects(s.current)| + 3
    ensures r.known == s.known && r.positions == s.positions && r.overrides == s.overrides
    ensures r.config == s.config && r.canMove == s.canMove
  {
    match Resolve(dom, target)
    case None => s
    case Some(e) =>
      s.(current := Some(e),
         focused := s.focused - AsSet(s.current) + {e},
         log := s.log + LeaveEffects(s.current) + EnterEffects(e))
  }

  /**
   * A focus change notifies in the order losing-focus, focus-lost (only with a
   * previous element), gaining-focus, focus-gained.
   */
  lemma SetCurrentNotifies(s: State, dom: Dom, target: Target)
    requires Resolve(dom, target).Some?
    ensures var e := Resolve(dom, target).value;
            Notifications(SetCurrentSpec(s, dom, target).log)
              == Notifications(s.log) + Leaving(s.current) + [GainingFocus(e), FocusGained(e)]
  {
    var e := Resolve(dom, target).value;
    var leave, enter := LeaveEffects(s.current), EnterEffects(e);
    assert SetCurrentSpec(s, dom, target).log == s.log + leave + enter;
    NotificationsAppend(s.log + leave, enter);
    NotificationsAppend(s.log, leave);
    LeaveNotifies(s.current);
    EnterNotifies(e);
  }

  /** The notifications on the element losing focus, if any: losing-focus, then focus-lost. */
  function Leaving(prev: Option<Elem>): seq<Effect>
  {
    match prev
    case None => []
    case Some(p) => [LosingFocus(p), FocusLost(p)]
  }

  lemma LeaveNotifies(prev: Option<Elem>)
    ensures Notifications(LeaveEffects(prev)) == Leaving(prev)
  {
    if prev.Some? {
      var p := prev.value;
      NotificationsOfThree(LosingFocus(p), Blur(p), FocusLost(p));
    }
  }

  lemma EnterNotifies(e: Elem)
    ensures Notifications(EnterEffects(e)) == [GainingFocus(e), FocusGained(e)]
  {
    NotificationsOfThree(GainingFocus(e), Focus(e), FocusGained(e));
  }

  lemma NotificationsOfThree(a: Effect, b: Effect, c: Effect)
    ensures Notifications([a, b, c]) == (if IsNotification(a) then [a] else []) + (if IsNotification(b) then [b] else [])
                                        + (if IsNotification(c) then [c] else [])
  {
    assert [a, b, c] == [a] + [b] + [c];
    NotificationsAppend([a] + [b], [c]);
    NotificationsAppend([a], [b]);
    NotificationsSingle(a);
    NotificationsSingle(b);
    NotificationsSingle(c);
  }

  /** When only the focused element carries the focused class, that stays so. */
  lemma FocusedClassFollowsFocus(s: State, dom: Dom, target: Target)
    requires s.focused == AsSet(s.current)
    ensures var r := SetCurrentSpec(s, dom, target); r.focused == AsSet(r.current)
  {
  }

  // ---------------------------------------------------------- registration

  /**
   * `_registerElement`: an element that is hidden is not registered at all;
   * otherwise its position and direction overrides are cached, a capture-focus
   * element takes the focus, and the element is appended.
   */
  function RegisterSpec(s: State, dom: Dom, e: Elem): (r: State)
    ensures dom.NodeOf(e).hidden ==> r == s
    ensures !dom.NodeOf(e).hidden ==>
              r.known == s.known + [e]
              && r.positions == s.positions[e := AnchorsOf(dom.NodeOf(e).rect)]
              && r.overrides == s.overrides[e := DirectionOverrides(dom.Attr(e, s.config.overrideDirectionAttribute))]
    ensures !dom.NodeOf(e).hidden && dom.Attr(e, s.config.captureFocusAttribute).Some? ==>
              r.current == Some(e)
              && r.log == SetCurrentSpec(s, dom, NodeRef(e)).log
              && r.focused == SetCurrentSpec(s, dom, NodeRef(e)).focused
    ensures dom.Attr(e, s.config.captureFocusAttribute).None? ==>
              r.current == s.current && r.log == s.log && r.focused == s.focused
    ensures r.config == s.config && r.canMove == s.canMove
  {
    var node := dom.NodeOf(e);
    if node.hidden then s
    else
      var s1 := s.(positions := s.positions[e := AnchorsOf(node.rect)],
                   overrides := s.overrides[e := DirectionOverrides(dom.Attr(e, s.config.overrideDirectionAttribute))]);
      var s2 := if dom.Attr(e, s.config.captureFocusAttribute).Some? then SetCurrentSpec(s1, dom, NodeRef(e)) else s1;
      s2.(known := s2.known + [e])
  }

  /** Registering a list of elements in order (the `forEach` over the scan). */
  function RegisterAll(s: State, dom: Dom, es: seq<Elem>): State
  {
    if es == [] then s else RegisterSpec(RegisterAll(s, dom, es[..|es| - 1]), dom, es[|es| - 1])
  }

  /**
   * Registering a list appends exactly its visible elements, in order, caches a
   * position for each, and leaves the configuration alone.
   */
  lemma {:induction false} RegisterAllSkipsHidden(s: State, dom: Dom, es: seq<Elem>)
    ensures RegisterAll(s, dom, es).known == s.known + Shown(dom, es)
    ensures forall k :: k in Shown(dom, es) ==> k in RegisterAll(s, dom, es).positions
    ensures RegisterAll(s, dom, es).config == s.config && RegisterAll(s, dom, es).canMove == s.canMove
    decreases |es|
  {
    if es != [] {
      RegisterAllSkipsHidden(s, dom, es[..|es| - 1]);
    }
  }

  /**
   * `refresh`: the container is looked up into a local variable, the known
   * elements are cleared and the scan is registered. The configuration is never
   * written. A selector that finds nothing clears the known elements and then
   * throws; a container that makes the lookup throw changes nothing.
   */
  function RefreshSpec(s: State, dom: Dom): (r: State)
    ensures LookupContainer(dom, s.config.container).Broken? ==> r == s
    ensures LookupContainer(dom, s.config.container).NotFound? ==> r == s.(known := [])
  {
    match LookupContainer(dom, s.config.container)
    case Broken => s
    case NotFound => s.(known := [])
    case Found(root) => RegisterAll(s.(known := []), dom, dom.Scan(root, s.config.focusableAttribute))
  }

  /**
   * A refresh never changes the configuration, and when it finds its container the
   * known elements are exactly the visible scanned ones, each with a cached position.
   */
  lemma RefreshKeepsConfig(s: State, dom: Dom)
    ensures RefreshSpec(s, dom).config == s.config
    ensures LookupContainer(dom, s.config.container).Found? ==>
              var scan := dom.Scan(LookupContainer(dom, s.config.container).root, s.config.focusableAttribute);
              RefreshSpec(s, dom).known == Shown(dom, scan)
              && forall k :: k in RefreshSpec(s, dom).known ==> k in RefreshSpec(s, dom).positions
  {
    match LookupContainer(dom, s.config.container)
    case Found(root) =>
      RegisterAllSkipsHidden(s.(known := []), dom, dom.Scan(root, s.config.focusableAttribute));
    case NotFound =>
    case Broken =>
  }

  /** `_unregisterElement`: every known entry equal to the element is removed; focus is not touched. */
  function UnregisterSpec(s: State, e: Elem): (r: State)
    ensures r.known == Without(s.known, e)
    ensures forall x :: x in r.known <==> x in s.known && x != e
    ensures r == s.(known := r.known)
  {
    s.(known := Without(s.known, e))
  }

  /** `_setDefaultFocus`: the configured default if truthy, else the first known element. */
  function SetDefaultFocusSpec(s: State, dom: Dom): (r: State)
    ensures Truthy(s.config.defaultFocusedElement) && Resolve(dom, s.config.defaultFocusedElement).Some? ==>
              r.current == Resolve(dom, s.config.defaultFocusedElement)
    ensures Truthy(s.config.defaultFocusedElement) && Resolve(dom, s.config.defaultFocusedElement).None? ==> r == s
    ensures !Truthy(s.config.defaultFocusedElement) && s.known != [] ==> r.current == Some(s.known[0])
    ensures !Truthy(s.config.defaultFocusedElement) && s.known == [] && Resolve(dom, Undefined).Some? ==>
              r.current == Resolve(dom, Undefined)
    ensures !Truthy(s.config.defaultFocusedElement) && s.known == [] && Resolve(dom, Undefined).None? ==> r == s
  {
    if Truthy(s.config.defaultFocusedElement) then SetCurrentSpec(s, dom, s.config.defaultFocusedElement)
    else SetCurrentSpec(s, dom, if s.known == [] then Undefined else NodeRef(s.known[0]))
  }

  // ---------------------------------------------------------------- moving

  /**
   * `_recalculateDynamicElementPositions` over a prefix of the known elements: only
   * elements carrying the dynamic-position attribute in the page are re-read.
   */
  function Recalc(s: State, dom: Dom, ks: seq<Elem>): map<Elem, Anchors>
  {
    if ks == [] then s.positions
    else
      var k := ks[|ks| - 1];
      var ps := Recalc(s, dom, ks[..|ks| - 1]);
      if IsDynamic(s, dom, k) then ps[k := AnchorsOf(dom.NodeOf(k).rect)] else ps
  }

  /** An element the recalculation re-reads: it carries the dynamic-position attribute in the page. */
  predicate IsDynamic(s: State, dom: Dom, k: Elem)
  {
    dom.Attr(k, s.config.dynamicPositionAttribute).Some?
  }

  /**
   * Recalculation re-reads the rectangle of exactly the known elements carrying
   * the attribute and leaves every other cached position as it was.
   */
  lemma {:induction false} RecalcRefreshesDynamic(s: State, dom: Dom, ks: seq<Elem>, k: Elem)
    ensures k in ks && IsDynamic(s, dom, k) ==>
              k in Recalc(s, dom, ks) && Recalc(s, dom, ks)[k] == AnchorsOf(dom.NodeOf(k).rect)
    ensures !(k in ks && IsDynamic(s, dom, k)) ==>
              (k in Recalc(s, dom, ks) <==> k in s.positions)
              && (k in s.positions ==> Recalc(s, dom, ks)[k] == s.positions[k])
    decreases |ks|
  {
    if ks != [] {
      var prefix := ks[..|ks| - 1];
      RecalcRefreshesDynamic(s, dom, prefix, k);
      assert ks == prefix + [ks[|ks| - 1]];
    }
  }

  /** `RecalcRefreshesDynamic` for every element at once, over the whole known list. */
  lemma RecalcRefreshesKnown(s: State, dom: Dom)
    ensures var ps := Recalc(s, dom, s.known);
            (forall k :: k in s.known && IsDynamic(s, dom, k) ==> k in ps && ps[k] == AnchorsOf(dom.NodeOf(k).rect))
            && (forall k :: k in s.positions && !(k in s.known && IsDynamic(s, dom, k)) ==> k in ps && ps[k] == s.positions[k])
            && (forall k :: k in ps ==> k in s.positions || k in s.known)
  {
    forall k {
      RecalcRefreshesDynamic(s, dom, s.known, k);
    }
  }

  /**
   * `_recalculateDynamicElementPositions`: only positions change; every known
   * element carrying the attribute gets its current rectangle, every other cached
   * position stays.
   */
  function RecalcSpec(s: State, dom: Dom): (r: State)
    ensures r == s.(positions := r.positions)
    ensures forall k :: k in s.known && IsDynamic(s, dom, k) ==>
              k in r.positions && r.positions[k] == AnchorsOf(dom.NodeOf(k).rect)
    ensures forall k :: k in s.positions && !(k in s.known && IsDynamic(s, dom, k)) ==>
              k in r.positions && r.positions[k] == s.positions[k]
    ensures forall k :: k in r.positions ==> k in s.positions || k in s.known
  {
    RecalcRefreshesKnown(s, dom);
    s.(positions := Recalc(s, dom, s.known))
  }

  /**
   * `_moveUp` and its siblings. Reading the position of a focused element that was
   * never registered throws once the filter looks at a known element, so with no
   * cached position for it nothing changes.
   */
  function MoveSpec(s: State, dom: Dom, sqrt: int -> real, d: Direction): (r: State)
    ensures r.known == s.known && r.positions == s.positions && r.overrides == s.overrides
    ensures r.config == s.config && r.canMove == s.canMove
    ensures s.current.None? ==> r == s
  {
    match s.current
    case None => s
    case Some(c) =>
      if c !in s.positions || !AllPositioned(s.known, s.positions) then s
      else
        match NearestCandidate(s.known, s.positions, sqrt, d, c, Some(c), true)
        case None => s
        case Some(e) => SetCurrentSpec(s, dom, NodeRef(e))
  }

  /**
   * With a strictly increasing, non-negative square root, a move focuses the
   * first close element whose squared gap is strictly smallest, and keeps the
   * focus when there is none.
   */
  lemma MoveFocusesNearest(s: State, dom: Dom, sqrt: int -> real, d: Direction)
    requires s.current.Some? && s.current.value in s.positions && AllPositioned(s.known, s.positions)
    requires StrictlyIncreasing(sqrt) && forall n: nat :: sqrt(n) >= 0.0
    ensures var nearest := SmallestGap(s.known, s.positions, d, s.current.value, s.current);
            MoveSpec(s, dom, sqrt, d).current == if nearest.Some? then nearest else s.current
  {
    var c := s.current.value;
    NearestIsSmallestGap(s.known, s.positions, sqrt, d, c, Some(c), true);
  }

  /** A move focuses only a known element, other than the focused one, in the move's half-plane. */
  lemma MoveTargetsReachable(s: State, dom: Dom, sqrt: int -> real, d: Direction)
    requires MoveSpec(s, dom, sqrt, d).current != s.current
    ensures var r := MoveSpec(s, dom, sqrt, d);
            s.current.Some? && r.current.Some? && r.current.value in s.known && r.current.value != s.current.value
            && Reaches(d, s.positions[s.current.value], s.positions[r.current.value])
  {
  }

  // ---------------------------------------------------------- key handling

  /**
   * `_eventManager`: locked, nothing happens. Otherwise dynamic positions are
   * recalculated first. With an element focused, the first keymap entry for the
   * code decides: a truthy override token for its direction is passed to
   * `setCurrent` without any geometry, otherwise the move (or the click for
   * 'enter') runs. Reading the overrides of a focused element that was never
   * registered throws. With nothing focused the default focus applies.
   */
  function HandleKeySpec(s: State, dom: Dom, sqrt: int -> real, code: int): (r: State)
    ensures !s.canMove ==> r == s
    ensures s.canMove ==> r.positions == RecalcSpec(s, dom).positions
    ensures r.known == s.known && r.config == s.config && r.canMove == s.canMove
  {
    if !s.canMove then s
    else
      var s1 := RecalcSpec(s, dom);
      match s1.current
      case None => SetDefaultFocusSpec(s1, dom)
      case Some(c) =>
        match FindBinding(s1.config.keymap, code)
        case None => s1
        case Some(k) =>
          if c !in s1.overrides then s1
          else
            var token := match k case Arrow(d) => OverrideFor(s1.overrides[c], d) case Enter => None;
            if token.Some? && token.value != "" then SetCurrentSpec(s1, dom, SelectorRef(token.value))
            else match k
              case Enter => s1.(log := s1.log + [Click(c)])
              case Arrow(d) => MoveSpec(s1, dom, sqrt, d)
  }

  /** A locked engine ignores every key. */
  lemma LockedIgnoresKeys(s: State, dom: Dom, sqrt: int -> real, code: int)
    requires !s.canMove
    ensures HandleKeySpec(s, dom, sqrt, code) == s
  {
  }

  /**
   * A truthy override token jumps to the element its selector finds; a token
   * that finds nothing leaves the focus as it was. No move is computed.
   */
  lemma OverrideJumps(s: State, dom: Dom, sqrt: int -> real, code: int, d: Direction, sel: string)
    requires s.canMove && s.current.Some? && s.current.value in s.overrides
    requires FindBinding(s.config.keymap, code) == Some(Arrow(d))
    requires OverrideFor(s.overrides[s.current.value], d) == Some(sel) && sel != ""
    ensures var r := HandleKeySpec(s, dom, sqrt, code);
            r.current == (if !dom.Rejects(sel) && dom.Query(sel).Some? then dom.Query(sel) else s.current)
            && r.positions == RecalcSpec(s, dom).positions
  {
  }

  /** A 'null' token (or none at all) falls through to the geometric move. */
  lemma NullTokenMoves(s: State, dom: Dom, sqrt: int -> real, code: int, d: Direction)
    requires s.canMove && s.current.Some? && s.current.value in s.overrides
    requires FindBinding(s.config.keymap, code) == Some(Arrow(d))
    requires OverrideFor(s.overrides[s.current.value], d).None?
    ensures HandleKeySpec(s, dom, sqrt, code) == MoveSpec(RecalcSpec(s, dom), dom, sqrt, d)
  {
  }

  /** With nothing focused, any key focuses the default element, else the first known element. */
  lemma UnfocusedFallsBack(s: State, dom: Dom, sqrt: int -> real, code: int)
    requires s.canMove && s.current.None?
    ensures var r := HandleKeySpec(s, dom, sqrt, code);
            r.current == (if Truthy(s.config.defaultFocusedElement) then Resolve(dom, s.config.defaultFocusedElement)
                          else if s.known == [] then Resolve(dom, Undefined) else Some(s.known[0]))
  {
  }

  // ------------------------------------------------------------------ engine

  /** The module-level `internal` object, with the transitions above as its methods. */
  class Engine {
    var config: Config
    var canMove: bool
    var current: Option<Elem>
    var known: seq<Elem>
    var positions: map<Elem, Anchors>
    var overrides: map<Elem, map<Direction, Option<string>>>
    var focused: set<Elem>
    var log: seq<Effect>

    function Model(): State
      reads this
    {
      State(config, canMove, current, known, positions, overrides, focused, log)
    }

    constructor (config0: Config)
      ensures Model() == Initial(config0)
    {
      config, canMove, current, known := config0, true, None, [];
      positions, overrides, focused, log := map[], map[], {}, [];
    }

    method SetCurrent(dom: Dom, target: Target)
      modifies this
      ensures Model() == SetCurrentSpec(old(Model()), dom, target)
    {
      var next := Resolve(dom, target);
      if next.Some? {
        var e := next.value;
        if current.Some? {
          var p := current.value;
          log := log + [LosingFocus(p)];
          focused := focused - {p};
          log := log + [Blur(p), FocusLost(p)];
        }
        log := log + [GainingFocus(e)];
        focused := focused + {e};
        log := log + [Focus(e), FocusGained(e)];
        current := Some(e);
      }
    }

    method Register(dom: Dom, e: Elem)
      modifies this
      ensures Model() == RegisterSpec(old(Model()), dom, e)
    {
      var node := dom.NodeOf(e);
      if node.hidden {
        return;
      }
      positions := positions[e := AnchorsOf(node.rect)];
      overrides := overrides[e := DirectionOverrides(dom.Attr(e, config.overrideDirectionAttribute))];
      if dom.Attr(e, config.captureFocusAttribute).Some? {
        SetCurrent(dom, NodeRef(e));
      }
      known := known + [e];
    }

    method Refresh(dom: Dom)
      modifies this
      ensures Model() == RefreshSpec(old(Model()), dom)
    {
      match LookupContainer(dom, config.container)
      case Broken =>
      case NotFound =>
        known := [];
      case Found(root) =>
        known := [];
        RegisterEach(dom, dom.Scan(root, config.focusableAttribute));
    }

    /** The `forEach` of `refresh` over the scanned elements. */
    method RegisterEach(dom: Dom, es: seq<Elem>)
      modifies this
      ensures Model() == RegisterAll(old(Model()), dom, es)
    {
      ghost var s0 := Model();
      var i := 0;
      while i < |es|
        invariant 0 <= i <= |es|
        invariant Model() == RegisterAll(s0, dom, es[..i])
      {
        assert es[..i + 1][..i] == es[..i];
        Register(dom, es[i]);
        i := i + 1;
      }
      assert es[..i] == es;
    }

    method Unregister(e: Elem)
      modifies this
      ensures Model() == UnregisterSpec(old(Model()), e)
    {
      known := Without(known, e);
    }

    method SetDefaultFocus(dom: Dom)
      modifies this
      ensures Model() == SetDefaultFocusSpec(old(Model()), dom)
    {
      if Truthy(config.defaultFocusedElement) {
        SetCurrent(dom, config.defaultFocusedElement);
      } else {
        SetCurrent(dom, if known == [] then Undefined else NodeRef(known[0]));
      }
    }

    method RecalculateDynamicPositions(dom: Dom)
      modifies this
      ensures Model() == RecalcSpec(old(Model()), dom)
    {
      ghost var s0 := Model();
      var i := 0;
      while i < |known|
        invariant 0 <= i <= |known|
        invariant Model() == s0.(positions := Recalc(s0, dom, known[..i]))
      {
        var k := known[i];
        assert known[..i + 1][..i] == known[..i];
        if dom.Attr(k, config.dynamicPositionAttribute).Some? {
          positions := positions[k := AnchorsOf(dom.NodeOf(k).rect)];
        }
        i := i + 1;
      }
      assert known[..i] == known;
    }

    method Move(dom: Dom, sqrt: int -> real, d: Direction)
      modifies this
      ensures Model() == MoveSpec(old(Model()), dom, sqrt, d)
    {
      if current.None? {
        return;
      }
      var c := current.value;
      if c !in positions || !AllPositioned(known, positions) {
        return;
      }
      var close := CloseElements(known, positions, d, positions[c], Some(c));
      var ds := Distances(sqrt, d, positions[c], close, positions);
      var k := ClosestWithEarlyExit(ds);
      if k.Some? {
        SetCurrent(dom, NodeRef(close[k.value]));
      }
    }

    method HandleKey(dom: Dom, sqrt: int -> real, code: int)
      modifies this
      ensures Model() == HandleKeySpec(old(Model()), dom, sqrt, code)
    {
      if !canMove {
        return;
      }
      RecalculateDynamicPositions(dom);
      if current.None? {
        SetDefaultFocus(dom);
        return;
      }
      var c := current.value;
      var mapped := FindBinding(config.keymap, code);
      if mapped.None? || c !in overrides {
        return;
      }
      var token := match mapped.value case Arrow(d) => OverrideFor(overrides[c], d) case Enter => None;
      if token.Some? && token.value != "" {
        SetCurrent(dom, SelectorRef(token.value));
      } else {
        match mapped.value
        case Enter =>
          log := log + [Click(c)];
        case Arrow(d) =>
          Move(dom, sqrt, d);
      }
    }
  }
}
