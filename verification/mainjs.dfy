/**
 * The first module version (source/main.js): configuration is deep-merged into
 * the existing one, registration writes each element's position into a
 * `position` attribute as JSON, moves parse it back and pick the nearest
 * reachable element, and an override is read straight from the focused
 * element's attribute on every key press.
 */
module LegacyFocusFinder {
  import opened Base
  import opened Tokens
  import opened Geometry
  import opened Nearest
  import opened PositionJson

  /** The configuration entries of `private.config`. */
  datatype Config = Config(
    keymap: seq<Binding>,
    focusableAttribute: string,
    defaultFocusedElement: Target,
    container: string,
    eventNamespace: string,
    focusedClass: string,
    overrideDirectionAttribute: string)

  const DefaultKeymap: seq<Binding> :=
    [Binding(38, Arrow(Up)), Binding(40, Arrow(Down)), Binding(37, Arrow(Left)), Binding(39, Arrow(Right)), Binding(13, Enter)]

  const DefaultConfig: Config := Config(
    DefaultKeymap, "focusable", NoTarget, "document", "magicFocusFinder", "focused", "focus-overrides")

  /** The options given to `configure`: an entry left out is `None`. */
  datatype Options = Options(
    keymap: Option<seq<Binding>>,
    focusableAttribute: Option<string>,
    defaultFocusedElement: Option<Target>,
    container: Option<string>,
    eventNamespace: Option<string>,
    focusedClass: Option<string>,
    overrideDirectionAttribute: Option<string>)

  const NoOptions: Options := Options(None, None, None, None, None, None, None)

  /**
   * `_.merge` of two keymap arrays: entry by entry, the given binding replaces the
   * one at the same index, and entries beyond the shorter array are kept.
   */
  function MergeKeymap(prev: seq<Binding>, given: seq<Binding>): (r: seq<Binding>)
    ensures |r| == if |prev| < |given| then |given| else |prev|
    ensures forall i :: 0 <= i < |given| ==> r[i] == given[i]
    ensures forall i :: |given| <= i < |prev| ==> r[i] == prev[i]
  {
    seq(if |prev| < |given| then |given| else |prev|, i requires 0 <= i < |prev| || 0 <= i < |given| =>
      if i < |given| then given[i] else prev[i])
  }

  function Pick<T>(given: Option<T>, prev: T): T
  {
    if given.Some? then given.value else prev
  }

  /** `configure(options)`: `_.merge` of the options into the current configuration. */
  function Merge(c: Config, o: Options): (r: Config)
    ensures o.container.Some? ==> r.container == o.container.value
    ensures o.container.None? ==> r.container == c.container
    ensures o.defaultFocusedElement.Some? ==> r.defaultFocusedElement == o.defaultFocusedElement.value
    ensures o.defaultFocusedElement.None? ==> r.defaultFocusedElement == c.defaultFocusedElement
    ensures o.keymap.Some? ==> r.keymap == MergeKeymap(c.keymap, o.keymap.value)
    ensures o.keymap.None? ==> r.keymap == c.keymap
    ensures o.focusableAttribute.Some? ==> r.focusableAttribute == o.focusableAttribute.value
    ensures o.focusableAttribute.None? ==> r.focusableAttribute == c.focusableAttribute
    ensures o.eventNamespace.Some? ==> r.eventNamespace == o.eventNamespace.value
    ensures o.eventNamespace.None? ==> r.eventNamespace == c.eventNamespace
    ensures o.focusedClass.Some? ==> r.focusedClass == o.focusedClass.value
    ensures o.focusedClass.None? ==> r.focusedClass == c.focusedClass
    ensures o.overrideDirectionAttribute.Some? ==> r.overrideDirectionAttribute == o.overrideDirectionAttribute.value
    ensures o.overrideDirectionAttribute.None? ==> r.overrideDirectionAttribute == c.overrideDirectionAttribute
  {
    Config(
      if o.keymap.Some? then MergeKeymap(c.keymap, o.keymap.value) else c.keymap,
      Pick(o.focusableAttribute, c.focusableAttribute),
      Pick(o.defaultFocusedElement, c.defaultFocusedElement),
      Pick(o.container, c.container),
      Pick(o.eventNamespace, c.eventNamespace),
      Pick(o.focusedClass, c.focusedClass),
      Pick(o.overrideDirectionAttribute, c.overrideDirectionAttribute))
  }

  /** Configuring with no options changes nothing. */
  lemma MergeNothing(c: Config)
    ensures Merge(c, NoOptions) == c
  {
  }

  /** Configuring twice with the same options is the same as configuring once. */
  lemma MergeIdempotent(c: Config, o: Options)
    ensures Merge(Merge(c, o), o) == Merge(c, o)
  {
    if o.keymap.Some? {
      var k1 := MergeKeymap(c.keymap, o.keymap.value);
      assert MergeKeymap(k1, o.keymap.value) == k1;
    }
  }

  /**
   * The engine's state. `positionAttr` holds the `position` attributes the engine
   * wrote; `listenerAdded` guards the single keyup listener.
   */
  datatype State = State(
    config: Config,
    canMove: bool,
    current: Option<Elem>,
    known: seq<Elem>,
    positionAttr: map<Elem, string>,
    focused: set<Elem>,
    listenerAdded: bool,
    log: seq<Effect>)

  function Initial(): State
  {
    State(DefaultConfig, true, None, [], map[], {}, false, [])
  }

  function ConfigureSpec(s: State, o: Options): (r: State)
    ensures r == s.(config := Merge(s.config, o))
  {
    s.(config := Merge(s.config, o))
  }

  /** How many keyup listeners the log shows were added. */
  function ListenerCount(log: seq<Effect>): nat
  {
    multiset(log)[KeyListenerAdded]
  }

  // ---------------------------------------------------------------- setCurrent

  /**
   * `setCurrent(querySelector)`: an unresolved target changes nothing; otherwise
   * the previous element loses the focused class and is blurred, the target gains
   * the class and the focus, and becomes the current element.
   */
  /** The host `blur` call on the element losing focus, if any. */
  function Blurred(prev: Option<Elem>): (r: seq<Effect>)
    ensures |r| == |AsSet(prev)| && forall x :: x in r ==> x.Blur? && x.el in AsSet(prev)
  {
    match prev
    case None => []
    case Some(p) => [Blur(p)]
  }

  function SetCurrentSpec(s: State, dom: Dom, target: Target): (r: State)
    ensures Resolve(dom, target).None? ==> r == s
    ensures Resolve(dom, target).Some? ==>
              var e := Resolve(dom, target).value;
              r == s.(current := Some(e), focused := s.focused - AsSet(s.current) + {e},
                      log := s.log + Blurred(s.current) + [Focus(e)])
    ensures ListenerCount(r.log) == ListenerCount(s.log)
  {
    match Resolve(dom, target)
    case None => s
    case Some(e) =>
      s.(current := Some(e),
         focused := s.focused - AsSet(s.current) + {e},
         log := s.log + Blurred(s.current) + [Focus(e)])
  }

  /** When only the focused element carries the focused class, that stays so. */
  lemma FocusedClassFollowsFocus(s: State, dom: Dom, target: Target)
    requires s.focused == AsSet(s.current)
    ensures var r := SetCurrentSpec(s, dom, target); r.focused == AsSet(r.current)
  {
  }

  // ---------------------------------------------------------- registration

  /** The `position` attribute of an element: the one the engine wrote, else the page's own. */
  function PositionText(s: State, dom: Dom, e: Elem): Option<string>
  {
    if e in s.positionAttr then Some(s.positionAttr[e]) else dom.Attr(e, "position")
  }

  /** `JSON.parse(element.getAttribute('position'))`, where it gives a position. */
  function StoredPosition(s: State, dom: Dom, e: Elem): Option<Anchors>
  {
    match PositionText(s, dom, e)
    case None => None
    case Some(t) => Decode(t)
  }

  /**
   * `_registerElement`: a hidden element is skipped; otherwise its position is
   * written as JSON into its `position` attribute and it is appended.
   */
  function RegisterSpec(s: State, dom: Dom, e: Elem): (r: State)
    ensures dom.NodeOf(e).hidden ==> r == s
    ensures !dom.NodeOf(e).hidden ==>
              r == s.(known := s.known + [e], positionAttr := s.positionAttr[e := Encode(AnchorsOf(dom.NodeOf(e).rect))])
  {
    var node := dom.NodeOf(e);
    if node.hidden then s
    else s.(positionAttr := s.positionAttr[e := Encode(AnchorsOf(node.rect))], known := s.known + [e])
  }

  /** A registered element's position reads back exactly as `_getPosition` computed it. */
  lemma RegisteredPositionReadsBack(s: State, dom: Dom, e: Elem)
    requires !dom.NodeOf(e).hidden
    ensures StoredPosition(RegisterSpec(s, dom, e), dom, e) == Some(AnchorsOf(dom.NodeOf(e).rect))
  {
    DecodeEncode(AnchorsOf(dom.NodeOf(e).rect));
  }

  function RegisterAll(s: State, dom: Dom, es: seq<Elem>): State
  {
    if es == [] then s else RegisterSpec(RegisterAll(s, dom, es[..|es| - 1]), dom, es[|es| - 1])
  }

  /** Registering one element more of a list registers it after the ones before it. */
  lemma RegisterAllSnoc(s: State, dom: Dom, es: seq<Elem>, i: nat)
    requires i < |es|
    ensures RegisterAll(s, dom, es[..i + 1]) == RegisterSpec(RegisterAll(s, dom, es[..i]), dom, es[i])
  {
    assert es[..i + 1][..i] == es[..i];
  }

  /**
   * Registering a list appends exactly its visible elements, and each of them then
   * has a position that reads back as its rectangle's.
   */
  lemma {:induction false} RegisterAllSkipsHidden(s: State, dom: Dom, es: seq<Elem>)
    ensures var r := RegisterAll(s, dom, es);
            r.known == s.known + Shown(dom, es)
            && (forall k :: k in Shown(dom, es) ==> StoredPosition(r, dom, k) == Some(AnchorsOf(dom.NodeOf(k).rect)))
            && r == s.(known := r.known, positionAttr := r.positionAttr)
    decreases |es|
  {
    if es != [] {
      var prefix, last := es[..|es| - 1], es[|es| - 1];
      RegisterAllSkipsHidden(s, dom, prefix);
      if !dom.NodeOf(last).hidden {
        RegisteredPositionReadsBack(RegisterAll(s, dom, prefix), dom, last);
      }
    }
  }

  /**
   * `refresh`: the container is looked up ('document' or `querySelector`), the
   * keyup listener is added unless it already was, the known elements are
   * cleared, and the scan is registered. A selector that finds nothing leaves no
   * known elements (the scan then throws); the empty selector throws at once.
   */
  function RefreshSpec(s: State, dom: Dom): (r: State)
    ensures LookupSelector(dom, s.config.container).Broken? ==> r == s
    ensures LookupSelector(dom, s.config.container).NotFound? ==> r.known == []
    ensures r.config == s.config
  {
    var withListener :=
      if s.listenerAdded then s else s.(listenerAdded := true, log := s.log + [KeyListenerAdded]);
    match LookupSelector(dom, s.config.container)
    case Broken => s
    case NotFound => withListener.(known := [])
    case Found(root) =>
      RegisterAllSkipsHidden(withListener.(known := []), dom, dom.Scan(root, s.config.focusableAttribute));
      RegisterAll(withListener.(known := []), dom, dom.Scan(root, s.config.focusableAttribute))
  }

  /**
   * A refresh that finds its container drops every element known before: the known
   * elements are then exactly the visible scanned ones.
   */
  lemma RefreshEmptiesFirst(s: State, dom: Dom)
    requires LookupSelector(dom, s.config.container).Found?
    ensures RefreshSpec(s, dom).known == Shown(dom, dom.Scan(LookupSelector(dom, s.config.container).root, s.config.focusableAttribute))
    ensures RefreshSpec(s, dom).listenerAdded
  {
    var w := if s.listenerAdded then s else s.(listenerAdded := true, log := s.log + [KeyListenerAdded]);
    RegisterAllSkipsHidden(w.(known := []), dom, dom.Scan(LookupSelector(dom, s.config.container).root, s.config.focusableAttribute));
  }

  // ---------------------------------------------------------------- moving

  /** The positions that parse, for the given elements. */
  function Decoded(s: State, dom: Dom, ks: seq<Elem>): (m: map<Elem, Anchors>)
    ensures forall k :: k in m <==> k in ks && StoredPosition(s, dom, k).Some?
    ensures forall k :: k in m ==> Some(m[k]) == StoredPosition(s, dom, k)
  {
    map k | k in ks && StoredPosition(s, dom, k).Some? :: StoredPosition(s, dom, k).value
  }

  /**
   * `_moveUp` and its siblings: the positions are parsed from the attributes, the
   * close elements are filtered, and the nearest (first strictly smallest
   * distance, stopping early at zero) gets the focus. A focused element or a known
   * element without a parsable position makes the filter throw.
   */
  function MoveSpec(s: State, dom: Dom, sqrt: int -> real, d: Direction): (r: State)
    ensures ListenerCount(r.log) == ListenerCount(s.log)
  {
    match s.current
    case None => s
    case Some(c) => MoveFrom(s, dom, sqrt, d, c, Decoded(s, dom, s.known + [c]))
  }

  /** The move from `c` once the positions `ps` are parsed. */
  function MoveFrom(s: State, dom: Dom, sqrt: int -> real, d: Direction, c: Elem, ps: map<Elem, Anchors>): (r: State)
    ensures ListenerCount(r.log) == ListenerCount(s.log)
    ensures r.known == s.known && r.config == s.config && r.canMove == s.canMove
    ensures r != s ==> r.current.Some? && r.current.value in s.known && r.current != Some(c)
                       && c in ps && r.current.value in ps && Reaches(d, ps[c], ps[r.current.value])
  {
    if c !in ps || !AllPositioned(s.known, ps) then s
    else
      match NearestCandidate(s.known, ps, sqrt, d, c, Some(c), true)
      case None => s
      case Some(e) => SetCurrentSpec(s, dom, NodeRef(e))
  }

  /** The positions of the given elements' rectangles, as `_getPosition` computes them. */
  function RectPositions(dom: Dom, ks: seq<Elem>): (m: map<Elem, Anchors>)
    ensures forall k :: k in m <==> k in ks
  {
    map k | k in ks :: AnchorsOf(dom.NodeOf(k).rect)
  }

  /** The positions parsed for registered elements are their rectangles' positions. */
  lemma DecodedRegistered(s: State, dom: Dom, ks: seq<Elem>, c: Elem)
    requires c in ks
    requires forall k :: k in ks ==> StoredPosition(s, dom, k) == Some(AnchorsOf(dom.NodeOf(k).rect))
    ensures Decoded(s, dom, ks + [c]) == RectPositions(dom, ks)
  {
    assert forall k :: k in ks + [c] <==> k in ks;
  }

  /** With every known element registered, the move works on the rectangles' positions. */
  lemma MoveReadsRegisteredPositions(s: State, dom: Dom, sqrt: int -> real, d: Direction)
    requires s.current.Some? && s.current.value in s.known
    requires forall k :: k in s.known ==> StoredPosition(s, dom, k) == Some(AnchorsOf(dom.NodeOf(k).rect))
    ensures MoveSpec(s, dom, sqrt, d) == MoveFrom(s, dom, sqrt, d, s.current.value, RectPositions(dom, s.known))
  {
    DecodedRegistered(s, dom, s.known, s.current.value);
  }

  /** From `c`, with every known element positioned, the move picks the smallest squared gap. */
  lemma MoveFromNearest(s: State, dom: Dom, sqrt: int -> real, d: Direction, c: Elem, ps: map<Elem, Anchors>)
    requires c in ps && AllPositioned(s.known, ps)
    requires StrictlyIncreasing(sqrt) && forall n: nat :: sqrt(n) >= 0.0
    ensures var nearest := SmallestGap(s.known, ps, d, c, Some(c));
            MoveFrom(s, dom, sqrt, d, c, ps).current == if nearest.Some? then nearest else s.current
  {
    NearestIsSmallestGap(s.known, ps, sqrt, d, c, Some(c), true);
  }

  /**
   * After a refresh, a move from a registered element focuses the first close
   * element whose squared gap is strictly smallest, with gaps measured between the
   * rectangles' own positions.
   */
  lemma MoveUsesRegisteredPositions(s: State, dom: Dom, sqrt: int -> real, d: Direction)
    requires s.current.Some? && s.current.value in s.known
    requires forall k :: k in s.known ==> StoredPosition(s, dom, k) == Some(AnchorsOf(dom.NodeOf(k).rect))
    requires StrictlyIncreasing(sqrt) && forall n: nat :: sqrt(n) >= 0.0
    ensures var nearest := SmallestGap(s.known, RectPositions(dom, s.known), d, s.current.value, s.current);
            MoveSpec(s, dom, sqrt, d).current == if nearest.Some? then nearest else s.current
  {
    MoveReadsRegisteredPositions(s, dom, sqrt, d);
    MoveFromNearest(s, dom, sqrt, d, s.current.value, RectPositions(dom, s.known));
  }

  /** A move focuses only a known element, other than the focused one, in the move's half-plane. */
  lemma MoveTargetsReachable(s: State, dom: Dom, sqrt: int -> real, d: Direction)
    requires MoveSpec(s, dom, sqrt, d).current != s.current
    ensures var r := MoveSpec(s, dom, sqrt, d);
            var c := s.current.value;
            var ps := Decoded(s, dom, s.known + [c]);
            s.current.Some? && r.current.Some? && r.current.value in s.known && r.current.value != c
            && c in ps && r.current.value in ps && Reaches(d, ps[c], ps[r.current.value])
  {
  }

  // ---------------------------------------------------------- key handling

  /** The token of a key, as a `setCurrent` argument: a missing token is `undefined`. */
  function OverrideTarget(attr: Option<string>, k: Key): Target
  {
    match LegacyOverride(attr, k)
    case None => Undefined
    case Some(t) => SelectorRef(t)
  }

  /**
   * `_eventManager`: locked, nothing happens. With an element focused, the first
   * keymap entry for the code decides: if the focused element's override
   * attribute has an override for it, the token goes to `setCurrent`; otherwise
   * the move runs, or a click for 'enter'. With nothing focused, the default
   * element, else the first known element, gets the focus.
   */
  function HandleKeySpec(s: State, dom: Dom, sqrt: int -> real, code: int): (r: State)
    ensures ListenerCount(r.log) == ListenerCount(s.log)
    ensures r.listenerAdded == s.listenerAdded
    ensures !s.canMove ==> r == s
    ensures s.canMove && s.current.None? ==>
              r.current == (if Truthy(s.config.defaultFocusedElement) then Resolve(dom, s.config.defaultFocusedElement)
                            else if s.known == [] then Resolve(dom, Undefined) else Some(s.known[0]))
  {
    if !s.canMove then s
    else match s.current
      case None =>
        if Truthy(s.config.defaultFocusedElement) then SetCurrentSpec(s, dom, s.config.defaultFocusedElement)
        else SetCurrentSpec(s, dom, if s.known == [] then Undefined else NodeRef(s.known[0]))
      case Some(c) =>
        match FindBinding(s.config.keymap, code)
        case None => s
        case Some(k) =>
          var attr := dom.Attr(c, s.config.overrideDirectionAttribute);
          if LegacyHasOverride(attr, k) then SetCurrentSpec(s, dom, OverrideTarget(attr, k))
          else match k
            case Enter => s.(log := s.log + [Click(c)])
            case Arrow(d) => MoveSpec(s, dom, sqrt, d)
  }

  /** A locked engine ignores every key. */
  lemma LockedIgnoresKeys(s: State, dom: Dom, sqrt: int -> real, code: int)
    requires !s.canMove
    ensures HandleKeySpec(s, dom, sqrt, code) == s
  {
  }

  /**
   * With the override attribute present, 'enter' counts as overridden (its index
   * is -1, so the token is missing): on a page without `undefined` elements the
   * key neither clicks nor moves the focus.
   */
  lemma EnterSwallowedByOverrideAttribute(s: State, dom: Dom, sqrt: int -> real, code: int)
    requires s.canMove && s.current.Some? && FindBinding(s.config.keymap, code) == Some(Enter)
    requires dom.Attr(s.current.value, s.config.overrideDirectionAttribute).Some?
    requires dom.Query("undefined").None?
    ensures HandleKeySpec(s, dom, sqrt, code) == s
  {
  }

  /**
   * An attribute with too few tokens counts as an override for the directions it
   * has no token for, so that key leaves the focus where it is instead of moving
   * (on a page without `undefined` elements).
   */
  lemma MissingTokenBlocksMove(s: State, dom: Dom, sqrt: int -> real, code: int, d: Direction, v: string)
    requires s.canMove && s.current.Some? && FindBinding(s.config.keymap, code) == Some(Arrow(d))
    requires dom.Attr(s.current.value, s.config.overrideDirectionAttribute) == Some(v)
    requires |Split(v)| <= OverrideIndex(d)
    requires dom.Query("undefined").None?
    ensures HandleKeySpec(s, dom, sqrt, code) == s
  {
  }

  /** A present token other than 'null' jumps to what its selector finds, without moving. */
  lemma OverrideJumps(s: State, dom: Dom, sqrt: int -> real, code: int, d: Direction, v: string)
    requires s.canMove && s.current.Some? && FindBinding(s.config.keymap, code) == Some(Arrow(d))
    requires dom.Attr(s.current.value, s.config.overrideDirectionAttribute) == Some(v)
    requires OverrideIndex(d) < |Split(v)| && Split(v)[OverrideIndex(d)] != "null"
    ensures var tok := Split(v)[OverrideIndex(d)];
            HandleKeySpec(s, dom, sqrt, code).current
              == if !dom.Rejects(tok) && dom.Query(tok).Some? then dom.Query(tok) else s.current
  {
  }

  /** Without the attribute, or with 'null' for the direction, the geometric move runs. */
  lemma NoOverrideMoves(s: State, dom: Dom, sqrt: int -> real, code: int, d: Direction)
    requires s.canMove && s.current.Some? && FindBinding(s.config.keymap, code) == Some(Arrow(d))
    requires !LegacyHasOverride(dom.Attr(s.current.value, s.config.overrideDirectionAttribute), Arrow(d))
    ensures HandleKeySpec(s, dom, sqrt, code) == MoveSpec(s, dom, sqrt, d)
  {
  }

  /**
   * With nothing focused, any key focuses the default element if it is truthy,
   * else the first known element, else whatever the selector 'undefined' finds.
   */
  lemma UnfocusedFallsBack(s: State, dom: Dom, sqrt: int -> real, code: int)
    requires s.canMove && s.current.None?
    ensures var r := HandleKeySpec(s, dom, sqrt, code);
            r.current == (if Truthy(s.config.defaultFocusedElement) then Resolve(dom, s.config.defaultFocusedElement)
                          else if s.known == [] then Resolve(dom, Undefined) else Some(s.known[0]))
  {
  }

  // ------------------------------------------------------ the listener guard

  /** The operations of the module, as a caller sequences them. */
  datatype Call = ConfigureCall(options: Options) | SetCurrentCall(target: Target) | RefreshCall | KeyUp(code: int)

  function Apply(s: State, dom: Dom, sqrt: int -> real, call: Call): State
  {
    match call
    case ConfigureCall(o) => ConfigureSpec(s, o)
    case SetCurrentCall(t) => SetCurrentSpec(s, dom, t)
    case RefreshCall => RefreshSpec(s, dom)
    case KeyUp(code) => HandleKeySpec(s, dom, sqrt, code)
  }

  function Run(s: State, dom: Dom, sqrt: int -> real, calls: seq<Call>): State
  {
    if calls == [] then s else Apply(Run(s, dom, sqrt, calls[..|calls| - 1]), dom, sqrt, calls[|calls| - 1])
  }

  /** The listener flag is set exactly when the log shows one listener added. */
  predicate ListenerGuarded(s: State)
  {
    ListenerCount(s.log) == if s.listenerAdded then 1 else 0
  }

  lemma {:induction false} RegisterAllKeepsLog(s: State, dom: Dom, es: seq<Elem>)
    ensures RegisterAll(s, dom, es).log == s.log && RegisterAll(s, dom, es).listenerAdded == s.listenerAdded
    decreases |es|
  {
    if es != [] {
      RegisterAllKeepsLog(s, dom, es[..|es| - 1]);
    }
  }

  lemma ApplyKeepsGuard(s: State, dom: Dom, sqrt: int -> real, call: Call)
    requires ListenerGuarded(s)
    ensures ListenerGuarded(Apply(s, dom, sqrt, call))
  {
    match call
    case RefreshCall =>
      var w := if s.listenerAdded then s else s.(listenerAdded := true, log := s.log + [KeyListenerAdded]);
      assert ListenerGuarded(w);
      if LookupSelector(dom, s.config.container).Found? {
        var root := LookupSelector(dom, s.config.container).root;
        RegisterAllKeepsLog(w.(known := []), dom, dom.Scan(root, s.config.focusableAttribute));
      }
    case ConfigureCall(_) =>
    case SetCurrentCall(_) =>
    case KeyUp(_) =>
  }

  /**
   * However the module is configured, refreshed, focused and driven by keys, at
   * most one keyup listener is ever added.
   */
  lemma {:induction false} ListenerAddedAtMostOnce(dom: Dom, sqrt: int -> real, calls: seq<Call>)
    ensures ListenerGuarded(Run(Initial(), dom, sqrt, calls))
    ensures ListenerCount(Run(Initial(), dom, sqrt, calls).log) <= 1
    decreases |calls|
  {
    if calls != [] {
      ListenerAddedAtMostOnce(dom, sqrt, calls[..|calls| - 1]);
      ApplyKeepsGuard(Run(Initial(), dom, sqrt, calls[..|calls| - 1]), dom, sqrt, calls[|calls| - 1]);
    }
  }

  // ------------------------------------------------------------------ engine

  /** The module object's `private` state, with the transitions above as its methods. */
  class Engine {
    var config: Config
    var canMove: bool
    var current: Option<Elem>
    var known: seq<Elem>
    var positionAttr: map<Elem, string>
    var focused: set<Elem>
    var listenerAdded: bool
    var log: seq<Effect>

    function Model(): State
      reads this
    {
      State(config, canMove, current, known, positionAttr, focused, listenerAdded, log)
    }

    constructor ()
      ensures Model() == Initial()
    {
      config, canMove, current, known := DefaultConfig, true, None, [];
      positionAttr, focused, listenerAdded, log := map[], {}, false, [];
    }

    method Configure(o: Options)
      modifies this
      ensures Model() == ConfigureSpec(old(Model()), o)
    {
      config := Merge(config, o);
    }

    method SetCurrent(dom: Dom, target: Target)
      modifies this
      ensures Model() == SetCurrentSpec(old(Model()), dom, target)
    {
      var next := Resolve(dom, target);
      if next.Some? {
        var e := next.value;
        focused := focused - AsSet(current) + {e};
        log := log + Blurred(current) + [Focus(e)];
        current := Some(e);
      }
    }

    method Register(dom: Dom, e: Elem)
      modifies this
      ensures Model() == RegisterSpec(old(Model()), dom, e)
    {
      var node := dom.NodeOf(e);
      if node.hidden {
        return;
      }
      positionAttr := positionAttr[e := Encode(AnchorsOf(node.rect))];
      known := known + [e];
    }

    method Refresh(dom: Dom)
      modifies this
      ensures Model() == RefreshSpec(old(Model()), dom)
    {
      var lookup := LookupSelector(dom, config.container);
      if lookup.Broken? {
        return;
      }
      if !listenerAdded {
        log := log + [KeyListenerAdded];
        listenerAdded := true;
      }
      known := [];
      if lookup.Found? {
        RegisterEach(dom, dom.Scan(lookup.root, config.focusableAttribute));
      }
    }

    /** The `forEach` of `refresh` over the scanned elements. */
    method RegisterEach(dom: Dom, es: seq<Elem>)
      modifies this
      ensures Model() == RegisterAll(old(Model()), dom, es)
    {
      ghost var s0 := Model();
      var i := 0;
      while i < |es|
        invariant 0 <= i <= |es|
        invariant Model() == RegisterAll(s0, dom, es[..i])
      {
        RegisterAllSnoc(s0, dom, es, i);
        Register(dom, es[i]);
        i := i + 1;
      }
      assert es[..i] == es;
    }

    method Move(dom: Dom, sqrt: int -> real, d: Direction)
      modifies this
      ensures Model() == MoveSpec(old(Model()), dom, sqrt, d)
    {
      if current.None? {
        return;
      }
      var c := current.value;
      MoveWithin(dom, sqrt, d, c, Decoded(Model(), dom, known + [c]));
    }

    method MoveWithin(dom: Dom, sqrt: int -> real, d: Direction, c: Elem, ps: map<Elem, Anchors>)
      modifies this
      ensures Model() == MoveFrom(old(Model()), dom, sqrt, d, c, ps)
    {
      if c !in ps || !AllPositioned(known, ps) {
        return;
      }
      var close := CloseElements(known, ps, d, ps[c], Some(c));
      var k := ClosestWithEarlyExit(Distances(sqrt, d, ps[c], close, ps));
      if k.Some? {
        SetCurrent(dom, NodeRef(close[k.value]));
      }
    }

    method HandleKey(dom: Dom, sqrt: int -> real, code: int)
      modifies this
      ensures Model() == HandleKeySpec(old(Model()), dom, sqrt, code)
    {
      if !canMove {
        return;
      }
      if current.None? {
        if Truthy(config.defaultFocusedElement) {
          SetCurrent(dom, config.defaultFocusedElement);
        } else {
          SetCurrent(dom, if known == [] then Undefined else NodeRef(known[0]));
        }
        return;
      }
      var c := current.value;
      var mapped := FindBinding(config.keymap, code);
      if mapped.None? {
        return;
      }
      var attr := dom.Attr(c, config.overrideDirectionAttribute);
      if LegacyHasOverride(attr, mapped.value) {
        SetCurrent(dom, OverrideTarget(attr, mapped.value));
      } else {
        match mapped.value
        case Enter =>
          log := log + [Click(c)];
        case Arrow(d) =>
          Move(dom, sqrt, d);
      }
    }
  }
}
