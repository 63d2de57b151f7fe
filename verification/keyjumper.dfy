/**
 * jquery.keyJumper, the plugin the focus finder grew out of (source/inspiration.js):
 * positions are stored per element when it is registered, the arrow keys pick the
 * nearest element in the key's half-plane (no early exit), a `data-keynav-helper`
 * attribute can name the target of a direction, and the active element carries the
 * "on" class while the one it replaced carries the "off" class.
 */
module KeyJumper {
  import opened Base
  import opened Tokens
  import opened Geometry
  import opened Nearest

  /**
   * The plugin's closure state. `active` holds the elements of `$currentElement`:
   * one element after a direct activation, every match of the helper selector after
   * a helper jump, none before the first activation. `wrapped` records that the
   * active element was set from a jQuery object (a helper jump), which defeats the
   * identity test that keeps the active element out of its own close elements.
   * `on` and `off` are the elements carrying the configured on and off classes;
   * `listening` is the keyup handler on the document.
   */
  datatype State = State(
    known: seq<Elem>,
    active: seq<Elem>,
    wrapped: bool,
    canMove: bool,
    listening: bool,
    positions: map<Elem, Anchors>,
    on: set<Elem>,
    off: set<Elem>,
    log: seq<Effect>)
  {
    /** The element whose position and helper are read: jQuery's `.data` reads the first of the set. */
    function Current(): Option<Elem>
    {
      if active == [] then None else Some(active[0])
    }
  }

  /** The closure's values when the script loads. */
  function Initial(): State
  {
    State([], [], false, true, false, map[], {}, {}, [])
  }

  /** Every known element has a stored position. */
  predicate Positioned(s: State)
  {
    AllPositioned(s.known, s.positions)
  }

  /** `$(document).on('keyup.keyJumper', eventsManager)` when the plugin is initialised. */
  function AttachSpec(s: State): (r: State)
    ensures r.listening
    ensures r == s.(listening := true)
  {
    s.(listening := true)
  }

  // ---------------------------------------------------------- registration

  /** The position `getPosition` computes from the element's offset and outer size. */
  function PositionOf(dom: Dom, e: Elem): Anchors
  {
    var r := dom.NodeOf(e).rect;
    KeyJumperAnchors(r.left, r.top, r.width, r.height)
  }

  /**
   * `registerElement`: a hidden element is skipped; otherwise its position is stored
   * and it is appended to the known elements.
   */
  function RegisterSpec(s: State, dom: Dom, e: Elem): (r: State)
    ensures dom.NodeOf(e).hidden ==> r == s
    ensures !dom.NodeOf(e).hidden ==>
              r == s.(known := s.known + [e], positions := s.positions[e := PositionOf(dom, e)])
  {
    if dom.NodeOf(e).hidden then s
    else s.(positions := s.positions[e := PositionOf(dom, e)], known := s.known + [e])
  }

  /** Registering keeps every known element positioned. */
  lemma RegisterKeepsPositioned(s: State, dom: Dom, e: Elem)
    requires Positioned(s)
    ensures Positioned(RegisterSpec(s, dom, e))
  {
  }

  function RegisterAll(s: State, dom: Dom, es: seq<Elem>): State
  {
    if es == [] then s else RegisterSpec(RegisterAll(s, dom, es[..|es| - 1]), dom, es[|es| - 1])
  }

  /**
   * `this.each(registerElement)`: the visible elements are appended in order, each
   * with the position of its box, and nothing else changes.
   */
  lemma {:induction false} RegisterAllSkipsHidden(s: State, dom: Dom, es: seq<Elem>)
    ensures var r := RegisterAll(s, dom, es);
            r.known == s.known + Shown(dom, es)
            && (forall k :: k in Shown(dom, es) ==> k in r.positions && r.positions[k] == PositionOf(dom, k))
            && r == s.(known := r.known, positions := r.positions)
    decreases |es|
  {
    if es != [] {
      RegisterAllSkipsHidden(s, dom, es[..|es| - 1]);
    }
  }

  // ---------------------------------------------------------------- setActive

  /** The elements of a jQuery set, as a set. */
  function Elems(es: seq<Elem>): (r: set<Elem>)
    ensures forall x :: x in r <==> x in es
  {
    set x | x in es
  }

  /** `trigger('blur')` on a jQuery set: one blur per element, in the set's order. */
  function Blurs(es: seq<Elem>): seq<Effect>
  {
    seq(|es|, i requires 0 <= i < |es| => Blur(es[i]))
  }

  /** `trigger('focus')` on a jQuery set. */
  function Focuses(es: seq<Elem>): seq<Effect>
  {
    seq(|es|, i requires 0 <= i < |es| => Focus(es[i]))
  }

  /** `trigger('changeSelected')` on a jQuery set. */
  function Selections(es: seq<Elem>): seq<Effect>
  {
    seq(|es|, i requires 0 <= i < |es| => ChangeSelected(es[i]))
  }

  /** `trigger('keynav.enter')` on a jQuery set. */
  function Enters(es: seq<Elem>): seq<Effect>
  {
    seq(|es|, i requires 0 <= i < |es| => EnterPressed(es[i]))
  }

  /**
   * `setActive(element, silently)` with an element or a non-empty jQuery object:
   * its elements become active; every old active element loses the on class and
   * gains the off class, then every new one loses the off class and gains the on
   * class. Unless silent, every old one is blurred and every new one gets 'focus',
   * then every new one gets 'changeSelected'.
   */
  function SetActiveSpec(s: State, es: seq<Elem>, silently: bool, wrapped: bool): (r: State)
    requires es != []
    ensures r.active == es && r.Current() == Some(es[0]) && r.wrapped == wrapped
    ensures forall x :: x in es ==> x in r.on && x !in r.off
    ensures forall x :: x in s.active && x !in es ==> x !in r.on && x in r.off
    ensures forall x :: x !in es && x !in s.active ==> (x in r.on <==> x in s.on) && (x in r.off <==> x in s.off)
    ensures silently ==> r.log == s.log
    ensures !silently ==> r.log == s.log + Blurs(s.active) + Focuses(es) + Selections(es)
    ensures r == s.(active := es, wrapped := wrapped, on := r.on, off := r.off, log := r.log)
  {
    s.(active := es,
       wrapped := wrapped,
       on := (s.on - Elems(s.active)) + Elems(es),
       off := (s.off + Elems(s.active)) - Elems(es),
       log := if silently then s.log else s.log + Blurs(s.active) + Focuses(es) + Selections(es))
  }

  /**
   * Activating one element after at most one: the old element, if any and different,
   * swaps to the off class, and the log gains its blur, then focus and
   * change-selected on the new element.
   */
  lemma SetActiveSingle(s: State, e: Elem)
    requires |s.active| <= 1
    ensures var r := SetActiveSpec(s, [e], false, false);
            r.Current() == Some(e) && e in r.on && e !in r.off
            && (s.Current().Some? && s.Current() != Some(e) ==> s.Current().value !in r.on && s.Current().value in r.off)
            && r.log == s.log + (match s.Current() case None => [] case Some(p) => [Blur(p)]) + [Focus(e), ChangeSelected(e)]
  {
    var r := SetActiveSpec(s, [e], false, false);
    if s.active == [] {
      assert Blurs(s.active) == [];
    } else {
      assert s.active == [s.active[0]];
      assert Blurs(s.active) == [Blur(s.active[0])];
    }
    assert Focuses([e]) + Selections([e]) == [Focus(e), ChangeSelected(e)];
  }

  /** No element carries both classes, and every active element carries the on class. */
  predicate ClassesConsistent(s: State)
  {
    s.on * s.off == {} && forall x :: x in s.active ==> x in s.on
  }

  /** Activating elements keeps the classes consistent, from any consistent state. */
  lemma SetActiveKeepsClasses(s: State, es: seq<Elem>, silently: bool, wrapped: bool)
    requires es != [] && s.on * s.off == {}
    ensures ClassesConsistent(SetActiveSpec(s, es, silently, wrapped))
  {
    var r := SetActiveSpec(s, es, silently, wrapped);
    forall x | x in r.on
      ensures x !in r.off
    {
      if x !in es {
        assert x !in s.active && x in s.on;
        assert x !in s.on * s.off;
      }
    }
  }

  // ---------------------------------------------------------------- moving

  /** Who is kept out of the close elements: the active element, unless it was set wrapped. */
  function Excluded(s: State): Option<Elem>
  {
    if s.wrapped then None else s.Current()
  }

  /**
   * A move: `findCloseElements` with the direction's filter, then `activateClosest`
   * with its distance, keeping the first strictly smallest over every close element.
   * Without an active element, or with a position missing, a property read throws
   * before anything changes.
   */
  function MoveSpec(s: State, sqrt: int -> real, d: Direction): (r: State)
    ensures r.known == s.known && r.positions == s.positions
    ensures r.canMove == s.canMove && r.listening == s.listening
    ensures s.Current().None? ==> r == s
  {
    match s.Current()
    case None => s
    case Some(c) =>
      if c !in s.positions || !Positioned(s) then s
      else
        match NearestCandidate(s.known, s.positions, sqrt, d, c, Excluded(s), false)
        case None => s
        case Some(e) => SetActiveSpec(s, [e], false, false)
  }

  /**
   * With a strictly increasing, non-negative square root, a move activates the
   * first close element whose squared gap is strictly smallest, and keeps the
   * active element when there is none.
   */
  lemma MoveActivatesNearest(s: State, sqrt: int -> real, d: Direction)
    requires s.Current().Some? && s.Current().value in s.positions && Positioned(s)
    requires StrictlyIncreasing(sqrt) && forall n: nat :: sqrt(n) >= 0.0
    ensures var nearest := SmallestGap(s.known, s.positions, d, s.Current().value, Excluded(s));
            MoveSpec(s, sqrt, d).Current() == if nearest.Some? then nearest else s.Current()
  {
    NearestIsSmallestGap(s.known, s.positions, sqrt, d, s.Current().value, Excluded(s), false);
  }

  /**
   * A move activates only a known element in the key's half-plane, alone and set
   * directly (not wrapped); it differs from the active element unless that was set
   * wrapped.
   */
  lemma MoveTargetsReachable(s: State, sqrt: int -> real, d: Direction)
    requires MoveSpec(s, sqrt, d) != s
    ensures var r := MoveSpec(s, sqrt, d);
            s.Current().Some? && r.Current().Some? && r.active == [r.Current().value]
            && r.Current().value in s.known && !r.wrapped
            && Reaches(d, s.positions[s.Current().value], s.positions[r.Current().value])
            && (!s.wrapped ==> r.Current() != s.Current())
  {
  }

  /**
   * After a helper jump the active element is compared with a jQuery object, so it
   * is no longer kept out: a known element that lies in its own half-plane (a
   * degenerate box) is always a candidate, so the move always activates something.
   */
  lemma WrappedActiveIsCandidate(s: State, sqrt: int -> real, d: Direction)
    requires s.wrapped && s.Current().Some? && s.Current().value in s.known && Positioned(s)
    requires Reaches(d, s.positions[s.Current().value], s.positions[s.Current().value])
    ensures MoveSpec(s, sqrt, d).Current().Some? && !MoveSpec(s, sqrt, d).wrapped
    ensures MoveSpec(s, sqrt, d).log != s.log
  {
  }

  // ---------------------------------------------------------- key handling

  /** The arrow key codes of `eventsManager`. */
  function KeyDirection(code: int): (r: Option<Direction>)
    ensures r.Some? <==> 37 <= code <= 40
    ensures r == Some(Left) <==> code == 37
    ensures r == Some(Up) <==> code == 38
    ensures r == Some(Right) <==> code == 39
    ensures r == Some(Down) <==> code == 40
  {
    if code == 37 then Some(Left)
    else if code == 38 then Some(Up)
    else if code == 39 then Some(Right)
    else if code == 40 then Some(Down)
    else None
  }

  /** The helper token of a direction on the active element, if there is one. */
  function HelperToken(s: State, dom: Dom, d: Direction): Option<string>
  {
    match s.Current()
    case None => None
    case Some(c) => Helper(dom.Attr(c, "data-keynav-helper"), d)
  }

  /**
   * A truthy helper token that is not a valid selector: `$(helper)` throws a syntax
   * error, so the key handler stops before anything changes. jQuery is taken to
   * reject the same malformed selectors as the document.
   */
  predicate HelperThrows(s: State, dom: Dom, d: Direction)
  {
    var token := HelperToken(s, dom, d);
    token.Some? && token.value != "" && token.value in dom.rejected
  }

  /**
   * The elements `$(helper)` holds for a direction: every match of the token, when
   * the token is set, non-empty and well-formed; none otherwise.
   */
  function HelperTarget(s: State, dom: Dom, d: Direction): (r: seq<Elem>)
    ensures s.Current().None? ==> r == []
    ensures HelperThrows(s, dom, d) ==> r == []
    ensures s.Current().Some? ==>
              var token := Helper(dom.Attr(s.Current().value, "data-keynav-helper"), d);
              (r != [] <==> token.Some? && token.value != "" && token.value !in dom.rejected && dom.QueryAll(token.value) != [])
              && (r != [] ==> r == dom.QueryAll(token.value))
  {
    var token := HelperToken(s, dom, d);
    if token.Some? && token.value != "" && token.value !in dom.rejected then dom.QueryAll(token.value) else []
  }

  /**
   * `eventsManager`: only while listening and unlocked. 'enter' triggers
   * 'keynav.enter' on every active element (on none before the first activation).
   * An arrow jumps to its helper's matches when there are any (the jQuery object
   * becomes the active set, wrapped), stops when the helper is a malformed
   * selector, and moves otherwise. Other keys do nothing.
   */
  function HandleKeySpec(s: State, dom: Dom, sqrt: int -> real, code: int): (r: State)
    ensures !s.listening || !s.canMove ==> r == s
    ensures r.known == s.known && r.positions == s.positions
    ensures r.canMove == s.canMove && r.listening == s.listening
    ensures code != 13 && KeyDirection(code).None? ==> r == s
    ensures KeyDirection(code).Some? && HelperThrows(s, dom, KeyDirection(code).value) ==> r == s
  {
    if !s.listening || !s.canMove then s
    else if code == 13 then s.(log := s.log + Enters(s.active))
    else
      match KeyDirection(code)
      case None => s
      case Some(d) =>
        if HelperThrows(s, dom, d) then s
        else
          var h := HelperTarget(s, dom, d);
          if h != [] then SetActiveSpec(s, h, false, true) else MoveSpec(s, sqrt, d)
  }

  /** `lock(state)`: movement is allowed exactly when the state is falsy. */
  function LockSpec(s: State, state: bool): (r: State)
    ensures r.canMove == !state
    ensures r == s.(canMove := r.canMove)
  {
    s.(canMove := !state)
  }

  /** A locked plugin ignores every key. */
  lemma LockedIgnoresKeys(s: State, dom: Dom, sqrt: int -> real, code: int)
    ensures HandleKeySpec(LockSpec(s, true), dom, sqrt, code) == LockSpec(s, true)
  {
  }

  /** Unlocking makes a listening plugin react to the arrow keys again. */
  lemma UnlockedMoves(s: State, dom: Dom, sqrt: int -> real, code: int)
    requires s.listening && KeyDirection(code).Some? && HelperTarget(s, dom, KeyDirection(code).value) == []
    requires !HelperThrows(s, dom, KeyDirection(code).value)
    ensures HandleKeySpec(LockSpec(s, false), dom, sqrt, code) == MoveSpec(LockSpec(s, false), sqrt, KeyDirection(code).value)
  {
  }

  /**
   * A helper token that selects elements wins over the geometry: all its matches
   * become active, wrapped, with the on class and without the off class, the old
   * active elements are blurred, and every match gets 'focus' and then
   * 'changeSelected'. Positions and helper are then read from the first match.
   */
  lemma HelperJumps(s: State, dom: Dom, sqrt: int -> real, code: int, d: Direction, v: string)
    requires s.listening && s.canMove && KeyDirection(code) == Some(d) && s.Current().Some?
    requires dom.Attr(s.Current().value, "data-keynav-helper") == Some(v)
    requires Helper(Some(v), d).Some? && Helper(Some(v), d).value != ""
    requires Helper(Some(v), d).value !in dom.rejected && dom.QueryAll(Helper(Some(v), d).value) != []
    ensures var all := dom.QueryAll(Helper(Some(v), d).value);
            var r := HandleKeySpec(s, dom, sqrt, code);
            r.active == all && r.Current() == dom.Query(Helper(Some(v), d).value) && r.wrapped
            && (forall x :: x in all ==> x in r.on && x !in r.off)
            && r.log == s.log + Blurs(s.active) + Focuses(all) + Selections(all)
  {
  }

  /** 'enter' changes nothing but the log, where it records the trigger on every active element. */
  lemma EnterTriggers(s: State, dom: Dom, sqrt: int -> real)
    requires s.listening && s.canMove
    ensures var r := HandleKeySpec(s, dom, sqrt, 13);
            r == s.(log := r.log)
            && |r.log| == |s.log| + |s.active|
            && forall i :: 0 <= i < |s.active| ==> r.log[|s.log| + i] == EnterPressed(s.active[i])
  {
  }

  /**
   * `destroy`: the known elements, the active element and the callbacks are dropped,
   * movement is unlocked and the keyup handler removed. Stored positions and classes
   * stay on the elements.
   */
  function DestroySpec(s: State): (r: State)
    ensures r.known == [] && r.active == [] && !r.wrapped && r.canMove && !r.listening
    ensures r.positions == s.positions && r.on == s.on && r.off == s.off && r.log == s.log
  {
    s.(known := [], active := [], wrapped := false, canMove := true, listening := false)
  }

  /** After `destroy` keys do nothing, until the plugin is initialised again. */
  lemma DestroyedIgnoresKeys(s: State, dom: Dom, sqrt: int -> real, code: int)
    ensures HandleKeySpec(DestroySpec(s), dom, sqrt, code) == DestroySpec(s)
  {
  }

  /** Every operation keeps every known element positioned. */
  lemma HandleKeyKeepsPositioned(s: State, dom: Dom, sqrt: int -> real, code: int)
    requires Positioned(s)
    ensures Positioned(HandleKeySpec(s, dom, sqrt, code))
    ensures Positioned(DestroySpec(s))
    ensures HandleKeySpec(s, dom, sqrt, code).known == s.known
  {
  }

  // ------------------------------------------------------------------ engine

  /** The plugin's closure variables, with the transitions above as its methods. */
  class Engine {
    var known: seq<Elem>
    var active: seq<Elem>
    var wrapped: bool
    var canMove: bool
    var listening: bool
    var positions: map<Elem, Anchors>
    var on: set<Elem>
    var off: set<Elem>
    var log: seq<Effect>

    function Model(): State
      reads this
    {
      State(known, active, wrapped, canMove, listening, positions, on, off, log)
    }

    constructor ()
      ensures Model() == Initial()
    {
      known, active, wrapped, canMove, listening := [], [], false, true, false;
      positions, on, off, log := map[], {}, {}, [];
    }

    method Attach()
      modifies this
      ensures Model() == AttachSpec(old(Model()))
    {
      listening := true;
    }

    method Register(dom: Dom, e: Elem)
      modifies this
      ensures Model() == RegisterSpec(old(Model()), dom, e)
    {
      if dom.NodeOf(e).hidden {
        return;
      }
      positions := positions[e := PositionOf(dom, e)];
      known := known + [e];
    }

    /** `this.each(registerElement)` over the initialised elements. */
    method RegisterEach(dom: Dom, es: seq<Elem>)
      modifies this
      ensures Model() == RegisterAll(old(Model()), dom, es)
    {
      ghost var s0 := Model();
      var i := 0;
      while i < |es|
        invariant 0 <= i <= |es|
        invariant Model() == RegisterAll(s0, dom, es[..i])
      {
        assert es[..i + 1][..i] == es[..i];
        Register(dom, es[i]);
        i := i + 1;
      }
      assert es[..i] == es;
    }

    method SetActive(es: seq<Elem>, silently: bool, wrap: bool)
      requires es != []
      modifies this
      ensures Model() == SetActiveSpec(old(Model()), es, silently, wrap)
    {
      var previous := active;
      active := es;
      wrapped := wrap;
      on := on - Elems(previous);
      off := off + Elems(previous);
      off := off - Elems(es);
      on := on + Elems(es);
      if !silently {
        log := log + Blurs(previous) + Focuses(es) + Selections(es);
      }
    }

    /** `findCloseElements`: the known elements in the half-plane, other than the active one. */
    method FindCloseElements(d: Direction, c: Elem) returns (close: seq<Elem>)
      requires c in positions && AllPositioned(known, positions)
      ensures close == CloseElements(known, positions, d, positions[c], if wrapped then None else Some(c))
    {
      var exclude := if wrapped then None else Some(c);
      var ks, ps := known, positions;
      var from := ps[c];
      close := [];
      for i := 0 to |ks|
        invariant close == CloseElements(ks[..i], ps, d, from, exclude)
      {
        assert ks[..i + 1] == ks[..i] + [ks[i]];
        CloseElementsSnoc(ks[..i], ps, d, from, exclude, ks[i]);
        if Reaches(d, from, ps[ks[i]]) && exclude != Some(ks[i]) {
          close := close + [ks[i]];
        }
      }
      assert ks[..|ks|] == ks;
    }

    /** `activateClosest`: the first strictly smallest distance over every close element. */
    method ActivateClosest(sqrt: int -> real, d: Direction, c: Elem, close: seq<Elem>)
      requires c in positions && forall k :: k in close ==> k in positions
      modifies this
      ensures var k := FirstMin(Distances(sqrt, d, old(positions)[c], close, old(positions)));
              Model() == if k.None? then old(Model()) else SetActiveSpec(old(Model()), [close[k.value]], false, false)
    {
      var k := ClosestIndex(Distances(sqrt, d, positions[c], close, positions));
      if k.Some? {
        SetActive([close[k.value]], false, false);
      }
    }

    method Move(sqrt: int -> real, d: Direction)
      modifies this
      ensures Model() == MoveSpec(old(Model()), sqrt, d)
    {
      if active == [] {
        return;
      }
      var c := active[0];
      if c !in positions || !AllPositioned(known, positions) {
        return;
      }
      var close := FindCloseElements(d, c);
      ActivateClosest(sqrt, d, c, close);
    }

    method HandleKey(dom: Dom, sqrt: int -> real, code: int)
      modifies this
      ensures Model() == HandleKeySpec(old(Model()), dom, sqrt, code)
    {
      if !listening || !canMove {
        return;
      }
      if code == 13 {
        log := log + Enters(active);
        return;
      }
      var d := KeyDirection(code);
      if d.None? {
        return;
      }
      if HelperThrows(Model(), dom, d.value) {
        return;
      }
      var helper := HelperTarget(Model(), dom, d.value);
      if helper != [] {
        SetActive(helper, false, true);
      } else {
        Move(sqrt, d.value);
      }
    }

    method Lock(state: bool)
      modifies this
      ensures Model() == LockSpec(old(Model()), state)
    {
      canMove := !state;
    }

    method Destroy()
      modifies this
      ensures Model() == DestroySpec(old(Model()))
    {
      known, active, wrapped, canMove, listening := [], [], false, true, false;
    }
  }
}
