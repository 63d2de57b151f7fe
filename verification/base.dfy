/**
 * Vocabulary shared by every generation of the focus finder: directions and keys,
 * element handles, the host document as a value, selector targets and the
 * observable effects (notifications, host focus calls) the engines emit.
 */
module Base {

  datatype Option<T> = None | Some(value: T)

  /** The four directions the engines move in. */
  datatype Direction = Up | Down | Left | Right

  /** What a key code maps to: an arrow direction or 'enter'. */
  datatype Key = Arrow(direction: Direction) | Enter

  /** The order in which a direction-override attribute lists its tokens. */
  const OverrideOrder: seq<Direction> := [Up, Right, Down, Left]

  /** Index of a direction inside `OverrideOrder`. */
  function OverrideIndex(d: Direction): (i: nat)
    ensures i < |OverrideOrder| && OverrideOrder[i] == d
    ensures forall j :: 0 <= j < |OverrideOrder| && OverrideOrder[j] == d ==> j == i
  {
    match d
    case Up => 0
    case Right => 1
    case Down => 2
    case Left => 3
  }

  /** The name a direction has in attribute names and keymaps. */
  function DirectionName(d: Direction): string
  {
    match d
    case Up => "up"
    case Down => "down"
    case Left => "left"
    case Right => "right"
  }

  /** An element of the host document, compared by identity. */
  type Elem = nat

  /**
   * A bounding rectangle as the host reports it. The fields are independent:
   * nothing forces `right == left + width`.
   */
  datatype Rect = Rect(left: int, top: int, right: int, bottom: int, width: int, height: int)

  /**
   * What the host knows about one element: its rectangle, its attributes, whether its
   * computed style hides it (display none or visibility hidden), and whether the
   * visibility library reports it as visible on screen.
   */
  datatype Node = Node(rect: Rect, attrs: map<string, string>, hidden: bool, visible: bool)

  const Detached := Node(Rect(0, 0, 0, 0, 0, 0), map[], true, false)

  /**
   * The host document: the document node itself, the elements, every element each
   * selector matches in document order (`querySelector` takes the first), the
   * selectors whose syntax `querySelector` rejects with a SyntaxError (such as
   * 'div['), and for a container and a marker attribute the marked descendants in
   * document order (`querySelectorAll('[attr]')`).
   */
  datatype Dom = Dom(
    document: Elem,
    nodes: map<Elem, Node>,
    matches: map<string, seq<Elem>>,
    rejected: set<string>,
    scans: map<(Elem, string), seq<Elem>>)
  {
    function NodeOf(e: Elem): Node
    {
      if e in nodes then nodes[e] else Detached
    }

    function Attr(e: Elem, name: string): Option<string>
    {
      var attrs := NodeOf(e).attrs;
      if name in attrs then Some(attrs[name]) else None
    }

    /** `querySelector` throws on the empty selector and on a malformed one. */
    predicate Rejects(selector: string)
    {
      selector == "" || selector in rejected
    }

    /** Every element the selector matches, in document order. */
    function QueryAll(selector: string): seq<Elem>
    {
      if selector in matches then matches[selector] else []
    }

    /** `querySelector`: the first match, if any. */
    function Query(selector: string): (r: Option<Elem>)
      ensures r.None? <==> QueryAll(selector) == []
      ensures r.Some? ==> r.value == QueryAll(selector)[0]
    {
      var all := QueryAll(selector);
      if all == [] then None else Some(all[0])
    }

    function Scan(container: Elem, attribute: string): seq<Elem>
    {
      if (container, attribute) in scans then scans[(container, attribute)] else []
    }
  }

  /** The argument of `setCurrent`: an element, a selector string, or nothing. */
  datatype Target = NodeRef(el: Elem) | SelectorRef(selector: string) | NoTarget

  /**
   * `undefined` passed to `setCurrent` (the first element of an empty list): it is
   * not a node, so `querySelector` gets it and reads it as the selector 'undefined'.
   */
  const Undefined: Target := SelectorRef("undefined")

  /**
   * A node is taken as is, a selector goes through `querySelector`, nothing resolves
   * to nothing. A selector `querySelector` rejects (the empty one or a malformed
   * one) makes it throw before any state changes, which has the same outcome as a
   * selector that matches nothing.
   * `NoTarget` stands for the `null` default element, which is falsy and so never
   * reaches `setCurrent`; a `null` that did would be read as the selector 'null'.
   */
  function Resolve(dom: Dom, t: Target): (r: Option<Elem>)
    ensures t.NodeRef? ==> r == Some(t.el)
    ensures t.NoTarget? ==> r.None?
    ensures t.SelectorRef? ==> (r.Some? <==> !dom.Rejects(t.selector) && dom.Query(t.selector).Some?)
  {
    match t
    case NodeRef(e) => Some(e)
    case SelectorRef(s) => if dom.Rejects(s) then None else dom.Query(s)
    case NoTarget => None
  }

  /** JavaScript truthiness of a target: null and the empty selector are false. */
  predicate Truthy(t: Target)
  {
    match t
    case NodeRef(_) => true
    case SelectorRef(s) => s != ""
    case NoTarget => false
  }

  /** The set holding the element of an optional, if any. */
  function AsSet(o: Option<Elem>): set<Elem>
  {
    match o
    case None => {}
    case Some(e) => {e}
  }

  /**
   * Everything an engine makes observable besides its own state: the focus
   * notifications, the host focus/blur calls, synthetic clicks and triggers.
   */
  datatype Effect =
    | LosingFocus(el: Elem)
    | FocusLost(el: Elem)
    | GainingFocus(el: Elem)
    | FocusGained(el: Elem)
    | FocusMoved(direction: Option<Direction>, from: Option<Elem>, to: Elem)
    | Blur(el: Elem)
    | Focus(el: Elem)
    | Click(el: Elem)
    | ChangeSelected(el: Elem)
    | EnterPressed(el: Elem)
    | KeyListenerAdded

  /** The focus notifications among a list of effects, in order. */
  function Notifications(log: seq<Effect>): (r: seq<Effect>)
    ensures |r| <= |log|
    ensures forall x :: x in r ==> x in log && IsNotification(x)
  {
    if log == [] then []
    else Notifications(log[..|log| - 1]) + (if IsNotification(log[|log| - 1]) then [log[|log| - 1]] else [])
  }

  predicate IsNotification(x: Effect)
  {
    x.LosingFocus? || x.FocusLost? || x.GainingFocus? || x.FocusGained? || x.FocusMoved?
  }

  lemma {:induction false} NotificationsAppend(a: seq<Effect>, b: seq<Effect>)
    ensures Notifications(a + b) == Notifications(a) + Notifications(b)
    decreases |b|
  {
    if b == [] {
      assert a + b == a;
    } else {
      var b' := b[..|b| - 1];
      assert (a + b)[..|a + b| - 1] == a + b';
      NotificationsAppend(a, b');
    }
  }

  /** A single effect is kept exactly when it is a notification. */
  lemma NotificationsSingle(x: Effect)
    ensures Notifications([x]) == if IsNotification(x) then [x] else []
  {
    assert [x][..0] == [];
  }

  /** A list made only of notifications is its own list of notifications. */
  lemma {:induction false} NotificationsOnly(xs: seq<Effect>)
    requires forall i :: 0 <= i < |xs| ==> IsNotification(xs[i])
    ensures Notifications(xs) == xs
    decreases |xs|
  {
    if xs != [] {
      var init, last := xs[..|xs| - 1], xs[|xs| - 1];
      NotificationsOnly(init);
      assert IsNotification(last);
      assert init + [last] == xs;
    }
  }

  /** An effect that is not a notification drops out wherever it sits. */
  lemma NotificationsSkip(a: seq<Effect>, x: Effect, b: seq<Effect>)
    requires !IsNotification(x)
    ensures Notifications(a + [x] + b) == Notifications(a + b)
  {
    NotificationsAppend(a + [x], b);
    NotificationsAppend(a, [x]);
    NotificationsSingle(x);
    NotificationsAppend(a, b);
  }

  /** One list entry with a keymap code and what it maps to (array-form keymaps). */
  datatype Binding = Binding(code: int, key: Key)

  /** `_.findWhere(keymap, {code})`: the first binding for the code. */
  function FindBinding(keymap: seq<Binding>, code: int): (r: Option<Key>)
    ensures r.None? <==> forall i :: 0 <= i < |keymap| ==> keymap[i].code != code
    ensures r.Some? ==> exists i :: 0 <= i < |keymap| && keymap[i] == Binding(code, r.value)
                           && forall j :: 0 <= j < i ==> keymap[j].code != code
  {
    if keymap == [] then None
    else if keymap[0].code == code then Some(keymap[0].key)
    else FindBinding(keymap[1..], code)
  }

  /** `_.reject(list, k => k.isEqualNode(e))`, with element identity for node equality. */
  function Without(list: seq<Elem>, e: Elem): (r: seq<Elem>)
    ensures e !in r
    ensures forall x :: x in r <==> x in list && x != e
    ensures |r| <= |list|
  {
    if list == [] then []
    else (if list[0] == e then [] else [list[0]]) + Without(list[1..], e)
  }

  /** Removing from a concatenation removes from each part, so the order is kept. */
  lemma {:induction false} WithoutAppend(a: seq<Elem>, b: seq<Elem>, e: Elem)
    ensures Without(a + b, e) == Without(a, e) + Without(b, e)
  {
    if a == [] {
      assert a + b == b;
    } else {
      var h := if a[0] == e then [] else [a[0]];
      assert (a + b)[1..] == a[1..] + b;
      assert Without(a + b, e) == h + Without(a[1..] + b, e);
      assert Without(a, e) == h + Without(a[1..], e);
      WithoutAppend(a[1..], b, e);
      assert h + (Without(a[1..], e) + Without(b, e)) == (h + Without(a[1..], e)) + Without(b, e);
    }
  }

  /** The first entry left after a removal is the first entry of the list other than the removed one. */
  lemma {:induction false} WithoutHead(list: seq<Elem>, e: Elem)
    requires Without(list, e) != []
    ensures exists j :: 0 <= j < |list| && list[j] == Without(list, e)[0]
                        && forall i :: 0 <= i < j ==> list[i] == e
    ensures Without(list, e)[0] != e
  {
    if list[0] == e {
      WithoutHead(list[1..], e);
      var j :| 0 <= j < |list[1..]| && list[1..][j] == Without(list[1..], e)[0]
                && forall i :: 0 <= i < j ==> list[1..][i] == e;
      assert list[j + 1] == Without(list, e)[0];
      assert forall i :: 0 <= i < j + 1 ==> list[i] == e by {
        forall i | 0 <= i < j + 1 ensures list[i] == e {
          if i > 0 { assert list[i] == list[1..][i - 1]; }
        }
      }
    } else {
      assert list[0] == Without(list, e)[0];
    }
  }

  /** The elements of a list that are not hidden, in order. */
  function Shown(dom: Dom, es: seq<Elem>): (r: seq<Elem>)
    ensures forall k :: k in r <==> k in es && !dom.NodeOf(k).hidden
  {
    if es == [] then []
    else
      var rest := Shown(dom, es[..|es| - 1]);
      assert forall k :: k in es <==> k in es[..|es| - 1] || k == es[|es| - 1];
      if dom.NodeOf(es[|es| - 1]).hidden then rest else rest + [es[|es| - 1]]
  }

  /** Filtering a concatenation filters each part, so the order is kept. */
  lemma {:induction false} ShownAppend(dom: Dom, a: seq<Elem>, b: seq<Elem>)
    ensures Shown(dom, a + b) == Shown(dom, a) + Shown(dom, b)
  {
    if b == [] {
      assert a + b == a;
    } else {
      var b' := b[..|b| - 1];
      assert (a + b)[..|a + b| - 1] == a + b';
      ShownAppend(dom, a, b');
    }
  }

  /** The configured container: the string 'document' or a selector, an element, or null. */
  datatype Container = Named(selector: string) | Element(el: Elem) | NullContainer

  /** Where a refresh looks for elements: a root node, a null result, or a throw before anything changes. */
  datatype ContainerLookup = Found(root: Elem) | NotFound | Broken

  /**
   * The container selector of a refresh: 'document' is the document itself, any
   * other string goes through `querySelector`, which throws on the empty selector
   * and on a malformed one.
   */
  function LookupSelector(dom: Dom, sel: string): (r: ContainerLookup)
    ensures sel == "document" ==> r == Found(dom.document)
    ensures sel != "document" ==> (r.Broken? <==> dom.Rejects(sel))
    ensures sel != "document" && !dom.Rejects(sel) ==> (r.Found? <==> dom.Query(sel).Some?)
  {
    if sel == "document" then Found(dom.document)
    else if dom.Rejects(sel) then Broken
    else match dom.Query(sel)
      case Some(e) => Found(e)
      case None => NotFound
  }

  /** A node container is used as it is; reading `nodeName` of null throws. */
  function LookupContainer(dom: Dom, c: Container): (r: ContainerLookup)
    ensures c.Element? ==> r == Found(c.el)
    ensures c.NullContainer? ==> r == Broken
  {
    match c
    case Named(sel) => LookupSelector(dom, sel)
    case Element(e) => Found(e)
    case NullContainer => Broken
  }
}
