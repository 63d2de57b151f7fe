/**
 * Override attributes are space-separated token lists read with `split(' ')`.
 * This module gives that split, its inverse, and the three readings of an
 * override attribute the generations of the engine use.
 */
module Tokens {
  import opened Base

  /** `s.split(' ')`: the pieces between single spaces; empty pieces are kept. */
  function Split(s: string): (parts: seq<string>)
    ensures |parts| >= 1
    ensures forall i :: 0 <= i < |parts| ==> ' ' !in parts[i]
    decreases |s|
  {
    if s == [] then [""]
    else if s[0] == ' ' then [""] + Split(s[1..])
    else
      var rest := Split(s[1..]);
      [[s[0]] + rest[0]] + rest[1..]
  }

  /** `parts.join(' ')`. */
  function Join(parts: seq<string>): (s: string)
    requires |parts| >= 1
  {
    if |parts| == 1 then parts[0] else parts[0] + " " + Join(parts[1..])
  }

  /** Joining the pieces of a split gives back the attribute text. */
  lemma {:induction false} JoinSplit(s: string)
    ensures Join(Split(s)) == s
    decreases |s|
  {
    if s == [] {
    } else if s[0] == ' ' {
      JoinSplit(s[1..]);
      var parts := [""] + Split(s[1..]);
      assert parts[1..] == Split(s[1..]);
      assert s == [s[0]] + s[1..];
    } else {
      var rest := Split(s[1..]);
      JoinSplit(s[1..]);
      var parts := [[s[0]] + rest[0]] + rest[1..];
      if |rest| == 1 {
        assert s == [s[0]] + s[1..];
      } else {
        assert parts[1..] == rest[1..];
        assert Join(rest) == rest[0] + " " + Join(rest[1..]);
        assert s == [s[0]] + s[1..];
      }
    }
  }

  /** A piece without spaces splits to itself alone. */
  lemma {:induction false} SplitWord(w: string)
    requires ' ' !in w
    ensures Split(w) == [w]
    decreases |w|
  {
    if w != [] {
      assert ' ' !in w[1..] by {
        forall i | 0 <= i < |w[1..]| ensures w[1..][i] != ' ' { assert w[1..][i] == w[i + 1]; }
      }
      SplitWord(w[1..]);
      assert [w[0]] + w[1..] == w;
    }
  }

  /** Splitting `w + " " + rest` yields `w` followed by the split of `rest`. */
  lemma {:induction false} SplitAfterWord(w: string, rest: string)
    requires ' ' !in w
    ensures Split(w + " " + rest) == [w] + Split(rest)
    decreases |w|
  {
    if w == [] {
      assert w + " " + rest == [' '] + rest;
      assert (w + " " + rest)[1..] == rest;
    } else {
      assert ' ' !in w[1..] by {
        forall i | 0 <= i < |w[1..]| ensures w[1..][i] != ' ' { assert w[1..][i] == w[i + 1]; }
      }
      SplitAfterWord(w[1..], rest);
      assert (w + " " + rest)[1..] == w[1..] + " " + rest;
      assert [w[0]] + w[1..] == w;
    }
  }

  /** Splitting a join of space-free pieces gives back the pieces. */
  lemma {:induction false} SplitJoin(parts: seq<string>)
    requires |parts| >= 1
    requires forall i :: 0 <= i < |parts| ==> ' ' !in parts[i]
    ensures Split(Join(parts)) == parts
    decreases |parts|
  {
    if |parts| == 1 {
      SplitWord(parts[0]);
    } else {
      SplitJoin(parts[1..]);
      SplitAfterWord(parts[0], Join(parts[1..]));
      assert [parts[0]] + parts[1..] == parts;
    }
  }

  /** The piece at an index, if the split produced one (`tokens[i]`, else undefined). */
  function TokenAt(parts: seq<string>, i: int): Option<string>
  {
    if 0 <= i < |parts| then Some(parts[i]) else None
  }

  /**
   * main-browserify and the vendored copy: `_getDirectionOverrides` zips up, right,
   * down, left with the split tokens, turning the literal 'null' into null. An
   * absent attribute gives the empty object. A missing token and a null token are
   * both `None`: every reader only tests them for truthiness or against 'skip'.
   */
  function DirectionOverrides(attr: Option<string>): (m: map<Direction, Option<string>>)
    ensures attr.None? ==> m == map[]
    ensures attr.Some? ==> m.Keys == {Up, Right, Down, Left}
  {
    match attr
    case None => map[]
    case Some(v) =>
      var parts := Split(v);
      map[Up := NotNull(TokenAt(parts, 0)), Right := NotNull(TokenAt(parts, 1)),
          Down := NotNull(TokenAt(parts, 2)), Left := NotNull(TokenAt(parts, 3))]
  }

  function NotNull(t: Option<string>): Option<string>
  {
    if t == Some("null") then None else t
  }

  /** `overrides[direction]` on the zipped object; absent keys read as undefined. */
  function OverrideFor(m: map<Direction, Option<string>>, d: Direction): Option<string>
  {
    if d in m then m[d] else None
  }

  /**
   * Reading the overrides of an attribute written as four space-free tokens: each
   * direction gets its own token in up, right, down, left order, and 'null' gives
   * no override.
   */
  lemma OverridesOfFourTokens(up: string, right: string, down: string, left: string, d: Direction)
    requires ' ' !in up && ' ' !in right && ' ' !in down && ' ' !in left
    ensures var tok := [up, right, down, left][OverrideIndex(d)];
            OverrideFor(DirectionOverrides(Some(Join([up, right, down, left]))), d)
              == if tok == "null" then None else Some(tok)
  {
    var parts := [up, right, down, left];
    SplitJoin(parts);
  }

  /** The overrides of an absent attribute are empty: no direction has an override. */
  lemma NoAttributeNoOverride(d: Direction)
    ensures OverrideFor(DirectionOverrides(None), d) == None
  {
  }

  /**
   * main.js: `_currentElementHasThisDirectionsOverride`. With the attribute present,
   * the token at the key's index (up, right, down, left; 'enter' has index -1) counts
   * as an override unless it is the literal 'null' — a missing token counts too.
   */
  function KeyIndex(k: Key): int
  {
    match k
    case Arrow(d) => OverrideIndex(d)
    case Enter => -1
  }

  function LegacyHasOverride(attr: Option<string>, k: Key): (b: bool)
    ensures attr.None? ==> !b
    ensures attr.Some? && k.Enter? ==> b
  {
    match attr
    case None => false
    case Some(v) => TokenAt(Split(v), KeyIndex(k)) != Some("null")
  }

  /**
   * main.js: `_getCurrentElementsOverrideByDirection`, the raw token (undefined when
   * missing, and always for 'enter'). It is an override exactly when it is not 'null'.
   */
  function LegacyOverride(attr: Option<string>, k: Key): (r: Option<string>)
    ensures attr.None? || k.Enter? ==> r.None?
    ensures attr.Some? && k.Arrow? ==> (r.Some? <==> OverrideIndex(k.direction) < |Split(attr.value)|)
    ensures r.Some? ==> ' ' !in r.value
    ensures LegacyHasOverride(attr, k) <==> attr.Some? && r != Some("null")
  {
    match attr
    case None => None
    case Some(v) => TokenAt(Split(v), KeyIndex(k))
  }

  /**
   * The two readings differ only where a token is missing: main.js reports an
   * override where main-browserify reports none.
   */
  lemma {:induction false} LegacyReadingAgreesExceptMissingTokens(v: string, d: Direction)
    ensures LegacyHasOverride(Some(v), Arrow(d))
            <==> (OverrideFor(DirectionOverrides(Some(v)), d).Some? || OverrideIndex(d) >= |Split(v)|)
  {
  }

  /**
   * keyJumper `findHelper`: without the helper attribute every direction is null;
   * otherwise the split tokens are assigned to up, right, down, left in order, with
   * 'null' kept as a literal string.
   */
  function Helper(attr: Option<string>, d: Direction): (h: Option<string>)
    ensures attr.None? ==> h.None?
  {
    match attr
    case None => None
    case Some(v) => TokenAt(Split(v), OverrideIndex(d))
  }

  /**
   * keyJumper reading a helper attribute written as four space-free tokens: each
   * direction gets its own token in up, right, down, left order, and 'null' stays
   * the literal token 'null'.
   */
  lemma HelperOfFourTokens(up: string, right: string, down: string, left: string, d: Direction)
    requires ' ' !in up && ' ' !in right && ' ' !in down && ' ' !in left
    ensures Helper(Some(Join([up, right, down, left])), d) == Some([up, right, down, left][OverrideIndex(d)])
  {
    var parts := [up, right, down, left];
    SplitJoin(parts);
  }
}
