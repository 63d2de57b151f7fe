/**
 * main.js keeps each registered element's position in a `position` attribute as
 * the text `JSON.stringify` produces for the ten anchor coordinates, and parses
 * it back on every move. This module gives that text and a reader for it, and
 * proves the reader returns exactly the position that was written.
 */
module PositionJson {
  import opened Base
  import opened Geometry

  predicate IsDigit(c: char)
  {
    '0' <= c <= '9'
  }

  predicate AllDigits(s: string)
  {
    forall i :: 0 <= i < |s| ==> IsDigit(s[i])
  }

  function DigitChar(d: nat): (c: char)
    requires d < 10
    ensures IsDigit(c)
  {
    (('0' as int) + d) as char
  }

  function DigitValue(c: char): (d: nat)
    requires IsDigit(c)
    ensures d < 10
  {
    (c as int) - ('0' as int)
  }

  /** The decimal digits of a natural number, without leading zeros. */
  function Digits(n: nat): (s: string)
    ensures |s| >= 1 && AllDigits(s)
    ensures n >= 10 ==> s[0] != '0'
    decreases n
  {
    if n < 10 then [DigitChar(n)] else Digits(n / 10) + [DigitChar(n % 10)]
  }

  /** How a number is written by `JSON.stringify`: an optional minus sign, then its digits. */
  function IntText(i: int): (s: string)
    ensures |s| >= 1
  {
    if i < 0 then "-" + Digits(-i) else Digits(i)
  }

  /** The value of a run of decimal digits, read left to right. */
  function ValueOf(ds: string): nat
    requires AllDigits(ds)
  {
    if ds == [] then 0 else ValueOf(ds[..|ds| - 1]) * 10 + DigitValue(ds[|ds| - 1])
  }

  /** Reading the digits of a number gives back the number. */
  lemma {:induction false} ValueOfDigits(n: nat)
    ensures ValueOf(Digits(n)) == n
    decreases n
  {
    if n >= 10 {
      ValueOfDigits(n / 10);
      var ds := Digits(n);
      assert ds[..|ds| - 1] == Digits(n / 10);
    }
  }

  /** The length of the leading run of digits. */
  function DigitRun(s: string): (n: nat)
    ensures n <= |s| && AllDigits(s[..n])
    ensures n < |s| ==> !IsDigit(s[n])
  {
    if s != [] && IsDigit(s[0]) then
      var n := 1 + DigitRun(s[1..]);
      assert forall i :: 1 <= i < n ==> s[..n][i] == s[1..][..n - 1][i - 1];
      n
    else 0
  }

  /** A run of digits followed by a non-digit is read up to the non-digit. */
  lemma {:induction false} DigitRunStopsAtEnd(ds: string, tail: string)
    requires AllDigits(ds)
    requires tail == [] || !IsDigit(tail[0])
    ensures DigitRun(ds + tail) == |ds|
    decreases |ds|
  {
    if ds != [] {
      assert (ds + tail)[1..] == ds[1..] + tail;
      DigitRunStopsAtEnd(ds[1..], tail);
    }
  }

  /** `u` is what is left of `s` after some prefix has been read. */
  predicate IsSuffix(u: string, s: string)
  {
    |u| <= |s| && u == s[|s| - |u|..]
  }

  lemma SuffixOfSuffix(u: string, t: string, s: string)
    requires IsSuffix(u, t) && IsSuffix(t, s)
    ensures IsSuffix(u, s)
  {
    assert s[|s| - |u|..] == s[|s| - |t|..][|t| - |u|..];
  }

  /** `JSON.parse` of a number at the front of the text: the number and the text after it. */
  function ParseInt(s: string): (r: Option<(int, string)>)
    ensures r.Some? ==> |r.value.1| < |s| && IsSuffix(r.value.1, s)
  {
    var neg := s != [] && s[0] == '-';
    var body := if neg then s[1..] else s;
    var n := DigitRun(body);
    if n == 0 then None
    else
      var v: int := ValueOf(body[..n]);
      Some((if neg then -v else v, body[n..]))
  }

  /** The two halves of a concatenation are recovered by slicing at the first one's length. */
  lemma SliceAt(h: string, t: string)
    ensures (h + t)[..|h|] == h && (h + t)[|h|..] == t
  {
  }

  /** A run of digits followed by a non-digit: its length, its digits and the text after it. */
  lemma DigitsThenTail(ds: string, tail: string)
    requires AllDigits(ds)
    requires tail == [] || !IsDigit(tail[0])
    ensures DigitRun(ds + tail) == |ds|
    ensures (ds + tail)[..|ds|] == ds && (ds + tail)[|ds|..] == tail
  {
    DigitRunStopsAtEnd(ds, tail);
    SliceAt(ds, tail);
  }

  /** Reading a written number gives it back, with the text that followed it. */
  lemma ParseIntText(i: int, tail: string)
    requires tail == [] || !IsDigit(tail[0])
    ensures ParseInt(IntText(i) + tail) == Some((i, tail))
  {
    var n: nat := if i < 0 then -i else i;
    var ds := Digits(n);
    DigitsThenTail(ds, tail);
    ValueOfDigits(n);
    if i < 0 {
      assert IntText(i) + tail == "-" + (ds + tail);
      SliceAt("-", ds + tail);
    } else {
      assert IntText(i) + tail == ds + tail;
      assert IsDigit((ds + tail)[0]);
    }
  }

  /** The keys in the order `_getPosition` creates them, which `JSON.stringify` keeps. */
  const Keys: seq<string> := ["x", "y", "otx", "oty", "obx", "oby", "olx", "oly", "orx", "ory"]

  function ValuesOf(a: Anchors): (vs: seq<int>)
    ensures |vs| == |Keys|
  {
    [a.x, a.y, a.otx, a.oty, a.obx, a.oby, a.olx, a.oly, a.orx, a.ory]
  }

  function AnchorsFrom(vs: seq<int>): Anchors
    requires |vs| == |Keys|
  {
    Anchors(vs[0], vs[1], vs[2], vs[3], vs[4], vs[5], vs[6], vs[7], vs[8], vs[9])
  }

  /** The text of one member, `"key":value`, preceded by the separator. */
  function Member(sep: string, key: string, v: int): string
  {
    sep + "\"" + key + "\":" + IntText(v)
  }

  /** The members of an object, separated by commas. */
  function Members(keys: seq<string>, vs: seq<int>, sep: string): string
    requires |keys| == |vs|
  {
    if keys == [] then "" else Member(sep, keys[0], vs[0]) + Members(keys[1..], vs[1..], ",")
  }

  /** `JSON.stringify(position)`. */
  function Encode(a: Anchors): (s: string)
    ensures |s| >= 2 && s[0] == '{' && s[|s| - 1] == '}'
  {
    "{" + Members(Keys, ValuesOf(a), "") + "}"
  }

  /** Reading one member, `"key":value` after the separator, at the front of the text. */
  function ParseMember(s: string, sep: string, key: string): (r: Option<(int, string)>)
    ensures r.Some? ==> |r.value.1| < |s| && IsSuffix(r.value.1, s)
  {
    var head := sep + "\"" + key + "\":";
    if |head| <= |s| && s[..|head|] == head then ParseInt(s[|head|..]) else None
  }

  /** Reading the members with the given keys, in order: their values and the rest of the text. */
  function ParseMembers(keys: seq<string>, s: string, sep: string): (r: Option<(seq<int>, string)>)
    ensures r.Some? ==> |r.value.0| == |keys|
    ensures r.Some? ==> IsSuffix(r.value.1, s)
  {
    if keys == [] then Some(([], s))
    else
      match ParseMember(s, sep, keys[0])
      case None => None
      case Some((v, rest)) =>
        match ParseMembers(keys[1..], rest, ",")
        case None => None
        case Some((vs, after)) =>
          SuffixOfSuffix(after, rest, s);
          Some(([v] + vs, after))
  }

  /**
   * `JSON.parse` of a position attribute, for text of the shape the engine writes;
   * anything else is `None`. What it accepts is braced, as `Encode` writes it.
   */
  function Decode(s: string): (r: Option<Anchors>)
    ensures r.Some? ==> |s| >= 2 && s[0] == '{' && s[|s| - 1] == '}'
  {
    if s == [] || s[0] != '{' then None
    else
      match ParseMembers(Keys, s[1..], "")
      case None => None
      case Some((vs, rest)) => if rest == "}" then Some(AnchorsFrom(vs)) else None
  }

  /** A written member reads back as its value, followed by the text after it. */
  lemma ReadMember(sep: string, key: string, v: int, after: string)
    requires after == [] || !IsDigit(after[0])
    ensures ParseMember(Member(sep, key, v) + after, sep, key) == Some((v, after))
  {
    var head := sep + "\"" + key + "\":";
    var rest := IntText(v) + after;
    assert Member(sep, key, v) + after == head + rest;
    SliceAt(head, rest);
    ParseIntText(v, after);
  }

  /** The first member is read, then the others from the text after it. */
  lemma ParseStep(keys: seq<string>, text: string, sep: string, v: int, after: string, vs: seq<int>, tail: string)
    requires keys != []
    requires ParseMember(text, sep, keys[0]) == Some((v, after))
    requires ParseMembers(keys[1..], after, ",") == Some((vs, tail))
    ensures ParseMembers(keys, text, sep) == Some(([v] + vs, tail))
  {
  }

  /** Reading written members gives back their values and the text after them. */
  lemma {:induction false} ParseMembersOfMembers(keys: seq<string>, vs: seq<int>, sep: string, tail: string)
    requires |keys| == |vs|
    requires tail == [] || !IsDigit(tail[0])
    ensures ParseMembers(keys, Members(keys, vs, sep) + tail, sep) == Some((vs, tail))
    decreases |keys|
  {
    if keys == [] {
      assert Members(keys, vs, sep) + tail == tail;
    } else {
      var first := Member(sep, keys[0], vs[0]);
      var after := Members(keys[1..], vs[1..], ",") + tail;
      MembersUnfold(keys, vs, sep, tail);
      MembersThenTail(keys[1..], vs[1..], tail);
      ReadMember(sep, keys[0], vs[0], after);
      ParseMembersOfMembers(keys[1..], vs[1..], ",", tail);
      ParseStep(keys, first + after, sep, vs[0], after, vs[1..], tail);
      assert [vs[0]] + vs[1..] == vs;
    }
  }

  lemma MembersUnfold(keys: seq<string>, vs: seq<int>, sep: string, tail: string)
    requires |keys| == |vs| && keys != []
    ensures Members(keys, vs, sep) + tail == Member(sep, keys[0], vs[0]) + (Members(keys[1..], vs[1..], ",") + tail)
  {
  }

  /** What follows a member is a comma, or the tail when no member is left. */
  lemma MembersThenTail(keys: seq<string>, vs: seq<int>, tail: string)
    requires |keys| == |vs|
    requires tail == [] || !IsDigit(tail[0])
    ensures var after := Members(keys, vs, ",") + tail; after == [] || !IsDigit(after[0])
  {
    if keys != [] {
      assert (Members(keys, vs, ",") + tail)[0] == ',';
    }
  }

  /** The round trip: parsing the attribute the engine wrote gives back the position. */
  lemma DecodeEncode(a: Anchors)
    ensures Decode(Encode(a)) == Some(a)
  {
    BracedMembers(Keys, ValuesOf(a));
    assert AnchorsFrom(ValuesOf(a)) == a;
  }

  /** The members between the braces read back, leaving the closing brace. */
  lemma BracedMembers(keys: seq<string>, vs: seq<int>)
    requires |keys| == |vs|
    ensures ParseMembers(keys, ("{" + Members(keys, vs, "") + "}")[1..], "") == Some((vs, "}"))
  {
    var body := Members(keys, vs, "") + "}";
    assert "{" + Members(keys, vs, "") + "}" == "{" + body;
    SliceAt("{", body);
    ParseMembersOfMembers(keys, vs, "", "}");
  }

  /** Distinct positions are written as distinct attribute texts. */
  lemma EncodeInjective(a: Anchors, b: Anchors)
    requires Encode(a) == Encode(b)
    ensures a == b
  {
    DecodeEncode(a);
    DecodeEncode(b);
  }
}
