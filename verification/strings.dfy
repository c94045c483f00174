/** Optional values, standing for the source's `null` / `undefined`. */
module Options {

  datatype Option<+T> = None | Some(value: T) {

    /** The value, or `default` when there is none. */
    function GetOr(default: T): T {
      match this
      case Some(v) => v
      case None => default
    }
  }
}

/**
 * The handful of JavaScript string operations the storefront relies on:
 * `includes`, `startsWith`, `endsWith`, `trim`, `split` / `join` on one
 * character, ASCII `toLowerCase`, and the `\s` character class.
 */
module Strings {

  /**
   * The keys every object literal inherits from `Object.prototype`: the
   * methods of section 20.1.3 of ECMAScript 2024 and the legacy accessors
   * of its Annex B.2.2. Their values are functions, and `__proto__` gives
   * `Object.prototype` itself; all of them are truthy, and none of them
   * has a `filter` method.
   */
  const PrototypeKeys: set<string> := {
    "constructor", "hasOwnProperty", "isPrototypeOf", "propertyIsEnumerable",
    "toLocaleString", "toString", "valueOf", "__proto__",
    "__defineGetter__", "__defineSetter__", "__lookupGetter__", "__lookupSetter__"}

  /** True when `sub` occurs in `s` starting at index `i`. */
  predicate OccursAt(s: string, sub: string, i: nat) {
    i + |sub| <= |s| && s[i..i + |sub|] == sub
  }

  /** `s.includes(sub)`: a case-sensitive substring test. */
  predicate Contains(s: string, sub: string) {
    exists i: nat | i <= |s| :: OccursAt(s, sub, i)
  }

  /** `s.startsWith(p)`. */
  predicate StartsWith(s: string, p: string) {
    OccursAt(s, p, 0)
  }

  /** `s.endsWith(p)`. */
  predicate EndsWith(s: string, p: string) {
    |p| <= |s| && s[|s| - |p|..] == p
  }

  /**
   * The characters matched by the regular-expression class `\s` and removed
   * by `trim`: the white-space and line-terminator code points of
   * ECMAScript.
   */
  predicate IsJsSpace(c: char) {
    || c == ' ' || c == '\t' || c == '\n' || c == '\r'
    || c == '\U{000B}' || c == '\U{000C}' || c == '\U{00A0}' || c == '\U{1680}'
    || ('\U{2000}' <= c <= '\U{200A}')
    || c == '\U{2028}' || c == '\U{2029}' || c == '\U{202F}' || c == '\U{205F}'
    || c == '\U{3000}' || c == '\U{FEFF}'
  }

  /** The index of the first non-space character at or after `i`. */
  function SkipSpaces(s: string, i: nat): (j: nat)
    requires i <= |s|
    ensures i <= j <= |s|
    ensures forall k :: i <= k < j ==> IsJsSpace(s[k])
    ensures j < |s| ==> !IsJsSpace(s[j])
    decreases |s| - i
  {
    if i < |s| && IsJsSpace(s[i]) then SkipSpaces(s, i + 1) else i
  }

  /** `s.trimStart()`. */
  function TrimStart(s: string): (r: string)
    ensures r == s[SkipSpaces(s, 0)..]
    ensures |r| > 0 ==> !IsJsSpace(r[0])
  {
    s[SkipSpaces(s, 0)..]
  }

  /** `s.trimEnd()`. */
  function TrimEnd(s: string): (r: string)
    ensures |r| <= |s| && r == s[..|r|]
    ensures forall k :: |r| <= k < |s| ==> IsJsSpace(s[k])
    ensures |r| > 0 ==> !IsJsSpace(r[|r| - 1])
    decreases |s|
  {
    if |s| > 0 && IsJsSpace(s[|s| - 1]) then TrimEnd(s[..|s| - 1]) else s
  }

  /** `s.trim()`: both ends stripped of `\s` characters. */
  function Trim(s: string): (r: string)
  {
    TrimEnd(TrimStart(s))
  }

  /** No white space at either end. */
  predicate IsTrimmed(s: string) {
    |s| > 0 ==> !IsJsSpace(s[0]) && !IsJsSpace(s[|s| - 1])
  }

  /** `trim` leaves an infix of its input with no white space at either end. */
  lemma TrimIsTrimmedInfix(s: string)
    ensures IsTrimmed(Trim(s))
    ensures exists i: nat, j: nat | i <= j <= |s| :: Trim(s) == s[i..j]
  {
    var t := TrimStart(s);
    var r := TrimEnd(t);
    var i := SkipSpaces(s, 0);
    assert r == t[..|r|];
    assert r == s[i..i + |r|];
    if |r| > 0 {
      assert r[0] == t[0];
    }
  }

  /** `trim` changes nothing on text that already has no white space at either end. */
  lemma TrimOfTrimmed(s: string)
    requires IsTrimmed(s)
    ensures Trim(s) == s
  {
    assert SkipSpaces(s, 0) == 0;
    assert TrimStart(s) == s;
  }

  /** The index of the first `c` in `s`. */
  function IndexOf(s: string, c: char): (i: nat)
    requires c in s
    ensures i < |s| && s[i] == c
    ensures c !in s[..i]
  {
    if s[0] == c then 0 else 1 + IndexOf(s[1..], c)
  }

  /**
   * `s.split(sep)` for a one-character separator: the text between
   * consecutive separators, so there is always at least one part.
   */
  function Split(s: string, sep: char): (parts: seq<string>)
    ensures |parts| >= 1
    decreases |s|
  {
    if sep !in s then [s]
    else
      var i := IndexOf(s, sep);
      [s[..i]] + Split(s[i + 1..], sep)
  }

  /** `parts.join(sep)`. */
  function Join(parts: seq<string>, sep: char): string
  {
    if |parts| == 0 then ""
    else if |parts| == 1 then parts[0]
    else parts[0] + [sep] + Join(parts[1..], sep)
  }

  /** No part of a split holds the separator. */
  lemma {:induction false} SplitPartsAreSeparatorFree(s: string, sep: char)
    ensures forall k :: 0 <= k < |Split(s, sep)| ==> sep !in Split(s, sep)[k]
    decreases |s|
  {
    if sep in s {
      var i := IndexOf(s, sep);
      SplitPartsAreSeparatorFree(s[i + 1..], sep);
    }
  }

  /** Joining the parts of a split with the same separator gives back the text. */
  lemma {:induction false} JoinSplit(s: string, sep: char)
    ensures Join(Split(s, sep), sep) == s
    decreases |s|
  {
    if sep in s {
      var i := IndexOf(s, sep);
      JoinSplit(s[i + 1..], sep);
      assert s == s[..i] + [sep] + s[i + 1..];
    }
  }

  /** The first part of a split is the text before the first separator. */
  lemma SplitHead(s: string, sep: char)
    ensures sep in s ==> Split(s, sep)[0] == s[..IndexOf(s, sep)]
    ensures sep !in s ==> Split(s, sep) == [s]
  {
  }

  /** The parts after the first are the split of the text after the first separator. */
  lemma SplitTail(s: string, sep: char)
    requires sep in s
    ensures Split(s, sep)[1..] == Split(s[IndexOf(s, sep) + 1..], sep)
  {
  }

  /** A text with no separator in it splits into exactly one part. */
  lemma SplitWithoutSeparator(s: string, sep: char)
    requires sep !in s
    ensures Split(s, sep) == [s]
  {
  }

  /** ASCII `toLowerCase` of one character. */
  function LowerChar(c: char): (d: char)
  {
    if 'A' <= c <= 'Z' then (c as int - 'A' as int + 'a' as int) as char else c
  }

  /** `toLowerCase`, restricted to the ASCII letters. */
  function ToLower(s: string): (r: string)
    ensures |r| == |s|
    ensures forall k :: 0 <= k < |s| ==> r[k] == LowerChar(s[k])
  {
    seq(|s|, k requires 0 <= k < |s| => LowerChar(s[k]))
  }

  /** Substring containment is transitive. */
  lemma ContainsTransitive(s: string, mid: string, sub: string)
    requires Contains(s, mid) && Contains(mid, sub)
    ensures Contains(s, sub)
  {
    var i: nat :| i <= |s| && OccursAt(s, mid, i);
    var j: nat :| j <= |mid| && OccursAt(mid, sub, j);
    forall t | 0 <= t < |sub|
      ensures s[i + j..i + j + |sub|][t] == sub[t]
    {
      assert s[i..i + |mid|][j + t] == mid[j + t];
      assert mid[j..j + |sub|][t] == sub[t];
    }
    assert s[i + j..i + j + |sub|] == sub;
    assert OccursAt(s, sub, i + j);
  }

  /** Every character of a contained text is a character of the containing one. */
  lemma ContainedCharsOccur(s: string, sub: string)
    ensures Contains(s, sub) ==> forall c :: c in sub ==> c in s
  {
    if Contains(s, sub) {
      var i: nat :| i <= |s| && OccursAt(s, sub, i);
      forall c | c in sub
        ensures c in s
      {
        var k :| 0 <= k < |sub| && sub[k] == c;
        assert s[i..i + |sub|][k] == s[i + k];
      }
    }
  }

  /** A character of `sub` that `s` lacks rules out an occurrence of `sub` in `s`. */
  lemma NotContainsForMissingChar(s: string, sub: string, c: char)
    requires c in sub && c !in s
    ensures !Contains(s, sub)
  {
    ContainedCharsOccur(s, sub);
  }

  /** A text is found in itself. */
  lemma ContainsSelf(s: string)
    ensures Contains(s, s)
  {
    assert OccursAt(s, s, 0);
  }

  /** An occurrence at a known index witnesses containment. */
  lemma ContainsAt(s: string, sub: string, i: nat)
    requires OccursAt(s, sub, i)
    ensures Contains(s, sub)
  {
  }

  /** An occurrence survives putting text before or after. */
  lemma ContainsInConcat(a: string, b: string, sub: string)
    requires Contains(a, sub)
    ensures Contains(a + b, sub) && Contains(b + a, sub)
  {
    var i: nat :| i <= |a| && OccursAt(a, sub, i);
    assert (a + b)[i..i + |sub|] == a[i..i + |sub|];
    assert OccursAt(a + b, sub, i);
    assert (b + a)[|b| + i..|b| + i + |sub|] == a[i..i + |sub|];
    assert OccursAt(b + a, sub, |b| + i);
  }

  /** A text contains another of the same length only when the two are equal. */
  lemma ContainsSameLength(s: string, sub: string)
    requires |s| == |sub|
    ensures Contains(s, sub) <==> s == sub
  {
    if Contains(s, sub) {
      var i: nat :| i <= |s| && OccursAt(s, sub, i);
      assert i == 0;
    } else {
      assert !OccursAt(s, sub, 0);
    }
  }
}
