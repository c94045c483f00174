/**
 * `generateSlug`, defined identically in src/pages/admin/products/new.tsx
 * and src/pages/admin/categories/new.tsx: lower-case the name, delete every
 * character that is neither a word character nor white space, then replace
 * each maximal run of white space by one hyphen. Nothing is trimmed.
 */
module Slug {
  import opened Strings

  /** The regular-expression class `\w`: ASCII letters, digits and `_`. */
  predicate IsWordChar(c: char) {
    ('a' <= c <= 'z') || ('A' <= c <= 'Z') || ('0' <= c <= '9') || c == '_'
  }

  /** The characters a slug can hold. */
  predicate IsSlugChar(c: char) {
    ('a' <= c <= 'z') || ('0' <= c <= '9') || c == '_' || c == '-'
  }

  /** No two hyphens in a row. */
  predicate NoDoubleHyphen(s: string) {
    forall i | 0 <= i < |s| - 1 :: !(s[i] == '-' && s[i + 1] == '-')
  }

  /** `replace(/[^\w\s]/gi, "")`: keep word characters and white space, in order. */
  function StripPunctuation(s: string): (r: string)
    ensures |r| <= |s|
    ensures forall c :: c in r ==> c in s && (IsWordChar(c) || IsJsSpace(c))
    ensures (forall c :: c in s ==> IsWordChar(c) || IsJsSpace(c)) ==> r == s
  {
    if s == [] then []
    else
      assert forall c :: c in s[1..] ==> c in s;
      assert s == [s[0]] + s[1..];
      (if IsWordChar(s[0]) || IsJsSpace(s[0]) then [s[0]] else []) + StripPunctuation(s[1..])
  }

  /** Stripping works character by character: it distributes over concatenation. */
  lemma {:induction false} StripPunctuationAppend(a: string, b: string)
    ensures StripPunctuation(a + b) == StripPunctuation(a) + StripPunctuation(b)
    decreases |a|
  {
    if a == [] {
      assert a + b == b;
    } else {
      assert (a + b)[0] == a[0] && (a + b)[1..] == a[1..] + b;
      StripPunctuationAppend(a[1..], b);
      var head := if IsWordChar(a[0]) || IsJsSpace(a[0]) then [a[0]] else [];
      AppendAssoc(head, StripPunctuation(a[1..]), StripPunctuation(b));
    }
  }

  /** A single character is kept exactly when it is a word character or white space. */
  lemma StripPunctuationChar(c: char)
    ensures StripPunctuation([c]) == if IsWordChar(c) || IsJsSpace(c) then [c] else []
  {
    assert [c][1..] == [];
  }

  /** `replace(/\s+/g, "-")`: each maximal run of white space becomes one hyphen. */
  function CollapseSpaces(s: string): (r: string)
    ensures |r| <= |s|
    ensures forall c :: c in r ==> c == '-' || (c in s && !IsJsSpace(c))
    decreases |s|
  {
    if s == [] then []
    else if IsJsSpace(s[0]) then ['-'] + CollapseSpaces(s[SkipSpaces(s, 0)..])
    else [s[0]] + CollapseSpaces(s[1..])
  }

  /** `generateSlug`. */
  function GenerateSlug(name: string): (slug: string)
    ensures |slug| <= |name|
    ensures forall c :: c in slug ==> IsSlugChar(c)
  {
    LowerHasNoCapitals(name);
    CollapseSpaces(StripPunctuation(ToLower(name)))
  }

  /** The characters of `s` other than hyphens, in order. */
  function RemoveHyphens(s: string): (r: string)
    ensures |r| <= |s|
    ensures '-' !in r
  {
    if s == [] then [] else (if s[0] == '-' then [] else [s[0]]) + RemoveHyphens(s[1..])
  }

  /** The characters of `s` other than white space, in order. */
  function RemoveSpaces(s: string): string
  {
    if s == [] then [] else (if IsJsSpace(s[0]) then [] else [s[0]]) + RemoveSpaces(s[1..])
  }

  /** The word characters of `s`, in order. */
  function WordChars(s: string): string
  {
    if s == [] then [] else (if IsWordChar(s[0]) then [s[0]] else []) + WordChars(s[1..])
  }

  /** Lower-casing leaves no ASCII capital letter behind. */
  lemma LowerHasNoCapitals(s: string)
    ensures forall c :: c in ToLower(s) ==> !('A' <= c <= 'Z')
  {
    forall c | c in ToLower(s)
      ensures !('A' <= c <= 'Z')
    {
      var k :| 0 <= k < |ToLower(s)| && ToLower(s)[k] == c;
      assert c == LowerChar(s[k]);
    }
  }

  /** The first character of a collapse: a hyphen for white space, else the character itself. */
  lemma CollapseHead(s: string)
    requires |s| > 0
    ensures |CollapseSpaces(s)| > 0
    ensures CollapseSpaces(s)[0] == (if IsJsSpace(s[0]) then '-' else s[0])
  {
  }

  /** Collapsing text without hyphens never puts two hyphens side by side. */
  lemma {:induction false} CollapseNoDoubleHyphen(s: string)
    requires '-' !in s
    ensures NoDoubleHyphen(CollapseSpaces(s))
    decreases |s|
  {
    if s != [] {
      if IsJsSpace(s[0]) {
        var t := s[SkipSpaces(s, 0)..];
        assert '-' !in t;
        CollapseNoDoubleHyphen(t);
        if t != [] {
          CollapseHead(t);
          assert t[0] in s;
        }
        assert CollapseSpaces(s) == ['-'] + CollapseSpaces(t);
      } else {
        var t := s[1..];
        assert '-' !in t;
        CollapseNoDoubleHyphen(t);
        assert CollapseSpaces(s) == [s[0]] + CollapseSpaces(t);
      }
    }
  }

  /** Removing hyphens distributes over concatenation. */
  lemma RemoveHyphensAppend(a: string, b: string)
    ensures RemoveHyphens(a + b) == RemoveHyphens(a) + RemoveHyphens(b)
  {
    if a == [] {
      assert a + b == b;
    } else {
      assert (a + b)[1..] == a[1..] + b;
      RemoveHyphensAppend(a[1..], b);
    }
  }

  /** Skipping leading white space changes nothing once white space is removed. */
  lemma {:induction false} RemoveSpacesSkip(s: string, i: nat)
    requires i <= |s|
    ensures RemoveSpaces(s[i..]) == RemoveSpaces(s[SkipSpaces(s, i)..])
    decreases |s| - i
  {
    if i < |s| && IsJsSpace(s[i]) {
      assert s[i..][1..] == s[i + 1..];
      RemoveSpacesSkip(s, i + 1);
    }
  }

  /** On text without hyphens, a collapse with its hyphens removed is the text with its white space removed. */
  lemma {:induction false} CollapseThenRemoveHyphens(s: string)
    requires '-' !in s
    ensures RemoveHyphens(CollapseSpaces(s)) == RemoveSpaces(s)
    decreases |s|
  {
    if s != [] {
      if IsJsSpace(s[0]) {
        var j := SkipSpaces(s, 0);
        var t := s[j..];
        assert '-' !in t;
        CollapseThenRemoveHyphens(t);
        RemoveHyphensAppend(['-'], CollapseSpaces(t));
        RemoveSpacesSkip(s, 1);
        assert SkipSpaces(s, 1) == j;
      } else {
        var t := s[1..];
        assert '-' !in t;
        CollapseThenRemoveHyphens(t);
        RemoveHyphensAppend([s[0]], CollapseSpaces(t));
      }
    }
  }

  /** Stripping punctuation and then white space leaves exactly the word characters. */
  lemma {:induction false} StripThenRemoveSpaces(s: string)
    ensures RemoveSpaces(StripPunctuation(s)) == WordChars(s)
    decreases |s|
  {
    if s != [] {
      StripThenRemoveSpaces(s[1..]);
      var head := if IsWordChar(s[0]) || IsJsSpace(s[0]) then [s[0]] else [];
      RemoveSpacesAppend(head, StripPunctuation(s[1..]));
    }
  }

  /** Removing white space distributes over concatenation. */
  lemma RemoveSpacesAppend(a: string, b: string)
    ensures RemoveSpaces(a + b) == RemoveSpaces(a) + RemoveSpaces(b)
  {
    if a == [] {
      assert a + b == b;
    } else {
      assert (a + b)[1..] == a[1..] + b;
      RemoveSpacesAppend(a[1..], b);
    }
  }

  /** Stripped text holds no hyphen: `-` is neither a word character nor white space. */
  lemma StripHasNoHyphen(s: string)
    ensures '-' !in StripPunctuation(s)
  {
  }

  /**
   * Content: with its hyphens removed, a slug is exactly the word characters
   * of the lower-cased name, in order.
   */
  lemma SlugContent(name: string)
    ensures RemoveHyphens(GenerateSlug(name)) == WordChars(ToLower(name))
  {
    var stripped := StripPunctuation(ToLower(name));
    StripHasNoHyphen(ToLower(name));
    CollapseThenRemoveHyphens(stripped);
    StripThenRemoveSpaces(ToLower(name));
  }

  /** A slug never holds two hyphens in a row. */
  lemma SlugHasNoDoubleHyphen(name: string)
    ensures NoDoubleHyphen(GenerateSlug(name))
  {
    StripHasNoHyphen(ToLower(name));
    CollapseNoDoubleHyphen(StripPunctuation(ToLower(name)));
  }

  /** Leading white space is not trimmed: it becomes a leading hyphen. */
  lemma LeadingSpaceGivesHyphen(name: string)
    requires |name| > 0 && IsJsSpace(name[0])
    ensures |GenerateSlug(name)| > 0 && GenerateSlug(name)[0] == '-'
  {
    var lowered := ToLower(name);
    assert lowered[0] == name[0];
    var stripped := StripPunctuation(lowered);
    assert stripped == [lowered[0]] + StripPunctuation(lowered[1..]);
    CollapseHead(stripped);
  }

  /** A collapse of text ending in white space ends in a hyphen. */
  lemma {:induction false} CollapseTrailingSpace(s: string)
    requires |s| > 0 && IsJsSpace(s[|s| - 1])
    ensures |CollapseSpaces(s)| > 0 && CollapseSpaces(s)[|CollapseSpaces(s)| - 1] == '-'
    decreases |s|
  {
    if IsJsSpace(s[0]) {
      var j := SkipSpaces(s, 0);
      var t := s[j..];
      if t != [] {
        assert t[|t| - 1] == s[|s| - 1];
        CollapseTrailingSpace(t);
      }
    } else {
      var t := s[1..];
      assert t[|t| - 1] == s[|s| - 1];
      CollapseTrailingSpace(t);
    }
  }

  /** Stripping keeps a trailing white-space character in last place. */
  lemma {:induction false} StripKeepsTrailingSpace(s: string)
    requires |s| > 0 && IsJsSpace(s[|s| - 1])
    ensures |StripPunctuation(s)| > 0 && IsJsSpace(StripPunctuation(s)[|StripPunctuation(s)| - 1])
    decreases |s|
  {
    if |s| > 1 {
      var t := s[1..];
      assert t[|t| - 1] == s[|s| - 1];
      StripKeepsTrailingSpace(t);
    }
  }

  /** Trailing white space is not trimmed: it becomes a trailing hyphen. */
  lemma TrailingSpaceGivesHyphen(name: string)
    requires |name| > 0 && IsJsSpace(name[|name| - 1])
    ensures |GenerateSlug(name)| > 0 && GenerateSlug(name)[|GenerateSlug(name)| - 1] == '-'
  {
    var lowered := ToLower(name);
    assert lowered[|lowered| - 1] == name[|name| - 1];
    StripKeepsTrailingSpace(lowered);
    CollapseTrailingSpace(StripPunctuation(lowered));
  }

  /** Lower-casing changes nothing in text without capitals. */
  lemma LowerWithoutCapitals(s: string)
    requires forall c :: c in s ==> !('A' <= c <= 'Z')
    ensures ToLower(s) == s
  {
    forall k | 0 <= k < |s|
      ensures ToLower(s)[k] == s[k]
    {
      assert s[k] in s;
    }
  }

  /** On slug characters, stripping punctuation only removes the hyphens. */
  lemma {:induction false} StripSlugChars(s: string)
    requires forall c :: c in s ==> IsSlugChar(c)
    ensures StripPunctuation(s) == RemoveHyphens(s)
    decreases |s|
  {
    if s != [] {
      assert s[0] in s;
      assert forall c :: c in s[1..] ==> c in s;
      StripSlugChars(s[1..]);
    }
  }

  /** Text without white space collapses to itself. */
  lemma {:induction false} CollapseWithoutSpaces(s: string)
    requires forall c :: c in s ==> !IsJsSpace(c)
    ensures CollapseSpaces(s) == s
    decreases |s|
  {
    if s != [] {
      assert s[0] in s;
      assert forall c :: c in s[1..] ==> c in s;
      CollapseWithoutSpaces(s[1..]);
    }
  }

  /** True when `s` is empty or ends in a character other than white space. */
  predicate EndsOutsideSpace(s: string) {
    s == [] || !IsJsSpace(s[|s| - 1])
  }

  /** True when `s` is empty or starts with a character other than white space. */
  predicate StartsOutsideSpace(s: string) {
    s == [] || !IsJsSpace(s[0])
  }

  /** A run of white space followed by anything else ends exactly where the run does. */
  lemma SkipSpacesAtRunEnd(s: string, j: nat)
    requires j <= |s|
    requires forall k :: 0 <= k < j ==> IsJsSpace(s[k])
    requires j < |s| ==> !IsJsSpace(s[j])
    ensures SkipSpaces(s, 0) == j
  {
  }

  /** A whole run of white space becomes one hyphen in front of what follows it. */
  lemma CollapseRun(w: string, b: string)
    requires |w| > 0 && forall k :: 0 <= k < |w| ==> IsJsSpace(w[k])
    requires StartsOutsideSpace(b)
    ensures CollapseSpaces(w + b) == "-" + CollapseSpaces(b)
  {
    var s := w + b;
    assert forall k :: 0 <= k < |w| ==> s[k] == w[k];
    assert |w| < |s| ==> s[|w|] == b[0];
    SkipSpacesAtRunEnd(s, |w|);
    assert s[|w|..] == b;
  }

  /** Collapsing distributes over a cut that does not split a run of white space. */
  lemma {:induction false} CollapseAppend(a: string, b: string)
    requires EndsOutsideSpace(a)
    ensures CollapseSpaces(a + b) == CollapseSpaces(a) + CollapseSpaces(b)
    decreases |a|
  {
    if a == [] {
      assert a + b == b;
    } else {
      var j := StepLength(a);
      var a' := a[j..];
      CollapseStep(a, b);
      CollapseAppend(a', b);
      AppendAssoc(StepHead(a), CollapseSpaces(a'), CollapseSpaces(b));
    }
  }

  /** Concatenation regroups freely. */
  lemma AppendAssoc(x: string, y: string, z: string)
    ensures x + (y + z) == (x + y) + z
  {
  }

  /** How many characters of `a` the first step of a collapse consumes. */
  function StepLength(a: string): nat
    requires a != []
  {
    if IsJsSpace(a[0]) then SkipSpaces(a, 0) else 1
  }

  /** What the first step of a collapse of `a` emits. */
  function StepHead(a: string): string
    requires a != []
  {
    if IsJsSpace(a[0]) then "-" else [a[0]]
  }

  /** The first step of collapsing `a + b` consumes only characters of `a` when `a` ends outside white space. */
  lemma CollapseStep(a: string, b: string)
    requires a != [] && EndsOutsideSpace(a)
    ensures 0 < StepLength(a) <= |a| && EndsOutsideSpace(a[StepLength(a)..])
    ensures CollapseSpaces(a) == StepHead(a) + CollapseSpaces(a[StepLength(a)..])
    ensures CollapseSpaces(a + b) == StepHead(a) + CollapseSpaces(a[StepLength(a)..] + b)
  {
    var j := StepLength(a);
    if IsJsSpace(a[0]) {
      CollapseSpaceStep(a, b);
    } else {
      var s := a + b;
      assert s[0] == a[0];
      assert s[1..] == a[1..] + b;
    }
    assert a[j..] != [] ==> a[j..][|a[j..]| - 1] == a[|a| - 1];
  }

  /** `CollapseStep` when `a` starts with white space: the run ends inside `a`. */
  lemma CollapseSpaceStep(a: string, b: string)
    requires a != [] && EndsOutsideSpace(a) && IsJsSpace(a[0])
    ensures SkipSpaces(a, 0) < |a|
    ensures CollapseSpaces(a + b) == ['-'] + CollapseSpaces(a[SkipSpaces(a, 0)..] + b)
  {
    var s := a + b;
    var j := SkipSpaces(a, 0);
    assert j < |a|;
    forall k | 0 <= k < j
      ensures IsJsSpace(s[k])
    {
      assert s[k] == a[k];
    }
    assert s[j] == a[j];
    SkipSpacesAtRunEnd(s, j);
    assert s[0] == a[0];
    assert s[j..] == a[j..] + b;
  }

  /**
   * Where the hyphens go: a maximal run of white space between `a` and `b`
   * becomes exactly one hyphen between their collapses. With
   * `CollapseWithoutSpaces`, this fixes the result for every input.
   */
  lemma CollapseSplitsAtRun(a: string, w: string, b: string)
    requires EndsOutsideSpace(a) && StartsOutsideSpace(b)
    requires |w| > 0 && forall k :: 0 <= k < |w| ==> IsJsSpace(w[k])
    ensures CollapseSpaces(a + w + b) == CollapseSpaces(a) + "-" + CollapseSpaces(b)
  {
    var rest := w + b;
    assert a + w + b == a + rest;
    CollapseAppend(a, rest);
    CollapseRun(w, b);
    assert CollapseSpaces(a + rest) == CollapseSpaces(a) + ("-" + CollapseSpaces(b));
  }

  /** Lower-casing works character by character: it distributes over concatenation. */
  lemma ToLowerAppend(a: string, b: string)
    ensures ToLower(a + b) == ToLower(a) + ToLower(b)
  {
    var l := ToLower(a + b);
    forall k | 0 <= k < |l|
      ensures l[k] == (ToLower(a) + ToLower(b))[k]
    {
      if k < |a| {
        assert (a + b)[k] == a[k];
      } else {
        assert (a + b)[k] == b[k - |a|];
      }
    }
  }

  /** A word character stays a word character, and a letter is lower-cased. */
  lemma LowerWordChar(c: char)
    requires IsWordChar(c)
    ensures IsWordChar(LowerChar(c)) && !IsJsSpace(LowerChar(c))
  {
  }

  /** Stripping text that ends in a word character leaves it ending outside white space. */
  lemma StripKeepsLastWord(x: string)
    requires |x| > 0 && IsWordChar(x[|x| - 1])
    ensures EndsOutsideSpace(StripPunctuation(x))
  {
    var n := |x| - 1;
    assert x == x[..n] + [x[n]];
    StripPunctuationAppend(x[..n], [x[n]]);
    StripPunctuationChar(x[n]);
  }

  /** Stripping text that starts with a word character leaves it starting outside white space. */
  lemma StripKeepsFirstWord(x: string)
    requires |x| > 0 && IsWordChar(x[0])
    ensures StartsOutsideSpace(StripPunctuation(x))
  {
  }

  /** Lower-casing and stripping pass a run of white space through unchanged. */
  lemma PrepareSplitsAtRun(a: string, w: string, b: string)
    requires forall k :: 0 <= k < |w| ==> IsJsSpace(w[k])
    ensures StripPunctuation(ToLower(a + w + b)) ==
              StripPunctuation(ToLower(a)) + w + StripPunctuation(ToLower(b))
  {
    var la, lb := ToLower(a), ToLower(b);
    ToLowerAppend(a + w, b);
    ToLowerAppend(a, w);
    assert forall c :: c in w ==> IsJsSpace(c) && !('A' <= c <= 'Z');
    LowerWithoutCapitals(w);
    assert ToLower(a + w + b) == la + w + lb;
    StripPunctuationAppend(la + w, lb);
    StripPunctuationAppend(la, w);
  }

  /**
   * Where `generateSlug` puts its hyphens: a run of white space between a
   * word character ending `a` and one starting `b` becomes exactly one
   * hyphen between the slugs of the two sides.
   */
  lemma SlugSplitsAtRun(a: string, w: string, b: string)
    requires |a| > 0 && IsWordChar(a[|a| - 1]) && |b| > 0 && IsWordChar(b[0])
    requires |w| > 0 && forall k :: 0 <= k < |w| ==> IsJsSpace(w[k])
    ensures GenerateSlug(a + w + b) == GenerateSlug(a) + "-" + GenerateSlug(b)
  {
    var la, lb := ToLower(a), ToLower(b);
    LowerWordChar(a[|a| - 1]);
    LowerWordChar(b[0]);
    assert IsWordChar(la[|la| - 1]) && IsWordChar(lb[0]);
    StripKeepsLastWord(la);
    StripKeepsFirstWord(lb);
    var sa, sb := StripPunctuation(la), StripPunctuation(lb);
    PrepareSplitsAtRun(a, w, b);
    CollapseSplitsAtRun(sa, w, sb);
    assert GenerateSlug(a + w + b) == CollapseSpaces(sa + w + sb);
  }

  /** Removing hyphens changes the text exactly when it holds one. */
  lemma {:induction false} RemoveHyphensIdentity(s: string)
    ensures RemoveHyphens(s) == s <==> '-' !in s
    decreases |s|
  {
    if s != [] {
      RemoveHyphensIdentity(s[1..]);
      if s[0] == '-' {
        assert |RemoveHyphens(s)| < |s|;
      }
    }
  }

  /**
   * Slugging a slug deletes its hyphens, so `generateSlug` is idempotent
   * exactly on slugs without a hyphen.
   */
  lemma ReslugDeletesHyphens(name: string)
    ensures GenerateSlug(GenerateSlug(name)) == RemoveHyphens(GenerateSlug(name))
    ensures GenerateSlug(GenerateSlug(name)) == GenerateSlug(name) <==> '-' !in GenerateSlug(name)
  {
    var slug := GenerateSlug(name);
    LowerWithoutCapitals(slug);
    StripSlugChars(slug);
    CollapseWithoutSpaces(RemoveHyphens(slug));
    RemoveHyphensIdentity(slug);
  }

  /** "a b" keeps its space when stripped and collapses it to a hyphen. */
  lemma SpacedExampleSteps()
    ensures StripPunctuation("a b") == "a b"
    ensures CollapseSpaces("a b") == "a-b"
  {
    assert " b"[1..] == "b" && "a b"[1..] == " b";
    assert StripPunctuation("b") == "b";
    assert StripPunctuation(" b") == " b";
    assert SkipSpaces(" b", 1) == 1;
    assert SkipSpaces(" b", 0) == 1;
    assert CollapseSpaces("b") == "b";
    assert CollapseSpaces(" b") == "-b";
  }

  /** "a-b" loses its hyphen when stripped. */
  lemma HyphenatedExampleStrip()
    ensures StripPunctuation("a-b") == "ab"
  {
    assert "-b"[1..] == "b" && "a-b"[1..] == "-b";
    assert !IsWordChar('-') && !IsJsSpace('-');
    assert StripPunctuation("b") == "b";
    assert StripPunctuation("-b") == "b";
  }

  /** "ab" has no white space to collapse. */
  lemma HyphenatedExampleCollapse()
    ensures CollapseSpaces("ab") == "ab"
  {
    assert "ab"[1..] == "b";
    assert CollapseSpaces("b") == "b";
  }

  /** A concrete instance: "a b" slugs to "a-b", which slugs to "ab". */
  lemma NotIdempotentExample()
    ensures GenerateSlug("a b") == "a-b"
    ensures GenerateSlug("a-b") == "ab"
  {
    assert ToLower("a b") == "a b";
    assert ToLower("a-b") == "a-b";
    SpacedExampleSteps();
    HyphenatedExampleStrip();
    HyphenatedExampleCollapse();
  }

  /**
   * `handleNameBlur`, the same on both admin pages: fill an empty slug from
   * a non-empty name; leave a slug the user typed alone.
   */
  function SlugOnBlur(name: string, slug: string): (r: string)
    ensures slug != "" ==> r == slug
    ensures name == "" ==> r == slug
    ensures name != "" && slug == "" ==> r == GenerateSlug(name)
  {
    if name != "" && slug == "" then GenerateSlug(name) else slug
  }

  /** Blurring twice is blurring once, whether or not the first blur produced a non-empty slug. */
  lemma SlugOnBlurIdempotent(name: string, slug: string)
    ensures SlugOnBlur(name, SlugOnBlur(name, slug)) == SlugOnBlur(name, slug)
  {
  }

  /** A name holding a letter, digit or underscore gives a non-empty slug on blur. */
  lemma BlurFillsSlug(name: string)
    requires WordChars(ToLower(name)) != []
    ensures SlugOnBlur(name, "") != ""
  {
    SlugContent(name);
  }
}
