/**
 * The text rewriting of `fixRouterImports` (scripts/fix-router-imports.js).
 * Each of its three regular expressions is a matcher that says how long a
 * match starting at the front of a text is; `ReplaceAll` is `String.replace`
 * with the `g` flag: matches are found left to right, never overlapping,
 * and the scan resumes after each one. None of the patterns can match the
 * empty text, and every `\s` run in them is followed by a character that is
 * not white space, so greedy matching needs no backtracking.
 */
module RouterRewrite {
  import opened Options
  import opened Strings

  /** The three patterns, in the order they are applied. */
  datatype Pattern =
    | FromNavigation      // from\s+['"]next\/navigation['"]
    | UseRouterCall       // useRouter\s*\(\s*\)
    | UseRouterImport     // import\s*{\s*useRouter\s*}\s*from\s*['"]next\/navigation['"]

  const NavigationModule: string := "next/navigation"

  /** The text each pattern's matches are replaced with. */
  function Replacement(p: Pattern): (rep: string)
    ensures |rep| >= 2
  {
    match p
    case FromNavigation => RouterFrom
    case UseRouterCall => RouterCall
    case UseRouterImport => RouterImport
  }

  /** The literal word every match of a pattern starts with. */
  function Keyword(p: Pattern): string {
    match p
    case FromNavigation => "from"
    case UseRouterCall => "useRouter"
    case UseRouterImport => "import"
  }

  predicate IsQuote(c: char) {
    c == '\'' || c == '"'
  }

  /** `['"]next\/navigation['"]` at index `j`. */
  predicate QuotedNavigationAt(s: string, j: nat) {
    j + 17 <= |s| && IsQuote(s[j]) && OccursAt(s, NavigationModule, j + 1) && IsQuote(s[j + 16])
  }

  function MatchFrom(s: string): Option<nat> {
    if !StartsWith(s, "from") then None
    else
      var j := SkipSpaces(s, 4);
      if j > 4 && QuotedNavigationAt(s, j) then Some(j + 17) else None
  }

  function MatchCall(s: string): Option<nat> {
    if !StartsWith(s, "useRouter") then None
    else
      var j := SkipSpaces(s, 9);
      if !(j < |s| && s[j] == '(') then None
      else
        var k := SkipSpaces(s, j + 1);
        if k < |s| && s[k] == ')' then Some(k + 1) else None
  }

  /** `import\s*` and then the rest of the import pattern. */
  function MatchImport(s: string): Option<nat> {
    if StartsWith(s, "import") then ImportBrace(s, SkipSpaces(s, 6)) else None
  }

  /** `{\s*` at `a`, then the name. */
  function ImportBrace(s: string, a: nat): (r: Option<nat>)
    requires a <= |s|
    ensures r.Some? ==> a < r.value <= |s|
  {
    if a < |s| && s[a] == '{' then ImportName(s, SkipSpaces(s, a + 1)) else None
  }

  /** `useRouter\s*` at `b`, then the closing brace. */
  function ImportName(s: string, b: nat): (r: Option<nat>)
    requires b <= |s|
    ensures r.Some? ==> b < r.value <= |s|
  {
    if OccursAt(s, "useRouter", b) then ImportClose(s, SkipSpaces(s, b + 9)) else None
  }

  /** `}\s*` at `c`, then the module. */
  function ImportClose(s: string, c: nat): (r: Option<nat>)
    requires c <= |s|
    ensures r.Some? ==> c < r.value <= |s|
  {
    if c < |s| && s[c] == '}' then ImportFrom(s, SkipSpaces(s, c + 1)) else None
  }

  /** `from\s*['"]next\/navigation['"]` at `d`. */
  function ImportFrom(s: string, d: nat): (r: Option<nat>)
    requires d <= |s|
    ensures r.Some? ==> d < r.value <= |s|
  {
    if !OccursAt(s, "from", d) then None
    else
      var e := SkipSpaces(s, d + 4);
      if QuotedNavigationAt(s, e) then Some(e + 17) else None
  }

  /** The length of the match of `p` at the front of `s`, if there is one. */
  function Match(p: Pattern, s: string): (r: Option<nat>)
    ensures r.Some? ==> 0 < r.value <= |s| && StartsWith(s, Keyword(p))
  {
    match p
    case FromNavigation => MatchFrom(s)
    case UseRouterCall => MatchCall(s)
    case UseRouterImport => MatchImport(s)
  }

  /** `s.replace(/p/g, Replacement(p))`. */
  function ReplaceAll(s: string, p: Pattern): string
    decreases |s|
  {
    if s == [] then []
    else
      match Match(p, s)
      case Some(n) => Replacement(p) + ReplaceAll(s[n..], p)
      case None => [s[0]] + ReplaceAll(s[1..], p)
  }

  /** No match of `q` starts anywhere in `t`. */
  predicate NoMatch(t: string, q: Pattern) {
    forall i :: 0 <= i <= |t| ==> Match(q, t[i..]).None?
  }

  /** Every `useRouter\s*\(\s*\)` in `t` is exactly `useRouter()`. */
  predicate Normalised(t: string) {
    forall i :: 0 <= i <= |t| && Match(UseRouterCall, t[i..]).Some? ==> Match(UseRouterCall, t[i..]).value == 11
  }

  /** A call match of length 11 is the text `useRouter()` itself. */
  lemma ShortCallIsCanonical(s: string)
    requires Match(UseRouterCall, s) == Some(11)
    ensures s[..11] == "useRouter()"
  {
    assert s[..9] == "useRouter";
    assert SkipSpaces(s, 9) == 9;
    assert SkipSpaces(s, 10) == 10;
    assert s[..11] == s[..9] + [s[9], s[10]];
  }

  // ---------------------------------------------------------------------
  // Matches depend only on the text they cover.
  // ---------------------------------------------------------------------

  /** White-space skipping that stops inside a shared prefix gives the same index on both texts. */
  lemma {:induction false} SkipSpacesLocal(x: string, y: string, i: nat, n: nat)
    requires i <= n <= |x| && n <= |y| && x[..n] == y[..n] && SkipSpaces(x, i) < n
    ensures SkipSpaces(y, i) == SkipSpaces(x, i)
    decreases n - i
  {
    assert x[i] == x[..n][i] == y[..n][i] == y[i];
    if IsJsSpace(x[i]) {
      SkipSpacesLocal(x, y, i + 1, n);
    }
  }

  /** A literal inside a shared prefix occurs in both texts alike. */
  lemma OccursLocal(x: string, y: string, sub: string, i: nat, n: nat)
    requires i + |sub| <= n <= |x| && n <= |y| && x[..n] == y[..n]
    ensures OccursAt(x, sub, i) == OccursAt(y, sub, i)
  {
    assert x[i..i + |sub|] == x[..n][i..i + |sub|];
    assert y[i..i + |sub|] == y[..n][i..i + |sub|];
  }

  lemma QuotedLocal(x: string, y: string, j: nat, n: nat)
    requires j + 17 <= n <= |x| && n <= |y| && x[..n] == y[..n]
    ensures QuotedNavigationAt(x, j) == QuotedNavigationAt(y, j)
  {
    OccursLocal(x, y, NavigationModule, j + 1, n);
    assert x[j] == x[..n][j] && y[j] == y[..n][j];
    assert x[j + 16] == x[..n][j + 16] && y[j + 16] == y[..n][j + 16];
  }

  lemma FromLocal(x: string, y: string, n: nat)
    requires Match(FromNavigation, x) == Some(n) && n <= |y| && x[..n] == y[..n]
    ensures Match(FromNavigation, y) == Some(n)
  {
    OccursLocal(x, y, "from", 0, n);
    SkipSpacesLocal(x, y, 4, n);
    QuotedLocal(x, y, SkipSpaces(x, 4), n);
  }

  lemma CallLocal(x: string, y: string, n: nat)
    requires Match(UseRouterCall, x) == Some(n) && n <= |y| && x[..n] == y[..n]
    ensures Match(UseRouterCall, y) == Some(n)
  {
    OccursLocal(x, y, "useRouter", 0, n);
    var j := SkipSpaces(x, 9);
    SkipSpacesLocal(x, y, 9, n);
    assert x[j] == x[..n][j] == y[..n][j] == y[j];
    var k := SkipSpaces(x, j + 1);
    SkipSpacesLocal(x, y, j + 1, n);
    assert x[k] == x[..n][k] == y[..n][k] == y[k];
  }

  // ---------------------------------------------------------------------
  // Where a replacement can start.
  // ---------------------------------------------------------------------

  /** A replacement text `rep` may start at index `k` of `w`, as far as `w` shows. */
  predicate StartsAt(w: string, rep: string, k: nat)
    requires |rep| >= 2 && k < |w|
  {
    w[k] == rep[0] && (k + 1 == |w| || w[k + 1] == rep[1])
  }

  /** No replacement text `rep` can start inside `w`: its first two characters never appear there in a row. */
  predicate NoStartOf(w: string, rep: string)
    requires |rep| >= 2
  {
    forall k: nat :: k < |w| ==> !StartsAt(w, rep, k)
  }

  /** Dropping the first character keeps a text free of starts. */
  lemma NoStartOfTail(w: string, rep: string)
    requires |rep| >= 2 && w != [] && NoStartOf(w, rep)
    ensures NoStartOf(w[1..], rep)
  {
    forall k: nat | k < |w[1..]|
      ensures !StartsAt(w[1..], rep, k)
    {
      assert !StartsAt(w, rep, k + 1);
      assert w[1..][k] == w[k + 1];
      if k + 1 < |w[1..]| {
        assert w[1..][k + 1] == w[k + 2];
      }
    }
  }

  /** A pass that matches at the front starts its output with the replacement. */
  lemma ReplacedFront(x: string, p: Pattern)
    requires x != []
    ensures Match(p, x).Some? ==> |ReplaceAll(x, p)| >= 2 && ReplaceAll(x, p)[0] == Replacement(p)[0] && ReplaceAll(x, p)[1] == Replacement(p)[1]
  {
    if Match(p, x).Some? {
      assert ReplaceAll(x, p) == Replacement(p) + ReplaceAll(x[Match(p, x).value..], p);
    }
  }

  lemma NoStartAtFront(w: string, rep: string)
    requires |rep| >= 2 && w != [] && NoStartOf(w, rep)
    ensures w[0] != rep[0] || (|w| > 1 && w[1] != rep[1])
  {
    assert !StartsAt(w, rep, 0);
  }

  /** Output text in which no replacement starts was copied from the input unchanged. */
  lemma {:induction false} CopiedPrefix(x: string, p: Pattern, n: nat)
    requires n <= |ReplaceAll(x, p)| && NoStartOf(ReplaceAll(x, p)[..n], Replacement(p))
    ensures n <= |x| && ReplaceAll(x, p)[..n] == x[..n]
    decreases n
  {
    if n > 0 {
      var out := ReplaceAll(x, p);
      var rep := Replacement(p);
      assert x != [];
      ReplacedFront(x, p);
      NoStartAtFront(out[..n], rep);
      if n == 1 {
        assert out[0] == out[..n][0] != rep[0];
      } else {
        assert out[0] == out[..n][0] && out[1] == out[..n][1];
        assert out[0] != rep[0] || out[1] != rep[1];
      }
      assert Match(p, x).None?;
      var rest := ReplaceAll(x[1..], p);
      assert out == [x[0]] + rest;
      assert rest[..n - 1] == out[..n][1..];
      NoStartOfTail(out[..n], rep);
      CopiedPrefix(x[1..], p, n - 1);
      assert out[..n] == [x[0]] + rest[..n - 1];
      assert x[..n] == [x[0]] + x[1..][..n - 1];
    }
  }

  /** White space is none of the characters a replacement starts with. */
  lemma SpaceIsNoStart(c: char)
    requires IsJsSpace(c)
    ensures c != 'f' && c != 'u' && c != 'i'
  {
  }

  /** The module name holds no 'f' or 'u', and no 'i' followed by 'm'. */
  lemma NavigationModuleChars()
    ensures forall t :: 0 <= t < 15 ==> NavigationModule[t] != 'f' && NavigationModule[t] != 'u'
    ensures forall t :: 0 <= t < 15 && NavigationModule[t] == 'i' ==> t + 1 < 15 && NavigationModule[t + 1] != 'm'
  {
  }

  /** Inside a match of the first pattern, after its 'f': no 'f', no 'u', no "im". */
  lemma FromWindowChars(w: string, n: nat)
    requires Match(FromNavigation, w) == Some(n)
    ensures forall k :: 1 <= k < n ==> w[k] != 'f' && w[k] != 'u'
    ensures forall k :: 1 <= k < n && w[k] == 'i' ==> k + 1 < n && w[k + 1] != 'm'
  {
    var j := SkipSpaces(w, 4);
    assert w[..4] == "from";
    NavigationModuleChars();
    assert w[j + 1..j + 16] == NavigationModule;
    forall k | 1 <= k < n
      ensures w[k] != 'f' && w[k] != 'u'
      ensures w[k] == 'i' ==> k + 1 < n && w[k + 1] != 'm'
    {
      if k < 4 {
        assert w[k] == w[..4][k];
      } else if k < j {
        SpaceIsNoStart(w[k]);
      } else if j < k < j + 16 {
        assert w[k] == NavigationModule[k - j - 1];
        if k + 1 < j + 16 {
          assert w[k + 1] == NavigationModule[k - j];
        }
      }
    }
  }

  /** No replacement can start inside a match of the first pattern, after its 'f'. */
  lemma FromWindowNoStart(w: string, n: nat, p: Pattern)
    requires Match(FromNavigation, w) == Some(n)
    ensures NoStartOf(w[1..n], Replacement(p))
  {
    FromWindowChars(w, n);
    var v := w[1..n];
    var rep := Replacement(p);
    forall k: nat | k < |v|
      ensures !StartsAt(v, rep, k)
    {
      assert v[k] == w[k + 1];
      if k + 1 < |v| {
        assert v[k + 1] == w[k + 2];
      }
    }
  }

  /** Inside a call match, after its 'u': no 'f', no 'i', and no "us". */
  lemma CallWindowChars(w: string, n: nat)
    requires Match(UseRouterCall, w) == Some(n)
    ensures forall k :: 1 <= k < n ==> w[k] != 'f' && w[k] != 'i'
    ensures forall k :: 1 <= k < n && w[k] == 'u' ==> k + 1 < n && w[k + 1] != 's'
  {
    var j := SkipSpaces(w, 9);
    var m := SkipSpaces(w, j + 1);
    assert w[..9] == "useRouter";
    forall k | 1 <= k < n
      ensures w[k] != 'f' && w[k] != 'i'
      ensures w[k] == 'u' ==> k + 1 < n && w[k + 1] != 's'
    {
      if k < 9 {
        assert w[k] == w[..9][k];
        if k == 5 {
          assert w[6] == w[..9][6];
        }
      } else if 9 <= k < j || j < k < m {
        SpaceIsNoStart(w[k]);
      }
    }
  }

  /** No replacement can start inside a call match, after its 'u'. */
  lemma CallWindowNoStart(w: string, n: nat, p: Pattern)
    requires Match(UseRouterCall, w) == Some(n)
    ensures NoStartOf(w[1..n], Replacement(p))
  {
    CallWindowChars(w, n);
    var v := w[1..n];
    var rep := Replacement(p);
    forall k: nat | k < |v|
      ensures !StartsAt(v, rep, k)
    {
      assert v[k] == w[k + 1];
      if k + 1 < |v| {
        assert v[k + 1] == w[k + 2];
      }
    }
  }

  /** A pass that copied the first character copied a window free of replacement starts as well. */
  lemma CopiedWindow(x: string, p: Pattern, n: nat)
    requires x != [] && Match(p, x).None?
    requires 1 <= n <= |ReplaceAll(x, p)| && NoStartOf(ReplaceAll(x, p)[1..n], Replacement(p))
    ensures n <= |x| && ReplaceAll(x, p)[..n] == x[..n]
  {
    var out := ReplaceAll(x, p);
    var rest := ReplaceAll(x[1..], p);
    assert out == [x[0]] + rest;
    assert out[1..n] == rest[..n - 1];
    CopiedPrefix(x[1..], p, n - 1);
    assert out[..n] == [x[0]] + rest[..n - 1];
    assert x[..n] == [x[0]] + x[1..][..n - 1];
  }

  /**
   * A match of the first or second pattern at the front of a pass's output,
   * where the pass copied the first character, was already in the input.
   */
  lemma CopiedMatch(x: string, p: Pattern, q: Pattern, n: nat)
    requires q != UseRouterImport
    requires x != [] && Match(p, x).None? && Match(q, ReplaceAll(x, p)) == Some(n)
    ensures Match(q, x) == Some(n)
  {
    var out := ReplaceAll(x, p);
    if q == FromNavigation {
      FromWindowNoStart(out, n, p);
      CopiedWindow(x, p, n);
      FromLocal(out, x, n);
    } else {
      CallWindowNoStart(out, n, p);
      CopiedWindow(x, p, n);
      CallLocal(out, x, n);
    }
  }

  // ---------------------------------------------------------------------
  // Matches that start inside a replacement text.
  // ---------------------------------------------------------------------

  const RouterFrom: string := "from 'next/router'"
  const RouterCall: string := "useRouter()"
  const RouterImport: string := "import { useRouter } from 'next/router'"

  lemma RouterFromChars()
    ensures forall i :: 0 < i < |RouterFrom| ==> RouterFrom[i] != 'f'
  {
  }

  lemma RouterCallChars()
    ensures forall i :: 0 <= i < |RouterCall| ==> RouterCall[i] != 'f'
    ensures forall i :: 0 <= i < |RouterCall| && i != 0 && i != 5 ==> RouterCall[i] != 'u'
  {
  }

  lemma RouterImportChars()
    ensures forall i :: 0 <= i < |RouterImport| && i != 21 ==> RouterImport[i] != 'f'
    ensures forall i :: 0 <= i < |RouterImport| && i != 9 && i != 14 && i != 34 ==> RouterImport[i] != 'u'
    ensures RouterImport[21..] == RouterFrom
  {
  }

  /** `from 'next/router'` followed by anything is not a match of the first pattern. */
  lemma RouterFromIsNoFromMatch(rest: string)
    ensures Match(FromNavigation, RouterFrom + rest).None?
  {
    var s := RouterFrom + rest;
    assert s[4] == ' ' && s[5] == '\'' && s[11] == 'r';
    assert SkipSpaces(s, 5) == 5;
    assert SkipSpaces(s, 4) == 5;
    if |s| >= 21 {
      assert s[6..21][5] == s[11];
    }
  }

  /** A text whose first character differs from a pattern's keyword has no match of it at the front. */
  lemma FirstCharBlocks(q: Pattern, s: string)
    requires s != [] && s[0] != Keyword(q)[0]
    ensures Match(q, s).None?
  {
    if |s| >= |Keyword(q)| {
      assert s[..|Keyword(q)|][0] == s[0];
    }
  }

  /** Likewise for the second character. */
  lemma SecondCharBlocks(q: Pattern, s: string)
    requires |s| >= 2 && s[1] != Keyword(q)[1]
    ensures Match(q, s).None?
  {
    if |s| >= |Keyword(q)| {
      assert s[..|Keyword(q)|][1] == s[1];
    }
  }

  /** The suffixes of a concatenation. */
  lemma SuffixOfConcat(a: string, b: string, i: nat)
    requires i <= |a| + |b|
    ensures i < |a| ==> (a + b)[i..] == a[i..] + b
    ensures i >= |a| ==> (a + b)[i..] == b[i - |a|..]
  {
  }

  /** No match of the first pattern starts inside `from 'next/router'`. */
  lemma NoFromInsideRouterFrom(i: nat, rest: string)
    requires i < |RouterFrom|
    ensures Match(FromNavigation, RouterFrom[i..] + rest).None?
  {
    if i == 0 {
      RouterFromIsNoFromMatch(rest);
    } else {
      RouterFromChars();
      FirstCharBlocks(FromNavigation, RouterFrom[i..] + rest);
    }
  }

  lemma NoFromInsideRouterCall(i: nat, rest: string)
    requires i < |RouterCall|
    ensures Match(FromNavigation, RouterCall[i..] + rest).None?
  {
    RouterCallChars();
    FirstCharBlocks(FromNavigation, RouterCall[i..] + rest);
  }

  lemma NoFromInsideRouterImport(i: nat, rest: string)
    requires i < |RouterImport|
    ensures Match(FromNavigation, RouterImport[i..] + rest).None?
  {
    RouterImportChars();
    if i == 21 {
      assert RouterImport[21..] + rest == RouterFrom + rest;
      RouterFromIsNoFromMatch(rest);
    } else {
      FirstCharBlocks(FromNavigation, RouterImport[i..] + rest);
    }
  }

  /** No match of the first pattern starts inside any replacement text. */
  lemma NoFromInsideReplacement(p: Pattern, i: nat, rest: string)
    requires i < |Replacement(p)|
    ensures Match(FromNavigation, Replacement(p)[i..] + rest).None?
  {
    match p
    case FromNavigation => NoFromInsideRouterFrom(i, rest);
    case UseRouterCall => NoFromInsideRouterCall(i, rest);
    case UseRouterImport => NoFromInsideRouterImport(i, rest);
  }

  /** Inside `useRouter()` the only call match is the whole text, at its front. */
  lemma CallInsideRouterCall(i: nat, rest: string)
    requires i < |RouterCall|
    ensures Match(UseRouterCall, RouterCall[i..] + rest).Some? ==>
              i == 0 && Match(UseRouterCall, RouterCall[i..] + rest) == Some(11)
  {
    var s := RouterCall[i..] + rest;
    if i == 0 {
      assert s[9] == '(' && s[10] == ')';
      assert SkipSpaces(s, 9) == 9;
      assert SkipSpaces(s, 10) == 10;
    } else if i == 5 {
      assert s[1] == 't';
      SecondCharBlocks(UseRouterCall, s);
    } else {
      RouterCallChars();
      FirstCharBlocks(UseRouterCall, s);
    }
  }

  /** The word `useRouter` inside the rewritten import is followed by ` }`, not by a call. */
  lemma NameInRouterImportIsNoCall(rest: string)
    ensures Match(UseRouterCall, RouterImport[9..] + rest).None?
  {
    var s := RouterImport[9..] + rest;
    assert s[9] == ' ' && s[10] == '}';
    assert SkipSpaces(s, 10) == 10;
    assert SkipSpaces(s, 9) == 10;
  }

  /** No call match starts inside the rewritten import. */
  lemma NoCallInsideRouterImport(i: nat, rest: string)
    requires i < |RouterImport|
    ensures Match(UseRouterCall, RouterImport[i..] + rest).None?
  {
    var s := RouterImport[i..] + rest;
    if i == 9 {
      NameInRouterImportIsNoCall(rest);
    } else if i == 14 || i == 34 {
      assert s[1] == RouterImport[i + 1] == 't';
      SecondCharBlocks(UseRouterCall, s);
    } else {
      RouterImportChars();
      FirstCharBlocks(UseRouterCall, s);
    }
  }

  // ---------------------------------------------------------------------
  // What each pass guarantees.
  // ---------------------------------------------------------------------

  /** Where the pass replaced a match at the front, the replacement text holds no new match. */
  lemma FromPassReplaced(x: string, n: nat)
    requires Match(FromNavigation, x) == Some(n)
    requires NoMatch(ReplaceAll(x[n..], FromNavigation), FromNavigation)
    ensures NoMatch(ReplaceAll(x, FromNavigation), FromNavigation)
  {
    var out := ReplaceAll(x, FromNavigation);
    var rep := Replacement(FromNavigation);
    var rest := ReplaceAll(x[n..], FromNavigation);
    assert out == rep + rest;
    forall i | 0 <= i <= |out|
      ensures Match(FromNavigation, out[i..]).None?
    {
      SuffixOfConcat(rep, rest, i);
      if i < |rep| {
        NoFromInsideReplacement(FromNavigation, i, rest);
      }
    }
  }

  /** Where the pass copied the first character, no match can start there. */
  lemma FromPassCopied(x: string)
    requires x != [] && Match(FromNavigation, x).None?
    requires NoMatch(ReplaceAll(x[1..], FromNavigation), FromNavigation)
    ensures NoMatch(ReplaceAll(x, FromNavigation), FromNavigation)
  {
    var out := ReplaceAll(x, FromNavigation);
    var rest := ReplaceAll(x[1..], FromNavigation);
    assert out == [x[0]] + rest;
    forall i | 0 <= i <= |out|
      ensures Match(FromNavigation, out[i..]).None?
    {
      if i == 0 {
        if Match(FromNavigation, out).Some? {
          CopiedMatch(x, FromNavigation, FromNavigation, Match(FromNavigation, out).value);
          assert false;
        }
      } else {
        assert out[i..] == rest[i - 1..];
      }
    }
  }

  /** After the first pass no `from\s+['"]next/navigation['"]` is left. */
  lemma {:induction false} FromPassRemovesAll(x: string)
    ensures NoMatch(ReplaceAll(x, FromNavigation), FromNavigation)
    decreases |x|
  {
    if x != [] {
      match Match(FromNavigation, x)
      case Some(n) =>
        FromPassRemovesAll(x[n..]);
        FromPassReplaced(x, n);
      case None =>
        FromPassRemovesAll(x[1..]);
        FromPassCopied(x);
    }
  }

  /** No match of the first pattern is in a suffix of a text that has none. */
  lemma NoMatchSuffix(x: string, q: Pattern, n: nat)
    requires n <= |x| && NoMatch(x, q)
    ensures NoMatch(x[n..], q)
  {
    assert forall i :: 0 <= i <= |x[n..]| ==> x[n..][i..] == x[i + n..];
  }

  lemma LaterPassReplaced(x: string, p: Pattern, n: nat)
    requires p != FromNavigation && Match(p, x) == Some(n)
    requires NoMatch(ReplaceAll(x[n..], p), FromNavigation)
    ensures NoMatch(ReplaceAll(x, p), FromNavigation)
  {
    var out := ReplaceAll(x, p);
    var rep := Replacement(p);
    var rest := ReplaceAll(x[n..], p);
    assert out == rep + rest;
    forall i | 0 <= i <= |out|
      ensures Match(FromNavigation, out[i..]).None?
    {
      SuffixOfConcat(rep, rest, i);
      if i < |rep| {
        NoFromInsideReplacement(p, i, rest);
      }
    }
  }

  lemma LaterPassCopied(x: string, p: Pattern)
    requires x != [] && Match(p, x).None? && NoMatch(x, FromNavigation)
    requires NoMatch(ReplaceAll(x[1..], p), FromNavigation)
    ensures NoMatch(ReplaceAll(x, p), FromNavigation)
  {
    var out := ReplaceAll(x, p);
    var rest := ReplaceAll(x[1..], p);
    assert out == [x[0]] + rest;
    forall i | 0 <= i <= |out|
      ensures Match(FromNavigation, out[i..]).None?
    {
      if i == 0 {
        if Match(FromNavigation, out).Some? {
          assert x[0..] == x;
          CopiedMatch(x, p, FromNavigation, Match(FromNavigation, out).value);
          assert false;
        }
      } else {
        assert out[i..] == rest[i - 1..];
      }
    }
  }

  /** A later pass cannot create a match of the first pattern. */
  lemma {:induction false} LaterPassKeepsFromGone(x: string, p: Pattern)
    requires p != FromNavigation && NoMatch(x, FromNavigation)
    ensures NoMatch(ReplaceAll(x, p), FromNavigation)
    decreases |x|
  {
    if x != [] {
      match Match(p, x)
      case Some(n) =>
        NoMatchSuffix(x, FromNavigation, n);
        LaterPassKeepsFromGone(x[n..], p);
        LaterPassReplaced(x, p, n);
      case None =>
        NoMatchSuffix(x, FromNavigation, 1);
        LaterPassKeepsFromGone(x[1..], p);
        LaterPassCopied(x, p);
    }
  }

  lemma CallPassReplaced(x: string, n: nat)
    requires Match(UseRouterCall, x) == Some(n)
    requires Normalised(ReplaceAll(x[n..], UseRouterCall))
    ensures Normalised(ReplaceAll(x, UseRouterCall))
  {
    var out := ReplaceAll(x, UseRouterCall);
    var rep := Replacement(UseRouterCall);
    var rest := ReplaceAll(x[n..], UseRouterCall);
    assert out == rep + rest;
    forall i | 0 <= i <= |out| && Match(UseRouterCall, out[i..]).Some?
      ensures Match(UseRouterCall, out[i..]).value == 11
    {
      SuffixOfConcat(rep, rest, i);
      if i < |rep| {
        CallInsideRouterCall(i, rest);
      }
    }
  }

  lemma CallPassCopied(x: string)
    requires x != [] && Match(UseRouterCall, x).None?
    requires Normalised(ReplaceAll(x[1..], UseRouterCall))
    ensures Normalised(ReplaceAll(x, UseRouterCall))
  {
    var out := ReplaceAll(x, UseRouterCall);
    var rest := ReplaceAll(x[1..], UseRouterCall);
    assert out == [x[0]] + rest;
    forall i | 0 <= i <= |out| && Match(UseRouterCall, out[i..]).Some?
      ensures Match(UseRouterCall, out[i..]).value == 11
    {
      if i == 0 {
        CopiedMatch(x, UseRouterCall, UseRouterCall, Match(UseRouterCall, out).value);
        assert false;
      } else {
        assert out[i..] == rest[i - 1..];
      }
    }
  }

  /** After the second pass every `useRouter\s*\(\s*\)` is `useRouter()`. */
  lemma {:induction false} CallPassNormalises(x: string)
    ensures Normalised(ReplaceAll(x, UseRouterCall))
    decreases |x|
  {
    if x != [] {
      match Match(UseRouterCall, x)
      case Some(n) =>
        CallPassNormalises(x[n..]);
        CallPassReplaced(x, n);
      case None =>
        CallPassNormalises(x[1..]);
        CallPassCopied(x);
    }
  }

  /** A suffix of a normalised text is normalised. */
  lemma NormalisedSuffix(x: string, n: nat)
    requires n <= |x| && Normalised(x)
    ensures Normalised(x[n..])
  {
    assert forall i :: 0 <= i <= |x[n..]| ==> x[n..][i..] == x[i + n..];
  }

  lemma ImportPassReplaced(x: string, n: nat)
    requires Match(UseRouterImport, x) == Some(n)
    requires Normalised(ReplaceAll(x[n..], UseRouterImport))
    ensures Normalised(ReplaceAll(x, UseRouterImport))
  {
    var out := ReplaceAll(x, UseRouterImport);
    var rep := Replacement(UseRouterImport);
    var rest := ReplaceAll(x[n..], UseRouterImport);
    assert out == rep + rest;
    forall i | 0 <= i <= |out| && Match(UseRouterCall, out[i..]).Some?
      ensures Match(UseRouterCall, out[i..]).value == 11
    {
      SuffixOfConcat(rep, rest, i);
      if i < |rep| {
        NoCallInsideRouterImport(i, rest);
        assert false;
      }
    }
  }

  lemma ImportPassCopied(x: string)
    requires x != [] && Match(UseRouterImport, x).None? && Normalised(x)
    requires Normalised(ReplaceAll(x[1..], UseRouterImport))
    ensures Normalised(ReplaceAll(x, UseRouterImport))
  {
    var out := ReplaceAll(x, UseRouterImport);
    var rest := ReplaceAll(x[1..], UseRouterImport);
    assert out == [x[0]] + rest;
    forall i | 0 <= i <= |out| && Match(UseRouterCall, out[i..]).Some?
      ensures Match(UseRouterCall, out[i..]).value == 11
    {
      if i == 0 {
        assert x[0..] == x;
        CopiedMatch(x, UseRouterImport, UseRouterCall, Match(UseRouterCall, out).value);
      } else {
        assert out[i..] == rest[i - 1..];
      }
    }
  }

  /** The third pass keeps every call canonical. */
  lemma {:induction false} ImportPassKeepsNormalised(x: string)
    requires Normalised(x)
    ensures Normalised(ReplaceAll(x, UseRouterImport))
    decreases |x|
  {
    if x != [] {
      match Match(UseRouterImport, x)
      case Some(n) =>
        NormalisedSuffix(x, n);
        ImportPassKeepsNormalised(x[n..]);
        ImportPassReplaced(x, n);
      case None =>
        NormalisedSuffix(x, 1);
        ImportPassKeepsNormalised(x[1..]);
        ImportPassCopied(x);
    }
  }

  /** The three passes in source order. */
  function Rewrite(content: string): string {
    ReplaceAll(ReplaceAll(ReplaceAll(content, FromNavigation), UseRouterCall), UseRouterImport)
  }

  /** The rewritten text has no `from\s+['"]next/navigation['"]` left, and all its `useRouter` calls are canonical. */
  lemma RewriteGuarantees(content: string)
    ensures NoMatch(Rewrite(content), FromNavigation)
    ensures Normalised(Rewrite(content))
  {
    var one := ReplaceAll(content, FromNavigation);
    var two := ReplaceAll(one, UseRouterCall);
    FromPassRemovesAll(content);
    LaterPassKeepsFromGone(one, UseRouterCall);
    LaterPassKeepsFromGone(two, UseRouterImport);
    CallPassNormalises(one);
    ImportPassKeepsNormalised(two);
  }

  /** A pass over text without a match changes nothing. */
  lemma {:induction false} ReplaceWithoutMatch(x: string, p: Pattern)
    requires NoMatch(x, p)
    ensures ReplaceAll(x, p) == x
    decreases |x|
  {
    if x != [] {
      assert x[0..] == x;
      assert forall i :: 0 <= i <= |x[1..]| ==> x[1..][i..] == x[i + 1..];
      ReplaceWithoutMatch(x[1..], p);
    }
  }

  /** Text that lacks a pattern's keyword has no match of it. */
  lemma NoKeywordNoMatch(x: string, p: Pattern)
    requires !Contains(x, Keyword(p))
    ensures NoMatch(x, p)
  {
    forall i | 0 <= i <= |x| && Match(p, x[i..]).Some?
      ensures false
    {
      assert x[i..][..|Keyword(p)|] == x[i..i + |Keyword(p)|];
      assert OccursAt(x, Keyword(p), i);
    }
  }

  /** How reading and writing the file went. */
  datatype Io = Io(read: Option<string>, writeOk: bool)

  /** What `fixRouterImports` reports and what ends up in the file. */
  datatype Fixed = Fixed(result: bool, written: Option<string>)

  /**
   * `fixRouterImports`: a file that mentions `next/navigation` anywhere is
   * rewritten and written back, whether or not a pattern matched; any
   * other file is left alone. A read or write error gives false.
   */
  function FixRouterImports(io: Io): (r: Fixed)
    ensures r.result <==> io.read.Some? && Contains(io.read.value, NavigationModule) && io.writeOk
    ensures r.written.Some? <==> r.result
    ensures r.written.Some? ==> io.read.Some? && r.written.value == Rewrite(io.read.value)
  {
    match io.read
    case None => Fixed(false, None)
    case Some(content) =>
      if !Contains(content, NavigationModule) then Fixed(false, None)
      else if !io.writeOk then Fixed(false, None)
      else Fixed(true, Some(Rewrite(content)))
  }

  /** Whatever is written has no navigation import of the first form left and only canonical `useRouter()` calls. */
  lemma WrittenTextIsClean(io: Io)
    requires FixRouterImports(io).written.Some?
    ensures NoMatch(FixRouterImports(io).written.value, FromNavigation)
    ensures Normalised(FixRouterImports(io).written.value)
  {
    RewriteGuarantees(io.read.value);
  }

  /** A file that only names the module, outside any import, is written back unchanged and still reported as fixed. */
  lemma MentionOnlyIsRewrittenUnchanged(content: string)
    requires Contains(content, NavigationModule)
    requires !Contains(content, "from") && !Contains(content, "useRouter") && !Contains(content, "import")
    ensures FixRouterImports(Io(Some(content), true)) == Fixed(true, Some(content))
  {
    NoKeywordNoMatch(content, FromNavigation);
    ReplaceWithoutMatch(content, FromNavigation);
    NoKeywordNoMatch(content, UseRouterCall);
    ReplaceWithoutMatch(content, UseRouterCall);
    NoKeywordNoMatch(content, UseRouterImport);
    ReplaceWithoutMatch(content, UseRouterImport);
  }
}
