/**
  Tab completion of command names: the candidates are the known names that
  start with the typed line, sorted and without duplicates; one candidate is
  completed with a trailing space, several are completed to their longest
  common prefix when that is longer than the line, and otherwise a first Tab
  rings the bell and a second one lists them.
 */
module AutoComplete {

  import opened Wrappers
  import opened Text

  // ---------------------------------------------------------------------------
  // The order of `String`: lexicographic by character
  // ---------------------------------------------------------------------------

  /** `a < b` for Rust strings: at the first difference the smaller character
      wins, and a proper prefix comes first. */
  predicate Below(a: string, b: string)
  {
    if a == [] then b != []
    else if b == [] then false
    else if a[0] != b[0] then a[0] < b[0]
    else Below(a[1..], b[1..])
  }

  lemma {:induction false} BelowIrreflexive(a: string)
    ensures !Below(a, a)
  {
    if a != [] {
      BelowIrreflexive(a[1..]);
    }
  }

  lemma {:induction false} BelowTransitive(a: string, b: string, c: string)
    requires Below(a, b) && Below(b, c)
    ensures Below(a, c)
  {
    if a != [] && b != [] && c != [] && a[0] == b[0] && b[0] == c[0] {
      BelowTransitive(a[1..], b[1..], c[1..]);
    }
  }

  /** Two different strings are ordered one way or the other. */
  lemma {:induction false} BelowTotal(a: string, b: string)
    requires a != b
    ensures Below(a, b) || Below(b, a)
  {
    if a != [] && b != [] && a[0] == b[0] {
      assert a == [a[0]] + a[1..] && b == [b[0]] + b[1..];
      BelowTotal(a[1..], b[1..]);
    }
  }

  /** Strictly increasing: sorted and without duplicates. */
  predicate Increasing(s: seq<string>)
  {
    forall i, j :: 0 <= i < j < |s| ==> Below(s[i], s[j])
  }

  /** Puts `x` into an increasing sequence, unless it is there already. */
  function Insert(s: seq<string>, x: string): (r: seq<string>)
    requires Increasing(s)
    ensures Increasing(r)
    ensures forall y :: y in r <==> y in s || y == x
  {
    if s == [] then [x]
    else if x == s[0] then s
    else if Below(x, s[0]) then
      assert forall j :: 0 <= j < |s| ==> Below(x, s[j]) by {
        forall j | 0 <= j < |s| ensures Below(x, s[j]) {
          if j > 0 { BelowTransitive(x, s[0], s[j]); }
        }
      }
      [x] + s
    else
      var rest := Insert(s[1..], x);
      BelowTotal(x, s[0]);
      assert forall y :: y in rest ==> Below(s[0], y) by {
        forall y | y in rest ensures Below(s[0], y) {
          if y in s[1..] {
            var j :| 0 <= j < |s[1..]| && s[1..][j] == y;
            assert s[j + 1] == y;
          }
        }
      }
      [s[0]] + rest
  }

  /** `sort` followed by `dedup`: the elements of `xs` in increasing order,
      each once. */
  function SortedUnique(xs: seq<string>): (r: seq<string>)
    ensures Increasing(r)
    ensures forall y :: y in r <==> y in xs
  {
    if xs == [] then []
    else
      var r := Insert(SortedUnique(xs[..|xs| - 1]), xs[|xs| - 1]);
      assert xs == xs[..|xs| - 1] + [xs[|xs| - 1]];
      r
  }

  lemma {:induction false} BelowAsymmetric(a: string, b: string)
    ensures !(Below(a, b) && Below(b, a))
  {
    if a != [] && b != [] && a[0] == b[0] {
      BelowAsymmetric(a[1..], b[1..]);
    }
  }

  /** Every element of an increasing sequence is its first or comes after it. */
  lemma HeadIsLeast(s: seq<string>, x: string)
    requires Increasing(s) && x in s
    ensures x == s[0] || Below(s[0], x)
  {
    var k :| 0 <= k < |s| && s[k] == x;
    if k != 0 {
      assert Below(s[0], s[k]);
    }
  }

  /** An increasing sequence is determined by its elements, so there is only
      one sorted, duplicate-free arrangement of the candidates. */
  lemma {:induction false} IncreasingUnique(a: seq<string>, b: seq<string>)
    requires Increasing(a) && Increasing(b)
    requires forall y :: y in a <==> y in b
    ensures a == b
  {
    if a != [] {
      assert a[0] in a;
    }
    if b != [] {
      assert b[0] in b;
    }
    if a != [] && b != [] {
      HeadIsLeast(b, a[0]);
      HeadIsLeast(a, b[0]);
      BelowAsymmetric(a[0], b[0]);
      forall y
        ensures y in a[1..] <==> y in b[1..]
      {
        if y in a[1..] {
          var i :| 0 <= i < |a[1..]| && a[1..][i] == y;
          assert Below(a[0], a[i + 1]);
          BelowIrreflexive(y);
          assert y in a && y in b;
          var k :| 0 <= k < |b| && b[k] == y;
          assert k != 0 && b[1..][k - 1] == y;
        }
        if y in b[1..] {
          var i :| 0 <= i < |b[1..]| && b[1..][i] == y;
          assert Below(b[0], b[i + 1]);
          BelowIrreflexive(y);
          assert y in b && y in a;
          var k :| 0 <= k < |a| && a[k] == y;
          assert k != 0 && a[1..][k - 1] == y;
        }
      }
      IncreasingUnique(a[1..], b[1..]);
      assert a == [a[0]] + a[1..] && b == [b[0]] + b[1..];
    }
  }

  // ---------------------------------------------------------------------------
  // Candidates
  // ---------------------------------------------------------------------------

  /** The names starting with `line`, in their original order. */
  function Starting(names: seq<string>, line: string): (r: seq<string>)
    ensures forall y :: y in r <==> y in names && line <= y
  {
    if names == [] then []
    else
      var last := names[|names| - 1];
      assert names == names[..|names| - 1] + [last];
      Starting(names[..|names| - 1], line) + (if line <= last then [last] else [])
  }

  /** The candidates of `complete`: filtered, sorted and deduplicated. */
  function Candidates(names: seq<string>, line: string): (r: seq<string>)
    ensures Increasing(r)
    ensures forall y :: y in r <==> y in names && line <= y
  {
    SortedUnique(Starting(names, line))
  }

  // ---------------------------------------------------------------------------
  // The longest common prefix
  // ---------------------------------------------------------------------------

  /** The inner loop of `longest_common_prefix`: drop the last character
      while `s` does not start with what is left. */
  function Shrink(lcp: string, s: string): (r: string)
    decreases |lcp|
  {
    if lcp == [] || lcp <= s then lcp else Shrink(lcp[..|lcp| - 1], s)
  }

  /** The outer loop: shrink against each remaining string in turn. */
  function ShrinkAll(lcp: string, rest: seq<string>): string
    decreases |rest|
  {
    if rest == [] then lcp else ShrinkAll(Shrink(lcp, rest[0]), rest[1..])
  }

  /** `longest_common_prefix` */
  function LongestCommonPrefix(strs: seq<string>): (r: string)
    ensures strs == [] ==> r == ""
    ensures forall i :: 0 <= i < |strs| ==> r <= strs[i]
  {
    if strs == [] then ""
    else
      var r := ShrinkAll(strs[0], strs[1..]);
      assert forall i :: 0 <= i < |strs| ==> r <= strs[i] by {
        ShrinkAllIsLongest(strs[0], strs[1..], "");
        assert forall i :: 1 <= i < |strs| ==> strs[i] == strs[1..][i - 1];
      }
      r
  }

  /** Shrinking keeps a prefix of both strings, and every common prefix of
      the two stays a prefix of the result. */
  lemma {:induction false} ShrinkIsLongest(lcp: string, s: string, p: string)
    ensures Shrink(lcp, s) <= lcp && Shrink(lcp, s) <= s
    ensures p <= lcp && p <= s ==> p <= Shrink(lcp, s)
    decreases |lcp|
  {
    if lcp != [] && !(lcp <= s) {
      var shorter := lcp[..|lcp| - 1];
      if p <= lcp && p <= s {
        assert p != lcp;
        assert p <= shorter;
      }
      ShrinkIsLongest(shorter, s, p);
    }
  }

  lemma {:induction false} ShrinkAllIsLongest(lcp: string, rest: seq<string>, p: string)
    ensures ShrinkAll(lcp, rest) <= lcp
    ensures forall i :: 0 <= i < |rest| ==> ShrinkAll(lcp, rest) <= rest[i]
    ensures p <= lcp && (forall i :: 0 <= i < |rest| ==> p <= rest[i]) ==> p <= ShrinkAll(lcp, rest)
    decreases |rest|
  {
    if rest != [] {
      var next := Shrink(lcp, rest[0]);
      ShrinkIsLongest(lcp, rest[0], p);
      ShrinkAllIsLongest(next, rest[1..], p);
      assert forall i :: 1 <= i < |rest| ==> rest[i] == rest[1..][i - 1];
    }
  }

  /** The result is a prefix of every string, and every common prefix is a
      prefix of it: it is the longest common prefix. No strings give `""`. */
  lemma LongestCommonPrefixIsLongest(strs: seq<string>, p: string)
    ensures strs == [] ==> LongestCommonPrefix(strs) == ""
    ensures forall i :: 0 <= i < |strs| ==> LongestCommonPrefix(strs) <= strs[i]
    ensures strs != [] && (forall i :: 0 <= i < |strs| ==> p <= strs[i]) ==> p <= LongestCommonPrefix(strs)
  {
    if strs != [] {
      ShrinkAllIsLongest(strs[0], strs[1..], p);
      assert forall i :: 1 <= i < |strs| ==> strs[i] == strs[1..][i - 1];
    }
  }

  /** `longest_common_prefix`: starts from the first string and pops
      characters while the next string does not start with it. */
  method ComputeLongestCommonPrefix(strs: seq<string>) returns (lcp: string)
    ensures lcp == LongestCommonPrefix(strs)
  {
    if |strs| == 0 {
      return "";
    }
    lcp := strs[0];
    for k := 1 to |strs|
      invariant ShrinkAll(lcp, strs[k..]) == LongestCommonPrefix(strs)
    {
      var s := strs[k];
      ghost var start := lcp;
      while !(lcp <= s) && lcp != []
        invariant Shrink(lcp, s) == Shrink(start, s)
        decreases |lcp|
      {
        lcp := lcp[..|lcp| - 1];
      }
      assert strs[k..][1..] == strs[k + 1..];
    }
  }

  // ---------------------------------------------------------------------------
  // Completing
  // ---------------------------------------------------------------------------

  /** What `complete` prints: the bell, or the candidates on a new line
      followed by the prompt and the line again. */
  datatype Effect = Bell | ShowMatches(matches: seq<string>, line: string)

  /** The characters written for an effect. */
  function EffectText(e: Effect): (r: string)
    ensures e.Bell? ==> |r| == 1 && r[0] as int == 7
    ensures e.ShowMatches? ==>
      "\r\n" <= r && |e.line| + 2 <= |r| && r[|r| - |e.line| - 2..] == "$ " + e.line
    ensures e.ShowMatches? && e.matches != [] ==> "\r\n" + e.matches[0] <= r
  {
    match e
    case Bell => "\U{7}"
    case ShowMatches(matches, line) => "\r\n" + Join(matches, "  ") + "\n" + "$ " + line
  }

  /** The answer to one Tab and the helper's state afterwards. */
  datatype Completion = Completion(replacements: seq<string>, effect: Option<Effect>, lastInput: string, tabCount: nat)

  /** `AutoCompleteHelper::complete` on `line`, with the helper's names and
      its last line and Tab count before the call. The length comparison is
      on UTF-8 bytes, as `String::len` counts. */
  function Completed(names: seq<string>, lastInput: string, tabCount: nat, line: string): (r: Completion)
    ensures |r.replacements| <= 1
    ensures r.replacements != [] ==> r.effect.None? && r.lastInput == lastInput && r.tabCount == tabCount
    ensures r.effect.Some? ==> r.replacements == [] && r.lastInput == line
    ensures r.effect == Some(Bell) <==> r.effect.Some? && r.tabCount == 1
    ensures tabCount <= 1 ==> r.tabCount <= 1
  {
    var matches := Candidates(names, line);
    if matches == [] then Completion([], None, lastInput, tabCount)
    else if |matches| == 1 then Completion([matches[0] + " "], None, lastInput, tabCount)
    else
      var lcp := LongestCommonPrefix(matches);
      if Utf8Len(lcp) > Utf8Len(line) then Completion([lcp], None, lastInput, tabCount)
      else
        var count := (if lastInput != line then 0 else tabCount) + 1;
        if count == 1 then Completion([], Some(Bell), line, 1)
        else Completion([], Some(ShowMatches(matches, line)), line, 0)
  }

  class AutoCompleteHelper {
    const names: seq<string>
    var lastInput: string
    var tabCount: nat

    /** The count of Tabs on the same line is reset at the second one, so it
        never exceeds one between calls. */
    predicate Valid()
      reads this
    {
      tabCount <= 1
    }

    /** `AutoCompleteHelper::new` */
    constructor (names: seq<string>)
      ensures this.names == names && lastInput == "" && tabCount == 0
      ensures Valid()
    {
      this.names := names;
      lastInput := "";
      tabCount := 0;
    }

    /** `complete`: collects the matching names, then decides. */
    method Complete(line: string) returns (replacements: seq<string>, effect: Option<Effect>)
      requires Valid()
      modifies this
      ensures Valid()
      ensures Completion(replacements, effect, lastInput, tabCount)
           == Completed(names, old(lastInput), old(tabCount), line)
    {
      var found: seq<string> := [];
      for i := 0 to |names|
        invariant found == Starting(names[..i], line)
      {
        assert names[..i + 1][..i] == names[..i];
        if line <= names[i] {
          found := found + [names[i]];
        }
      }
      assert names[..|names|] == names;
      var matches := SortedUnique(found);
      if matches == [] {
        return [], None;
      }
      if |matches| == 1 {
        return [matches[0] + " "], None;
      }
      var lcp := ComputeLongestCommonPrefix(matches);
      if Utf8Len(lcp) > Utf8Len(line) {
        return [lcp], None;
      }
      if lastInput != line {
        tabCount := 0;
        lastInput := line;
      }
      tabCount := tabCount + 1;
      if tabCount == 1 {
        effect := Some(Bell);
      } else {
        effect := Some(ShowMatches(matches, line));
        tabCount := 0;
      }
      replacements := [];
    }
  }

  // ---------------------------------------------------------------------------
  // Properties of completing
  // ---------------------------------------------------------------------------

  /** The typed line is a prefix of the common prefix of its candidates, so
      the byte-length test holds exactly when the common prefix is longer. */
  lemma LineBelowCommonPrefix(names: seq<string>, line: string)
    requires |Candidates(names, line)| >= 2
    ensures line <= LongestCommonPrefix(Candidates(names, line))
    ensures Utf8Len(LongestCommonPrefix(Candidates(names, line))) > Utf8Len(line)
        <==> line < LongestCommonPrefix(Candidates(names, line))
  {
    var matches := Candidates(names, line);
    var lcp := LongestCommonPrefix(matches);
    assert forall i :: 0 <= i < |matches| ==> line <= matches[i] by {
      forall i | 0 <= i < |matches| ensures line <= matches[i] {
        assert matches[i] in matches;
      }
    }
    LongestCommonPrefixIsLongest(matches, line);
    assert line <= lcp;
    if line < lcp {
      Utf8LenProperPrefix(line, lcp);
    } else {
      assert line == lcp;
    }
  }

  /** No candidate completes nothing; a single one completes to the name and
      a space; several complete to their common prefix when it is longer than
      the line, and otherwise ring the bell or list them; the state changes
      only when nothing could be completed. */
  lemma CompletionCases(names: seq<string>, lastInput: string, tabCount: nat, line: string)
    ensures var c := Completed(names, lastInput, tabCount, line);
      var matches := Candidates(names, line);
      (matches == [] ==> c == Completion([], None, lastInput, tabCount))
      && (|matches| == 1 ==> c.replacements == [matches[0] + " "] && line <= matches[0])
      && (|matches| >= 2 && line < LongestCommonPrefix(matches) ==>
            c == Completion([LongestCommonPrefix(matches)], None, lastInput, tabCount))
      && (|matches| >= 2 && line == LongestCommonPrefix(matches) ==> c.replacements == [] && c.effect.Some?)
      && (|c.replacements| == 1 && |matches| >= 2 ==>
            line < c.replacements[0] && forall m :: m in matches ==> c.replacements[0] <= m)
      && (c.replacements != [] ==> c.effect.None? && c.lastInput == lastInput && c.tabCount == tabCount)
  {
    var matches := Candidates(names, line);
    if |matches| >= 2 {
      LineBelowCommonPrefix(names, line);
      LongestCommonPrefixIsLongest(matches, line);
    } else if |matches| == 1 {
      assert matches[0] in matches;
    }
  }

  /** When nothing can be completed, a first Tab on a new line rings the bell,
      the second lists the candidates, and the third rings the bell again. */
  lemma TabTwiceLists(names: seq<string>, lastInput: string, tabCount: nat, line: string)
    requires |Candidates(names, line)| >= 2
    requires LongestCommonPrefix(Candidates(names, line)) == line
    requires lastInput != line || tabCount == 0
    ensures var first := Completed(names, lastInput, tabCount, line);
      var second := Completed(names, first.lastInput, first.tabCount, line);
      var third := Completed(names, second.lastInput, second.tabCount, line);
      first == Completion([], Some(Bell), line, 1)
      && second == Completion([], Some(ShowMatches(Candidates(names, line), line)), line, 0)
      && third == first
  {
  }

  /** The count starts again when the line changes: a Tab on a different line
      rings the bell whatever the count was. */
  lemma NewLineRestartsCount(names: seq<string>, lastInput: string, tabCount: nat, line: string)
    requires |Candidates(names, line)| >= 2
    requires LongestCommonPrefix(Candidates(names, line)) == line
    requires lastInput != line
    ensures Completed(names, lastInput, tabCount, line) == Completion([], Some(Bell), line, 1)
  {
  }

  /** The candidates are listed joined by two spaces: each further match adds
      two spaces and itself before the newline and the prompt. */
  lemma ListingAppend(ms: seq<string>, m: string, line: string)
    requires ms != []
    ensures EffectText(ShowMatches(ms + [m], line)) == "\r\n" + Join(ms, "  ") + "  " + m + "\n$ " + line
  {
    var front := Join(ms, "  ");
    var joined := Join(ms + [m], "  ");
    assert joined == front + "  " + m by {
      JoinAppend(ms, m, "  ");
    }
    assert "\r\n" + joined + "\n" + "$ " + line == "\r\n" + front + "  " + m + "\n$ " + line;
  }

  /** The listing shows the candidates separated by two spaces, then the
      prompt with the line. */
  lemma ListingText(a: string, b: string, line: string)
    ensures EffectText(ShowMatches([a, b], line)) == "\r\n" + a + "  " + b + "\n$ " + line
  {
    assert Join([a, b], "  ") == a + "  " + Join([b], "  ");
  }
}
