/**
  What the parser guarantees: the quoting and escaping rules of the argument
  builder, the shape of the commands `parse` returns, the redirection and
  pipeline rules, and the first-word mapping of `build_command`, with worked
  examples of lines.
 */
module ParserProperties {

  import opened Wrappers
  import opened Text
  import opened SupportedCommand
  import opened CommandParser

  /** A word made of characters with no quoting, escaping or separating role. */
  predicate IsPlain(w: string)
  {
    forall i :: 0 <= i < |w| ==> KindOf(w[i]) == NormalChar
  }

  lemma ClassifyAppend(a: string, b: string)
    ensures Classify(a + b) == Classify(a) + Classify(b)
  {
    assert forall i :: 0 <= i < |a + b| ==> Classify(a + b)[i] == (Classify(a) + Classify(b))[i];
  }

  // ---------------------------------------------------------------------------
  // Words
  // ---------------------------------------------------------------------------

  /** `build_arguments` never emits an empty word: starting from non-empty
      words, every word it adds is non-empty. */
  lemma {:induction false} ScanWordsNonEmpty(cs: seq<ClassifiedChar>, mode: Mode, current: string, args: seq<string>)
    requires forall i :: 0 <= i < |args| ==> args[i] != []
    ensures forall i :: 0 <= i < |Scan(cs, mode, current, args)| ==> Scan(cs, mode, current, args)[i] != []
    decreases |cs|
  {
    if cs != [] {
      var t, rest := cs[0], cs[1..];
      match t.kind
      case SingleQuote =>
        if mode == Unquoted { ScanWordsNonEmpty(rest, InSingleQuote, current, args); }
        else if mode == InSingleQuote { ScanWordsNonEmpty(rest, Unquoted, current, args); }
        else { ScanWordsNonEmpty(rest, mode, current + ['\''], args); }
      case DoubleQuote =>
        if mode == Unquoted { ScanWordsNonEmpty(rest, InDoubleQuote, current, args); }
        else if mode == InDoubleQuote { ScanWordsNonEmpty(rest, Unquoted, current, args); }
        else { ScanWordsNonEmpty(rest, mode, current + ['"'], args); }
      case Whitespace =>
        if mode == Unquoted { ScanWordsNonEmpty(rest, mode, [], Flush(args, current)); }
        else { ScanWordsNonEmpty(rest, mode, current + [t.ch], args); }
      case Backslash =>
        if mode == InDoubleQuote {
          if rest == [] { ScanWordsNonEmpty(rest, mode, current + ['\\'], args); }
          else if rest[0].ch == '"' || rest[0].ch == '\\' { ScanWordsNonEmpty(rest[1..], mode, current + [rest[0].ch], args); }
          else { ScanWordsNonEmpty(rest[1..], mode, current + ['\\', rest[0].ch], args); }
        } else if mode == InSingleQuote {
          ScanWordsNonEmpty(rest, mode, current + ['\\'], args);
        } else if rest == [] {
          ScanWordsNonEmpty(rest, mode, current + ['\\'], args);
        } else {
          ScanWordsNonEmpty(rest[1..], mode, current + [rest[0].ch], args);
        }
      case NormalChar => ScanWordsNonEmpty(rest, mode, current + [t.ch], args);
    }
  }

  /** A word in progress is never lost: the scan ends with at least one word. */
  lemma {:induction false} EndsWithWordOf(cs: seq<ClassifiedChar>, mode: Mode, current: string, args: seq<string>)
    requires current != [] || args != []
    ensures Scan(cs, mode, current, args) != []
    decreases |cs|
  {
    if cs != [] {
      var t, rest := cs[0], cs[1..];
      match t.kind
      case SingleQuote =>
        if mode == Unquoted { EndsWithWordOf(rest, InSingleQuote, current, args); }
        else if mode == InSingleQuote { EndsWithWordOf(rest, Unquoted, current, args); }
        else { EndsWithWordOf(rest, mode, current + ['\''], args); }
      case DoubleQuote =>
        if mode == Unquoted { EndsWithWordOf(rest, InDoubleQuote, current, args); }
        else if mode == InDoubleQuote { EndsWithWordOf(rest, Unquoted, current, args); }
        else { EndsWithWordOf(rest, mode, current + ['"'], args); }
      case Whitespace =>
        if mode == Unquoted { EndsWithWordOf(rest, mode, [], Flush(args, current)); }
        else { EndsWithWordOf(rest, mode, current + [t.ch], args); }
      case Backslash =>
        if mode == InDoubleQuote {
          if rest == [] { EndsWithWordOf(rest, mode, current + ['\\'], args); }
          else if rest[0].ch == '"' || rest[0].ch == '\\' { EndsWithWordOf(rest[1..], mode, current + [rest[0].ch], args); }
          else { EndsWithWordOf(rest[1..], mode, current + ['\\', rest[0].ch], args); }
        } else if mode == InSingleQuote {
          EndsWithWordOf(rest, mode, current + ['\\'], args);
        } else if rest == [] {
          EndsWithWordOf(rest, mode, current + ['\\'], args);
        } else {
          EndsWithWordOf(rest[1..], mode, current + [rest[0].ch], args);
        }
      case NormalChar => EndsWithWordOf(rest, mode, current + [t.ch], args);
    }
  }

  /** No word of any line is empty. */
  lemma WordsAreNonEmpty(s: string)
    ensures forall i :: 0 <= i < |WordsOf(s)| ==> WordsOf(s)[i] != []
  {
    ScanWordsNonEmpty(Classify(s), Unquoted, [], []);
  }

  /** Whether the argument builder keeps `ch` as it is when it meets it in
      `mode`: ordinary characters everywhere, anything but the closing quote
      inside single quotes, and anything but a double quote or a backslash
      inside double quotes. */
  predicate KeptIn(ch: char, mode: Mode)
  {
    KindOf(ch) == NormalChar
    || (mode == InSingleQuote && ch != '\'')
    || (mode == InDoubleQuote && ch != '"' && ch != '\\')
  }

  lemma ScanKeepsOne(c: ClassifiedChar, more: seq<ClassifiedChar>, mode: Mode, current: string, args: seq<string>)
    requires c.kind == KindOf(c.ch) && KeptIn(c.ch, mode)
    ensures Scan([c] + more, mode, current, args) == Scan(more, mode, current + [c.ch], args)
  {
    var cs := [c] + more;
    assert cs[0] == c && cs[1..] == more;
  }

  /** A stretch of kept characters is added to the current word unchanged:
      plain text in any mode, the inside of single quotes, and the inside of
      double quotes when it has no double quote or backslash. */
  lemma {:induction false} ScanKeeps(s: string, more: seq<ClassifiedChar>, mode: Mode, current: string, args: seq<string>)
    requires forall i :: 0 <= i < |s| ==> KeptIn(s[i], mode)
    ensures Scan(Classify(s) + more, mode, current, args) == Scan(more, mode, current + s, args)
  {
    if s != [] {
      ClassifyAppend([s[0]], s[1..]);
      assert s == [s[0]] + s[1..];
      assert Classify(s) + more == [ClassifiedChar(s[0], KindOf(s[0]))] + (Classify(s[1..]) + more);
      var c := ClassifiedChar(s[0], KindOf(s[0]));
      calc {
        Scan(Classify(s) + more, mode, current, args);
        Scan([c] + (Classify(s[1..]) + more), mode, current, args);
        { ScanKeepsOne(c, Classify(s[1..]) + more, mode, current, args); }
        Scan(Classify(s[1..]) + more, mode, current + [s[0]], args);
        { ScanKeeps(s[1..], more, mode, current + [s[0]], args); }
        Scan(more, mode, current + [s[0]] + s[1..], args);
        { assert current + [s[0]] + s[1..] == current + s; }
        Scan(more, mode, current + s, args);
      }
    } else {
      assert Classify(s) + more == more;
      assert current + s == current;
    }
  }

  /** A single-quoted stretch adds exactly its inner text to the current word;
      only the closing single quote ends the quoting. */
  lemma SingleQuotedText(s: string, more: seq<ClassifiedChar>, current: string, args: seq<string>)
    requires '\'' !in s
    ensures Scan(Classify("'" + s + "'") + more, Unquoted, current, args) == Scan(more, Unquoted, current + s, args)
  {
    var q := ClassifiedChar('\'', SingleQuote);
    ClassifyAppend("'", s);
    ClassifyAppend("'" + s, "'");
    var tail := Classify(s) + ([q] + more);
    assert Classify("'" + s + "'") + more == [q] + tail;
    assert ([q] + tail)[0] == q && ([q] + tail)[1..] == tail;
    ScanKeeps(s, [q] + more, InSingleQuote, current, args);
    assert ([q] + more)[0] == q && ([q] + more)[1..] == more;
  }

  /** A double-quoted stretch without escapes adds exactly its inner text, blanks
      and single quotes included. */
  lemma DoubleQuotedText(s: string, more: seq<ClassifiedChar>, current: string, args: seq<string>)
    requires '"' !in s && '\\' !in s
    ensures Scan(Classify("\"" + s + "\"") + more, Unquoted, current, args) == Scan(more, Unquoted, current + s, args)
  {
    var q := ClassifiedChar('"', DoubleQuote);
    ClassifyAppend("\"", s);
    ClassifyAppend("\"" + s, "\"");
    var tail := Classify(s) + ([q] + more);
    assert Classify("\"" + s + "\"") + more == [q] + tail;
    assert ([q] + tail)[0] == q && ([q] + tail)[1..] == tail;
    ScanKeeps(s, [q] + more, InDoubleQuote, current, args);
    assert ([q] + more)[0] == q && ([q] + more)[1..] == more;
  }

  /** A single quote that is never closed is not an error: what follows it is
      kept and ends up in the last word. */
  lemma UnterminatedSingleQuote(s: string, current: string, args: seq<string>)
    requires '\'' !in s
    ensures Scan(Classify("'" + s), Unquoted, current, args) == Flush(args, current + s)
  {
    var q := ClassifiedChar('\'', SingleQuote);
    ClassifyAppend("'", s);
    assert Classify("'" + s) == [q] + (Classify(s) + []);
    assert ([q] + (Classify(s) + []))[1..] == Classify(s) + [];
    ScanKeeps(s, [], InSingleQuote, current, args);
  }

  /** The backslash rules. Unquoted, a backslash is dropped and the next
      character kept whatever it is; inside double quotes it is dropped only
      before a double quote or a backslash; inside single quotes it is an
      ordinary character; at the very end of the line it is kept. */
  lemma BackslashRules(b: ClassifiedChar, x: ClassifiedChar, more: seq<ClassifiedChar>, current: string, args: seq<string>)
    requires b.kind == Backslash && b.ch == '\\'
    ensures Scan([b, x] + more, Unquoted, current, args) == Scan(more, Unquoted, current + [x.ch], args)
    ensures x.ch == '"' || x.ch == '\\' ==>
      Scan([b, x] + more, InDoubleQuote, current, args) == Scan(more, InDoubleQuote, current + [x.ch], args)
    ensures x.ch != '"' && x.ch != '\\' ==>
      Scan([b, x] + more, InDoubleQuote, current, args) == Scan(more, InDoubleQuote, current + ['\\', x.ch], args)
    ensures Scan([b] + more, InSingleQuote, current, args) == Scan(more, InSingleQuote, current + ['\\'], args)
    ensures forall mode :: Scan([b], mode, current, args) == Flush(args, current + ['\\'])
  {
    assert ([b, x] + more)[1..] == [x] + more;
    assert ([x] + more)[1..] == more;
  }

  /** Unquoted blanks only separate words: a run of them adds no empty word. */
  lemma BlanksSeparate(w: ClassifiedChar, more: seq<ClassifiedChar>, current: string, args: seq<string>)
    requires w.kind == Whitespace
    ensures Scan([w] + more, Unquoted, current, args) == Scan(more, Unquoted, [], Flush(args, current))
    ensures Scan([w] + more, Unquoted, [], args) == Scan(more, Unquoted, [], args)
  {
    var cs := [w] + more;
    assert cs[0] == w && cs[1..] == more;
  }

  /** Words made of ordinary characters, joined by single spaces, are split
      back into exactly those words. */
  lemma {:induction false} PlainWordsRoundTrip(ws: seq<string>, args: seq<string>)
    requires forall i :: 0 <= i < |ws| ==> ws[i] != [] && IsPlain(ws[i])
    ensures Scan(Classify(Join(ws, " ")), Unquoted, [], args) == args + ws
  {
    if |ws| == 1 {
      ScanKeeps(ws[0], [], Unquoted, [], args);
      assert Classify(ws[0]) + [] == Classify(ws[0]);
    } else if |ws| > 1 {
      var rest := Join(ws[1..], " ");
      var sp := ClassifiedChar(' ', Whitespace);
      ClassifyAppend(ws[0], " " + rest);
      ClassifyAppend(" ", rest);
      assert Join(ws, " ") == ws[0] + (" " + rest);
      assert Classify(" ") == [sp];
      calc {
        Scan(Classify(Join(ws, " ")), Unquoted, [], args);
        Scan(Classify(ws[0]) + ([sp] + Classify(rest)), Unquoted, [], args);
        { ScanKeeps(ws[0], [sp] + Classify(rest), Unquoted, [], args); }
        Scan([sp] + Classify(rest), Unquoted, [] + ws[0], args);
        { assert [] + ws[0] == ws[0];
          BlanksSeparate(sp, Classify(rest), ws[0], args); }
        Scan(Classify(rest), Unquoted, [], args + [ws[0]]);
        { PlainWordsRoundTrip(ws[1..], args + [ws[0]]); }
        args + [ws[0]] + ws[1..];
        { assert args + [ws[0]] + ws[1..] == args + ws; }
        args + ws;
      }
    } else {
      assert Classify(Join(ws, " ")) == [];
      assert args + ws == args;
    }
  }

  // ---------------------------------------------------------------------------
  // The whole line
  // ---------------------------------------------------------------------------

  /** An empty or blank line parses to `NoArgument`. */
  lemma BlankLineIsNoArgument(s: string)
    requires IsBlank(s)
    ensures ParseLine(s) == NoArgument
  {
    TrimIsEmptyIffBlank(s);
    assert Trim(s) == [];
    assert ReplaceAll([], "1>>", ">>") == [];
    assert ReplaceAll([], "1>", ">") == [];
    assert Classify([]) == [];
    assert WordsOf([]) == [];
  }

  /** A line whose word list is empty parses to `NoArgument`, before any pipe
      or redirection is looked for. */
  lemma NoWordsIsNoArgument(s: string)
    requires WordsOf(Normalize(Trim(s))) == []
    ensures ParseLine(s) == NoArgument
  {
  }

  /** `parse` never builds a pipeline inside a pipeline or a redirection, and
      a redirection always wraps a command built from words. */
  lemma ParsedCommandsNeverNest(s: string)
    ensures ParseLine(s).WellFormed()
    ensures ParseLine(s).Pipeline? ==> forall i :: 0 <= i < |ParseLine(s).commands| ==>
      (!ParseLine(s).commands[i].Pipeline? && !ParseLine(s).commands[i].Redirection?)
    ensures ParseLine(s).Redirection? ==> !ParseLine(s).inner.Redirection? && !ParseLine(s).inner.Pipeline?
  {
  }

  /** Pipes are split on the raw text: a line with words and a `|` anywhere,
      even inside quotes, becomes a pipeline of its trimmed segments (or
      `NoArgument` when one has no words), and the segments are exactly the text
      between the bars. */
  lemma PipeSplitsRawText(s: string)
    requires WordsOf(Normalize(Trim(s))) != [] && '|' in Normalize(Trim(s))
    ensures ParseLine(s) == PipelineOf(Split(Normalize(Trim(s)), '|'))
    ensures Join(Split(Normalize(Trim(s)), '|'), "|") == Normalize(Trim(s))
  {
    SplitCount(Normalize(Trim(s)), '|');
    JoinSplit(Normalize(Trim(s)), '|');
  }

  /** A pipeline has one stage per segment, each built from that segment's words. */
  lemma PipelineStages(parts: seq<string>)
    requires PipelineOf(parts).Pipeline?
    ensures |PipelineOf(parts).commands| == |parts|
    ensures forall i :: 0 <= i < |parts| ==>
      (SegmentWords(parts[i]) != [] && PipelineOf(parts).commands[i] == BuildCommand(SegmentWords(parts[i])))
  {
  }

  /** A two-element sequence is the display of its elements. Stated over an
      abstract element type so that the solver does not unfold the commands. */
  lemma PairDisplay<T>(p: seq<T>)
    requires |p| == 2
    ensures p == [p[0], p[1]]
  {
  }

  /** Two segments make a two-stage pipeline, in order. */
  lemma TwoSegmentPipeline(parts: seq<string>)
    requires |parts| == 2 && SegmentsHaveWords(parts)
    ensures PipelineOf(parts) == Pipeline([BuildCommand(SegmentWords(parts[0])), BuildCommand(SegmentWords(parts[1]))])
  {
    PairDisplay(PipelineOf(parts).commands);
  }

  /** Without a pipe, the stage is built from the line's words. */
  lemma NoPipeIsOneStage(s: string)
    requires WordsOf(Normalize(Trim(s))) != [] && '|' !in Normalize(Trim(s))
    ensures ParseLine(s) == FromWords(WordsOf(Normalize(Trim(s))))
  {
    SplitCount(Normalize(Trim(s)), '|');
  }

  lemma FirstOperatorIs(args: seq<string>, p: nat)
    requires p < |args| && IsOperator(args[p])
    requires forall j :: 0 <= j < p ==> !IsOperator(args[j])
    ensures FirstOperator(args) == Some(p)
  {
    assert IsOperator(args[p]);
  }

  /** The first of `>`, `>>`, `2>`, `2>>` that has a word after it makes a
      redirection to that word; the words before it form the inner command
      (`NoArgument` when there are none), and words after the target are
      ignored. */
  lemma RedirectionAtFirstOperator(args: seq<string>, pos: nat)
    requires pos + 1 < |args| && IsOperator(args[pos])
    requires forall j :: 0 <= j < pos ==> !IsOperator(args[j])
    ensures FromWords(args) == Redirection(OperatorKind(args[pos]),
      if pos == 0 then NoArgument else BuildCommand(args[..pos]), args[pos + 1])
    ensures FromWords(args) == FromWords(args[..pos + 2])
  {
    FirstOperatorIs(args, pos);
    FirstOperatorIs(args[..pos + 2], pos);
    assert args[..pos + 2][..pos] == args[..pos];
  }

  /** An operator that is the last word is not a redirection: the words,
      operator included, form a plain command. */
  lemma OperatorAsLastWord(args: seq<string>)
    requires args != [] && IsOperator(args[|args| - 1])
    requires forall j :: 0 <= j < |args| - 1 ==> !IsOperator(args[j])
    ensures FromWords(args) == BuildCommand(args)
  {
    FirstOperatorIs(args, |args| - 1);
  }

  /** Each operator selects its kind: `>` and `>>` capture the output, `2>` and
      `2>>` the errors; the doubled forms append. */
  lemma OperatorKinds()
    ensures OperatorKind(">") == OverwriteOnlySuccess
    ensures OperatorKind(">>") == AppendOnlySuccess
    ensures OperatorKind("2>") == OverwriteOnlyError
    ensures OperatorKind("2>>") == AppendOnlyError
  {
  }

  // ---------------------------------------------------------------------------
  // Normalisation of `1>` and `1>>`
  // ---------------------------------------------------------------------------

  lemma {:induction false} ReplaceAllSkipsPrefix(a: string, b: string, pat: string, rep: string)
    requires pat != [] && pat[0] !in a
    ensures ReplaceAll(a + b, pat, rep) == a + ReplaceAll(b, pat, rep)
    decreases |a|
  {
    if a != [] {
      var s := a + b;
      if |s| >= |pat| {
        assert s[..|pat|][0] == a[0];
        assert s[1..] == a[1..] + b;
        ReplaceAllSkipsPrefix(a[1..], b, pat, rep);
        assert a == [a[0]] + a[1..];
      } else {
        assert ReplaceAll(s, pat, rep) == s;
        assert ReplaceAll(b, pat, rep) == b;
      }
    } else {
      assert a + b == b;
      assert a + ReplaceAll(b, pat, rep) == ReplaceAll(b, pat, rep);
    }
  }

  /** When `a` is at least as long as the pattern, the first step of the scan
      over `a + m` is decided inside `a`: it is the first step over `a`. */
  lemma ReplaceAllFirstStep(a: string, m: string, pat: string, rep: string)
    requires pat != [] && |a| >= |pat|
    ensures var k := if a[..|pat|] == pat then |pat| else 1;
      var head := if a[..|pat|] == pat then rep else a[..1];
      ReplaceAll(a + m, pat, rep) == head + ReplaceAll(a[k..] + m, pat, rep)
      && ReplaceAll(a, pat, rep) == head + ReplaceAll(a[k..], pat, rep)
  {
    var s := a + m;
    assert s[..|pat|] == a[..|pat|];
    if a[..|pat|] == pat {
      assert s[|pat|..] == a[|pat|..] + m;
    } else {
      assert s[1..] == a[1..] + m;
      assert a[..1] == [a[0]];
    }
  }

  /** No occurrence of `pat` can straddle the end of `a` when `m` starts with a
      character that occurs in `pat` only at its head: the two halves are
      rewritten separately. */
  lemma {:induction false} ReplaceAllAcross(a: string, m: string, pat: string, rep: string)
    requires pat != [] && m != [] && m[0] !in pat[1..]
    ensures ReplaceAll(a + m, pat, rep) == ReplaceAll(a, pat, rep) + ReplaceAll(m, pat, rep)
    decreases |a|
  {
    var s := a + m;
    if a == [] {
      assert s == m;
    } else if |s| < |pat| {
      assert ReplaceAll(s, pat, rep) == s;
    } else if |a| < |pat| {
      assert s[..|pat|] != pat by {
        assert s[..|pat|][|a|] == m[0];
        assert pat[|a|] == pat[1..][|a| - 1];
      }
      assert s[1..] == a[1..] + m;
      ReplaceAllAcross(a[1..], m, pat, rep);
      assert a == [a[0]] + a[1..];
    } else {
      ReplaceAllFirstStep(a, m, pat, rep);
      var k := if a[..|pat|] == pat then |pat| else 1;
      ReplaceAllAcross(a[k..], m, pat, rep);
    }
  }

  /** The same for a two-character pattern when `a` does not end in the
      pattern's first character. */
  lemma {:induction false} ReplaceAllAcrossPair(a: string, m: string, pat: string, rep: string)
    requires |pat| == 2 && (a == [] || a[|a| - 1] != pat[0])
    ensures ReplaceAll(a + m, pat, rep) == ReplaceAll(a, pat, rep) + ReplaceAll(m, pat, rep)
    decreases |a|
  {
    var s := a + m;
    if a == [] {
      assert s == m;
    } else if |a| == 1 {
      assert ReplaceAll(a, pat, rep) == a;
      if m == [] {
        assert s == a;
      } else {
        assert s[..2] != pat by {
          assert s[..2][0] == a[0];
        }
        assert s[1..] == m;
      }
    } else {
      ReplaceAllFirstStep(a, m, pat, rep);
      var k := if a[..2] == pat then 2 else 1;
      var t := a[k..];
      assert t == [] || t[|t| - 1] == a[|a| - 1];
      ReplaceAllAcrossPair(t, m, pat, rep);
    }
  }

  /** An occurrence of a pattern whose head does not recur in it is rewritten,
      and the text on either side is rewritten on its own. */
  lemma ReplaceAllAround(a: string, b: string, pat: string, rep: string)
    requires pat != [] && pat[0] !in pat[1..]
    ensures ReplaceAll(a + pat + b, pat, rep) == ReplaceAll(a, pat, rep) + rep + ReplaceAll(b, pat, rep)
  {
    var m := pat + b;
    assert a + pat + b == a + m;
    ReplaceAllAcross(a, m, pat, rep);
    assert m[..|pat|] == pat && m[|pat|..] == b;
  }

  /** Rewriting never makes the text end in `c` when neither the text nor the
      replacement does. */
  lemma {:induction false} ReplaceAllLastChar(s: string, pat: string, rep: string, c: char)
    requires pat != [] && (s == [] || s[|s| - 1] != c) && rep != [] && rep[|rep| - 1] != c
    ensures var r := ReplaceAll(s, pat, rep); (r == [] <==> s == []) && (r == [] || r[|r| - 1] != c)
    decreases |s|
  {
    if |s| >= |pat| {
      if s[..|pat|] == pat {
        ReplaceAllLastChar(s[|pat|..], pat, rep, c);
      } else {
        var t := ReplaceAll(s[1..], pat, rep);
        ReplaceAllLastChar(s[1..], pat, rep, c);
        assert ReplaceAll(s, pat, rep) == [s[0]] + t;
        if t == [] {
          assert s == [s[0]];
        }
      }
    }
  }

  /** The `1>>` pass leaves a `1>` alone when no `>` follows it. */
  lemma OneGreaterSurvivesFirstPass(a: string, b: string)
    requires b == [] || b[0] != '>'
    ensures ReplaceAll(a + "1>" + b, "1>>", ">>")
         == ReplaceAll(a, "1>>", ">>") + "1>" + ReplaceAll(b, "1>>", ">>")
  {
    assert a + "1>" + b == a + ("1>" + b);
    ReplaceAllAcross(a, "1>" + b, "1>>", ">>");
    if b == [] {
      assert "1>" + b == "1>";
    } else {
      ReplaceAllAcross("1>", b, "1>>", ">>");
    }
  }

  /** `1>` not followed by another `>` becomes `>`, and the text on either side
      is normalised on its own. */
  lemma NormalizeRewritesOneGreater(a: string, b: string)
    requires b == [] || b[0] != '>'
    ensures Normalize(a + "1>" + b) == Normalize(a) + ">" + Normalize(b)
  {
    var a1 := ReplaceAll(a, "1>>", ">>");
    var b1 := ReplaceAll(b, "1>>", ">>");
    OneGreaterSurvivesFirstPass(a, b);
    ReplaceAllAround(a1, b1, "1>", ">");
    assert Normalize(a + "1>" + b) == ReplaceAll(a1 + "1>" + b1, "1>", ">");
  }

  /** The `1>` pass leaves `>>` alone when the text before it does not end in
      `1`. */
  lemma GreaterGreaterSurvivesSecondPass(a: string, b: string)
    requires a == [] || a[|a| - 1] != '1'
    ensures ReplaceAll(a + ">>" + b, "1>", ">") == ReplaceAll(a, "1>", ">") + ">>" + ReplaceAll(b, "1>", ">")
  {
    var m := ">>" + b;
    assert a + ">>" + b == a + m;
    assert ReplaceAll(a + m, "1>", ">") == ReplaceAll(a, "1>", ">") + ReplaceAll(m, "1>", ">") by {
      ReplaceAllAcrossPair(a, m, "1>", ">");
    }
    assert ReplaceAll(m, "1>", ">") == ">>" + ReplaceAll(b, "1>", ">") by {
      ReplaceAllSkipsPrefix(">>", b, "1>", ">");
    }
  }

  /** `1>>` becomes `>>`, and the text on either side is normalised on its own,
      unless the text before it ends in another `1`. */
  lemma NormalizeRewritesOneGreaterGreater(a: string, b: string)
    requires a == [] || a[|a| - 1] != '1'
    ensures Normalize(a + "1>>" + b) == Normalize(a) + ">>" + Normalize(b)
  {
    var a1 := ReplaceAll(a, "1>>", ">>");
    var b1 := ReplaceAll(b, "1>>", ">>");
    ReplaceAllAround(a, b, "1>>", ">>");
    ReplaceAllLastChar(a, "1>>", ">>", '1');
    GreaterGreaterSurvivesSecondPass(a1, b1);
    assert Normalize(a + "1>>" + b) == ReplaceAll(a1 + ">>" + b1, "1>", ">");
  }

  /** A line without the digit `1` is not touched by the normalisation. */
  lemma NormalizeWithoutOne(s: string)
    requires '1' !in s
    ensures Normalize(s) == s
  {
    ReplaceAllWithoutPattern(s, "1>>", ">>");
    ReplaceAllWithoutPattern(s, "1>", ">");
  }

  /** The normalisation never lengthens the line. */
  lemma NormalizeNoLonger(s: string)
    ensures |Normalize(s)| <= |s|
  {
    ReplaceAllBounds(s, "1>>", ">>");
    ReplaceAllBounds(ReplaceAll(s, "1>>", ">>"), "1>", ">");
  }

  /** A `1` just before `1>>` is taken into a second rewrite: `11>>` is
      normalised to `>>`, not to `1>>`. */
  lemma DoubledOneBeforeAppend()
    ensures Normalize("11>>") == ">>"
  {
    var t := "11>>";
    assert t == "1" + "1>>" + "";
    ReplaceAllAround("1", "", "1>>", ">>");
    assert ReplaceAll(t, "1>>", ">>") == "1>>";
    assert "1>>" == "" + "1>" + ">";
    ReplaceAllAround("", ">", "1>", ">");
  }

  // ---------------------------------------------------------------------------
  // build_command
  // ---------------------------------------------------------------------------

  /** The first word selects the variant; a name outside the reserved six
      gives an external invocation with the remaining words. */
  lemma FirstWordSelectsVariant(args: seq<string>)
    requires args != []
    ensures args[0] == "echo" ==> BuildCommand(args) == Echo(args[1..])
    ensures args[0] == "exit" ==> BuildCommand(args) == Exit
    ensures args[0] == "pwd" ==> BuildCommand(args) == Pwd
    ensures args[0] == "cd" ==> BuildCommand(args) == ChangeDir(if |args| == 1 then "" else args[1])
    ensures args[0] == "history" ==> BuildCommand(args).History?
    ensures args[0] == "type" ==> (BuildCommand(args).NoArgument? <==> |args| == 1)
    ensures !IsReserved(args[0]) ==> BuildCommand(args) == Unspecified(args[0], args[1..])
  {
  }

  /** `type X` asks the built-in question exactly when X is one of the five
      built-in names, and otherwise looks X up as an executable. */
  lemma TypeResolvesBuiltins(x: string, rest: seq<string>)
    ensures BuildCommand(["type", x] + rest) == if Supported(x) then TypeCheck(x) else LocateExecutable(x)
    ensures BuildCommand(["type", x] + rest).TypeCheck? <==> x in Commands()
  {
    assert (["type", x] + rest)[1..] == [x] + rest;
  }

  /** The arguments of `history` give a display exactly when there are none
      or the first is not one of the three flags; a display limit is a `usize`
      read from the first argument; a file action takes the path argument. */
  lemma HistoryActionCases(rest: seq<string>)
    ensures rest == [] ==> HistoryActionOf(rest) == Display(None)
    ensures HistoryActionOf(rest).Display? <==> rest == [] || rest[0] !in {"-r", "-w", "-a"}
    ensures HistoryActionOf(rest).Display? && HistoryActionOf(rest).limit.Some? ==>
      rest != [] && HistoryActionOf(rest).limit.value < UsizeLimit
    ensures !HistoryActionOf(rest).Display? ==> HistoryActionOf(rest).path == PathArgument(rest)
  {
  }

  /** `history -r`, `-w`, `-a` take the next word as the path, or the empty
      path when there is none. */
  lemma HistoryFlags(flag: string, rest: seq<string>)
    ensures BuildCommand(["history", "-r"]) == History(Read(""))
    ensures BuildCommand(["history", "-w"]) == History(Write(""))
    ensures BuildCommand(["history", "-a"]) == History(Append(""))
    ensures BuildCommand(["history", "-r", flag] + rest) == History(Read(flag))
    ensures BuildCommand(["history", "-w", flag] + rest) == History(Write(flag))
    ensures BuildCommand(["history", "-a", flag] + rest) == History(Append(flag))
  {
    assert (["history", "-r", flag] + rest)[1..] == ["-r", flag] + rest;
    assert (["history", "-w", flag] + rest)[1..] == ["-w", flag] + rest;
    assert (["history", "-a", flag] + rest)[1..] == ["-a", flag] + rest;
  }

  /** `history N` displays the last N entries for every N that a `usize` can
      hold, and `history` alone displays everything. */
  lemma HistoryLimit(n: nat)
    requires n < UsizeLimit
    ensures BuildCommand(["history", NatToString(n)]) == History(Display(Some(n)))
    ensures BuildCommand(["history"]) == History(Display(None))
  {
    ParseUsizeOfNatToString(n);
    var d := NatToString(n);
    assert d[0] != '-' by { assert IsDigit(d[0]); }
  }

  /** A first argument that is not a flag and does not parse as a `usize`
      (a word, a negative number, a number past the `usize` range) sets no
      limit: everything is displayed. */
  lemma HistoryNonNumericArgument(w: string, rest: seq<string>)
    requires ParseUsize(w).None? && w != "-r" && w != "-w" && w != "-a"
    ensures BuildCommand(["history", w] + rest) == History(Display(None))
  {
    assert (["history", w] + rest)[1..] == [w] + rest;
  }
}
