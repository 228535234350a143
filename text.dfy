/**
  The string operations of Rust's standard library that the shell relies on,
  written out over `seq<char>` (a Rust `char` is a Unicode scalar value, as is a
  Dafny `char`).
 */
module Text {

  import opened Wrappers

  /** `char::is_whitespace`: the Unicode White_Space property. */
  predicate IsWhitespace(c: char)
  {
    c == ' ' || ('\t' <= c <= '\r') || c == '\U{85}' || c == '\U{A0}' || c == '\U{1680}'
    || ('\U{2000}' <= c <= '\U{200A}') || c == '\U{2028}' || c == '\U{2029}'
    || c == '\U{202F}' || c == '\U{205F}' || c == '\U{3000}'
  }

  /** `s.trim().is_empty()` */
  predicate IsBlank(s: string)
  {
    forall i :: 0 <= i < |s| ==> IsWhitespace(s[i])
  }

  /** `str::trim_start`: drops leading whitespace, keeps the rest as it is. */
  function TrimStart(s: string): (r: string)
    ensures |r| <= |s| && r == s[|s| - |r|..]
    ensures IsBlank(s[..|s| - |r|])
    ensures r == [] || !IsWhitespace(r[0])
  {
    if s != [] && IsWhitespace(s[0]) then
      var r := TrimStart(s[1..]);
      assert s[1..][..|s[1..]| - |r|] == s[1..|s| - |r|];
      r
    else s
  }

  /** `str::trim_end`: drops trailing whitespace, keeps the rest as it is. */
  function TrimEnd(s: string): (r: string)
    ensures r <= s
    ensures IsBlank(s[|r|..])
    ensures r == [] || !IsWhitespace(r[|r| - 1])
  {
    if s != [] && IsWhitespace(s[|s| - 1]) then
      var r := TrimEnd(s[..|s| - 1]);
      assert s[..|s| - 1][|r|..] + [s[|s| - 1]] == s[|r|..];
      r
    else s
  }

  /** `str::trim` */
  function Trim(s: string): string
  {
    TrimEnd(TrimStart(s))
  }

  /** `trim_end_matches(c)`: drops every trailing occurrence of `c`. */
  function TrimEndMatches(s: string, c: char): (r: string)
    ensures r <= s
    ensures forall i :: |r| <= i < |s| ==> s[i] == c
    ensures r == [] || r[|r| - 1] != c
  {
    if s != [] && s[|s| - 1] == c then TrimEndMatches(s[..|s| - 1], c) else s
  }

  /** `slice.join(sep)` */
  function Join(ws: seq<string>, sep: string): string
  {
    if |ws| == 0 then ""
    else if |ws| == 1 then ws[0]
    else ws[0] + sep + Join(ws[1..], sep)
  }

  /** The position of the first `c` in `s`, or `|s|` when there is none. */
  function IndexOf(s: string, c: char): (i: nat)
    ensures i <= |s|
    ensures i < |s| ==> s[i] == c
    ensures c !in s[..i]
    ensures i == |s| <==> c !in s
  {
    if s == [] then 0
    else if s[0] == c then 0
    else
      var i := 1 + IndexOf(s[1..], c);
      assert s[..i] == [s[0]] + s[1..][..i - 1];
      i
  }

  /** `str::replace(pat, rep)`: replaces, scanning left to right, every
      non-overlapping occurrence of `pat`. */
  function ReplaceAll(s: string, pat: string, rep: string): string
    requires pat != []
    decreases |s|
  {
    if |s| < |pat| then s
    else if s[..|pat|] == pat then rep + ReplaceAll(s[|pat|..], pat, rep)
    else [s[0]] + ReplaceAll(s[1..], pat, rep)
  }

  /** `str::split(sep)` collected into a vector: the pieces between separators,
      empty pieces included. */
  function Split(s: string, sep: char): (r: seq<string>)
    ensures |r| >= 1
  {
    if s == [] then [""]
    else
      var rest := Split(s[1..], sep);
      if s[0] == sep then [""] + rest
      else [[s[0]] + rest[0]] + rest[1..]
  }

  /** One line as `BufRead::lines` yields it: the `\n` is already gone, and a
      `\r` just before it is removed too. */
  function StripCarriageReturn(line: string): (r: string)
    ensures r <= line
  {
    if line != [] && line[|line| - 1] == '\r' then line[..|line| - 1] else line
  }

  /** `BufRead::lines` on the whole text of a file. */
  function Lines(s: string): seq<string>
    decreases |s|
  {
    if s == [] then []
    else
      var i := IndexOf(s, '\n');
      if i == |s| then [s]
      else [StripCarriageReturn(s[..i])] + Lines(s[i + 1..])
  }

  /** The text that `writeln!` writes for each of `lines`, in order. */
  function Unlines(lines: seq<string>): string
  {
    if lines == [] then "" else lines[0] + "\n" + Unlines(lines[1..])
  }

  /** The non-blank lines of `lines`, in order. */
  function NonBlank(lines: seq<string>): (r: seq<string>)
    ensures forall l :: l in r ==> l in lines && !IsBlank(l)
  {
    if lines == [] then []
    else if IsBlank(lines[0]) then NonBlank(lines[1..])
    else [lines[0]] + NonBlank(lines[1..])
  }

  function DigitChar(d: nat): char
    requires d < 10
  {
    ['0', '1', '2', '3', '4', '5', '6', '7', '8', '9'][d]
  }

  predicate IsDigit(c: char)
  {
    '0' <= c <= '9'
  }

  /** A string of ASCII decimal digits only (possibly empty). */
  predicate AllDigits(s: string)
  {
    forall i :: 0 <= i < |s| ==> IsDigit(s[i])
  }

  function DigitValue(c: char): nat
    requires IsDigit(c)
  {
    (c as int - '0' as int) as nat
  }

  /** The decimal notation of `n`, as `format!("{}", n)` writes it. */
  function NatToString(n: nat): (r: string)
    ensures r != [] && AllDigits(r)
    ensures r[0] == '0' ==> n == 0
  {
    if n < 10 then [DigitChar(n)] else NatToString(n / 10) + [DigitChar(n % 10)]
  }

  /** The value of a non-empty string of decimal digits. */
  function DigitsValue(s: string): nat
    requires AllDigits(s)
  {
    if s == [] then 0 else DigitsValue(s[..|s| - 1]) * 10 + DigitValue(s[|s| - 1])
  }

  const UsizeLimit: nat := 0x1_0000_0000_0000_0000

  /** `str::parse::<usize>()` on a 64-bit target: an optional `+`, then one or
      more ASCII digits whose value fits in 64 bits. */
  function ParseUsize(s: string): (r: Option<nat>)
    ensures r.Some? ==> r.value < UsizeLimit
  {
    var digits := if s != [] && s[0] == '+' then s[1..] else s;
    if digits != [] && AllDigits(digits) && DigitsValue(digits) < UsizeLimit
    then Some(DigitsValue(digits))
    else None
  }

  /** `format!("{:5}", n)`-style right alignment: spaces in front up to width `w`. */
  function PadLeft(s: string, w: nat): (r: string)
    ensures |r| == if |s| < w then w else |s|
    ensures r[|r| - |s|..] == s
    ensures forall i :: 0 <= i < |r| - |s| ==> r[i] == ' '
  {
    if |s| >= w then s else seq(w - |s|, _ => ' ') + s
  }

  /** The number of bytes of the UTF-8 encoding of `c`. */
  function Utf8Width(c: char): nat
  {
    if c as int < 0x80 then 1 else if c as int < 0x800 then 2 else if c as int < 0x10000 then 3 else 4
  }

  /** `String::len`: the length of the UTF-8 encoding. */
  function Utf8Len(s: string): nat
  {
    if s == [] then 0 else Utf8Len(s[..|s| - 1]) + Utf8Width(s[|s| - 1])
  }

  // ---------------------------------------------------------------------------
  // Properties of the string operations
  // ---------------------------------------------------------------------------

  /** `str::trim` never lengthens the text, and what it returns neither starts
      nor ends with whitespace. */
  lemma TrimEnds(s: string)
    ensures |Trim(s)| <= |s|
    ensures Trim(s) == [] || (!IsWhitespace(Trim(s)[0]) && !IsWhitespace(Trim(s)[|Trim(s)| - 1]))
  {
    assert Trim(s) <= TrimStart(s);
  }

  /** A string trims to nothing exactly when it is blank. */
  lemma TrimIsEmptyIffBlank(s: string)
    ensures Trim(s) == [] <==> IsBlank(s)
  {
    var t := TrimStart(s);
    if t != [] {
      assert !IsWhitespace(t[0]) && t[0] == s[|s| - |t|];
      assert t[0..] == t;
    } else {
      assert s[..|s|] == s;
    }
  }

  /** `trim_start` drops a blank prefix and stops at the first other character. */
  lemma {:induction false} TrimStartSkipsBlank(b: string, s: string)
    requires IsBlank(b) && s != [] && !IsWhitespace(s[0])
    ensures TrimStart(b + s) == s
  {
    if b == [] {
      assert b + s == s;
    } else {
      assert (b + s)[0] == b[0];
      assert (b + s)[1..] == b[1..] + s;
      TrimStartSkipsBlank(b[1..], s);
    }
  }

  /** Trimming a trimmed text changes nothing, and a trimmed text is blank
      only when it is empty. */
  lemma TrimIdempotent(s: string)
    ensures Trim(Trim(s)) == Trim(s)
    ensures IsBlank(Trim(s)) <==> Trim(s) == []
  {
    var u := TrimStart(s);
    var t := TrimEnd(u);
    if t != [] {
      assert t[0] == u[0];
      assert !IsWhitespace(t[0]) && !IsWhitespace(t[|t| - 1]);
      assert TrimStart(t) == t;
      assert TrimEnd(t) == t;
    }
  }

  /** Joining one more word adds the separator and the word at the end. */
  lemma {:induction false} JoinAppend(ws: seq<string>, w: string, sep: string)
    requires ws != []
    ensures Join(ws + [w], sep) == Join(ws, sep) + sep + w
  {
    if |ws| > 1 {
      assert (ws + [w])[1..] == ws[1..] + [w];
      JoinAppend(ws[1..], w, sep);
    }
  }

  /** A join starts with the first word and ends with the last; no words
      join to the empty text. */
  lemma {:induction false} JoinEnds(ws: seq<string>, sep: string)
    ensures ws == [] ==> Join(ws, sep) == []
    ensures ws != [] ==> ws[0] <= Join(ws, sep)
    ensures |ws| >= 2 ==> ws[0] + sep <= Join(ws, sep)
    ensures ws != [] ==>
      |ws[|ws| - 1]| <= |Join(ws, sep)| && Join(ws, sep)[|Join(ws, sep)| - |ws[|ws| - 1]|..] == ws[|ws| - 1]
  {
    if |ws| >= 2 {
      JoinEnds(ws[1..], sep);
      var r := Join(ws, sep);
      var tail := Join(ws[1..], sep);
      assert r == ws[0] + sep + tail;
      assert ws[1..][|ws[1..]| - 1] == ws[|ws| - 1];
      assert r[|r| - |tail|..] == tail;
    }
  }

  /** `split` then `join` with the same separator gives the text back. */
  lemma {:induction false} JoinSplit(s: string, sep: char)
    ensures Join(Split(s, sep), [sep]) == s
  {
    if s != [] {
      var rest := Split(s[1..], sep);
      JoinSplit(s[1..], sep);
      assert s == [s[0]] + s[1..];
      if s[0] != sep && |rest| > 1 {
        assert Join(rest, [sep]) == rest[0] + [sep] + Join(rest[1..], [sep]);
      }
    }
  }

  /** No piece of a split holds the separator. */
  lemma {:induction false} SplitPiecesLackSeparator(s: string, sep: char)
    ensures forall i :: 0 <= i < |Split(s, sep)| ==> sep !in Split(s, sep)[i]
  {
    if s != [] {
      var rest := Split(s[1..], sep);
      SplitPiecesLackSeparator(s[1..], sep);
      var r := Split(s, sep);
      forall i | 0 <= i < |r|
        ensures sep !in r[i]
      {
        if i > 0 {
          assert r[i] == rest[i - (if s[0] == sep then 1 else 0)];
        } else if s[0] != sep {
          assert r[0] == [s[0]] + rest[0];
        }
      }
    }
  }

  /** There is more than one piece exactly when the separator occurs. */
  lemma {:induction false} SplitCount(s: string, sep: char)
    ensures |Split(s, sep)| > 1 <==> sep in s
  {
    if s != [] {
      SplitCount(s[1..], sep);
      assert s == [s[0]] + s[1..];
    }
  }

  /** The first piece of a split runs up to the first separator; a text
      without the separator is a single piece. */
  lemma {:induction false} SplitAtFirst(a: string, sep: char, b: string)
    requires sep !in a
    ensures Split(a + [sep] + b, sep) == [a] + Split(b, sep)
    ensures Split(a, sep) == [a]
  {
    var s := a + [sep] + b;
    if a == [] {
      assert s[0] == sep && s[1..] == b;
    } else {
      assert s[0] == a[0] && s[1..] == a[1..] + [sep] + b;
      SplitAtFirst(a[1..], sep, b);
      assert [a[0]] + a[1..] == a;
    }
  }

  /** Where a separator ends the first piece, `IndexOf` finds it. */
  lemma IndexOfAfter(a: string, c: char, b: string)
    requires c !in a
    ensures IndexOf(a + [c] + b, c) == |a|
  {
    var s := a + [c] + b;
    var i := IndexOf(s, c);
    assert s[|a|] == c && s[..|a|] == a;
    assert forall j :: 0 <= j < |a| ==> s[j] == a[j];
  }

  /** Lines that hold no newline and do not end in a carriage return are read
      back by `BufRead::lines` exactly as `writeln!` wrote them. */
  lemma {:induction false} LinesOfUnlines(ls: seq<string>)
    requires forall i :: 0 <= i < |ls| ==> '\n' !in ls[i] && (ls[i] == [] || ls[i][|ls[i]| - 1] != '\r')
    ensures Lines(Unlines(ls)) == ls
  {
    if ls != [] {
      var s := Unlines(ls);
      assert s == ls[0] + ['\n'] + Unlines(ls[1..]);
      IndexOfAfter(ls[0], '\n', Unlines(ls[1..]));
      assert s[..|ls[0]|] == ls[0];
      assert s[|ls[0]| + 1..] == Unlines(ls[1..]);
      LinesOfUnlines(ls[1..]);
    }
  }

  /** `BufRead::lines` yields no line for an empty file, at least one for any
      other text, and never a line holding a newline. */
  lemma {:induction false} LinesLackNewline(s: string)
    ensures Lines(s) == [] <==> s == []
    ensures forall k :: 0 <= k < |Lines(s)| ==> '\n' !in Lines(s)[k]
    decreases |s|
  {
    if s != [] {
      var i := IndexOf(s, '\n');
      if i < |s| {
        var first := StripCarriageReturn(s[..i]);
        var rest := Lines(s[i + 1..]);
        assert '\n' !in first by {
          assert first == s[..i][..|first|];
        }
        LinesLackNewline(s[i + 1..]);
        assert Lines(s) == [first] + rest;
        forall k | 0 <= k < |Lines(s)|
          ensures '\n' !in Lines(s)[k]
        {
          if k > 0 {
            assert Lines(s)[k] == rest[k - 1];
          }
        }
      }
    }
  }

  /** The text written for a non-empty list of lines is not empty and ends in
      a newline; no lines give an empty file. */
  lemma {:induction false} UnlinesEndsInNewline(lines: seq<string>)
    ensures Unlines(lines) == [] <==> lines == []
    ensures lines != [] ==> Unlines(lines)[|Unlines(lines)| - 1] == '\n'
  {
    if lines != [] {
      UnlinesEndsInNewline(lines[1..]);
    }
  }

  lemma {:induction false} UnlinesAppend(a: seq<string>, b: seq<string>)
    ensures Unlines(a + b) == Unlines(a) + Unlines(b)
  {
    if a != [] {
      assert (a + b)[1..] == a[1..] + b;
      UnlinesAppend(a[1..], b);
    } else {
      assert a + b == b;
    }
  }

  /** Writing one more line extends the text by that line. */
  lemma UnlinesPrefixStep(lines: seq<string>, k: nat)
    requires k < |lines|
    ensures Unlines(lines[..k + 1]) == Unlines(lines[..k]) + (lines[k] + "\n")
  {
    assert lines[..k + 1] == lines[..k] + [lines[k]];
    UnlinesAppend(lines[..k], [lines[k]]);
    assert Unlines([lines[k]]) == lines[k] + "\n" + Unlines([]);
  }

  /** The same step on a slice that does not start at the beginning. */
  lemma UnlinesSliceStep(lines: seq<string>, start: nat, end: nat)
    requires start < end <= |lines|
    ensures Unlines(lines[start..end]) == Unlines(lines[start..end - 1]) + (lines[end - 1] + "\n")
  {
    assert lines[start..end] == lines[start..end - 1] + [lines[end - 1]];
    UnlinesAppend(lines[start..end - 1], [lines[end - 1]]);
    assert Unlines([lines[end - 1]]) == lines[end - 1] + "\n" + Unlines([]);
  }

  lemma {:induction false} NonBlankAppend(a: seq<string>, b: seq<string>)
    ensures NonBlank(a + b) == NonBlank(a) + NonBlank(b)
  {
    if a != [] {
      assert (a + b)[1..] == a[1..] + b;
      NonBlankAppend(a[1..], b);
    } else {
      assert a + b == b;
    }
  }

  /** Filtering lines that are all non-blank keeps every one of them. */
  lemma {:induction false} NonBlankKeepsAll(ls: seq<string>)
    requires forall i :: 0 <= i < |ls| ==> !IsBlank(ls[i])
    ensures NonBlank(ls) == ls
  {
    if ls != [] {
      NonBlankKeepsAll(ls[1..]);
    }
  }

  lemma DigitRoundTrip(d: nat)
    requires d < 10
    ensures IsDigit(DigitChar(d)) && DigitValue(DigitChar(d)) == d
  {
  }

  /** Reading back the decimal notation of a number gives the number. */
  lemma {:induction false} DigitsValueOfNatToString(n: nat)
    ensures DigitsValue(NatToString(n)) == n
  {
    var s := NatToString(n);
    if n < 10 {
      DigitRoundTrip(n);
      assert s[..0] == [];
    } else {
      DigitsValueOfNatToString(n / 10);
      DigitRoundTrip(n % 10);
      assert s[..|s| - 1] == NatToString(n / 10);
    }
  }

  /** `parse::<usize>()` reads back every 64-bit number `format!` writes. */
  lemma ParseUsizeOfNatToString(n: nat)
    requires n < UsizeLimit
    ensures ParseUsize(NatToString(n)) == Some(n)
  {
    DigitsValueOfNatToString(n);
  }

  /** Replacing a pattern by itself changes nothing, and a replacement no
      longer than the pattern never lengthens the text. */
  lemma {:induction false} ReplaceAllBounds(s: string, pat: string, rep: string)
    requires pat != []
    ensures rep == pat ==> ReplaceAll(s, pat, rep) == s
    ensures |rep| <= |pat| ==> |ReplaceAll(s, pat, rep)| <= |s|
    decreases |s|
  {
    if |s| >= |pat| {
      if s[..|pat|] == pat {
        ReplaceAllBounds(s[|pat|..], pat, rep);
        assert s == s[..|pat|] + s[|pat|..];
      } else {
        ReplaceAllBounds(s[1..], pat, rep);
        assert s == [s[0]] + s[1..];
      }
    }
  }

  /** A text in which the pattern's first character never occurs is left as it is. */
  lemma {:induction false} ReplaceAllWithoutPattern(s: string, pat: string, rep: string)
    requires pat != [] && pat[0] !in s
    ensures ReplaceAll(s, pat, rep) == s
  {
    if |s| >= |pat| {
      assert s[..|pat|][0] == s[0];
      ReplaceAllWithoutPattern(s[1..], pat, rep);
      assert s == [s[0]] + s[1..];
    }
  }

  /** A strictly longer extension has a strictly longer UTF-8 encoding. */
  lemma {:induction false} Utf8LenProperPrefix(a: string, b: string)
    requires a < b
    ensures Utf8Len(a) < Utf8Len(b)
  {
    var b' := b[..|b| - 1];
    if a != b' {
      assert a < b';
      Utf8LenProperPrefix(a, b');
    }
  }
}
