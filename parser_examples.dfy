/**
  Whole lines and the commands `parse` makes of them, derived from the general
  properties of the parser.
 */
module ParserExamples {

  import opened Wrappers
  import opened Text
  import opened SupportedCommand
  import opened CommandParser
  import opened ParserProperties

  /** A text that neither starts nor ends with whitespace is left as it is by `trim`. */
  lemma TrimKeepsInner(s: string)
    requires s != [] && !IsWhitespace(s[0]) && !IsWhitespace(s[|s| - 1])
    ensures Trim(s) == s
  {
  }

  /** A line that needs neither trimming nor normalisation and has no pipe is
      one stage built from its words. */
  lemma SimpleLine(s: string)
    requires s != [] && !IsWhitespace(s[0]) && !IsWhitespace(s[|s| - 1])
    requires '1' !in s && '|' !in s && WordsOf(s) != []
    ensures ParseLine(s) == FromWords(WordsOf(s))
  {
    TrimKeepsInner(s);
    NormalizeWithoutOne(s);
    NoPipeIsOneStage(s);
  }

  lemma WordsOfEchoHelloWorld(s: string)
    requires s == "echo hello world"
    ensures '1' !in s && '|' !in s && WordsOf(s) == ["echo", "hello", "world"]
  {
    var ws := ["echo", "hello", "world"];
    assert Join(ws, " ") == s;
    PlainWordsRoundTrip(ws, []);
  }

  /** `echo hello world` echoes the two words. */
  lemma EchoPlainWords(s: string)
    requires s == "echo hello world"
    ensures ParseLine(s) == Echo(["hello", "world"])
  {
    WordsOfEchoHelloWorld(s);
    SimpleLine(s);
    assert FirstOperator(["echo", "hello", "world"]) == None;
  }

  lemma WordsOfEchoQuotedBlanks(s: string)
    requires s == "echo 'a  b'"
    ensures '1' !in s && '|' !in s && WordsOf(s) == ["echo", "a  b"]
  {
    var sp := ClassifiedChar(' ', Whitespace);
    var quoted := "'a  b'";
    assert s == "echo" + (" " + quoted);
    ClassifyAppend("echo", " " + quoted);
    ClassifyAppend(" ", quoted);
    assert Classify(" ") == [sp];
    calc {
      WordsOf(s);
      Scan(Classify("echo") + ([sp] + Classify(quoted)), Unquoted, [], []);
      { ScanKeeps("echo", [sp] + Classify(quoted), Unquoted, [], []); }
      Scan([sp] + Classify(quoted), Unquoted, [] + "echo", []);
      { assert [] + "echo" == "echo"; }
      Scan([sp] + Classify(quoted), Unquoted, "echo", []);
      { BlanksSeparate(sp, Classify(quoted), "echo", []); }
      Scan(Classify(quoted), Unquoted, [], Flush([], "echo"));
      { assert Flush([], "echo") == ["echo"]; }
      Scan(Classify(quoted), Unquoted, [], ["echo"]);
      { assert Classify(quoted) == Classify("'" + "a  b" + "'") + [];
        SingleQuotedText("a  b", [], [], ["echo"]); }
      Scan([], Unquoted, [] + "a  b", ["echo"]);
      { assert [] + "a  b" == "a  b"; }
      Flush(["echo"], "a  b");
    }
  }

  /** Blanks inside single quotes are kept, doubled ones included. */
  lemma EchoSingleQuotedBlanks(s: string)
    requires s == "echo 'a  b'"
    ensures ParseLine(s) == Echo(["a  b"])
  {
    WordsOfEchoQuotedBlanks(s);
    SimpleLine(s);
    assert FirstOperator(["echo", "a  b"]) == None;
  }

  lemma OneGreaterBetweenPlainText(a: string, b: string)
    requires '1' !in a && '1' !in b && (b == [] || b[0] != '>')
    ensures Normalize(a + "1>" + b) == a + ">" + b
  {
    NormalizeRewritesOneGreater(a, b);
    NormalizeWithoutOne(a);
    NormalizeWithoutOne(b);
  }

  lemma NormalizedRedirectLine(s: string)
    requires s == "ls 1> out.txt"
    ensures Normalize(Trim(s)) == "ls > out.txt"
  {
    TrimKeepsInner(s);
    assert s == "ls " + "1>" + " out.txt";
    OneGreaterBetweenPlainText("ls ", " out.txt");
  }

  lemma WordsOfRedirectLine(line: string)
    requires line == "ls > out.txt"
    ensures '|' !in line && WordsOf(line) == ["ls", ">", "out.txt"]
  {
    var ws := ["ls", ">", "out.txt"];
    assert Join(ws, " ") == line;
    PlainWordsRoundTrip(ws, []);
  }

  lemma RedirectLineCommand(ws: seq<string>)
    requires ws == ["ls", ">", "out.txt"]
    ensures FromWords(ws) == Redirection(OverwriteOnlySuccess, Unspecified("ls", []), "out.txt")
  {
    RedirectionAtFirstOperator(ws, 1);
    assert ws[..1] == ["ls"];
  }

  /** `1>` is rewritten to `>`, so `ls 1> out.txt` sends the output of `ls` to
      `out.txt`. */
  lemma RedirectWithExplicitDescriptor(s: string)
    requires s == "ls 1> out.txt"
    ensures ParseLine(s) == Redirection(OverwriteOnlySuccess, Unspecified("ls", []), "out.txt")
  {
    NormalizedRedirectLine(s);
    WordsOfRedirectLine(Normalize(Trim(s)));
    NoPipeIsOneStage(s);
    RedirectLineCommand(WordsOf(Normalize(Trim(s))));
  }

  lemma WordsOfEmptyQuotes(s: string)
    requires s == "''"
    ensures WordsOf(s) == []
  {
    var q := ClassifiedChar('\'', SingleQuote);
    assert Classify(s) == [q, q];
    calc {
      Scan([q, q], Unquoted, [], []);
      { assert [q, q][0] == q && [q, q][1..] == [q]; }
      Scan([q], InSingleQuote, [], []);
      { assert [q][0] == q && [q][1..] == []; }
      Scan([], Unquoted, [], []);
    }
  }

  /** A line of two empty quotes has no words. */
  lemma EmptyQuotesAreNoArgument(s: string)
    requires s == "''"
    ensures ParseLine(s) == NoArgument
  {
    TrimKeepsInner(s);
    NormalizeWithoutOne(s);
    WordsOfEmptyQuotes(s);
    NoWordsIsNoArgument(s);
  }
}
