/**
  The line interpreter's parser (`CommandParser`): a character classifier, a
  three-state quoting machine that builds words, pipe splitting, detection of the
  first redirection operator, and the first-word dispatcher `BuildCommand`.

  The specification functions (`Words`, `ParseLine`) describe the result; the
  methods (`Lexer`, `BuildArguments`, `Parse`) do the work the way the source
  does, with a reversed token stack and loops, and are proved to agree with them.
 */
module CommandParser {

  import opened Wrappers
  import opened Text
  import opened SupportedCommand

  // ---------------------------------------------------------------------------
  // Lexer
  // ---------------------------------------------------------------------------

  datatype CharType = NormalChar | SingleQuote | DoubleQuote | Whitespace | Backslash

  datatype ClassifiedChar = ClassifiedChar(ch: char, kind: CharType)

  /** The class of one character: only backslash, the two quotes, space and tab
      are special. */
  function KindOf(c: char): CharType
  {
    if c == '\\' then Backslash
    else if c == '\'' then SingleQuote
    else if c == '"' then DoubleQuote
    else if c == ' ' || c == '\t' then Whitespace
    else NormalChar
  }

  /** Every character of `s` with its class, in order. */
  function Classify(s: string): seq<ClassifiedChar>
  {
    seq(|s|, i requires 0 <= i < |s| => ClassifiedChar(s[i], KindOf(s[i])))
  }

  function Reverse<T>(s: seq<T>): (r: seq<T>)
    ensures |r| == |s|
    ensures forall k :: 0 <= k < |s| ==> r[k] == s[|s| - 1 - k]
  {
    if s == [] then [] else [s[|s| - 1]] + Reverse(s[..|s| - 1])
  }

  lemma ReverseReverse<T>(s: seq<T>)
    ensures Reverse(Reverse(s)) == s
  {
    assert forall k :: 0 <= k < |s| ==> Reverse(Reverse(s))[k] == s[k];
  }

  /** `lexer`: classifies every character, then reverses the vector so that
      popping from its end visits the line from left to right. */
  method Lexer(input: string) returns (tokens: seq<ClassifiedChar>)
    ensures |tokens| == |input|
    ensures forall k :: 0 <= k < |input| ==>
      tokens[k] == ClassifiedChar(input[|input| - 1 - k], KindOf(input[|input| - 1 - k]))
    ensures Reverse(tokens) == Classify(input)
  {
    tokens := [];
    ghost var all := Classify(input);
    for i := 0 to |input|
      invariant tokens == all[..i]
    {
      var kind := if input[i] == '\\' then Backslash
        else if input[i] == '\'' then SingleQuote
        else if input[i] == '"' then DoubleQuote
        else if input[i] == ' ' || input[i] == '\t' then Whitespace
        else NormalChar;
      assert all[..i + 1] == all[..i] + [all[i]];
      tokens := tokens + [ClassifiedChar(input[i], kind)];
    }
    assert tokens == all;
    tokens := Reverse(tokens);
    ReverseReverse(all);
  }

  // ---------------------------------------------------------------------------
  // Argument builder
  // ---------------------------------------------------------------------------

  /** The quoting state (`mode: Option<CharType>` in the source, which only ever
      holds `None`, `Some(SingleQuote)` or `Some(DoubleQuote)`). */
  datatype Mode = Unquoted | InSingleQuote | InDoubleQuote

  /** Ends the word being built, if it has any character. */
  function Flush(args: seq<string>, current: string): seq<string>
  {
    if current == [] then args else args + [current]
  }

  /** The argument builder's state machine run over `cs`, from the state
      (`mode`, `current`, `args`), to the final list of words. */
  function Scan(cs: seq<ClassifiedChar>, mode: Mode, current: string, args: seq<string>): seq<string>
    decreases |cs|
  {
    if cs == [] then Flush(args, current)
    else
      var t, rest := cs[0], cs[1..];
      match t.kind
      case SingleQuote =>
        if mode == Unquoted then Scan(rest, InSingleQuote, current, args)
        else if mode == InSingleQuote then Scan(rest, Unquoted, current, args)
        else Scan(rest, mode, current + ['\''], args)
      case DoubleQuote =>
        if mode == Unquoted then Scan(rest, InDoubleQuote, current, args)
        else if mode == InDoubleQuote then Scan(rest, Unquoted, current, args)
        else Scan(rest, mode, current + ['"'], args)
      case Whitespace =>
        if mode == Unquoted then Scan(rest, mode, [], Flush(args, current))
        else Scan(rest, mode, current + [t.ch], args)
      case Backslash =>
        if mode == InDoubleQuote then
          if rest == [] then Scan(rest, mode, current + ['\\'], args)
          else if rest[0].ch == '"' || rest[0].ch == '\\' then Scan(rest[1..], mode, current + [rest[0].ch], args)
          else Scan(rest[1..], mode, current + ['\\', rest[0].ch], args)
        else if mode == InSingleQuote then Scan(rest, mode, current + ['\\'], args)
        else if rest == [] then Scan(rest, mode, current + ['\\'], args)
        else Scan(rest[1..], mode, current + [rest[0].ch], args)
      case NormalChar => Scan(rest, mode, current + [t.ch], args)
  }

  /** The words of a classified line. */
  function Words(cs: seq<ClassifiedChar>): seq<string>
  {
    Scan(cs, Unquoted, [], [])
  }

  /** The words of a line of text. */
  function WordsOf(s: string): seq<string>
  {
    Words(Classify(s))
  }

  /** `build_arguments`: pops tokens off the end of the reversed stack, with one
      token of lookahead after a backslash, updating `mode`, `current` and `args`. */
  method BuildArguments(stack0: seq<ClassifiedChar>) returns (args: seq<string>)
    ensures args == Words(Reverse(stack0))
  {
    var stack := stack0;
    args := [];
    var current: string := [];
    var mode := Unquoted;
    while stack != []
      invariant Scan(Reverse(stack), mode, current, args) == Words(Reverse(stack0))
      decreases |stack|
    {
      var token := stack[|stack| - 1];
      stack := stack[..|stack| - 1];
      ghost var rest := Reverse(stack);
      match token.kind {
        case SingleQuote =>
          if mode == Unquoted {
            mode := InSingleQuote;
          } else if mode == InSingleQuote {
            mode := Unquoted;
          } else {
            current := current + ['\''];
          }
        case DoubleQuote =>
          if mode == Unquoted {
            mode := InDoubleQuote;
          } else if mode == InDoubleQuote {
            mode := Unquoted;
          } else {
            current := current + ['"'];
          }
        case Whitespace =>
          if mode == Unquoted {
            if current != [] {
              args := args + [current];
              current := [];
            }
          } else {
            current := current + [token.ch];
          }
        case Backslash =>
          if mode == InDoubleQuote {
            if stack != [] {
              var next := stack[|stack| - 1];
              stack := stack[..|stack| - 1];
              assert rest[0] == next && rest[1..] == Reverse(stack);
              if next.ch == '"' || next.ch == '\\' {
                current := current + [next.ch];
              } else {
                current := current + ['\\', next.ch];
              }
            } else {
              current := current + ['\\'];
            }
          } else if mode == InSingleQuote {
            current := current + ['\\'];
          } else {
            if stack != [] {
              var next := stack[|stack| - 1];
              stack := stack[..|stack| - 1];
              assert rest[0] == next && rest[1..] == Reverse(stack);
              current := current + [next.ch];
            } else {
              current := current + ['\\'];
            }
          }
        case NormalChar =>
          current := current + [token.ch];
      }
    }
    if current != [] {
      args := args + [current];
    }
  }

  // ---------------------------------------------------------------------------
  // Building a command from words
  // ---------------------------------------------------------------------------

  /** The first words `BuildCommand` recognises. */
  predicate IsReserved(word: string)
  {
    word == "echo" || word == "exit" || word == "type" || word == "pwd" || word == "history" || word == "cd"
  }

  /** The path argument of `history -r/-w/-a`, empty when absent. */
  function PathArgument(rest: seq<string>): string
  {
    if |rest| > 1 then rest[1] else ""
  }

  /** The action selected by the words after `history`. */
  function HistoryActionOf(rest: seq<string>): (r: HistoryAction)
  {
    if rest == [] then Display(None)
    else if rest[0] == "-r" then Read(PathArgument(rest))
    else if rest[0] == "-w" then Write(PathArgument(rest))
    else if rest[0] == "-a" then Append(PathArgument(rest))
    else Display(ParseUsize(rest[0]))
  }

  /** `build_command`: the first word selects the variant, the rest are its
      arguments. */
  function BuildCommand(args: seq<string>): (r: Command)
    requires args != []
    ensures r.IsSimple()
    ensures r.Unspecified? <==> !IsReserved(args[0])
    ensures r.Unspecified? ==> r.cmd == args[0] && r.args == args[1..]
  {
    var cmd, rest := args[0], args[1..];
    if cmd == "echo" then Echo(rest)
    else if cmd == "exit" then Exit
    else if cmd == "type" then
      if rest == [] then NoArgument
      else if Supported(rest[0]) then TypeCheck(rest[0])
      else LocateExecutable(rest[0])
    else if cmd == "pwd" then Pwd
    else if cmd == "history" then History(HistoryActionOf(rest))
    else if cmd == "cd" then ChangeDir(if rest == [] then "" else rest[0])
    else Unspecified(cmd, rest)
  }

  // ---------------------------------------------------------------------------
  // Redirection operators
  // ---------------------------------------------------------------------------

  predicate IsOperator(word: string)
  {
    word == ">" || word == ">>" || word == "2>" || word == "2>>"
  }

  function OperatorKind(op: string): RedirectionKind
    requires IsOperator(op)
  {
    if op == ">" then OverwriteOnlySuccess
    else if op == "2>" then OverwriteOnlyError
    else if op == "2>>" then AppendOnlyError
    else AppendOnlySuccess
  }

  /** The position of the first redirection operator among `args`. */
  function FirstOperator(args: seq<string>): (r: Option<nat>)
    ensures r.Some? ==> r.value < |args| && IsOperator(args[r.value])
    ensures r.Some? ==> forall j :: 0 <= j < r.value ==> !IsOperator(args[j])
    ensures r.None? ==> forall j :: 0 <= j < |args| ==> !IsOperator(args[j])
  {
    if args == [] then None
    else if IsOperator(args[0]) then Some(0)
    else match FirstOperator(args[1..])
      case None => None
      case Some(p) => Some(p + 1)
  }

  /** A single pipeline stage: a redirection when the first operator has a
      target after it, otherwise a plain command. */
  function FromWords(args: seq<string>): Command
    requires args != []
  {
    var pos := FirstOperator(args);
    if pos.Some? && pos.value + 1 < |args| then
      Redirection(OperatorKind(args[pos.value]),
                  if pos.value == 0 then NoArgument else BuildCommand(args[..pos.value]),
                  args[pos.value + 1])
    else BuildCommand(args)
  }

  // ---------------------------------------------------------------------------
  // Pipelines and the whole line
  // ---------------------------------------------------------------------------

  /** The words of one trimmed pipeline segment. */
  function SegmentWords(part: string): seq<string>
  {
    WordsOf(Trim(part))
  }

  predicate SegmentsHaveWords(parts: seq<string>)
  {
    forall i :: 0 <= i < |parts| ==> SegmentWords(parts[i]) != []
  }

  /** One command per segment, or `NoArgument` when some segment has no word. */
  function PipelineOf(parts: seq<string>): Command
  {
    if SegmentsHaveWords(parts) then
      Pipeline(seq(|parts|, i requires 0 <= i < |parts| && SegmentWords(parts[i]) != [] =>
        BuildCommand(SegmentWords(parts[i]))))
    else NoArgument
  }

  /** `1>>` becomes `>>`, then `1>` becomes `>`, anywhere in the text. */
  function Normalize(s: string): string
  {
    ReplaceAll(ReplaceAll(s, "1>>", ">>"), "1>", ">")
  }

  /** `CommandParser::parse` */
  function ParseLine(input: string): (r: Command)
    ensures r.WellFormed()
  {
    ParseNormalized(Normalize(Trim(input)))
  }

  /** What `parse` does once the line is trimmed and its `1>` operators are
      rewritten. */
  function ParseNormalized(line: string): (r: Command)
    ensures r.WellFormed()
  {
    var args := WordsOf(line);
    if args == [] then NoArgument
    else
      var parts := Split(line, '|');
      if |parts| > 1 then PipelineOf(parts)
      else FromWords(args)
  }

  /** The loop of `parse` over pipeline segments: lexes and builds each trimmed
      segment and stops at the first one without words. */
  method ParsePipeline(parts: seq<string>) returns (r: Command)
    ensures r == PipelineOf(parts)
  {
    var commands: seq<Command> := [];
    for i := 0 to |parts|
      invariant StagesBuilt(parts, commands) && |commands| == i
    {
      var partTokens := Lexer(Trim(parts[i]));
      var partArgs := BuildArguments(partTokens);
      assert partArgs == SegmentWords(parts[i]);
      if partArgs == [] {
        PipelineOfStops(parts, i);
        return NoArgument;
      }
      StagesBuiltStep(parts, commands);
      commands := commands + [BuildCommand(partArgs)];
    }
    PipelineOfAll(parts, commands);
    return Pipeline(commands);
  }

  /** The first `|commands|` segments have words and were built into
      `commands`. */
  predicate StagesBuilt(parts: seq<string>, commands: seq<Command>)
  {
    |commands| <= |parts|
    && forall j :: 0 <= j < |commands| ==>
      SegmentWords(parts[j]) != [] && commands[j] == BuildCommand(SegmentWords(parts[j]))
  }

  lemma StagesBuiltStep(parts: seq<string>, commands: seq<Command>)
    requires StagesBuilt(parts, commands) && |commands| < |parts|
    requires SegmentWords(parts[|commands|]) != []
    ensures StagesBuilt(parts, commands + [BuildCommand(SegmentWords(parts[|commands|]))])
  {
    var next := commands + [BuildCommand(SegmentWords(parts[|commands|]))];
    forall j | 0 <= j < |next|
      ensures SegmentWords(parts[j]) != [] && next[j] == BuildCommand(SegmentWords(parts[j]))
    {
      if j < |commands| {
        assert next[j] == commands[j];
      } else {
        assert next[j] == next[|commands|];
      }
    }
  }

  /** A segment without words makes the whole line `NoArgument`. */
  lemma PipelineOfStops(parts: seq<string>, i: nat)
    requires i < |parts| && SegmentWords(parts[i]) == []
    ensures PipelineOf(parts) == NoArgument
  {
  }

  /** When every segment has words, the stages are the built segments. */
  lemma PipelineOfAll(parts: seq<string>, commands: seq<Command>)
    requires |commands| == |parts| && StagesBuilt(parts, commands)
    ensures PipelineOf(parts) == Pipeline(commands)
  {
    assert SegmentsHaveWords(parts);
  }

  /** `parse`, with the lexer and argument builder as the source runs them. */
  method Parse(input: string) returns (r: Command)
    ensures r == ParseLine(input)
  {
    var line := Normalize(Trim(input));
    var tokens := Lexer(line);
    var args := BuildArguments(tokens);
    if args == [] {
      return NoArgument;
    }
    var parts := Split(line, '|');
    if |parts| > 1 {
      r := ParsePipeline(parts);
      return;
    }
    var pos := FirstOperator(args);
    if pos.Some? && pos.value + 1 < |args| {
      var inner := if pos.value == 0 then NoArgument else BuildCommand(args[..pos.value]);
      return Redirection(OperatorKind(args[pos.value]), inner, args[pos.value + 1]);
    }
    return BuildCommand(args);
  }
}
