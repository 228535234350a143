# A verified model of a small Rust shell's line interpreter

The model covers the core of a POSIX-style interactive shell written in Rust. It takes in a raw input line and does the following:

- records the line in the shared history;
- parses it into a closed `SupportedCommand` value (quoting, pipes, output redirection, first-word dispatch);
- routes that value to the first registered handler whose `can_handle` accepts it;
- prints the handler's result.

The handlers modelled in full are:

- `echo`;
- `type`;
- `history`, with display, `-r`, `-w` and `-a`;
- redirection of a built-in's output to a file.

Also modelled:

- loading the history file at start-up and saving it at exit;
- the Tab-completion helper: candidate filtering, sorting and de-duplication, the longest common prefix, and the two-Tab bell/list state machine.

Layout, one module per source file:

| Dafny file | models |
|---|---|
| `supported_command.dfy` | `SupportedCommand`, `HistoryAction`, `RedirectionKind`, `commands()`, `supported()` |
| `command_parser.dfy` | `CommandParser`: `lexer`, `build_arguments`, `build_command`, `parse` |
| `echo_command.dfy`, `type_command.dfy` | the two pure built-ins |
| `history_state.dfy` | `HistoryState` (entries plus the persistence cursor `last_appended_index`) |
| `history_command.dfy` | `HistoryCommandHandler` |
| `command_handler.dfy`, `registry.dfy` | the handler kinds, `can_handle`, `CommandRegistry` and the first-match lookup |
| `redirection_command.dfy` | `RedirectionCommandHandler` |
| `engine.dfy` | `Shell`: dispatch, printing, record/load/save of history |
| `auto_complete.dfy` | `AutoCompleteHelper` and `longest_common_prefix` |
| `text.dfy`, `files.dfy`, `wrappers.dfy` | string helpers with Rust's semantics, an abstract file system, result types |
| `parser_properties.dfy`, `parser_examples.dfy`, `history_properties.dfy`, `engine_properties.dfy` | the lemmas about the above |

Conventions used throughout:

- Each operation the Rust code performs by mutation is a method on a class:
  - `HistoryState` has the fields `commands` and `lastAppendedIndex`;
  - `FileSystem` has the field `files`, a map from path to file text;
  - `AutoCompleteHelper` has the fields `lastInput` and `tabCount`.
- The history, redirection and engine methods are proved equal to a specification function over a `World` value (entries, cursor, files). `AutoCompleteHelper.Complete` is proved equal to `Completed`, a function of the names, the line and the helper's previous state. `FileSystem.Write` and `HistoryState.PushNonBlank` state their effect on their fields directly. The lemmas are stated about the specification functions.
- A handler's `anyhow::Result<String>` is an `Outcome` (`Ok`/`Err`). A Rust panic that escapes a handler is the third variant, `Panic`.
- Whatever the operating system decides enters as a parameter `external: Command -> Reply`. This covers executable lookup, spawned processes, the working directory and the pipeline handler.
- The value of `HISTFILE` is a parameter of the shell.

Behaviour of the code that a reader may not expect:

- `commands()` does not list `cd`, so `type cd` is `LocateExecutable("cd")`.
- A line is split on every `|`, including one inside quotes.
- `type` never fails on a `TypeCheck`, because an unknown name parses to `LocateExecutable` instead.
- `history -r` appends to the existing entries. So writing the history and reading it back in the same session doubles the list (`HistoryProperties.WriteThenRead`).
- `history -a` to any file moves the one cursor that saving at exit also reads. So entries appended to another file are never written to the history file when the shell exits (`EngineProperties.AppendElsewhereSkipsSave`).
- Redirecting `exit` or an empty command (`> f`) panics, through `expect("Handler must exist")`, rather than reporting an error.
- `execute_handler` prints both results and errors on the standard output. Only "No handler found for the command" goes to the error stream.

## Model

| member | source | states |
|---|---|---|
| SupportedCommand.Commands | src/commands/core/supported_command.rs:44-52 | the built-in names are exactly five, pairwise distinct: echo, exit, type, pwd, history |
| SupportedCommand.Supported | src/commands/core/supported_command.rs:54-56 | a name is supported iff it is one of those five |
| SupportedCommand.ChangeDirIsNotSupported | src/commands/core/supported_command.rs:44-56 | `cd` is not a supported name and is not in the list |
| Text.TrimEnds | src/parsing/command_parser.rs:7 | `str::trim`: never longer, and the result neither starts nor ends with whitespace |
| Text.TrimStart | src/parsing/command_parser.rs:7 | `str::trim` at the front: the result is a suffix, what was removed is all whitespace, the result does not start with whitespace |
| Text.TrimEnd | src/parsing/command_parser.rs:7 | `str::trim` at the back: the result is a prefix, what was removed is all whitespace, the result does not end with whitespace |
| Text.TrimEndMatches | src/shell/engine.rs:157 | `trim_end_matches('\n')`: a prefix, every removed character is the given one, and the result does not end with it |
| Text.TrimIsEmptyIffBlank | src/shell/engine.rs:57-59 | a line trims to nothing iff it is all whitespace |
| Text.TrimIdempotent | src/shell/engine.rs:61-63 | trimming twice is trimming once, and a trimmed line is blank only if empty |
| Text.ReplaceAllBounds | src/parsing/command_parser.rs:8 | `str::replace`: replacing a pattern by itself changes nothing; a replacement no longer than the pattern never lengthens the text |
| Text.JoinEnds | src/commands/handlers/echo_command_handler.rs:15 | `join`: no words give the empty text; the result starts with the first word (then the separator when there are more) and ends with the last |
| Text.Split | src/parsing/command_parser.rs:16 | `split('|')` gives at least one piece |
| Text.JoinSplit | src/parsing/command_parser.rs:16 | joining the pieces of `split` with the separator gives the text back |
| Text.SplitPiecesLackSeparator | src/parsing/command_parser.rs:16 | no piece contains the separator |
| Text.SplitCount | src/parsing/command_parser.rs:16-18 | there is more than one piece iff the separator occurs in the text |
| Text.IndexOf | src/parsing/command_parser.rs:16 | the first position of a character, or the length when it is absent |
| Text.NonBlank | src/commands/handlers/history_command_handler.rs:51-56 | every kept line comes from the input and is not blank |
| Text.NonBlankAppend | src/commands/handlers/history_command_handler.rs:51-56 | filtering blank lines distributes over concatenation |
| Text.LinesLackNewline | src/commands/handlers/history_command_handler.rs:51 | `BufRead::lines` gives no line for an empty text, some for any other, and no line holds a newline |
| Text.UnlinesEndsInNewline | src/commands/handlers/history_command_handler.rs:62-64 | the `writeln!` loop writes nothing for no lines, and otherwise text ending in a newline |
| Text.LinesOfUnlines | src/commands/handlers/history_command_handler.rs:49-64 | reading back, with `BufRead::lines`, lines written with `writeln!` gives the same lines when none holds a newline or ends in a carriage return |
| Text.UnlinesAppend | src/commands/handlers/history_command_handler.rs:72-74 | writing two batches of lines writes their concatenation |
| Text.NatToString | src/commands/handlers/history_command_handler.rs:43 | decimal rendering: non-empty digits, no leading zero unless zero |
| Text.ParseUsize | src/parsing/command_parser.rs:108 | `parse::<usize>` succeeds only with a value below 2^64 |
| Text.ParseUsizeOfNatToString | src/parsing/command_parser.rs:108 | every value below 2^64 parses back from its decimal rendering |
| Text.PadLeft | src/commands/handlers/history_command_handler.rs:43 | `{:5}` right-justification: width max(w, length), the text at the end, spaces before it |
| Text.Utf8LenProperPrefix | src/auto_complete/auto_complete_helper.rs:67 | a proper prefix is strictly shorter in UTF-8 bytes, as counted by `Text.Utf8Len` (`String::len`: one to four bytes per character by its code point) |
| Files.Opened | src/commands/handlers/redirection_command_handler.rs:87-92 | `OpenOptions` with create: the path then exists, it is emptied iff truncating or new, and other files are untouched |
| Files.WriteFile | src/commands/handlers/redirection_command_handler.rs:43-59 | writing fails iff the path is empty |
| Files.FileSystem.Contents | src/commands/handlers/history_command_handler.rs:48 | `File::open` succeeds iff the file exists, and yields its text |
| Files.FileSystem.Open | src/commands/handlers/redirection_command_handler.rs:50-55 | opens with create and truncate or append; fails iff the path is empty, changing nothing |
| Files.FileSystem.Write | src/commands/handlers/redirection_command_handler.rs:57 | `write_all` appends the content to the open file, nothing else changes |
| Files.FileSystem.WriteLines | src/commands/handlers/history_command_handler.rs:62-64 | a loop of `writeln!` appends the lines, each followed by a newline |
| Files.WriteFileContents | src/commands/handlers/redirection_command_handler.rs:43-59 | after writing, the file exists; in overwrite mode it holds exactly the content, in append mode the old text then the content; other files are unchanged |
| Files.OverwriteFile | src/commands/handlers/redirection_command_handler.rs:50-57 | an overwrite replaces the file with the content |
| Files.WriteFileCreates | src/commands/handlers/redirection_command_handler.rs:50-57 | the target is created even when nothing is written |
| Files.AppendTwice | src/commands/handlers/redirection_command_handler.rs:50-57 | appending `a` then `b` is appending `a + b` |
| HistoryStore.HistoryState.constructor | src/commands/core/history_state.rs:5-8 | `HistoryState::default()`: no entries, cursor 0 |
| HistoryStore.HistoryState.PushNonBlank | src/commands/handlers/history_command_handler.rs:51-56 | pushes the non-blank lines in order and leaves the cursor |
| HistoryStore.WorldOf | src/commands/core/history_state.rs:5-8 | the state and files are valid (cursor within the list) iff the snapshot is |
| HistoryCommand.DisplayStart | src/commands/handlers/history_command_handler.rs:31-40 | with no limit or a limit at least the count, listing starts at 0; otherwise exactly `limit` entries remain |
| HistoryCommand.Entries | src/commands/handlers/history_command_handler.rs:42-44 | one formatted line per entry |
| HistoryCommand.Apply | src/commands/handlers/history_command_handler.rs:28-77 | each action keeps the world valid and never panics; an error changes nothing; display changes nothing; `-r` succeeds iff the file exists and only appends entries; `-w` and `-a` fail iff the path is empty and keep the entries; `-w` keeps the cursor; a successful `-a` moves it to the count |
| HistoryCommand.Handled | src/commands/handlers/history_command_handler.rs:22-79 | a command that `HistoryCommand.CanHandle` refuses (anything but `History`) is rejected with nothing changed; no action removes an entry, adds a blank one or breaks the cursor bound; the handler never panics |
| HistoryCommand.HistoryCommandHandler.constructor | src/commands/handlers/history_command_handler.rs:12-14 | the handler works on the state it is given |
| HistoryCommand.HistoryCommandHandler.Handle | src/commands/handlers/history_command_handler.rs:22-79 | the new entries, cursor, files and result are those of `Handled` |
| HistoryCommand.HistoryCommandHandler.Display | src/commands/handlers/history_command_handler.rs:28-46 | the `push_str` loop builds the listing of `Apply(Display)` and changes nothing |
| HistoryCommand.HistoryCommandHandler.Read | src/commands/handlers/history_command_handler.rs:47-58 | as `Apply(Read)`: a missing file is an error with nothing changed, otherwise non-blank lines are appended |
| HistoryCommand.HistoryCommandHandler.Write | src/commands/handlers/history_command_handler.rs:59-66 | as `Apply(Write)`: the file is replaced by all entries, one per line |
| HistoryCommand.HistoryCommandHandler.Append | src/commands/handlers/history_command_handler.rs:67-77 | as `Apply(Append)`: the entries after the cursor go to the end of the file and the cursor moves to the count |
| HistoryProperties.EntryFormat | src/commands/handlers/history_command_handler.rs:43 | a line (`HistoryCommand.Entry`) is a 5-wide right-aligned 1-based index that parses back, two spaces, then the command |
| HistoryProperties.ListingIsEntries | src/commands/handlers/history_command_handler.rs:42-44 | the listing (`HistoryCommand.Listing`, built from the back) is the formatted entries from the start index, each ended by a newline |
| HistoryProperties.ListingLines | src/commands/handlers/history_command_handler.rs:42-44 | split back into lines, the listing gives the formatted entries from the start |
| HistoryProperties.DisplayListsLast | src/commands/handlers/history_command_handler.rs:28-46 | display succeeds and changes nothing (so repeating it gives the same text); it lists every entry, or only the last `n` when `n` is below the count |
| HistoryProperties.ReadAppendsFileLines | src/commands/handlers/history_command_handler.rs:47-58 | `-r` of an existing file succeeds and appends exactly the file's non-blank lines, in order, to the entries; the cursor and the files stay as they were |
| HistoryProperties.WriteReplacesFile | src/commands/handlers/history_command_handler.rs:59-66 | `-w` to a non-empty path succeeds, creates or truncates that file to every entry followed by a newline, and changes no other file, no entry and not the cursor |
| HistoryProperties.WriteThenRead | src/commands/handlers/history_command_handler.rs:47-66 | after `-w`, `-r` of the same file appends every entry again, in order |
| HistoryProperties.ReadMissingFile | src/commands/handlers/history_command_handler.rs:48 | `-r` of a missing file is `NotFound` with nothing changed |
| HistoryProperties.AppendSavesNewEntries | src/commands/handlers/history_command_handler.rs:67-77 | `-a` appends the entries after the cursor to the file, sets the cursor to the count and keeps the entries |
| HistoryProperties.AppendIsIdempotent | src/commands/handlers/history_command_handler.rs:67-77 | a second `-a` right after the first writes nothing and changes nothing |
| HistoryProperties.AppendInTwoSteps | src/commands/handlers/history_command_handler.rs:67-77 | `-a`, new entries, `-a` leaves the file as one `-a` after all of them |
| HistoryProperties.WriteKeepsCursor | src/commands/handlers/history_command_handler.rs:59-77 | `-w` does not move the cursor, so a later `-a` writes every entry a second time |
| CommandParser.Reverse | src/parsing/command_parser.rs:142 | `reverse` keeps the length and mirrors positions |
| CommandParser.ReverseReverse | src/parsing/command_parser.rs:142-152 | popping the reversed stack reads the characters front to back |
| CommandParser.Lexer | src/parsing/command_parser.rs:127-144 | one classified token per character, in reverse order; backslash, the two quotes, space and tab get their own classes |
| CommandParser.BuildArguments | src/parsing/command_parser.rs:146-216 | the `while let pop` loop yields the words of the quoting machine `CommandParser.Words`, which runs `CommandParser.Scan` from the unquoted state: one step per classified character, in the unquoted, single-quoted and double-quoted modes of command_parser.rs:146-216 |
| CommandParser.BuildCommand | src/parsing/command_parser.rs:72-125 | never a pipeline or redirection; `Unspecified(first, rest)` iff the first word is not reserved |
| CommandParser.FirstOperator | src/parsing/command_parser.rs:38-41 | the first word equal to `>`, `>>`, `2>` or `2>>`, or none |
| CommandParser.ParseLine | src/parsing/command_parser.rs:6-70 | the parsed command never nests a pipeline or redirection inside another |
| CommandParser.ParseNormalized | src/parsing/command_parser.rs:9-69 | the same, after trimming and normalizing |
| CommandParser.ParsePipeline | src/parsing/command_parser.rs:18-35 | the stage loop gives `NoArgument` when a segment has no words, else one command per segment |
| CommandParser.PipelineOfStops | src/parsing/command_parser.rs:25-27 | one segment without words makes the whole line `NoArgument` |
| CommandParser.PipelineOfAll | src/parsing/command_parser.rs:21-35 | with every stage built, the result is the pipeline of them |
| CommandParser.Parse | src/parsing/command_parser.rs:6-70 | `parse` computes `ParseLine` |
| ParserProperties.WordsAreNonEmpty | src/parsing/command_parser.rs:166-174 | no word is empty |
| ParserProperties.ScanWordsNonEmpty | src/parsing/command_parser.rs:211-213 | from any state with no empty word, the machine adds none |
| ParserProperties.ScanKeeps | src/parsing/command_parser.rs:154-207 | characters that are literal in the current mode are added to the word unchanged |
| ParserProperties.SingleQuotedText | src/parsing/command_parser.rs:154-158 | text in single quotes, backslashes and blanks included, joins the word verbatim |
| ParserProperties.DoubleQuotedText | src/parsing/command_parser.rs:160-164 | text in double quotes without `"` or `\` joins the word verbatim |
| ParserProperties.UnterminatedSingleQuote | src/parsing/command_parser.rs:190-192 | an unclosed single quote keeps what followed it, with no error |
| ParserProperties.BackslashRules | src/parsing/command_parser.rs:176-205 | unquoted `\x` gives `x`; in double quotes only `"` and `\` lose the backslash; in single quotes it is literal; a trailing one is kept |
| ParserProperties.BlanksSeparate | src/parsing/command_parser.rs:166-174 | an unquoted blank ends a non-empty word and is otherwise ignored |
| ParserProperties.PlainWordsRoundTrip | src/parsing/command_parser.rs:146-216 | words with no special characters, joined by spaces, lex back to themselves |
| ParserProperties.BlankLineIsNoArgument | src/parsing/command_parser.rs:7-14 | a blank line parses to `NoArgument` |
| ParserProperties.NoWordsIsNoArgument | src/parsing/command_parser.rs:12-14 | any line with no words (e.g. `''`) parses to `NoArgument` |
| ParserProperties.ParsedCommandsNeverNest | src/parsing/command_parser.rs:6-70 | pipeline stages and redirected commands are never pipelines or redirections |
| ParserProperties.PipeSplitsRawText | src/parsing/command_parser.rs:16-35 | a line with a `|` anywhere, even quoted, is the pipeline of its raw segments |
| ParserProperties.PipelineStages | src/parsing/command_parser.rs:21-35 | a pipeline has one stage per segment, each built from the segment's words |
| ParserProperties.TwoSegmentPipeline | src/parsing/command_parser.rs:18-35 | two segments with words give a two-stage pipeline |
| ParserProperties.NoPipeIsOneStage | src/parsing/command_parser.rs:38-69 | without `|`, the line is built from its words directly |
| ParserProperties.FirstOperatorIs | src/parsing/command_parser.rs:38-41 | the lookup finds exactly the first operator |
| ParserProperties.RedirectionAtFirstOperator | src/parsing/command_parser.rs:38-67 | the first operator with a following word gives `Redirection(kind, inner or NoArgument, next word)`, and later words are ignored |
| ParserProperties.OperatorAsLastWord | src/parsing/command_parser.rs:42-69 | an operator as the last word is not a redirection |
| ParserProperties.OperatorKinds | src/parsing/command_parser.rs:53-58 | the four operators map to the four kinds |
| ParserProperties.ReplaceAllAround | src/parsing/command_parser.rs:8 | an occurrence of a pattern whose first character does not recur in it is replaced, and the text on either side is rewritten on its own |
| ParserProperties.NormalizeRewritesOneGreater | src/parsing/command_parser.rs:8 | `1>` not followed by `>` becomes `>`, whatever surrounds it, and each side is normalised on its own |
| ParserProperties.NormalizeRewritesOneGreaterGreater | src/parsing/command_parser.rs:8 | `1>>` becomes `>>`, and each side is normalised on its own, unless the text before it ends in `1` |
| ParserProperties.NormalizeWithoutOne | src/parsing/command_parser.rs:8 | a line without `1` is unchanged |
| ParserProperties.NormalizeNoLonger | src/parsing/command_parser.rs:8 | the normalisation never lengthens the line |
| ParserProperties.DoubledOneBeforeAppend | src/parsing/command_parser.rs:8 | `11>>` normalises to `>>`: the second rewrite takes the first `1` too |
| ParserProperties.FirstWordSelectsVariant | src/parsing/command_parser.rs:72-125 | the first word selects echo (with the remaining words), exit, pwd, cd (to the second word, or to `""` when there is none), history or type (`type` alone is `NoArgument`); anything else is `Unspecified` with its words |
| ParserProperties.TypeResolvesBuiltins | src/parsing/command_parser.rs:79-90 | `type x` is `TypeCheck` iff x is a supported name, else `LocateExecutable` |
| ParserProperties.HistoryActionCases | src/parsing/command_parser.rs:93-114 | no argument is display without limit; the result is a display iff the first argument is not `-r`, `-w` or `-a`; a display limit comes from an argument and is below 2^64; a file action takes the path argument |
| ParserProperties.HistoryFlags | src/parsing/command_parser.rs:93-106 | `-r`, `-w`, `-a` take the next word as path, or the empty path |
| ParserProperties.HistoryLimit | src/parsing/command_parser.rs:107-114 | a number is a display limit; no argument means no limit |
| ParserProperties.HistoryNonNumericArgument | src/parsing/command_parser.rs:107-110 | a first argument that is not a flag and does not parse as a `usize` means no limit |
| ParserExamples.SimpleLine | src/parsing/command_parser.rs:6-69 | a line without `1` or `|` is built from its words |
| ParserExamples.EchoPlainWords | src/parsing/command_parser.rs:6-77 | `echo hello world` parses to `Echo(["hello", "world"])` |
| ParserExamples.EchoSingleQuotedBlanks | src/parsing/command_parser.rs:154-158 | `echo 'a  b'` keeps both blanks in one word |
| ParserExamples.RedirectWithExplicitDescriptor | src/parsing/command_parser.rs:8-67 | `ls 1> out.txt` parses like `ls > out.txt` |
| ParserExamples.EmptyQuotesAreNoArgument | src/parsing/command_parser.rs:12-14 | `''` parses to `NoArgument` |
| EchoCommand.Handle | src/commands/handlers/echo_command_handler.rs:10-18 | succeeds iff `EchoCommand.CanHandle` holds, that is the command is `Echo`, else the "Unsupported" error; success ends with a newline |
| EchoCommand.EchoNothing | src/commands/handlers/echo_command_handler.rs:15-17 | no arguments give exactly a newline |
| EchoCommand.EchoJoinsWords | src/commands/handlers/echo_command_handler.rs:15-17 | arguments are joined by single spaces, then a newline |
| EchoCommand.EchoThenSplit | src/commands/handlers/echo_command_handler.rs:15-17 | the output of plain words, lexed again, gives back the words |
| TypeCommand.Handle | src/commands/handlers/type_command_handler.rs:10-17 | succeeds iff `TypeCommand.CanHandle` holds, that is the command is `TypeCheck`, else the "Unsupported" error |
| TypeCommand.TypeSentence | src/commands/handlers/type_command_handler.rs:12-15 | both branches print `<cmd> is a shell builtin` |
| TypeCommand.TypeOfParsedName | src/commands/handlers/type_command_handler.rs:10-17 | a parsed `type x` succeeds iff x is supported |
| Handlers.Respond | src/commands/core/registry.rs:18-26 | any handler that refuses a command under `Handlers.CanHandle` (each handler's `can_handle`) answers with its rejection; only the history handler changes state; none panics |
| Handlers.Invoke | src/shell/engine.rs:140-141 | calling `handle` does what `Respond` says |
| Registry.CommandRegistry.constructor | src/commands/core/registry.rs:17-29 | the seven handlers in order, the history one on the state passed in |
| Registry.CommandRegistry.Handlers | src/commands/core/registry.rs:31-33 | returns the registered list unchanged |
| Registry.FindHandler | src/shell/engine.rs:140 | the first handler that accepts the command, or none if none does |
| Registry.ExactlyOneHandler | src/commands/core/registry.rs:18-26 | each simple variant is accepted by exactly its own handler, the one `Registry.HandlerIndex` assigns it in the registry's order (echo, type, locate, external, pwd, cd, history); exit, no-argument, redirection and pipeline by none |
| RedirectionCommand.Terminated | src/commands/handlers/redirection_command_handler.rs:136-144 | the text is kept as a prefix; empty stays empty; a text ending in a newline is unchanged; any other non-empty text gets exactly one newline added |
| RedirectionCommand.Capture | src/commands/handlers/redirection_command_handler.rs:129-146 | success fills only stdout, an error only stderr, never both, each starting with the handler's text |
| RedirectionCommand.RedirectOutput | src/commands/handlers/redirection_command_handler.rs:18-41 | the world stays valid |
| RedirectionCommand.Redirect | src/commands/handlers/redirection_command_handler.rs:67-149 | a non-redirection is rejected with nothing changed; entries are only appended, never blank |
| RedirectionCommand.RedirectionCommandHandler.constructor | src/commands/handlers/redirection_command_handler.rs:14-16 | the handler keeps the handlers it is given |
| RedirectionCommand.RedirectionCommandHandler.WriteToFile | src/commands/handlers/redirection_command_handler.rs:43-59 | the file system becomes that of `WriteFile` |
| RedirectionCommand.RedirectionCommandHandler.CaptureOutput | src/commands/handlers/redirection_command_handler.rs:129-146 | the two `push_str` buffers are those of `Capture` |
| RedirectionCommand.RedirectionCommandHandler.Handle | src/commands/handlers/redirection_command_handler.rs:67-149 | the result and new state are those of `Redirect` |
| RedirectionCommand.TerminatedIdempotent | src/commands/handlers/redirection_command_handler.rs:136-144 | terminating twice is once, and printing ignores it |
| RedirectionCommand.RedirectOutputWrites | src/commands/handlers/redirection_command_handler.rs:18-41 | success kinds write stdout and return stderr, error kinds the reverse; append keeps the old text, overwrite drops it |
| RedirectionCommand.RedirectCreatesTarget | src/commands/handlers/redirection_command_handler.rs:50-57 | the target exists afterwards, even if nothing was written |
| RedirectionCommand.BuiltinRedirected | src/commands/handlers/redirection_command_handler.rs:123-148 | a built-in runs through its own handler and its captured output is redirected |
| RedirectionCommand.EchoUnderErrorRedirection | src/commands/handlers/redirection_command_handler.rs:132-148 | `echo … 2> f` returns the echo and truncates `f` to empty |
| RedirectionCommand.EchoUnderOutputRedirection | src/commands/handlers/redirection_command_handler.rs:132-148 | `echo … > f` returns nothing and puts the echo in `f` |
| RedirectionCommand.NoHandlerPanics | src/commands/handlers/redirection_command_handler.rs:123-127 | redirecting `exit` or an empty command panics with nothing changed |
| RedirectionCommand.ExternalOpensTarget | src/commands/handlers/redirection_command_handler.rs:77-121 | an external command opens the target (truncate or append) and returns nothing unless the process fails |
| Engine.Shown | src/shell/engine.rs:150-165 | at most one print, on the standard output, and none iff the result is empty success |
| Engine.Dispatch | src/shell/engine.rs:127-148 | stops iff `exit`; entries only grow; a panic comes only from a redirection |
| Engine.Interpret | src/shell/engine.rs:57-69 | one loop turn keeps the world valid and only appends entries |
| Engine.Recorded | src/shell/engine.rs:113-124 | one entry is added after the others, the trimmed line; cursor and files stay; validity is kept |
| Engine.Loaded | src/shell/engine.rs:94-111 | with an existing history file, its non-blank lines are appended and the cursor moves past all entries; otherwise nothing changes; files are untouched and no blank entry is added |
| Engine.Saved | src/shell/engine.rs:167-182 | saving keeps the entries and cursor and never panics; what it writes is stated by `EngineProperties.SavedAppendsNewEntries` |
| Engine.Shell.constructor | src/shell/engine.rs:31-39 | the shell keeps its handlers, state and history path |
| Engine.Shell.LoadHistory | src/shell/engine.rs:94-111 | the loop does what `Loaded` says |
| Engine.Shell.RecordHistory | src/shell/engine.rs:113-125 | the trimmed line is pushed and the cursor stays |
| Engine.Shell.SaveHistory | src/shell/engine.rs:167-182 | the loop of `writeln!` does what `Saved` says |
| Engine.Shell.DispatchCommand | src/shell/engine.rs:127-165 | dispatch and printing as `Dispatch` |
| Engine.Shell.ProcessLine | src/shell/engine.rs:56-69 | one turn as `Interpret` |
| Engine.Start | src/main.rs:7-14 | the registry's history handler and the shell share one fresh empty state |
| EngineProperties.ShownEndsInOneNewline | src/shell/engine.rs:155-163 | a printed result ends in exactly one newline and keeps the text before its trailing newlines |
| EngineProperties.ShownIgnoresTermination | src/shell/engine.rs:155-163 | a newline added before printing does not change what is printed |
| EngineProperties.DispatchRoutes | src/shell/engine.rs:139-145 | a simple command runs on its own handler, and "No handler found" is never printed |
| EngineProperties.OnlyExitStops | src/shell/engine.rs:128-130 | dispatch returns `Some(true)` iff the command is `exit` |
| EngineProperties.BlankLineIsSkipped | src/shell/engine.rs:57-59 | a blank line is neither recorded nor run |
| EngineProperties.LineIsRecordedThenRun | src/shell/engine.rs:57-69 | any other line is recorded trimmed, then its parse is dispatched |
| EngineProperties.ParseTrimmed | src/shell/engine.rs:63 | parsing the trimmed line is parsing the line |
| EngineProperties.DispatchKeepsNoBlankEntries | src/shell/engine.rs:127-148 | dispatch adds no blank entry |
| EngineProperties.RecordedKeepsNoBlankEntries | src/shell/engine.rs:113-125 | recording a non-blank line adds a non-blank entry |
| EngineProperties.EntriesStayNonBlank | src/shell/engine.rs:57-69 | a loop turn never adds a blank entry |
| EngineProperties.LoadRecordSave | src/shell/engine.rs:94-182 | load, record `more`, save appends exactly `more` to the history file |
| EngineProperties.SaveThenLoad | src/shell/engine.rs:94-182 | entries saved at exit to a new history file, each a single non-blank line, are loaded back exactly at the next start-up, with the cursor after them |
| EngineProperties.SaveAfterAppend | src/shell/engine.rs:167-182 | after `history -a`, saving at exit appends only later entries |
| EngineProperties.SavedAppendsNewEntries | src/shell/engine.rs:167-182 | for any world, saving to a non-empty path succeeds and appends the entries after the cursor, one per line, to the file's old content (or to nothing when it did not exist), leaving every other file alone; an empty path fails with nothing changed, and no history file means nothing happens |
| EngineProperties.AppendElsewhereSkipsSave | src/shell/engine.rs:167-182 | after `history -a` to another file, saving at exit appends only the entries recorded afterwards to the history file: the ones `-a` wrote elsewhere never reach it |
| EngineProperties.EchoLine | src/shell/engine.rs:57-69 | `echo hello world` is recorded and prints `hello world` |
| AutoComplete.SortedUnique | src/auto_complete/auto_complete_helper.rs:48-49 | `sort` then `dedup`: increasing, same elements |
| AutoComplete.IncreasingUnique | src/auto_complete/auto_complete_helper.rs:48-49 | two strictly increasing lists with the same elements are equal |
| AutoComplete.BelowTotal | src/auto_complete/auto_complete_helper.rs:48 | the string order is total |
| AutoComplete.BelowTransitive | src/auto_complete/auto_complete_helper.rs:48 | the string order is transitive |
| AutoComplete.Starting | src/auto_complete/auto_complete_helper.rs:41-46 | keeps exactly the names that start with the line |
| AutoComplete.Candidates | src/auto_complete/auto_complete_helper.rs:41-49 | those names, sorted and without duplicates |
| AutoComplete.ShrinkIsLongest | src/auto_complete/auto_complete_helper.rs:103-105 | the inner loop gives the longest common prefix of the two |
| AutoComplete.ShrinkAllIsLongest | src/auto_complete/auto_complete_helper.rs:102-106 | the outer loop gives the longest prefix of all |
| AutoComplete.LongestCommonPrefix | src/auto_complete/auto_complete_helper.rs:97-108 | empty for no strings, and a prefix of every string |
| AutoComplete.LongestCommonPrefixIsLongest | src/auto_complete/auto_complete_helper.rs:97-108 | empty for no strings; a prefix of each; every common prefix is a prefix of it |
| AutoComplete.ComputeLongestCommonPrefix | src/auto_complete/auto_complete_helper.rs:97-108 | the popping loops compute `LongestCommonPrefix` |
| AutoComplete.EffectText | src/auto_complete/auto_complete_helper.rs:85-88 | the bell is one character, code 7; a listing starts with `\r\n` and the first match, and ends with the prompt `$ ` and the line |
| AutoComplete.Completed | src/auto_complete/auto_complete_helper.rs:35-94 | at most one replacement, and a replacement leaves the Tab state alone; printing happens only with no replacement and records the line; the bell goes with a count of one; a count of at most one stays at most one |
| AutoComplete.AutoCompleteHelper.constructor | src/auto_complete/auto_complete_helper.rs:16-22 | empty last input and zero count, so the count is at most one |
| AutoComplete.AutoCompleteHelper.Complete | src/auto_complete/auto_complete_helper.rs:35-94 | replacements, effect and new state are those of `Completed`, and the count stays at most one |
| AutoComplete.LineBelowCommonPrefix | src/auto_complete/auto_complete_helper.rs:66-67 | the line is a prefix of the candidates' common prefix, so "longer in bytes" means strictly longer |
| AutoComplete.CompletionCases | src/auto_complete/auto_complete_helper.rs:51-90 | none: nothing; one: that name and a space; several with a common prefix longer than the line: exactly that prefix, state unchanged; several with the line as their common prefix: no replacement, and the bell or the listing |
| AutoComplete.TabTwiceLists | src/auto_complete/auto_complete_helper.rs:77-90 | the first Tab rings, the second lists the matches and resets, the third rings again |
| AutoComplete.NewLineRestartsCount | src/auto_complete/auto_complete_helper.rs:77-80 | a different line restarts the count, so it rings |
| AutoComplete.ListingText | src/auto_complete/auto_complete_helper.rs:87-88 | the listing prints `\r\n`, the matches joined by two spaces, a newline, then the prompt and line |
| AutoComplete.ListingAppend | src/auto_complete/auto_complete_helper.rs:87-88 | for any non-empty list of matches, one more match adds two spaces and itself before the newline and the prompt, so the listing is the matches joined by two spaces |

## Left out

- `src/commands/handlers/pipeline_command_handler.rs`: process plumbing. A pipeline's result comes from `external`.
- The external-command branch of redirection: the spawned process and what it writes to the target are not modelled. Only the opening of the target and the error or empty result are.
- External commands (`Unspecified`, `LocateExecutable`, `Pwd`, `ChangeDir`, pipelines) leave the files and the history entries untouched in the model. A spawned program such as `rm` or `touch` would change the files in the source; only its reply comes from `external`.
- `cd`, `pwd` and `type` of a non-built-in, and running an unknown command: their results come from `external`. `src/commands/utils/path_helper.rs` and `src/core/utils.rs` are not part of this model.
- `Shell::run`'s rustyline loop, `setup_readline` and `add_history_entry`: terminal I/O. One loop turn is `ProcessLine`, given the line.
- `Arc<Mutex<…>>`: the shell and the history handler share one `HistoryState` object instead.
- Directories, `create_dir_all`, permissions and write failures. Opening for writing fails only on the empty path, and reading fails only on a missing file.
- Invalid UTF-8 lines in a history file: `load_history` skips them (`lines().flatten()`) and `history -r` fails on them. Files hold Dafny strings, so such lines do not arise.
- The `HISTFILE` environment variable: it is the shell's `historyFile` parameter.
- `AutoComplete.Candidates`: built by sorted insertion rather than sort-then-dedup. `IncreasingUnique` shows the result is the same list.
- Printing by `complete` (the bell, the listing) is returned as an `Effect`, and the terminal flush is not modelled.
- Running a pipeline does not change history entries in the model, though a `history` stage in a pipeline could.
- `as_any` downcasting and the `CommandHandler` trait: handlers are a datatype, and dispatch is a match on it.
