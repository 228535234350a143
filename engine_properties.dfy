/**
  What the engine promises across its operations: how output is printed,
  that every command reaches the handler of its variant, that history entries
  are never blank, and that a session adds exactly its new entries to the
  history file.
 */
module EngineProperties {

  import opened Wrappers
  import opened Text
  import opened SupportedCommand
  import opened CommandParser
  import opened Files
  import opened HistoryStore
  import opened Handlers
  import opened Registry
  import opened RedirectionCommand
  import opened Engine
  import opened ParserProperties
  import opened ParserExamples
  import opened HistoryProperties

  // ---------------------------------------------------------------------------
  // Printing
  // ---------------------------------------------------------------------------

  /** What is printed ends in exactly one newline and holds the text up to
      its trailing newlines; capturing a result first (as redirection does)
      does not change what is printed. */
  lemma ShownEndsInOneNewline(o: Reply)
    requires o != Ok("")
    ensures |Shown(o)| == 1
    ensures var t := Shown(o)[0].text;
      t != [] && t[|t| - 1] == '\n' && (|t| == 1 || t[|t| - 2] != '\n')
    ensures TrimEndMatches(Shown(o)[0].text, '\n') == TrimEndMatches(if o.Ok? then o.text else o.message, '\n')
  {
    var body := TrimEndMatches(if o.Ok? then o.text else o.message, '\n');
    var t := body + "\n";
    assert t[..|t| - 1] == body;
    if body != [] {
      assert t[|t| - 2] == body[|body| - 1];
    }
  }

  /** A success whose text is terminated by a newline prints the same as the
      bare text. */
  lemma ShownIgnoresTermination(out: string)
    ensures Shown(Ok(Terminated(out))) == Shown(Ok(out))
  {
    TerminatedIdempotent(out);
  }

  // ---------------------------------------------------------------------------
  // Routing
  // ---------------------------------------------------------------------------

  /** With the registered handlers, a command other than `exit`, the empty
      command, a redirection or a pipeline is run by the handler of its
      variant, so "No handler found" is never reported. */
  lemma DispatchRoutes(cmd: Command, hs: seq<Handler>, state: HistoryState, w: World, external: External)
    requires IsStandard(hs, state) && w.Valid()
    requires cmd.IsSimple() && !cmd.Exit? && !cmd.NoArgument?
    ensures HandlerIndex(cmd).Some?
    ensures Dispatch(cmd, hs, w, external)
         == var s := Respond(hs[HandlerIndex(cmd).value], cmd, w, external);
            Dispatched(None, Shown(s.outcome), s.world)
    ensures Stderr(NoHandlerFound + "\n") !in Dispatch(cmd, hs, w, external).printed
  {
    ExactlyOneHandler(hs, state, cmd);
  }

  /** `exit` stops the loop, and only `exit` does. */
  lemma OnlyExitStops(cmd: Command, hs: seq<Handler>, w: World, external: External)
    requires w.Valid()
    ensures Dispatch(cmd, hs, w, external).Dispatched? && Dispatch(cmd, hs, w, external).stop == Some(true)
        <==> cmd.Exit?
  {
  }

  // ---------------------------------------------------------------------------
  // Input lines and history entries
  // ---------------------------------------------------------------------------

  /** A line that trims to nothing is neither recorded nor run. */
  lemma BlankLineIsSkipped(input: string, hs: seq<Handler>, w: World, external: External)
    requires w.Valid() && Trim(input) == []
    ensures Interpret(input, hs, w, external) == Dispatched(None, [], w)
  {
    TrimIsEmptyIffBlank(input);
  }

  /** Any other line is recorded trimmed, as the newest entry before its
      command runs, and is what gets parsed. */
  lemma LineIsRecordedThenRun(input: string, hs: seq<Handler>, w: World, external: External)
    requires w.Valid() && Trim(input) != []
    ensures Interpret(input, hs, w, external)
         == Dispatch(ParseLine(input), hs, w.(commands := w.commands + [Trim(input)]), external)
    ensures |Interpret(input, hs, w, external).world.commands| > |w.commands|
    ensures Interpret(input, hs, w, external).world.commands[|w.commands|] == Trim(input)
  {
    TrimIsEmptyIffBlank(input);
    TrimIdempotent(input);
    ParseTrimmed(input);
  }

  /** Parsing trims first, so a trimmed line parses as the line itself. */
  lemma ParseTrimmed(input: string)
    ensures ParseLine(Trim(input)) == ParseLine(input)
  {
    TrimIdempotent(input);
  }

  /** No entry is blank. */
  predicate NoBlankEntries(commands: seq<string>)
  {
    forall i :: 0 <= i < |commands| ==> !IsBlank(commands[i])
  }

  /** A dispatch that starts with no blank entries ends with none. */
  lemma DispatchKeepsNoBlankEntries(cmd: Command, hs: seq<Handler>, w: World, external: External)
    requires w.Valid() && NoBlankEntries(w.commands)
    ensures NoBlankEntries(Dispatch(cmd, hs, w, external).world.commands)
  {
    var r := Dispatch(cmd, hs, w, external).world;
    forall i | 0 <= i < |r.commands|
      ensures !IsBlank(r.commands[i])
    {
      if i < |w.commands| {
        assert r.commands[i] == w.commands[i];
      }
    }
  }

  /** A line that is not blank is not blank once trimmed. */
  lemma TrimmedLineNotBlank(input: string)
    requires !IsBlank(input)
    ensures !IsBlank(Trim(input))
  {
    TrimIsEmptyIffBlank(input);
    TrimIdempotent(input);
  }

  /** Recording a line that is not blank adds an entry that is not blank. */
  lemma RecordedKeepsNoBlankEntries(w: World, input: string)
    requires NoBlankEntries(w.commands) && !IsBlank(input)
    ensures NoBlankEntries(Recorded(w, input).commands)
  {
    TrimmedLineNotBlank(input);
    var cs := Recorded(w, input).commands;
    forall i | 0 <= i < |cs|
      ensures !IsBlank(cs[i])
    {
      if i < |w.commands| {
        assert cs[i] == w.commands[i];
      }
    }
  }

  /** Entries are never blank: a line is recorded only when it is not blank,
      trimmed, and `history -r` adds only non-blank lines. */
  lemma EntriesStayNonBlank(input: string, hs: seq<Handler>, w: World, external: External)
    requires w.Valid() && NoBlankEntries(w.commands)
    ensures NoBlankEntries(Interpret(input, hs, w, external).world.commands)
  {
    if !IsBlank(input) {
      var w1 := Recorded(w, input);
      RecordedKeepsNoBlankEntries(w, input);
      DispatchKeepsNoBlankEntries(ParseLine(Trim(input)), hs, w1, external);
    }
  }

  // ---------------------------------------------------------------------------
  // The history file across a session
  // ---------------------------------------------------------------------------

  /** Loading the history file at start-up, recording `more` entries and
      saving at exit adds exactly `more` to the file, one per line; with no
      new entries, the file is left as it was. */
  lemma LoadRecordSave(path: string, w: World, more: seq<string>)
    requires w.Valid() && w.cursor == |w.commands| && path != ""
    ensures var loaded := Loaded(Some(path), w);
      var s := Saved(Some(path), loaded.(commands := loaded.commands + more));
      s.outcome == Ok("")
      && s.world.files[path] == (if path in w.files then w.files[path] else "") + Unlines(more)
  {
    var loaded := Loaded(Some(path), w);
    var later := loaded.(commands := loaded.commands + more);
    assert later.commands[later.cursor..] == more;
    WriteFileContents(later.files, path, Unlines(more), true);
  }

  /** Entries saved at exit by a session that started with no history file
      are loaded back at the next start-up, exactly and in order, with the
      cursor after them, when each is a single non-blank line. */
  lemma SaveThenLoad(path: string, files: map<string, string>, cs: seq<string>)
    requires path != "" && "" !in files && path !in files
    requires forall i :: 0 <= i < |cs| ==> Savable(cs[i])
    ensures var saved := Saved(Some(path), World(cs, 0, files)).world.files;
      Loaded(Some(path), World([], 0, saved)) == World(cs, |cs|, saved)
  {
    var w := World(cs, 0, files);
    assert w.commands[w.cursor..] == cs;
    WriteFileContents(files, path, Unlines(cs), true);
    var saved := Saved(Some(path), w).world.files;
    assert saved[path] == Unlines(cs);
    LinesOfUnlines(cs);
    NonBlankKeepsAll(cs);
    assert NonBlank(Lines(saved[path])) == cs;
    assert [] + cs == cs;
  }

  /** `history -a` during the session moves the cursor, so saving at exit
      adds only the entries recorded after it. */
  lemma SaveAfterAppend(path: string, w: World, more: seq<string>)
    requires w.Valid() && path != ""
    ensures var appended := HistoryCommand.Apply(HistoryAction.Append(path), w).world;
      var s := Saved(Some(path), appended.(commands := appended.commands + more));
      s.world.files[path] == (if path in w.files then w.files[path] else "")
                             + Unlines(w.commands[w.cursor..]) + Unlines(more)
  {
    var appended := HistoryCommand.Apply(HistoryAction.Append(path), w).world;
    WriteFileContents(w.files, path, Unlines(w.commands[w.cursor..]), true);
    var later := appended.(commands := appended.commands + more);
    assert later.commands[later.cursor..] == more;
    WriteFileContents(later.files, path, Unlines(more), true);
  }

  /** Saving at exit appends the entries after the cursor to the history file,
      one per line, without truncating it, and touches no other file; without a
      history file nothing happens, and an empty path fails with nothing
      changed. */
  lemma SavedAppendsNewEntries(path: string, w: World)
    requires w.Valid() && path != ""
    ensures Saved(Some(path), w).outcome == Ok("")
    ensures Saved(Some(path), w).world.files.Keys == w.files.Keys + {path}
    ensures Saved(Some(path), w).world.files[path]
         == (if path in w.files then w.files[path] else "") + Unlines(w.commands[w.cursor..])
    ensures forall p :: p in w.files && p != path ==> Saved(Some(path), w).world.files[p] == w.files[p]
    ensures Saved(Some(""), w) == Step(Err(NotFound), w)
    ensures Saved(None, w) == Step(Ok(""), w)
  {
    WriteFileContents(w.files, path, Unlines(w.commands[w.cursor..]), true);
  }

  /** `history -a` to another file moves the same cursor that saving reads,
      so the entries it wrote there never reach the history file at exit:
      only the entries recorded afterwards are appended to it. */
  lemma AppendElsewhereSkipsSave(path: string, other: string, w: World, more: seq<string>)
    requires w.Valid() && path != "" && other != "" && other != path
    ensures var appended := HistoryCommand.Apply(HistoryAction.Append(other), w).world;
      var s := Saved(Some(path), appended.(commands := appended.commands + more));
      s.world.files[path] == (if path in w.files then w.files[path] else "") + Unlines(more)
  {
    var appended := HistoryCommand.Apply(HistoryAction.Append(other), w).world;
    WriteFileContents(w.files, other, Unlines(w.commands[w.cursor..]), true);
    assert path in appended.files <==> path in w.files;
    assert path in w.files ==> appended.files[path] == w.files[path];
    var later := appended.(commands := appended.commands + more);
    assert later.commands[later.cursor..] == more;
    SavedAppendsNewEntries(path, later);
  }

  // ---------------------------------------------------------------------------
  // Lines
  // ---------------------------------------------------------------------------

  lemma EchoOutput()
    ensures EchoCommand.Handle(Echo(["hello", "world"])) == Ok("hello world\n")
    ensures TrimEndMatches("hello world\n", '\n') == "hello world"
  {
    assert Join(["hello", "world"], " ") == "hello" + " " + Join(["world"], " ");
  }

  /** `echo hello world` is recorded and prints `hello world`. */
  lemma EchoLine(s: string, hs: seq<Handler>, state: HistoryState, w: World, external: External)
    requires s == "echo hello world"
    requires IsStandard(hs, state) && w.Valid()
    ensures Interpret(s, hs, w, external)
         == Dispatched(None, [Stdout("hello world\n")], w.(commands := w.commands + [s]))
  {
    TrimKeepsInner(s);
    EchoPlainWords(s);
    EchoOutput();
    var w1 := w.(commands := w.commands + [s]);
    DispatchRoutes(Echo(["hello", "world"]), hs, state, w1, external);
  }
}
