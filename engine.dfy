/**
  The shell engine: what one input line does (it is recorded, parsed and
  dispatched), what gets printed, and how the history file is loaded at
  start-up and extended at exit.
 */
module Engine {

  import opened Wrappers
  import opened Text
  import opened SupportedCommand
  import opened CommandParser
  import opened Files
  import opened HistoryStore
  import opened Handlers
  import opened Registry
  import opened RedirectionCommand

  /** What dispatch reports on the error stream when no handler accepts. */
  const NoHandlerFound: string := "No handler found for the command"

  /** A piece of text written to the standard output or the error stream. */
  datatype Printed = Stdout(text: string) | Stderr(text: string)

  /** `execute_handler`: a non-empty result or an error is printed with its
      trailing newlines replaced by exactly one; an empty result prints
      nothing. Both go to the standard output. */
  function Shown(o: Reply): (r: seq<Printed>)
    ensures |r| <= 1
    ensures r == [] <==> o == Ok("")
    ensures forall i :: 0 <= i < |r| ==> r[i].Stdout?
  {
    match o
    case Ok(out) => if out == [] then [] else [Stdout(TrimEndMatches(out, '\n') + "\n")]
    case Err(e) => [Stdout(TrimEndMatches(e, '\n') + "\n")]
  }

  /** What dispatching one command leads to: whether to stop, what was
      printed and the world afterwards; or a panic, which ends the shell. */
  datatype Dispatched =
    | Dispatched(stop: Option<bool>, printed: seq<Printed>, world: World)
    | Crashed(message: string, world: World)

  /** `dispatch_command` with the registered handlers `hs`. */
  function Dispatch(cmd: Command, hs: seq<Handler>, w: World, external: External): (r: Dispatched)
    requires w.Valid()
    ensures r.world.Valid() && w.commands <= r.world.commands
    ensures forall i :: |w.commands| <= i < |r.world.commands| ==> !IsBlank(r.world.commands[i])
    ensures r.Dispatched? && r.stop.Some? <==> cmd.Exit?
    ensures r.Crashed? ==> cmd.Redirection?
  {
    match cmd
    case Exit => Dispatched(Some(true), [], w)
    case NoArgument => Dispatched(None, [], w)
    case Redirection(_, _, _) =>
      var s := Redirect(cmd, hs, w, external);
      if s.outcome.Panic? then Crashed(s.outcome.message, s.world)
      else Dispatched(None, Shown(s.outcome), s.world)
    case Pipeline(_) => Dispatched(None, Shown(external(cmd)), w)
    case _ =>
      match FindHandler(hs, cmd)
      case None => Dispatched(None, [Stderr(NoHandlerFound + "\n")], w)
      case Some(i) =>
        var s := Respond(hs[i], cmd, w, external);
        Dispatched(None, Shown(s.outcome), s.world)
  }

  /** `record_history`: the trimmed line becomes the newest entry. */
  function Recorded(w: World, input: string): (r: World)
    ensures w.commands < r.commands && |r.commands| == |w.commands| + 1
    ensures r.commands[|w.commands|] == Trim(input)
    ensures r.cursor == w.cursor && r.files == w.files
    ensures w.Valid() ==> r.Valid()
  {
    w.(commands := w.commands + [Trim(input)])
  }

  /** One turn of the loop in `Shell::run`: a blank line is skipped; any
      other line is recorded, parsed after trimming, and dispatched. */
  function Interpret(input: string, hs: seq<Handler>, w: World, external: External): (r: Dispatched)
    requires w.Valid()
    ensures r.world.Valid() && w.commands <= r.world.commands
  {
    if IsBlank(input) then Dispatched(None, [], w)
    else Dispatch(ParseLine(Trim(input)), hs, Recorded(w, input), external)
  }

  /** `load_history`: when the history file exists, its non-blank lines are
      appended to the entries and the cursor moves past all of them. */
  function Loaded(historyFile: Option<string>, w: World): (r: World)
    requires w.Valid()
    ensures r.Valid() && w.commands <= r.commands && r.files == w.files
    ensures historyFile.Some? && historyFile.value in w.files ==>
      r.commands == w.commands + NonBlank(Lines(w.files[historyFile.value])) && r.cursor == |r.commands|
    ensures historyFile.None? || historyFile.value !in w.files ==> r == w
    ensures forall i :: |w.commands| <= i < |r.commands| ==> !IsBlank(r.commands[i])
  {
    match historyFile
    case Some(path) =>
      if path in w.files then
        var commands := w.commands + NonBlank(Lines(w.files[path]));
        w.(commands := commands, cursor := |commands|)
      else w
    case None => w
  }

  /** `save_history`: the entries after the cursor are appended to the
      history file, which is created if needed; the cursor stays. */
  function Saved(historyFile: Option<string>, w: World): (r: Step)
    requires w.Valid()
    ensures r.world.Valid() && r.world.commands == w.commands && r.world.cursor == w.cursor
    ensures r.outcome.Ok? || r.outcome.Err?
  {
    match historyFile
    case Some(path) =>
      (match WriteFile(w.files, path, Unlines(w.commands[w.cursor..]), true)
       case None => Step(Err(NotFound), w)
       case Some(files) => Step(Ok(""), w.(files := files)))
    case None => Step(Ok(""), w)
  }

  class Shell {
    const handlers: seq<Handler>
    const state: HistoryState
    const historyFile: Option<string>

    /** The history handler among `handlers` works on the shell's state. */
    predicate Valid()
      reads state
    {
      state.Valid() && SharesState(handlers, state)
    }

    /** `Shell::new`; the value of `HISTFILE` is passed in. */
    constructor (handlers: seq<Handler>, state: HistoryState, historyFile: Option<string>)
      ensures this.handlers == handlers && this.state == state && this.historyFile == historyFile
    {
      this.handlers := handlers;
      this.state := state;
      this.historyFile := historyFile;
    }

    /** `Shell::load_history`: pushes the non-blank lines one by one. */
    method LoadHistory(fs: FileSystem)
      requires Valid() && fs.Valid()
      modifies state
      ensures Valid()
      ensures WorldOf(state, fs) == Loaded(historyFile, old(WorldOf(state, fs)))
    {
      if historyFile.None? {
        return;
      }
      var text := fs.Contents(historyFile.value);
      if text.None? {
        return;
      }
      state.PushNonBlank(Lines(text.value));
      state.lastAppendedIndex := |state.commands|;
    }

    /** `Shell::record_history` */
    method RecordHistory(input: string)
      requires Valid()
      modifies state
      ensures Valid()
      ensures state.commands == old(state.commands) + [Trim(input)]
      ensures state.lastAppendedIndex == old(state.lastAppendedIndex)
    {
      state.commands := state.commands + [Trim(input)];
    }

    /** `Shell::save_history`: writes the unsaved entries one line at a time. */
    method SaveHistory(fs: FileSystem) returns (r: Outcome)
      requires Valid() && fs.Valid()
      modifies fs
      ensures Valid() && fs.Valid()
      ensures Step(r, WorldOf(state, fs)) == Saved(historyFile, old(WorldOf(state, fs)))
    {
      if historyFile.None? {
        return Ok("");
      }
      var path := historyFile.value;
      var ok := fs.Open(path, false);
      if !ok {
        return Err(NotFound);
      }
      fs.WriteLines(path, state.commands[state.lastAppendedIndex..]);
      return Ok("");
    }

    /** `Shell::dispatch_command` followed by `execute_handler`. */
    method DispatchCommand(cmd: Command, fs: FileSystem, external: External) returns (d: Dispatched)
      requires Valid() && fs.Valid()
      modifies state, fs
      ensures Valid() && fs.Valid()
      ensures d == Dispatch(cmd, handlers, old(WorldOf(state, fs)), external)
    {
      match cmd {
        case Exit => return Dispatched(Some(true), [], WorldOf(state, fs));
        case NoArgument => return Dispatched(None, [], WorldOf(state, fs));
        case Redirection(_, _, _) =>
          var handler := new RedirectionCommandHandler(handlers);
          var result := handler.Handle(cmd, state, fs, external);
          if result.Panic? {
            return Crashed(result.message, WorldOf(state, fs));
          }
          return Dispatched(None, Shown(result), WorldOf(state, fs));
        case Pipeline(_) =>
          return Dispatched(None, Shown(external(cmd)), WorldOf(state, fs));
        case _ =>
          var found := FindHandler(handlers, cmd);
          if found.None? {
            return Dispatched(None, [Stderr(NoHandlerFound + "\n")], WorldOf(state, fs));
          }
          var h := handlers[found.value];
          var result := Invoke(h, cmd, state, fs, external);
          return Dispatched(None, Shown(result), WorldOf(state, fs));
      }
    }

    /** One turn of the loop in `Shell::run` on the line `input`. */
    method ProcessLine(input: string, fs: FileSystem, external: External) returns (d: Dispatched)
      requires Valid() && fs.Valid()
      modifies state, fs
      ensures Valid() && fs.Valid()
      ensures d == Interpret(input, handlers, old(WorldOf(state, fs)), external)
    {
      var trimmed := Trim(input);
      if trimmed == [] {
        TrimIsEmptyIffBlank(input);
        return Dispatched(None, [], WorldOf(state, fs));
      }
      TrimIsEmptyIffBlank(input);
      ghost var before := WorldOf(state, fs);
      RecordHistory(input);
      assert WorldOf(state, fs) == Recorded(before, input);
      var command := Parse(trimmed);
      d := DispatchCommand(command, fs, external);
    }
  }

  /** The wiring of `main`: one history state shared by the registry's
      history handler and the shell. */
  method Start(historyFile: Option<string>) returns (shell: Shell)
    ensures fresh(shell.state) && shell.Valid()
    ensures IsStandard(shell.handlers, shell.state)
    ensures shell.state.commands == [] && shell.state.lastAppendedIndex == 0
    ensures shell.historyFile == historyFile
  {
    var state := new HistoryState();
    var registry := new CommandRegistry(state);
    var handlers := registry.Handlers();
    shell := new Shell(handlers, state, historyFile);
  }
}
