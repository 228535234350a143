/**
  The `history` built-in: listing the entries, reading entries from a file,
  writing all of them to a file, and appending the ones not yet saved.
 */
module HistoryCommand {

  import opened Wrappers
  import opened Text
  import opened SupportedCommand
  import opened Files
  import opened HistoryStore

  const Unsupported: string := "Unsupported command passed to HistoryCommandHandler"

  /** `HistoryCommandHandler::can_handle` */
  predicate CanHandle(cmd: Command)
  {
    cmd.History?
  }

  // ---------------------------------------------------------------------------
  // Specification
  // ---------------------------------------------------------------------------

  /** The index of the first entry listed: the last `n` entries when a limit
      `n` below the count is given, all of them otherwise. */
  function DisplayStart(count: nat, limit: Option<nat>): (start: nat)
    ensures start <= count
    ensures limit.None? || limit.value >= count ==> start == 0
    ensures limit.Some? && limit.value < count ==> count - start == limit.value
  {
    match limit
    case Some(n) => if n < count then count - n else 0
    case None => 0
  }

  /** One listed entry without its newline: the 1-based number right-aligned
      in a field of five, two spaces, and the command. */
  function Entry(index: nat, command: string): string
  {
    PadLeft(NatToString(index + 1), 5) + "  " + command
  }

  /** `format!("{:5}  {}\n", i + 1, command)` */
  function EntryLine(index: nat, command: string): string
  {
    Entry(index, command) + "\n"
  }

  /** The listing of entries `start` up to `end`, in order. */
  function Listing(commands: seq<string>, start: nat, end: nat): string
    requires start <= end <= |commands|
    decreases end - start
  {
    if end == start then "" else Listing(commands, start, end - 1) + EntryLine(end - 1, commands[end - 1])
  }

  /** Every entry of `commands` as it is listed, without newlines. */
  function Entries(commands: seq<string>): (r: seq<string>)
    ensures |r| == |commands|
  {
    seq(|commands|, i requires 0 <= i < |commands| => Entry(i, commands[i]))
  }

  /** What each action returns and leaves behind. */
  function Apply(action: HistoryAction, w: World): (r: Step)
    requires w.Valid()
    ensures r.world.Valid()
    ensures r.outcome.Ok? || r.outcome.Err?
    ensures r.outcome.Err? ==> r.world == w
    ensures action.Display? ==> r.outcome.Ok? && r.world == w
    ensures action.Read? ==>
      (r.outcome.Ok? <==> action.path in w.files)
      && w.commands <= r.world.commands && r.world.cursor == w.cursor && r.world.files == w.files
    ensures action.Write? ==> (r.outcome.Ok? <==> action.path != "") && r.world.commands == w.commands && r.world.cursor == w.cursor
    ensures action.Append? ==> (r.outcome.Ok? <==> action.path != "") && r.world.commands == w.commands
    ensures action.Append? && r.outcome.Ok? ==> r.world.cursor == |w.commands|
  {
    match action
    case Display(limit) =>
      Step(Ok(Listing(w.commands, DisplayStart(|w.commands|, limit), |w.commands|)), w)
    case Read(path) =>
      if path in w.files then
        Step(Ok(""), w.(commands := w.commands + NonBlank(Lines(w.files[path]))))
      else Step(Err(NotFound), w)
    case Write(path) =>
      (match WriteFile(w.files, path, Unlines(w.commands), false)
       case None => Step(Err(NotFound), w)
       case Some(files) => Step(Ok(""), w.(files := files)))
    case Append(path) =>
      (match WriteFile(w.files, path, Unlines(w.commands[w.cursor..]), true)
       case None => Step(Err(NotFound), w)
       case Some(files) => Step(Ok(""), w.(cursor := |w.commands|, files := files)))
  }

  /** `HistoryCommandHandler::handle`: the step it takes on `cmd` in `w`. */
  function Handled(cmd: Command, w: World): (r: Step)
    requires w.Valid()
    ensures r.world.Valid()
    ensures !CanHandle(cmd) ==> r == Step(Err(Unsupported), w)
    ensures w.commands <= r.world.commands
    ensures forall i :: |w.commands| <= i < |r.world.commands| ==> !IsBlank(r.world.commands[i])
    ensures r.outcome.Ok? || r.outcome.Err?
  {
    if cmd.History? then Apply(cmd.action, w) else Step(Err(Unsupported), w)
  }

  // ---------------------------------------------------------------------------
  // The handler, updating the shared state and the files in place
  // ---------------------------------------------------------------------------

  class HistoryCommandHandler {
    const state: HistoryState

    /** `HistoryCommandHandler::new` */
    constructor (state: HistoryState)
      ensures this.state == state
    {
      this.state := state;
    }

    /** `HistoryCommandHandler::handle`: dispatches on the action. */
    method Handle(cmd: Command, fs: FileSystem) returns (r: Outcome)
      requires state.Valid() && fs.Valid()
      modifies state, fs
      ensures state.Valid() && fs.Valid()
      ensures Step(r, WorldOf(state, fs)) == Handled(cmd, old(WorldOf(state, fs)))
    {
      if !cmd.History? {
        return Err(Unsupported);
      }
      match cmd.action {
        case Display(limit) => r := Display(limit, fs);
        case Read(path) => r := Read(path, fs);
        case Write(path) => r := Write(path, fs);
        case Append(path) => r := Append(path, fs);
      }
    }

    /** `history [n]`: the listing is built entry by entry with `push_str`. */
    method Display(limit: Option<nat>, fs: FileSystem) returns (r: Outcome)
      requires state.Valid() && fs.Valid()
      ensures Step(r, WorldOf(state, fs)) == Apply(HistoryAction.Display(limit), WorldOf(state, fs))
    {
      var total := |state.commands|;
      var start := DisplayStart(total, limit);
      var result := "";
      var i := start;
      while i < total
        invariant start <= i <= total
        invariant result == Listing(state.commands, start, i)
      {
        result := result + EntryLine(i, state.commands[i]);
        i := i + 1;
      }
      return Ok(result);
    }

    /** `history -r <path>`: every non-blank line of the file is pushed. */
    method Read(path: string, fs: FileSystem) returns (r: Outcome)
      requires state.Valid() && fs.Valid()
      modifies state
      ensures state.Valid()
      ensures Step(r, WorldOf(state, fs)) == Apply(HistoryAction.Read(path), old(WorldOf(state, fs)))
    {
      var text := fs.Contents(path);
      if text.None? {
        return Err(NotFound);
      }
      state.PushNonBlank(Lines(text.value));
      return Ok("");
    }

    /** `history -w <path>`: the file is created or truncated, then every
        entry is written as a line. */
    method Write(path: string, fs: FileSystem) returns (r: Outcome)
      requires state.Valid() && fs.Valid()
      modifies fs
      ensures fs.Valid()
      ensures Step(r, WorldOf(state, fs)) == Apply(HistoryAction.Write(path), old(WorldOf(state, fs)))
    {
      var ok := fs.Open(path, true);
      if !ok {
        return Err(NotFound);
      }
      fs.WriteLines(path, state.commands);
      assert "" + Unlines(state.commands) == Unlines(state.commands);
      return Ok("");
    }

    /** `history -a <path>`: the entries after the cursor are appended to
        the file, and the cursor moves to the end of the list. */
    method Append(path: string, fs: FileSystem) returns (r: Outcome)
      requires state.Valid() && fs.Valid()
      modifies state, fs
      ensures state.Valid() && fs.Valid()
      ensures Step(r, WorldOf(state, fs)) == Apply(HistoryAction.Append(path), old(WorldOf(state, fs)))
    {
      var ok := fs.Open(path, false);
      if !ok {
        return Err(NotFound);
      }
      var start := state.lastAppendedIndex;
      var end := |state.commands|;
      fs.WriteLines(path, state.commands[start..]);
      state.lastAppendedIndex := end;
      return Ok("");
    }
  }
}
