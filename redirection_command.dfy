/**
  `RedirectionCommandHandler`: runs the inner command of `cmd > file` (and
  `>>`, `2>`, `2>>`), captures what a built-in produced on its two streams,
  writes one of them to the file and returns the other.
 */
module RedirectionCommand {

  import opened Wrappers
  import opened Text
  import opened SupportedCommand
  import opened Files
  import opened HistoryStore
  import opened Handlers
  import opened Registry

  const Unsupported: string := "Unsupported command passed to RedirectionCommandHandler"

  /** The message of `expect` when no handler accepts the inner command. */
  const HandlerMissing: string := "Handler must exist"

  /** The message of `expect` when no handler for an external command is
      registered. */
  const UnspecifiedMissing: string := "UnspecifiedCommandHandler must be available"

  /** `>>` and `2>>` append; `>` and `2>` truncate. */
  predicate IsAppend(kind: RedirectionKind)
  {
    kind.AppendOnlySuccess? || kind.AppendOnlyError?
  }

  /** `>` and `>>` capture the standard output; `2>` and `2>>` the errors. */
  predicate IsStdout(kind: RedirectionKind)
  {
    kind.OverwriteOnlySuccess? || kind.AppendOnlySuccess?
  }

  /** A captured buffer with a final newline added when it is non-empty and
      lacks one. */
  function Terminated(s: string): (r: string)
    ensures s <= r
    ensures s == [] ==> r == []
    ensures s != [] ==> r[|r| - 1] == '\n'
    ensures s != [] && s[|s| - 1] == '\n' ==> r == s
    ensures s != [] && s[|s| - 1] != '\n' ==> r == s + "\n"
  {
    if s != [] && s[|s| - 1] != '\n' then s + "\n" else s
  }

  /** The two buffers the handler's result is captured in. */
  datatype Captured = Captured(stdout: string, stderr: string)

  /** A success fills the standard output buffer and an error the error
      buffer, each terminated by a newline. */
  function Capture(o: Reply): (c: Captured)
    ensures c.stdout == [] || c.stderr == []
    ensures o.Ok? ==> c.stderr == [] && o.text <= c.stdout && (o.text != [] ==> c.stdout != [])
    ensures o.Err? ==> c.stdout == [] && o.message <= c.stderr && (o.message != [] ==> c.stderr != [])
  {
    match o
    case Ok(out) => Captured(Terminated(out), "")
    case Err(e) => Captured("", Terminated(e))
  }

  /** `redirect_output`: the captured stream named by `kind` goes to `target`
      (appended or truncated), and the other one is returned. */
  function RedirectOutput(kind: RedirectionKind, target: string, c: Captured, w: World): (r: Step)
    requires w.Valid()
    ensures r.world.Valid()
  {
    var written := if IsStdout(kind) then c.stdout else c.stderr;
    var returned := if IsStdout(kind) then c.stderr else c.stdout;
    match WriteFile(w.files, target, written, IsAppend(kind))
    case None => Step(Err(NotFound), w)
    case Some(files) => Step(Ok(returned), w.(files := files))
  }

  /** `RedirectionCommandHandler::handle` with the handlers `hs`. An external
      inner command gets the target opened (created, truncated unless
      appending) and then runs outside the model; a built-in runs here and
      its output is captured and redirected. */
  function Redirect(cmd: Command, hs: seq<Handler>, w: World, external: External): (r: Step)
    requires w.Valid()
    ensures r.world.Valid() && w.commands <= r.world.commands
    ensures forall i :: |w.commands| <= i < |r.world.commands| ==> !IsBlank(r.world.commands[i])
    ensures !cmd.Redirection? ==> r == Step(Err(Unsupported), w)
  {
    if !cmd.Redirection? then Step(Err(Unsupported), w)
    else
      var inner := cmd.inner;
      if inner.Unspecified? then
        match FindHandler(hs, inner)
        case None => Step(Panic(UnspecifiedMissing), w)
        case Some(i) =>
          if !hs[i].UnspecifiedHandler? then Step(Panic(UnspecifiedMissing), w)
          else if cmd.outputFile == "" then Step(Err(NotFound), w)
          else
            var prepared := w.(files := Opened(w.files, cmd.outputFile, !IsAppend(cmd.kind)));
            match external(inner)
            case Err(e) => Step(Err(e), prepared)
            case _ => Step(Ok(""), prepared)
      else
        match FindHandler(hs, inner)
        case None => Step(Panic(HandlerMissing), w)
        case Some(i) =>
          var s := Respond(hs[i], inner, w, external);
          RedirectOutput(cmd.kind, cmd.outputFile, Capture(s.outcome), s.world)
  }

  class RedirectionCommandHandler {
    const handlers: seq<Handler>

    /** `RedirectionCommandHandler::new` */
    constructor (handlers: seq<Handler>)
      ensures this.handlers == handlers
    {
      this.handlers := handlers;
    }

    /** `write_to_file`: opens `path` with `create`, and `append` or
        `truncate`, then writes `content`. */
    static method WriteToFile(path: string, content: string, append: bool, fs: FileSystem)
      returns (ok: bool)
      requires fs.Valid()
      modifies fs
      ensures fs.Valid()
      ensures ok <==> WriteFile(old(fs.files), path, content, append).Some?
      ensures ok ==> fs.files == WriteFile(old(fs.files), path, content, append).value
      ensures !ok ==> fs.files == old(fs.files)
    {
      ok := fs.Open(path, !append);
      if ok {
        fs.Write(path, content);
      }
    }

    /** The two buffers filled with `push_str`, then given a final newline
        with `push` when they lack one. */
    static method CaptureOutput(o: Reply) returns (stdout: string, stderr: string)
      ensures Captured(stdout, stderr) == Capture(o)
    {
      stdout := "";
      stderr := "";
      match o {
        case Ok(out) =>
          stdout := stdout + out;
          if stdout != [] && stdout[|stdout| - 1] != '\n' {
            stdout := stdout + "\n";
          }
        case Err(e) =>
          stderr := stderr + e;
          if stderr != [] && stderr[|stderr| - 1] != '\n' {
            stderr := stderr + "\n";
          }
      }
    }

    /** `RedirectionCommandHandler::handle` */
    method Handle(cmd: Command, state: HistoryState, fs: FileSystem, external: External)
      returns (r: Outcome)
      requires SharesState(handlers, state)
      requires state.Valid() && fs.Valid()
      modifies state, fs
      ensures state.Valid() && fs.Valid()
      ensures Step(r, WorldOf(state, fs)) == Redirect(cmd, handlers, old(WorldOf(state, fs)), external)
    {
      if !cmd.Redirection? {
        return Err(Unsupported);
      }
      var inner := cmd.inner;
      var found := FindHandler(handlers, inner);
      if found.None? {
        return Panic(if inner.Unspecified? then UnspecifiedMissing else HandlerMissing);
      }
      var h := handlers[found.value];
      if inner.Unspecified? {
        if !h.UnspecifiedHandler? {
          return Panic(UnspecifiedMissing);
        }
        var ok := fs.Open(cmd.outputFile, !IsAppend(cmd.kind));
        if !ok {
          return Err(NotFound);
        }
        var spawned := external(inner);
        r := if spawned.Err? then spawned else Ok("");
        return;
      }
      var result := Invoke(h, inner, state, fs, external);
      var stdout, stderr := CaptureOutput(result);
      var written := if IsStdout(cmd.kind) then stdout else stderr;
      var ok := WriteToFile(cmd.outputFile, written, IsAppend(cmd.kind), fs);
      if !ok {
        return Err(NotFound);
      }
      r := Ok(if IsStdout(cmd.kind) then stderr else stdout);
    }
  }

  // ---------------------------------------------------------------------------
  // Properties
  // ---------------------------------------------------------------------------

  /** Terminating twice is terminating once, and the text up to its trailing
      newlines is unchanged. */
  lemma TerminatedIdempotent(s: string)
    ensures Terminated(Terminated(s)) == Terminated(s)
    ensures TrimEndMatches(Terminated(s), '\n') == TrimEndMatches(s, '\n')
  {
    if s != [] && s[|s| - 1] != '\n' {
      var t := s + "\n";
      assert t[..|t| - 1] == s;
    }
  }

  /** The redirected stream replaces the target (or is appended to it, the
      target being created when absent), no other file changes, and the
      other stream is returned. */
  lemma RedirectOutputWrites(kind: RedirectionKind, target: string, c: Captured, w: World)
    requires w.Valid() && target != ""
    ensures RedirectOutput(kind, target, c, w).outcome
         == Ok(if IsStdout(kind) then c.stderr else c.stdout)
    ensures RedirectOutput(kind, target, c, w).world.commands == w.commands
    ensures RedirectOutput(kind, target, c, w).world.files[target]
         == (if IsAppend(kind) && target in w.files then w.files[target] else "")
            + (if IsStdout(kind) then c.stdout else c.stderr)
    ensures forall p :: p in w.files && p != target ==> RedirectOutput(kind, target, c, w).world.files[p] == w.files[p]
  {
    var written := if IsStdout(kind) then c.stdout else c.stderr;
    WriteFileContents(w.files, target, written, IsAppend(kind));
  }

  /** The target exists afterwards even when the redirected stream is empty. */
  lemma RedirectCreatesTarget(kind: RedirectionKind, target: string, c: Captured, w: World)
    requires w.Valid() && target != ""
    ensures target in RedirectOutput(kind, target, c, w).world.files
  {
  }

  /** A built-in under redirection is run by the handler of its variant, its
      result is captured, and the chosen stream goes to the target. */
  lemma BuiltinRedirected(kind: RedirectionKind, inner: Command, target: string, hs: seq<Handler>,
                          state: HistoryState, w: World, external: External)
    requires IsStandard(hs, state) && w.Valid()
    requires HandlerIndex(inner).Some? && !inner.Unspecified?
    ensures var s := Respond(hs[HandlerIndex(inner).value], inner, w, external);
      Redirect(Redirection(kind, inner, target), hs, w, external)
      == RedirectOutput(kind, target, Capture(s.outcome), s.world)
  {
    ExactlyOneHandler(hs, state, inner);
  }

  /** A built-in that succeeds under `2>` prints its output and leaves the
      target empty. */
  lemma EchoUnderErrorRedirection(args: seq<string>, target: string, hs: seq<Handler>, state: HistoryState,
                                  w: World, external: External)
    requires IsStandard(hs, state) && w.Valid() && target != ""
    ensures Redirect(Redirection(OverwriteOnlyError, Echo(args), target), hs, w, external)
         == Step(Ok(Join(args, " ") + "\n"), w.(files := w.files[target := ""]))
  {
    var out := Join(args, " ") + "\n";
    BuiltinRedirected(OverwriteOnlyError, Echo(args), target, hs, state, w, external);
    assert Respond(hs[0], Echo(args), w, external) == Step(Ok(out), w);
    assert Terminated(out) == out;
    OverwriteFile(w.files, target, "");
  }

  /** Under `>` the same built-in prints nothing and the target holds its
      output. */
  lemma EchoUnderOutputRedirection(args: seq<string>, target: string, hs: seq<Handler>, state: HistoryState,
                                   w: World, external: External)
    requires IsStandard(hs, state) && w.Valid() && target != ""
    ensures Redirect(Redirection(OverwriteOnlySuccess, Echo(args), target), hs, w, external)
         == Step(Ok(""), w.(files := w.files[target := Join(args, " ") + "\n"]))
  {
    var out := Join(args, " ") + "\n";
    BuiltinRedirected(OverwriteOnlySuccess, Echo(args), target, hs, state, w, external);
    assert Respond(hs[0], Echo(args), w, external) == Step(Ok(out), w);
    assert Terminated(out) == out;
    OverwriteFile(w.files, target, out);
  }

  /** Redirecting a command no registered handler accepts (`exit`, or an
      empty command as in `> file`) panics. */
  lemma NoHandlerPanics(kind: RedirectionKind, inner: Command, target: string, hs: seq<Handler>,
                        state: HistoryState, w: World, external: External)
    requires IsStandard(hs, state) && w.Valid()
    requires inner.Exit? || inner.NoArgument?
    ensures Redirect(Redirection(kind, inner, target), hs, w, external) == Step(Panic(HandlerMissing), w)
  {
    ExactlyOneHandler(hs, state, inner);
  }

  /** An external command under redirection: the target is created (and
      truncated unless appending) before the command runs, and the command's
      own failure, such as `command not found`, is what is returned. */
  lemma ExternalOpensTarget(kind: RedirectionKind, name: string, args: seq<string>, target: string,
                            hs: seq<Handler>, state: HistoryState, w: World, external: External)
    requires IsStandard(hs, state) && w.Valid() && target != ""
    ensures Redirect(Redirection(kind, Unspecified(name, args), target), hs, w, external).world.files
         == Opened(w.files, target, !IsAppend(kind))
    ensures Redirect(Redirection(kind, Unspecified(name, args), target), hs, w, external).outcome
         == if external(Unspecified(name, args)).Err? then external(Unspecified(name, args)) else Ok("")
  {
    ExactlyOneHandler(hs, state, Unspecified(name, args));
  }
}
