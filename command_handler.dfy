/**
  The handlers the shell registers and what each does with a command. Echo,
  `type` and `history` are modelled in full; the handlers that ask the
  operating system (locating an executable, running one, the working
  directory) take their answer from `external`, a function standing for the
  operating system.
 */
module Handlers {

  import opened Wrappers
  import opened Text
  import opened SupportedCommand
  import opened Files
  import opened HistoryStore
  import EchoCommand
  import TypeCommand
  import HistoryCommand

  datatype Handler =
    | EchoHandler
    | TypeHandler
    | LocateHandler
    | UnspecifiedHandler
    | PwdHandler
    | ChangeDirHandler
    | HistoryHandler(history: HistoryCommand.HistoryCommandHandler)

  /** The outcome the operating system gives a command that leaves the model:
      what `find_executable`, `current_dir`, `set_current_dir` or a spawned
      process report. */
  type External = Command -> Reply

  /** What a handler returns: `anyhow::Result<String>`, never a panic. */
  type Reply = o: Outcome | !o.Panic? witness Ok("")

  /** `can_handle` of each handler: each accepts exactly one variant. */
  predicate CanHandle(h: Handler, cmd: Command)
  {
    match h
    case EchoHandler => EchoCommand.CanHandle(cmd)
    case TypeHandler => TypeCommand.CanHandle(cmd)
    case LocateHandler => cmd.LocateExecutable?
    case UnspecifiedHandler => cmd.Unspecified?
    case PwdHandler => cmd.Pwd?
    case ChangeDirHandler => cmd.ChangeDir?
    case HistoryHandler(_) => HistoryCommand.CanHandle(cmd)
  }

  /** The message of the `bail!` each handler gives a command it does not
      accept. */
  function Rejection(h: Handler): string
  {
    match h
    case EchoHandler => EchoCommand.Unsupported
    case TypeHandler => TypeCommand.Unsupported
    case LocateHandler => "Unsupported command passed to LocateCommandHandler"
    case UnspecifiedHandler => "Unsupported command passed to UnspecifiedCommandHandler"
    case PwdHandler => "Unsupported command passed to PwdCommandHandler"
    case ChangeDirHandler => "Unsupported command passed to ChangeDirCommandHandler"
    case HistoryHandler(_) => HistoryCommand.Unsupported
  }

  /** `handle` of each handler, in world `w`. Only `history` changes the
      world; every handler rejects a command it does not accept, and none
      panics. */
  function Respond(h: Handler, cmd: Command, w: World, external: External): (r: Step)
    requires w.Valid()
    ensures r.world.Valid() && w.commands <= r.world.commands
    ensures forall i :: |w.commands| <= i < |r.world.commands| ==> !IsBlank(r.world.commands[i])
    ensures !CanHandle(h, cmd) ==> r == Step(Err(Rejection(h)), w)
    ensures !h.HistoryHandler? ==> r.world == w
    ensures !r.outcome.Panic?
  {
    match h
    case EchoHandler => Step(EchoCommand.Handle(cmd), w)
    case TypeHandler => Step(TypeCommand.Handle(cmd), w)
    case HistoryHandler(_) => HistoryCommand.Handled(cmd, w)
    case _ =>
      if !CanHandle(h, cmd) then Step(Err(Rejection(h)), w)
      else Step(external(cmd), w)
  }

  /** Every `history` handler in `hs` works on `state`. */
  predicate SharesState(hs: seq<Handler>, state: HistoryState)
  {
    forall i :: 0 <= i < |hs| && hs[i].HistoryHandler? ==> hs[i].history.state == state
  }

  /** Runs handler `h` on `cmd`; a `history` handler updates `state` and the
      files in place. */
  method Invoke(h: Handler, cmd: Command, state: HistoryState, fs: FileSystem, external: External)
    returns (r: Outcome)
    requires h.HistoryHandler? ==> h.history.state == state
    requires state.Valid() && fs.Valid()
    modifies state, fs
    ensures state.Valid() && fs.Valid()
    ensures Step(r, WorldOf(state, fs)) == Respond(h, cmd, old(WorldOf(state, fs)), external)
  {
    match h {
      case EchoHandler => r := EchoCommand.Handle(cmd);
      case TypeHandler => r := TypeCommand.Handle(cmd);
      case HistoryHandler(handler) => r := handler.Handle(cmd, fs);
      case _ =>
        if !CanHandle(h, cmd) {
          r := Err(Rejection(h));
        } else {
          r := external(cmd);
        }
    }
  }
}
