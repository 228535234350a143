/**
  `CommandRegistry`: the seven handlers in the order they are consulted, the
  `history` one sharing the history state it was built with, and the lookup
  of the first handler that accepts a command.
 */
module Registry {

  import opened Wrappers
  import opened SupportedCommand
  import opened HistoryStore
  import opened Handlers
  import HistoryCommand

  /** The registered list: Echo, Type, Locate, Unspecified, Pwd, ChangeDir,
      and a History handler on `state`. */
  predicate IsStandard(hs: seq<Handler>, state: HistoryState)
  {
    |hs| == 7
    && hs[0] == EchoHandler && hs[1] == TypeHandler && hs[2] == LocateHandler
    && hs[3] == UnspecifiedHandler && hs[4] == PwdHandler && hs[5] == ChangeDirHandler
    && hs[6].HistoryHandler? && hs[6].history.state == state
  }

  class CommandRegistry {
    const handlers: seq<Handler>

    /** `CommandRegistry::new` */
    constructor (state: HistoryState)
      ensures IsStandard(handlers, state)
      ensures fresh(handlers[6].history)
    {
      var history := new HistoryCommand.HistoryCommandHandler(state);
      handlers := [EchoHandler, TypeHandler, LocateHandler, UnspecifiedHandler,
                   PwdHandler, ChangeDirHandler, HistoryHandler(history)];
    }

    /** `CommandRegistry::handlers`: a copy of the list, which itself never
        changes. */
    method Handlers() returns (hs: seq<Handler>)
      ensures hs == handlers
    {
      hs := handlers;
    }
  }

  /** `handlers.iter().find(|h| h.can_handle(cmd))`: the position of the first
      handler that accepts `cmd`. */
  function FindHandler(hs: seq<Handler>, cmd: Command): (r: Option<nat>)
    ensures r.Some? ==> r.value < |hs| && CanHandle(hs[r.value], cmd)
    ensures r.Some? ==> forall j :: 0 <= j < r.value ==> !CanHandle(hs[j], cmd)
    ensures r.None? ==> forall j :: 0 <= j < |hs| ==> !CanHandle(hs[j], cmd)
  {
    if hs == [] then None
    else if CanHandle(hs[0], cmd) then Some(0)
    else
      match FindHandler(hs[1..], cmd)
      case None => None
      case Some(i) => Some(i + 1)
  }

  /** Which registered handler serves each variant, written independently of
      `can_handle`: none for `exit`, the empty command and the two composite
      commands, which the shell routes itself. */
  function HandlerIndex(cmd: Command): Option<nat>
  {
    match cmd
    case Echo(_) => Some(0)
    case TypeCheck(_) => Some(1)
    case LocateExecutable(_) => Some(2)
    case Unspecified(_, _) => Some(3)
    case Pwd => Some(4)
    case ChangeDir(_) => Some(5)
    case History(_) => Some(6)
    case _ => None
  }

  /** In the registered list every command is accepted by at most one
      handler, and the lookup finds the handler of its variant. */
  lemma ExactlyOneHandler(hs: seq<Handler>, state: HistoryState, cmd: Command)
    requires IsStandard(hs, state)
    ensures FindHandler(hs, cmd) == HandlerIndex(cmd)
    ensures forall i, j :: 0 <= i < |hs| && 0 <= j < |hs| && CanHandle(hs[i], cmd) && CanHandle(hs[j], cmd) ==> i == j
    ensures (exists i :: 0 <= i < |hs| && CanHandle(hs[i], cmd))
        <==> !(cmd.Exit? || cmd.NoArgument? || cmd.Redirection? || cmd.Pipeline?)
  {
    match HandlerIndex(cmd)
    case None =>
      assert forall i :: 0 <= i < |hs| ==> !CanHandle(hs[i], cmd);
    case Some(k) =>
      assert CanHandle(hs[k], cmd);
      assert forall i :: 0 <= i < |hs| && i != k ==> !CanHandle(hs[i], cmd);
  }
}
