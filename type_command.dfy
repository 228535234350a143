/**
  The `type` built-in for names it knows: it reports them as shell built-ins.
  Other names never reach it; the parser turns them into `LocateExecutable`.
 */
module TypeCommand {

  import opened Wrappers
  import opened SupportedCommand
  import opened CommandParser

  const Unsupported: string := "Unsupported command passed to TypeCommandHandler"

  /** `TypeCommandHandler::can_handle` */
  predicate CanHandle(cmd: Command)
  {
    cmd.TypeCheck?
  }

  /** `TypeCommandHandler::handle`, with its separate arm for `history`. */
  function Handle(cmd: Command): (r: Outcome)
    ensures r.Ok? <==> CanHandle(cmd)
    ensures !r.Ok? ==> r == Err(Unsupported)
  {
    match cmd
    case TypeCheck(name) =>
      if name == "history" then Ok(name + " is a shell builtin\n")
      else Ok(name + " is a shell builtin\n")
    case _ => Err(Unsupported)
  }

  /** Every name gets the same sentence, `history` included. */
  lemma TypeSentence(name: string)
    ensures Handle(TypeCheck(name)) == Ok(name + " is a shell builtin\n")
  {
  }

  /** From the command line: `type X` answers with the sentence exactly when X
      is one of the five built-in names; otherwise the parser sends it to the
      executable lookup, which this handler refuses. */
  lemma TypeOfParsedName(x: string, rest: seq<string>)
    ensures Handle(BuildCommand(["type", x] + rest)).Ok? <==> Supported(x)
    ensures Supported(x) ==> Handle(BuildCommand(["type", x] + rest)) == Ok(x + " is a shell builtin\n")
  {
    assert (["type", x] + rest)[1..] == [x] + rest;
  }
}
