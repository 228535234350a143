/**
  The closed set of commands the parser produces and the handlers consume
  (the `SupportedCommand`, `HistoryAction` and `RedirectionKind` enums), and the
  fixed list of built-in names.
 */
module SupportedCommand {

  import opened Wrappers

  /** What `history` was asked to do. The display limit is a `usize`. */
  datatype HistoryAction =
    | Display(limit: Option<nat>)
    | Read(path: string)
    | Write(path: string)
    | Append(path: string)

  /** Which stream a redirection captures, and whether the file is appended to. */
  datatype RedirectionKind =
    | OverwriteOnlySuccess
    | OverwriteOnlyError
    | AppendOnlySuccess
    | AppendOnlyError

  datatype Command =
    | Echo(args: seq<string>)
    | Exit
    | TypeCheck(cmd: string)
    | LocateExecutable(cmd: string)
    | Unspecified(cmd: string, args: seq<string>)
    | NoArgument
    | Pwd
    | ChangeDir(path: string)
    | History(action: HistoryAction)
    | Redirection(kind: RedirectionKind, inner: Command, outputFile: string)
    | Pipeline(commands: seq<Command>)
  {
    /** A command built from one word list: neither a pipeline nor a redirection. */
    predicate IsSimple()
    {
      !Pipeline? && !Redirection?
    }

    /** The shape the parser guarantees: pipelines have at least two stages and
        never nest, and a redirection wraps exactly one simple command. */
    predicate WellFormed()
    {
      match this
      case Pipeline(cs) => |cs| >= 2 && forall i :: 0 <= i < |cs| ==> cs[i].IsSimple()
      case Redirection(_, inner, _) => inner.IsSimple()
      case _ => true
    }
  }

  /** `SupportedCommand::commands()`: the names `type` reports as built-ins. */
  function Commands(): (r: seq<string>)
    ensures |r| == 5
    ensures forall i, j :: 0 <= i < j < |r| ==> r[i] != r[j]
  {
    ["echo", "exit", "type", "pwd", "history"]
  }

  /** `SupportedCommand::supported(cmd)`: membership in `Commands()`. */
  function Supported(name: string): (r: bool)
    ensures r <==> name == "echo" || name == "exit" || name == "type" || name == "pwd" || name == "history"
  {
    name in Commands()
  }

  /** `cd` is handled by the shell but is not one of the names `type` knows. */
  lemma ChangeDirIsNotSupported()
    ensures !Supported("cd") && "cd" !in Commands()
  {
  }
}
