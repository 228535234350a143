/**
  The `echo` built-in: its words joined by single spaces, then a newline.
 */
module EchoCommand {

  import opened Wrappers
  import opened Text
  import opened SupportedCommand
  import opened CommandParser
  import ParserProperties

  const Unsupported: string := "Unsupported command passed to EchoCommandHandler"

  /** `EchoCommandHandler::can_handle` */
  predicate CanHandle(cmd: Command)
  {
    cmd.Echo?
  }

  /** `EchoCommandHandler::handle` */
  function Handle(cmd: Command): (r: Outcome)
    ensures r.Ok? <==> CanHandle(cmd)
    ensures !r.Ok? ==> r == Err(Unsupported)
    ensures r.Ok? ==> |r.text| >= 1 && r.text[|r.text| - 1] == '\n'
  {
    if cmd.Echo? then Ok(Join(cmd.args, " ") + "\n") else Err(Unsupported)
  }

  /** `echo` with no words prints an empty line. */
  lemma EchoNothing()
    ensures Handle(Echo([])) == Ok("\n")
  {
  }

  /** The output, without its newline, is the words separated by single
      spaces: one word is printed as it is, and each further word adds a space
      and itself. */
  lemma EchoJoinsWords(ws: seq<string>, w: string)
    ensures Handle(Echo([w])) == Ok(w + "\n")
    ensures ws != [] ==> Handle(Echo(ws + [w])).text == Handle(Echo(ws)).text[..|Handle(Echo(ws)).text| - 1] + " " + w + "\n"
  {
    if ws != [] {
      JoinAppend(ws, w, " ");
    }
  }

  /** Echoing words of ordinary characters prints a line that the parser
      splits back into the same words. */
  lemma EchoThenSplit(ws: seq<string>)
    requires forall i :: 0 <= i < |ws| ==> ws[i] != [] && ParserProperties.IsPlain(ws[i])
    ensures var out := Handle(Echo(ws)).text; WordsOf(out[..|out| - 1]) == ws
  {
    var out := Handle(Echo(ws)).text;
    assert out[..|out| - 1] == Join(ws, " ");
    ParserProperties.PlainWordsRoundTrip(ws, []);
  }
}
