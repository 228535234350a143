/**
  `HistoryState`: the commands entered so far, in order, and the persistence
  cursor `last_appended_index` (how many of them are already in the history
  file). One object is shared by the shell and the `history` built-in.
 */
module HistoryStore {

  import opened Wrappers
  import opened Text
  import opened Files

  class HistoryState {
    var commands: seq<string>
    var lastAppendedIndex: nat

    /** The cursor never runs past the list. */
    predicate Valid()
      reads this
    {
      lastAppendedIndex <= |commands|
    }

    /** `HistoryState::default()` */
    constructor ()
      ensures Valid() && commands == [] && lastAppendedIndex == 0
    {
      commands := [];
      lastAppendedIndex := 0;
    }

    /** Pushes every line that is not blank, in order, leaving the cursor
        where it is (the loops of `history -r` and of loading at start-up). */
    method PushNonBlank(lines: seq<string>)
      requires Valid()
      modifies this
      ensures Valid()
      ensures commands == old(commands) + NonBlank(lines)
      ensures lastAppendedIndex == old(lastAppendedIndex)
    {
      for k := 0 to |lines|
        invariant Valid()
        invariant commands == old(commands) + NonBlank(lines[..k])
        invariant lastAppendedIndex == old(lastAppendedIndex)
      {
        NonBlankAppend(lines[..k], [lines[k]]);
        assert lines[..k + 1] == lines[..k] + [lines[k]];
        if !IsBlank(lines[k]) {
          commands := commands + [lines[k]];
        }
      }
      assert lines[..|lines|] == lines;
    }
  }

  /** A snapshot of everything the history operations read or change: the
      entries, the cursor and the files. */
  datatype World = World(commands: seq<string>, cursor: nat, files: map<string, string>)
  {
    predicate Valid()
    {
      cursor <= |commands| && "" !in files
    }
  }

  /** The result of an operation together with the world it leaves behind. */
  datatype Step = Step(outcome: Outcome, world: World)

  /** The world made of a history state and a file system. */
  function WorldOf(state: HistoryState, fs: FileSystem): (w: World)
    reads state, fs
    ensures w.Valid() <==> state.Valid() && fs.Valid()
  {
    World(state.commands, state.lastAppendedIndex, fs.files)
  }
}
