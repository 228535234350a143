/**
  What the `history` built-in promises: the listing shows the last entries in
  the `{:5}  {}` format, writing and reading a file round-trips the entries,
  and appending saves each entry once.
 */
module HistoryProperties {

  import opened Wrappers
  import opened Text
  import opened SupportedCommand
  import opened Files
  import opened HistoryStore
  import opened HistoryCommand

  // ---------------------------------------------------------------------------
  // The entry format
  // ---------------------------------------------------------------------------

  function Pow10(k: nat): (r: nat)
    ensures r >= 1
  {
    if k == 0 then 1 else 10 * Pow10(k - 1)
  }

  /** A number below `10^k` is written with at most `k` digits. */
  lemma {:induction false} NatToStringDigits(n: nat, k: nat)
    requires 1 <= k && n < Pow10(k)
    ensures |NatToString(n)| <= k
  {
    if n >= 10 {
      assert k >= 2;
      NatToStringDigits(n / 10, k - 1);
    }
  }

  /** `trim_start` removes exactly the padding `PadLeft` put in front. */
  lemma TrimStartOfPadded(s: string, width: nat)
    requires s != [] && !IsWhitespace(s[0])
    ensures TrimStart(PadLeft(s, width)) == s
  {
    var p := PadLeft(s, width);
    var pad := |p| - |s|;
    assert p == p[..pad] + s;
    assert IsBlank(p[..pad]) by {
      forall i | 0 <= i < pad
        ensures IsWhitespace(p[..pad][i])
      {
        assert p[i] == ' ';
      }
    }
    TrimStartSkipsBlank(p[..pad], s);
  }

  /** A listed entry below number 100000: the number right-aligned in the
      first five characters (reading back as the 1-based index), two spaces,
      then the command unchanged. */
  lemma EntryFormat(index: nat, command: string)
    requires index + 1 < 100000
    ensures |Entry(index, command)| == 7 + |command|
    ensures ParseUsize(TrimStart(Entry(index, command)[..5])) == Some(index + 1)
    ensures Entry(index, command)[5..7] == "  "
    ensures Entry(index, command)[7..] == command
  {
    var digits := NatToString(index + 1);
    NatToStringDigits(index + 1, 5);
    var e := Entry(index, command);
    var field := PadLeft(digits, 5);
    assert |field| == 5;
    assert e[..5] == field;
    assert !IsWhitespace(digits[0]) by { assert IsDigit(digits[0]); }
    TrimStartOfPadded(digits, 5);
    ParseUsizeOfNatToString(index + 1);
  }

  // ---------------------------------------------------------------------------
  // Display
  // ---------------------------------------------------------------------------

  /** The listing built entry by entry is the entries joined as lines. */
  lemma {:induction false} ListingIsEntries(commands: seq<string>, start: nat, end: nat)
    requires start <= end <= |commands|
    ensures Listing(commands, start, end) == Unlines(Entries(commands)[start..end])
    decreases end - start
  {
    var es := Entries(commands);
    if end == start {
      assert es[start..end] == [];
    } else {
      ListingIsEntries(commands, start, end - 1);
      UnlinesSliceStep(es, start, end);
      assert es[end - 1] + "\n" == EntryLine(end - 1, commands[end - 1]);
    }
  }

  /** A command as the shell records it: one line, not ending in a carriage
      return. */
  predicate SingleLine(command: string)
  {
    '\n' !in command && (command == [] || command[|command| - 1] != '\r')
  }

  /** An entry of a one-line command is one line: the number field holds
      only spaces and digits. */
  lemma EntrySingleLine(index: nat, command: string)
    requires SingleLine(command)
    ensures SingleLine(Entry(index, command))
  {
    var digits := NatToString(index + 1);
    var field := PadLeft(digits, 5);
    forall j | 0 <= j < |field|
      ensures field[j] != '\n'
    {
      if j >= |field| - |digits| {
        assert field[j] == field[|field| - |digits|..][j - (|field| - |digits|)];
        assert IsDigit(digits[j - (|field| - |digits|)]);
      }
    }
    var e := Entry(index, command);
    assert e == field + ("  " + command);
    assert e[|e| - 1] == ("  " + command)[|command| + 1];
  }

  /** The entries from `start` on are one line each. */
  lemma EntriesFromSingleLine(cs: seq<string>, start: nat)
    requires start <= |cs|
    requires forall i :: 0 <= i < |cs| ==> SingleLine(cs[i])
    ensures forall i :: 0 <= i < |Entries(cs)[start..]| ==> SingleLine(Entries(cs)[start..][i])
  {
    var es := Entries(cs);
    forall i | 0 <= i < |es[start..]|
      ensures SingleLine(es[start..][i])
    {
      EntrySingleLine(start + i, cs[start + i]);
    }
  }

  /** Read back as lines, the listing from `start` is the entries from
      `start`. */
  lemma ListingLines(cs: seq<string>, start: nat)
    requires start <= |cs|
    requires forall i :: 0 <= i < |cs| ==> SingleLine(cs[i])
    ensures Lines(Listing(cs, start, |cs|)) == Entries(cs)[start..]
  {
    var es := Entries(cs);
    ListingIsEntries(cs, start, |cs|);
    assert es[start..|cs|] == es[start..];
    EntriesFromSingleLine(cs, start);
    LinesOfUnlines(es[start..]);
  }

  /** `history` and `history n` list the last `n` entries (all of them when
      `n` is absent or not below the count), one line each, in order, and
      change nothing. */
  lemma DisplayListsLast(limit: Option<nat>, w: World)
    requires w.Valid()
    requires forall i :: 0 <= i < |w.commands| ==> SingleLine(w.commands[i])
    ensures Apply(HistoryAction.Display(limit), w).world == w
    ensures Apply(HistoryAction.Display(limit), w).outcome.Ok?
    ensures Lines(Apply(HistoryAction.Display(limit), w).outcome.text)
         == Entries(w.commands)[DisplayStart(|w.commands|, limit)..]
    ensures |Lines(Apply(HistoryAction.Display(limit), w).outcome.text)|
         == if limit.Some? && limit.value < |w.commands| then limit.value else |w.commands|
  {
    ListingLines(w.commands, DisplayStart(|w.commands|, limit));
  }

  // ---------------------------------------------------------------------------
  // Files
  // ---------------------------------------------------------------------------

  /** A command the shell would list again after reading it from a file: one
      line, and not blank. */
  predicate Savable(command: string)
  {
    SingleLine(command) && !IsBlank(command)
  }

  /** `history -r` of an existing file appends its non-blank lines, in order,
      and leaves the cursor and the files alone. */
  lemma ReadAppendsFileLines(path: string, w: World)
    requires w.Valid() && path in w.files
    ensures Apply(HistoryAction.Read(path), w)
         == Step(Ok(""), w.(commands := w.commands + NonBlank(Lines(w.files[path]))))
  {
  }

  /** `history -w` replaces the file with every entry, one per line, creating
      it if needed; no other file, entry or the cursor changes. */
  lemma WriteReplacesFile(path: string, w: World)
    requires w.Valid() && path != ""
    ensures Apply(HistoryAction.Write(path), w).outcome == Ok("")
    ensures Apply(HistoryAction.Write(path), w).world.files.Keys == w.files.Keys + {path}
    ensures Apply(HistoryAction.Write(path), w).world.files[path] == Unlines(w.commands)
    ensures forall p :: p in w.files && p != path ==>
      Apply(HistoryAction.Write(path), w).world.files[p] == w.files[p]
    ensures Apply(HistoryAction.Write(path), w).world.commands == w.commands
    ensures Apply(HistoryAction.Write(path), w).world.cursor == w.cursor
  {
    WriteFileContents(w.files, path, Unlines(w.commands), false);
  }

  /** `history -w` then `history -r` on the same path appends a copy of every
      entry, in order; the write leaves the entries and the cursor alone. */
  lemma WriteThenRead(path: string, w: World)
    requires w.Valid() && path != ""
    requires forall i :: 0 <= i < |w.commands| ==> Savable(w.commands[i])
    ensures Apply(HistoryAction.Write(path), w).outcome == Ok("")
    ensures Apply(HistoryAction.Write(path), w).world.commands == w.commands
    ensures Apply(HistoryAction.Write(path), w).world.cursor == w.cursor
    ensures Apply(HistoryAction.Read(path), Apply(HistoryAction.Write(path), w).world)
         == Step(Ok(""), Apply(HistoryAction.Write(path), w).world.(commands := w.commands + w.commands))
  {
    var w1 := Apply(HistoryAction.Write(path), w).world;
    WriteFileContents(w.files, path, Unlines(w.commands), false);
    assert w1.files[path] == Unlines(w.commands);
    LinesOfUnlines(w.commands);
    NonBlankKeepsAll(w.commands);
  }

  /** A missing file cannot be read: `history -r` fails with the operating
      system's message and changes nothing. */
  lemma ReadMissingFile(path: string, w: World)
    requires w.Valid() && path !in w.files
    ensures Apply(HistoryAction.Read(path), w) == Step(Err(NotFound), w)
  {
  }

  /** `history -a` adds exactly the entries after the cursor to the end of the
      file, creating it if needed, and moves the cursor to the end. */
  lemma AppendSavesNewEntries(path: string, w: World)
    requires w.Valid() && path != ""
    ensures Apply(HistoryAction.Append(path), w).outcome == Ok("")
    ensures Apply(HistoryAction.Append(path), w).world.commands == w.commands
    ensures Apply(HistoryAction.Append(path), w).world.cursor == |w.commands|
    ensures Apply(HistoryAction.Append(path), w).world.files[path]
         == (if path in w.files then w.files[path] else "") + Unlines(w.commands[w.cursor..])
  {
    WriteFileContents(w.files, path, Unlines(w.commands[w.cursor..]), true);
  }

  /** A second `history -a` with no new entries in between writes nothing. */
  lemma AppendIsIdempotent(path: string, w: World)
    requires w.Valid() && path != ""
    ensures Apply(HistoryAction.Append(path), Apply(HistoryAction.Append(path), w).world)
         == Step(Ok(""), Apply(HistoryAction.Append(path), w).world)
  {
    var w1 := Apply(HistoryAction.Append(path), w).world;
    assert w1.commands[w1.cursor..] == [];
    var w2 := Apply(HistoryAction.Append(path), w1).world;
    assert Opened(w1.files, path, false) == w1.files;
    assert w1.files[path] + "" == w1.files[path];
    assert w2.files == w1.files;
  }

  /** Appending before and after more entries arrive leaves the same file and
      cursor as appending once at the end: every entry is saved exactly once. */
  lemma AppendInTwoSteps(path: string, w: World, more: seq<string>)
    requires w.Valid() && path != ""
    ensures Apply(HistoryAction.Append(path),
                  Apply(HistoryAction.Append(path), w).world.(commands := w.commands + more)).world
         == Apply(HistoryAction.Append(path), w.(commands := w.commands + more)).world
  {
    var first := Unlines(w.commands[w.cursor..]);
    var w1 := Apply(HistoryAction.Append(path), w).world;
    var all := w.commands + more;
    assert w1.files == WriteFile(w.files, path, first, true).value;
    assert w1.(commands := all).commands[w1.cursor..] == more;
    assert all[w.cursor..] == w.commands[w.cursor..] + more;
    UnlinesAppend(w.commands[w.cursor..], more);
    AppendTwice(w.files, path, first, Unlines(more));
  }

  /** `history -w` does not move the cursor, so a following `history -a`
      writes the entries after the cursor a second time. */
  lemma WriteKeepsCursor(path: string, w: World)
    requires w.Valid() && path != "" && w.cursor == 0
    ensures Apply(HistoryAction.Append(path), Apply(HistoryAction.Write(path), w).world).world.files[path]
         == Unlines(w.commands) + Unlines(w.commands)
  {
    var w1 := Apply(HistoryAction.Write(path), w).world;
    WriteFileContents(w.files, path, Unlines(w.commands), false);
    assert w1.cursor == 0 && w1.commands[0..] == w.commands;
    AppendSavesNewEntries(path, w1);
  }
}
