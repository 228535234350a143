/**
  The part of the file system the shell touches: regular files named by a path,
  each holding text. Directories, permissions and other processes are not
  modelled; the empty path names no file, so opening it fails as the operating
  system does.
 */
module Files {

  import opened Wrappers
  import opened Text

  /** The text of the `std::io::Error` for a missing file (ENOENT). */
  const NotFound: string := "No such file or directory (os error 2)"

  /** The files after opening `path` for writing with `create(true)`: the file
      exists afterwards, empty when `truncate` is set or when it was absent. */
  function Opened(files: map<string, string>, path: string, truncate: bool): (r: map<string, string>)
    ensures path in r && r.Keys == files.Keys + {path}
    ensures r[path] == if truncate || path !in files then "" else files[path]
    ensures forall p :: p in files && p != path ==> r[p] == files[p]
  {
    files[path := if truncate || path !in files then "" else files[path]]
  }

  /** Open `path` (creating it, truncating it unless `append`) and write
      `content` at its end: `None` when the path cannot be opened. */
  function WriteFile(files: map<string, string>, path: string, content: string, append: bool): (r: Option<map<string, string>>)
    ensures r.None? <==> path == ""
  {
    if path == "" then None
    else
      var created := Opened(files, path, !append);
      Some(created[path := created[path] + content])
  }

  /** A file system whose files are updated in place. */
  class FileSystem {
    var files: map<string, string>

    predicate Valid()
      reads this
    {
      "" !in files
    }

    constructor (initial: map<string, string>)
      requires "" !in initial
      ensures Valid() && files == initial
    {
      files := initial;
    }

    /** The whole text of the file at `path`, or `None` when there is none. */
    function Contents(path: string): (r: Option<string>)
      reads this
      ensures r.Some? <==> path in files
      ensures r.Some? ==> r.value == files[path]
    {
      if path in files then Some(files[path]) else None
    }

    /** `OpenOptions::new().create(true).write(true)`, with `truncate` or not:
        fails only on the empty path. */
    method Open(path: string, truncate: bool) returns (ok: bool)
      requires Valid()
      modifies this
      ensures Valid()
      ensures ok <==> path != ""
      ensures ok ==> files == Opened(old(files), path, truncate)
      ensures !ok ==> files == old(files)
    {
      if path == "" {
        return false;
      }
      files := Opened(files, path, truncate);
      return true;
    }

    /** `write_all` on a file opened by `Open`: the text goes at the end. */
    method Write(path: string, content: string)
      requires Valid() && path in files
      modifies this
      ensures Valid()
      ensures files == old(files)[path := old(files)[path] + content]
    {
      files := files[path := files[path] + content];
    }

    /** `writeln!` of each line in turn on a file opened by `Open`: the lines
        go at the end, each followed by a newline. */
    method WriteLines(path: string, lines: seq<string>)
      requires Valid() && path in files
      modifies this
      ensures Valid()
      ensures files == old(files)[path := old(files)[path] + Unlines(lines)]
    {
      ghost var base := files[path];
      var k := 0;
      assert Unlines(lines[..0]) == "" && base + "" == base;
      assert files[path := base] == files;
      while k < |lines|
        invariant k <= |lines|
        invariant Valid() && path in files
        invariant files == old(files)[path := base + Unlines(lines[..k])]
      {
        UnlinesPrefixStep(lines, k);
        assert base + Unlines(lines[..k + 1]) == (base + Unlines(lines[..k])) + (lines[k] + "\n");
        Write(path, lines[k] + "\n");
        k := k + 1;
      }
      assert lines[..k] == lines;
    }
  }

  // ---------------------------------------------------------------------------
  // Properties
  // ---------------------------------------------------------------------------

  /** Overwriting leaves exactly the written text; appending adds it after what
      was there (nothing when the file was absent); no other file changes. */
  lemma WriteFileContents(files: map<string, string>, path: string, content: string, append: bool)
    requires path != ""
    ensures WriteFile(files, path, content, append).Some?
    ensures WriteFile(files, path, content, append).value.Keys == files.Keys + {path}
    ensures !append ==> WriteFile(files, path, content, append).value[path] == content
    ensures append ==>
      WriteFile(files, path, content, append).value[path] == (if path in files then files[path] else "") + content
    ensures forall p :: p in files && p != path ==> WriteFile(files, path, content, append).value[p] == files[p]
  {
  }

  /** Overwriting sets the file to exactly the written text. */
  lemma OverwriteFile(files: map<string, string>, path: string, content: string)
    requires path != ""
    ensures WriteFile(files, path, content, false) == Some(files[path := content])
  {
    var cleared := Opened(files, path, true);
    assert "" + content == content;
    assert cleared[path := content] == files[path := content];
  }

  /** The target exists after a write even when nothing was written. */
  lemma WriteFileCreates(files: map<string, string>, path: string, append: bool)
    requires path != "" && path !in files
    ensures path in WriteFile(files, path, "", append).value
    ensures WriteFile(files, path, "", append).value[path] == ""
  {
  }

  /** Two appends are one append of the two texts. */
  lemma AppendTwice(files: map<string, string>, path: string, a: string, b: string)
    requires path != ""
    ensures WriteFile(WriteFile(files, path, a, true).value, path, b, true)
         == WriteFile(files, path, a + b, true)
  {
    var base := if path in files then files[path] else "";
    var created := files[path := base];
    var once := created[path := base + a];
    assert WriteFile(files, path, a, true) == Some(once);
    assert once[path := base + a] == once;
    var twice := once[path := base + a + b];
    assert WriteFile(once, path, b, true) == Some(twice);
    assert base + a + b == base + (a + b);
    assert twice == created[path := base + (a + b)];
  }
}
