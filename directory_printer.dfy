/**
 * `DirectoryPrinter`: writes the tree of a directory to a stream, one line
 * per subdirectory and file, after printing the root marker to the console.
 */
module DirectoryPrinter {
  import opened Wrappers
  import opened Exceptions
  import opened FileSystem
  import opened TreeWalk

  /** An output stream, seen as the lines written to it so far. */
  class Stream {
    var lines: seq<string>

    constructor()
      ensures lines == []
    {
      lines := [];
    }
  }

  /** A writer over a stream (`StreamWriter`, or `Console.Out`). */
  class StreamWriter {
    const stream: Stream

    constructor(stream: Stream)
      ensures this.stream == stream
    {
      this.stream := stream;
    }

    method WriteLine(line: string)
      modifies stream
      ensures stream.lines == old(stream.lines) + [line]
    {
      stream.lines := stream.lines + [line];
    }
  }

  /**
   * Prints the tree of the directory at `path`. A null stream, a null or
   * empty path and a path that is not an existing directory are rejected
   * before anything is written. Otherwise the root marker goes to the
   * console and the entries to the stream; an I/O failure other than an
   * access denial ends the walk and is rethrown.
   */
  method PrintTree(outputStream: Stream?, path: Option<string>, system: Disk,
                   console: StreamWriter, leq: (string, string) -> bool)
    returns (r: Outcome<Exception>)
    requires console.stream != outputStream
    modifies outputStream, console.stream
    ensures outputStream == null ==> r == Fail(ArgumentNullException("outputStream"))
    ensures outputStream != null && IsNullOrEmpty(path) ==>
      r == Fail(ArgumentException("The path cannot be null or empty.", Some("path")))
    ensures outputStream != null && !IsNullOrEmpty(path) && !DirectoryExists(system, path.value) ==>
      r == Fail(ArgumentException("The path does not exist.", Some("path")))
    ensures r.Fail? && !r.error.IOException? ==>
      (outputStream != null ==> unchanged(outputStream)) && unchanged(console.stream)
    ensures outputStream != null && !IsNullOrEmpty(path) && DirectoryExists(system, path.value) ==>
      var t := Walk(system.directories[path.value], 0, leq);
      && console.stream.lines == old(console.stream.lines) + [TreeRoot]
      && outputStream.lines == old(outputStream.lines) + Lines(t.entries)
      && r == if t.faulted then Fail(IOException) else Pass
  {
    if outputStream == null {
      return Fail(ArgumentNullException("outputStream"));
    }
    if IsNullOrEmpty(path) {
      return Fail(ArgumentException("The path cannot be null or empty.", Some("path")));
    }
    if !DirectoryExists(system, path.value) {
      return Fail(ArgumentException("The path does not exist.", Some("path")));
    }
    var writer := new StreamWriter(outputStream);
    console.WriteLine(TreeRoot);
    var faulted := PrintTreeNode(writer, system.directories[path.value], 0, leq);
    r := if faulted then Fail(IOException) else Pass;
  }

  /**
   * Writes the entries below `node` at `level`: each sorted subdirectory's
   * line followed by its own entries, then the sorted files. Returns whether
   * a listing failed with anything other than an access denial.
   */
  method PrintTreeNode(writer: StreamWriter, node: Node, level: nat, leq: (string, string) -> bool)
    returns (faulted: bool)
    modifies writer.stream
    ensures writer.stream.lines == old(writer.stream.lines) + Lines(Walk(node, level, leq).entries)
    ensures faulted == Walk(node, level, leq).faulted
    decreases node, 1
  {
    match node.subdirs
    case AccessDenied =>
      // Skip directories the user does not have access to.
      faulted := false;
    case IoFailure =>
      faulted := true;
    case Listed(ds) =>
      var dirs := SortedDirs(ds, leq);
      faulted := PrintSubdirs(writer, node, dirs, level, leq);
      if faulted {
        return;
      }
      ghost var t := WalkDirs(node, dirs, level, leq);
      match node.files
      case AccessDenied =>
        faulted := false;
      case IoFailure =>
        faulted := true;
      case Listed(fs) =>
        var files := SortedFiles(fs, leq);
        PrintFiles(writer, files, level);
        LinesAppend(t.entries, FileEntries(files, level));
        Regroup(old(writer.stream.lines), Lines(t.entries), Lines(FileEntries(files, level)));
        assert Walk(node, level, leq).entries == t.entries + FileEntries(files, level);
        faulted := false;
  }

  /**
   * Writes each subdirectory in `dirs` (in that order) followed by its own
   * entries, stopping at the first fault.
   */
  method PrintSubdirs(writer: StreamWriter, node: Node, dirs: seq<Node>, level: nat,
                      leq: (string, string) -> bool)
    returns (faulted: bool)
    requires node.subdirs.Listed?
    requires forall d :: d in dirs ==> d in node.subdirs.entries
    modifies writer.stream
    ensures writer.stream.lines == old(writer.stream.lines) + Lines(WalkDirs(node, dirs, level, leq).entries)
    ensures faulted == WalkDirs(node, dirs, level, leq).faulted
    decreases node, 0
  {
    ghost var start := writer.stream.lines;
    assert dirs[..0] == [];
    faulted := false;
    var i := 0;
    // A fault ends the loop at once, as the exception it stands for does.
    while i < |dirs| && !faulted
      invariant 0 <= i <= |dirs|
      invariant writer.stream.lines == start + Lines(WalkDirs(node, dirs[..i], level, leq).entries)
      invariant faulted == WalkDirs(node, dirs[..i], level, leq).faulted
    {
      var subdir := dirs[i];
      ghost var listing := node.subdirs;
      assert subdir in listing.entries && listing == Listed(listing.entries);
      ghost var before := writer.stream.lines;
      faulted := PrintSubdir(writer, subdir, level, leq);
      DirRound(node, dirs, i, level, leq, start, before, writer.stream.lines);
      i := i + 1;
    }
    if faulted {
      WalkDirsFaultStays(node, dirs, i, level, leq);
    } else {
      assert dirs[..i] == dirs;
    }
  }

  /** Writes the line of the subdirectory `subdir` at `level`, then its own entries. */
  method PrintSubdir(writer: StreamWriter, subdir: Node, level: nat, leq: (string, string) -> bool)
    returns (faulted: bool)
    modifies writer.stream
    ensures writer.stream.lines == old(writer.stream.lines) + [Tabs(level) + TreeEntry + subdir.name + DirSuffix]
                                   + Lines(Walk(subdir, level + 1, leq).entries)
    ensures faulted == Walk(subdir, level + 1, leq).faulted
    decreases subdir, 2
  {
    writer.WriteLine(Tabs(level) + TreeEntry + subdir.name + DirSuffix);
    faulted := PrintTreeNode(writer, subdir, level + 1, leq);
  }

  /** Writes one line per file in `files`, in that order. */
  method PrintFiles(writer: StreamWriter, files: seq<string>, level: nat)
    modifies writer.stream
    ensures writer.stream.lines == old(writer.stream.lines) + Lines(FileEntries(files, level))
  {
    var treeTabs := Tabs(level);
    ghost var start := writer.stream.lines;
    var j := 0;
    while j < |files|
      invariant 0 <= j <= |files|
      invariant writer.stream.lines == start + Lines(FileEntries(files[..j], level))
    {
      FileStep(files, j, level);
      var line := treeTabs + TreeEntry + files[j];
      Regroup(start, Lines(FileEntries(files[..j], level)), [line]);
      writer.WriteLine(line);
      j := j + 1;
    }
    assert files[..j] == files;
  }

  /**
   * One round of the subdirectory loop: the subdirectory's line and then its
   * own entries, written after the earlier rounds' output, make up the
   * output of one more round.
   */
  lemma DirRound(node: Node, dirs: seq<Node>, i: nat, level: nat, leq: (string, string) -> bool,
                 start: seq<string>, before: seq<string>, after: seq<string>)
    requires node.subdirs.Listed?
    requires forall d :: d in dirs ==> d in node.subdirs.entries
    requires i < |dirs|
    requires before == start + Lines(WalkDirs(node, dirs[..i], level, leq).entries)
    requires !WalkDirs(node, dirs[..i], level, leq).faulted
    requires after == before + [Tabs(level) + TreeEntry + dirs[i].name + DirSuffix]
                     + Lines(Walk(dirs[i], level + 1, leq).entries)
    ensures after == start + Lines(WalkDirs(node, dirs[..i + 1], level, leq).entries)
    ensures WalkDirs(node, dirs[..i + 1], level, leq).faulted == Walk(dirs[i], level + 1, leq).faulted
  {
    DirStep(node, dirs, i, level, leq);
    Regroup3(start, Lines(WalkDirs(node, dirs[..i], level, leq).entries),
             Tabs(level) + TreeEntry + dirs[i].name + DirSuffix, Lines(Walk(dirs[i], level + 1, leq).entries));
  }

  /** One round of the subdirectory loop adds the subdirectory's line and its walk. */
  lemma DirStep(node: Node, dirs: seq<Node>, i: nat, level: nat, leq: (string, string) -> bool)
    requires node.subdirs.Listed?
    requires forall d :: d in dirs ==> d in node.subdirs.entries
    requires i < |dirs|
    requires !WalkDirs(node, dirs[..i], level, leq).faulted
    ensures var inner := Walk(dirs[i], level + 1, leq);
      && WalkDirs(node, dirs[..i + 1], level, leq).faulted == inner.faulted
      && Lines(WalkDirs(node, dirs[..i + 1], level, leq).entries) ==
         Lines(WalkDirs(node, dirs[..i], level, leq).entries)
         + [Tabs(level) + TreeEntry + dirs[i].name + DirSuffix] + Lines(inner.entries)
  {
    assert dirs[..i + 1][..i] == dirs[..i];
    var e := Entry(level, dirs[i].name, true);
    assert FormatLine(e) == Tabs(level) + TreeEntry + dirs[i].name + DirSuffix;
    LinesAppend3(WalkDirs(node, dirs[..i], level, leq).entries, e, Walk(dirs[i], level + 1, leq).entries);
  }

  /** One round of the file loop adds the file's line. */
  lemma FileStep(files: seq<string>, j: nat, level: nat)
    requires j < |files|
    ensures Lines(FileEntries(files[..j + 1], level)) ==
      Lines(FileEntries(files[..j], level)) + [Tabs(level) + TreeEntry + files[j]]
  {
    var e := Entry(level, files[j], false);
    assert FileEntries(files[..j + 1], level) == FileEntries(files[..j], level) + [e];
    assert FormatLine(e) == Tabs(level) + TreeEntry + files[j] + "";
    assert Tabs(level) + TreeEntry + files[j] + "" == Tabs(level) + TreeEntry + files[j];
    LinesAppend(FileEntries(files[..j], level), [e]);
  }

  lemma LinesAppend3(a: seq<Entry>, e: Entry, b: seq<Entry>)
    ensures Lines(a + [e] + b) == Lines(a) + [FormatLine(e)] + Lines(b)
  {
    LinesAppend(a + [e], b);
    LinesAppend(a, [e]);
    assert [e][..0] == [];
  }

  /**
   * Sequence concatenation regrouped. Stated as lemmas rather than asserts
   * so that the methods above see only the instance they need.
   */
  lemma Regroup(a: seq<string>, b: seq<string>, c: seq<string>)
    ensures (a + b) + c == a + (b + c)
  {
  }

  lemma Regroup3(a: seq<string>, b: seq<string>, x: string, c: seq<string>)
    ensures a + b + [x] + c == a + (b + [x] + c)
  {
  }
}
