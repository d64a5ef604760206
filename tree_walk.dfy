/**
 * What the directory tree printer writes, as a function of the directory
 * tree: a depth-first walk with one line per subdirectory and file,
 * subdirectories first, each group sorted by name.
 */
module TreeWalk {
  import opened Wrappers
  import opened FileSystem
  import opened Ordering

  const TreeRoot: string := "."
  const TreeTab: string := "|   "
  const TreeEntry: string := "|-- "
  const DirSuffix: string := "/"

  /** One printed entry: its nesting level, its bare name and whether it is a directory. */
  datatype Entry = Entry(depth: nat, name: string, isDirectory: bool)

  /**
   * What one call of the walk writes, and whether an I/O failure other than
   * an access denial escaped from it (which aborts every enclosing call).
   */
  datatype Trace = Trace(entries: seq<Entry>, faulted: bool)

  /** `level` copies of the indentation token. */
  function Tabs(level: nat): (r: string)
    ensures |r| == 4 * level
  {
    if level == 0 then "" else TreeTab + Tabs(level - 1)
  }

  /**
   * The text of the line written for an entry: the indentation, the entry
   * token, the name, and a final `/` for a directory.
   */
  function FormatLine(e: Entry): (r: string)
    ensures |r| == 4 * e.depth + |TreeEntry| + |e.name| + (if e.isDirectory then 1 else 0)
    ensures e.isDirectory ==> r[|r| - 1] == '/'
  {
    Tabs(e.depth) + TreeEntry + e.name + (if e.isDirectory then DirSuffix else "")
  }

  /** The lines written for a sequence of entries: one per entry, in order. */
  function Lines(es: seq<Entry>): (r: seq<string>)
    ensures |r| == |es|
    ensures forall i :: 0 <= i < |es| ==> r[i] == FormatLine(es[i])
  {
    if es == [] then [] else Lines(es[..|es| - 1]) + [FormatLine(es[|es| - 1])]
  }

  lemma {:induction false} LinesAppend(a: seq<Entry>, b: seq<Entry>)
    ensures Lines(a + b) == Lines(a) + Lines(b)
    decreases |b|
  {
    if b == [] {
      assert a + b == a;
    } else {
      assert (a + b)[..|a + b| - 1] == a + b[..|b| - 1];
      LinesAppend(a, b[..|b| - 1]);
    }
  }

  /**
   * Reads a line back: leading indentation tokens give the depth, then the
   * entry token, then the name with a trailing `/` for a directory.
   */
  function ParseLine(line: string): Option<Entry>
  {
    if |line| >= 4 && line[..4] == TreeTab then
      match ParseLine(line[4..])
      case Some(e) => Some(e.(depth := e.depth + 1))
      case None => None
    else if |line| >= 4 && line[..4] == TreeEntry then
      var rest := line[4..];
      if |rest| > 0 && rest[|rest| - 1] == '/' then Some(Entry(0, rest[..|rest| - 1], true))
      else Some(Entry(0, rest, false))
    else None
  }

  /**
   * The line format is unambiguous: every line can be read back as the entry
   * it was written for, so the depth is the number of indentation tokens and
   * the `/` appears exactly for directories. Names never contain `/`.
   */
  lemma {:induction false} ParseFormatLine(e: Entry)
    requires '/' !in e.name
    ensures ParseLine(FormatLine(e)) == Some(e)
    decreases e.depth
  {
    if e.depth == 0 {
      assert FormatLine(e) == TreeEntry + e.name + (if e.isDirectory then DirSuffix else "");
      ParseUnindented(e.name, e.isDirectory);
    } else {
      var inner := e.(depth := e.depth - 1);
      FormatIndented(e);
      ParseFormatLine(inner);
      ParseIndented(FormatLine(inner));
    }
  }

  /** An entry's line at depth `d + 1` is its line at depth `d` behind one more indentation token. */
  lemma FormatIndented(e: Entry)
    requires e.depth > 0
    ensures FormatLine(e) == TreeTab + FormatLine(e.(depth := e.depth - 1))
  {
    var tail := TreeEntry + e.name + (if e.isDirectory then DirSuffix else "");
    assert FormatLine(e.(depth := e.depth - 1)) == Tabs(e.depth - 1) + tail;
    assert FormatLine(e) == (TreeTab + Tabs(e.depth - 1)) + tail;
  }

  lemma ParseIndented(line: string)
    ensures ParseLine(TreeTab + line) ==
      match ParseLine(line)
      case Some(e) => Some(e.(depth := e.depth + 1))
      case None => None
  {
    var full := TreeTab + line;
    assert full[..4] == TreeTab && full[4..] == line;
  }

  lemma ParseUnindented(name: string, isDirectory: bool)
    requires '/' !in name
    ensures ParseLine(TreeEntry + name + (if isDirectory then DirSuffix else "")) == Some(Entry(0, name, isDirectory))
  {
    var line := TreeEntry + name + (if isDirectory then DirSuffix else "");
    assert line[..4] == TreeEntry && TreeEntry[1] != TreeTab[1];
    var rest := line[4..];
    if isDirectory {
      assert rest == name + DirSuffix;
      assert rest[..|rest| - 1] == name;
    } else {
      assert rest == name;
      if |rest| > 0 {
        assert rest[|rest| - 1] in name;
      }
    }
  }

  function NodeName(d: Node): string
  {
    d.name
  }

  function FileName(f: string): string
  {
    f
  }

  /** `GetDirectories().OrderBy(d => d.Name)`. */
  function SortedDirs(ds: seq<Node>, leq: (string, string) -> bool): (r: seq<Node>)
    ensures |r| == |ds|
    ensures forall d :: d in r <==> d in ds
  {
    var r := SortBy(ds, NodeName, leq);
    assert forall d :: d in r <==> d in multiset(ds);
    assert |r| == |multiset(r)| == |multiset(ds)| == |ds|;
    r
  }

  /** `GetFiles().OrderBy(f => f.Name)`. */
  function SortedFiles(fs: seq<string>, leq: (string, string) -> bool): (r: seq<string>)
    ensures |r| == |fs|
    ensures multiset(r) == multiset(fs)
  {
    var r := SortBy(fs, FileName, leq);
    assert |r| == |multiset(r)| == |multiset(fs)| == |fs|;
    r
  }

  function DirEntries(ds: seq<Node>, level: nat): (r: seq<Entry>)
    ensures |r| == |ds|
  {
    seq(|ds|, i requires 0 <= i < |ds| => Entry(level, ds[i].name, true))
  }

  function FileEntries(fs: seq<string>, level: nat): (r: seq<Entry>)
    ensures |r| == |fs|
  {
    seq(|fs|, i requires 0 <= i < |fs| => Entry(level, fs[i], false))
  }

  /**
   * What `PrintTreeNode(n, level)` writes: for each sorted subdirectory its
   * line and then its own walk one level deeper, then the sorted files. An
   * access denial on either listing ends the call quietly, keeping what was
   * already written; any other failure ends it and every caller.
   */
  function Walk(n: Node, level: nat, leq: (string, string) -> bool): (r: Trace)
    ensures !r.faulted && n.subdirs.Listed? && n.files.Listed? ==>
      |r.entries| >= |n.subdirs.entries| + |n.files.entries|
    decreases n, 1, 0
  {
    match n.subdirs
    case AccessDenied => Trace([], false)
    case IoFailure => Trace([], true)
    case Listed(ds) =>
      var t := WalkDirs(n, SortedDirs(ds, leq), level, leq);
      if t.faulted then t
      else
        match n.files
        case AccessDenied => t
        case IoFailure => Trace(t.entries, true)
        case Listed(fs) => Trace(t.entries + FileEntries(SortedFiles(fs, leq), level), false)
  }

  /** The first loop of `PrintTreeNode`, run over the subdirectories `ds` of `parent`. */
  function WalkDirs(parent: Node, ds: seq<Node>, level: nat, leq: (string, string) -> bool): (r: Trace)
    requires parent.subdirs.Listed?
    requires forall d :: d in ds ==> d in parent.subdirs.entries
    ensures !r.faulted ==> |r.entries| >= |ds|
    decreases parent, 0, |ds|
  {
    if ds == [] then Trace([], false)
    else
      var before := WalkDirs(parent, ds[..|ds| - 1], level, leq);
      if before.faulted then before
      else
        var d := ds[|ds| - 1];
        var listing := parent.subdirs;
        assert d in listing.entries && listing == Listed(listing.entries);
        var inner := Walk(d, level + 1, leq);
        Trace(before.entries + [Entry(level, d.name, true)] + inner.entries, inner.faulted)
  }

  /** No listing the walk reaches fails with anything but an access denial. */
  ghost predicate FaultFree(n: Node)
    decreases n
  {
    match n.subdirs
    case AccessDenied => true
    case IoFailure => false
    case Listed(ds) => !n.files.IoFailure? && forall d :: d in ds ==> FaultFree(d)
  }

  /**
   * The number of entries the walk can list below `n`: every listed
   * subdirectory with its own entries, and every listed file. A listing
   * that is denied contributes nothing.
   */
  function EntryCount(n: Node): nat
    decreases n, 1, 0
  {
    match n.subdirs
    case AccessDenied => 0
    case IoFailure => 0
    case Listed(ds) => DirsCount(n, ds) + (if n.files.Listed? then |n.files.entries| else 0)
  }

  function DirsCount(parent: Node, ds: seq<Node>): nat
    requires parent.subdirs.Listed?
    requires forall d :: d in ds ==> d in parent.subdirs.entries
    decreases parent, 0, |ds|
  {
    if ds == [] then 0
    else
      var d := ds[|ds| - 1];
      var listing := parent.subdirs;
      assert d in listing.entries && listing == Listed(listing.entries);
      DirsCount(parent, ds[..|ds| - 1]) + 1 + EntryCount(d)
  }

  /** The entries of `es` at exactly depth `d`, in order. */
  function AtDepth(es: seq<Entry>, d: nat): seq<Entry>
  {
    if es == [] then []
    else (if es[0].depth == d then [es[0]] else []) + AtDepth(es[1..], d)
  }

  // ---------------------------------------------------------------------
  // Prefixes of the subdirectory loop

  /** Once a subdirectory's walk has faulted, later subdirectories add nothing. */
  lemma {:induction false} WalkDirsFaultStays(parent: Node, ds: seq<Node>, j: nat, level: nat, leq: (string, string) -> bool)
    requires parent.subdirs.Listed?
    requires forall d :: d in ds ==> d in parent.subdirs.entries
    requires j <= |ds|
    requires WalkDirs(parent, ds[..j], level, leq).faulted
    ensures WalkDirs(parent, ds, level, leq) == WalkDirs(parent, ds[..j], level, leq)
    decreases |ds| - j
  {
    if j < |ds| {
      WalkDirsFaultStep(parent, ds, j, level, leq);
      WalkDirsFaultStays(parent, ds, j + 1, level, leq);
    } else {
      assert ds[..j] == ds;
    }
  }

  lemma WalkDirsFaultStep(parent: Node, ds: seq<Node>, j: nat, level: nat, leq: (string, string) -> bool)
    requires parent.subdirs.Listed?
    requires forall d :: d in ds ==> d in parent.subdirs.entries
    requires j < |ds|
    requires WalkDirs(parent, ds[..j], level, leq).faulted
    ensures WalkDirs(parent, ds[..j + 1], level, leq) == WalkDirs(parent, ds[..j], level, leq)
  {
    assert ds[..j + 1][..j] == ds[..j];
  }

  /** A completed subdirectory loop extends the output of each of its prefixes. */
  lemma {:induction false} WalkDirsPrefix(parent: Node, ds: seq<Node>, j: nat, level: nat, leq: (string, string) -> bool)
    requires parent.subdirs.Listed?
    requires forall d :: d in ds ==> d in parent.subdirs.entries
    requires j <= |ds|
    requires !WalkDirs(parent, ds, level, leq).faulted
    ensures !WalkDirs(parent, ds[..j], level, leq).faulted
    ensures WalkDirs(parent, ds[..j], level, leq).entries <= WalkDirs(parent, ds, level, leq).entries
    decreases |ds|
  {
    if j == |ds| {
      assert ds[..j] == ds;
    } else {
      var front := ds[..|ds| - 1];
      WalkDirsPrefix(parent, front, j, level, leq);
      assert front[..j] == ds[..j];
    }
  }

  // ---------------------------------------------------------------------
  // Faults

  /**
   * The walk throws exactly when some listing it reaches fails with an
   * error other than an access denial: denied directories are skipped and
   * the walk goes on with their siblings.
   */
  lemma {:induction false} WalkFaultedIff(n: Node, level: nat, leq: (string, string) -> bool)
    ensures Walk(n, level, leq).faulted <==> !FaultFree(n)
    decreases n, 1, 0
  {
    match n.subdirs
    case AccessDenied =>
    case IoFailure =>
    case Listed(ds) =>
      var sorted := SortedDirs(ds, leq);
      WalkDirsFaultedIff(n, sorted, level, leq);
  }

  lemma {:induction false} WalkDirsFaultedIff(parent: Node, ds: seq<Node>, level: nat, leq: (string, string) -> bool)
    requires parent.subdirs.Listed?
    requires forall d :: d in ds ==> d in parent.subdirs.entries
    ensures WalkDirs(parent, ds, level, leq).faulted <==> exists d :: d in ds && !FaultFree(d)
    decreases parent, 0, |ds|
  {
    if ds != [] {
      var front := ds[..|ds| - 1];
      var d := ds[|ds| - 1];
      var listing := parent.subdirs;
      assert d in listing.entries && listing == Listed(listing.entries);
      WalkDirsFaultedIff(parent, front, level, leq);
      WalkFaultedIff(d, level + 1, leq);
      assert ds == front + [d];
      assert forall x :: x in ds <==> x in front || x == d;
    }
  }

  // ---------------------------------------------------------------------
  // Counting

  lemma {:induction false} DirsCountAppend(parent: Node, a: seq<Node>, b: seq<Node>)
    requires parent.subdirs.Listed?
    requires forall d :: d in a + b ==> d in parent.subdirs.entries
    ensures DirsCount(parent, a + b) == DirsCount(parent, a) + DirsCount(parent, b)
    decreases |b|
  {
    if b == [] {
      assert a + b == a;
    } else {
      var ab := a + b;
      assert ab[..|ab| - 1] == a + b[..|b| - 1];
      DirsCountAppend(parent, a, b[..|b| - 1]);
    }
  }

  lemma RemoveOne<T>(front: seq<T>, x: T, t: seq<T>, j: nat)
    requires multiset(front + [x]) == multiset(t)
    requires j < |t| && t[j] == x
    ensures multiset(t[..j] + t[j + 1..]) == multiset(front)
  {
    assert t == t[..j] + [x] + t[j + 1..];
    var rest := t[..j] + t[j + 1..];
    assert multiset(t) == multiset(rest) + multiset{x};
    assert multiset(front + [x]) == multiset(front) + multiset{x};
    forall y
      ensures multiset(rest)[y] == multiset(front)[y]
    {
      assert (multiset(rest) + multiset{x})[y] == multiset(rest)[y] + multiset{x}[y];
      assert (multiset(front) + multiset{x})[y] == multiset(front)[y] + multiset{x}[y];
    }
  }

  /** Counting does not depend on the order of the listing. */
  lemma {:induction false} DirsCountPermutation(parent: Node, s: seq<Node>, t: seq<Node>)
    requires parent.subdirs.Listed?
    requires forall d :: d in s ==> d in parent.subdirs.entries
    requires forall d :: d in t ==> d in parent.subdirs.entries
    requires multiset(s) == multiset(t)
    ensures DirsCount(parent, s) == DirsCount(parent, t)
    decreases |s|
  {
    if s == [] {
      assert |t| == |multiset(t)| == 0;
    } else {
      var front := s[..|s| - 1];
      var x := s[|s| - 1];
      assert s == front + [x];
      assert x in multiset(t);
      var j :| 0 <= j < |t| && t[j] == x;
      var a, b := t[..j], t[j + 1..];
      assert t == (a + [x]) + b;
      RemoveOne(front, x, t, j);
      assert forall d :: d in a + b ==> d in t;
      DirsCountPermutation(parent, front, a + b);
      DirsCountSplit(parent, a, x, b);
      DirsCountSplit(parent, front, x, []);
      assert front + [x] + [] == s && front + [] == front;
    }
  }

  /** Taking one subdirectory out of a listing removes its line and its entries from the count. */
  lemma DirsCountSplit(parent: Node, a: seq<Node>, x: Node, b: seq<Node>)
    requires parent.subdirs.Listed?
    requires forall d :: d in a + [x] + b ==> d in parent.subdirs.entries
    ensures DirsCount(parent, a + [x] + b) == DirsCount(parent, a + b) + 1 + EntryCount(x)
  {
    assert forall d :: d in a + [x] ==> d in a + [x] + b;
    assert forall d :: d in a + b ==> d in a + [x] + b;
    DirsCountAppend(parent, a + [x], b);
    DirsCountAppend(parent, a, [x]);
    DirsCountAppend(parent, a, b);
    assert [x][..0] == [];
  }

  /**
   * When no listing fails with a non-denial error, the walk writes one line
   * per entry it can list, whatever order the listings come in.
   */
  lemma {:induction false} WalkCount(n: Node, level: nat, leq: (string, string) -> bool)
    requires FaultFree(n)
    ensures !Walk(n, level, leq).faulted
    ensures |Walk(n, level, leq).entries| == EntryCount(n)
    decreases n, 1, 0
  {
    WalkFaultedIff(n, level, leq);
    match n.subdirs
    case AccessDenied =>
    case Listed(ds) =>
      var sorted := SortedDirs(ds, leq);
      WalkDirsCount(n, sorted, level, leq);
      DirsCountPermutation(n, sorted, ds);
      if n.files.Listed? {
        var fs := n.files.entries;
        assert |SortedFiles(fs, leq)| == |multiset(SortedFiles(fs, leq))| == |fs|;
      }
  }

  lemma {:induction false} WalkDirsCount(parent: Node, ds: seq<Node>, level: nat, leq: (string, string) -> bool)
    requires parent.subdirs.Listed?
    requires forall d :: d in ds ==> d in parent.subdirs.entries
    requires forall d :: d in ds ==> FaultFree(d)
    ensures !WalkDirs(parent, ds, level, leq).faulted
    ensures |WalkDirs(parent, ds, level, leq).entries| == DirsCount(parent, ds)
    decreases parent, 0, |ds|
  {
    if ds != [] {
      var d := ds[|ds| - 1];
      var listing := parent.subdirs;
      assert d in listing.entries && listing == Listed(listing.entries);
      WalkDirsCount(parent, ds[..|ds| - 1], level, leq);
      WalkCount(d, level + 1, leq);
    }
  }

  // ---------------------------------------------------------------------
  // Depths and the shape of one directory's listing

  /** Nothing the walk writes is shallower than the level it starts at. */
  lemma {:induction false} WalkDepth(n: Node, level: nat, leq: (string, string) -> bool)
    ensures forall e :: e in Walk(n, level, leq).entries ==> e.depth >= level
    decreases n, 1, 0
  {
    match n.subdirs
    case AccessDenied =>
    case IoFailure =>
    case Listed(ds) =>
      WalkDirsDepth(n, SortedDirs(ds, leq), level, leq);
  }

  lemma {:induction false} WalkDirsDepth(parent: Node, ds: seq<Node>, level: nat, leq: (string, string) -> bool)
    requires parent.subdirs.Listed?
    requires forall d :: d in ds ==> d in parent.subdirs.entries
    ensures forall e :: e in WalkDirs(parent, ds, level, leq).entries ==> e.depth >= level
    decreases parent, 0, |ds|
  {
    if ds != [] {
      var d := ds[|ds| - 1];
      var listing := parent.subdirs;
      assert d in listing.entries && listing == Listed(listing.entries);
      WalkDirsDepth(parent, ds[..|ds| - 1], level, leq);
      WalkDepth(d, level + 1, leq);
    }
  }

  lemma {:induction false} AtDepthAppend(a: seq<Entry>, b: seq<Entry>, d: nat)
    ensures AtDepth(a + b, d) == AtDepth(a, d) + AtDepth(b, d)
  {
    if a != [] {
      assert (a + b)[1..] == a[1..] + b;
      AtDepthAppend(a[1..], b, d);
    } else {
      assert a + b == b;
    }
  }

  lemma {:induction false} AtDepthNone(es: seq<Entry>, d: nat)
    requires forall e :: e in es ==> e.depth != d
    ensures AtDepth(es, d) == []
  {
    if es != [] {
      AtDepthNone(es[1..], d);
    }
  }

  lemma {:induction false} AtDepthFiles(fs: seq<string>, level: nat)
    ensures AtDepth(FileEntries(fs, level), level) == FileEntries(fs, level)
  {
    if fs != [] {
      assert FileEntries(fs, level)[1..] == FileEntries(fs[1..], level);
      AtDepthFiles(fs[1..], level);
    }
  }

  lemma {:induction false} WalkDirsTopLevel(parent: Node, ds: seq<Node>, level: nat, leq: (string, string) -> bool)
    requires parent.subdirs.Listed?
    requires forall d :: d in ds ==> d in parent.subdirs.entries
    requires !WalkDirs(parent, ds, level, leq).faulted
    ensures AtDepth(WalkDirs(parent, ds, level, leq).entries, level) == DirEntries(ds, level)
    decreases |ds|
  {
    if ds != [] {
      var front := ds[..|ds| - 1];
      var d := ds[|ds| - 1];
      var before := WalkDirs(parent, front, level, leq);
      var inner := Walk(d, level + 1, leq);
      WalkDirsTopLevel(parent, front, level, leq);
      WalkDepth(d, level + 1, leq);
      AtDepthNone(inner.entries, level);
      AtDepthAppend(before.entries + [Entry(level, d.name, true)], inner.entries, level);
      AtDepthAppend(before.entries, [Entry(level, d.name, true)], level);
      assert AtDepth([Entry(level, d.name, true)], level) == [Entry(level, d.name, true)];
      assert DirEntries(ds, level) == DirEntries(front, level) + [Entry(level, d.name, true)];
    }
  }

  /**
   * The lines a completed walk writes at its own level are exactly the
   * sorted subdirectories followed by the sorted files (when the file
   * listing was not denied); the files come last, after every subdirectory
   * and everything below it.
   */
  /** The names of a run of entries, in order. */
  function Names(es: seq<Entry>): (r: seq<string>)
    ensures |r| == |es|
    ensures forall i :: 0 <= i < |es| ==> r[i] == es[i].name
  {
    seq(|es|, i requires 0 <= i < |es| => es[i].name)
  }

  /** File lines for an ascending list of names are unsuffixed, at one level, and ascend. */
  lemma FileEntriesAscend(fs: seq<string>, level: nat, leq: (string, string) -> bool)
    requires SortedBy(fs, FileName, leq)
    ensures var es := FileEntries(fs, level);
      && (forall i :: 0 <= i < |es| ==> es[i].depth == level && !es[i].isDirectory)
      && Names(es) == fs
      && (forall i, j :: 0 <= i < j < |es| ==> leq(es[i].name, es[j].name))
  {
    var es := FileEntries(fs, level);
    assert forall i :: 0 <= i < |es| ==> es[i] == Entry(level, fs[i], false);
    assert Names(es) == fs;
  }

  /**
   * The files a completed walk writes last are exactly the listed files,
   * one unsuffixed line each at the walk's level, in ascending order of name.
   */
  lemma WalkFilesAscend(n: Node, level: nat, leq: (string, string) -> bool)
    requires TotalPreorder(leq)
    requires n.subdirs.Listed? && n.files.Listed?
    requires !Walk(n, level, leq).faulted
    ensures var w := Walk(n, level, leq).entries;
      var k := |n.files.entries|;
      && k <= |w|
      && var tail := w[|w| - k..];
      && (forall i :: 0 <= i < |tail| ==> tail[i].depth == level && !tail[i].isDirectory)
      && multiset(Names(tail)) == multiset(n.files.entries)
      && (forall i, j :: 0 <= i < j < |tail| ==> leq(tail[i].name, tail[j].name))
  {
    var fs := SortedFiles(n.files.entries, leq);
    WalkTopLevel(n, level, leq);
    SortBySorted(n.files.entries, FileName, leq);
    FileEntriesAscend(fs, level, leq);
  }

  lemma WalkTopLevel(n: Node, level: nat, leq: (string, string) -> bool)
    requires n.subdirs.Listed?
    requires !Walk(n, level, leq).faulted
    ensures var w := Walk(n, level, leq).entries;
      && AtDepth(w, level) ==
         DirEntries(SortedDirs(n.subdirs.entries, leq), level)
         + (if n.files.Listed? then FileEntries(SortedFiles(n.files.entries, leq), level) else [])
      && (n.files.Listed? ==>
            var fs := SortedFiles(n.files.entries, leq);
            |fs| <= |w| && w[|w| - |fs|..] == FileEntries(fs, level))
  {
    var sorted := SortedDirs(n.subdirs.entries, leq);
    var t := WalkDirs(n, sorted, level, leq);
    WalkDirsTopLevel(n, sorted, level, leq);
    if n.files.Listed? {
      var fs := SortedFiles(n.files.entries, leq);
      AtDepthAppend(t.entries, FileEntries(fs, level), level);
      AtDepthFiles(fs, level);
    } else {
      assert DirEntries(sorted, level) + [] == DirEntries(sorted, level);
    }
  }

  /** `w` holds the entry `head` at offset `k`, followed at once by `body`. */
  ghost predicate SegmentAt(w: seq<Entry>, k: nat, head: Entry, body: seq<Entry>)
  {
    k + 1 + |body| <= |w| && w[k] == head && w[k + 1..k + 1 + |body|] == body
  }

  /** `w` holds the entry `e` at offset `j`. */
  ghost predicate EntryAt(w: seq<Entry>, j: nat, e: Entry)
  {
    j < |w| && w[j] == e
  }

  /**
   * In a completed subdirectory loop, the line of `ds[i]` sits at offset `k`,
   * followed at once by that subdirectory's own walk and then by the line
   * of `ds[i + 1]`.
   */
  lemma WalkDirsSegment(parent: Node, ds: seq<Node>, i: nat, level: nat, leq: (string, string) -> bool) returns (k: nat)
    requires parent.subdirs.Listed?
    requires forall d :: d in ds ==> d in parent.subdirs.entries
    requires !WalkDirs(parent, ds, level, leq).faulted
    requires i < |ds|
    ensures SegmentAt(WalkDirs(parent, ds, level, leq).entries, k, Entry(level, ds[i].name, true),
                      Walk(ds[i], level + 1, leq).entries)
    ensures i + 1 < |ds| ==>
      EntryAt(WalkDirs(parent, ds, level, leq).entries, k + 1 + |Walk(ds[i], level + 1, leq).entries|,
              Entry(level, ds[i + 1].name, true))
  {
    var sub := Walk(ds[i], level + 1, leq).entries;
    var w := WalkDirs(parent, ds, level, leq).entries;
    var before := WalkDirsRound(parent, ds, i, level, leq);
    k := |before|;
    SegmentOf(w, before, Entry(level, ds[i].name, true), sub);
    if i + 1 < |ds| {
      var upTo := WalkDirsRound(parent, ds, i + 1, level, leq);
      assert |upTo| == k + 1 + |sub| by {
        assert ds[..i + 2][..i + 1] == ds[..i + 1];
      }
      SegmentOf(w, upTo, Entry(level, ds[i + 1].name, true), []);
      assert w[|upTo|] == Entry(level, ds[i + 1].name, true);
    }
  }

  /**
   * Round `i` of the subdirectory loop writes the line of `ds[i]` and then
   * its walk, after what the earlier rounds wrote (`before`), all within
   * the output of the whole loop.
   */
  lemma WalkDirsRound(parent: Node, ds: seq<Node>, i: nat, level: nat, leq: (string, string) -> bool)
    returns (before: seq<Entry>)
    requires parent.subdirs.Listed?
    requires forall d :: d in ds ==> d in parent.subdirs.entries
    requires !WalkDirs(parent, ds, level, leq).faulted
    requires i < |ds|
    ensures before == WalkDirs(parent, ds[..i], level, leq).entries
    ensures WalkDirs(parent, ds[..i + 1], level, leq).entries ==
      before + [Entry(level, ds[i].name, true)] + Walk(ds[i], level + 1, leq).entries
    ensures before + [Entry(level, ds[i].name, true)] + Walk(ds[i], level + 1, leq).entries
      <= WalkDirs(parent, ds, level, leq).entries
  {
    WalkDirsPrefix(parent, ds, i + 1, level, leq);
    assert ds[..i + 1][..i] == ds[..i];
    before := WalkDirs(parent, ds[..i], level, leq).entries;
  }

  /** Where a prefix of `w` ends in `x` and then `sub`, `w` holds them at that offset. */
  lemma SegmentOf(w: seq<Entry>, before: seq<Entry>, x: Entry, sub: seq<Entry>)
    requires before + [x] + sub <= w
    ensures SegmentAt(w, |before|, x, sub)
  {
    var upTo := before + [x] + sub;
    assert w[..|upTo|] == upTo;
    assert upTo[|before|] == x;
    assert upTo[|before| + 1..] == sub;
  }

  /**
   * The walk is pre-order: in a directory's walk, each sorted
   * subdirectory's line is followed at once by everything its own walk
   * writes (the next subdirectory's line then follows, by `WalkDirsSegment`).
   */
  lemma WalkPreOrder(n: Node, level: nat, leq: (string, string) -> bool, i: nat) returns (k: nat)
    requires n.subdirs.Listed?
    requires !Walk(n, level, leq).faulted
    requires i < |SortedDirs(n.subdirs.entries, leq)|
    ensures SegmentAt(Walk(n, level, leq).entries, k, Entry(level, SortedDirs(n.subdirs.entries, leq)[i].name, true),
                      Walk(SortedDirs(n.subdirs.entries, leq)[i], level + 1, leq).entries)
  {
    var sorted := SortedDirs(n.subdirs.entries, leq);
    WalkExtendsLoop(n, level, leq);
    k := WalkDirsSegment(n, sorted, i, level, leq);
    PrefixAgrees(WalkDirs(n, sorted, level, leq).entries, Walk(n, level, leq).entries, k,
                 Entry(level, sorted[i].name, true), Walk(sorted[i], level + 1, leq).entries);
  }

  /** A directory's walk begins with what its subdirectory loop writes. */
  lemma WalkExtendsLoop(n: Node, level: nat, leq: (string, string) -> bool)
    requires n.subdirs.Listed?
    requires !Walk(n, level, leq).faulted
    ensures !WalkDirs(n, SortedDirs(n.subdirs.entries, leq), level, leq).faulted
    ensures WalkDirs(n, SortedDirs(n.subdirs.entries, leq), level, leq).entries <= Walk(n, level, leq).entries
  {
  }

  /** What a prefix holds at an offset, the whole sequence holds there too. */
  lemma PrefixAgrees(a: seq<Entry>, b: seq<Entry>, k: nat, x: Entry, sub: seq<Entry>)
    requires a <= b
    requires SegmentAt(a, k, x, sub)
    ensures SegmentAt(b, k, x, sub)
  {
    assert a == b[..|a|];
  }
}
