# dir-tree in Dafny

A model of the core of `dir-tree`, a small command-line tool that prints a
directory as a tree. One line is written per subdirectory and file:
- each line starts with `|   ` once per level of nesting, then `|-- `, then the name;
- a directory's line ends in `/`;
- subdirectories come first, each followed at once by its own contents, then the files;
- both groups are ordered by name.

The model covers four parts of the tool:

- **The printer** (`DirectoryPrinter.PrintTree` / `PrintTreeNode`).
  - `tree_walk.dfy` holds the printer's specification. `TreeWalk.Walk` is the sequence of entries a directory's walk writes, together with whether an I/O failure other than an access denial escaped from it.
  - `directory_printer.dfy` models the printer itself: a recursive method that writes to a stream object, line by line. It is proved to write exactly `Lines(Walk(...))`.
  - A denied listing (`UnauthorizedAccessException`) ends that directory's call quietly. Any other I/O failure ends the whole walk and is rethrown.
- **The static option parser** (`DirectoryTree.OptionsParser.Parse`).
  - `arguments.dfy` specifies the argument loop they share as a function (`Arguments.Scan`), followed by the default path and the existence check (`Arguments.ParseArgs`).
  - `options_parser.dfy` (module `StaticOptionsParser`) has the method that sets the fields of an `Options` object in a loop. It is proved equal to that function.
- **The injectable option parser** (`DirectoryTree.Options.OptionsParser`). It is the same loop over an injected file system. With `--git` it then asks an injected Git controller whether the chosen directory is a repository (`injected_options_parser.dfy`, module `InjectedOptionsParser`).
- **The Git controller** (`GitController.IsRepository` / `IsTracked`, in `git_controller.dfy`). Each query:
  - validates its path;
  - runs `git` once through a process manager;
  - answers with whether the exit code is 0.

Exceptions are values of `Exceptions.Exception`, and a `null` reference is `Option.None`. The environment is passed in as parameters:
- `FileSystem.Disk` for the directory trees, the existing files and the current directory;
- `Diagnostics.ProcessManager` for the process runner;
- a comparison function `leq` for the string comparer behind `OrderBy`.

## Model

| member | source | states |
|---|---|---|
| DirectoryPrinter.StreamWriter.WriteLine | src/DirectoryTree/DirectoryPrinter.cs:52 | writing a line appends exactly that line to the stream and changes nothing already written |
| DirectoryPrinter.PrintTree | src/DirectoryTree/DirectoryPrinter.cs:21-41 | a null stream, a null or empty path and a missing directory throw the documented exceptions and write nothing; otherwise `.` goes to the console, the stream receives exactly the lines of the walk of the directory, and an I/O failure other than an access denial is rethrown |
| DirectoryPrinter.PrintTreeNode | src/DirectoryTree/DirectoryPrinter.cs:43-65 | the stream gains exactly the lines of `Walk(node, level)`, and the call reports a fault exactly when the walk does; a denied listing ends the call without error |
| DirectoryPrinter.PrintSubdirs | src/DirectoryTree/DirectoryPrinter.cs:50-54 | the subdirectory loop, over the sorted subdirectories, appends each one's line and then its own entries, and stops at the first fault |
| DirectoryPrinter.PrintSubdir | src/DirectoryTree/DirectoryPrinter.cs:52-53 | one round of the subdirectory loop writes the subdirectory's line, `/`-terminated and indented by level, followed by everything the recursive call writes one level deeper |
| DirectoryPrinter.PrintFiles | src/DirectoryTree/DirectoryPrinter.cs:56-59 | the file loop appends one line per file, in the given order, indented by level and without a suffix |
| DirectoryPrinter.DirRound | src/DirectoryTree/DirectoryPrinter.cs:50-54 | after round `i` of the subdirectory loop, the stream holds what the specification's loop over the first `i + 1` subdirectories writes |
| DirectoryPrinter.FileStep | src/DirectoryTree/DirectoryPrinter.cs:56-59 | one round of the file loop adds exactly the line of that file |
| TreeWalk.FormatLine | src/DirectoryTree/DirectoryPrinter.cs:52-58 | a line is the indentation (4 characters per level), the 4-character entry token and the name, plus one character for a directory, and a directory's line ends in `/` |
| TreeWalk.Lines | src/DirectoryTree/DirectoryPrinter.cs:52-58 | the written lines are one per entry, in order, each the formatted line of its entry |
| TreeWalk.Walk | src/DirectoryTree/DirectoryPrinter.cs:43-65 | the specification of one call of the walk; a walk that completes over a directory whose two listings succeed writes at least one line per listed subdirectory and file |
| TreeWalk.WalkDirs | src/DirectoryTree/DirectoryPrinter.cs:50-54 | the specification of the subdirectory loop; a loop that completes writes at least one line per subdirectory |
| TreeWalk.Tabs | src/DirectoryTree/DirectoryPrinter.cs:48 | the indentation of level `n` is `n` copies of a 4-character token, `4 * n` characters in all |
| TreeWalk.ParseFormatLine | src/DirectoryTree/DirectoryPrinter.cs:48-58 | the line format is unambiguous for names without `/`: reading a written line back gives its depth, name and whether it is a directory |
| TreeWalk.SortedDirs | src/DirectoryTree/DirectoryPrinter.cs:50 | ordering the subdirectories by name keeps exactly the listed subdirectories |
| Ordering.SortBy | src/DirectoryTree/DirectoryPrinter.cs:50-56 | `OrderBy` returns a permutation of its input |
| Ordering.SortBySorted | src/DirectoryTree/DirectoryPrinter.cs:50-56 | for a total preorder comparer, `OrderBy`'s result is ascending by name |
| TreeWalk.SortedFiles | src/DirectoryTree/DirectoryPrinter.cs:56 | ordering the files by name keeps exactly the listed files, each as often as listed |
| TreeWalk.WalkDirsFaultStays | src/DirectoryTree/DirectoryPrinter.cs:50-54 | once a subdirectory's walk throws, the later subdirectories write nothing |
| TreeWalk.WalkDirsPrefix | src/DirectoryTree/DirectoryPrinter.cs:50-54 | a completed subdirectory loop extends what it had written after each earlier round |
| TreeWalk.WalkFaultedIff | src/DirectoryTree/DirectoryPrinter.cs:43-65 | the walk throws exactly when some listing it reaches fails with an error other than an access denial |
| TreeWalk.WalkDirsFaultedIff | src/DirectoryTree/DirectoryPrinter.cs:50-54 | the subdirectory loop throws exactly when one of its subdirectories' walks does |
| TreeWalk.WalkCount | src/DirectoryTree/DirectoryPrinter.cs:43-65 | when no listing fails with a non-denial error, the walk does not throw and writes one line per reachable entry, whatever order the listings come in |
| TreeWalk.WalkDirsCount | src/DirectoryTree/DirectoryPrinter.cs:50-54 | the subdirectory loop writes one line per subdirectory plus the lines of each one's walk |
| TreeWalk.DirsCountPermutation | src/DirectoryTree/DirectoryPrinter.cs:50 | the number of lines does not depend on the order of the subdirectories |
| TreeWalk.WalkDepth | src/DirectoryTree/DirectoryPrinter.cs:43-65 | nothing a walk writes is shallower than the level it starts at |
| TreeWalk.WalkDirsDepth | src/DirectoryTree/DirectoryPrinter.cs:50-54 | nothing the subdirectory loop writes is shallower than its level |
| TreeWalk.WalkDirsTopLevel | src/DirectoryTree/DirectoryPrinter.cs:50-54 | the lines the subdirectory loop writes at its own level are exactly the subdirectories' lines, in loop order |
| TreeWalk.WalkFilesAscend | src/DirectoryTree/DirectoryPrinter.cs:56-59 | for a total preorder comparer, a completed walk ends with one unsuffixed line per listed file at its level, exactly the listed files, in ascending order of name |
| TreeWalk.FileEntriesAscend | src/DirectoryTree/DirectoryPrinter.cs:56-59 | the lines written for an ascending file list are unsuffixed, at one level, carry exactly those names in that order, and ascend |
| TreeWalk.WalkTopLevel | src/DirectoryTree/DirectoryPrinter.cs:50-59 | the lines a completed walk writes at its own level are the sorted subdirectories and then the sorted files; the files are the walk's last lines |
| TreeWalk.WalkDirsSegment | src/DirectoryTree/DirectoryPrinter.cs:50-54 | in the subdirectory loop, each subdirectory's line is followed at once by its whole walk and then by the next subdirectory's line |
| TreeWalk.WalkExtendsLoop | src/DirectoryTree/DirectoryPrinter.cs:50-56 | a completed walk begins with everything the subdirectory loop wrote |
| TreeWalk.WalkPreOrder | src/DirectoryTree/DirectoryPrinter.cs:50-54 | in a directory's walk, each sorted subdirectory's line is followed at once by everything its own walk writes (pre-order) |
| Arguments.LowerInvariant | src/DirectoryTree/OptionsParser.cs:30 | lower-casing keeps the length, turns each upper-case ASCII letter into its own lower case and keeps every other character |
| Arguments.LowerInvariantIdempotent | src/DirectoryTree/OptionsParser.cs:30 | lower-casing twice is lower-casing once |
| Arguments.SwitchNamed | src/DirectoryTree/OptionsParser.cs:30-47 | every recognised spelling starts with `-`, has at least two characters and is already lower-case |
| Arguments.Classify | src/DirectoryTree/OptionsParser.cs:23-60 | an argument is skipped exactly when it is null or empty, is a switch (known or not) exactly when it starts with `-`, and a known switch is one whose lower-cased text names it |
| Arguments.Step | src/DirectoryTree/OptionsParser.cs:23-60 | one round throws exactly for an unknown switch or a positional argument after a path was set, with the invalid-option error naming the argument; otherwise no setting is turned off and a set path is kept |
| Arguments.Scan | src/DirectoryTree/OptionsParser.cs:21-61 | the loop throws only the invalid-option `InvalidOptionException`, and a path it sets is never empty |
| Arguments.Resolve | src/DirectoryTree/OptionsParser.cs:63-72 | after the loop, the parse fails exactly when the chosen path (the given one, or else the current directory) is not an existing directory, with the invalid-path error naming it; otherwise the path is the chosen one and no flag changes |
| Arguments.ParseArgs | src/DirectoryTree/OptionsParser.cs:18-76 | a successful parse names an existing directory; a failing one throws `InvalidOptionException` with the invalid-option or invalid-path text |
| Arguments.Set | src/DirectoryTree/OptionsParser.cs:32-47 | a switch turns on its own setting and changes no other setting and not the path |
| Arguments.ClassifyIgnoresCase | src/DirectoryTree/OptionsParser.cs:28-30 | arguments that lower-case alike are treated alike, so a switch is recognised in any letter case |
| Arguments.ScanSkips | src/DirectoryTree/OptionsParser.cs:23-26 | null and empty arguments change nothing: the loop over the others has the same outcome |
| Arguments.ScanFailureIsInvalidOption | src/DirectoryTree/OptionsParser.cs:48-58 | the loop only throws `InvalidOptionException` with the invalid-option text, naming one of the arguments |
| Arguments.ScanFailureStays | src/DirectoryTree/OptionsParser.cs:48-57 | the first rejected argument ends the loop: later arguments do not change the outcome |
| Arguments.ScanPathState | src/DirectoryTree/OptionsParser.cs:53-60 | during the loop the path is set exactly when a positional argument has been seen, and it is never empty |
| Arguments.ScanSucceedsIff | src/DirectoryTree/OptionsParser.cs:21-61 | the loop completes exactly when no argument is an unknown switch or a second positional argument |
| Arguments.ScanFirstError | src/DirectoryTree/OptionsParser.cs:48-58 | a failing loop fails on the first rejected argument and names it |
| Arguments.ScanFlags | src/DirectoryTree/OptionsParser.cs:32-47 | after the loop each setting is on exactly when its switch appears, in any spelling, position or number |
| Arguments.ScanPath | src/DirectoryTree/OptionsParser.cs:53-60 | after the loop the path is the positional argument if there is one, and unset otherwise |
| Arguments.ParseArgsOutcome | src/DirectoryTree/OptionsParser.cs:18-76 | a parse succeeds exactly when the loop does and the chosen path is an existing directory; otherwise it throws the loop's error, or the invalid-path error naming the path |
| Arguments.ParseArgsSuccess | src/DirectoryTree/OptionsParser.cs:63-74 | a successful parse names an existing directory: the positional argument, or else the current directory; each flag is on exactly when its switch was given |
| Arguments.ParseNullArgs | src/DirectoryTree/OptionsParser.cs:21 | a null argument array parses like an empty one, which succeeds exactly when the current directory exists |
| StaticOptionsParser.Options.constructor | src/DirectoryTree/OptionsParser.cs:20 | a new options object has every flag off and no path |
| StaticOptionsParser.ReadArguments | src/DirectoryTree/OptionsParser.cs:20-61 | the loop over the arguments returns a new `Options` whose fields are what `Scan` specifies, or throws exactly its exception |
| StaticOptionsParser.Parse | src/DirectoryTree/OptionsParser.cs:18-76 | the method returns a new `Options` whose fields are exactly those `ParseArgs` specifies, or throws exactly the exception it specifies |
| Git.New | src/DirectoryTree/Git/GitController.cs:30-33 | a null process manager throws `ArgumentNullException("processManager")`; otherwise the controller keeps the manager |
| Git.IsRepository | src/DirectoryTree/Git/GitController.cs:40-54 | a null or empty path and a missing directory throw the two documented `ArgumentException`s without running anything; otherwise exactly one `git rev-parse` runs in that directory, and the answer is whether it exited with 0 |
| Git.IsTracked | src/DirectoryTree/Git/GitController.cs:61-76 | a null or empty path and a path that is neither a file nor a directory throw without running anything; otherwise exactly one `git ls-files --error-unmatch <path>` runs, and the answer is whether it exited with 0 |
| Git.AsQueries | src/DirectoryTree/Git/IGitController.cs:16-23 | the controller seen as an `IGitController`: each query fails exactly for an empty path or one that does not exist, and otherwise answers whether its one command exited with 0 |
| Git.RepositoryPathsAreTrackable | src/DirectoryTree/Git/GitController.cs:40-76 | every path `IsRepository` accepts, `IsTracked` accepts too, and the two queries run different commands |
| Git.AnswersDependOnOneRun | src/DirectoryTree/Git/GitController.cs:52-75 | each answer depends on the process manager only through the exit code of the one command it runs |
| InjectedOptionsParser.ParseWith | src/DirectoryTree/Options/OptionsParser.cs:49-114 | the specification of the injected parse: at most one repository query, made only when `ParseArgs` succeeds with `--git`, and about its path; a success equals the static parse's result and, with `--git`, follows a `true` answer |
| InjectedOptionsParser.ReadArguments | src/DirectoryTree/Options/OptionsParser.cs:51-92 | the loop over the arguments returns a new `ProgramOptions` whose fields are what `Scan` specifies, or throws exactly its exception |
| InjectedOptionsParser.ProgramOptions.constructor | src/DirectoryTree/Options/OptionsParser.cs:51 | a new options object has every flag off and no path |
| InjectedOptionsParser.OptionsParser.constructor | src/DirectoryTree/Options/OptionsParser.cs:38-42 | the parser keeps the file system and Git controller it is given |
| InjectedOptionsParser.Create | src/DirectoryTree/Options/OptionsParser.cs:38-42 | a null file system throws `ArgumentNullException("fileSystem")` first, then a null controller throws `ArgumentNullException("git")`; otherwise a parser over both |
| InjectedOptionsParser.CreateDefault | src/DirectoryTree/Options/OptionsParser.cs:28-31 | the parameterless constructor wires the process's file system and a `GitController` over a process manager |
| InjectedOptionsParser.OptionsParser.Parse | src/DirectoryTree/Options/OptionsParser.cs:49-114 | the method returns a new options object whose fields are exactly those `ParseWith` specifies, or throws exactly the exception it specifies, and asks the controller about exactly the paths it lists |
| InjectedOptionsParser.QueriedOnlyForGit | src/DirectoryTree/Options/OptionsParser.cs:94-111 | the controller is asked at most once: exactly when the loop succeeds, the chosen directory exists and `--git` was given, and then about the chosen path |
| InjectedOptionsParser.MissingPathBeforeGit | src/DirectoryTree/Options/OptionsParser.cs:100-103 | a missing directory is reported before the controller is ever asked, whatever the switches |
| InjectedOptionsParser.SuccessMeansChecked | src/DirectoryTree/Options/OptionsParser.cs:94-113 | a successful parse names an existing directory of the injected file system, and with `--git` the controller answered that it is a repository |
| InjectedOptionsParser.NotARepository | src/DirectoryTree/Options/OptionsParser.cs:105-110 | `--git` on a directory the controller says is no repository throws the invalid-repository error naming the path |
| InjectedOptionsParser.AgreesWithStaticParser | src/DirectoryTree/Options/OptionsParser.cs:49-114 | the injected parser accepts only what the static parser accepts, with the same options; it fails alike wherever the static parser fails; and without `--git` the two agree exactly |
| InjectedOptionsParser.DefaultWiring | src/DirectoryTree/Options/OptionsParser.cs:28-31 | with the default wiring, the Git query never throws an `ArgumentException`; each path asked about runs exactly one `git rev-parse` in it; a `--git` parse succeeds only if that process exited with 0 |

## Left out

- Real I/O is not modelled. The disposal, encoding and flushing of the `StreamWriter`, `Console` output and exceptions thrown by `WriteLine` itself are all left out. A stream is the sequence of lines written to it, and the console is a second such stream.
- DirectoryPrinter.PrintTree: assumes the stream is writable. `new StreamWriter` throws `ArgumentException` for a read-only stream before `.` reaches the console. The model does not capture this.
- A directory tree is finite (`FileSystem.Node` is an inductive datatype). A symbolic link that makes a cycle is not modelled. `PrintTreeNode` would follow it until an I/O error.
- `DirectoryInfo` is not modelled. A directory is a tree value (`FileSystem.Node`) whose two listings each either succeed, are denied, or fail with another I/O error. `FullName` path handling is left out.
- Where the listing order comes from is not modelled. The model takes the order a listing returns entries in as given.
- The culture-sensitive string comparer behind `OrderBy` is not modelled. The comparer is any function `leq`, and sortedness is proved for any total preorder. `OrderBy` is modelled as a stable insertion sort, but its stability is not stated as a lemma.
- Arguments.LowerInvariant: models `ToLowerInvariant` for ASCII only. It changes only `A`–`Z`. Non-ASCII case mappings such as `İ` are not modelled.
- `StartsWith("-", InvariantCulture)` is modelled as a test of the first character. Culture-aware prefix matching, which may ignore some characters, is not modelled.
- The texts of the resource strings (`Resources.InvalidOption`, `InvalidPath`, `InvalidGitRepo`) and their `string.Format` results are left out. An `InvalidOptionException` carries which resource it uses and the argument it names.
- Running a process is not modelled: no process spawning, I/O redirection or concurrency inside `ProcessManager`. A process manager is a function from an invocation (file name, argument string, working directory) to its result.
- Git.IsRepository, Git.IsTracked: assume `ProcessManager.Run` returns. If `git` cannot be started, `Process.Start` throws, and that exception escapes both queries and the injected `Parse` instead of becoming a `false` answer. The model does not capture this.
- Git.IsTracked: the path is put into the argument string unquoted. How the process splits that string into arguments, and so what a path with spaces does, is not modelled.
- The field initializer `new GitController()` of the injectable parser is left out, because both constructors overwrite it. `GitController` does not declare that it implements `IGitController`. The model treats it as the implementation the parameterless constructor passes in (`Git.AsQueries`).
- An `IGitController` passed to the injectable parser is any pair of query functions (`Git.GitQueries`). These may throw, and this covers test doubles.
- The `ProgramOptions` class is not part of this model. It is modelled with the same five properties as `Options`, as its use at `src/DirectoryTree/Options/OptionsParser.cs:51-91` shows.
- `Program.Main`, the help and version output and the filtering by hidden or Git-tracked files are left out, because they are outside the modelled core. `Program.Main` calls `PrintTree` with its two arguments in the opposite order.
