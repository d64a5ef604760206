/**
 * The injectable command-line parser (`DirectoryTree.Options.OptionsParser`):
 * the same argument loop as the static parser, over an injected file system,
 * followed by a Git-repository check through an injected `IGitController`
 * when `--git` is given.
 */
module InjectedOptionsParser {
  import opened Wrappers
  import opened Exceptions
  import opened FileSystem
  import opened Diagnostics
  import opened Arguments
  import opened Git

  /** The program options this parser returns (`ProgramOptions`). */
  class ProgramOptions {
    var displayHelp: bool
    var displayVersion: bool
    var path: Option<string>
    var allFiles: bool
    var gitOnly: bool

    constructor()
      ensures Snapshot() == Defaults
    {
      displayHelp := false;
      displayVersion := false;
      path := None;
      allFiles := false;
      gitOnly := false;
    }

    /** The current values of the fields. */
    function Snapshot(): Settings
      reads this
    {
      Settings(allFiles, gitOnly, displayHelp, displayVersion, path)
    }
  }

  /** What one parse returns or throws, with the paths it asked `IsRepository` about, in order. */
  datatype Checked = Checked(result: Result<Settings, Exception>, queries: seq<string>)

  /**
   * The parse against the file system `fs` and the Git queries `git`: the
   * argument loop and path checks, then, for `--git` only, one repository
   * query on the chosen path.
   */
  function ParseWith(args: Option<seq<Option<string>>>, fs: Disk, git: GitQueries): (r: Checked)
    ensures |r.queries| <= 1
    ensures r.result.Success? ==> r.result == ParseArgs(args, fs)
    ensures r.queries != [] ==>
      && ParseArgs(args, fs).Success? && ParseArgs(args, fs).value.gitOnly
      && r.queries == [ParseArgs(args, fs).value.path.value]
    ensures r.result.Success? && r.result.value.gitOnly ==>
      r.queries != [] && git.isRepository(r.queries[0]) == Success(true)
  {
    match ParseArgs(args, fs)
    case Failure(e) => Checked(Failure(e), [])
    case Success(o) =>
      if !o.gitOnly then Checked(Success(o), [])
      else
        ParseArgsSuccess(args, fs);
        var path := o.path.value;
        match git.isRepository(path)
        case Failure(e) => Checked(Failure(e), [path])
        case Success(isRepository) =>
          if isRepository then Checked(Success(o), [path])
          else Checked(Failure(InvalidOptionException(InvalidGitRepoText, path)), [path])
  }

  /**
   * The argument loop: sets the fields of a new options object argument by
   * argument, and throws at the first rejected argument.
   */
  method ReadArguments(list: seq<Option<string>>) returns (r: Result<ProgramOptions, Exception>)
    ensures r.Success? <==> Scan(list).Success?
    ensures r.Success? ==> fresh(r.value) && r.value.Snapshot() == Scan(list).value
    ensures r.Failure? ==> r.error == Scan(list).error
  {
    var options := new ProgramOptions();
    assert list[..0] == [];
    for i := 0 to |list|
      invariant Scan(list[..i]) == Success(options.Snapshot())
    {
      var arg := list[i];
      assert list[..i + 1][..i] == list[..i] && list[..i + 1][i] == arg;
      if IsNullOrEmpty(arg) {
        continue;
      }

      if arg.value[0] == '-' {
        match SwitchNamed(LowerInvariant(arg.value))
        case Some(AllFiles) =>
          options.allFiles := true;
          continue;
        case Some(GitOnly) =>
          options.gitOnly := true;
          continue;
        case Some(DisplayHelp) =>
          options.displayHelp := true;
          continue;
        case Some(DisplayVersion) =>
          options.displayVersion := true;
          continue;
        case None =>
          ScanFailureStays(list, i + 1);
          return Failure(InvalidOptionException(InvalidOptionText, arg.value));
      }

      // Not a switch: the directory path. A second one is one argument too many.
      if !IsNullOrEmpty(options.path) {
        ScanFailureStays(list, i + 1);
        return Failure(InvalidOptionException(InvalidOptionText, arg.value));
      }

      options.path := arg;
    }
    assert list[..|list|] == list;

    return Success(options);
  }

  class OptionsParser {
    const fileSystem: Disk
    const git: GitQueries

    constructor(fileSystem: Disk, git: GitQueries)
      ensures this.fileSystem == fileSystem && this.git == git
    {
      this.fileSystem := fileSystem;
      this.git := git;
    }

    /**
     * Parses `args` (`None` for a null array, `None` entries for null
     * strings). `queries` lists the paths passed to `git.isRepository`.
     */
    method Parse(args: Option<seq<Option<string>>>) returns (r: Result<ProgramOptions, Exception>, ghost queries: seq<string>)
      ensures r.Success? <==> ParseWith(args, fileSystem, git).result.Success?
      ensures r.Success? ==> fresh(r.value) && r.value.Snapshot() == ParseWith(args, fileSystem, git).result.value
      ensures r.Failure? ==> r.error == ParseWith(args, fileSystem, git).result.error
      ensures queries == ParseWith(args, fileSystem, git).queries
    {
      queries := [];
      var read := ReadArguments(ArgList(args));
      if read.Failure? {
        return Failure(read.error), queries;
      }
      var options := read.value;

      if IsNullOrEmpty(options.path) {
        // Default to the current working directory of the injected file system.
        options.path := Some(fileSystem.currentDirectory);
      }

      if !DirectoryExists(fileSystem, options.path.value) {
        return Failure(InvalidOptionException(InvalidPathText, options.path.value)), queries;
      }

      if options.gitOnly {
        queries := [options.path.value];
        var answer := git.isRepository(options.path.value);
        if answer.Failure? {
          return Failure(answer.error), queries;
        }
        if !answer.value {
          return Failure(InvalidOptionException(InvalidGitRepoText, options.path.value)), queries;
        }
      }

      return Success(options), queries;
    }
  }

  /** The constructor's null checks, the file system first. */
  method Create(fileSystem: Option<Disk>, git: Option<GitQueries>) returns (r: Result<OptionsParser, Exception>)
    ensures fileSystem.None? ==> r == Failure(ArgumentNullException("fileSystem"))
    ensures fileSystem.Some? && git.None? ==> r == Failure(ArgumentNullException("git"))
    ensures r.Success? <==> fileSystem.Some? && git.Some?
    ensures r.Success? ==> fresh(r.value) && r.value.fileSystem == fileSystem.value && r.value.git == git.value
  {
    if fileSystem.None? {
      return Failure(ArgumentNullException("fileSystem"));
    }
    if git.None? {
      return Failure(ArgumentNullException("git"));
    }
    var parser := new OptionsParser(fileSystem.value, git.value);
    return Success(parser);
  }

  /**
   * The parameterless constructor: the process's own file system and a
   * `GitController` over a new process manager, whose existence checks see
   * that same file system.
   */
  method CreateDefault(system: Disk, processManager: ProcessManager) returns (parser: OptionsParser)
    ensures fresh(parser)
    ensures parser.fileSystem == system
    ensures parser.git == AsQueries(GitController(processManager), system)
  {
    parser := new OptionsParser(system, AsQueries(GitController(processManager), system));
  }

  // ---------------------------------------------------------------------
  // Properties of the parse

  /**
   * `IsRepository` is asked at most once: exactly when the arguments are
   * accepted, the chosen path exists and `--git` (in any spelling) is among
   * them, and then about the chosen path.
   */
  lemma QueriedOnlyForGit(args: Option<seq<Option<string>>>, fs: Disk, git: GitQueries)
    ensures |ParseWith(args, fs, git).queries| <= 1
    ensures ParseWith(args, fs, git).queries != [] <==>
      && Scan(ArgList(args)).Success?
      && DirectoryExists(fs, ChosenPath(Scan(ArgList(args)).value, fs))
      && exists k :: 0 <= k < |ArgList(args)| && Classify(ArgList(args)[k]) == Flag(GitOnly)
    ensures ParseWith(args, fs, git).queries != [] ==>
      ParseWith(args, fs, git).queries == [ChosenPath(Scan(ArgList(args)).value, fs)]
  {
    ParseArgsOutcome(args, fs);
    if ParseArgs(args, fs).Success? {
      ParseArgsSuccess(args, fs);
    }
  }

  /** A missing directory is reported before Git is ever asked, whatever the switches. */
  lemma MissingPathBeforeGit(args: Option<seq<Option<string>>>, fs: Disk, git: GitQueries)
    requires Scan(ArgList(args)).Success?
    requires !DirectoryExists(fs, ChosenPath(Scan(ArgList(args)).value, fs))
    ensures ParseWith(args, fs, git) ==
      Checked(Failure(InvalidOptionException(InvalidPathText, ChosenPath(Scan(ArgList(args)).value, fs))), [])
  {
    ParseArgsOutcome(args, fs);
  }

  /**
   * A successful parse names an existing directory of the injected file
   * system, and with `--git` the repository query on it answered true.
   */
  lemma SuccessMeansChecked(args: Option<seq<Option<string>>>, fs: Disk, git: GitQueries)
    requires ParseWith(args, fs, git).result.Success?
    ensures ParseWith(args, fs, git).result.value.path.Some?
    ensures DirectoryExists(fs, ParseWith(args, fs, git).result.value.path.value)
    ensures ParseWith(args, fs, git).result.value.gitOnly ==>
      git.isRepository(ParseWith(args, fs, git).result.value.path.value) == Success(true)
  {
    ParseArgsSuccess(args, fs);
  }

  /** `--git` on a directory that is not a repository is rejected, naming the path. */
  lemma NotARepository(args: Option<seq<Option<string>>>, fs: Disk, git: GitQueries)
    requires ParseArgs(args, fs).Success? && ParseArgs(args, fs).value.gitOnly
    requires git.isRepository(ChosenPath(Scan(ArgList(args)).value, fs)) == Success(false)
    ensures ParseWith(args, fs, git).result ==
      Failure(InvalidOptionException(InvalidGitRepoText, ChosenPath(Scan(ArgList(args)).value, fs)))
  {
    ParseArgsSuccess(args, fs);
  }

  /**
   * The injected parser agrees with the static one over the same file
   * system: whatever it accepts, the static parser accepts alike, and
   * without `--git` the two behave identically.
   */
  lemma AgreesWithStaticParser(args: Option<seq<Option<string>>>, fs: Disk, git: GitQueries)
    ensures ParseWith(args, fs, git).result.Success? ==> ParseWith(args, fs, git).result == ParseArgs(args, fs)
    ensures ParseArgs(args, fs).Failure? ==> ParseWith(args, fs, git).result == ParseArgs(args, fs)
    ensures (forall k :: 0 <= k < |ArgList(args)| ==> Classify(ArgList(args)[k]) != Flag(GitOnly)) ==>
      ParseWith(args, fs, git).result == ParseArgs(args, fs)
  {
    if ParseArgs(args, fs).Success? {
      ParseArgsSuccess(args, fs);
    }
  }

  /**
   * With the default wiring, where the controller's existence checks see
   * the parser's own file system, the repository query never throws: the
   * parse runs `git rev-parse` in the chosen directory exactly when it asks
   * about it, and succeeds with `--git` only if that process exited with 0.
   */
  lemma DefaultWiring(args: Option<seq<Option<string>>>, system: Disk, processManager: ProcessManager)
    ensures var c := ParseWith(args, system, AsQueries(GitController(processManager), system));
      && (c.result.Failure? ==> !c.result.error.ArgumentException?)
      && (forall p :: p in c.queries ==> IsRepository(GitController(processManager), Some(p), system).log == [RevParse(p)])
      && (c.result.Success? && c.result.value.gitOnly ==>
            c.queries != [] && processManager.run(RevParse(c.queries[0])).exitCode == 0)
  {
    var git := GitController(processManager);
    var c := ParseWith(args, system, AsQueries(git, system));
    ParseArgsOutcome(args, system);
    if ParseArgs(args, system).Success? {
      ParseArgsSuccess(args, system);
      var o := ParseArgs(args, system).value;
      var list := ArgList(args);
      ScanPathState(list);
      assert o.path.value != "";
    }
    if Scan(ArgList(args)).Failure? {
      ScanFailureIsInvalidOption(ArgList(args));
    }
  }
}
