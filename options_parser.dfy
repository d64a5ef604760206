/**
 * The static command-line parser (`DirectoryTree.OptionsParser`): one loop
 * over the arguments that sets the fields of an `Options` object, then the
 * default path and the existence check against the process's file system.
 */
module StaticOptionsParser {
  import opened Wrappers
  import opened Exceptions
  import opened FileSystem
  import opened Arguments

  /** The program options (`DirectoryTree.Options`). */
  class Options {
    var displayHelp: bool
    var displayVersion: bool
    var path: Option<string>
    var allFiles: bool
    var gitOnly: bool

    constructor()
      ensures Snapshot() == Defaults
    {
      displayHelp := false;
      displayVersion := false;
      path := None;
      allFiles := false;
      gitOnly := false;
    }

    /** The current values of the fields. */
    function Snapshot(): Settings
      reads this
    {
      Settings(allFiles, gitOnly, displayHelp, displayVersion, path)
    }
  }

  /**
   * The argument loop: sets the fields of a new options object argument by
   * argument, and throws at the first rejected argument.
   */
  method ReadArguments(list: seq<Option<string>>) returns (r: Result<Options, Exception>)
    ensures r.Success? <==> Scan(list).Success?
    ensures r.Success? ==> fresh(r.value) && r.value.Snapshot() == Scan(list).value
    ensures r.Failure? ==> r.error == Scan(list).error
  {
    var options := new Options();
    assert list[..0] == [];
    for i := 0 to |list|
      invariant Scan(list[..i]) == Success(options.Snapshot())
    {
      var arg := list[i];
      assert list[..i + 1][..i] == list[..i] && list[..i + 1][i] == arg;
      if IsNullOrEmpty(arg) {
        continue;
      }

      if arg.value[0] == '-' {
        match SwitchNamed(LowerInvariant(arg.value))
        case Some(AllFiles) =>
          options.allFiles := true;
          continue;
        case Some(GitOnly) =>
          options.gitOnly := true;
          continue;
        case Some(DisplayHelp) =>
          options.displayHelp := true;
          continue;
        case Some(DisplayVersion) =>
          options.displayVersion := true;
          continue;
        case None =>
          ScanFailureStays(list, i + 1);
          return Failure(InvalidOptionException(InvalidOptionText, arg.value));
      }

      // Not a switch: the directory path. A second one is one argument too many.
      if !IsNullOrEmpty(options.path) {
        ScanFailureStays(list, i + 1);
        return Failure(InvalidOptionException(InvalidOptionText, arg.value));
      }

      options.path := arg;
    }
    assert list[..|list|] == list;

    return Success(options);
  }

  /**
   * Parses `args` (`None` for a null array, `None` entries for null
   * strings). `system` is the process's file system, which supplies the
   * current directory and `Directory.Exists`. The result is what
   * `ParseArgs` specifies: the options, or the exception thrown.
   */
  method Parse(args: Option<seq<Option<string>>>, system: Disk) returns (r: Result<Options, Exception>)
    ensures r.Success? <==> ParseArgs(args, system).Success?
    ensures r.Success? ==> fresh(r.value) && r.value.Snapshot() == ParseArgs(args, system).value
    ensures r.Failure? ==> r.error == ParseArgs(args, system).error
  {
    var read := ReadArguments(ArgList(args));
    if read.Failure? {
      return Failure(read.error);
    }
    var options := read.value;

    if IsNullOrEmpty(options.path) {
      // Default to the current working directory.
      options.path := Some(system.currentDirectory);
    }

    if !DirectoryExists(system, options.path.value) {
      return Failure(InvalidOptionException(InvalidPathText, options.path.value));
    }

    return Success(options);
  }
}
