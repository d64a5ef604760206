/**
 * The command-line argument loop shared by both option parsers, as a
 * function of the arguments: how each argument is classified, the settings
 * the loop accumulates, and the default-path and existence checks that
 * follow it.
 */
module Arguments {
  import opened Wrappers
  import opened Exceptions
  import opened FileSystem

  /** The four switches and the setting each one turns on. */
  datatype Switch = AllFiles | GitOnly | DisplayHelp | DisplayVersion

  /** `char.ToLowerInvariant`, for the ASCII letters. */
  function LowerChar(c: char): char
  {
    if 'A' <= c <= 'Z' then (c as int + ('a' as int - 'A' as int)) as char else c
  }

  /**
   * `string.ToLowerInvariant`, character by character: each upper-case
   * ASCII letter becomes its own lower case, every other character is kept,
   * and the length is kept.
   */
  function LowerInvariant(s: string): (r: string)
    ensures |r| == |s|
    ensures forall i :: 0 <= i < |r| ==> !('A' <= r[i] <= 'Z')
    ensures forall i :: 0 <= i < |s| && 'A' <= s[i] <= 'Z' ==> r[i] as int == s[i] as int + 32
    ensures forall i :: 0 <= i < |s| && !('A' <= s[i] <= 'Z') ==> r[i] == s[i]
  {
    seq(|s|, i requires 0 <= i < |s| => LowerChar(s[i]))
  }

  /** Lower-casing a lower-cased string changes nothing. */
  lemma LowerInvariantIdempotent(s: string)
    ensures LowerInvariant(LowerInvariant(s)) == LowerInvariant(s)
  {
  }

  /** The switch a lower-cased argument names, if it names one (long and short spellings). */
  function SwitchNamed(lowered: string): (r: Option<Switch>)
    ensures r.Some? ==> 2 <= |lowered| && lowered[0] == '-' && LowerInvariant(lowered) == lowered
  {
    if lowered == "--all" || lowered == "-a" then Some(AllFiles)
    else if lowered == "--git" || lowered == "-g" then Some(GitOnly)
    else if lowered == "--help" || lowered == "-h" then Some(DisplayHelp)
    else if lowered == "--version" || lowered == "-v" then Some(DisplayVersion)
    else None
  }

  /** What the loop does with one argument. */
  datatype ArgKind =
    | Skipped              // null or empty: ignored
    | Flag(switch: Switch) // a known switch, in any letter case
    | Unknown              // starts with `-` but names no switch: rejected
    | Positional           // anything else: the directory path

  function Classify(arg: Option<string>): (r: ArgKind)
    ensures r.Skipped? <==> IsNullOrEmpty(arg)
    ensures r.Flag? || r.Unknown? <==> !IsNullOrEmpty(arg) && arg.value[0] == '-'
    ensures r.Flag? ==> SwitchNamed(LowerInvariant(arg.value)) == Some(r.switch)
  {
    if IsNullOrEmpty(arg) then Skipped
    else if arg.value[0] == '-' then
      match SwitchNamed(LowerInvariant(arg.value))
      case Some(s) => Flag(s)
      case None => Unknown
    else Positional
  }

  /** The fields of an options record (`Options`, `ProgramOptions`) as a value. */
  datatype Settings = Settings(allFiles: bool, gitOnly: bool, displayHelp: bool, displayVersion: bool,
                               path: Option<string>)

  /** A freshly constructed options record: every flag false, no path. */
  const Defaults := Settings(false, false, false, false, None)

  /** Whether the setting that switch `s` controls is on. */
  function Has(o: Settings, s: Switch): bool
  {
    match s
    case AllFiles => o.allFiles
    case GitOnly => o.gitOnly
    case DisplayHelp => o.displayHelp
    case DisplayVersion => o.displayVersion
  }

  /** Turns on the setting that `s` controls. */
  function Set(o: Settings, s: Switch): (r: Settings)
    ensures Has(r, s)
    ensures forall t :: t != s ==> Has(r, t) == Has(o, t)
    ensures r.path == o.path
  {
    match s
    case AllFiles => o.(allFiles := true)
    case GitOnly => o.(gitOnly := true)
    case DisplayHelp => o.(displayHelp := true)
    case DisplayVersion => o.(displayVersion := true)
  }

  /** One round of the argument loop. */
  function Step(o: Settings, arg: Option<string>): (r: Result<Settings, Exception>)
    ensures r.Failure? <==> Classify(arg) == Unknown || (Classify(arg) == Positional && !IsNullOrEmpty(o.path))
    ensures r.Failure? ==> r.error == InvalidOptionException(InvalidOptionText, arg.value)
    ensures r.Success? ==> forall s :: Has(o, s) ==> Has(r.value, s)
    ensures r.Success? && !IsNullOrEmpty(o.path) ==> r.value.path == o.path
  {
    match Classify(arg)
    case Skipped => Success(o)
    case Flag(s) => Success(Set(o, s))
    case Unknown => Failure(InvalidOptionException(InvalidOptionText, arg.value))
    case Positional =>
      // A path was given already: too many arguments.
      if !IsNullOrEmpty(o.path) then Failure(InvalidOptionException(InvalidOptionText, arg.value))
      else Success(o.(path := arg))
  }

  /** The argument loop over `args`, in order, stopping at the first error. */
  function Scan(args: seq<Option<string>>): (r: Result<Settings, Exception>)
    ensures r.Failure? ==> r.error.InvalidOptionException? && r.error.resource == InvalidOptionText
    ensures r.Success? && r.value.path.Some? ==> r.value.path.value != ""
  {
    if args == [] then Success(Defaults)
    else
      match Scan(args[..|args| - 1])
      case Failure(e) => Failure(e)
      case Success(o) => Step(o, args[|args| - 1])
  }

  /** A null argument array is read as an empty one. */
  function ArgList(args: Option<seq<Option<string>>>): seq<Option<string>>
  {
    if args.None? then [] else args.value
  }

  /** The path the parser checks: the one given, or else the current directory. */
  function ChosenPath(o: Settings, fs: Disk): string
  {
    if IsNullOrEmpty(o.path) then fs.currentDirectory else o.path.value
  }

  /** What follows the loop: default the path, then require an existing directory. */
  function Resolve(o: Settings, fs: Disk): (r: Result<Settings, Exception>)
    ensures r.Success? <==> DirectoryExists(fs, ChosenPath(o, fs))
    ensures r.Failure? ==> r.error == InvalidOptionException(InvalidPathText, ChosenPath(o, fs))
    ensures r.Success? ==> r.value.path == Some(ChosenPath(o, fs)) && forall s :: Has(r.value, s) == Has(o, s)
  {
    var path := ChosenPath(o, fs);
    if !DirectoryExists(fs, path) then Failure(InvalidOptionException(InvalidPathText, path))
    else Success(o.(path := Some(path)))
  }

  /** What `Parse` returns or throws for `args` against the file system `fs`. */
  function ParseArgs(args: Option<seq<Option<string>>>, fs: Disk): (r: Result<Settings, Exception>)
    ensures r.Success? ==> r.value.path.Some? && DirectoryExists(fs, r.value.path.value)
    ensures r.Failure? ==> r.error.InvalidOptionException? && r.error.resource in {InvalidOptionText, InvalidPathText}
  {
    match Scan(ArgList(args))
    case Failure(e) => Failure(e)
    case Success(o) => Resolve(o, fs)
  }

  // ---------------------------------------------------------------------
  // Properties of the argument loop

  /** The number of positional arguments in `args`. */
  function Positionals(args: seq<Option<string>>): nat
  {
    if args == [] then 0
    else Positionals(args[..|args| - 1]) + (if Classify(args[|args| - 1]) == Positional then 1 else 0)
  }

  /** The argument at `k` is rejected: an unknown switch, or a positional after another one. */
  ghost predicate Offends(args: seq<Option<string>>, k: int)
  {
    && 0 <= k < |args|
    && (Classify(args[k]) == Unknown || (Classify(args[k]) == Positional && Positionals(args[..k]) > 0))
  }

  /** The loop only ever throws `InvalidOptionException` for an argument it rejects. */
  lemma {:induction false} ScanFailureIsInvalidOption(args: seq<Option<string>>)
    requires Scan(args).Failure?
    ensures Scan(args).error.InvalidOptionException?
    ensures Scan(args).error.resource == InvalidOptionText
    ensures Scan(args).error.argument in set a | a in args && a.Some? :: a.value
  {
    var n := |args| - 1;
    if Scan(args[..n]).Failure? {
      ScanFailureIsInvalidOption(args[..n]);
      var a :| a in args[..n] && a.Some? && a.value == Scan(args).error.argument;
      assert a in args;
    } else {
      assert args[n] in args;
    }
  }

  /** The first rejected argument ends the loop. */
  lemma {:induction false} ScanFailureStays(args: seq<Option<string>>, k: nat)
    requires k <= |args|
    requires Scan(args[..k]).Failure?
    ensures Scan(args) == Scan(args[..k])
    decreases |args| - k
  {
    if k == |args| {
      assert args[..k] == args;
    } else {
      assert args[..k + 1][..k] == args[..k];
      ScanFailureStays(args, k + 1);
    }
  }

  /**
   * While no argument has been rejected, the path is set exactly when a
   * positional argument has been seen, and it is never empty.
   */
  lemma {:induction false} ScanPathState(args: seq<Option<string>>)
    requires Scan(args).Success?
    ensures Scan(args).value.path.Some? <==> Positionals(args) > 0
    ensures Scan(args).value.path.Some? ==> Scan(args).value.path.value != ""
  {
    if args != [] {
      ScanPathState(args[..|args| - 1]);
    }
  }

  /** The loop completes exactly when no argument is rejected. */
  lemma {:induction false} ScanSucceedsIff(args: seq<Option<string>>)
    ensures Scan(args).Success? <==> forall k :: 0 <= k < |args| ==> !Offends(args, k)
  {
    if args != [] {
      var n := |args| - 1;
      var front := args[..n];
      assert args[..n] == front;
      ScanSucceedsIff(front);
      forall k | 0 <= k < n
        ensures Offends(args, k) == Offends(front, k)
      {
        assert args[..n][..k] == args[..k];
      }
      if Scan(front).Success? {
        ScanPathState(front);
      }
      assert (forall k :: 0 <= k < |args| ==> !Offends(args, k)) <==>
        (forall k :: 0 <= k < n ==> !Offends(front, k)) && !Offends(args, n);
    }
  }

  /** When the loop fails, it fails on the first rejected argument, naming it. */
  lemma {:induction false} ScanFirstError(args: seq<Option<string>>, k: nat)
    requires Offends(args, k)
    requires forall j :: 0 <= j < k ==> !Offends(args, j)
    ensures Scan(args) == Failure(InvalidOptionException(InvalidOptionText, args[k].value))
  {
    var front := args[..k];
    ScanSucceedsIff(front);
    forall j | 0 <= j < k
      ensures !Offends(front, j)
    {
      assert front[..j] == args[..j] && front[j] == args[j];
      assert !Offends(args, j);
    }
    ScanPathState(front);
    assert args[..k + 1][..k] == front;
    ScanFailureStays(args, k + 1);
  }

  /**
   * After a complete loop, each setting is on exactly when its switch
   * appears among the arguments, in any spelling, position or number.
   */
  lemma {:induction false} ScanFlags(args: seq<Option<string>>, s: Switch)
    requires Scan(args).Success?
    ensures Has(Scan(args).value, s) <==> exists k :: 0 <= k < |args| && Classify(args[k]) == Flag(s)
  {
    if args != [] {
      var n := |args| - 1;
      ScanFlags(args[..n], s);
      if Has(Scan(args).value, s) && Classify(args[n]) != Flag(s) {
        var k :| 0 <= k < n && Classify(args[..n][k]) == Flag(s);
        assert args[k] == args[..n][k];
      }
      if exists k :: 0 <= k < |args| && Classify(args[k]) == Flag(s) {
        var k :| 0 <= k < |args| && Classify(args[k]) == Flag(s);
        if k < n {
          assert args[..n][k] == args[k];
        }
      }
    }
  }

  /** After a complete loop, the path is the positional argument if there was one, and unset otherwise. */
  lemma {:induction false} ScanPath(args: seq<Option<string>>)
    requires Scan(args).Success?
    ensures Positionals(args) == 0 ==> Scan(args).value.path == None
    ensures forall k :: 0 <= k < |args| && Classify(args[k]) == Positional ==> Scan(args).value.path == args[k]
  {
    ScanPathState(args);
    if args != [] {
      var n := |args| - 1;
      ScanPath(args[..n]);
      forall k | 0 <= k < |args| && Classify(args[k]) == Positional
        ensures Scan(args).value.path == args[k]
      {
        if k < n {
          assert args[..n][k] == args[k];
          ScanPathState(args[..n]);
        }
      }
    }
  }

  /** The arguments the loop does not skip. */
  function Kept(args: seq<Option<string>>): (r: seq<Option<string>>)
    ensures |r| <= |args|
    ensures forall a :: a in r ==> Classify(a) != Skipped
  {
    if args == [] then []
    else
      var last := args[|args| - 1];
      Kept(args[..|args| - 1]) + (if Classify(last) == Skipped then [] else [last])
  }

  /** Null and empty arguments change nothing: the loop over the rest gives the same outcome. */
  lemma {:induction false} ScanSkips(args: seq<Option<string>>)
    ensures Scan(args) == Scan(Kept(args))
  {
    if args != [] {
      var n := |args| - 1;
      var last := args[n];
      ScanSkips(args[..n]);
      if Classify(last) != Skipped {
        var r := Kept(args[..n]) + [last];
        assert r[..|r| - 1] == Kept(args[..n]) && r[|r| - 1] == last;
      } else {
        assert Kept(args) == Kept(args[..n]) + [] == Kept(args[..n]);
      }
    }
  }

  /** A switch is recognised whatever the letter case it is written in. */
  lemma ClassifyIgnoresCase(a: string, b: string)
    requires LowerInvariant(a) == LowerInvariant(b)
    ensures Classify(Some(a)) == Classify(Some(b))
  {
    if a != "" {
      assert LowerChar(a[0]) == LowerInvariant(b)[0] == LowerChar(b[0]);
    }
  }

  // ---------------------------------------------------------------------
  // Properties of the whole parse

  /**
   * The parse succeeds exactly when the loop does and the chosen path is an
   * existing directory; otherwise it reports the loop's error or the
   * missing path, whatever help or version switches were given.
   */
  lemma ParseArgsOutcome(args: Option<seq<Option<string>>>, fs: Disk)
    ensures ParseArgs(args, fs).Success? <==>
      Scan(ArgList(args)).Success? && DirectoryExists(fs, ChosenPath(Scan(ArgList(args)).value, fs))
    ensures Scan(ArgList(args)).Failure? ==> ParseArgs(args, fs) == Scan(ArgList(args))
    ensures Scan(ArgList(args)).Success? && !DirectoryExists(fs, ChosenPath(Scan(ArgList(args)).value, fs)) ==>
      ParseArgs(args, fs) ==
        Failure(InvalidOptionException(InvalidPathText, ChosenPath(Scan(ArgList(args)).value, fs)))
  {
  }

  /**
   * A successful parse names an existing directory: the positional argument
   * if there is one, the current directory otherwise; and each flag is on
   * exactly when its switch was given.
   */
  lemma ParseArgsSuccess(args: Option<seq<Option<string>>>, fs: Disk)
    requires ParseArgs(args, fs).Success?
    ensures ParseArgs(args, fs).value.path.Some?
    ensures DirectoryExists(fs, ParseArgs(args, fs).value.path.value)
    ensures Positionals(ArgList(args)) == 0 ==> ParseArgs(args, fs).value.path == Some(fs.currentDirectory)
    ensures forall k :: 0 <= k < |ArgList(args)| && Classify(ArgList(args)[k]) == Positional ==>
      ParseArgs(args, fs).value.path == ArgList(args)[k]
    ensures forall s :: Has(ParseArgs(args, fs).value, s) <==>
      exists k :: 0 <= k < |ArgList(args)| && Classify(ArgList(args)[k]) == Flag(s)
  {
    var list := ArgList(args);
    ScanPath(list);
    ScanPathState(list);
    forall s
      ensures Has(ParseArgs(args, fs).value, s) <==> exists k :: 0 <= k < |list| && Classify(list[k]) == Flag(s)
    {
      ScanFlags(list, s);
      assert Has(ParseArgs(args, fs).value, s) == Has(Scan(list).value, s) by {
        match s
        case AllFiles =>
        case GitOnly =>
        case DisplayHelp =>
        case DisplayVersion =>
      }
    }
  }

  /** A null argument array parses like an empty one. */
  lemma ParseNullArgs(fs: Disk)
    ensures ParseArgs(None, fs) == ParseArgs(Some([]), fs)
    ensures ParseArgs(None, fs).Success? <==> DirectoryExists(fs, fs.currentDirectory)
  {
  }
}
