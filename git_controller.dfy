/**
 * Git queries (`DirectoryTree.Git`): the `IGitController` capability and
 * `GitController`, which answers by running the `git` executable through a
 * process manager and reading its exit code.
 */
module Git {
  import opened Wrappers
  import opened Exceptions
  import opened FileSystem
  import opened Diagnostics

  /**
   * What an `IGitController` answers for a path: whether it is a repository
   * and whether it is tracked, or the exception the query throws.
   */
  datatype GitQueries = GitQueries(isRepository: string -> Result<bool, Exception>,
                                   isTracked: string -> Result<bool, Exception>)

  /** A controller over the process manager it was given. */
  datatype GitController = GitController(processManager: ProcessManager)

  /** The constructor, which rejects a null process manager. */
  function New(processManager: Option<ProcessManager>): (r: Result<GitController, Exception>)
    ensures r.Failure? <==> processManager.None?
    ensures r.Failure? ==> r.error == ArgumentNullException("processManager")
    ensures r.Success? ==> r.value.processManager == processManager.value
  {
    if processManager.None? then Failure(ArgumentNullException("processManager"))
    else Success(GitController(processManager.value))
  }

  /** The outcome of one query, with the processes it ran, in order. */
  datatype Call = Call(result: Result<bool, Exception>, log: seq<Invocation>)

  const EmptyPathMessage: string := "Value cannot be null or empty."

  function NotFoundMessage(path: string): string
  {
    "Path not found: " + path
  }

  /** `git rev-parse`, run in the directory `path`. */
  function RevParse(path: string): Invocation
  {
    Invocation("git", "rev-parse", Some(path))
  }

  /** `git ls-files --error-unmatch <path>`, run in the current directory. */
  function LsFiles(path: string): Invocation
  {
    Invocation("git", "ls-files --error-unmatch " + path, None)
  }

  /** Runs `inv` once; the answer is whether it exited with code 0. */
  function RunOnce(git: GitController, inv: Invocation): Call
  {
    Call(Success(git.processManager.run(inv).exitCode == 0), [inv])
  }

  /** Whether `path` (as seen in the file system `system`) is inside a Git repository. */
  function IsRepository(git: GitController, path: Option<string>, system: Disk): (r: Call)
    ensures IsNullOrEmpty(path) ==> r.result == Failure(ArgumentException(EmptyPathMessage, Some("path")))
    ensures !IsNullOrEmpty(path) && !DirectoryExists(system, path.value) ==>
      r.result == Failure(ArgumentException(NotFoundMessage(path.value), None))
    ensures r.result.Failure? <==> IsNullOrEmpty(path) || !DirectoryExists(system, path.value)
    ensures r.result.Failure? ==> r.log == []
    ensures r.result.Success? ==>
      && r.log == [RevParse(path.value)]
      && (r.result.value <==> git.processManager.run(RevParse(path.value)).exitCode == 0)
  {
    if IsNullOrEmpty(path) then Call(Failure(ArgumentException(EmptyPathMessage, Some("path"))), [])
    else if !DirectoryExists(system, path.value) then
      Call(Failure(ArgumentException(NotFoundMessage(path.value), None)), [])
    else RunOnce(git, RevParse(path.value))
  }

  /** Whether the file or directory `path` is tracked by Git. */
  function IsTracked(git: GitController, path: Option<string>, system: Disk): (r: Call)
    ensures IsNullOrEmpty(path) ==> r.result == Failure(ArgumentException(EmptyPathMessage, Some("path")))
    ensures !IsNullOrEmpty(path) && !FileExists(system, path.value) && !DirectoryExists(system, path.value) ==>
      r.result == Failure(ArgumentException(NotFoundMessage(path.value), None))
    ensures r.result.Failure? <==>
      IsNullOrEmpty(path) || (!FileExists(system, path.value) && !DirectoryExists(system, path.value))
    ensures r.result.Failure? ==> r.log == []
    ensures r.result.Success? ==>
      && r.log == [LsFiles(path.value)]
      && (r.result.value <==> git.processManager.run(LsFiles(path.value)).exitCode == 0)
  {
    if IsNullOrEmpty(path) then Call(Failure(ArgumentException(EmptyPathMessage, Some("path"))), [])
    else if !FileExists(system, path.value) && !DirectoryExists(system, path.value) then
      Call(Failure(ArgumentException(NotFoundMessage(path.value), None)), [])
    else RunOnce(git, LsFiles(path.value))
  }

  /**
   * The controller seen through `IGitController`: the answers of its two
   * queries, with `system` the file system its existence checks consult.
   */
  function AsQueries(git: GitController, system: Disk): (r: GitQueries)
    ensures forall p :: r.isRepository(p).Failure? <==> p == "" || !DirectoryExists(system, p)
    ensures forall p :: r.isRepository(p).Success? ==>
      (r.isRepository(p).value <==> git.processManager.run(RevParse(p)).exitCode == 0)
    ensures forall p :: r.isTracked(p).Failure? <==> p == "" || (!FileExists(system, p) && !DirectoryExists(system, p))
    ensures forall p :: r.isTracked(p).Success? ==>
      (r.isTracked(p).value <==> git.processManager.run(LsFiles(p)).exitCode == 0)
  {
    GitQueries(p => IsRepository(git, Some(p), system).result, p => IsTracked(git, Some(p), system).result)
  }

  /**
   * Every path `IsRepository` accepts, `IsTracked` accepts too, and the
   * two queries run different commands.
   */
  lemma RepositoryPathsAreTrackable(git: GitController, path: Option<string>, system: Disk)
    ensures IsRepository(git, path, system).result.Success? ==> IsTracked(git, path, system).result.Success?
    ensures IsRepository(git, path, system).result.Success? ==>
      IsRepository(git, path, system).log != IsTracked(git, path, system).log
  {
  }

  /**
   * The answers depend on the process manager only through the one
   * invocation each query makes: controllers whose managers agree on it
   * answer alike.
   */
  lemma AnswersDependOnOneRun(a: GitController, b: GitController, path: string, system: Disk)
    requires a.processManager.run(RevParse(path)).exitCode == b.processManager.run(RevParse(path)).exitCode
    requires a.processManager.run(LsFiles(path)).exitCode == b.processManager.run(LsFiles(path)).exitCode
    ensures IsRepository(a, Some(path), system) == IsRepository(b, Some(path), system)
    ensures IsTracked(a, Some(path), system) == IsTracked(b, Some(path), system)
  {
  }
}
