/** The process-execution capability (`IProcessManager`) as an oracle. */
module Diagnostics {
  import opened Wrappers

  /** One call of `Run(fileName, arguments, workingDirectory)`. */
  datatype Invocation = Invocation(fileName: string, arguments: string, workingDirectory: Option<string>)

  /** What a finished process reports. */
  datatype ProcessResult = ProcessResult(exitCode: int, standardOutput: seq<string>, standardError: seq<string>)

  /** A process manager: what running each invocation to completion yields. */
  datatype ProcessManager = ProcessManager(run: Invocation -> ProcessResult)
}
