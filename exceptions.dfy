/** The exceptions the modelled code throws, as values. */
module Exceptions {
  import opened Wrappers

  /**
   * The format strings of the application's resource file. Their texts are
   * not part of this model; an error names the resource and its argument.
   */
  datatype Resource = InvalidOptionText | InvalidPathText | InvalidGitRepoText

  datatype Exception =
    | ArgumentNullException(nullParam: string)
    | ArgumentException(message: string, paramName: Option<string>)
    | InvalidOptionException(resource: Resource, argument: string)
      /** An I/O failure other than an access denial while listing a directory. */
    | IOException
}
