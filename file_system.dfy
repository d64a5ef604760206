/**
 * An abstract file system: directory trees whose listings may fail, the set
 * of existing files and the process's current directory.
 */
module FileSystem {

  /**
   * The result of one listing call (`GetDirectories` or `GetFiles`): the
   * entries in the order the operating system returns them, an access
   * denial (`UnauthorizedAccessException`), or any other I/O failure.
   */
  datatype Listing<+T> = Listed(entries: seq<T>) | AccessDenied | IoFailure

  /** A directory, with the outcome of listing its subdirectories and its files. */
  datatype Node = Directory(name: string, subdirs: Listing<Node>, files: Listing<string>)

  /**
   * What the file system calls see (`IFileSystem`, or the static `Directory`
   * and `File` classes): `directories` maps every existing directory path to
   * its tree, `files` holds every existing file path.
   */
  datatype Disk = Disk(directories: map<string, Node>, files: set<string>, currentDirectory: string)

  /** `Directory.Exists`: the empty path never names a directory. */
  predicate DirectoryExists(fs: Disk, path: string)
  {
    path != "" && path in fs.directories
  }

  /** `File.Exists`: the empty path never names a file. */
  predicate FileExists(fs: Disk, path: string)
  {
    path != "" && path in fs.files
  }
}
