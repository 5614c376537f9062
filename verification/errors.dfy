/**
 * The error kinds of the scaffolding tool (rustx-cli/src/error.rs).
 * Display strings are not modelled; only which variant is raised and
 * the data it carries.
 */
module Errors {

  /** Absolute path, one component per element, starting at the filesystem root. */
  type Path = seq<string>

  /** The `std::io::ErrorKind`s that the filesystem operations of the model can raise. */
  datatype IoKind =
    | NotFound        // reading a directory that does not exist
    | NotADir         // a path component (or the directory read) is a regular file
    | IsADir          // copying a file onto an existing directory
    | AlreadyExists   // creating a directory where a regular file already is

  datatype Error =
    | MissingGitInstallation
    | NotADirectory(path: Path)
    | DirectoryNotEmpty(path: Path)
    | InvalidProjectKind(kind: string)
    | InvalidProjectCiProvider(provider: string)
    | MissingLocalDataDir
    | Io(ioKind: IoKind)

  /** `crate::Result<T>`: a value or one of the errors above. */
  datatype Result<+T> = Ok(value: T) | Err(error: Error) {

    predicate IsFailure() {
      Err?
    }

    function PropagateFailure<U>(): Result<U>
      requires Err?
    {
      Err(error)
    }

    function Extract(): T
      requires Ok?
    {
      value
    }
  }
}
