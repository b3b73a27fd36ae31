/** Option and Result, the two failure-carrying shapes the model uses for Go's
    `(value, ok)` and `(value, error)` returns. */
module Wrappers {

  datatype Option<+T> = None | Some(value: T)

  /** The errors the modelled code can report; each names the Go call that fails. */
  datatype Error =
    | ReadDirFailed(path: string)       // os.ReadDir
    | IgnoreFileFailed(path: string)    // os.Open or bufio.Scanner on .gitignore
    | StatFailed(path: string)          // os.Stat in pickKustomizationPath
    | ManifestFailed(path: string)      // os.ReadFile or yaml.Unmarshal
    | WriteFailed(path: string)         // encoding or writing the manifest

  datatype Result<+T> = Ok(value: T) | Err(error: Error)
}

/** The outcome of a shell-pattern match (Go's `path.Match` and
    `filepath.Match`), which the model takes as a parameter. */
module Globs {

  datatype MatchOutcome = Matched | NotMatched | BadPattern

  /** `glob(pattern, name)`: whether `name` matches `pattern`. */
  type Glob = (string, string) -> MatchOutcome
}

/** The `path/filepath` calls the model takes as parameters. Paths are
    slash-separated, so `filepath.ToSlash` is the identity. */
module Paths {
  import opened Wrappers

  datatype PathOps = PathOps(
    join: (string, string) -> string,          // filepath.Join
    rel: (string, string) -> Option<string>)   // filepath.Rel; None on error
}
