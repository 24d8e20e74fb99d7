/** Result types and error numbers shared by the components. */
module Common {

  /** Process numbers. */
  type Pid = int

  datatype Option<+T> = None | Some(value: T)

  /** The error numbers the modelled code tests for or produces; the rest are kept as a number. */
  datatype Errno = EINVAL | ENOENT | ELOOP | ENAMETOOLONG | EIO | EAGAIN | EOTHER(code: int)

  datatype Result<+T> = Ok(value: T) | Err(error: Errno)

  ghost predicate Distinct<T>(s: seq<T>) {
    forall i, j :: 0 <= i < j < |s| ==> s[i] != s[j]
  }
}
