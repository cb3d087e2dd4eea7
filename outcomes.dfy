/** Values shared by every module of the model: optional values, Go's
    `(value, error)` returns and Go's run-time panics, and the process
    environment as seen through `os.Getenv`. */
module Outcomes {

  datatype Option<+T> = None | Some(value: T)

  /** A Go function's `(value, error)` pair, where a non-nil error makes the
      value meaningless. */
  datatype Result<+T, +E> = Ok(value: T) | Err(error: E)

  /** What a call of Go code amounts to: it either returns, or raises a
      run-time panic (a slice or index out of range, a nil dereference) that
      unwinds past every caller in the model. */
  datatype Run<+T> = Returns(value: T) | Panics(reason: string)

  /** The process environment; `os.Getenv` gives "" for an unset key. */
  type Env = map<string, string>

  function Getenv(env: Env, key: string): (v: string)
    ensures key !in env ==> v == ""
  {
    if key in env then env[key] else ""
  }
}
