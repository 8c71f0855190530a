// Kernel error numbers and the result wrappers shared by every module.

module Errno {
  /** The negative errno values the modelled code returns. */
  datatype Errno =
    | EINVAL
    | ERANGE
    | EOPNOTSUPP
    | EADDRINUSE
    | ENOMEM
    | ENOSPC
    | EFAULT
    | EPERM
    | ENODEV

  /** An `int` return that is either 0 or a negative errno. */
  datatype Status = Success | Failure(err: Errno)

  /** A value-or-errno return (the kernel's ERR_PTR / negative return). */
  datatype Result<T> = Ok(value: T) | Err(err: Errno)
  {
    predicate IsOk() { Ok? }
  }

  datatype Option<T> = None | Some(value: T)
}
