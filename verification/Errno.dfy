/** The error numbers the firmware passes around, by name. */
module Errno {
  datatype Error =
    | EBUSY | ENOMEM | EAGAIN | EMSGSIZE | EINVAL | ENODEV | ENOTCONN | EACCES | ENOSPC | E2BIG | EALREADY
    | Other(code: int)

  /** Zero or a negated error number. */
  datatype Status = Ok | Err(error: Error)

  /** A non-negative number or a negated error number. */
  datatype Result<+T> = Value(value: T) | Failure(error: Error)

  /** The stack is out of buffers for the moment; the same call may succeed later. */
  predicate Transient(s: Status) {
    s == Err(EBUSY) || s == Err(ENOMEM) || s == Err(EAGAIN)
  }
}
