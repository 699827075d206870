/** Values that may be absent and operations that may fail, shared by every part. */
module Outcomes {

  datatype Option<+T> = None | Some(value: T)

  datatype Result<+T, +E> = Ok(value: T) | Err(error: E)

  datatype Errno = EINVAL | EBUSY | EAGAIN | ENOMEM | EIO | E2BIG | EOVERFLOW | Other(code: nat)
}
