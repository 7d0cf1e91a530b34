/** The error codes that the drivers return, as negative numbers. */
module Errno {
  const EINTR := -4
  const EIO := -5
  const EAGAIN := -11
  const ENOMEM := -12
  const EFAULT := -14
  const EBUSY := -16
  const ENODEV := -19
  const EPIPE := -32
  const EPROTO := -71
  const ERESTARTSYS := -512
}
