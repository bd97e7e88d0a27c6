/** Bytes, and the error numbers the modules share. */
module Common {
  type Byte = b: int | 0 <= b < 256

  const EIO: int := 5
  const ENOMEM: int := 12
  const EACCES: int := 13
  const EFAULT: int := 14
  const EINVAL: int := 22
  const ENAMETOOLONG: int := 36
  const ECOMM: int := 70
  const ESTALE: int := 116
  const ERESTARTSYS: int := 512
}
