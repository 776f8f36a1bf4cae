/** Results and error numbers shared by the whole model. */
module Base {

  const PAGE_SIZE: nat := 4096

  datatype Option<+T> = None | Some(value: T)

  datatype Errno =
    | E2BIG | EACCES | EAGAIN | EBADF | EBUSY | ECHILD | EEXIST | EFAULT | EINTR | EINVAL | EISDIR
    | EMFILE | ENAMETOOLONG | ENOENT | ENOMEM | ENOSPC | ENOSYS | ENOTDIR | ENOTEMPTY | EPERM
    | EPIPE | ERANGE | EROFS | ESRCH | EXDEV

  datatype Result<+T> = Ok(value: T) | Err(error: Errno)

  type Byte = b: int | 0 <= b < 256
}
