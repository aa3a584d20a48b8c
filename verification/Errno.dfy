/** The error codes of kern/include/kern/errno.h that the modelled code returns. */
module Errno {

  datatype Errno =
    | Success
    | EINVAL
    | EFAULT
    | ENAMETOOLONG
    | ENOMEM
    | EIO
    | ENOENT
    | ENOTDIR
    | EISDIR
    | EEXIST
    | EXDEV
    | EUNIMP
    | ENXIO
    | EBUSY
    | ENOSPC
}
