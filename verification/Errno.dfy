// Kernel return codes: 0 or a negative errno.
module Errno {
  const ENOENT := -2
  const EIO := -5
  const ENOMEM := -12
  const EACCES := -13
  const EFAULT := -14
  const EBUSY := -16
  const EEXIST := -17
  const ENODEV := -19
  const EINVAL := -22
  const ENOSPC := -28
  const ENOSYS := -38
  const ETIMEDOUT := -110
  const EUCLEAN := -117
}
