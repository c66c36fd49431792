/** The error numbers the functions return, negated. */
module Errno {

  const EINVAL: int := 22
  const ENOENT: int := 2
}
