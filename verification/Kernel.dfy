/** Vocabulary shared by every driver of the scull family. */
module Kernel {

  /** One byte of user or device data. */
  newtype Byte = x: int | 0 <= x < 256

  datatype Option<+T> = None | Some(value: T)

  /** The error codes the drivers return (negated, in the C code). */
  datatype Errno = ERESTARTSYS | EAGAIN | EFAULT | ENOMEM | EBUSY | EINVAL

  /** Memory available to one call: every allocation succeeds, or only the next `n` do.
      A failed allocation always ends the call, so this covers every pattern of failures. */
  datatype Memory = Ample | Scarce(n: nat)
  {
    predicate CanAlloc() { Ample? || n > 0 }

    function Used(): Memory
      requires CanAlloc()
    {
      if Ample? then Ample else Scarce(n - 1)
    }
  }

  function Min(a: int, b: int): (m: int)
    ensures m <= a && m <= b && (m == a || m == b)
  {
    if a < b then a else b
  }

  function Above(used: set<nat>, k: nat): set<nat> { set x | x in used && k <= x }

  /** The least number from `k` on that is not in `used`. */
  function Unused(used: set<nat>, k: nat): (n: nat)
    ensures n !in used && k <= n
    decreases |Above(used, k)|
  {
    if k !in used then k
    else
      assert Above(used, k + 1) == Above(used, k) - {k};
      Unused(used, k + 1)
  }
}
