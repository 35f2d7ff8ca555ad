/**
 * The pieces of the C++ standard library that all three programs share:
 * std::optional, the limits of the 32-bit integer types (<climits> and
 * <cstdint>), and std::abs.
 */
module StdTypes {

  /** std::optional<T>. */
  datatype Option<T> = None | Some(value: T) {
    predicate IsFailure() {
      None?
    }

    function PropagateFailure<U>(): Option<U>
      requires None?
    {
      None
    }

    function Extract(): T
      requires Some?
    {
      value
    }
  }

  /** 2^32: uint32_t values wrap modulo this. */
  const UINT32_MOD: nat := 0x1_0000_0000

  /** INT_MAX and INT_MIN of a 32-bit int. */
  const INT_MAX: int := 0x7fff_ffff
  const INT_MIN: int := -0x8000_0000

  /** uint32_t. */
  type U32 = x: nat | x < UINT32_MOD

  /** std::abs, on unbounded integers. */
  function Abs(x: int): nat {
    if x < 0 then -x else x
  }
}
