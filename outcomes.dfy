/** What one call into a harness function does: it returns an `int`, or it
    ends the process, or it performs one of the memory-safety violations
    that the harnesses inject on purpose. A violation is an outcome of its
    own, not a value: what memory it touches is not modelled. */
module Outcomes {

  datatype Outcome =
    | Return(value: int)
      /** `abort()` was called. */
    | Abort
      /** `__builtin_trap()` was executed. */
    | Trap
      /** `memcpy` of `copied` bytes into a stack array of `capacity` bytes. */
    | StackBufferOverflow(copied: nat, capacity: nat)
      /** A read through a pointer into a vector's storage after `clear()`. */
    | UseAfterClear
      /** A load of `width` bytes at `offset` from a buffer of `size` bytes. */
    | OutOfBoundsRead(offset: nat, width: nat, size: nat)
      /** A signed `int` addition whose mathematical sum does not fit 32 bits. */
    | SignedOverflow(lhs: int, rhs: int)
  {
    /** The call did not return normally. */
    predicate Crashes() {
      !Return?
    }
  }
}
