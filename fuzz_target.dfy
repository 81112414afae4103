/** The libFuzzer target of fuzz_target.cpp: two native `int`s are loaded
    from the head of the buffer, added, and a sum of 42 executes a trap.
    `sizeof(int)` is 4 and loads are little-endian. */
module FuzzTarget {
  import opened Bytes
  import opened Outcomes

  /** sizeof(int). */
  const INT_SIZE: nat := 4
  /** The sum that executes `__builtin_trap()`. */
  const TRAP_SUM: int := 42

  /** `int result = a + b` followed by the trap check. The addition is a
      signed one: a sum outside the `int` range is undefined behaviour and
      is reported as such instead of being wrapped. */
  function AddAndCheck(a: int, b: int): (r: Outcome)
    requires InInt32(a) && InInt32(b)
    ensures r == Return(0) || r == Trap || r == SignedOverflow(a, b)
    ensures r == SignedOverflow(a, b) <==> !InInt32(a + b)
    ensures r == Trap <==> a + b == TRAP_SUM
  {
    if !InInt32(a + b) then SignedOverflow(a, b)
    else if a + b == TRAP_SUM then Trap
    else Return(0)
  }

  /** The entry point as written: it guards only the first load, so the
      second `int`, at bytes 4..7, is read past the end of any buffer of
      4 to 7 bytes. */
  function TestOneInput(data: seq<Byte>): (r: Outcome)
    ensures |data| < INT_SIZE ==> r == Return(0)
    ensures r.Return? ==> r.value == 0
    ensures r == Return(0) || r == Trap || r.SignedOverflow? || r.OutOfBoundsRead?
    ensures (|data| >= 2 * INT_SIZE
             && InInt32(ToInt32(LE32(data, 0)) + ToInt32(LE32(data, INT_SIZE)))
             && ToInt32(LE32(data, 0)) + ToInt32(LE32(data, INT_SIZE)) != TRAP_SUM)
            ==> r == Return(0)
    ensures r.OutOfBoundsRead? <==> INT_SIZE <= |data| < 2 * INT_SIZE
    ensures r.OutOfBoundsRead? ==> r.size == |data| < r.offset + r.width
    ensures |data| >= 2 * INT_SIZE ==>
      (r == Trap <==> ToInt32(LE32(data, 0)) + ToInt32(LE32(data, INT_SIZE)) == TRAP_SUM)
    ensures |data| >= 2 * INT_SIZE ==>
      (r.SignedOverflow? <==> !InInt32(ToInt32(LE32(data, 0)) + ToInt32(LE32(data, INT_SIZE))))
  {
    if |data| < INT_SIZE then Return(0)
    else if |data| < 2 * INT_SIZE then OutOfBoundsRead(INT_SIZE, INT_SIZE, |data|)
    else AddAndCheck(ToInt32(LE32(data, 0)), ToInt32(LE32(data, INT_SIZE)))
  }

  /** The smallest input the guard admits already reads past its end. */
  lemma ShortInputReadsPastEnd()
    ensures TestOneInput([1, 2, 3, 4]) == OutOfBoundsRead(4, 4, 4)
  {
  }

  /** The entry point with the guard the two loads need: Size < 2 * sizeof(int). */
  function TestOneInputGuarded(data: seq<Byte>): (r: Outcome)
    ensures !r.OutOfBoundsRead?
    ensures |data| < 2 * INT_SIZE ==> r == Return(0)
    ensures r.Return? ==> r.value == 0
  {
    if |data| < 2 * INT_SIZE then Return(0)
    else AddAndCheck(ToInt32(LE32(data, 0)), ToInt32(LE32(data, INT_SIZE)))
  }

  /** The corrected guard changes nothing but the inputs that read past the
      end: there it returns 0 instead. */
  lemma GuardedAgrees(data: seq<Byte>)
    ensures TestOneInputGuarded(data) ==
      (if TestOneInput(data).OutOfBoundsRead? then Return(0) else TestOneInput(data))
  {
  }

  /** A sum of 42 traps, also when one operand is negative. */
  lemma TrapReachable()
    ensures TestOneInput([42, 0, 0, 0, 0, 0, 0, 0]) == Trap
    ensures TestOneInput([0xFF, 0xFF, 0xFF, 0xFF, 43, 0, 0, 0]) == Trap
  {
  }

  /** INT_MAX + 1 overflows. */
  lemma OverflowReachable()
    ensures TestOneInput([0xFF, 0xFF, 0xFF, 0x7F, 1, 0, 0, 0]) == SignedOverflow(0x7FFF_FFFF, 1)
  {
  }

  /** The trap depends on the wrapped 32-bit sum of the two words, taken
      only when the signed addition does not overflow. */
  lemma TrapOnWords(data: seq<Byte>)
    requires |data| >= 2 * INT_SIZE
    ensures TestOneInput(data) == Trap <==>
      (LE32(data, 0) + LE32(data, INT_SIZE)) % TWO_32 == TRAP_SUM
      && InInt32(ToInt32(LE32(data, 0)) + ToInt32(LE32(data, INT_SIZE)))
  {
  }
}
