/** The libFuzzer target of advanced_fuzzing.cpp: a command dispatcher over a
    raw byte buffer, three handlers with injected defects, the harness entry
    point with its two process-lifetime counters, and the custom mutator. */
module AdvancedFuzzing {
  import opened Bytes
  import opened Outcomes

  /** sizeof(TestData): a 4-byte magic, a 4-byte size and 256 data bytes,
      without padding. */
  const TEST_DATA_SIZE: nat := 264
  const MAGIC: nat := 0xDEADBEEF
  /** The largest size field that process_data accepts without copying. */
  const SIZE_LIMIT: nat := 255
  /** The length of process_data's stack buffer. */
  const LOCAL_BUFFER: nat := 100

  const CHECKSUM_FACTOR: nat := 1337
  const CHECKSUM_TRIGGER: nat := 0x12345678

  /** process_vector's minimum length and the length it must exceed for the
      dangerous branch. */
  const VECTOR_MIN: nat := 4
  const VECTOR_THRESHOLD: nat := 10

  /** complex_logic: an 8-byte header of command and argument. */
  const HEADER_SIZE: nat := 8
  const CMD_PROCESS_DATA: nat := 0x1000
  const CMD_CHECKSUM: nat := 0x2000
  const CMD_VECTOR: nat := 0x3000
  const CMD_NESTED: nat := 0x4000
  const NESTED_ARG: nat := 0xAABBCCDD

  /** The harness ignores inputs shorter than this. */
  const MIN_INPUT: nat := 4

  // ---------------------------------------------------------------------
  // process_data

  /** Validates a TestData record at the head of the buffer; a size field
      over 255 sends the whole size field's worth of bytes into a 100-byte
      stack buffer. */
  function ProcessData(input: seq<Byte>): (r: Outcome)
    ensures r.Return? ==> r.value == 0
    ensures |input| < TEST_DATA_SIZE ==> r == Return(0)
    ensures r.Crashes() <==>
      |input| >= TEST_DATA_SIZE && LE32(input, 0) == MAGIC && LE32(input, 4) > SIZE_LIMIT
    ensures r.Crashes() ==>
      |input| >= TEST_DATA_SIZE && r == StackBufferOverflow(LE32(input, 4), LOCAL_BUFFER)
    ensures r.StackBufferOverflow? ==> r.copied > r.capacity
  {
    if |input| < TEST_DATA_SIZE then Return(0)
    else if LE32(input, 0) != MAGIC then Return(0)
    else if LE32(input, 4) > SIZE_LIMIT then StackBufferOverflow(LE32(input, 4), LOCAL_BUFFER)
    else Return(0)
  }

  // ---------------------------------------------------------------------
  // calculate_checksum

  /** One round of the checksum loop: `checksum += b; checksum *= 1337;`,
      each on a uint32_t. */
  function ChecksumStep(c: U32, b: Byte): (next: U32) {
    Mul32(Add32(c, b), CHECKSUM_FACTOR)
  }

  /** The two wrapping statements of a round are one wrap of the whole
      expression: c <- ((c + b) * 1337) mod 2^32. */
  lemma StepIsOneWrap(c: U32, b: Byte)
    ensures ChecksumStep(c, b) == ((c + b) * CHECKSUM_FACTOR) % TWO_32
  {
  }

  /** The checksum accumulator after visiting every byte of data in order,
      starting from 0 (a left fold). */
  function Fold(data: seq<Byte>): (c: U32)
    decreases |data|
  {
    if data == [] then 0
    else ChecksumStep(Fold(data[..|data| - 1]), data[|data| - 1])
  }

  /** Appending a byte runs one more round on the accumulator. */
  lemma FoldSnoc(data: seq<Byte>, b: Byte)
    ensures Fold(data + [b]) == ChecksumStep(Fold(data), b)
  {
  }

  /** The fold in the loop's own shape: resume from accumulator c and
      visit the bytes of data front to back. */
  function FoldFrom(c: U32, data: seq<Byte>): (result: U32)
    decreases |data|
  {
    if data == [] then c else FoldFrom(ChecksumStep(c, data[0]), data[1..])
  }

  /** Folding a concatenation resumes from the first part's accumulator. */
  lemma {:induction false} FoldConcat(a: seq<Byte>, b: seq<Byte>)
    ensures Fold(a + b) == FoldFrom(Fold(a), b)
    decreases |b|
  {
    if b != [] {
      calc {
        Fold(a + b);
        { assert a + b == (a + [b[0]]) + b[1..]; }
        Fold((a + [b[0]]) + b[1..]);
        { FoldConcat(a + [b[0]], b[1..]); }
        FoldFrom(Fold(a + [b[0]]), b[1..]);
        { FoldSnoc(a, b[0]); }
        FoldFrom(ChecksumStep(Fold(a), b[0]), b[1..]);
      }
    } else {
      assert a + b == a;
    }
  }

  /** The two definitions of the fold agree: the front-to-back loop
      starting from 0 computes Fold. */
  lemma FoldIsForward(data: seq<Byte>)
    ensures Fold(data) == FoldFrom(0, data)
  {
    FoldConcat([], data);
    assert [] + data == data;
  }

  /** What calculate_checksum does: 0 on an empty buffer; otherwise abort()
      when the folded accumulator hits the trigger, else the accumulator
      converted to int. */
  function Checksum(data: seq<Byte>): (r: Outcome)
    ensures data == [] ==> r == Return(0)
    ensures r.Crashes() ==> r == Abort
    ensures r == Abort <==> Fold(data) == CHECKSUM_TRIGGER
    ensures r.Return? ==> InInt32(r.value) && (r.value - Fold(data)) % TWO_32 == 0
  {
    if |data| == 0 then Return(0)
    else
      var c := Fold(data);
      if c == CHECKSUM_TRIGGER then Abort else Return(ToInt32(c))
  }

  /** The checksum loop, run over the buffer. */
  method CalculateChecksum(data: seq<Byte>) returns (r: Outcome)
    ensures r == Checksum(data)
  {
    if |data| == 0 {
      return Return(0);
    }
    var checksum: U32 := 0;
    var i := 0;
    while i < |data|
      invariant 0 <= i <= |data|
      invariant checksum == Fold(data[..i])
    {
      FoldSnoc(data[..i], data[i]);
      assert data[..i + 1] == data[..i] + [data[i]];
      checksum := Add32(checksum, data[i]);
      checksum := Mul32(checksum, CHECKSUM_FACTOR);
      i := i + 1;
    }
    assert data[..i] == data;
    if checksum == CHECKSUM_TRIGGER {
      return Abort;
    }
    return Return(ToInt32(checksum));
  }

  /** The abort is reachable: five bytes whose checksum is the trigger. */
  lemma ChecksumAbortReachable()
    ensures Checksum([136, 206, 227, 55, 0]) == Abort
  {
    var s: seq<Byte> := [136, 206, 227, 55, 0];
    assert s[..0] == [];
    assert Fold(s[..1]) == 181832 by { assert s[..1][..0] == s[..0]; }
    assert Fold(s[..2]) == 243384806 by { assert s[..2][..1] == s[..1]; }
    assert Fold(s[..3]) == 3283241921 by { assert s[..3][..2] == s[..2]; }
    assert Fold(s[..4]) == 237945400 by { assert s[..4][..3] == s[..3]; }
    assert s[..5] == s;
    assert Fold(s) == CHECKSUM_TRIGGER by { assert s[..4] == s[..|s| - 1]; }
  }

  // ---------------------------------------------------------------------
  // process_vector

  /** Copies the buffer into a vector; when it is longer than 10 bytes and
      starts 0xFF 0xEE, clears the vector and reads through the stale
      pointer. */
  function ProcessVector(input: seq<Byte>): (r: Outcome)
    ensures r == Return(0) || r == UseAfterClear
    ensures |input| < VECTOR_MIN ==> r == Return(0)
    ensures r == UseAfterClear <==>
      |input| > VECTOR_THRESHOLD && input[0] == 0xFF && input[1] == 0xEE
  {
    if |input| < VECTOR_MIN then Return(0)
    else if |input| > VECTOR_THRESHOLD && input[0] == 0xFF && input[1] == 0xEE then UseAfterClear
    else Return(0)
  }

  // ---------------------------------------------------------------------
  // complex_logic

  /** Reads a command and an argument from the first eight bytes and
      dispatches on the command. */
  function ComplexLogic(input: seq<Byte>): (r: Outcome)
    ensures |input| < HEADER_SIZE ==> r == Return(0)
    ensures |input| >= HEADER_SIZE && LE32(input, 0) == CMD_PROCESS_DATA ==>
      r == ProcessData(input[HEADER_SIZE..])
    ensures |input| >= HEADER_SIZE && LE32(input, 0) == CMD_CHECKSUM ==>
      r == Checksum(input[HEADER_SIZE..])
    ensures |input| >= HEADER_SIZE && LE32(input, 0) == CMD_VECTOR ==>
      r == ProcessVector(input[HEADER_SIZE..])
    ensures |input| >= HEADER_SIZE && LE32(input, 0) == CMD_NESTED ==>
      (r == Abort <==>
        LE32(input, 4) == NESTED_ARG && |input| > 32 && input[15] == 0x42 && input[31] == 0x13)
      && (r != Abort ==> r == Return(0))
    ensures |input| >= HEADER_SIZE && LE32(input, 0) !in {CMD_PROCESS_DATA, CMD_CHECKSUM, CMD_VECTOR, CMD_NESTED} ==>
      r == Return(0)
  {
    if |input| < HEADER_SIZE then Return(0)
    else
      var cmd := LE32(input, 0);
      var arg := LE32(input, 4);
      if cmd == CMD_PROCESS_DATA then ProcessData(input[HEADER_SIZE..])
      else if cmd == CMD_CHECKSUM then Checksum(input[HEADER_SIZE..])
      else if cmd == CMD_VECTOR then ProcessVector(input[HEADER_SIZE..])
      else if cmd == CMD_NESTED then
        if arg == NESTED_ARG && |input| > 16 && input[15] == 0x42
           && |input| > 32 && input[31] == 0x13
        then Abort
        else Return(0)
      else Return(0)
  }

  /** The only inputs on which complex_logic fails to return normally. */
  lemma ComplexLogicCrashes(input: seq<Byte>)
    ensures ComplexLogic(input).Crashes() <==>
      |input| >= HEADER_SIZE &&
      ( (LE32(input, 0) == CMD_PROCESS_DATA && |input| >= HEADER_SIZE + TEST_DATA_SIZE
          && LE32(input, HEADER_SIZE) == MAGIC && LE32(input, HEADER_SIZE + 4) > SIZE_LIMIT)
      || (LE32(input, 0) == CMD_CHECKSUM && Fold(input[HEADER_SIZE..]) == CHECKSUM_TRIGGER)
      || (LE32(input, 0) == CMD_VECTOR && |input| > HEADER_SIZE + VECTOR_THRESHOLD
          && input[HEADER_SIZE] == 0xFF && input[HEADER_SIZE + 1] == 0xEE)
      || (LE32(input, 0) == CMD_NESTED && LE32(input, 4) == NESTED_ARG && |input| > 32
          && input[15] == 0x42 && input[31] == 0x13) )
  {
  }

  /** Every well-formed record with a size field over 255, sent with command
      0x1000, overflows the 100-byte stack buffer by the size field. */
  lemma ProcessDataOverflowReachable(arg: U32, size: U32, payload: seq<Byte>)
    requires size > SIZE_LIMIT && |payload| == 256
    ensures ComplexLogic(EncodeLE32(CMD_PROCESS_DATA) + EncodeLE32(arg) + EncodeLE32(MAGIC)
                         + EncodeLE32(size) + payload)
            == StackBufferOverflow(size, LOCAL_BUFFER)
  {
    var record := EncodeLE32(MAGIC) + EncodeLE32(size) + payload;
    var input := EncodeLE32(CMD_PROCESS_DATA) + EncodeLE32(arg) + record;
    assert EncodeLE32(CMD_PROCESS_DATA) + EncodeLE32(arg) + EncodeLE32(MAGIC)
           + EncodeLE32(size) + payload == input;
    DecodeEncode(CMD_PROCESS_DATA, [], EncodeLE32(arg) + record);
    assert input == [] + EncodeLE32(CMD_PROCESS_DATA) + (EncodeLE32(arg) + record);
    assert input[HEADER_SIZE..] == record;
    DecodeEncode(MAGIC, [], EncodeLE32(size) + payload);
    assert record == [] + EncodeLE32(MAGIC) + (EncodeLE32(size) + payload);
    DecodeEncode(size, EncodeLE32(MAGIC), payload);
  }

  /** The nested abort of command 0x4000 is reachable. */
  lemma NestedAbortReachable(input: seq<Byte>)
    requires |input| == 33
    requires input[..8] == [0x00, 0x40, 0x00, 0x00, 0xDD, 0xCC, 0xBB, 0xAA]
    requires input[15] == 0x42 && input[31] == 0x13
    ensures ComplexLogic(input) == Abort
  {
  }

  // ---------------------------------------------------------------------
  // LLVMFuzzerTestOneInput

  /** What one call of the entry point yields: 0 whenever it returns, and
      complex_logic's crash when there is one. */
  function Harness(data: seq<Byte>): (r: Outcome)
    ensures r.Return? ==> r.value == 0
    ensures |data| < MIN_INPUT ==> r == Return(0)
    ensures r.Crashes() <==> |data| >= MIN_INPUT && ComplexLogic(data).Crashes()
    ensures r.Crashes() ==> r == ComplexLogic(data)
  {
    if |data| < MIN_INPUT then Return(0)
    else
      var o := ComplexLogic(data);
      if o.Crashes() then o else Return(0)
  }

  /** The entry point together with its static counters, which live for the
      whole process. */
  class FuzzStats {
    /** Calls with at least four bytes, as a size_t. */
    var totalCalls: nat
    /** The largest Size seen on such a call. */
    var maxSize: nat

    ghost predicate Valid()
      reads this
    {
      totalCalls < TWO_64 && maxSize < TWO_64
    }

    /** Static storage starts zeroed. */
    constructor ()
      ensures Valid() && totalCalls == 0 && maxSize == 0
    {
      totalCalls := 0;
      maxSize := 0;
    }

    method TestOneInput(data: seq<Byte>) returns (r: Outcome)
      requires Valid()
      requires |data| < TWO_64
      modifies this
      ensures Valid()
      ensures r == Harness(data)
      ensures |data| < MIN_INPUT ==> totalCalls == old(totalCalls) && maxSize == old(maxSize)
      ensures |data| >= MIN_INPUT ==> totalCalls == (old(totalCalls) + 1) % TWO_64
      ensures |data| >= MIN_INPUT ==>
        maxSize == (if |data| > old(maxSize) then |data| else old(maxSize))
      ensures maxSize >= old(maxSize)
    {
      if |data| < MIN_INPUT {
        return Return(0);
      }
      totalCalls := (totalCalls + 1) % TWO_64;
      if |data| > maxSize {
        maxSize := |data|;
      }
      var o := ComplexLogic(data);
      if o.Crashes() {
        return o;
      }
      return Return(0);
    }
  }

  // ---------------------------------------------------------------------
  // LLVMFuzzerCustomMutator

  function Min(a: int, b: int): (m: int) {
    if a <= b then a else b
  }

  /** The length the mutator returns. Size + 4 is computed in size_t and so
      wraps modulo 2^64. */
  function MutatedLength(size: nat, maxSize: nat): (n: nat)
    requires size < TWO_64 && maxSize < TWO_64
    ensures !(size > 0 && maxSize > size) ==> n == size
    ensures size > 0 && maxSize > size && size + 4 < TWO_64 ==>
      n == Min(maxSize, size + 4) && size < n <= maxSize && n <= size + 4
    ensures n <= size || n <= maxSize
  {
    if size > 0 && maxSize > size then Min(maxSize, (size + 4) % TWO_64) else size
  }

  /** Without the size_t wrap the mutator never shrinks the input. */
  lemma MutatorGrows(size: nat, maxSize: nat)
    requires size < TWO_64 - 4 && maxSize < TWO_64
    ensures size <= MutatedLength(size, maxSize)
  {
  }

  /** At the very top of size_t, Size + 4 wraps and the returned length
      falls below Size. */
  lemma MutatorWrapShrinks()
    ensures MutatedLength(TWO_64 - 4, TWO_64 - 1) == 0
  {
  }

  /** Appends up to four random bytes after the current input, in place.
      `noise(k)` is the value of the k-th `rand() % 256`. */
  method CustomMutator(data: array<Byte>, size: nat, maxSize: nat, noise: nat -> Byte)
    returns (n: nat)
    requires size < TWO_64 && maxSize < TWO_64
    requires maxSize <= data.Length
    modifies data
    ensures n == MutatedLength(size, maxSize)
    ensures forall i :: 0 <= i < data.Length ==>
      data[i] == (if size <= i < n then noise(i - size) else old(data[i]))
  {
    if size > 0 && maxSize > size {
      var bound := Min(maxSize, (size + 4) % TWO_64);
      var i := size;
      while i < bound
        invariant size <= i && (i == size || i <= bound)
        invariant forall j :: 0 <= j < data.Length ==>
          data[j] == (if size <= j < i then noise(j - size) else old(data[j]))
      {
        data[i] := noise(i - size);
        i := i + 1;
      }
      return bound;
    }
    return size;
  }
}
