# LLVM_BugHunter: fuzz harnesses and instruction-counting passes in Dafny

This project models the decision logic of four small C++ files of the
LLVM_BugHunter demonstration repository and proves what each of them does.

- **advanced_fuzzing.cpp** is a libFuzzer target (`AdvancedFuzzing`).
  `complex_logic` reads a 32-bit command and a 32-bit argument from the first
  eight bytes of the input. Commands 0x1000, 0x2000 and 0x3000 pass the rest
  of the buffer to `process_data`, `calculate_checksum` or `process_vector`.
  Command 0x4000 runs a nested magic-byte check that can call `abort()`.
  Each handler carries a deliberate defect:
  - `process_data` overflows a stack buffer with `memcpy`;
  - `calculate_checksum` aborts on one value of a wrapping `uint32_t` fold;
  - `process_vector` reads through a pointer into a vector after `clear()`.

  The entry point also keeps two process-lifetime counters, modelled by the
  class `FuzzStats`. The custom mutator appends up to four random bytes to
  the input in place, modelled by the method `CustomMutator` over an `array`.
- **fuzz_target.cpp** is a second libFuzzer target (`FuzzTarget`). It loads
  two `int`s, adds them, and traps when the sum is 42.
- **CountInstructions.cpp** is a function pass (`FunctionPass`). It sums the
  sizes of one function's basic blocks in an `unsigned` and reports the sum.
- **src/CountInstructions.cpp** is a module pass (`ModulePass`). It does the
  same for every function that is not a declaration, reports each count in
  module order, and reports the module total last.

Each harness function is a total function from the input bytes to an
`Outcome` (module `Outcomes`). An outcome is one of:
- `Return(v)`;
- `Abort` or `Trap`;
- a named memory-safety violation: `StackBufferOverflow`, `UseAfterClear`,
  `OutOfBoundsRead` or `SignedOverflow`.

Because each function is total, the inputs that crash and the inputs that
are safe can both be stated exactly.

Assumptions of the model:
- Every pointer-cast load is an explicit little-endian assembly of four
  bytes (`Bytes.LE32`).
- `sizeof(int)` is 4.
- `sizeof(TestData)` is 264: a 4-byte magic, a 4-byte size field and 256
  data bytes, with no padding.
- `uint32_t` and `unsigned` arithmetic wraps modulo 2^32 (`Bytes.Add32`,
  `Bytes.Mul32`).
- `size_t` arithmetic wraps modulo 2^64.
- Converting `uint32_t` to `int` reinterprets the bits as two's complement
  (`Bytes.ToInt32`).
- The signed `int` addition in fuzz_target.cpp is undefined behaviour when it
  overflows, so overflow is its own outcome and is never wrapped.

The LLVM IR is modelled abstractly (module `IR`):
- a module is a name and a sequence of functions;
- a function is a name, an `isDeclaration` flag and the sizes of its basic
  blocks, in order;
- each report is a `(name, count)` value, not a line of text.

The mutator's returned length is `min(MaxSize, Size + 4)`, with `Size + 4`
computed in `size_t`. The model keeps that wrap-around. The result is at
least `Size` whenever `Size + 4` does not wrap (`MutatorGrows`). At the very
top of `size_t` the result falls below `Size` (`MutatorWrapShrinks`).
libFuzzer never passes sizes that large.

## Model

| member | source | states |
|---|---|---|
| `Bytes.ToInt32` | advanced_fuzzing.cpp:55 | converting a `uint32_t` to `int` gives a value in the 32-bit `int` range that is congruent to the unsigned value modulo 2^32 |
| `AdvancedFuzzing.ProcessData` | advanced_fuzzing.cpp:16-37 | returns 0 on fewer than 264 bytes, on a wrong magic, or on a size field of 255 or less; it fails exactly when the magic is 0xDEADBEEF and the size field exceeds 255, and the failure is a stack-buffer overflow whose copy length (the size field) is larger than the 100-byte buffer |
| `AdvancedFuzzing.StepIsOneWrap` | advanced_fuzzing.cpp:45-47 | the two wrapping statements of a checksum round equal one wrap of ((c + b) * 1337) modulo 2^32 |
| `AdvancedFuzzing.FoldConcat` | advanced_fuzzing.cpp:43-48 | the checksum of a concatenation is the fold of the second part resumed from the checksum of the first part |
| `AdvancedFuzzing.FoldIsForward` | advanced_fuzzing.cpp:43-48 | the front-to-back loop shape starting from 0 computes the same fold as the prefix-recursive definition |
| `AdvancedFuzzing.Checksum` | advanced_fuzzing.cpp:40-56 | an empty buffer returns 0; the only crash is `abort()`, taken exactly when the fold equals 0x12345678; otherwise the result is an `int` congruent to the fold modulo 2^32 |
| `AdvancedFuzzing.CalculateChecksum` | advanced_fuzzing.cpp:40-56 | the accumulating loop yields exactly the outcome of the left fold from 0 over the bytes in order (loop invariant: after i bytes the accumulator is the fold of the first i bytes) |
| `AdvancedFuzzing.ChecksumAbortReachable` | advanced_fuzzing.cpp:51-53 | the abort can happen: the bytes 136, 206, 227, 55, 0 fold to 0x12345678 |
| `AdvancedFuzzing.ProcessVector` | advanced_fuzzing.cpp:59-73 | returns 0 on fewer than 4 bytes; reads after `clear()` exactly when the input is longer than 10 bytes and starts 0xFF 0xEE; returns 0 otherwise |
| `AdvancedFuzzing.ComplexLogic` | advanced_fuzzing.cpp:76-103 | returns 0 on fewer than 8 bytes and for any unknown command; commands 0x1000, 0x2000 and 0x3000 give exactly the handler's outcome on the bytes after the header; command 0x4000 aborts exactly when the argument is 0xAABBCCDD, the input is longer than 32 bytes, byte 15 is 0x42 and byte 31 is 0x13, and otherwise returns 0 |
| `AdvancedFuzzing.ComplexLogicCrashes` | advanced_fuzzing.cpp:76-103 | lists every input on which the dispatcher does not return normally, as four conditions on the raw input bytes |
| `AdvancedFuzzing.ProcessDataOverflowReachable` | advanced_fuzzing.cpp:79-84 | a well-formed record sent with command 0x1000 and a size field over 255 always overflows the stack buffer by that size field |
| `AdvancedFuzzing.NestedAbortReachable` | advanced_fuzzing.cpp:89-99 | a 33-byte input with command 0x4000, argument 0xAABBCCDD, byte 15 = 0x42 and byte 31 = 0x13 aborts |
| `AdvancedFuzzing.Harness` | advanced_fuzzing.cpp:106-137 | the entry point returns 0 whenever it returns; it ignores fewer than 4 bytes; it crashes exactly when `complex_logic` crashes on the input, and with that crash |
| `AdvancedFuzzing.FuzzStats.constructor` | advanced_fuzzing.cpp:113-114 | both static counters start at 0 |
| `AdvancedFuzzing.FuzzStats.TestOneInput` | advanced_fuzzing.cpp:106-137 | yields the entry point's outcome; fewer than 4 bytes leave both counters unchanged; otherwise `total_calls` goes up by one (as a `size_t`) and `max_size` becomes the larger of its old value and Size, so it never decreases |
| `AdvancedFuzzing.MutatedLength` | advanced_fuzzing.cpp:161-172 | returns Size unless Size > 0 and MaxSize > Size; in that case, when Size + 4 does not wrap, it returns min(MaxSize, Size + 4), which is above Size and at most MaxSize |
| `AdvancedFuzzing.MutatorGrows` | advanced_fuzzing.cpp:164-171 | when Size + 4 fits in a `size_t`, the returned length is never below Size |
| `AdvancedFuzzing.MutatorWrapShrinks` | advanced_fuzzing.cpp:166-169 | with Size = 2^64 - 4 and MaxSize = 2^64 - 1, Size + 4 wraps and the mutator returns 0 |
| `AdvancedFuzzing.CustomMutator` | advanced_fuzzing.cpp:161-172 | returns the mutated length; byte i is replaced by the (i - Size)-th random byte exactly when Size <= i < result, and every other byte of the buffer, `Data[0..Size)` included, is unchanged |
| `FuzzTarget.AddAndCheck` | fuzz_target.cpp:8-12 | the signed addition overflows exactly when the mathematical sum leaves the `int` range; it traps exactly when the sum is 42; otherwise it returns 0 |
| `FuzzTarget.TestOneInput` | fuzz_target.cpp:4-13 | fewer than 4 bytes return 0 without a read; it reads past the buffer exactly when 4 <= Size < 8; on an in-bounds input it traps exactly when the two `int`s sum to 42, overflows exactly when their sum leaves the `int` range, and otherwise returns 0; no other outcome occurs |
| `FuzzTarget.ShortInputReadsPastEnd` | fuzz_target.cpp:5-7 | a 4-byte input passes the guard, and the second load then reads 4 bytes at offset 4 of a 4-byte buffer |
| `FuzzTarget.TestOneInputGuarded` | fuzz_target.cpp:5-7 | with the guard Size < 8, no input reads out of bounds, and every return is 0 |
| `FuzzTarget.GuardedAgrees` | fuzz_target.cpp:5-7 | the corrected guard differs from the written one only on the inputs that read past the end, where it returns 0 |
| `FuzzTarget.TrapReachable` | fuzz_target.cpp:9-11 | the trap is reached by 42 + 0, and also by -1 + 43 |
| `FuzzTarget.OverflowReachable` | fuzz_target.cpp:8 | INT_MAX + 1 is an overflowing signed addition |
| `FuzzTarget.TrapOnWords` | fuzz_target.cpp:6-10 | on an in-bounds input the trap fires exactly when the two 32-bit words sum to 42 modulo 2^32 and the signed addition does not overflow |
| `IR.InstructionCount` | CountInstructions.cpp:13-16 | a function with no basic blocks counts 0, and a count below 2^32 is exactly the number of instructions |
| `IR.BlockSumConcat` | CountInstructions.cpp:14-16 | the instruction count is additive over a split of the block list |
| `IR.SplitBlockKeepsCount` | CountInstructions.cpp:14-16 | splitting one basic block of x + y instructions into blocks of x and y leaves the function's count unchanged |
| `IR.DefinedMembers` | src/CountInstructions.cpp:16-18 | a function is counted exactly when it is in the module and is not a declaration |
| `IR.FunctionLinesFollowDefined` | src/CountInstructions.cpp:16-26 | there is exactly one function line per defined function, in module order, and each carries that function's count |
| `IR.OnlyDeclarations` | src/CountInstructions.cpp:14-31 | a module that is empty or holds only declarations produces no function line and a total of 0 |
| `IR.TotalOfCounts` | src/CountInstructions.cpp:20-27 | the module total equals the sum, modulo 2^32, of the wrapped per-function counts of the defined functions |
| `IR.PassesAgree` | src/CountInstructions.cpp:16-28 | when declarations have no blocks, the module total equals the sum, modulo 2^32, of what the function pass reports for every function |
| `FunctionPass.RunOnFunction` | CountInstructions.cpp:12-19 | produces exactly one report, carrying the function's name and the sum of its block sizes modulo 2^32, and reports that the function was not modified (loop invariant: after k blocks the count is the sum of their sizes modulo 2^32) |
| `ModulePass.RunOnModule` | src/CountInstructions.cpp:13-33 | reports one line per defined function in module order, each with that function's count, then exactly one module line with the total; it reports that the module was not modified |
| `ModulePass.AddToTotal` | src/CountInstructions.cpp:27 | adding a defined function's wrapped count to the wrapped running total gives the wrapped total of the longer prefix |

## Left out

- examples/llvm_example.cpp is not part of this model. It only calls LLVM's `IRBuilder` and `Module` API and prints, and it has no logic of its own.
- All output text is left out: the statistics line printed every 10000 calls, `LLVMFuzzerInitialize` with its sanitizer detection, and the `errs()` formatting of the passes. Reports are modelled as `(name, count)` values.
- `rand()` in the mutator becomes the parameter `noise`, which gives the k-th random byte. The unused `Seed` parameter is dropped.
- The memory effects of the injected defects are not modelled, only their occurrence as outcomes. This covers what `memcpy` overwrites, the value `ptr[0]` yields after `clear()`, and the bytes read past the buffer.
- AdvancedFuzzing.ProcessData: the `return 1` after the `memcpy` is not modelled, because every path that reaches it has already overflowed the stack buffer, and that overflow is the outcome. The outcome also does not distinguish the source over-read on the same path: `memcpy` reads size-field bytes from offset 8, so a size field above Size - 8 also reads past the end of the input (a 264-byte record with size field 300 reads 8 + 300 - 264 = 44 bytes too many).
- AdvancedFuzzing.ProcessVector: the value `ptr[0]` is not modelled, because `clear()` keeps the capacity and the code does not determine what the read yields.
- The `try`/`catch` of the entry point is not modelled. Only a failed allocation can throw on these paths, and allocation is not modelled.
- Alignment and type punning of the loads, and the cast to `TestData*`, are replaced by explicit little-endian assembly.
- Pass registration (`ID`, `RegisterPass`) is not modelled. The LLVM `Module`, `Function` and `BasicBlock` types are replaced by the abstract values described above.

## Findings

| source | as written | input that shows it | evidently intended | confidence | as-written member | corrected member |
|---|---|---|---|---|---|---|
| fuzz_target.cpp:5-7 | the guard rejects only Size < 4, but the second `int` is loaded from bytes 4..7 | any 4-byte input, e.g. 01 02 03 04: the guard passes and the second load reads past the end | reject Size < 2 * sizeof(int) = 8, so both loads are in bounds | medium (the trap is marked as the injected error, this read is not); not executed | `FuzzTarget.ShortInputReadsPastEnd` | `FuzzTarget.TestOneInputGuarded` |
