/** The part of LLVM's IR that the instruction-counting passes observe: a
    module is a named sequence of functions, and a function is a name, whether
    it is only a declaration, and the number of instructions in each of its
    basic blocks, in order. The passes' diagnostic lines are (name, count)
    reports. Counts are `unsigned`, so they wrap modulo 2^32. */
module IR {
  import opened Bytes

  datatype Function = Function(name: string, isDeclaration: bool, blockSizes: seq<nat>)

  datatype Module = Module(name: string, functions: seq<Function>)

  /** "Function <name> has <count> instructions." and
      "Module <name> has <total> total instructions." */
  datatype Report =
    | FunctionLine(functionName: string, count: U32)
    | ModuleLine(moduleName: string, total: U32)

  /** In LLVM a declaration is a function without a body: no basic blocks. */
  predicate WellFormed(f: Function) {
    f.isDeclaration ==> f.blockSizes == []
  }

  /** The number of instructions in a list of blocks (no wrap). */
  function BlockSum(sizes: seq<nat>): (total: nat)
    decreases |sizes|
  {
    if sizes == [] then 0 else BlockSum(sizes[..|sizes| - 1]) + sizes[|sizes| - 1]
  }

  lemma BlockSumSnoc(sizes: seq<nat>, n: nat)
    ensures BlockSum(sizes + [n]) == BlockSum(sizes) + n
  {
  }

  /** Counting is additive over a split of the block list. */
  lemma {:induction false} BlockSumConcat(a: seq<nat>, b: seq<nat>)
    ensures BlockSum(a + b) == BlockSum(a) + BlockSum(b)
    decreases |b|
  {
    if b == [] {
      assert a + b == a;
    } else {
      var init := b[..|b| - 1];
      var last := b[|b| - 1];
      assert b == init + [last];
      assert a + b == (a + init) + [last];
      BlockSumConcat(a, init);
      BlockSumSnoc(a + init, last);
      BlockSumSnoc(init, last);
    }
  }

  /** The count does not depend on how the instructions are grouped into
      blocks: splitting one block in two keeps the function's count. */
  lemma SplitBlockKeepsCount(f: Function, before: seq<nat>, x: nat, y: nat, after: seq<nat>)
    requires f.blockSizes == before + [x + y] + after
    ensures InstructionCount(f) ==
      InstructionCount(Function(f.name, f.isDeclaration, before + [x, y] + after))
  {
    BlockSumConcat(before + [x + y], after);
    BlockSumConcat(before + [x, y], after);
    BlockSumConcat(before, [x + y]);
    BlockSumConcat(before, [x, y]);
    assert BlockSum([x, y]) == x + y by { assert [x, y][..1] == [x]; }
  }

  /** A function's instruction count as the `unsigned` the passes keep it in. */
  function InstructionCount(f: Function): (c: U32)
    ensures f.blockSizes == [] ==> c == 0
    ensures BlockSum(f.blockSizes) < TWO_32 ==> c == BlockSum(f.blockSizes)
  {
    BlockSum(f.blockSizes) % TWO_32
  }

  /** The functions of fs that have a body, in their order in fs. */
  function Defined(fs: seq<Function>): (d: seq<Function>)
    decreases |fs|
  {
    if fs == [] then []
    else
      var last := fs[|fs| - 1];
      Defined(fs[..|fs| - 1]) + (if last.isDeclaration then [] else [last])
  }

  /** A function is kept exactly when it occurs in fs and is not a
      declaration. */
  lemma {:induction false} DefinedMembers(fs: seq<Function>, f: Function)
    ensures f in Defined(fs) <==> f in fs && !f.isDeclaration
    decreases |fs|
  {
    if fs != [] {
      var init, last := fs[..|fs| - 1], fs[|fs| - 1];
      DefinedMembers(init, f);
      assert fs == init + [last];
    }
  }

  /** All instructions of the defined functions of fs (no wrap). */
  function DefinedSum(fs: seq<Function>): (total: nat)
    decreases |fs|
  {
    if fs == [] then 0
    else
      var last := fs[|fs| - 1];
      DefinedSum(fs[..|fs| - 1]) + (if last.isDeclaration then 0 else BlockSum(last.blockSizes))
  }

  /** The module total the module pass reports. */
  function ModuleTotal(fs: seq<Function>): (total: U32) {
    DefinedSum(fs) % TWO_32
  }

  /** The per-function lines the module pass reports, in module order. */
  function FunctionLines(fs: seq<Function>): (lines: seq<Report>)
    decreases |fs|
  {
    if fs == [] then []
    else
      var last := fs[|fs| - 1];
      FunctionLines(fs[..|fs| - 1])
        + (if last.isDeclaration then [] else [FunctionLine(last.name, InstructionCount(last))])
  }

  /** Sum of the per-function counts, each already wrapped (no wrap of the
      sum itself). */
  function CountSum(fs: seq<Function>): (total: nat)
    decreases |fs|
  {
    if fs == [] then 0 else CountSum(fs[..|fs| - 1]) + InstructionCount(fs[|fs| - 1])
  }

  /** The function lines are exactly one line per defined function, in
      module order, each carrying that function's count. */
  lemma {:induction false} FunctionLinesFollowDefined(fs: seq<Function>)
    ensures |FunctionLines(fs)| == |Defined(fs)|
    ensures forall i :: 0 <= i < |Defined(fs)| ==>
      FunctionLines(fs)[i] == FunctionLine(Defined(fs)[i].name, InstructionCount(Defined(fs)[i]))
    decreases |fs|
  {
    if fs != [] {
      FunctionLinesFollowDefined(fs[..|fs| - 1]);
    }
  }

  /** A module holding only declarations reports no function line and a
      total of 0. */
  lemma {:induction false} OnlyDeclarations(fs: seq<Function>)
    requires forall f :: f in fs ==> f.isDeclaration
    ensures FunctionLines(fs) == [] && Defined(fs) == [] && ModuleTotal(fs) == 0
    decreases |fs|
  {
    if fs != [] {
      assert forall f :: f in fs[..|fs| - 1] ==> f in fs;
      OnlyDeclarations(fs[..|fs| - 1]);
    }
  }

  /** Adding the wrapped per-function counts and wrapping the sum gives the
      wrapped sum of all instructions: the order of wraps does not matter. */
  lemma {:induction false} TotalOfCounts(fs: seq<Function>)
    ensures ModuleTotal(fs) == CountSum(Defined(fs)) % TWO_32
    decreases |fs|
  {
    if fs != [] {
      var init, last := fs[..|fs| - 1], fs[|fs| - 1];
      TotalOfCounts(init);
      if !last.isDeclaration {
        var d := Defined(init);
        var x, y, z := CountSum(d), BlockSum(last.blockSizes), DefinedSum(init);
        assert (d + [last])[..|d|] == d;
        assert Defined(fs) == d + [last];
        assert CountSum(d + [last]) == x + y % TWO_32;
        assert DefinedSum(fs) == z + y;
        var total := DefinedSum(fs);
        assert ModuleTotal(fs) == total % TWO_32;
        assert total == z + y;
        SumCongruent(x, z, y);
      } else {
        assert Defined(fs) == Defined(init) + [];
        assert DefinedSum(fs) == DefinedSum(init);
        assert Defined(fs) == Defined(init);
      }
    }
  }

  /** Adding y to two values congruent modulo 2^32, once reduced, once not. */
  lemma SumCongruent(x: nat, z: nat, y: nat)
    requires z % TWO_32 == x % TWO_32
    ensures (x + y % TWO_32) % TWO_32 == (z + y) % TWO_32
  {
  }

  /** On well-formed functions, the module pass's total is what running the
      function pass on every function, declarations included, and adding the
      counts in an `unsigned` gives. */
  lemma {:induction false} PassesAgree(fs: seq<Function>)
    requires forall f :: f in fs ==> WellFormed(f)
    ensures ModuleTotal(fs) == CountSum(fs) % TWO_32
    decreases |fs|
  {
    if fs != [] {
      var init, last := fs[..|fs| - 1], fs[|fs| - 1];
      assert forall f :: f in init ==> f in fs;
      PassesAgree(init);
      assert last in fs;
      var x, y, z := CountSum(init), BlockSum(last.blockSizes), DefinedSum(init);
      assert CountSum(fs) == x + y % TWO_32;
      assert DefinedSum(fs) == z + (if last.isDeclaration then 0 else y);
      SumCongruent(x, z, y);
      if last.isDeclaration {
        assert BlockSum(last.blockSizes) == 0;
      }
    }
  }
}
