/** The module pass of src/CountInstructions.cpp: for every function with a
    body it adds the sizes of its basic blocks into an `unsigned`, reports
    that count, and adds it into a module-wide `unsigned` total, which it
    reports last. Declarations are skipped. */
module ModulePass {
  import opened Bytes
  import opened IR

  /** runOnModule: the report lines, in order, and whether the module was
      changed. */
  method RunOnModule(m: Module) returns (reports: seq<Report>, modified: bool)
    ensures reports == FunctionLines(m.functions) + [ModuleLine(m.name, ModuleTotal(m.functions))]
    ensures !modified
  {
    var fs := m.functions;
    var totalInstructions: U32 := 0;
    reports := [];
    for i := 0 to |fs|
      invariant reports == FunctionLines(fs[..i])
      invariant totalInstructions == ModuleTotal(fs[..i])
    {
      var f := fs[i];
      assert fs[..i + 1][..i] == fs[..i];
      assert fs[..i + 1][i] == f;
      if f.isDeclaration {
        continue;
      }
      var functionInstructions: U32 := 0;
      for k := 0 to |f.blockSizes|
        invariant functionInstructions == BlockSum(f.blockSizes[..k]) % TWO_32
      {
        var prefix := f.blockSizes[..k];
        assert f.blockSizes[..k + 1] == prefix + [f.blockSizes[k]];
        BlockSumSnoc(prefix, f.blockSizes[k]);
        ModAddLeft(BlockSum(prefix), f.blockSizes[k]);
        functionInstructions := Add32(functionInstructions, f.blockSizes[k]);
      }
      assert f.blockSizes[..|f.blockSizes|] == f.blockSizes;
      reports := reports + [FunctionLine(f.name, functionInstructions)];
      AddToTotal(fs[..i], f);
      totalInstructions := Add32(totalInstructions, functionInstructions);
    }
    assert fs[..|fs|] == fs;
    reports := reports + [ModuleLine(m.name, totalInstructions)];
    return reports, false;
  }

  /** One step of the running total: adding a defined function's wrapped
      count to the wrapped total of the functions before it. */
  lemma AddToTotal(fs: seq<Function>, f: Function)
    requires !f.isDeclaration
    ensures ModuleTotal(fs + [f]) == (ModuleTotal(fs) + InstructionCount(f)) % TWO_32
  {
  }
}
