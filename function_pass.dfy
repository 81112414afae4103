/** The function pass of CountInstructions.cpp: it walks one function's
    basic blocks, adds their sizes into an `unsigned`, and reports one line. */
module FunctionPass {
  import opened Bytes
  import opened IR

  /** runOnFunction: the report line, and whether the function was changed.
      The pass does not consult isDeclaration: a declaration has no blocks
      and reports 0. */
  method RunOnFunction(f: Function) returns (report: Report, modified: bool)
    ensures report == FunctionLine(f.name, InstructionCount(f))
    ensures !modified
  {
    var instCount: U32 := 0;
    for k := 0 to |f.blockSizes|
      invariant instCount == BlockSum(f.blockSizes[..k]) % TWO_32
    {
      var prefix := f.blockSizes[..k];
      assert f.blockSizes[..k + 1] == prefix + [f.blockSizes[k]];
      BlockSumSnoc(prefix, f.blockSizes[k]);
      ModAddLeft(BlockSum(prefix), f.blockSizes[k]);
      instCount := Add32(instCount, f.blockSizes[k]);
    }
    assert f.blockSizes[..|f.blockSizes|] == f.blockSizes;
    return FunctionLine(f.name, instCount), false;
  }
}
