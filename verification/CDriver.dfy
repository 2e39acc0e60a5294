/** The emitter as it runs: inference, then one function after another appended to the output. */
module CDriver {
  import opened CAnalysis
  import opened CEmission
  import opened CInference
  import opened CMachine
  import opened CTypes
  import opened Mir

  lemma {:induction false} EmitInstrsStep(lay: Layout, instrs: seq<Instr>, k: nat)
    requires k < |instrs|
    ensures EmitInstrs(lay, instrs[..k + 1]) == EmitInstrs(lay, instrs[..k]) + EmitInstr(lay, instrs[k])
  {
    hide EmitInstr;
    if k == 0 {
      assert instrs[..1][1..] == [];
    } else {
      EmitInstrsStep(lay, instrs[1..], k - 1);
      assert instrs[..k + 1][1..] == instrs[1..][..k];
      assert instrs[..k][1..] == instrs[1..][..k - 1];
    }
  }

  lemma {:induction false} EmitBlocksStep(lay: Layout, blocks: seq<Block>, isMain: bool, k: nat)
    requires k < |blocks|
    ensures EmitBlocks(lay, blocks[..k + 1], isMain)
            == EmitBlocks(lay, blocks[..k], isMain) + EmitBlock(lay, blocks[k], isMain)
  {
    hide EmitBlock;
    if k == 0 {
      assert blocks[..1][1..] == [];
    } else {
      EmitBlocksStep(lay, blocks[1..], isMain, k - 1);
      assert blocks[..k + 1][1..] == blocks[1..][..k];
      assert blocks[..k][1..] == blocks[1..][..k - 1];
    }
  }

  method AppendBlock(lay: Layout, b: Block, isMain: bool, buf: seq<CStmt>) returns (out: seq<CStmt>)
    ensures out == buf + EmitBlock(lay, b, isMain)
  {
    hide EmitInstr, EmitTerm;
    out := buf + [Label(b.id)];
    ghost var start := out;
    for k := 0 to |b.instrs|
      invariant out == start + EmitInstrs(lay, b.instrs[..k])
    {
      EmitInstrsStep(lay, b.instrs, k);
      out := out + EmitInstr(lay, b.instrs[k]);
    }
    assert b.instrs[..|b.instrs|] == b.instrs;
    out := out + [EmitTerm(b.term, isMain)];
  }

  method FunctionBody(f: Function, lay: Layout) returns (body: seq<CStmt>)
    ensures body == EmitFunction(f, lay).body
  {
    hide EmitBlock, Alias;
    body := [];
    for k := 0 to |f.params|
      invariant body + EmitAliases(f, lay, k) == EmitAliases(f, lay, 0)
    {
      assert EmitAliases(f, lay, k) == [Alias(f, lay, k)] + EmitAliases(f, lay, k + 1);
      body := body + [Alias(f, lay, k)];
    }
    ghost var start := body;
    for k := 0 to |f.blocks|
      invariant body == start + EmitBlocks(lay, f.blocks[..k], IsMain(f))
    {
      EmitBlocksStep(lay, f.blocks, IsMain(f), k);
      body := AppendBlock(lay, f.blocks[k], IsMain(f), body);
    }
    assert f.blocks[..|f.blocks|] == f.blocks;
  }

  /** Functions in module order, each with the last layout recorded under its name. */
  method EmitFunctions(fs: seq<Function>, layouts: map<string, Layout>) returns (prog: seq<CFunction>)
    requires forall f | f in fs :: f.name in layouts
    ensures prog == EmitProgram(fs, layouts)
  {
    hide EmitFunction;
    prog := [];
    for k := 0 to |fs|
      invariant |prog| == k
      invariant forall j | 0 <= j < k :: prog[j] == EmitFunction(fs[j], layouts[fs[j].name])
    {
      var f := fs[k];
      var lay := layouts[f.name];
      var body := FunctionBody(f, lay);
      Assembled(f, lay);
      prog := prog + [CFunction(CName(f.name),
                                if IsMain(f) then Bool else lay.returnTy,
                                if IsMain(f) then [] else ParamTypes(f, lay),
                                body)];
    }
  }

  /**
   The whole emitter, with the inference loop cut off at `limit` passes, at least one. When the loop
   stops and function names are unique, the output is the program the simulation theorems are about.
   */
  method EmitC(fs: seq<Function>, limit: nat)
      returns (prog: seq<CFunction>, layouts: map<string, Layout>, stopped: bool, ghost passes: nat)
    requires 0 < limit
    ensures (forall f | f in fs :: f.name in layouts) && prog == EmitProgram(fs, layouts)
    ensures stopped && UniqueNames(fs) ==> Settled(fs, Passes(fs, passes), layouts)
    ensures forall h: nat :: UniqueNames(fs) && CallHeightAtMost(fs, h) && h + 2 <= limit ==> stopped
  {
    hide Settled, EmitProgram, UniqueNames, CallHeightAtMost, QuietPass;
    var rt, count;
    layouts, rt, count, stopped := AnalyzeModule(fs, limit);
    passes := if count > 0 then count - 1 else 0;
    prog := EmitFunctions(fs, layouts);
  }

  function ParamTypes(f: Function, lay: Layout): seq<CType> {
    seq(|f.params|, k requires 0 <= k < |f.params| => ParamType(lay, k))
  }

  lemma Assembled(f: Function, lay: Layout)
    ensures EmitFunction(f, lay)
            == CFunction(CName(f.name), if IsMain(f) then Bool else lay.returnTy,
                         if IsMain(f) then [] else ParamTypes(f, lay), EmitFunction(f, lay).body)
  {
  }
}
