/** Functions the lowering gets wrong, so that the conditions of its theorems are seen to be needed. */
module WasmGaps {
  import opened Mir
  import opened MirEval
  import opened Options
  import opened WasmLowering
  import opened WasmMachine
  import opened Words

  const BOOL: TypeId := 1
  const INT: TypeId := 11

  /** fn(a: bool, b: bool) { a && b } */
  const CONJUNCTION := Function(
    "both",
    [Param("a", 0, BOOL), Param("b", 1, BOOL)],
    BOOL,
    [Block(0, [Instr(2, BOOL, Binary(And, 0, 1))], Terminator.Return(2))],
    0)

  /** fn(a: i64) { a - 5 }, the constant materialised before the parameter is fetched. */
  const DIFFERENCE := Function(
    "minus_five",
    [Param("a", 0, INT)],
    INT,
    [Block(0, [Instr(1, INT, ConstInt(5)), Instr(2, INT, Binary(Sub, 0, 1))], Terminator.Return(2))],
    0)

  /** A disciplined function whose logical operator comes out as an addition: true && true is 2. */
  lemma ConjunctionAdds()
    ensures Disciplined(CONJUNCTION)
    ensures EvalEntryBlock(W64, CONJUNCTION, [BoolV(true), BoolV(true)]) == Some(BoolV(true))
    ensures Run(LowerFunction(CONJUNCTION), [1, 1], []) == Some(2)
  {
    var ps := CONJUNCTION.params;
    var block := CONJUNCTION.blocks[0];
    assert ps[..1][..0] == [] && ps[..1] == [ps[0]];
    assert ParamMap(ps[..1]) == map[0 := 0];
    assert ParamMap(ps) == map[0 := 0, 1 := 1];
    var args := [BoolV(true), BoolV(true)];
    assert args[..1] == [BoolV(true)];
    assert Bind(ps[..1], args[..1]) == map[0 := BoolV(true)];
    assert Bind(ps, args) == map[0 := BoolV(true), 1 := BoolV(true)];
    assert block.instrs[1..] == [] && CONJUNCTION.blocks[1..] == [];
    var vm := ParamMap(ps);
    var none: seq<ValueId> := [];
    assert none + [2] == [2];
    assert TrackInstr(vm, none, block.instrs[0]) == Some([2]);
    assert EvalInstrs(W64, Bind(ps, args), block.instrs) ==
           Some(map[0 := BoolV(true), 1 := BoolV(true), 2 := BoolV(true)]);
    var code := [LocalGet(0), LocalGet(1), Numeric(I32Add), WasmInstr.Return];
    assert LowerInstrs(vm, block.instrs) == [LocalGet(0), LocalGet(1), Numeric(I32Add)];
    assert LowerBlocks(vm, CONJUNCTION.blocks) == LowerBlock(vm, block) + [];
    assert LowerFunction(CONJUNCTION) == code;
    assert code[1..][1..][1..] == [WasmInstr.Return];
    assert Run(code[1..][1..][1..], [1, 1], [2]) == Some(2);
    assert Run(code[1..][1..], [1, 1], [1, 1]) == Some(2);
    assert Run(code[1..], [1, 1], [1]) == Some(2);
  }

  lemma DifferenceCode()
    ensures ParamMap(DIFFERENCE.params) == map[0 := 0]
    ensures LowerFunction(DIFFERENCE) == [I32Const(5), LocalGet(0), Numeric(I32Sub), WasmInstr.Return]
  {
    var ps := DIFFERENCE.params;
    var instrs := DIFFERENCE.blocks[0].instrs;
    assert ps[..0] == [];
    var vm := ParamMap(ps);
    assert ParamMap(ps[..0]) == map[];
    assert vm == map[0 := 0];
    assert instrs[1..][1..] == [] && DIFFERENCE.blocks[1..] == [];
    assert LowerInstrs(vm, instrs[1..]) == [LocalGet(0), Numeric(I32Sub)];
    assert LowerInstrs(vm, instrs) == [I32Const(5), LocalGet(0), Numeric(I32Sub)];
    assert LowerBlocks(vm, DIFFERENCE.blocks) == LowerBlock(vm, DIFFERENCE.blocks[0]) + [];
  }

  lemma DifferenceEvaluates(a: i64)
    ensures EvalEntryBlock(W64, DIFFERENCE, [IntV(a)]) == Some(IntV(Wrap64(a - 5)))
  {
    var ps := DIFFERENCE.params;
    var instrs := DIFFERENCE.blocks[0].instrs;
    assert ps[..0] == [] && [IntV(a)][..0] == [];
    assert Bind(ps, [IntV(a)]) == map[0 := IntV(a)];
    assert instrs[1..][1..] == [];
    assert EvalInstrs(W64, map[0 := IntV(a), 1 := IntV(5)], instrs[1..]) ==
           Some(map[0 := IntV(a), 1 := IntV(5), 2 := IntV(Wrap64(a - 5))]);
  }

  /** A parameter on the left of an operator that does not commute: a - 5 comes out as 5 - a. */
  lemma DifferenceSwaps(a: i32)
    ensures !Disciplined(DIFFERENCE)
    ensures EvalEntryBlock(W64, DIFFERENCE, [IntV(a)]) == Some(IntV(a - 5))
    ensures Run(LowerFunction(DIFFERENCE), [a], []) == Some(Wrap32(5 - a))
  {
    DifferenceCode();
    DifferenceUndisciplined();
    DifferenceEvaluates(a);
    assert Wrap64(a - 5) == a - 5;
    hide Run, LowerFunction, Disciplined, EvalEntryBlock, Wrap32;
    DifferenceRuns(a);
  }

  lemma DifferenceUndisciplined()
    ensures !Disciplined(DIFFERENCE)
  {
    hide LowerFunction;
    DifferenceCode();
    var instrs := DIFFERENCE.blocks[0].instrs;
    var none: seq<ValueId> := [];
    assert none + [1] == [1];
    assert TrackInstr(map[0 := 0], none, instrs[0]) == Some([1]);
    assert TrackInstr(map[0 := 0], [1], instrs[1]) == None;
    assert Track(map[0 := 0], [1], instrs[1..]) == None;
    assert Track(map[0 := 0], none, instrs) == None;
  }

  lemma DifferenceRuns(a: i32)
    ensures Run([I32Const(5), LocalGet(0), Numeric(I32Sub), WasmInstr.Return], [a], []) == Some(Wrap32(5 - a))
  {
    var code := [I32Const(5), LocalGet(0), Numeric(I32Sub), WasmInstr.Return];
    assert code[1..] == [LocalGet(0), Numeric(I32Sub), WasmInstr.Return];
    assert code[2..] == [Numeric(I32Sub), WasmInstr.Return] == code[1..][1..];
    assert code[3..] == [WasmInstr.Return] == code[2..][1..];
    var s0: seq<i32>, s1: seq<i32>, s2: seq<i32> := [], [5], [5, a];
    var s3: seq<i32> := [Wrap32(5 - a)];
    assert s0 + [5] == s1 && s1 + [a] == s2;
    assert Step(code[0], [a], s0) == Some(s1);
    assert Step(code[1], [a], s1) == Some(s2);
    assert s2[..0] + [Wrap32(5 - a)] == s3;
    assert Step(code[2], [a], s2) == Some(s3);
    assert Run(code[3..], [a], s3) == Some(Wrap32(5 - a));
    assert Run(code[2..], [a], s2) == Some(Wrap32(5 - a));
    assert Run(code[1..], [a], s1) == Some(Wrap32(5 - a));
  }
}
