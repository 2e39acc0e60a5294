/**
 Functions the C emitter gets wrong, so that the conditions of its theorems are seen to be needed. They
 stand without the unreachable blocks that lowering adds after a `return`, and with blocks renumbered.
 */
module CGaps {
  import opened CCopies
  import opened CCorrectness
  import opened CEmission
  import opened CInference
  import opened CLegal
  import opened CMachine
  import opened CNames
  import opened CReturns
  import opened CStructs
  import opened CTypes
  import opened Mir
  import opened MirEval
  import opened MirMachine
  import opened Options
  import opened Words

  // ----- one name, two declarations

  /** fn pick(c) { if c { let t = 1; return t } let t = 2; return t } */
  const TWO_LETS := Function("pick", [Param("c", 0, BOOL)], INT,
    [Block(0, [Instr(1, BOOL, LoadLocal("c"))], Terminator.Branch(1, 1, 2)),
     Block(1,
       [Instr(2, INT, Alloca("t", INT)), Instr(3, INT, ConstInt(1)), Instr(4, INT, StoreLocal("t", 3)),
        Instr(5, INT, LoadLocal("t"))], Terminator.Return(5)),
     Block(2,
       [Instr(6, INT, Alloca("t", INT)), Instr(7, INT, ConstInt(2)), Instr(8, INT, StoreLocal("t", 7)),
        Instr(9, INT, LoadLocal("t"))], Terminator.Return(9))], 0)

  /** Allocating under a name, or one that mangles alike, a second time declares a C variable twice. */
  lemma SecondAllocationRejected(f: Function, lay: Layout, j: nat, k: nat)
    requires AllEmittable(f.blocks) && j < k < |Lines(f.blocks)|
    requires var lines := Lines(f.blocks);
             && lines[j].Does? && lines[j].instr.op.Alloca? && lines[k].Does? && lines[k].instr.op.Alloca?
             && LocalName(lines[j].instr.op.slot) == LocalName(lines[k].instr.op.slot)
    ensures !Legal(EmitFunction(f, lay))
  {
    var lines := Lines(f.blocks);
    assert lines[j] in lines[..k];
    assert !LineOk(f, lines[..k], lines[k]);
    hide Lines, LineOk, EmitFunction, Legal, LocalName;
    EmittedLegal(f, lay);
  }

  lemma ThreeBlocks(a: Block, b: Block, c: Block)
    ensures Lines([a, b, c]) == BlockLines(a) + BlockLines(b) + BlockLines(c)
  {
    hide BlockLines;
    assert [a, b, c][1..] == [b, c] && [b, c][1..] == [c] && [c][1..] == [];
    assert Lines([c]) == BlockLines(c);
    assert Lines([b, c]) == BlockLines(b) + BlockLines(c);
  }

  /** Two `let`s of one name in different scopes reach the emitter as two allocations of it. */
  lemma TwoLetsRejected(lay: Layout)
    ensures !Compilable(TWO_LETS) && !Legal(EmitFunction(TWO_LETS, lay))
  {
    var b := TWO_LETS.blocks;
    ThreeBlocks(b[0], b[1], b[2]);
    assert b == [b[0], b[1], b[2]];
    var lines := Lines(b);
    hide Lines, EmitFunction, Legal, Compilable, LocalName;
    assert lines[4] == Does(b[1].instrs[0]) && lines[10] == Does(b[2].instrs[0]);
    assert AllEmittable(b);
    SecondAllocationRejected(TWO_LETS, lay, 4, 10);
    EmittedLegal(TWO_LETS, lay);
  }

  // ----- returns of two kinds

  const WIDE: i64 := 0x1_0000_0001

  /** fn mixed(c) { if c { return 4294967297 } return true } */
  const MIXED := Function("mixed", [Param("c", 0, BOOL)], INT,
    [Block(0, [Instr(1, BOOL, LoadLocal("c"))], Terminator.Branch(1, 1, 2)),
     Block(1, [Instr(2, INT, ConstInt(WIDE))], Terminator.Return(2)),
     Block(2, [Instr(3, BOOL, ConstBool(true))], Terminator.Return(3))], 0)

  /** The MIR run on `true` returns the integer. */
  lemma MixedReturnsWide()
    ensures var s := Start(MIXED, [BoolV(true)]);
            && s.Some? && Steps([MIXED], s.value, 4).Some?
            && Steps([MIXED], s.value, 4).value.Done?
            && Steps([MIXED], s.value, 4).value.result == IntV(WIDE)
  {
    var fs := [MIXED];
    var b := MIXED.blocks;
    assert FindBlock(b, 0) == Some(b[0]);
    assert b[1..][0] == b[1];
    assert FindBlock(b, 1) == Some(b[1]);
    assert BindLocals(MIXED.params, [BoolV(true)]) == map["c" := BoolV(true)] by {
      assert MIXED.params[..0] == [] && [BoolV(true)][..0] == [];
    }
    var s0 := Start(MIXED, [BoolV(true)]).value;
    hide Bind, BindLocals, FindBlock;
    assert s0.top.instrs == b[0].instrs;
    var s1 := MirMachine.Step(fs, s0).value;
    assert s1.top.instrs == [] && s1.top.vals[1] == BoolV(true);
    var s2 := MirMachine.Step(fs, s1).value;
    assert s2.top.instrs == b[1].instrs && s2.top.term == Terminator.Return(2);
    var s3 := MirMachine.Step(fs, s2).value;
    assert s3.top.instrs == [] && s3.top.vals[2] == IntV(WIDE);
    assert MirMachine.Step(fs, s3).value.Done?;
    assert Steps(fs, s0, 1) == Some(s1) by {
      assert Steps(fs, s0, 0) == Some(s0);
    }
    hide MirMachine.Step;
    assert Steps(fs, s0, 2) == Some(s2);
    assert Steps(fs, s0, 3) == Some(s3);
  }

  lemma MixedInstrs()
    ensures AllInstrs(MIXED.blocks) == MIXED.blocks[0].instrs + MIXED.blocks[1].instrs + MIXED.blocks[2].instrs
  {
    var b := MIXED.blocks;
    assert b[..2][..1][..0] == [] && b[..2][..1] == [b[0]] && b[..2] == [b[0], b[1]];
    assert AllInstrs([]) == [];
    assert AllInstrs([b[0]]) == b[0].instrs;
    assert AllInstrs([b[0], b[1]]) == b[0].instrs + b[1].instrs;
  }

  lemma MixedSeeded()
    ensures Seeded(MIXED).params == [Bool] && Seeded(MIXED).LocalType("c") == Some(Bool)
  {
    MixedInstrs();
    var all := AllInstrs(MIXED.blocks);
    hide AllInstrs;
    SeededHas(MIXED);
    assert InitialLayout(MIXED).params == [Bool];
    SeedMarks(MIXED, all);
    hide MarksOf, Copied, SeedHas, Seed, InitialLayout;
    var lay := Seed(MIXED, InitialLayout(MIXED), all);
    assert BindParams(MIXED, lay, 1).LocalType("c") == Some(lay.params[0]);
  }

  /** The types the inference settles on, whatever the rest of the module returns. */
  lemma MixedLayout(rt: Returns)
    ensures var lay := Analysis(MIXED, rt);
            && lay.params == [Bool] && lay.returnTy == Bool
            && lay.ValueType(1) == Bool && lay.ValueType(2) == Int && lay.ValueType(3) == Bool
            && ReturnsPlain(MIXED.blocks, lay) && CReturns.Returns(MIXED.blocks, lay, Bool)
  {
    var all := AllInstrs(MIXED.blocks);
    MixedInstrs();
    MixedSeeded();
    var b := MIXED.blocks;
    hide AllInstrs, Seeded;
    InferNothing(Seeded(MIXED), rt, all);
    InferPrefix(Seeded(MIXED), rt, all, 0);
    InferPrefix(Seeded(MIXED), rt, all, 1);
    InferPrefix(Seeded(MIXED), rt, all, 2);
    assert all[..3] == all;
    hide InferInstrs;
    var lay := Analysis(MIXED, rt);
    assert b[1] in b && b[2] in b;
    assert CReturns.Returns(b, lay, Bool) by {
      assert lay.ValueType(b[2].term.returned) == Bool;
    }
    assert ReturnsPlain(b, lay);
    hide Analysis;
    MixedReturnsAreBool(MIXED, rt);
  }

  /** The printed body, with its five variables. */
  ghost predicate MixedBody(body: seq<CStmt>, p: string, l: string, n1: string, n2: string, n3: string) {
    body == [Decl(Bool, l, Var(p)), Label(0), Decl(Bool, n1, Var(l)), IfGoto(n1, 1, 2),
             Label(1), Decl(Int, n2, Lit(WIDE)), ReturnVar(n2),
             Label(2), Decl(Bool, n3, Lit(1)), ReturnVar(n3)]
  }

  lemma MixedAliases(lay: Layout)
    requires lay.params == [Bool]
    ensures EmitAliases(MIXED, lay, 0) == [Decl(Bool, LocalName("c"), Var(ParamName(0)))]
  {
    hide LocalName, ParamName;
    assert EmitAliases(MIXED, lay, 1) == [];
  }

  lemma OneInstrBlock(lay: Layout, b: Block)
    requires |b.instrs| == 1
    ensures EmitBlock(lay, b, false) == [Label(b.id)] + EmitInstr(lay, b.instrs[0]) + [EmitTerm(b.term, false)]
  {
    hide EmitInstr, EmitTerm;
    assert b.instrs[1..] == [];
    assert EmitInstrs(lay, []) == [];
    assert EmitInstrs(lay, b.instrs) == EmitInstr(lay, b.instrs[0]);
  }

  lemma EmitThree(lay: Layout, a: Block, b: Block, c: Block)
    ensures EmitBlocks(lay, [a, b, c], false)
         == EmitBlock(lay, a, false) + (EmitBlock(lay, b, false) + EmitBlock(lay, c, false))
  {
    hide EmitBlock;
    assert [a, b, c][1..] == [b, c] && [b, c][1..] == [c] && [c][1..] == [];
    assert EmitBlocks(lay, [c], false) == EmitBlock(lay, c, false);
    assert EmitBlocks(lay, [b, c], false) == EmitBlock(lay, b, false) + EmitBlock(lay, c, false);
  }

  lemma MixedBlocks(lay: Layout)
    requires lay.returnTy == Bool
    requires lay.ValueType(1) == Bool && lay.ValueType(2) == Int && lay.ValueType(3) == Bool
    ensures var b, l, n1, n2, n3 := MIXED.blocks, LocalName("c"), ValueName(1), ValueName(2), ValueName(3);
            && EmitBlock(lay, b[0], false) == [Label(0), Decl(Bool, n1, Var(l)), IfGoto(n1, 1, 2)]
            && EmitBlock(lay, b[1], false) == [Label(1), Decl(Int, n2, Lit(WIDE)), ReturnVar(n2)]
            && EmitBlock(lay, b[2], false) == [Label(2), Decl(Bool, n3, Lit(1)), ReturnVar(n3)]
  {
    hide ValueName, LocalName, EmitBlock;
    OneInstrBlock(lay, MIXED.blocks[0]);
    OneInstrBlock(lay, MIXED.blocks[1]);
    OneInstrBlock(lay, MIXED.blocks[2]);
  }

  lemma MixedEmitted(lay: Layout)
    requires lay.params == [Bool] && lay.returnTy == Bool
    requires lay.ValueType(1) == Bool && lay.ValueType(2) == Int && lay.ValueType(3) == Bool
    ensures var cf := EmitFunction(MIXED, lay);
            && cf.params == [Bool] && cf.ret == Bool
            && MixedBody(cf.body, ParamName(0), LocalName("c"), ValueName(1), ValueName(2), ValueName(3))
  {
    hide ValueName, LocalName, ParamName, EmitAliases, EmitBlocks, EmitBlock;
    var b := MIXED.blocks;
    MixedAliases(lay);
    EmitThree(lay, b[0], b[1], b[2]);
    MixedBlocks(lay);
    assert b == [b[0], b[1], b[2]];
  }

  /** Alias, label and load. */
  lemma MixedEnterRuns(prog: seq<CFunction>, cf: CFunction, p: string, l: string, n1: string, n2: string, n3: string)
      returns (at: CState)
    requires MixedBody(cf.body, p, l, n1, n2, n3) && p != l && p != n1 && l != n1
    ensures CSteps(prog, CRunning(CFrame(cf, map[p := Cell(Bool, Whole(1))], cf.body), [], []), 3) == Some(at)
    ensures at == CRunning(CFrame(cf, at.top.vars, cf.body[3..]), [], [(cf.name, 0)])
    ensures n1 in at.top.vars && at.top.vars[n1] == Cell(Bool, Whole(1))
  {
    var body := cf.body;
    GotoOne(body, p, l, n1, n2, n3);
    hide FindLabel, CSteps, MixedBody;
    var vars0 := map[p := Cell(Bool, Whole(1))];
    var vars1 := vars0[l := Cell(Bool, Whole(1))];
    var s0 := CRunning(CFrame(cf, vars0, body), [], []);
    var s1 := CRunning(CFrame(cf, vars1, body[1..]), [], []);
    var s2 := CRunning(CFrame(cf, vars1, body[2..]), [], [(cf.name, 0)]);
    assert [] + [(cf.name, 0)] == [(cf.name, 0)];
    at := CRunning(CFrame(cf, vars1[n1 := Cell(Bool, Whole(1))], body[3..]), [], [(cf.name, 0)]);
    assert body[1..][1..] == body[2..] && body[2..][1..] == body[3..];
    assert CStep(prog, s0) == Some(s1);
    assert CStep(prog, s1) == Some(s2);
    assert CStep(prog, s2) == Some(at);
    hide CStep;
    CStepsFirst(prog, s0, s1, 2);
    CStepsFirst(prog, s1, s2, 1);
    CStepsFirst(prog, s2, at, 0);
    NoSteps(prog, at);
  }

  /** Branch, label and constant. */
  lemma MixedBranchRuns(prog: seq<CFunction>, cf: CFunction, p: string, l: string, n1: string, n2: string, n3: string,
                        s: CState)
      returns (at: CState)
    requires MixedBody(cf.body, p, l, n1, n2, n3) && s.CRunning?
    requires s == CRunning(CFrame(cf, s.top.vars, cf.body[3..]), [], [(cf.name, 0)])
    requires n1 in s.top.vars && s.top.vars[n1] == Cell(Bool, Whole(1))
    ensures CSteps(prog, s, 3) == Some(at)
    ensures at.CRunning? && at.top.fn == cf && at.callers == [] && at.top.rest != [] && at.top.rest[0] == ReturnVar(n2)
    ensures n2 in at.top.vars && at.top.vars[n2] == Cell(Int, Whole(WIDE))
  {
    var body, vars := cf.body, s.top.vars;
    GotoOne(body, p, l, n1, n2, n3);
    hide FindLabel, CSteps, MixedBody;
    var s1 := CRunning(CFrame(cf, vars, body[4..]), [], s.trace);
    var s2 := CRunning(CFrame(cf, vars, body[5..]), [], s.trace + [(cf.name, 1)]);
    at := CRunning(CFrame(cf, vars[n2 := Cell(Int, Whole(WIDE))], body[6..]), [], s.trace + [(cf.name, 1)]);
    assert body[4..][1..] == body[5..] && body[5..][1..] == body[6..];
    assert CStep(prog, s) == Some(s1);
    assert CStep(prog, s1) == Some(s2);
    assert CStep(prog, s2) == Some(at);
    hide CStep;
    CStepsFirst(prog, s, s1, 2);
    CStepsFirst(prog, s1, s2, 1);
    CStepsFirst(prog, s2, at, 0);
    NoSteps(prog, at);
  }

  lemma NoSteps(prog: seq<CFunction>, s: CState)
    ensures CSteps(prog, s, 0) == Some(s)
  {
  }

  lemma GotoOne(body: seq<CStmt>, p: string, l: string, n1: string, n2: string, n3: string)
    requires MixedBody(body, p, l, n1, n2, n3)
    ensures |body| == 10 && FindLabel(body, 1) == Some(body[4..])
    ensures body[0] == Decl(Bool, l, Var(p)) && body[1] == Label(0) && body[2] == Decl(Bool, n1, Var(l))
    ensures body[3] == IfGoto(n1, 1, 2) && body[4] == Label(1) && body[5] == Decl(Int, n2, Lit(WIDE))
    ensures body[6] == ReturnVar(n2)
  {
    assert body[1..][1..] == body[2..] && body[2..][1..] == body[3..] && body[3..][1..] == body[4..];
    assert FindLabel(body[4..], 1) == Some(body[4..]);
    assert FindLabel(body[3..], 1) == Some(body[4..]);
    assert FindLabel(body[2..], 1) == Some(body[4..]);
    assert FindLabel(body[1..], 1) == Some(body[4..]);
  }

  /** The emitted function, called with the same argument, returns 1 where the MIR returns 2^32 + 1. */
  lemma MixedRunTruncates(rt: Returns, prog: seq<CFunction>)
    ensures var s := CStart(MIXED, Analysis(MIXED, rt), [BoolV(true)]);
            && s.Some? && CSteps(prog, s.value, 7).Some?
            && CSteps(prog, s.value, 7).value.CDone? && CSteps(prog, s.value, 7).value.result == Whole(1)
  {
    var lay := Analysis(MIXED, rt);
    var cf := EmitFunction(MIXED, lay);
    var s := CRunning(CFrame(cf, map[ParamName(0) := Cell(Bool, Whole(1))], cf.body), [], []);
    hide *;
    MixedLayout(rt);
    MixedEmitted(lay);
    SpacesDisjoint(1, "c", 0);
    MixedEnters(lay);
    var mid := MixedEnterRuns(prog, cf, ParamName(0), LocalName("c"), ValueName(1), ValueName(2), ValueName(3));
    var at := MixedBranchRuns(prog, cf, ParamName(0), LocalName("c"), ValueName(1), ValueName(2), ValueName(3), mid);
    var end := MixedLast(rt, prog, at);
    ThreeThreeOne(prog, s, mid, at, end);
  }

  lemma ThreeThreeOne(prog: seq<CFunction>, s: CState, mid: CState, at: CState, end: CState)
    requires CSteps(prog, s, 3) == Some(mid) && CSteps(prog, mid, 3) == Some(at) && CStep(prog, at) == Some(end)
    ensures CSteps(prog, s, 7) == Some(end)
  {
    hide *;
    CStepsAdd(prog, s, 3, 3);
    CStepsFirst(prog, at, end, 0);
    NoSteps(prog, end);
    CStepsAdd(prog, s, 6, 1);
  }

  lemma MixedLast(rt: Returns, prog: seq<CFunction>, at: CState) returns (end: CState)
    requires at.CRunning? && at.top.fn == EmitFunction(MIXED, Analysis(MIXED, rt)) && at.callers == []
    requires at.top.rest != [] && at.top.rest[0] == ReturnVar(ValueName(2))
    requires ValueName(2) in at.top.vars && at.top.vars[ValueName(2)] == Cell(Int, Whole(WIDE))
    ensures CStep(prog, at) == Some(end) && end.CDone? && end.result == Whole(1)
  {
    hide Analysis, EmitFunction, ValueName, CStep, ReturnsPlain, CReturns.Returns;
    MixedLayout(rt);
    MixedReturnLosesBits(MIXED, rt, prog, at, 2, WIDE);
    end := CStep(prog, at).value;
  }

  lemma MixedEnters(lay: Layout)
    requires EmitFunction(MIXED, lay).params == [Bool]
    ensures var cf := EmitFunction(MIXED, lay);
            CStart(MIXED, lay, [BoolV(true)])
            == Some(CRunning(CFrame(cf, map[ParamName(0) := Cell(Bool, Whole(1))], cf.body), [], []))
  {
    hide ParamName, EmitFunction;
    var data := ArgData(lay, [BoolV(true)]);
    assert data == [Whole(1)] && [Bool][..0] == [] && data[..0] == [];
    assert BindArgs([], []) == Some(map[]);
  }
}
