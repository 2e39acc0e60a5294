/**
 A loop within reach of the simulation theorems: a parameter is copied into a local, which is counted
 down and returned. Its conditions are met, so the theorems say something about it.
 */
module CExample {
  import opened CCopies
  import opened CEmission
  import opened CFit
  import opened CInference
  import opened CLegal
  import opened CLiterals
  import opened CMachine
  import opened CNames
  import opened Mir
  import opened MirKinds
  import opened Sequences

  /** fn down(n) { let i = n; while i > 0 { i = i - 1 } return i }, with the unit return lowering adds at the end. */
  const START := [Instr(1, INT, Alloca("i", INT)), Instr(2, INT, LoadLocal("n")), Instr(3, INT, StoreLocal("i", 2))]
  const TEST := [Instr(4, INT, LoadLocal("i")), Instr(5, INT, ConstInt(0)), Instr(6, 1, Binary(Gt, 4, 5))]
  const STEP :=
    [Instr(7, INT, LoadLocal("i")), Instr(8, INT, ConstInt(1)), Instr(9, INT, Binary(Sub, 7, 8)),
     Instr(10, INT, StoreLocal("i", 9))]
  const STOP := [Instr(11, INT, LoadLocal("i"))]
  const FALL := [Instr(12, 0, Unit)]

  const COUNTDOWN := Function("down", [Param("n", 0, INT)], INT,
    [Block(0, START, Terminator.Jump(1)), Block(1, TEST, Terminator.Branch(6, 2, 3)),
     Block(2, STEP, Terminator.Jump(1)), Block(3, STOP, Terminator.Return(11)),
     Block(4, FALL, Terminator.Return(12))], 0)

  const KINDS: KindMap := map["down" := Kinds(map[6 := BoolK, 12 := UnitK], map[], IntK)]
  const NAMES: map<string, set<string>> := map["down" := {"i", "n"}]

  lemma AppendBlock(blocks: seq<Block>, b: Block)
    ensures AllInstrs(blocks + [b]) == AllInstrs(blocks) + b.instrs
  {
    assert (blocks + [b])[..|blocks|] == blocks;
  }

  lemma CountdownInstrs()
    ensures AllInstrs(COUNTDOWN.blocks) == START + TEST + STEP + STOP + FALL
  {
    var b := COUNTDOWN.blocks;
    hide AllInstrs;
    AppendBlock([], b[0]);
    AppendBlock([b[0]], b[1]);
    AppendBlock([b[0], b[1]], b[2]);
    AppendBlock([b[0], b[1], b[2]], b[3]);
    AppendBlock([b[0], b[1], b[2], b[3]], b[4]);
    assert b == [b[0], b[1], b[2], b[3]] + [b[4]] && [b[0], b[1], b[2], b[3]] == [b[0], b[1], b[2]] + [b[3]];
    assert [b[0], b[1], b[2]] == [b[0], b[1]] + [b[2]];
    assert [b[0], b[1]] == [b[0]] + [b[1]] && [] + [b[0]] == [b[0]];
    NoInstrs();
  }

  lemma NoInstrs()
    ensures AllInstrs([]) == []
  {
  }

  /** Instruction `k` of the function, numbered from 1 like its result. */
  lemma CountdownAt(k: nat)
    requires k < 12
    ensures |AllInstrs(COUNTDOWN.blocks)| == 12 && AllInstrs(COUNTDOWN.blocks)[k].result == k + 1
    ensures AllInstrs(COUNTDOWN.blocks)[k].op
         == if k == 0 then Alloca("i", INT) else if k == 1 then LoadLocal("n") else if k == 2 then StoreLocal("i", 2)
            else if k == 3 || k == 6 || k == 10 then LoadLocal("i") else if k == 4 then ConstInt(0)
            else if k == 5 then Binary(Gt, 4, 5) else if k == 7 then ConstInt(1)
            else if k == 8 then Binary(Sub, 7, 8) else if k == 9 then StoreLocal("i", 9) else Unit
  {
    CountdownInstrs();
    hide AllInstrs;
  }

  lemma Defined(k: nat, v: ValueId)
    requires k <= 12 && 0 < v <= k
    ensures |AllInstrs(COUNTDOWN.blocks)| == 12 && DefinedIn(AllInstrs(COUNTDOWN.blocks)[..k], v)
  {
    CountdownAt(v - 1);
    hide AllInstrs;
    assert AllInstrs(COUNTDOWN.blocks)[v - 1] in AllInstrs(COUNTDOWN.blocks)[..k];
  }

  lemma Declared(k: nat, x: string)
    requires k <= 12 && (x == "n" || (x == "i" && k > 0))
    ensures |AllInstrs(COUNTDOWN.blocks)| == 12 && DeclaredIn(COUNTDOWN, AllInstrs(COUNTDOWN.blocks)[..k], x)
  {
    CountdownAt(0);
    hide AllInstrs;
    assert COUNTDOWN.params[0] in COUNTDOWN.params;
    if x == "i" {
      assert AllInstrs(COUNTDOWN.blocks)[0] in AllInstrs(COUNTDOWN.blocks)[..k];
    }
  }

  lemma CountdownOp(k: nat)
    requires k < 12
    ensures |AllInstrs(COUNTDOWN.blocks)| == 12
    ensures OpKinds([COUNTDOWN], KINDS, KINDS["down"], AllInstrs(COUNTDOWN.blocks)[k].op)
    ensures KINDS["down"].Value(k + 1) == ResultKind(KINDS, KINDS["down"], AllInstrs(COUNTDOWN.blocks)[k].op)
    ensures Printable(NAMES["down"], AllInstrs(COUNTDOWN.blocks)[k].op)
  {
    hide AllInstrs, RealLiteral, Quotable;
    CountdownAt(k);
  }

  lemma CountdownPlaced(k: nat)
    requires k < 12
    ensures |AllInstrs(COUNTDOWN.blocks)| == 12
    ensures Placed(COUNTDOWN, AllInstrs(COUNTDOWN.blocks)[..k], AllInstrs(COUNTDOWN.blocks)[k].op)
    ensures Operands(AllInstrs(COUNTDOWN.blocks)[k].op) !! ParamIds(COUNTDOWN)
  {
    hide AllInstrs, DeclaredIn, DefinedIn;
    CountdownAt(k);
    Declared(k, "n");
    if k > 0 {
      Declared(k, "i");
    }
    forall v | v in Operands(AllInstrs(COUNTDOWN.blocks)[k].op)
      ensures DefinedIn(AllInstrs(COUNTDOWN.blocks)[..k], v)
    {
      Defined(k, v);
    }
    assert ParamIds(COUNTDOWN) == {0};
  }

  lemma CountdownInstrKinded(k: nat)
    requires k < 12
    ensures |AllInstrs(COUNTDOWN.blocks)| == 12
    ensures InstrKinded([COUNTDOWN], KINDS, COUNTDOWN, AllInstrs(COUNTDOWN.blocks)[..k], AllInstrs(COUNTDOWN.blocks)[k])
  {
    CountdownAt(k);
    CountdownOp(k);
    CountdownPlaced(k);
    hide AllInstrs, OpKinds, ResultKind, Placed, Operands;
    assert ParamIds(COUNTDOWN) == {0};
  }

  lemma CountdownTerms(b: Block)
    requires b in COUNTDOWN.blocks
    ensures TermKinds(KINDS, COUNTDOWN, b.term)
    ensures forall v | v in TermOperands(b.term) :: DefinedIn(AllInstrs(COUNTDOWN.blocks), v)
  {
    Defined(12, 6);
    Defined(12, 11);
    Defined(12, 12);
    assert AllInstrs(COUNTDOWN.blocks)[..12] == AllInstrs(COUNTDOWN.blocks);
    hide AllInstrs, DefinedIn;
    assert ParamIds(COUNTDOWN) == {0};
  }

  // ----- the lines

  lemma CountdownLines()
    ensures Lines(COUNTDOWN.blocks)
         == BlockLines(COUNTDOWN.blocks[0]) + BlockLines(COUNTDOWN.blocks[1])
            + BlockLines(COUNTDOWN.blocks[2]) + BlockLines(COUNTDOWN.blocks[3]) + BlockLines(COUNTDOWN.blocks[4])
  {
    var b := COUNTDOWN.blocks;
    hide BlockLines;
    assert b[1..][1..] == b[2..] && b[2..][1..] == b[3..] && b[3..][1..] == b[4..] && b[4..][1..] == [];
    assert Lines(b[4..]) == BlockLines(b[4]);
    assert Lines(b[3..]) == BlockLines(b[3]) + BlockLines(b[4]);
    assert Lines(b[2..]) == BlockLines(b[2]) + (BlockLines(b[3]) + BlockLines(b[4]));
    assert Lines(b[1..]) == BlockLines(b[1]) + (BlockLines(b[2]) + (BlockLines(b[3]) + BlockLines(b[4])));
  }

  /** Line `m`; block 0 is lines 0 to 4, block 1 lines 5 to 9, block 2 lines 10 to 15, block 3 lines 16 to 18. */
  lemma CountdownLine(m: nat)
    requires m < 22
    ensures |Lines(COUNTDOWN.blocks)| == 22
    ensures Lines(COUNTDOWN.blocks)[m]
         == if m == 0 then Opens(0) else if m < 4 then Does(START[m - 1]) else if m == 4 then Ends(Terminator.Jump(1))
            else if m == 5 then Opens(1) else if m < 9 then Does(TEST[m - 6])
            else if m == 9 then Ends(Terminator.Branch(6, 2, 3))
            else if m == 10 then Opens(2) else if m < 15 then Does(STEP[m - 11])
            else if m == 15 then Ends(Terminator.Jump(1))
            else if m == 16 then Opens(3) else if m == 17 then Does(STOP[0])
            else if m == 18 then Ends(Terminator.Return(11))
            else if m == 19 then Opens(4) else if m == 20 then Does(FALL[0]) else Ends(Terminator.Return(12))
  {
    CountdownLines();
    hide Lines;
  }

  /** The line that gives value `v`. */
  function LineOfValue(v: ValueId): nat {
    if v <= 3 then v else if v <= 6 then v + 2 else if v <= 10 then v + 4 else if v == 11 then 17 else 20
  }

  lemma ValueAt(m: nat, v: ValueId)
    requires m <= 22 && 0 < v <= 12
    ensures |Lines(COUNTDOWN.blocks)| == 22
    ensures v in Results(Lines(COUNTDOWN.blocks)[..m]) <==> LineOfValue(v) < m
  {
    var lines := Lines(COUNTDOWN.blocks);
    CountdownLine(LineOfValue(v));
    hide Lines;
    if LineOfValue(v) < m {
      assert lines[LineOfValue(v)] in lines[..m];
    }
    forall j | 0 <= j < m && lines[j].Does? && lines[j].instr.result == v
      ensures j == LineOfValue(v)
    {
      CountdownLine(j);
    }
  }

  lemma MangledApart()
    ensures LocalName("i") != LocalName("n")
  {
    AllButOneFree({"i", "n"}, "i");
  }

  lemma VarsAt(m: nat)
    requires m <= 22
    ensures |Lines(COUNTDOWN.blocks)| == 22
    ensures LocalName("n") in LocalVars(COUNTDOWN, Lines(COUNTDOWN.blocks)[..m])
    ensures LocalName("i") in LocalVars(COUNTDOWN, Lines(COUNTDOWN.blocks)[..m]) <==> m > 1
  {
    var lines := Lines(COUNTDOWN.blocks);
    CountdownLine(1);
    MangledApart();
    hide Lines, LocalName;
    assert COUNTDOWN.params[0] in COUNTDOWN.params;
    if m > 1 {
      assert lines[1] in lines[..m];
    }
    forall j | 0 <= j < m && lines[j].Does? && lines[j].instr.op.Alloca?
      ensures j == 1
    {
      CountdownLine(j);
    }
  }

  lemma CountdownLineOk(m: nat)
    requires m < 22
    ensures |Lines(COUNTDOWN.blocks)| == 22
    ensures LineOk(COUNTDOWN, Lines(COUNTDOWN.blocks)[..m], Lines(COUNTDOWN.blocks)[m])
  {
    hide Lines, Results, LocalVars, LocalName, LineOfValue;
    var lines := Lines(COUNTDOWN.blocks);
    CountdownLine(m);
    VarsAt(m);
    if m < 5 {
      CountdownValues(m, 1);
      CountdownValues(m, 2);
      CountdownValues(m, 3);
    } else if m < 10 {
      CountdownValues(m, 4);
      CountdownValues(m, 5);
      CountdownValues(m, 6);
    } else if m < 16 {
      CountdownValues(m, 7);
      CountdownValues(m, 8);
      CountdownValues(m, 9);
      CountdownValues(m, 10);
    } else {
      CountdownValues(m, 11);
      CountdownValues(m, 12);
    }
  }

  lemma CountdownValues(m: nat, v: ValueId)
    requires m < 22 && 0 < v <= 12
    ensures |Lines(COUNTDOWN.blocks)| == 22
    ensures v in Results(Lines(COUNTDOWN.blocks)[..m])
            <==> m > if v <= 3 then v else if v <= 6 then v + 2 else if v <= 10 then v + 4
                     else if v == 11 then 17 else 20
  {
    ValueAt(m, v);
    hide Lines, Results;
  }

  lemma CountdownIds()
    ensures BlockIds(COUNTDOWN.blocks) == [0, 1, 2, 3, 4]
  {
    var ids := BlockIds(COUNTDOWN.blocks);
    assert forall k | 0 <= k < 5 :: ids[k] == k;
  }

  lemma CountdownBlocks()
    ensures Distinct(BlockIds(COUNTDOWN.blocks))
    ensures JumpsKnown(COUNTDOWN.blocks, set id | id in BlockIds(COUNTDOWN.blocks))
  {
    CountdownIds();
    hide BlockIds;
    var ids := set id | id in BlockIds(COUNTDOWN.blocks);
    assert 1 in ids && 2 in ids && 3 in ids;
    forall b | b in COUNTDOWN.blocks
      ensures Successors(b.term) <= ids
    {
    }
  }

  lemma CountdownCompilable()
    ensures Compilable(COUNTDOWN)
  {
    CountdownBlocks();
    var lines := Lines(COUNTDOWN.blocks);
    CountdownLine(0);
    hide Lines, LineOk, BlockIds, JumpsKnown, Distinct, LocalName;
    forall m | 0 <= m < |lines|
      ensures LineOk(COUNTDOWN, lines[..m], lines[m])
    {
      CountdownLineOk(m);
    }
  }

  // ----- all conditions

  lemma CountdownCopiesNothing()
    ensures Copied(AllInstrs(COUNTDOWN.blocks)) <= ParamNames(COUNTDOWN)
  {
    var all := AllInstrs(COUNTDOWN.blocks);
    CountdownAt(0);
    hide AllInstrs;
    assert all[..|all|] == all;
    forall y
      ensures y !in Copied(all)
    {
      CopiedAt(all, |all|, y);
      forall c | 0 <= c < |all|
        ensures !CopyingStore(all, c, y)
      {
        CountdownStore(c, y);
      }
      hide Copied, CopyingStore;
    }
  }

  /** What is stored is the parameter, or computed. */
  lemma CountdownStore(c: nat, y: string)
    requires c < 12
    ensures |AllInstrs(COUNTDOWN.blocks)| == 12 && !CopyingStore(AllInstrs(COUNTDOWN.blocks), c, y)
  {
    var all := AllInstrs(COUNTDOWN.blocks);
    CountdownAt(c);
    hide AllInstrs;
    if all[c].op.StoreLocal? {
      LoadsAt(all, c, all[c].op.value);
      forall b | 0 <= b < c
        ensures !MarkedLoad(all, b, all[c].op.value)
      {
        CountdownAt(b);
        if b == 1 {
          CountdownAt(0);
          assert all[..1] == [all[0]];
          OnlyAllocated(all[0]);
        }
      }
      hide MarkedLoad, MarksOf;
    }
  }

  lemma OnlyAllocated(i: Instr)
    requires i.op == Alloca("i", INT)
    ensures MarksOf([i]).locals == {"i"}
  {
    assert [i][..0] == [];
  }

  lemma CountdownSmall()
    ensures COUNTDOWN.name == "down" && "down" in KINDS && "down" in NAMES && NAMES["down"] == {"i", "n"}
    ensures KINDS["down"].result == IntK
    ensures COUNTDOWN.params == [Param("n", 0, INT)] && COUNTDOWN.returnTy == INT && !IsMain(COUNTDOWN)
    ensures KINDS["down"].Local("n") == IntK && KindOfId(INT) == IntK
    ensures COUNTDOWN.blocks != [] && COUNTDOWN.blocks[0].id == COUNTDOWN.entry
    ensures forall b | b in COUNTDOWN.blocks :: !b.term.ReturnVoid?
  {
  }

  lemma CountdownTextKinded(k: nat)
    ensures k < |AllInstrs(COUNTDOWN.blocks)| ==>
              InstrKinded([COUNTDOWN], KINDS, COUNTDOWN, AllInstrs(COUNTDOWN.blocks)[..k],
                          AllInstrs(COUNTDOWN.blocks)[k])
  {
    CountdownAt(0);
    hide AllInstrs, InstrKinded;
    if k < 12 {
      CountdownInstrKinded(k);
    }
  }

  lemma CountdownKinded()
    ensures ModuleKinded([COUNTDOWN], KINDS)
  {
    var f := COUNTDOWN;
    hide *;
    CountdownCompilable();
    CompilableUnique(f);
    CountdownCopiesNothing();
    CountdownSmall();
    forall k | 0 <= k < |AllInstrs(f.blocks)|
      ensures InstrKinded([f], KINDS, f, AllInstrs(f.blocks)[..k], AllInstrs(f.blocks)[k])
    {
      CountdownTextKinded(k);
    }
    forall b | b in f.blocks
      ensures TermKinds(KINDS, f, b.term) && forall v | v in TermOperands(b.term) :: DefinedIn(AllInstrs(f.blocks), v)
    {
      CountdownTerms(b);
    }
    AloneKinded(f, KINDS);
  }

  lemma AloneKinded(f: Function, km: KindMap)
    requires f.name in km && UniqueResults(f) && Copied(AllInstrs(f.blocks)) <= ParamNames(f)
    requires km[f.name].result == IntK == KindOfId(f.returnTy)
    requires forall p | p in f.params :: km[f.name].Local(p.name) == KindOfId(p.ty)
    requires forall k | 0 <= k < |AllInstrs(f.blocks)| ::
               InstrKinded([f], km, f, AllInstrs(f.blocks)[..k], AllInstrs(f.blocks)[k])
    requires forall b | b in f.blocks ::
               TermKinds(km, f, b.term) && forall v | v in TermOperands(b.term) :: DefinedIn(AllInstrs(f.blocks), v)
    ensures ModuleKinded([f], km)
  {
    hide InstrKinded, TermKinds, AllInstrs, Copied, UniqueResults, DefinedIn;
  }

  lemma CountdownPrintable()
    ensures ModulePrintable([COUNTDOWN], KINDS, NAMES)
  {
    var f := COUNTDOWN;
    hide *;
    NamedApart("down");
    CountdownCompilable();
    CountdownNamesApart();
    CountdownSmall();
    forall i | i in AllInstrs(f.blocks)
      ensures Printable(NAMES["down"], i.op)
    {
      var k :| 0 <= k < |AllInstrs(f.blocks)| && AllInstrs(f.blocks)[k] == i;
      CountdownAt(0);
      CountdownOp(k);
    }
    AlonePrintable(f, KINDS, NAMES);
  }

  /** A name whose first letter is not that of the routine's. */
  lemma NamedApart(name: string)
    requires name == "down"
    ensures CName(name) != CONCAT
  {
    FirstLetter(name);
    hide ReplaceDots, ReplacePaths;
    assert CName(name)[5] == 'd' && CONCAT[5] == 's';
  }

  lemma FirstLetter(name: string)
    requires |name| >= 2 && name[0] == 'd'
    ensures var r := ReplaceDots(ReplacePaths(name)); r != "" && r[0] == 'd'
  {
  }

  lemma CountdownNamesApart()
    ensures LocalsApart({"i", "n"})
  {
    AllButOneFree({"i", "n"}, "i");
  }

  lemma AlonePrintable(f: Function, km: KindMap, names: map<string, set<string>>)
    requires f.name in km && f.name in names && Compilable(f) && CName(f.name) != CONCAT && LocalsApart(names[f.name])
    requires f.blocks != [] && f.blocks[0].id == f.entry && !IsMain(f) && km[f.name].result == IntK
    requires (forall p | p in f.params :: p.name in names[f.name])
    requires forall i | i in AllInstrs(f.blocks) :: Printable(names[f.name], i.op)
    ensures ModulePrintable([f], km, names)
  {
    hide AllInstrs, Compilable, LocalsApart, Printable, CName, IsMain;
  }

  lemma CountdownCallsNothing()
    ensures Callees(AllInstrs(COUNTDOWN.blocks)) == {}
  {
    var all := AllInstrs(COUNTDOWN.blocks);
    CountdownAt(0);
    hide AllInstrs;
    forall i | i in all
      ensures !i.op.Call?
    {
      var k :| 0 <= k < |all| && all[k] == i;
      CountdownAt(k);
    }
  }

  lemma NoCalleesFlat(f: Function)
    requires Callees(AllInstrs(f.blocks)) == {}
    ensures CallHeightAtMost([f], 0)
  {
    hide AllInstrs, Callees;
    var rank: string -> nat := _ => 0;
    assert Ranked([f], rank);
  }

  /** The conditions of the inference and simulation theorems hold of the loop. */
  lemma CountdownCovered()
    ensures ModuleKinded([COUNTDOWN], KINDS) && ModulePrintable([COUNTDOWN], KINDS, NAMES)
    ensures UniqueNames([COUNTDOWN]) && CallHeightAtMost([COUNTDOWN], 0)
  {
    CountdownKinded();
    CountdownPrintable();
    CountdownCallsNothing();
    NoCalleesFlat(COUNTDOWN);
    hide ModuleKinded, ModulePrintable, CallHeightAtMost, Callees;
  }
}
