/** A function of floats and strings within reach of the theorems about inference and simulation. */
module CMixed {
  import opened CCopies
  import opened CEmission
  import opened CExample
  import opened CFit
  import opened CInference
  import opened CLegal
  import opened CLiterals
  import opened CMachine
  import opened CNames
  import opened Mir
  import opened MirKinds

  const FLOAT: TypeId := 5
  const STRING: TypeId := 3

  /** fn label(r: f64, unit: str) { r * 2.5; return unit + "s" } */
  const BODY :=
    [Instr(1, FLOAT, LoadLocal("r")), Instr(2, FLOAT, ConstFloat(2.5)), Instr(3, FLOAT, Binary(Mul, 1, 2)),
     Instr(4, STRING, LoadLocal("unit")), Instr(5, STRING, ConstString("s")), Instr(6, STRING, Binary(Add, 4, 5))]

  const LABEL := Function("label", [Param("r", 10, FLOAT), Param("unit", 11, STRING)], STRING,
    [Block(0, BODY, Terminator.Return(6))], 0)

  const MIXED: KindMap :=
    map["label" := Kinds(map[1 := FloatK, 2 := FloatK, 3 := FloatK, 4 := StrK, 5 := StrK, 6 := StrK],
                         map["r" := FloatK, "unit" := StrK], StrK)]
  const LABELS: map<string, set<string>> := map["label" := {"r", "unit"}]

  lemma LabelInstrs()
    ensures AllInstrs(LABEL.blocks) == BODY
  {
    assert LABEL.blocks[..0] == [];
    NoInstrs();
    AppendBlock([], LABEL.blocks[0]);
    assert [] + [LABEL.blocks[0]] == LABEL.blocks;
  }

  lemma LabelOp(k: nat)
    requires k < 6
    ensures OpKinds([LABEL], MIXED, MIXED["label"], BODY[k].op)
    ensures BODY[k].result == k + 1 && MIXED["label"].Value(k + 1) == ResultKind(MIXED, MIXED["label"], BODY[k].op)
    ensures Printable(LABELS["label"], BODY[k].op)
    ensures !BODY[k].op.Call? && !BODY[k].op.StoreLocal? && !BODY[k].op.Alloca?
    ensures BODY[k].op.LoadLocal? ==> BODY[k].op.local in {"r", "unit"}
  {
    assert Quotable("s");
    assert 2.5.Floor == 2;
  }

  lemma LabelOperands(k: nat, v: ValueId)
    requires k < 6 && v in Operands(BODY[k].op)
    ensures 0 < v <= k
  {
  }

  lemma LabelDefined(k: nat, v: ValueId)
    requires k <= 6 && 0 < v <= k
    ensures DefinedIn(BODY[..k], v)
  {
    assert BODY[v - 1] in BODY[..k];
  }

  lemma LabelDeclared(x: string, prior: seq<Instr>)
    requires x in {"r", "unit"}
    ensures DeclaredIn(LABEL, prior, x)
  {
    assert LABEL.params[0] in LABEL.params && LABEL.params[1] in LABEL.params;
  }

  lemma LabelInstrKinded(k: nat)
    requires k < 6
    ensures InstrKinded([LABEL], MIXED, LABEL, BODY[..k], BODY[k])
  {
    LabelOp(k);
    forall v | v in Operands(BODY[k].op)
      ensures DefinedIn(BODY[..k], v) && v < 10
    {
      LabelOperands(k, v);
      LabelDefined(k, v);
    }
    if BODY[k].op.LoadLocal? {
      LabelDeclared(BODY[k].op.local, BODY[..k]);
    }
    assert ParamIds(LABEL) == {10, 11};
    hide OpKinds, ResultKind, Operands, DefinedIn, DeclaredIn;
  }

  lemma LabelCopiesNothing()
    ensures Copied(BODY) == {}
  {
    assert BODY[..|BODY|] == BODY;
    forall y
      ensures y !in Copied(BODY)
    {
      CopiedAt(BODY, |BODY|, y);
      forall c | 0 <= c < |BODY|
        ensures !CopyingStore(BODY, c, y)
      {
        LabelOp(c);
      }
      hide Copied, CopyingStore;
    }
  }

  lemma LabelSmall()
    ensures LABEL.name == "label" && "label" in MIXED && "label" in LABELS && LABELS["label"] == {"r", "unit"}
    ensures MIXED["label"].result == StrK && DeclaredAs(StrK, LABEL.returnTy) && !IsMain(LABEL)
    ensures LABEL.params == [Param("r", 10, FLOAT), Param("unit", 11, STRING)]
    ensures DeclaredAs(MIXED["label"].Local("r"), FLOAT) && DeclaredAs(MIXED["label"].Local("unit"), STRING)
    ensures LABEL.blocks == [Block(0, BODY, Terminator.Return(6))] && LABEL.entry == 0
    ensures MIXED["label"].Value(6) == StrK && ParamIds(LABEL) == {10, 11}
  {
  }

  lemma LabelKinded()
    ensures ModuleKinded([LABEL], MIXED)
  {
    hide *;
    LabelSmall();
    LabelInstrs();
    LabelCompilable();
    CompilableUnique(LABEL);
    LabelCopiesNothing();
    forall k | 0 <= k < |BODY|
      ensures InstrKinded([LABEL], MIXED, LABEL, BODY[..k], BODY[k])
    {
      LabelLength();
      LabelInstrKinded(k);
    }
    LabelReturns();
    AloneMixed(LABEL, MIXED, BODY);
  }

  lemma LabelLength()
    ensures |BODY| == 6
  {
  }

  lemma LabelReturns()
    ensures ReturnsKinded(MIXED["label"], LABEL)
    ensures forall b | b in LABEL.blocks ::
              TermKinds(MIXED, LABEL, b.term) && forall v | v in TermOperands(b.term) :: DefinedIn(BODY, v)
    ensures forall p | p in LABEL.params :: DeclaredAs(MIXED["label"].Local(p.name), p.ty)
  {
    LabelSmall();
    LabelDefined(6, 6);
    assert BODY[..6] == BODY;
    hide DefinedIn, DeclaredAs;
  }

  lemma AloneMixed(f: Function, km: KindMap, instrs: seq<Instr>)
    requires f.name in km && UniqueResults(f) && instrs == AllInstrs(f.blocks) && Copied(instrs) == {}
    requires DeclaredAs(km[f.name].result, f.returnTy) && ReturnsKinded(km[f.name], f)
    requires forall p | p in f.params :: DeclaredAs(km[f.name].Local(p.name), p.ty)
    requires forall k | 0 <= k < |instrs| :: InstrKinded([f], km, f, instrs[..k], instrs[k])
    requires forall b | b in f.blocks ::
               TermKinds(km, f, b.term) && forall v | v in TermOperands(b.term) :: DefinedIn(instrs, v)
    ensures ModuleKinded([f], km)
  {
    hide InstrKinded, TermKinds, AllInstrs, Copied, UniqueResults, DefinedIn, DeclaredAs, ReturnsKinded;
  }

  // ----- the lines

  lemma LabelLine(m: nat)
    requires m < 8
    ensures |Lines(LABEL.blocks)| == 8
    ensures Lines(LABEL.blocks)[m]
         == if m == 0 then Opens(0) else if m < 7 then Does(BODY[m - 1]) else Ends(Terminator.Return(6))
  {
    var b := LABEL.blocks;
    assert b[1..] == [];
    assert Lines(b) == BlockLines(b[0]) + Lines([]);
    hide Lines;
    NoLines();
  }

  lemma NoLines()
    ensures Lines([]) == []
  {
  }

  lemma LabelResults(m: nat, v: ValueId)
    requires m <= 8 && 0 < v <= 6
    ensures |Lines(LABEL.blocks)| == 8
    ensures v in Results(Lines(LABEL.blocks)[..m]) <==> v < m
  {
    var lines := Lines(LABEL.blocks);
    LabelLine(v);
    LabelOp(v - 1);
    hide Lines;
    if v < m {
      assert lines[v] in lines[..m];
    }
    forall j | 0 <= j < m && lines[j].Does? && lines[j].instr.result == v
      ensures j == v
    {
      LabelLine(j);
      LabelOp(j - 1);
    }
  }

  lemma LabelVars(prior: seq<Line>)
    ensures LocalName("r") in LocalVars(LABEL, prior) && LocalName("unit") in LocalVars(LABEL, prior)
  {
    assert LABEL.params[0] in LABEL.params && LABEL.params[1] in LABEL.params;
    hide LocalName;
  }

  lemma LabelLineOk(m: nat)
    requires m < 8
    ensures |Lines(LABEL.blocks)| == 8
    ensures LineOk(LABEL, Lines(LABEL.blocks)[..m], Lines(LABEL.blocks)[m])
  {
    LabelLine(m);
    var prior := Lines(LABEL.blocks)[..m];
    hide Lines, Results, LocalVars, LocalName, Operands;
    if 0 < m < 7 {
      LabelDoes(m, prior);
      hide LineOk;
    } else {
      LabelResults(m, 6);
    }
  }

  lemma LabelDoes(m: nat, prior: seq<Line>)
    requires 0 < m < 7 && |Lines(LABEL.blocks)| == 8 && prior == Lines(LABEL.blocks)[..m]
    ensures LineOk(LABEL, prior, Does(BODY[m - 1]))
  {
    hide *;
    LabelLength();
    LabelVars(prior);
    LabelOp(m - 1);
    LabelResults(m, m);
    forall v | v in Operands(BODY[m - 1].op)
      ensures v in Results(prior)
    {
      LabelOperands(m - 1, v);
      LabelResults(m, v);
    }
    ReadsOnly(LABEL, prior, BODY[m - 1]);
  }

  /** An instruction that neither stores nor allocates, above which everything it reads is defined. */
  lemma ReadsOnly(f: Function, prior: seq<Line>, i: Instr)
    requires !i.op.StoreLocal? && !i.op.Alloca? && i.result !in Results(prior)
    requires forall v | v in Operands(i.op) :: v in Results(prior)
    requires i.op.LoadLocal? ==> LocalName(i.op.local) in LocalVars(f, prior)
    ensures LineOk(f, prior, Does(i))
  {
    hide Operands, Results, LocalName, LocalVars;
  }

  lemma LabelNamesApart()
    ensures LocalsApart({"r", "unit"})
  {
    AllButOneFree({"r", "unit"}, "r");
  }

  lemma LabelCompilable()
    ensures Compilable(LABEL)
  {
    LabelSmall();
    LabelNamesApart();
    var lines := Lines(LABEL.blocks);
    LabelLine(0);
    assert "r" in {"r", "unit"} && "unit" in {"r", "unit"};
    assert BlockIds(LABEL.blocks)[0] == 0;
    hide Lines, LineOk, LocalName;
    forall m | 0 <= m < |lines|
      ensures LineOk(LABEL, lines[..m], lines[m])
    {
      LabelLineOk(m);
    }
  }

  // ----- what is printed

  lemma LabelCName()
    ensures CName("label") != CONCAT
  {
    var r := ReplaceDots(ReplacePaths("label"));
    LabelLetter("label");
    hide ReplaceDots, ReplacePaths;
    assert CName("label")[5] == 'l' && CONCAT[5] == 's';
  }

  lemma LabelLetter(name: string)
    requires |name| >= 2 && name[0] == 'l'
    ensures var r := ReplaceDots(ReplacePaths(name)); r != "" && r[0] == 'l'
  {
  }

  lemma LabelPrintable()
    ensures ModulePrintable([LABEL], MIXED, LABELS)
  {
    hide *;
    LabelSmall();
    LabelInstrs();
    LabelCompilable();
    LabelNamesApart();
    LabelCName();
    LabelLength();
    forall i | i in BODY
      ensures Printable(LABELS["label"], i.op)
    {
      var k :| 0 <= k < |BODY| && BODY[k] == i;
      LabelOp(k);
    }
    AloneMixedPrintable(LABEL, MIXED, LABELS, BODY);
  }

  lemma AloneMixedPrintable(f: Function, km: KindMap, names: map<string, set<string>>, instrs: seq<Instr>)
    requires f.name in km && f.name in names && Compilable(f) && CName(f.name) != CONCAT && LocalsApart(names[f.name])
    requires |f.blocks| == 1 && f.blocks[0].id == f.entry && f.blocks[0].term.Return? && !IsMain(f)
    requires forall p | p in f.params :: p.name in names[f.name]
    requires instrs == AllInstrs(f.blocks) && forall i | i in instrs :: Printable(names[f.name], i.op)
    ensures ModulePrintable([f], km, names)
  {
    hide AllInstrs, Compilable, LocalsApart, Printable, CName, IsMain;
  }

  /** Floats and strings side by side meet the conditions of the theorems. */
  lemma LabelCovered()
    ensures ModuleKinded([LABEL], MIXED) && ModulePrintable([LABEL], MIXED, LABELS)
    ensures UniqueNames([LABEL]) && CallHeightAtMost([LABEL], 0)
  {
    LabelKinded();
    LabelPrintable();
    LabelInstrs();
    forall i | i in BODY
      ensures !i.op.Call?
    {
      var k :| 0 <= k < |BODY| && BODY[k] == i;
      LabelOp(k);
    }
    assert Callees(AllInstrs(LABEL.blocks)) == {};
    NoCalleesFlat(LABEL);
    hide ModuleKinded, ModulePrintable, CallHeightAtMost, Callees;
  }
}
