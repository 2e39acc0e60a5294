/**
 Exactly when the emitted C keeps structures apart from everything else, read off the MIR: the flow of
 structures must agree with itself at every load, store and return, and reach no operator, call or jump.
 */
module CApart {
  import opened CCopies
  import opened CEmission
  import opened CInference
  import opened CLegal
  import opened CMachine
  import opened CStructs
  import opened CTypes
  import opened CTyping
  import opened Mir

  // ----- the MIR side

  ghost predicate Owned(f: Function, x: string) {
    x in ParamNames(f) || exists a :: a in AllInstrs(f.blocks) && a.op.Alloca? && a.op.slot == x
  }

  /** Loaded and stored locals are parameters or allocated, under their own names. */
  ghost predicate OwnLocals(f: Function) {
    forall i | i in AllInstrs(f.blocks) ::
      && (i.op.LoadLocal? ==> Owned(f, i.op.local))
      && (i.op.StoreLocal? ==> Owned(f, i.op.target))
  }

  /** Locals whose C variable is a structure: a parameter's never is. */
  function StructVars(f: Function, rt: Returns): set<string> {
    Structs(f, rt).locals - ParamNames(f)
  }

  predicate InstrApart(f: Function, rt: Returns, i: Instr) {
    var structs := Structs(f, rt).values;
    match i.op
    case Binary(_, l, r) => l !in structs && r !in structs
    case Unary(_, v) => v !in structs
    case Call(_, args) => forall v | v in args :: v !in structs
    case LoadLocal(x) => i.result in structs <==> x in StructVars(f, rt)
    case StoreLocal(x, v) => (v in structs <==> x in StructVars(f, rt)) && (v in structs <==> i.result in structs)
    case _ => true
  }

  ghost predicate TermApart(f: Function, rt: Returns, t: Terminator) {
    var structs := Structs(f, rt).values;
    match t
    case Return(v) => if IsMain(f) then v !in structs else v in structs <==> ReturnsStruct(f, rt)
    case ReturnVoid => IsMain(f) || !ReturnsStruct(f, rt)
    case Branch(c, _, _) => c !in structs
    case Switch(d, _, _) => d !in structs
    case _ => true
  }

  ghost predicate FlowsApart(f: Function, rt: Returns) {
    forall b | b in f.blocks :: TermApart(f, rt, b.term) && forall i | i in b.instrs :: InstrApart(f, rt, i)
  }

  /** A function on simple operations that C takes, in a module without enums. */
  ghost predicate Typable(f: Function, rt: Returns) {
    && Compilable(f) && AllEmittable(f.blocks) && OwnLocals(f) && NoEnums(rt)
  }

  lemma TypableSimple(f: Function, rt: Returns)
    requires Typable(f, rt)
    ensures forall i | i in AllInstrs(f.blocks) :: SimpleOp(i.op) && Emittable(i.op)
  {
    hide AllInstrs, Compilable, OwnLocals, SimpleOp;
    forall i | i in AllInstrs(f.blocks)
      ensures Emittable(i.op)
    {
      var b := BlockOf(f.blocks, i);
    }
  }

  // ----- types, one name at a time

  lemma ValueTyped(f: Function, rt: Returns, v: ValueId)
    requires Typable(f, rt) && DefinedIn(AllInstrs(f.blocks), v)
    ensures var cf, t := EmitFunction(f, Analysis(f, rt)), Analysis(f, rt).ValueType(v);
            && HasType(cf, ValueName(v), t) && t != Enum && (t == Struct <==> v in Structs(f, rt).values)
            && (Scalar(cf, ValueName(v)) <==> v !in Structs(f, rt).values)
            && (forall to :: Receives(cf, to, ValueName(v)) <==> Assignable(to, t))
  {
    hide *;
    var lay := Analysis(f, rt);
    TypableParts(f, rt);
    TypableSimple(f, rt);
    StructsExactly(f, rt);
    EmittedLegal(f, lay);
    ValueHasType(f, lay, v);
    TypedName(EmitFunction(f, lay), ValueName(v), lay.ValueType(v));
    NotEnum(lay, v);
    ScalarMeans(lay.ValueType(v));
  }

  /** What is known about the variable of a value. */
  ghost predicate Known(cf: CFunction, lay: Layout, structs: set<ValueId>, v: ValueId) {
    && (Scalar(cf, ValueName(v)) <==> v !in structs)
    && (forall to :: Receives(cf, to, ValueName(v)) <==> Assignable(to, lay.ValueType(v)))
    && (lay.ValueType(v) == Struct <==> v in structs)
    && lay.ValueType(v) != Enum
  }

  lemma ValueKnown(f: Function, rt: Returns, v: ValueId)
    requires Typable(f, rt) && DefinedIn(AllInstrs(f.blocks), v)
    ensures Known(EmitFunction(f, Analysis(f, rt)), Analysis(f, rt), Structs(f, rt).values, v)
  {
    ValueTyped(f, rt, v);
    hide Typable, AllInstrs, EmitFunction, Analysis, Structs, ValueName, Scalar, Receives;
  }

  lemma TypableParts(f: Function, rt: Returns)
    requires Typable(f, rt)
    ensures Compilable(f) && AllEmittable(f.blocks) && NoEnums(rt)
  {
  }

  lemma NotEnum(lay: Layout, v: ValueId)
    requires NoEnum(lay)
    ensures lay.ValueType(v) != Enum
  {
  }

  lemma ScalarMeans(t: CType)
    ensures Aggregate(t) <==> t == Struct || t == Enum
  {
  }

  /** An allocated local is no parameter. */
  lemma SlotNoParam(f: Function, i: Instr)
    requires Compilable(f) && i in AllInstrs(f.blocks) && i.op.Alloca?
    ensures i.op.slot !in ParamNames(f)
  {
    var all, lines := AllInstrs(f.blocks), Lines(f.blocks);
    var k :| 0 <= k < |all| && all[k] == i;
    LinesInstrs(f.blocks);
    var m := LineOf(lines, k);
    assert LineOk(f, lines[..m], lines[m]);
    hide Lines, AllInstrs, Results, LocalName, InstrsIn;
    forall p | p in f.params
      ensures p.name != i.op.slot
    {
      assert LocalName(p.name) in LocalVars(f, lines[..m]);
    }
  }

  /** The C variable of a local is a structure exactly when structures flow into it and it is no parameter. */
  lemma LocalTyped(f: Function, rt: Returns, x: string) returns (t: CType)
    requires Typable(f, rt)
    requires Owned(f, x)
    ensures HasType(EmitFunction(f, Analysis(f, rt)), LocalName(x), t)
    ensures t != Enum && (t == Struct <==> x in StructVars(f, rt))
  {
    var lay := Analysis(f, rt);
    TypableSimple(f, rt);
    StructsExactly(f, rt);
    hide AllInstrs, Analysis, EmitFunction, HasType, LocalName, Structs, OwnLocals, AllEmittable;
    if a :| a in AllInstrs(f.blocks) && a.op.Alloca? && a.op.slot == x {
      SlotNoParam(f, a);
      SlotHasType(f, lay, a);
      t := OrElse(lay.LocalType(x), Int);
      hide Compilable;
    } else {
      var p :| p in f.params && p.name == x;
      var k :| 0 <= k < |f.params| && f.params[k] == p;
      ParamHasType(f, lay, k);
      ParamsScalar(f, rt, k);
      t := ParamType(lay, k);
      hide Compilable;
    }
  }

  // ----- values agree with what they are made from

  lemma SettledHere(f: Function, rt: Returns, k: nat)
    requires Compilable(f) && k < |AllInstrs(f.blocks)|
    ensures var i := AllInstrs(f.blocks)[k];
            var m := FlowOf(rt, Sources(f), AllInstrs(f.blocks)[..k]);
            && i.result !in m.values
            && (i.result in Structs(f, rt).values <==> i.result in FlowBy(rt, m, i).values)
  {
    var all := AllInstrs(f.blocks);
    ResultNew(f, rt, k);
    CompilableUnique(f);
    hide AllInstrs, Compilable, FlowOf, FlowBy, Sources;
    assert all[..|all|] == all;
    FlowSettled(rt, Sources(f), all, k, |all|);
  }

  /** An operand is a structure when it is read exactly when it is one in the end. */
  lemma OperandSettled(f: Function, rt: Returns, k: nat, v: ValueId)
    requires Compilable(f) && k < |AllInstrs(f.blocks)| && DefinedIn(AllInstrs(f.blocks)[..k], v)
    ensures v in Structs(f, rt).values <==> v in FlowOf(rt, Sources(f), AllInstrs(f.blocks)[..k]).values
  {
    var all := AllInstrs(f.blocks);
    CompilableUnique(f);
    hide AllInstrs, Compilable, FlowOf, FlowBy, Sources;
    var d :| d in all[..k] && d.result == v;
    var j :| 0 <= j < k && all[..k][j] == d;
    assert all[..|all|] == all;
    FlowSettled(rt, Sources(f), all, j, k);
    FlowSettled(rt, Sources(f), all, j, |all|);
  }

  lemma ResultAgrees(f: Function, rt: Returns, i: Instr)
    requires Compilable(f) && i in AllInstrs(f.blocks)
    ensures i.op.Copy? ==> (i.result in Structs(f, rt).values <==> i.op.src in Structs(f, rt).values)
    ensures Computes(i.op) && !i.op.Copy? ==> i.result !in Structs(f, rt).values
  {
    var all := AllInstrs(f.blocks);
    hide AllInstrs, Compilable, FlowOf, Sources, Structs;
    var k :| 0 <= k < |all| && all[k] == i;
    SettledHere(f, rt, k);
    if i.op.Copy? && i.op.src != i.result {
      CompilableInstr(f, k);
      assert i.op.src in Operands(i.op);
      OperandSettled(f, rt, k, i.op.src);
    }
  }

  /** What an instruction reads is computed somewhere. */
  lemma OperandDefined(f: Function, i: Instr, v: ValueId)
    requires Compilable(f) && i in AllInstrs(f.blocks) && v in Operands(i.op)
    ensures DefinedIn(AllInstrs(f.blocks), v) && DefinedIn(AllInstrs(f.blocks), i.result)
  {
    var all := AllInstrs(f.blocks);
    hide AllInstrs, Compilable, Operands;
    var k :| 0 <= k < |all| && all[k] == i;
    CompilableInstr(f, k);
    if v != i.result {
      DefinedFurther(all[..k], all, v);
    }
  }

  lemma ResultDefined(f: Function, i: Instr)
    requires i in AllInstrs(f.blocks)
    ensures DefinedIn(AllInstrs(f.blocks), i.result)
  {
    hide AllInstrs;
  }

  // ----- one instruction

  ghost predicate CodeApart(cf: CFunction, code: seq<CStmt>) {
    forall s | s in code :: StmtApart(cf, s)
  }

  lemma OneApart(cf: CFunction, s: CStmt)
    ensures CodeApart(cf, [s]) <==> StmtApart(cf, s)
  {
    hide StmtApart;
  }

  lemma TwoApart(cf: CFunction, s: CStmt, t: CStmt)
    ensures CodeApart(cf, [s, t]) <==> StmtApart(cf, s) && StmtApart(cf, t)
  {
    hide StmtApart;
    assert s in [s, t] && t in [s, t];
  }

  lemma LoadApart(f: Function, rt: Returns, i: Instr)
    requires Typable(f, rt) && i in AllInstrs(f.blocks) && i.op.LoadLocal?
    ensures CodeApart(EmitFunction(f, Analysis(f, rt)), EmitInstr(Analysis(f, rt), i)) <==> InstrApart(f, rt, i)
  {
    var lay := Analysis(f, rt);
    var cf := EmitFunction(f, lay);
    hide AllInstrs, Analysis, EmitFunction, HasType, LocalName, ValueName, Structs, Compilable, StructVars, Receives;
    ResultDefined(f, i);
    ValueTyped(f, rt, i.result);
    var t := LocalTyped(f, rt, i.op.local);
    EmittedLegal(f, lay);
    TypedName(cf, LocalName(i.op.local), t);
    OneApart(cf, Decl(lay.ValueType(i.result), ValueName(i.result), Var(LocalName(i.op.local))));
    hide CodeApart, Legal, Scalar;
  }

  /** The assignment of a store type-checks exactly when both or neither of its sides are structures. */
  lemma StoreApart(f: Function, rt: Returns, i: Instr)
    requires Typable(f, rt) && i in AllInstrs(f.blocks) && i.op.StoreLocal?
    ensures var s := Assign(LocalName(i.op.target), ValueName(i.op.value));
            && s in EmitInstr(Analysis(f, rt), i)
            && (StmtApart(EmitFunction(f, Analysis(f, rt)), s)
                <==> (i.op.value in Structs(f, rt).values <==> i.op.target in StructVars(f, rt)))
    ensures CodeApart(EmitFunction(f, Analysis(f, rt)), EmitInstr(Analysis(f, rt), i)) <==> InstrApart(f, rt, i)
  {
    var lay := Analysis(f, rt);
    var cf := EmitFunction(f, lay);
    hide AllInstrs, Analysis, EmitFunction, HasType, LocalName, ValueName, Structs, Compilable, StructVars, Receives;
    var v := i.op.value;
    assert v in Operands(i.op);
    OperandDefined(f, i, v);
    ValueTyped(f, rt, v);
    ValueTyped(f, rt, i.result);
    var t := LocalTyped(f, rt, i.op.target);
    EmittedLegal(f, lay);
    AssignTyped(cf, LocalName(i.op.target), ValueName(v), t, lay.ValueType(v));
    TwoApart(cf, Assign(LocalName(i.op.target), ValueName(v)),
             Decl(lay.ValueType(i.result), ValueName(i.result), Var(ValueName(v))));
    hide CodeApart, Legal, Scalar;
  }

  lemma DefaultApart(cf: CFunction, ty: CType, x: string)
    ensures StmtApart(cf, Decl(ty, x, DefaultValue(ty)))
  {
  }

  lemma DefaultsApart(cf: CFunction, lay: Layout, i: Instr)
    requires i.op.Alloca? || i.op.Unit?
    ensures CodeApart(cf, EmitInstr(lay, i))
  {
    hide CodeApart, StmtApart, ValueName, LocalName, DefaultValue;
    var ty, name := lay.ValueType(i.result), ValueName(i.result);
    DefaultApart(cf, ty, name);
    if i.op.Alloca? {
      var t := OrElse(lay.LocalType(i.op.slot), Int);
      DefaultApart(cf, t, LocalName(i.op.slot));
      TwoApart(cf, Decl(t, LocalName(i.op.slot), DefaultValue(t)), Decl(ty, name, DefaultValue(ty)));
    } else {
      OneApart(cf, Decl(ty, name, DefaultValue(ty)));
    }
  }

  lemma CallApart(cf: CFunction, lay: Layout, structs: set<ValueId>, i: Instr)
    requires i.op.Call? && Emittable(i.op)
    requires forall v | v in i.op.args :: Known(cf, lay, structs, v)
    ensures CodeApart(cf, EmitInstr(lay, i)) <==> forall v | v in i.op.args :: v !in structs
  {
    OneApart(cf, EmitInstr(lay, i)[0]);
    hide ValueName, Scalar, Receives, IsPrintBuiltin, MangleName;
    var args := i.op.args;
    forall v | v in args
      ensures ValueName(v) in ValueNames(args)
    {
      var k :| 0 <= k < |args| && args[k] == v;
      assert ValueNames(args)[k] == ValueName(v);
    }
    forall x | x in ValueNames(args)
      ensures exists v :: v in args && x == ValueName(v)
    {
      var k :| 0 <= k < |args| && ValueNames(args)[k] == x;
      assert args[k] in args;
    }
  }

  predicate Computes(op: Op) {
    op.ConstInt? || op.ConstFloat? || op.ConstBool? || op.ConstString? || op.Binary? || op.Unary? || op.Copy?
  }

  /** Constants, operators and copies. */
  lemma OperatorApart(cf: CFunction, lay: Layout, structs: set<ValueId>, i: Instr)
    requires Computes(i.op)
    requires Known(cf, lay, structs, i.result) && forall v | v in Operands(i.op) :: Known(cf, lay, structs, v)
    requires if i.op.Copy? then i.result in structs <==> i.op.src in structs else i.result !in structs
    ensures CodeApart(cf, EmitInstr(lay, i))
            <==> (i.op.Binary? || i.op.Unary? ==> forall v | v in Operands(i.op) :: v !in structs)
  {
    OneApart(cf, EmitInstr(lay, i)[0]);
    hide ValueName, Scalar, Receives, CodeApart, BinOpToC, UnOpToC;
    if i.op.Binary? {
      ConcatArgs(cf, i.op.left, i.op.right);
      assert Operands(i.op) == {i.op.left, i.op.right};
    } else if i.op.Unary? {
      assert Operands(i.op) == {i.op.operand};
    } else if i.op.Copy? {
      assert i.op.src in Operands(i.op);
    }
  }

  lemma ConcatArgs(cf: CFunction, l: ValueId, r: ValueId)
    ensures (forall x | x in [ValueName(l), ValueName(r)] :: Scalar(cf, x))
            <==> Scalar(cf, ValueName(l)) && Scalar(cf, ValueName(r))
  {
    hide ValueName, Scalar;
    assert ValueName(l) in [ValueName(l), ValueName(r)] && ValueName(r) in [ValueName(l), ValueName(r)];
  }

  /** Everything an instruction names is known. */
  lemma InstrKnown(f: Function, rt: Returns, i: Instr)
    requires Typable(f, rt) && i in AllInstrs(f.blocks)
    ensures var cf, lay, structs := EmitFunction(f, Analysis(f, rt)), Analysis(f, rt), Structs(f, rt).values;
            Known(cf, lay, structs, i.result) && forall v | v in Operands(i.op) :: Known(cf, lay, structs, v)
  {
    var cf, lay, structs := EmitFunction(f, Analysis(f, rt)), Analysis(f, rt), Structs(f, rt).values;
    hide *;
    TypableParts(f, rt);
    ResultDefined(f, i);
    ValueKnown(f, rt, i.result);
    forall v | v in Operands(i.op)
      ensures Known(cf, lay, structs, v)
    {
      OperandDefined(f, i, v);
      ValueKnown(f, rt, v);
    }
  }

  lemma OtherMeans(f: Function, rt: Returns, i: Instr)
    requires Typable(f, rt) && i in AllInstrs(f.blocks) && !i.op.LoadLocal? && !i.op.StoreLocal?
    ensures Emittable(i.op)
    ensures i.op.Alloca? || i.op.Unit? || i.op.Call? || Computes(i.op)
    ensures InstrApart(f, rt, i)
            <==> && (i.op.Call? ==> forall v | v in i.op.args :: v !in Structs(f, rt).values)
                 && (i.op.Binary? || i.op.Unary? ==> forall v | v in Operands(i.op) :: v !in Structs(f, rt).values)
  {
    TypableSimple(f, rt);
    hide Typable, Structs, AllInstrs;
  }

  /** All operations but loads and stores. */
  lemma OtherApart(f: Function, rt: Returns, i: Instr)
    requires Typable(f, rt) && i in AllInstrs(f.blocks) && !i.op.LoadLocal? && !i.op.StoreLocal?
    ensures CodeApart(EmitFunction(f, Analysis(f, rt)), EmitInstr(Analysis(f, rt), i)) <==> InstrApart(f, rt, i)
  {
    hide *;
    var lay := Analysis(f, rt);
    var cf := EmitFunction(f, lay);
    TypableParts(f, rt);
    OtherMeans(f, rt, i);
    InstrKnown(f, rt, i);
    if i.op.Alloca? || i.op.Unit? {
      DefaultsApart(cf, lay, i);
    } else if i.op.Call? {
      ArgsOperands(i);
      CallApart(cf, lay, Structs(f, rt).values, i);
    } else {
      ResultAgrees(f, rt, i);
      OperatorApart(cf, lay, Structs(f, rt).values, i);
    }
  }

  lemma ArgsOperands(i: Instr)
    requires i.op.Call?
    ensures forall v :: v in i.op.args <==> v in Operands(i.op)
  {
  }

  /** One instruction's lines keep structures apart exactly when the flow does there. */
  lemma InstrExactly(f: Function, rt: Returns, i: Instr)
    requires Typable(f, rt) && i in AllInstrs(f.blocks)
    ensures CodeApart(EmitFunction(f, Analysis(f, rt)), EmitInstr(Analysis(f, rt), i)) <==> InstrApart(f, rt, i)
  {
    hide *;
    if i.op.LoadLocal? {
      LoadApart(f, rt, i);
    } else if i.op.StoreLocal? {
      StoreApart(f, rt, i);
    } else {
      OtherApart(f, rt, i);
    }
  }

  // ----- terminators

  lemma TermDefined(f: Function, b: Block, v: ValueId)
    requires Compilable(f) && b in f.blocks && v in TermOperands(b.term)
    ensures DefinedIn(AllInstrs(f.blocks), v)
  {
    var lines := Lines(f.blocks);
    LinesInstrs(f.blocks);
    var m := LineOfTerm(f.blocks, b);
    assert LineOk(f, lines[..m], lines[m]);
    hide Lines, AllInstrs, InstrsIn, TermOperands, LocalVars;
    var l :| l in lines[..m] && l.Does? && l.instr.result == v;
    ResultsOfInstrs(lines, v);
    assert l in lines;
  }

  lemma {:induction false} LineOfTerm(blocks: seq<Block>, b: Block) returns (m: nat)
    requires b in blocks
    ensures m < |Lines(blocks)| && Lines(blocks)[m] == Ends(b.term)
  {
    if blocks[0] == b {
      m := |BlockLines(b)| - 1;
    } else {
      m := LineOfTerm(blocks[1..], b);
      m := |BlockLines(blocks[0])| + m;
    }
  }

  /** A terminator, given the types of what it reads and of the function. */
  lemma TermTyped(cf: CFunction, lay: Layout, structs: set<ValueId>, t: Terminator, isMain: bool)
    requires forall v | v in TermOperands(t) :: Known(cf, lay, structs, v)
    requires cf.ret != Enum
    ensures StmtApart(cf, EmitTerm(t, isMain))
            <==> match t
                 case Return(v) => if isMain then v !in structs else v in structs <==> Aggregate(cf.ret)
                 case ReturnVoid => !Aggregate(cf.ret)
                 case Branch(c, _, _) => c !in structs
                 case Switch(d, _, _) => d !in structs
                 case _ => true
  {
    hide ValueName, Scalar, Receives;
    match t {
      case Return(v) => assert v in TermOperands(t);
      case Branch(c, _, _) => assert c in TermOperands(t);
      case Switch(d, _, _) => assert d in TermOperands(t);
      case _ =>
    }
  }

  lemma ReturnTyped(f: Function, rt: Returns)
    requires Typable(f, rt)
    ensures var ret := EmitFunction(f, Analysis(f, rt)).ret;
            ret != Enum && (Aggregate(ret) <==> !IsMain(f) && ReturnsStruct(f, rt))
  {
    TypableSimple(f, rt);
    TypableParts(f, rt);
    ReturnTypeStruct(f, rt);
    hide AllInstrs, Analysis, Compilable, ReturnsStruct, AllEmittable, Typable, EmitAliases, EmitBlocks;
  }

  lemma TermExactly(f: Function, rt: Returns, b: Block)
    requires Typable(f, rt) && b in f.blocks
    ensures StmtApart(EmitFunction(f, Analysis(f, rt)), EmitTerm(b.term, IsMain(f))) <==> TermApart(f, rt, b.term)
  {
    var lay := Analysis(f, rt);
    var cf := EmitFunction(f, lay);
    TypableParts(f, rt);
    ReturnTyped(f, rt);
    hide AllInstrs, Analysis, EmitFunction, Structs, Compilable, IsMain, ReturnsStruct, AllEmittable, Typable, Known,
         StmtApart, EmitTerm;
    forall v | v in TermOperands(b.term)
      ensures Known(cf, lay, Structs(f, rt).values, v)
    {
      TermDefined(f, b, v);
      ValueKnown(f, rt, v);
    }
    TermTyped(cf, lay, Structs(f, rt).values, b.term, IsMain(f));
  }

  // ----- the whole function

  lemma AliasApart(f: Function, rt: Returns, k: nat)
    requires Typable(f, rt) && k < |f.params|
    ensures StmtApart(EmitFunction(f, Analysis(f, rt)), Alias(f, Analysis(f, rt), k))
  {
    hide *;
    var lay := Analysis(f, rt);
    TypableParts(f, rt);
    MainBare(f);
    ParamHasType(f, lay, k);
    EmittedLegal(f, lay);
    TypedName(EmitFunction(f, lay), ParamName(k), ParamType(lay, k));
    AliasReceives(EmitFunction(f, lay), f, lay, k);
  }

  lemma MainBare(f: Function)
    requires Compilable(f)
    ensures IsMain(f) ==> f.params == []
  {
  }

  lemma AliasReceives(cf: CFunction, f: Function, lay: Layout, k: nat)
    requires k < |f.params| && forall to :: Receives(cf, to, ParamName(k)) <==> Assignable(to, ParamType(lay, k))
    ensures StmtApart(cf, Alias(f, lay, k))
  {
    hide Receives, ParamName, LocalName;
  }

  /**
   The emitted function mixes a structure with something else in no line, exactly when structures
   flow from copied locals and calls into the right variables only.
   */
  lemma StructsApartExactly(f: Function, rt: Returns)
    requires Typable(f, rt)
    ensures StructsApart(EmitFunction(f, Analysis(f, rt))) <==> FlowsApart(f, rt)
  {
    var lay := Analysis(f, rt);
    var cf := EmitFunction(f, lay);
    hide Analysis, EmitFunction, StmtApart, EmitTerm, EmitInstr, TermApart, InstrApart, Typable, Alias, IsMain;
    forall b | b in f.blocks
      ensures EmitTerm(b.term, IsMain(f)) in cf.body
      ensures StmtApart(cf, EmitTerm(b.term, IsMain(f))) <==> TermApart(f, rt, b.term)
    {
      TermExactly(f, rt, b);
      InFunction(f, lay, EmitTerm(b.term, IsMain(f)));
      assert InBlock(lay, b, IsMain(f), EmitTerm(b.term, IsMain(f)));
    }
    forall b, i | b in f.blocks && i in b.instrs
      ensures CodeApart(cf, EmitInstr(lay, i)) <==> InstrApart(f, rt, i)
      ensures forall s | s in EmitInstr(lay, i) :: s in cf.body
    {
      InAllInstrs(f.blocks, b, i);
      InstrExactly(f, rt, i);
      forall s | s in EmitInstr(lay, i)
        ensures s in cf.body
      {
        InstrLine(f, lay, b, i, s);
      }
    }
    if FlowsApart(f, rt) {
      forall s | s in cf.body
        ensures StmtApart(cf, s)
      {
        StmtFrom(f, rt, s);
      }
    }
  }

  lemma StmtFrom(f: Function, rt: Returns, s: CStmt)
    requires Typable(f, rt) && FlowsApart(f, rt) && s in EmitFunction(f, Analysis(f, rt)).body
    ensures StmtApart(EmitFunction(f, Analysis(f, rt)), s)
  {
    var lay := Analysis(f, rt);
    InFunction(f, lay, s);
    hide Analysis, EmitFunction, StmtApart, EmitTerm, EmitInstr, TermApart, InstrApart, Typable, Alias, IsMain;
    if k :| 0 <= k < |f.params| && s == Alias(f, lay, k) {
      AliasApart(f, rt, k);
    } else {
      var b :| b in f.blocks && InBlock(lay, b, IsMain(f), s);
      if s == Label(b.id) {
        LabelApart(EmitFunction(f, lay), b.id);
      } else if s == EmitTerm(b.term, IsMain(f)) {
        TermExactly(f, rt, b);
      } else {
        var i :| i in b.instrs && s in EmitInstr(lay, i);
        InAllInstrs(f.blocks, b, i);
        InstrExactly(f, rt, i);
      }
    }
  }

  lemma LabelApart(cf: CFunction, id: nat)
    ensures StmtApart(cf, Label(id))
  {
  }

  // ----- in a module

  ghost predicate SimpleModule(fs: seq<Function>) {
    forall f | f in fs :: Compilable(f) && AllEmittable(f.blocks)
  }

  lemma {:induction false} DeclaredNoEnums(fs: seq<Function>)
    ensures NoEnums(DeclaredReturns(fs))
  {
    if fs != [] {
      DeclaredNoEnums(fs[..|fs| - 1]);
    }
  }

  lemma EntryNoEnum(f: Function, rt: Returns)
    requires Compilable(f) && AllEmittable(f.blocks) && NoEnums(rt)
    ensures NoEnums(rt[f.name := Analysis(f, rt).returnTy])
  {
    hide Analysis, Compilable, AllInstrs;
    forall i | i in AllInstrs(f.blocks)
      ensures SimpleOp(i.op)
    {
      var b := BlockOf(f.blocks, i);
    }
    ReturnTypeStruct(f, rt);
  }

  lemma {:induction false} WithinNoEnums(fs: seq<Function>, rt: Returns, n: nat)
    requires SimpleModule(fs) && NoEnums(rt) && n <= |fs|
    ensures NoEnums(Within(fs, rt, n))
  {
    hide Analysis, Compilable, AllEmittable, NoEnums;
    if n > 0 {
      WithinNoEnums(fs, rt, n - 1);
      assert fs[n - 1] in fs;
      EntryNoEnum(fs[n - 1], Within(fs, rt, n - 1));
    }
  }

  /** No pass over a module of simple functions finds an enum. */
  lemma {:induction false} PassesNoEnums(fs: seq<Function>, k: nat)
    requires SimpleModule(fs)
    ensures NoEnums(Passes(fs, k))
  {
    hide SimpleModule, NoEnums, Within;
    if k == 0 {
      DeclaredNoEnums(fs);
    } else {
      PassesNoEnums(fs, k - 1);
      PassStep(fs, k);
      WithinNoEnums(fs, Passes(fs, k - 1), |fs|);
    }
  }

  /** So much for the layouts the inference ends with. */
  lemma ModuleApartExactly(fs: seq<Function>, layouts: map<string, Layout>, k: nat, f: Function)
    requires SimpleModule(fs) && Settled(fs, Passes(fs, k), layouts) && f in fs && OwnLocals(f)
    ensures f.name in layouts
    ensures StructsApart(EmitFunction(f, layouts[f.name])) <==> FlowsApart(f, Passes(fs, k))
  {
    PassesNoEnums(fs, k);
    hide Compilable, AllEmittable, OwnLocals, StructsApart, FlowsApart, NoEnums, Analysis, EmitFunction, Passes,
         Unchanged;
    assert Typable(f, Passes(fs, k));
    StructsApartExactly(f, Passes(fs, k));
  }

  // ----- stores in plain terms

  /** The value was loaded from an allocated local that is itself stored a load of one. */
  ghost predicate LoadsCopied(f: Function, v: ValueId) {
    exists d :: d in AllInstrs(f.blocks) && d.result == v && d.op.LoadLocal?
                && d.op.local !in ParamNames(f) && StoresLoaded(f, d.op.local)
  }

  ghost predicate Plain(f: Function, rt: Returns) {
    Typable(f, rt) && AllocatedAbove(f) && ParamsKept(f) && StoresPlain(f) && NoStructCalls(f, rt)
  }

  lemma PlainParts(f: Function, rt: Returns)
    requires Plain(f, rt)
    ensures Typable(f, rt) && AllocatedAbove(f) && ParamsKept(f) && StoresPlain(f) && NoStructCalls(f, rt)
    ensures Compilable(f)
  {
  }

  lemma FlowByLoad(rt: Returns, m: Flow, d: Instr)
    requires d.result !in m.values && (d.op.Call? ==> CallType(rt, d.op.callee) != Struct)
    requires !d.op.Copy? && !d.op.StoreLocal? && !d.op.Alloca?
    ensures d.result in FlowBy(rt, m, d).values <==> d.op.LoadLocal? && d.op.local in m.locals
  {
    hide IsPrintBuiltin;
  }

  lemma CallScalar(f: Function, rt: Returns, k: nat)
    requires NoStructCalls(f, rt) && k < |AllInstrs(f.blocks)| && AllInstrs(f.blocks)[k].op.Call?
    ensures CallType(rt, AllInstrs(f.blocks)[k].op.callee) != Struct
  {
    hide AllInstrs, CallType;
    assert AllInstrs(f.blocks)[k] in AllInstrs(f.blocks);
  }

  lemma InSources(f: Function, x: string)
    ensures x in Sources(f) <==> x in Copied(AllInstrs(f.blocks)) && x !in ParamNames(f)
  {
  }

  /** With plain stores, loads yield structures exactly from the locals that are stored loads. */
  lemma PlainLoad(f: Function, rt: Returns, k: nat)
    requires Plain(f, rt) && k < |AllInstrs(f.blocks)|
    requires var op := AllInstrs(f.blocks)[k].op; !op.Copy? && !op.StoreLocal? && !op.Alloca?
    ensures var d := AllInstrs(f.blocks)[k];
            d.result in Structs(f, rt).values
            <==> d.op.LoadLocal? && d.op.local !in ParamNames(f) && StoresLoaded(f, d.op.local)
  {
    hide *;
    var d := AllInstrs(f.blocks)[k];
    PlainParts(f, rt);
    SettledHere(f, rt, k);
    PlainStep(f, rt, k);
    if d.op.Call? {
      CallScalar(f, rt, k);
    }
    FlowByLoad(rt, FlowOf(rt, Sources(f), AllInstrs(f.blocks)[..k]), d);
    if d.op.LoadLocal? {
      InSources(f, d.op.local);
      CopiedDirectly(f, d.op.local);
    }
  }

  lemma PlainValue(f: Function, rt: Returns, i: Instr)
    requires Plain(f, rt) && i in AllInstrs(f.blocks) && i.op.StoreLocal?
    ensures i.op.value in Structs(f, rt).values <==> LoadsCopied(f, i.op.value)
  {
    PlainParts(f, rt);
    assert i.op.value in Operands(i.op);
    OperandDefined(f, i, i.op.value);
    hide AllInstrs, Compilable, AllocatedAbove, ParamsKept, StoresLoaded, Typable, Structs, Plain, NoStructCalls,
         ParamNames, Operands, LoadsCopied;
    var all := AllInstrs(f.blocks);
    var d :| d in all && d.result == i.op.value;
    assert !d.op.Copy? && !d.op.StoreLocal? && !d.op.Alloca?;
    hide StoresPlain;
    var k :| 0 <= k < |all| && all[k] == d;
    PlainLoad(f, rt, k);
    OnlyResult(f, d);
  }

  /** The instruction that yields a value says whether it was loaded. */
  lemma OnlyResult(f: Function, d: Instr)
    requires Compilable(f) && d in AllInstrs(f.blocks)
    ensures LoadsCopied(f, d.result)
            <==> d.op.LoadLocal? && d.op.local !in ParamNames(f) && StoresLoaded(f, d.op.local)
  {
    var all := AllInstrs(f.blocks);
    CompilableUnique(f);
    hide AllInstrs, Compilable, StoresLoaded, ParamNames;
    forall e | e in all && e.result == d.result
      ensures e == d
    {
      var j :| 0 <= j < |all| && all[j] == e;
      var k :| 0 <= k < |all| && all[k] == d;
    }
    hide UniqueResults;
  }

  /**
   The assignment a store prints is rejected exactly when its local is stored some load of an
   allocated local, and this value is not the load of a local that is stored one too.
   */
  lemma StoreRejectedExactly(f: Function, rt: Returns, i: Instr)
    requires Plain(f, rt) && i in AllInstrs(f.blocks) && i.op.StoreLocal?
    ensures var s := Assign(LocalName(i.op.target), ValueName(i.op.value));
            && s in EmitInstr(Analysis(f, rt), i)
            && (!StmtApart(EmitFunction(f, Analysis(f, rt)), s)
                <==> StoresLoaded(f, i.op.target) && !LoadsCopied(f, i.op.value))
  {
    PlainParts(f, rt);
    StoreApart(f, rt, i);
    PlainValue(f, rt, i);
    TypableSimple(f, rt);
    TypableParts(f, rt);
    var y := i.op.target;
    assert y !in ParamNames(f);
    hide AllInstrs, Analysis, EmitFunction, Compilable, AllocatedAbove, StoresPlain, StoresLoaded, Typable, Structs,
         Plain, NoStructCalls, ParamNames, LocalName, ValueName, StmtApart, ParamsKept, EmitInstr, SimpleOp;
    StructExactlyWhenStoredLoaded(f, rt, y);
    StructsExactly(f, rt);
    if LoadsCopied(f, i.op.value) {
      LoadedStored(f, i);
    }
  }

  /** Storing such a load makes the target one of those locals itself. */
  lemma LoadedStored(f: Function, i: Instr)
    requires i in AllInstrs(f.blocks) && i.op.StoreLocal? && LoadsCopied(f, i.op.value)
    ensures StoresLoaded(f, i.op.target)
  {
    hide AllInstrs, ParamNames;
    var d :| d in AllInstrs(f.blocks) && d.result == i.op.value && d.op.LoadLocal?
             && d.op.local !in ParamNames(f) && StoresLoaded(f, d.op.local);
    assert i.op == StoreLocal(i.op.target, d.result);
  }

  /** A store of a structure yields one. */
  lemma StoreYields(f: Function, rt: Returns, i: Instr)
    requires Compilable(f) && i in AllInstrs(f.blocks) && i.op.StoreLocal?
    ensures i.op.value in Structs(f, rt).values ==> i.result in Structs(f, rt).values
  {
    var all := AllInstrs(f.blocks);
    hide AllInstrs, Compilable, FlowOf, Sources, Structs;
    var k :| 0 <= k < |all| && all[k] == i;
    SettledHere(f, rt, k);
    CompilableInstr(f, k);
    assert i.op.value in Operands(i.op);
    OperandSettled(f, rt, k, i.op.value);
  }

  lemma NothingApart(f: Function, rt: Returns)
    requires Structs(f, rt) == Flow({}, {})
    ensures FlowsApart(f, rt)
  {
    hide Structs, IsMain;
  }

  lemma NoStructs(f: Function, rt: Returns)
    requires NoStructCalls(f, rt) && Copied(AllInstrs(f.blocks)) <= ParamNames(f)
    ensures Structs(f, rt) == Flow({}, {})
  {
    assert Sources(f) == {};
    NothingFlows(rt, AllInstrs(f.blocks));
    hide AllInstrs, Copied, ParamNames, FlowOf;
  }

  /** Without copied locals and calls that return structures there is nothing to mix. */
  lemma UncopiedApart(f: Function, rt: Returns)
    requires Typable(f, rt) && NoStructCalls(f, rt) && Copied(AllInstrs(f.blocks)) <= ParamNames(f)
    ensures StructsApart(EmitFunction(f, Analysis(f, rt)))
  {
    hide *;
    NoStructs(f, rt);
    NothingApart(f, rt);
    StructsApartExactly(f, rt);
  }

  /** Copying an allocated local that is not itself a copy is always rejected. */
  lemma LoneCopyRejected(f: Function, rt: Returns, i: Instr, d: Instr)
    requires Plain(f, rt) && i in AllInstrs(f.blocks) && d in AllInstrs(f.blocks)
    requires i.op.StoreLocal? && i.op.value == d.result
    requires d.op.LoadLocal? && d.op.local !in ParamNames(f) && !StoresLoaded(f, d.op.local)
    ensures var cf, s := EmitFunction(f, Analysis(f, rt)), Assign(LocalName(i.op.target), ValueName(d.result));
            && HasType(cf, LocalName(i.op.target), Struct) && Scalar(cf, ValueName(d.result))
            && s in cf.body && !StmtApart(cf, s) && !StructsApart(cf)
  {
    var lay := Analysis(f, rt);
    PlainParts(f, rt);
    assert StoresLoaded(f, i.op.target) by {
      assert i.op == StoreLocal(i.op.target, d.result);
      hide AllInstrs;
    }
    hide AllInstrs, Analysis, EmitFunction, Compilable, AllocatedAbove, StoresPlain, StoresLoaded, Typable, Structs,
         Plain, NoStructCalls, ParamNames, LocalName, ValueName, StmtApart, ParamsKept, EmitInstr, HasType, Scalar,
         LoadsCopied, StructVars;
    StoreRejectedExactly(f, rt, i);
    OnlyResult(f, d);
    PlainValue(f, rt, i);
    ResultDefined(f, d);
    ValueTyped(f, rt, d.result);
    var b := BlockOf(f.blocks, i);
    InstrLine(f, lay, b, i, Assign(LocalName(i.op.target), ValueName(d.result)));
    StoredHasType(f, rt, i);
  }

  lemma StoredHasType(f: Function, rt: Returns, i: Instr)
    requires Plain(f, rt) && i in AllInstrs(f.blocks) && i.op.StoreLocal? && StoresLoaded(f, i.op.target)
    ensures HasType(EmitFunction(f, Analysis(f, rt)), LocalName(i.op.target), Struct)
  {
    var y := i.op.target;
    PlainParts(f, rt);
    TypableSimple(f, rt);
    TypableParts(f, rt);
    assert y !in ParamNames(f) && OwnLocals(f);
    assert NoEnums(rt);
    hide AllInstrs, Analysis, EmitFunction, Compilable, AllocatedAbove, StoresPlain, StoresLoaded, Typable, Structs,
         Plain, NoStructCalls, ParamNames, LocalName, ParamsKept, HasType, SimpleOp, Emittable;
    StructExactlyWhenStoredLoaded(f, rt, y);
    StructsExactly(f, rt);
    var t := LocalTyped(f, rt, y);
  }
}
