/**
 From MIR to emitted C with the inference in between: in a module that respects its kinds, the types at
 the fixpoint are those of the values every run computes, so the emitted program simulates the module.
 */
module CFit {
  import opened CCalls
  import opened CCopies
  import opened CCorrectness
  import opened CEmission
  import opened CInference
  import opened CKinds
  import opened CLegal
  import opened CLiterals
  import opened CMachine
  import opened CNames
  import opened CTypes
  import opened CTyping
  import opened Mir
  import opened MirEval
  import opened MirKinds
  import opened MirMachine
  import opened MirRuns
  import opened Options
  import opened Words

  // ----- the MIR side

  predicate DeclaredIn(f: Function, prior: seq<Instr>, x: string) {
    (exists p | p in f.params :: p.name == x) || (exists i | i in prior :: i.op.Alloca? && i.op.slot == x)
  }

  /** Locals are declared and operands computed earlier in the text; calls stay in the module. */
  ghost predicate Placed(f: Function, prior: seq<Instr>, op: Op) {
    && (forall v | v in Operands(op) :: DefinedIn(prior, v))
    && (op.LoadLocal? ==> DeclaredIn(f, prior, op.local))
    && (op.StoreLocal? ==> DeclaredIn(f, prior, op.target))
    && (op.Call? ==> !IsBuiltin(op.callee))
  }

  ghost predicate InstrKinded(fs: seq<Function>, km: KindMap, f: Function, prior: seq<Instr>, i: Instr)
    requires f.name in km
  {
    InstrKinds(fs, km, f, i) && Placed(f, prior, i.op)
  }

  /** What a function returns besides units, which stand for no string, and are no float by themselves. */
  ghost predicate ReturnsKinded(kinds: Kinds, f: Function) {
    && (kinds.result == StrK ==>
          forall b | b in f.blocks && b.term.Return? :: kinds.Value(b.term.returned) == StrK)
    && (kinds.result == FloatK ==>
          (forall b | b in f.blocks :: !b.term.Return?)
          || exists b :: b in f.blocks && b.term.Return? && kinds.Value(b.term.returned) == FloatK)
  }

  /** A function that respects its kinds, in the order of its text, with no local copied from an allocated one. */
  ghost predicate FunctionKinded(fs: seq<Function>, km: KindMap, f: Function) {
    && f.name in km
    && UniqueResults(f)
    && Copied(AllInstrs(f.blocks)) <= ParamNames(f)
    && (forall p | p in f.params :: DeclaredAs(km[f.name].Local(p.name), p.ty))
    && var instrs := AllInstrs(f.blocks);
    && (forall k | 0 <= k < |instrs| :: InstrKinded(fs, km, f, instrs[..k], instrs[k]))
    && (forall b | b in f.blocks ::
          TermKinds(km, f, b.term) && forall v | v in TermOperands(b.term) :: DefinedIn(instrs, v))
    && ReturnsKinded(km[f.name], f)
    && DeclaredAs(km[f.name].result, f.returnTy)
  }

  ghost predicate ModuleKinded(fs: seq<Function>, km: KindMap) {
    forall f | f in fs :: FunctionKinded(fs, km, f)
  }

  /** Literals C can spell, and names that are known. */
  predicate Printable(names: set<string>, op: Op) {
    match op
    case ConstInt(c) => c != -TWO_63
    case ConstFloat(r) => RealLiteral(r).Some?
    case ConstString(text) => Quotable(text)
    case LoadLocal(x) => x in names
    case StoreLocal(x, _) => x in names
    case Alloca(x, _) => x in names
    case Call(callee, _) => callee != "main"
    case _ => true
  }

  /** What the C of a function needs besides. `main` returns C's int, and a string is not zero. */
  ghost predicate FunctionPrintable(km: KindMap, names: set<string>, f: Function) {
    && f.name in km
    && f.blocks != [] && f.blocks[0].id == f.entry
    && Compilable(f) && CName(f.name) != CONCAT
    && LocalsApart(names)
    && (forall p | p in f.params :: p.name in names)
    && (forall i | i in AllInstrs(f.blocks) :: Printable(names, i.op))
    && (IsMain(f) ==> km[f.name].result in {IntK, BoolK, UnitK})
    && (forall b | b in f.blocks && b.term.ReturnVoid? :: km[f.name].result != StrK)
  }

  // ----- locals begin with the parameters

  ghost predicate Entries(f: Function, kinds: Kinds, lay: Layout, n: nat)
    requires n <= |f.params|
  {
    forall k | 0 <= k < n ::
      f.params[k].name in lay.locals && Roomy(lay.locals[f.params[k].name], kinds.Local(f.params[k].name))
  }

  lemma {:induction false} ParamsEnter(f: Function, kinds: Kinds, lay: Layout, n: nat)
    requires n <= |f.params| == |lay.params|
    requires forall k | 0 <= k < |f.params| :: Roomy(lay.params[k], kinds.Local(f.params[k].name))
    ensures Entries(f, kinds, BindParams(f, lay, n), n)
  {
    hide Roomy;
    if n > 0 {
      ParamsEnter(f, kinds, lay, n - 1);
    }
  }

  /** The inference reads a declared type as one with room for what is declared. */
  lemma DeclaredRoomy(k: Kind, ty: TypeId)
    requires DeclaredAs(k, ty)
    ensures Roomy(OrElse(TypeOfId(ty), Int), k)
  {
  }

  // ----- the second pass

  /** Every type found so far has room for what it types. */
  ghost predicate Fits(f: Function, kinds: Kinds, lay: Layout, prior: seq<Instr>) {
    && (forall x | x in lay.locals :: Roomy(lay.locals[x], kinds.Local(x)))
    && (forall x | DeclaredIn(f, prior, x) :: x in lay.locals)
    && (forall i | i in prior :: i.result in lay.values && Roomy(lay.values[i.result], kinds.Value(i.result)))
  }

  ghost predicate ReturnsFit(fs: seq<Function>, km: KindMap, rt: Returns) {
    && (forall f | f in fs :: f.name in rt)
    && (forall g | g in rt :: g in km && Roomy(rt[g], km[g].result))
  }

  lemma BinaryRoomy(op: BinOp, l: CType, r: CType, k: Kind, k': Kind)
    requires Roomy(l, k) && Roomy(r, k')
    ensures Roomy(InferBinOp(op, l, r), BinaryKind(op, k, k'))
  {
  }

  lemma UnaryRoomy(op: UnOp, t: CType, k: Kind)
    requires Roomy(t, k)
    ensures Roomy(InferUnOp(op, t), UnaryKind(op, k))
  {
  }

  lemma ResultFits(fs: seq<Function>, km: KindMap, f: Function, lay: Layout, rt: Returns, prior: seq<Instr>, i: Instr)
    requires f.name in km && Fits(f, km[f.name], lay, prior)
    requires InstrKinded(fs, km, f, prior, i) && ReturnsFit(fs, km, rt)
    ensures Roomy(InferResult(lay, rt, i), km[f.name].Value(i.result))
    ensures i.op.StoreLocal? ==> Roomy(InferResult(lay, rt, i), km[f.name].Local(i.op.target))
    ensures i.op.Alloca? ==> Roomy(InferResult(lay, rt, i), km[f.name].Local(i.op.slot))
  {
    hide IsPrintBuiltin, BuiltinType, InferBinOp, InferUnOp, BinaryKind, UnaryKind, TypeOfId, KindOfId;
    var kinds := km[f.name];
    forall v | v in Operands(i.op)
      ensures Roomy(lay.ValueType(v), kinds.Value(v))
    {
      assert DefinedIn(prior, v);
    }
    match i.op {
      case Binary(op, l, r) =>
        assert l in Operands(i.op) && r in Operands(i.op);
        BinaryRoomy(op, lay.ValueType(l), lay.ValueType(r), kinds.Value(l), kinds.Value(r));
      case Unary(op, v) =>
        assert v in Operands(i.op);
        UnaryRoomy(op, lay.ValueType(v), kinds.Value(v));
      case Copy(v) => assert v in Operands(i.op);
      case StoreLocal(x, v) =>
        assert v in Operands(i.op);
        StoreRoomy(lay.ValueType(v), kinds.Value(v), lay.locals[x], kinds.Local(x));
      case Alloca(_, ty) => DeclaredRoomy(KindOfId(ty), ty);
      case _ =>
    }
  }

  /** The type of a local has room for what is stored in it. */
  lemma StoreRoomy(t: CType, k: Kind, u: CType, l: Kind)
    requires Roomy(t, k) && Roomy(u, l) && Admits(l, k)
    ensures Roomy(u, k) && t != Enum && t != Struct
  {
  }

  ghost predicate AllKinded(fs: seq<Function>, km: KindMap, f: Function, instrs: seq<Instr>)
    requires f.name in km
  {
    && (forall i, j | 0 <= i < j < |instrs| :: instrs[i].result != instrs[j].result)
    && (forall k | 0 <= k < |instrs| :: InstrKinded(fs, km, f, instrs[..k], instrs[k]))
  }

  lemma LastKinded(fs: seq<Function>, km: KindMap, f: Function, instrs: seq<Instr>)
    requires f.name in km && AllKinded(fs, km, f, instrs) && instrs != []
    ensures var n := |instrs| - 1;
            && AllKinded(fs, km, f, instrs[..n])
            && InstrKinded(fs, km, f, instrs[..n], instrs[n])
            && (forall p | p in instrs[..n] :: p.result != instrs[n].result)
            && instrs == instrs[..n] + [instrs[n]]
  {
    hide InstrKinded;
    var n := |instrs| - 1;
    forall k | 0 <= k < n
      ensures InstrKinded(fs, km, f, instrs[..n][..k], instrs[..n][k])
    {
      assert instrs[..n][..k] == instrs[..k];
    }
  }

  lemma InferLast(lay: Layout, rt: Returns, instrs: seq<Instr>)
    ensures instrs == [] ==> InferInstrs(lay, rt, instrs) == lay
    ensures instrs != [] ==> var n := |instrs| - 1;
            InferInstrs(lay, rt, instrs) == InferInstr(InferInstrs(lay, rt, instrs[..n]), rt, instrs[n])
  {
    hide InferInstr;
  }

  lemma {:induction false} PassFits(fs: seq<Function>, km: KindMap, f: Function, lay: Layout,
                                    rt: Returns, instrs: seq<Instr>)
    requires f.name in km && Fits(f, km[f.name], lay, []) && ReturnsFit(fs, km, rt)
    requires AllKinded(fs, km, f, instrs)
    ensures Fits(f, km[f.name], InferInstrs(lay, rt, instrs), instrs)
    ensures InferInstrs(lay, rt, instrs).params == lay.params && InferInstrs(lay, rt, instrs).returnTy == lay.returnTy
    decreases |instrs|
  {
    hide *;
    InferLast(lay, rt, instrs);
    if instrs != [] {
      var n := |instrs| - 1;
      LastKinded(fs, km, f, instrs);
      PassFits(fs, km, f, lay, rt, instrs[..n]);
      FitStep(fs, km, f, InferInstrs(lay, rt, instrs[..n]), rt, instrs[..n], instrs[n]);
    }
  }

  lemma FitStep(fs: seq<Function>, km: KindMap, f: Function, lay: Layout, rt: Returns,
                prior: seq<Instr>, i: Instr)
    requires f.name in km && Fits(f, km[f.name], lay, prior)
    requires InstrKinded(fs, km, f, prior, i) && ReturnsFit(fs, km, rt)
    requires forall p | p in prior :: p.result != i.result
    ensures Fits(f, km[f.name], InferInstr(lay, rt, i), prior + [i])
    ensures InferInstr(lay, rt, i).params == lay.params && InferInstr(lay, rt, i).returnTy == lay.returnTy
  {
    hide *;
    ResultFits(fs, km, f, lay, rt, prior, i);
    NoCells(fs, km, f, prior, i);
    FitNext(f, km[f.name], lay, rt, prior, i);
  }

  lemma NoCells(fs: seq<Function>, km: KindMap, f: Function, prior: seq<Instr>, i: Instr)
    requires f.name in km && InstrKinded(fs, km, f, prior, i)
    ensures !i.op.ArcAlloc?
  {
    assert OpKinds(fs, km, km[f.name], i.op);
    hide Placed;
  }

  lemma FitNext(f: Function, kinds: Kinds, lay: Layout, rt: Returns, prior: seq<Instr>, i: Instr)
    requires Fits(f, kinds, lay, prior) && !i.op.ArcAlloc?
    requires forall p | p in prior :: p.result != i.result
    requires Roomy(InferResult(lay, rt, i), kinds.Value(i.result))
    requires i.op.StoreLocal? ==> Roomy(InferResult(lay, rt, i), kinds.Local(i.op.target))
    requires i.op.Alloca? ==> Roomy(InferResult(lay, rt, i), kinds.Local(i.op.slot))
    ensures Fits(f, kinds, InferInstr(lay, rt, i), prior + [i])
    ensures InferInstr(lay, rt, i).params == lay.params && InferInstr(lay, rt, i).returnTy == lay.returnTy
  {
    hide InferResult, Roomy;
    forall x | DeclaredIn(f, prior + [i], x)
      ensures x in InferInstr(lay, rt, i).locals
    {
      if !DeclaredIn(f, prior, x) {
        var a :| a in prior + [i] && a.op.Alloca? && a.op.slot == x;
        assert a == i;
      }
    }
  }

  // ----- return types

  /** Integers stand for units beside the kind returned. */
  lemma {:induction false} MergeRoomy(ts: seq<CType>, k: Kind)
    requires forall t | t in ts :: Roomy(t, k) || (t == Int && k != StrK)
    ensures ts != [] ==> MergeAll(ts).Some?
    ensures MergeAll(ts).Some? ==> Roomy(MergeAll(ts).value, k) || (MergeAll(ts).value == Int && k != StrK)
    ensures MergeAll(ts).Some? && Float in ts ==> MergeAll(ts).value == Float
  {
    if |ts| > 1 {
      var front, last := ts[..|ts| - 1], ts[|ts| - 1];
      assert last in ts && ts == front + [last];
      forall t
        ensures t in ts <==> t in front || t == last
      {
      }
      MergeRoomy(front, k);
    } else if |ts| == 1 {
      assert ts == [ts[0]] && ts[0] in ts;
    }
  }

  lemma ReturnedType(fs: seq<Function>, km: KindMap, f: Function, lay: Layout, b: Block)
    requires FunctionKinded(fs, km, f) && Fits(f, km[f.name], lay, AllInstrs(f.blocks))
    requires b in f.blocks && b.term.Return?
    ensures var t, k := lay.ValueType(b.term.returned), km[f.name].Value(b.term.returned);
            && Roomy(t, k) && k in {km[f.name].result, UnitK} && (km[f.name].result == StrK ==> k == StrK)
  {
    hide InstrKinded, Copied, AllInstrs, UniqueResults;
    assert b.term.returned in TermOperands(b.term);
    assert DefinedIn(AllInstrs(f.blocks), b.term.returned);
  }

  lemma ReturnRoomy(fs: seq<Function>, km: KindMap, f: Function, lay: Layout)
    requires FunctionKinded(fs, km, f) && Fits(f, km[f.name], lay, AllInstrs(f.blocks))
    ensures var merged := MergeAll(ReturnTypes(lay, f.blocks));
            merged.Some? ==> Roomy(merged.value, km[f.name].result)
  {
    var ts, k := ReturnTypes(lay, f.blocks), km[f.name].result;
    hide InstrKinded, Copied, AllInstrs, UniqueResults, Fits, TermKinds, ReturnTypes, MergeAll;
    forall t | t in ts
      ensures Roomy(t, k) || (t == Int && k != StrK)
    {
      InReturnTypes(lay, f.blocks, t);
      var b :| b in f.blocks && ReturnsTyped(lay, b, t);
      ReturnedType(fs, km, f, lay, b);
    }
    MergeRoomy(ts, k);
    if k == FloatK && MergeAll(ts).Some? {
      FloatReturned(fs, km, f, lay);
    }
  }

  lemma FloatReturned(fs: seq<Function>, km: KindMap, f: Function, lay: Layout)
    requires FunctionKinded(fs, km, f) && Fits(f, km[f.name], lay, AllInstrs(f.blocks))
    requires km[f.name].result == FloatK && MergeAll(ReturnTypes(lay, f.blocks)).Some?
    ensures Float in ReturnTypes(lay, f.blocks)
  {
    hide InstrKinded, Copied, AllInstrs, UniqueResults, Fits, TermKinds, ReturnTypes;
    MergedSome(ReturnTypes(lay, f.blocks));
    var ts := ReturnTypes(lay, f.blocks);
    var t := ts[0];
    assert t in ts;
    InReturnTypes(lay, f.blocks, t);
    var b :| b in f.blocks && b.term.Return? && km[f.name].Value(b.term.returned) == FloatK;
    ReturnedType(fs, km, f, lay, b);
    InReturnTypes(lay, f.blocks, Float);
    assert ReturnsTyped(lay, b, Float);
  }

  lemma AnalysisFits(fs: seq<Function>, km: KindMap, f: Function, rt: Returns)
    requires FunctionKinded(fs, km, f) && ReturnsFit(fs, km, rt)
    ensures Fits(f, km[f.name], Analysis(f, rt), AllInstrs(f.blocks))
    ensures Roomy(Analysis(f, rt).returnTy, km[f.name].result)
    ensures Analysis(f, rt).params == InitialLayout(f).params
  {
    var instrs, kinds := AllInstrs(f.blocks), km[f.name];
    SeededFits(fs, km, f);
    PassFits(fs, km, f, Seeded(f), rt, instrs);
    var lay := InferInstrs(Seeded(f), rt, instrs);
    ReturnRoomy(fs, km, f, lay);
    DeclaredRoomy(kinds.result, f.returnTy);
    hide Seeded, InferInstrs, InstrKinded, ReturnTypes, MergeAll, Copied, TermKinds, ReturnsKinded;
  }

  lemma SeededFits(fs: seq<Function>, km: KindMap, f: Function)
    requires FunctionKinded(fs, km, f)
    ensures Fits(f, km[f.name], Seeded(f), [])
    ensures Seeded(f).params == InitialLayout(f).params && Seeded(f).returnTy == InitialLayout(f).returnTy
  {
    OnlySimple(fs, km, f);
    SeededHas(f);
    ParamsFit(fs, km, f);
    hide InstrKinded, TermKinds, AllInstrs, Seeded, MarksOf, Copied, Roomy, InitialLayout, ReturnsKinded, UniqueResults,
         DeclaredAs;
    forall x | x in Seeded(f).locals
      ensures Roomy(Seeded(f).locals[x], km[f.name].Local(x))
    {
      var p :| p in f.params && p.name == x;
      var k :| 0 <= k < |f.params| && f.params[k] == p;
    }
  }

  lemma ParamsFit(fs: seq<Function>, km: KindMap, f: Function)
    requires FunctionKinded(fs, km, f) && forall i | i in AllInstrs(f.blocks) :: SimpleOp(i.op)
    ensures Entries(f, km[f.name], Seeded(f), |f.params|)
  {
    var lay := Seed(f, InitialLayout(f), AllInstrs(f.blocks));
    SeedMarks(f, AllInstrs(f.blocks));
    hide InstrKinded, TermKinds, AllInstrs, Seed, MarksOf, Copied, SeedHas, BindParams, ReturnsKinded, UniqueResults,
         DeclaredAs;
    forall k | 0 <= k < |f.params|
      ensures Roomy(lay.params[k], km[f.name].Local(f.params[k].name))
    {
      assert f.params[k] in f.params;
      DeclaredRoomy(km[f.name].Local(f.params[k].name), f.params[k].ty);
    }
    ParamsEnter(f, km[f.name], lay, |f.params|);
  }

  lemma OnlySimple(fs: seq<Function>, km: KindMap, f: Function)
    requires FunctionKinded(fs, km, f)
    ensures forall i | i in AllInstrs(f.blocks) :: SimpleOp(i.op)
  {
    var instrs := AllInstrs(f.blocks);
    hide AllInstrs;
    forall i | i in instrs
      ensures SimpleOp(i.op)
    {
      var k :| 0 <= k < |instrs| && instrs[k] == i;
      assert InstrKinded(fs, km, f, instrs[..k], instrs[k]);
    }
  }

  // ----- the module

  lemma {:induction false} DeclaredFit(fs: seq<Function>, km: KindMap)
    requires forall f | f in fs :: f.name in km && DeclaredAs(km[f.name].result, f.returnTy)
    ensures ReturnsFit(fs, km, DeclaredReturns(fs))
  {
    hide Roomy, DeclaredAs, TypeOfId;
    if fs != [] {
      DeclaredFit(fs[..|fs| - 1], km);
      assert fs == fs[..|fs| - 1] + [fs[|fs| - 1]];
      assert fs[|fs| - 1] in fs;
      DeclaredRoomy(km[fs[|fs| - 1].name].result, fs[|fs| - 1].returnTy);
    }
  }

  lemma {:induction false} WithinFits(fs: seq<Function>, km: KindMap, rt: Returns, n: nat)
    requires ModuleKinded(fs, km) && ReturnsFit(fs, km, rt) && n <= |fs|
    ensures ReturnsFit(fs, km, Within(fs, rt, n))
  {
    hide *;
    WithinNext(fs, rt, n);
    if n > 0 {
      WithinFits(fs, km, rt, n - 1);
      var f := fs[n - 1];
      KindKnown(fs, km, f);
      AnalysisFits(fs, km, f, Within(fs, rt, n - 1));
      EntryFits(fs, km, Within(fs, rt, n - 1), f.name, Analysis(f, Within(fs, rt, n - 1)).returnTy);
    }
  }

  lemma WithinNext(fs: seq<Function>, rt: Returns, n: nat)
    requires n <= |fs|
    ensures n == 0 ==> Within(fs, rt, n) == rt
    ensures n > 0 ==> var before := Within(fs, rt, n - 1);
            Within(fs, rt, n) == before[fs[n - 1].name := Analysis(fs[n - 1], before).returnTy]
  {
    hide Analysis;
  }

  lemma EntryFits(fs: seq<Function>, km: KindMap, rt: Returns, name: string, t: CType)
    requires ReturnsFit(fs, km, rt) && name in km && Roomy(t, km[name].result)
    ensures ReturnsFit(fs, km, rt[name := t])
  {
  }

  lemma KindKnown(fs: seq<Function>, km: KindMap, f: Function)
    requires ModuleKinded(fs, km) && f in fs
    ensures f.name in km && FunctionKinded(fs, km, f) && DeclaredAs(km[f.name].result, f.returnTy)
  {
  }

  lemma {:induction false} PassesFit(fs: seq<Function>, km: KindMap, k: nat)
    requires ModuleKinded(fs, km)
    ensures ReturnsFit(fs, km, Passes(fs, k))
  {
    hide ModuleKinded, Within, ReturnsFit, DeclaredReturns;
    if k == 0 {
      forall f | f in fs
        ensures f.name in km && DeclaredAs(km[f.name].result, f.returnTy)
      {
        KindKnown(fs, km, f);
      }
      DeclaredFit(fs, km);
    } else {
      PassesFit(fs, km, k - 1);
      WithinFits(fs, km, Passes(fs, k - 1), |fs|);
    }
  }

  /** The layouts of a quiet pass have room for the kinds of every function. */
  lemma LayoutFits(fs: seq<Function>, km: KindMap, layouts: map<string, Layout>, k: nat, f: Function)
    requires ModuleKinded(fs, km) && Settled(fs, Passes(fs, k), layouts) && f in fs
    ensures f.name in km && f.name in layouts && FunctionKinded(fs, km, f)
    ensures Fits(f, km[f.name], layouts[f.name], AllInstrs(f.blocks))
    ensures Roomy(layouts[f.name].returnTy, km[f.name].result) && layouts[f.name].params == InitialLayout(f).params
  {
    hide FunctionKinded, Fits, Analysis, Roomy, Passes, Unchanged, InitialLayout, AllInstrs;
    PassesFit(fs, km, k);
    AnalysisFits(fs, km, f, Passes(fs, k));
  }

  // ----- what runs make of it

  /** The C type is that of the value: exactly floats are in floats, and strings in strings. */
  predicate Typed(t: CType, v: Value) {
    match v
    case IntV(_) => t == Int
    case BoolV(_) => t == Int || t == Bool
    case FloatV(_) => t == Float
    case StrV(_) => t == Str
    case UnitV => t in {Int, Bool, Float, Str}
  }

  lemma KindTyped(t: CType, k: Kind, v: Value)
    requires Roomy(t, k) && IsOf(v, k)
    ensures Typed(t, v)
  {
  }

  /** Every value and local an activation has computed is of the type its function's layout gives it. */
  ghost predicate FrameTyped(layouts: map<string, Layout>, fr: Frame) {
    && fr.fn.name in layouts
    && (forall i | i in AllInstrs(fr.fn.blocks) && i.result in fr.vals ::
          Typed(layouts[fr.fn.name].ValueType(i.result), fr.vals[i.result]))
    && (forall x | x in fr.locals && DeclaredIn(fr.fn, AllInstrs(fr.fn.blocks), x) ::
          Typed(OrElse(layouts[fr.fn.name].LocalType(x), Int), fr.locals[x]))
  }

  lemma FrameFollows(fs: seq<Function>, km: KindMap, layouts: map<string, Layout>, k: nat, fr: Frame)
    requires ModuleKinded(fs, km) && Settled(fs, Passes(fs, k), layouts) && FrameKinded(fs, km, fr)
    ensures FrameTyped(layouts, fr)
  {
    assert fr.fn in fs;
    hide FrameKinded, Fits, FunctionKinded, ModuleKinded, Settled, Passes, AllInstrs, ParamIds, FrameTyped;
    LayoutFits(fs, km, layouts, k, fr.fn);
    ResultsNoParams(fs, km, fr.fn);
    KindedTyped(fs, km, layouts, fr);
  }

  lemma KindedTyped(fs: seq<Function>, km: KindMap, layouts: map<string, Layout>, fr: Frame)
    requires FrameKinded(fs, km, fr) && fr.fn.name in layouts
    requires Fits(fr.fn, km[fr.fn.name], layouts[fr.fn.name], AllInstrs(fr.fn.blocks))
    requires forall i | i in AllInstrs(fr.fn.blocks) :: i.result !in ParamIds(fr.fn)
    ensures FrameTyped(layouts, fr)
  {
    hide AllInstrs, Roomy, IsOf, Typed, InstrKinds, TermKinds, ParamIds, DeclaredIn;
    forall i | i in AllInstrs(fr.fn.blocks) && i.result in fr.vals
      ensures Typed(layouts[fr.fn.name].ValueType(i.result), fr.vals[i.result])
    {
      KindTyped(layouts[fr.fn.name].ValueType(i.result), km[fr.fn.name].Value(i.result), fr.vals[i.result]);
    }
    forall x | x in fr.locals && DeclaredIn(fr.fn, AllInstrs(fr.fn.blocks), x)
      ensures Typed(OrElse(layouts[fr.fn.name].LocalType(x), Int), fr.locals[x])
    {
      KindTyped(layouts[fr.fn.name].locals[x], km[fr.fn.name].Local(x), fr.locals[x]);
    }
  }

  lemma ResultsNoParams(fs: seq<Function>, km: KindMap, f: Function)
    requires FunctionKinded(fs, km, f)
    ensures forall i | i in AllInstrs(f.blocks) :: i.result !in ParamIds(f)
  {
    var instrs := AllInstrs(f.blocks);
    hide AllInstrs, ParamIds, OpKinds, ResultKind, Placed;
    forall i | i in instrs
      ensures i.result !in ParamIds(f)
    {
      var k :| 0 <= k < |instrs| && instrs[k] == i;
      assert InstrKinded(fs, km, f, instrs[..k], instrs[k]);
    }
  }

  lemma KindedText(fs: seq<Function>, km: KindMap)
    requires ModuleKinded(fs, km)
    ensures ModuleKinds(fs, km)
  {
    hide InstrKinds, TermKinds, DeclaredAs, Copied, UniqueResults, ReturnsKinded;
    forall f | f in fs
      ensures FunctionKinds(fs, km, f)
    {
      var instrs := AllInstrs(f.blocks);
      assert FunctionKinded(fs, km, f);
      hide AllInstrs;
      forall b, i | b in f.blocks && i in b.instrs
        ensures InstrKinds(fs, km, f, i)
      {
        InAllInstrs(f.blocks, b, i);
        var k :| 0 <= k < |instrs| && instrs[k] == i;
        assert InstrKinded(fs, km, f, instrs[..k], instrs[k]);
      }
    }
  }

  /**
   In a module that respects its kinds, whatever the inference settles on: at every point of every run,
   each value computed and each local set is of the C type inferred for it, and so is the result. A value
   that the run makes a float is typed as one, and none that it makes an integer is.
   */
  lemma RunTyped(fs: seq<Function>, km: KindMap, layouts: map<string, Layout>, passes: nat, f: Function,
                 args: seq<Value>, n: nat)
    requires ModuleKinded(fs, km) && Settled(fs, Passes(fs, passes), layouts)
    requires f in fs && ArgsKinded(km, f, args)
    requires Start(f, args).Some? && Steps(fs, Start(f, args).value, n).Some?
    ensures f.name in layouts
    ensures match Steps(fs, Start(f, args).value, n).value
            case Running(top, callers, _) =>
              FrameTyped(layouts, top) && forall fr | fr in callers :: FrameTyped(layouts, fr)
            case Done(v, _) => Typed(layouts[f.name].returnTy, v)
  {
    KindedText(fs, km);
    RunKinded(fs, km, f, args, n);
    LayoutFits(fs, km, layouts, passes, f);
    var s := Steps(fs, Start(f, args).value, n).value;
    hide Steps, ModuleKinded, Settled, ModuleKinds, FrameTyped, ArgsKinded, FrameKinded, FunctionKinded, Fits;
    if s.Done? {
      KindTyped(layouts[f.name].returnTy, km[f.name].result, s.result);
    } else {
      FrameFollows(fs, km, layouts, passes, s.top);
      StackFollows(fs, km, layouts, passes, s.top.fn.name, s.callers);
    }
  }

  lemma {:induction false} StackFollows(fs: seq<Function>, km: KindMap, layouts: map<string, Layout>, k: nat,
                                        callee: string, callers: seq<Frame>)
    requires ModuleKinded(fs, km) && Settled(fs, Passes(fs, k), layouts) && StackKinded(fs, km, callee, callers)
    ensures forall fr | fr in callers :: FrameTyped(layouts, fr)
    decreases |callers|
  {
    hide ModuleKinded, Settled, FrameTyped, FrameKinded;
    if callers != [] {
      FrameFollows(fs, km, layouts, k, callers[0]);
      StackFollows(fs, km, layouts, k, callers[0].fn.name, callers[1..]);
      assert callers == [callers[0]] + callers[1..];
    }
  }

  // ----- the emitted C

  lemma InstrFits(fs: seq<Function>, km: KindMap, names: set<string>, f: Function, lay: Layout, k: nat)
    requires FunctionKinded(fs, km, f) && FunctionPrintable(km, names, f) && k < |AllInstrs(f.blocks)|
    requires Fits(f, km[f.name], lay, AllInstrs(f.blocks))
    ensures InstrOk(fs, km, lay, names, f, AllInstrs(f.blocks)[k])
  {
    var instrs := AllInstrs(f.blocks);
    var i := instrs[k];
    assert InstrKinded(fs, km, f, instrs[..k], i);
    assert i in instrs && Printable(names, i.op);
    hide AllInstrs, Compilable, LocalsApart, Copied, UniqueResults, ResultKind, ReturnsKinded, FunctionKinded,
         RealLiteral, Quotable, IsBuiltin;
    if i.op.Alloca? {
      assert DeclaredIn(f, instrs, i.op.slot);
    }
  }

  lemma LayoutOk(fs: seq<Function>, km: KindMap, names: set<string>, f: Function, lay: Layout)
    requires FunctionKinded(fs, km, f) && FunctionPrintable(km, names, f)
    requires Fits(f, km[f.name], lay, AllInstrs(f.blocks))
    requires Roomy(lay.returnTy, km[f.name].result) && lay.params == InitialLayout(f).params
    ensures FunctionOk(fs, km, lay, names, f)
  {
    var instrs := AllInstrs(f.blocks);
    hide AllInstrs, Compilable, LocalsApart, Copied, UniqueResults, InstrOk, InstrKinded, Fits, Printable;
    forall b | b in f.blocks
      ensures BlockOk(fs, km, lay, names, f, b)
    {
      forall i | i in b.instrs
        ensures InstrOk(fs, km, lay, names, f, i)
      {
        InAllInstrs(f.blocks, b, i);
        var k :| 0 <= k < |instrs| && instrs[k] == i;
        InstrFits(fs, km, names, f, lay, k);
      }
      TermFits(fs, km, names, f, b);
    }
    forall k | 0 <= k < |f.params|
      ensures f.params[k].name in names && Roomy(ParamType(lay, k), km[f.name].Local(f.params[k].name))
    {
      assert f.params[k] in f.params;
      DeclaredRoomy(km[f.name].Local(f.params[k].name), f.params[k].ty);
    }
  }

  lemma TermFits(fs: seq<Function>, km: KindMap, names: set<string>, f: Function, b: Block)
    requires FunctionKinded(fs, km, f) && FunctionPrintable(km, names, f) && b in f.blocks
    ensures TermOk(km, f, b.term)
  {
    hide AllInstrs, Compilable, LocalsApart, Copied, UniqueResults, InstrKinded, Printable, IsMain, CName;
  }

  ghost predicate ModulePrintable(fs: seq<Function>, km: KindMap, names: map<string, set<string>>) {
    && (forall f | f in fs :: f.name in names && FunctionPrintable(km, names[f.name], f))
    && (forall i, j | 0 <= i < j < |fs| :: CName(fs[i].name) != CName(fs[j].name))
  }

  /** The layouts of a quiet pass put the whole module within the simulated fragment. */
  lemma InferenceFits(fs: seq<Function>, km: KindMap, names: map<string, set<string>>, layouts: map<string, Layout>,
                      k: nat)
    requires ModuleKinded(fs, km) && ModulePrintable(fs, km, names) && Settled(fs, Passes(fs, k), layouts)
    ensures Context(fs, layouts, km, names).Ok()
  {
    hide ModuleKinded, FunctionOk, FunctionKinded, Fits, Settled, CName, Roomy, InitialLayout;
    forall f | f in fs
      ensures f.name in layouts && FunctionOk(fs, km, layouts[f.name], names[f.name], f) && CName(f.name) != CONCAT
    {
      assert FunctionPrintable(km, names[f.name], f);
      hide FunctionPrintable;
      LayoutFits(fs, km, layouts, k, f);
      LayoutOk(fs, km, names[f.name], f, layouts[f.name]);
    }
  }

  /**
   Inference, emission and execution together, for every run of every function of a module of integers,
   booleans, floats, strings and units on which the inference loop stops.
   */
  lemma CompiledModuleSimulates(fs: seq<Function>, km: KindMap, names: map<string, set<string>>,
                                layouts: map<string, Layout>, passes: nat, f: Function, args: seq<Value>, k: nat)
      returns (n: nat, c: CState)
    requires ModuleKinded(fs, km) && ModulePrintable(fs, km, names) && Settled(fs, Passes(fs, passes), layouts)
    requires f in fs && ArgsFit(Context(fs, layouts, km, names), f, args)
    requires Start(f, args).Some? && Steps(fs, Start(f, args).value, k).Some?
    requires RunDefined(fs, Start(f, args).value, k)
    ensures f.name in layouts && CStart(f, layouts[f.name], args).Some?
    ensures Compiles(EmitProgram(fs, layouts))
    ensures k < n && CSteps(EmitProgram(fs, layouts), CStart(f, layouts[f.name], args).value, n) == Some(c)
    ensures StateRel(Context(fs, layouts, km, names), f, Steps(fs, Start(f, args).value, k).value, c)
  {
    hide Steps, CSteps, RunDefined, ModuleKinded, ModulePrintable, CStart, StateRel, ArgsFit, Compiles;
    InferenceFits(fs, km, names, layouts, passes);
    n, c := EmittedProgramSimulates(Context(fs, layouts, km, names), f, args, k);
  }
}
