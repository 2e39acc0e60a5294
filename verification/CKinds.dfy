/**
 The static side of the simulation: what a function and its layout must satisfy, with values and
 locals of given kinds, for the emitted C to be within the executed fragment.
 */
module CKinds {
  import opened CEmission
  import opened CLegal
  import opened CLiterals
  import opened CMachine
  import opened CNames
  import opened CTypes
  import opened Mir
  import opened MirEval
  import opened MirKinds
  import opened MirMachine
  import opened Words

  /** A C type that can hold everything of the kind; a unit is kept in an integer. */
  predicate Roomy(ty: CType, k: Kind) {
    match k
    case IntK => ty == Int
    case BoolK => ty == Int || ty == Bool
    case UnitK => ty == Int
    case FloatK => ty == Float
    case StrK => ty == Str
  }

  /** As many arguments as parameters, each of a kind that can go there. */
  ghost predicate ArgsOk(km: KindMap, kinds: Kinds, g: Function, args: seq<ValueId>) {
    g.name in km && |args| == |g.params|
    && forall j | 0 <= j < |args| :: Widens(kinds.Value(args[j]), km[g.name].Local(g.params[j].name))
  }

  ghost predicate OpOk(fs: seq<Function>, km: KindMap, kinds: Kinds, lay: Layout, names: set<string>, op: Op) {
    match op
    case ConstInt(c) => c != -TWO_63
    case ConstFloat(f) => RealLiteral(f).Some?
    case ConstString(s) => Quotable(s)
    case ConstBool(_) => true
    case Unit => true
    case Binary(_, _, _) => true
    case Unary(_, _) => true
    case Copy(_) => true
    case LoadLocal(x) => x in names
    case StoreLocal(x, v) => x in names && Widens(kinds.Value(v), kinds.Local(x))
    case Alloca(x, ty) =>
      x in names && Roomy(OrElse(lay.LocalType(x), Int), kinds.Local(x)) && Widens(KindOfId(ty), kinds.Local(x))
    case Call(callee, args) =>
      && !IsBuiltin(callee) && callee != "main"
      && FindFunction(fs, callee).Some?
      && ArgsOk(km, kinds, fs[FindFunction(fs, callee).value], args)
    case _ => false
  }

  ghost predicate InstrOk(fs: seq<Function>, km: KindMap, lay: Layout, names: set<string>, f: Function, i: Instr)
    requires f.name in km
  {
    var kinds := km[f.name];
    && Roomy(lay.ValueType(i.result), kinds.Value(i.result))
    && Widens(ResultKind(km, kinds, i.op), kinds.Value(i.result))
    && i.result !in ParamIds(f)
    && Operands(i.op) !! ParamIds(f)
    && OpOk(fs, km, kinds, lay, names, i.op)
  }

  ghost predicate TermOk(km: KindMap, f: Function, t: Terminator)
    requires f.name in km
  {
    && TermOperands(t) !! ParamIds(f)
    && (t.Return? && !IsMain(f) ==> Widens(km[f.name].Value(t.returned), km[f.name].result))
    && (t.Return? && IsMain(f) ==> km[f.name].Value(t.returned) in {IntK, BoolK, UnitK})
    && (t.ReturnVoid? ==> Widens(UnitK, km[f.name].result))
  }

  ghost predicate ParamsOk(km: KindMap, lay: Layout, names: set<string>, f: Function)
    requires f.name in km
  {
    forall k | 0 <= k < |f.params| ::
      f.params[k].name in names && Roomy(ParamType(lay, k), km[f.name].Local(f.params[k].name))
  }

  ghost predicate BlockOk(fs: seq<Function>, km: KindMap, lay: Layout, names: set<string>, f: Function, b: Block)
    requires f.name in km
  {
    (forall i | i in b.instrs :: InstrOk(fs, km, lay, names, f, i)) && TermOk(km, f, b.term)
  }

  ghost predicate FunctionOk(fs: seq<Function>, km: KindMap, lay: Layout, names: set<string>, f: Function) {
    && f.name in km
    && f.blocks != [] && f.blocks[0].id == f.entry
    && Compilable(f)
    && LocalsApart(names)
    && ParamsOk(km, lay, names, f)
    && (forall b | b in f.blocks :: BlockOk(fs, km, lay, names, f, b))
    && (IsMain(f) || Roomy(lay.returnTy, km[f.name].result))
  }

  /** Everything the emitted program is made from. `names` gives each function's locals. */
  datatype Context = Context(
    fs: seq<Function>,
    layouts: map<string, Layout>,
    kinds: KindMap,
    names: map<string, set<string>>)
  {
    ghost predicate Ok() {
      && (forall f | f in fs ::
            && f.name in layouts && f.name in names && CName(f.name) != CONCAT
            && FunctionOk(fs, kinds, layouts[f.name], names[f.name], f))
      && (forall i, j | 0 <= i < j < |fs| :: CName(fs[i].name) != CName(fs[j].name))
    }

    ghost function Program(): seq<CFunction>
      requires Ok()
    {
      EmitProgram(fs, layouts)
    }
  }

  // ----- undefined behaviour

  /** Operands on which C defines the operator to give what the interpreter gives. */
  predicate Defined(op: BinOp, l: int, r: int) {
    match op
    case Add => InRange(W64, IntV(l + r))
    case Sub => InRange(W64, IntV(l - r))
    case Mul => InRange(W64, IntV(l * r))
    case Div => !(l == -TWO_63 && r == -1)
    case Mod => !(l == -TWO_63 && r == -1)
    case Shl => 0 <= r < 64 && 0 <= l && InRange(W64, IntV(l * Pow2(r)))
    case Shr => 0 <= r < 64
    case _ => true
  }

  /** Strings are only put together: C would compare their addresses. */
  predicate OperandsDefined(op: BinOp, l: Value, r: Value) {
    (l.IntV? && r.IntV? ==> Defined(op, l.num, r.num)) && (l.StrV? && r.StrV? ==> op == Add)
  }

  predicate OpDefined(vals: Env, op: Op) {
    match op
    case Binary(bop, l, r) => l in vals && r in vals ==> OperandsDefined(bop, vals[l], vals[r])
    case Unary(uop, v) => uop == Neg && v in vals && vals[v].IntV? ==> vals[v].num != -TWO_63
    case _ => true
  }

  /** The next step of the MIR machine meets no operator that is undefined in C. */
  predicate StepDefined(s: State) {
    s.Running? && s.top.instrs != [] ==> OpDefined(s.top.vals, s.top.instrs[0].op)
  }
}
