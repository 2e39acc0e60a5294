/**
 What the values of a function are, read off its text by the interpreter's rules: an operator yields
 what its operands make it yield, a local holds what it is declared to hold.
 */
module MirKinds {
  import opened Mir
  import opened MirEval
  import opened Words

  /** A unit goes with any kind: it is nothing yet. An integer kind admits booleans as well. */
  datatype Kind = IntK | BoolK | UnitK | FloatK | StrK

  predicate IsOf(v: Value, k: Kind) {
    match v
    case IntV(_) => k == IntK
    case BoolV(_) => k == IntK || k == BoolK
    case FloatV(_) => k == FloatK
    case StrV(_) => k == StrK
    case UnitV => true
  }

  /** A value of the one kind can go where the other is expected; an unset string is no other unit. */
  predicate Widens(k: Kind, l: Kind) {
    k == l || (k == BoolK && l == IntK) || (k == UnitK && l != StrK)
  }

  lemma WidensKeeps(v: Value, k: Kind, l: Kind)
    requires IsOf(v, k) && Widens(k, l)
    ensures IsOf(v, l)
  {
  }

  /** What a declared type holds; the numbers are those of the primitive types. */
  function KindOfId(ty: TypeId): Kind {
    if ty == 1 then BoolK
    else if ty == 5 || ty == 20 then FloatK
    else if ty == 3 then StrK
    else IntK
  }

  /** The kinds of a function's values and locals, integers unless listed, and of its result. */
  datatype Kinds = Kinds(values: map<ValueId, Kind>, locals: map<string, Kind>, result: Kind)
  {
    function Value(v: ValueId): Kind {
      if v in values then values[v] else IntK
    }

    function Local(x: string): Kind {
      if x in locals then locals[x] else IntK
    }
  }

  type KindMap = map<string, Kinds>

  predicate Truthy(op: BinOp) {
    op in {Eq, NotEq, Lt, LtEq, Gt, GtEq, And, Or}
  }

  function BinaryKind(op: BinOp, l: Kind, r: Kind): Kind {
    if Truthy(op) then BoolK
    else if op == Add && (l == StrK || r == StrK) then StrK
    else if l == FloatK || r == FloatK then FloatK
    else IntK
  }

  function UnaryKind(op: UnOp, k: Kind): Kind {
    if op == Not then BoolK else if op == Neg && k == FloatK then FloatK else IntK
  }

  function ResultKind(km: KindMap, kinds: Kinds, op: Op): Kind {
    match op
    case ConstBool(_) => BoolK
    case ConstFloat(_) => FloatK
    case ConstString(_) => StrK
    case Unit => UnitK
    case Binary(bop, l, r) => BinaryKind(bop, kinds.Value(l), kinds.Value(r))
    case Unary(uop, v) => UnaryKind(uop, kinds.Value(v))
    case Copy(src) => kinds.Value(src)
    case LoadLocal(x) => kinds.Local(x)
    case StoreLocal(_, v) => kinds.Value(v)
    case Alloca(_, ty) => KindOfId(ty)
    case Call(callee, _) => if callee in km then km[callee].result else IntK
    case _ => IntK
  }

  // ----- operators keep kinds

  lemma BinaryKept(op: BinOp, l: Value, r: Value, k: Kind, k': Kind)
    requires IsOf(l, k) && IsOf(r, k') && EvalBinOp(W64, op, l, r).Some?
    ensures IsOf(EvalBinOp(W64, op, l, r).value, BinaryKind(op, k, k'))
  {
    hide Bitwise, TruncDiv, TruncRem, ShiftRight, Pow2;
  }

  lemma UnaryKept(op: UnOp, v: Value, k: Kind)
    requires IsOf(v, k) && EvalUnOp(W64, op, v).Some?
    ensures IsOf(EvalUnOp(W64, op, v).value, UnaryKind(op, k))
  {
  }

  // ----- functions that respect their kinds

  /** A local admits its own kind, and one of integers also booleans and units. */
  predicate Admits(l: Kind, k: Kind) {
    k == l || (l == IntK && k in {BoolK, UnitK})
  }

  predicate DeclaredAs(k: Kind, ty: TypeId) {
    Admits(KindOfId(ty), k)
  }

  predicate OpKinds(fs: seq<Function>, km: KindMap, kinds: Kinds, op: Op) {
    match op
    case StoreLocal(x, v) => Admits(kinds.Local(x), kinds.Value(v))
    case Alloca(x, ty) => kinds.Local(x) == KindOfId(ty)
    case Call(callee, args) =>
      && FindFunction(fs, callee).Some? && callee in km
      && var g := fs[FindFunction(fs, callee).value];
      && |args| == |g.params|
      && forall j | 0 <= j < |args| :: Widens(kinds.Value(args[j]), km[callee].Local(g.params[j].name))
    case _ => SimpleOp(op)
  }

  /** A value is of the kind its operation yields; parameters are read through their locals. */
  predicate InstrKinds(fs: seq<Function>, km: KindMap, f: Function, i: Instr)
    requires f.name in km
  {
    && km[f.name].Value(i.result) == ResultKind(km, km[f.name], i.op)
    && i.result !in ParamIds(f)
    && Operands(i.op) !! ParamIds(f)
    && OpKinds(fs, km, km[f.name], i.op)
  }

  /** What is returned is of the function's kind, or a unit that stands for no value. */
  predicate TermKinds(km: KindMap, f: Function, t: Terminator)
    requires f.name in km
  {
    && TermOperands(t) !! ParamIds(f)
    && (t.Return? ==> km[f.name].Value(t.returned) in {km[f.name].result, UnitK})
  }

  predicate FunctionKinds(fs: seq<Function>, km: KindMap, f: Function) {
    && f.name in km
    && (forall p | p in f.params :: DeclaredAs(km[f.name].Local(p.name), p.ty))
    && (forall b | b in f.blocks ::
          TermKinds(km, f, b.term) && forall i | i in b.instrs :: InstrKinds(fs, km, f, i))
  }

  ghost predicate ModuleKinds(fs: seq<Function>, km: KindMap) {
    forall f | f in fs :: FunctionKinds(fs, km, f)
  }
}
