/**
 The emitted C program follows the MIR step by step: same blocks in the same order, same values,
 same locals, same result, for as long as no executed operator is undefined in C.
 */
module CSimulation {
  import opened CEmission
  import opened CKinds
  import opened CLiterals
  import opened CMachine
  import opened CNames
  import opened CTypes
  import opened CValues
  import opened Mir
  import opened MirEval
  import opened MirKinds
  import opened MirMachine
  import opened Options
  import opened Words

  // ----- variables

  ghost predicate ValuesHeld(kinds: Kinds, params: set<ValueId>, vals: Env, vars: Vars) {
    forall v | v in vals && v !in params ::
      ValueName(v) in vars && Holds(vars[ValueName(v)], kinds.Value(v), vals[v])
  }

  ghost predicate LocalsHeld(kinds: Kinds, names: set<string>, locals: LocalEnv, vars: Vars) {
    forall x | x in locals ::
      && x in names
      && LocalName(x) in vars
      && Holds(vars[LocalName(x)], kinds.Local(x), locals[x])
  }

  lemma ValueDeclared(kinds: Kinds, params: set<ValueId>, names: set<string>, vals: Env, locals: LocalEnv, vars: Vars,
                      res: ValueId, val: Value, cell: Cell)
    requires ValuesHeld(kinds, params, vals, vars) && LocalsHeld(kinds, names, locals, vars)
    requires Holds(cell, kinds.Value(res), val)
    ensures ValuesHeld(kinds, params, vals[res := val], vars[ValueName(res) := cell])
    ensures LocalsHeld(kinds, names, locals, vars[ValueName(res) := cell])
  {
    hide ValueName, LocalName, Holds;
    forall v
      ensures ValueName(v) == ValueName(res) <==> v == res
    {
      ValueNamesDistinct(v, res);
    }
    forall x
      ensures LocalName(x) != ValueName(res)
    {
      SpacesDisjoint(res, x, 0);
    }
  }

  lemma LocalSet(kinds: Kinds, params: set<ValueId>, names: set<string>, vals: Env, locals: LocalEnv, vars: Vars,
                 x: string, val: Value, cell: Cell)
    requires ValuesHeld(kinds, params, vals, vars) && LocalsHeld(kinds, names, locals, vars) && LocalsApart(names)
    requires x in names && Holds(cell, kinds.Local(x), val)
    ensures ValuesHeld(kinds, params, vals, vars[LocalName(x) := cell])
    ensures LocalsHeld(kinds, names, locals[x := val], vars[LocalName(x) := cell])
  {
    hide ValueName, LocalName, Holds;
    forall v
      ensures ValueName(v) != LocalName(x)
    {
      SpacesDisjoint(v, x, 0);
    }
  }

  // ----- one value

  /** The initialiser on the last line of an instruction other than a call. */
  function ValueExpr(ty: CType, op: Op): CExpr {
    match op
    case ConstInt(val) => Lit(val)
    case ConstFloat(f) => RealLit(f)
    case ConstBool(b) => Lit(if b then 1 else 0)
    case ConstString(s) => TextLit(EscapeCString(s))
    case Binary(bop, l, r) =>
      if bop == Add && ty == Str then CallTo(CONCAT, [ValueName(l), ValueName(r)])
      else Infix(BinOpToC(bop), ValueName(l), ValueName(r))
    case Unary(uop, v) => Prefix(UnOpToC(uop), ValueName(v))
    case Copy(src) => Var(ValueName(src))
    case LoadLocal(x) => Var(LocalName(x))
    case StoreLocal(_, v) => Var(ValueName(v))
    case _ => DefaultValue(ty)
  }

  /** The line before it, for a store or an allocation. */
  function Preamble(lay: Layout, op: Op): seq<CStmt> {
    match op
    case StoreLocal(x, v) => [Assign(LocalName(x), ValueName(v))]
    case Alloca(x, _) =>
      var localTy := OrElse(lay.LocalType(x), Int);
      [Decl(localTy, LocalName(x), DefaultValue(localTy))]
    case _ => []
  }

  lemma LinesOf(fs: seq<Function>, km: KindMap, lay: Layout, names: set<string>, f: Function, i: Instr)
    requires f.name in km && InstrOk(fs, km, lay, names, f, i) && !i.op.Call?
    ensures EmitInstr(lay, i)
            == Preamble(lay, i.op)
               + [Decl(lay.ValueType(i.result), ValueName(i.result), ValueExpr(lay.ValueType(i.result), i.op))]
  {
  }

  /** What the simulation keeps about one activation, apart from where it is. */
  ghost predicate StoreRel(cx: Context, m: Frame, vars: Vars) {
    && m.fn in cx.fs && m.fn.name in cx.kinds && m.fn.name in cx.names
    && ValuesHeld(cx.kinds[m.fn.name], ParamIds(m.fn), m.vals, vars)
    && LocalsHeld(cx.kinds[m.fn.name], cx.names[m.fn.name], m.locals, vars)
  }

  /** The expression evaluates, and what it evaluates to becomes the value in a variable of the type. */
  ghost predicate Yields(vars: Vars, e: CExpr, ty: CType, k: Kind, val: Value) {
    && InRange(W64, val) && IsOf(val, k)
    && Eval(vars, e).Some? && Convert(ty, Eval(vars, e).value.val) == Some(Cell(ty, Rep(ty, val)))
  }

  lemma OperatorYields(vars: Vars, op: Op, vals: Env, k: Kind, k': Kind, l: Kind, ty: CType)
    requires op.Binary? && op.left in vals && op.right in vals
    requires ValueName(op.left) in vars && Holds(vars[ValueName(op.left)], k, vals[op.left])
    requires ValueName(op.right) in vars && Holds(vars[ValueName(op.right)], k', vals[op.right])
    requires Widens(BinaryKind(op.bop, k, k'), l) && Roomy(ty, l)
    requires EvalBinOp(W64, op.bop, vals[op.left], vals[op.right]).Some?
    requires OperandsDefined(op.bop, vals[op.left], vals[op.right])
    ensures Yields(vars, ValueExpr(ty, op), ty, l, EvalBinOp(W64, op.bop, vals[op.left], vals[op.right]).value)
  {
    var x, y := vals[op.left], vals[op.right];
    var v := EvalBinOp(W64, op.bop, x, y).value;
    BinaryKept(op.bop, x, y, k, k');
    WidensKeeps(v, BinaryKind(op.bop, k, k'), l);
    hide ValueName, BinaryKind, EvalIntOp, EvalBoolOp, EvalFloatOp, EvalInfix, Defined;
    if x.StrV? {
      ConcatEvaluates(vars, ValueName(op.left), k, ValueName(op.right), k', x, y);
    } else {
      InfixEvaluates(op.bop, vars[ValueName(op.left)], k, vars[ValueName(op.right)], k', x, y);
      NotText(op.bop, x, y);
    }
    NaturalConverts(v, ty, l);
  }

  lemma NotText(op: BinOp, x: Value, y: Value)
    requires EvalBinOp(W64, op, x, y).Some? && !x.StrV?
    ensures !EvalBinOp(W64, op, x, y).value.StrV? && !EvalBinOp(W64, op, x, y).value.UnitV?
  {
    hide Bitwise, TruncDiv, TruncRem, ShiftRight, Pow2;
  }

  lemma PrefixYields(vars: Vars, op: Op, v: Value, k: Kind, l: Kind, ty: CType)
    requires op.Unary? && ValueName(op.operand) in vars && Holds(vars[ValueName(op.operand)], k, v)
    requires Widens(UnaryKind(op.uop, k), l) && Roomy(ty, l)
    requires EvalUnOp(W64, op.uop, v).Some? && (op.uop == Neg && v.IntV? ==> v.num != -TWO_63)
    ensures Yields(vars, ValueExpr(ty, op), ty, l, EvalUnOp(W64, op.uop, v).value)
  {
    var w := EvalUnOp(W64, op.uop, v).value;
    UnaryKept(op.uop, v, k);
    WidensKeeps(w, UnaryKind(op.uop, k), l);
    PrefixEvaluates(op.uop, vars[ValueName(op.operand)], k, v);
    NaturalConverts(w, ty, l);
    hide ValueName, UnaryKind, EvalPrefix;
  }

  lemma VariableYields(vars: Vars, x: string, v: Value, k: Kind, l: Kind, ty: CType)
    requires x in vars && Holds(vars[x], k, v) && Widens(k, l) && Roomy(ty, l)
    ensures Yields(vars, Var(x), ty, l, v)
  {
    ConvertKeeps(vars[x], k, v, ty, l);
  }

  lemma LiteralYields(cx: Context, m: Frame, vars: Vars, op: Op, l: Kind, ty: CType)
    requires op.ConstInt? || op.ConstFloat? || op.ConstBool? || op.ConstString? || op.Unit?
    requires op.ConstInt? ==> op.val != -TWO_63
    requires op.ConstFloat? ==> RealLiteral(op.float).Some?
    requires op.ConstString? ==> Quotable(op.text)
    requires Widens(ResultKind(map[], Kinds(map[], map[], IntK), op), l) && Roomy(ty, l)
    ensures Execute(m, op).Some? && Yields(vars, ValueExpr(ty, op), ty, l, Execute(m, op).value.0)
  {
    match op {
      case ConstInt(val) => WrapSmall(val);
      case ConstFloat(f) => LiteralConverts(f);
      case Unit => UnitConverts(vars, ty, l);
      case ConstString(s) => LiteralReadsBack(s);
      case _ =>
    }
  }

  lemma ExprYields(cx: Context, m: Frame, vars: Vars, i: Instr)
    requires StoreRel(cx, m, vars) && m.fn.name in cx.layouts && !i.op.Call?
    requires InstrOk(cx.fs, cx.kinds, cx.layouts[m.fn.name], cx.names[m.fn.name], m.fn, i)
    requires Execute(m, i.op).Some? && OpDefined(m.vals, i.op)
    ensures var ty := cx.layouts[m.fn.name].ValueType(i.result);
            Yields(vars, ValueExpr(ty, i.op), ty, cx.kinds[m.fn.name].Value(i.result), Execute(m, i.op).value.0)
  {
    var kinds := cx.kinds[m.fn.name];
    var ty, l := cx.layouts[m.fn.name].ValueType(i.result), kinds.Value(i.result);
    hide ValueName, LocalName, Yields, BinaryKind, UnaryKind, EvalBinOp, EvalUnOp, Defined, Holds;
    match i.op {
      case Binary(op, a, b) =>
        assert a in Operands(i.op) && b in Operands(i.op);
        OperatorYields(vars, i.op, m.vals, kinds.Value(a), kinds.Value(b), l, ty);
      case Unary(op, a) =>
        assert a in Operands(i.op);
        PrefixYields(vars, i.op, m.vals[a], kinds.Value(a), l, ty);
      case Copy(a) =>
        assert a in Operands(i.op);
        VariableYields(vars, ValueName(a), m.vals[a], kinds.Value(a), l, ty);
      case LoadLocal(x) => VariableYields(vars, LocalName(x), m.locals[x], kinds.Local(x), l, ty);
      case StoreLocal(x, a) =>
        assert a in Operands(i.op);
        VariableYields(vars, ValueName(a), m.vals[a], kinds.Value(a), l, ty);
      case Alloca(x, declared) =>
        DefaultYields(vars, ty, l, declared);
      case _ => LiteralYields(cx, m, vars, i.op, l, ty);
    }
  }

  lemma DefaultYields(vars: Vars, ty: CType, l: Kind, declared: TypeId)
    requires Roomy(ty, l) && Widens(KindOfId(declared), l)
    ensures Yields(vars, DefaultValue(ty), ty, l, Zero(declared))
  {
    DefaultConverts(vars, ty, l, declared);
  }

  // ----- one instruction other than a call

  ghost predicate CodeRel(cx: Context, m: Frame, c: CFrame) {
    && m.fn.name in cx.kinds && m.fn.name in cx.names && m.fn.name in cx.layouts
    && var lay := cx.layouts[m.fn.name];
    && c.fn == EmitFunction(m.fn, lay)
    && (forall i | i in m.instrs :: InstrOk(cx.fs, cx.kinds, lay, cx.names[m.fn.name], m.fn, i))
    && TermOk(cx.kinds, m.fn, m.term)
    && EmitInstrs(lay, m.instrs) + [EmitTerm(m.term, IsMain(m.fn))] <= c.rest
  }

  ghost predicate FrameRel(cx: Context, m: Frame, c: CFrame) {
    StoreRel(cx, m, c.vars) && CodeRel(cx, m, c)
  }

  lemma AssignRuns(prog: seq<CFunction>, s: CState, x: string, y: string, cell: Cell, tail: seq<CStmt>)
    requires s.CRunning? && s.top.rest == [Assign(x, y)] + tail && x in s.top.vars && y in s.top.vars
    requires Convert(s.top.vars[x].ty, s.top.vars[y].val) == Some(cell)
    ensures CSteps(prog, s, 1) == Some(s.(top := s.top.(vars := s.top.vars[x := cell], rest := tail)))
  {
    hide Convert;
    assert s.top.rest[1..] == tail;
  }

  lemma DeclRuns(prog: seq<CFunction>, s: CState, ty: CType, x: string, e: CExpr, cell: Cell, tail: seq<CStmt>)
    requires s.CRunning? && s.top.rest == [Decl(ty, x, e)] + tail && !e.CallTo?
    requires Eval(s.top.vars, e).Some? && Convert(ty, Eval(s.top.vars, e).value.val) == Some(cell)
    ensures CSteps(prog, s, 1) == Some(s.(top := s.top.(vars := s.top.vars[x := cell], rest := tail)))
  {
    hide Convert, Eval;
    assert s.top.rest[1..] == tail;
  }

  /** A store assigns the local's variable; an allocation declares it afresh. */
  lemma PreambleRuns(cx: Context, prog: seq<CFunction>, m: Frame, i: Instr, s: CState, tail: seq<CStmt>)
      returns (n: nat, vars: Vars)
    requires s.CRunning? && !i.op.Call?
    requires cx.Ok() && StoreRel(cx, m, s.top.vars) && m.fn.name in cx.layouts
    requires InstrOk(cx.fs, cx.kinds, cx.layouts[m.fn.name], cx.names[m.fn.name], m.fn, i)
    requires Execute(m, i.op).Some?
    requires s.top.rest == Preamble(cx.layouts[m.fn.name], i.op) + tail
    ensures CSteps(prog, s, n) == Some(s.(top := s.top.(vars := vars, rest := tail)))
    ensures StoreRel(cx, m.(locals := Execute(m, i.op).value.1), vars)
    ensures forall v | v in m.vals && v !in ParamIds(m.fn) ::
              ValueName(v) in vars && Holds(vars[ValueName(v)], cx.kinds[m.fn.name].Value(v), m.vals[v])
  {
    hide ValueName, LocalName, Eval, Convert, CStep, DefaultValue;
    var kinds, names := cx.kinds[m.fn.name], cx.names[m.fn.name];
    assert FunctionOk(cx.fs, cx.kinds, cx.layouts[m.fn.name], names, m.fn);
    vars := s.top.vars;
    n := 0;
    if i.op.StoreLocal? {
      var x, v := i.op.target, i.op.value;
      assert v in Operands(i.op);
      var slot := vars[LocalName(x)];
      ConvertKeeps(vars[ValueName(v)], kinds.Value(v), m.vals[v], slot.ty, kinds.Local(x));
      var cell := Cell(slot.ty, Rep(slot.ty, m.vals[v]));
      LocalSet(kinds, ParamIds(m.fn), names, m.vals, m.locals, vars, x, m.vals[v], cell);
      AssignRuns(prog, s, LocalName(x), ValueName(v), cell, tail);
      vars := vars[LocalName(x) := cell];
      n := 1;
    } else if i.op.Alloca? {
      var x, zero := i.op.slot, Zero(i.op.slotTy);
      var t := OrElse(cx.layouts[m.fn.name].LocalType(x), Int);
      DefaultConverts(vars, t, kinds.Local(x), i.op.slotTy);
      var cell := Cell(t, Rep(t, zero));
      LocalSet(kinds, ParamIds(m.fn), names, m.vals, m.locals, vars, x, zero, cell);
      DefaultPlain(t);
      DeclRuns(prog, s, t, LocalName(x), DefaultValue(t), cell, tail);
      vars := vars[LocalName(x) := cell];
      n := 1;
    } else {
      assert s.top.rest == tail && CSteps(prog, s, 0) == Some(s);
    }
  }

  lemma DefaultPlain(t: CType)
    ensures !DefaultValue(t).CallTo?
  {
  }

  /** The last line: declare the value's variable. */
  lemma ValueLineRuns(cx: Context, prog: seq<CFunction>, m: Frame, i: Instr, s: CState, val: Value, tail: seq<CStmt>)
      returns (vars: Vars)
    requires s.CRunning? && StoreRel(cx, m, s.top.vars)
    requires m.fn.name in cx.layouts && !i.op.Call?
    requires var ty := cx.layouts[m.fn.name].ValueType(i.result);
             && Roomy(ty, cx.kinds[m.fn.name].Value(i.result))
             && s.top.rest == [Decl(ty, ValueName(i.result), ValueExpr(ty, i.op))] + tail
             && Yields(s.top.vars, ValueExpr(ty, i.op), ty, cx.kinds[m.fn.name].Value(i.result), val)
    ensures CSteps(prog, s, 1) == Some(s.(top := s.top.(vars := vars, rest := tail)))
    ensures StoreRel(cx, m.(vals := m.vals[i.result := val]), vars)
  {
    hide ValueName, LocalName, Eval, Convert;
    var ty := cx.layouts[m.fn.name].ValueType(i.result);
    var cell := Cell(ty, Rep(ty, val));
    vars := s.top.vars[ValueName(i.result) := cell];
    ValueDeclared(cx.kinds[m.fn.name], ParamIds(m.fn), cx.names[m.fn.name], m.vals, m.locals, s.top.vars,
                  i.result, val, cell);
    assert s.top.rest[1..] == tail;
    assert CSteps(prog, CStep(prog, s).value, 0) == Some(s.(top := s.top.(vars := vars, rest := tail)));
  }

  lemma SimpleSimulates(cx: Context, prog: seq<CFunction>, m: Frame, s: CState)
      returns (n: nat, c: CFrame)
    requires cx.Ok() && s.CRunning? && FrameRel(cx, m, s.top)
    requires m.instrs != [] && !m.instrs[0].op.Call?
    requires Execute(m, m.instrs[0].op).Some? && OpDefined(m.vals, m.instrs[0].op)
    ensures 1 <= n && CSteps(prog, s, n) == Some(s.(top := c))
    ensures var (val, locals) := Execute(m, m.instrs[0].op).value;
            FrameRel(cx, m.(vals := m.vals[m.instrs[0].result := val], locals := locals, instrs := m.instrs[1..]), c)
  {
    hide ValueName, LocalName, EvalOp, ResultKind, CStep, ValuesHeld, LocalsHeld, OpOk, OpDefined, ValueExpr, Yields;
    var i := m.instrs[0];
    var lay, kinds := cx.layouts[m.fn.name], cx.kinds[m.fn.name];
    assert InstrOk(cx.fs, cx.kinds, lay, cx.names[m.fn.name], m.fn, i);
    var (val, locals) := Execute(m, i.op).value;
    LinesOf(cx.fs, cx.kinds, lay, cx.names[m.fn.name], m.fn, i);
    var ty := lay.ValueType(i.result);
    var decl := Decl(ty, ValueName(i.result), ValueExpr(ty, i.op));
    var code := EmitInstrs(lay, m.instrs[1..]) + [EmitTerm(m.term, IsMain(m.fn))];
    var tail := s.top.rest[|Preamble(lay, i.op)| + 1..];
    CodeSplits(Preamble(lay, i.op), decl, code, EmitInstrs(lay, m.instrs[1..]),
               EmitTerm(m.term, IsMain(m.fn)), s.top.rest, tail);
    var n0, vars0 := PreambleRuns(cx, prog, m, i, s, [decl] + tail);
    var mid := s.(top := s.top.(vars := vars0, rest := [decl] + tail));
    var m1 := m.(locals := locals);
    SameValueAfter(m, i.op);
    ExprYields(cx, m1, vars0, i);
    var vars := ValueLineRuns(cx, prog, m1, i, mid, val, tail);
    n := n0 + 1;
    CStepsAdd(prog, s, n0, 1);
    c := s.top.(vars := vars, rest := tail);
  }

  lemma CodeSplits(pre: seq<CStmt>, decl: CStmt, code: seq<CStmt>, later: seq<CStmt>, term: CStmt,
                   rest: seq<CStmt>, tail: seq<CStmt>)
    requires code == later + [term]
    requires (pre + [decl]) + later + [term] <= rest && tail == rest[|pre| + 1..]
    ensures rest == pre + ([decl] + tail) && code <= tail
  {
    assert rest == (pre + [decl] + code) + rest[|pre| + 1 + |code|..];
  }

  /** Storing or allocating first does not change the value the instruction yields. */
  lemma SameValueAfter(m: Frame, op: Op)
    requires Execute(m, op).Some?
    ensures var (val, locals) := Execute(m, op).value;
            var again := Execute(m.(locals := locals), op);
            again.Some? && again.value.0 == val
  {
    hide EvalOp;
  }
}
