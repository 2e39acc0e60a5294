/** The whole-run statement: the emitted program simulates the module. */
module CCorrectness {
  import opened CCalls
  import opened CControl
  import opened CEmission
  import opened CInference
  import opened CKinds
  import opened CLegal
  import opened CMachine
  import opened CNames
  import opened CSimulation
  import opened CTypes
  import opened CTyping
  import opened CValues
  import opened Mir
  import opened MirEval
  import opened MirKinds
  import opened MirMachine
  import opened Options
  import opened Words

  // ----- related states

  /** Suspended activations, innermost first; each waits at a call of the function above it. */
  ghost predicate StackRel(cx: Context, root: Function, callee: Function, ms: seq<Frame>, cs: seq<CFrame>)
    decreases |ms|
  {
    if ms == [] then cs == [] && callee == root
    else
      && cs != []
      && FrameRel(cx, ms[0], cs[0])
      && ms[0].instrs != [] && ms[0].instrs[0].op.Call? && ms[0].instrs[0].op.callee == callee.name
      && StackRel(cx, root, ms[0].fn, ms[1..], cs[1..])
  }

  /** What the function the run started in hands back; `main` returns C's int. */
  ghost predicate ExitShows(root: Function, v: Value, d: Datum) {
    match v
    case IntV(i) => d == Whole(if IsMain(root) then Wrap32(i) else i)
    case BoolV(b) => d == Whole(if b then 1 else 0)
    case FloatV(f) => d == Fraction(f)
    case StrV(s) => d == Text(s)
    case UnitV => d in {Whole(0), Fraction(0.0), Null}
  }

  ghost predicate StateRel(cx: Context, root: Function, m: State, c: CState) {
    match m
    case Done(v, t) => c.CDone? && c.trace == CTraceOf(t) && ExitShows(root, v, c.result)
    case Running(top, callers, t) =>
      && c.CRunning?
      && FrameRel(cx, top, c.top)
      && StackRel(cx, root, top.fn, callers, c.callers)
      && c.trace == CTraceOf(t)
  }

  // ----- finding functions

  lemma {:induction false} NamesFindFunction(fs: seq<Function>, layouts: map<string, Layout>, k: nat)
    requires forall f | f in fs :: f.name in layouts
    requires forall i, j | 0 <= i < j < |fs| :: CName(fs[i].name) != CName(fs[j].name)
    requires k < |fs|
    ensures FindCFunction(EmitProgram(fs, layouts), CName(fs[k].name)) == Some(EmitFunction(fs[k], layouts[fs[k].name]))
  {
    hide CName;
    var prog := EmitProgram(fs, layouts);
    if k > 0 {
      assert prog[0].name == CName(fs[0].name);
      assert prog[1..] == EmitProgram(fs[1..], layouts);
      NamesFindFunction(fs[1..], layouts, k - 1);
    }
  }

  // ----- calls

  lemma PassedArgsFit(cx: Context, m: Frame, vars: Vars, i: Instr, k: nat)
    requires cx.Ok() && StoreRel(cx, m, vars) && i.op.Call?
    requires m.fn.name in cx.layouts
    requires InstrOk(cx.fs, cx.kinds, cx.layouts[m.fn.name], cx.names[m.fn.name], m.fn, i)
    requires FindFunction(cx.fs, i.op.callee) == Some(k)
    requires LookupAll(m.vals, i.op.args).Some? && |i.op.args| == |cx.fs[k].params|
    ensures ArgsFit(cx, cx.fs[k], LookupAll(m.vals, i.op.args).value)
    ensures forall v | v in i.op.args :: v !in ParamIds(m.fn)
    ensures ReadAll(vars, ValueNames(i.op.args)).Some?
    ensures ArgsShown(cx, cx.fs[k], LookupAll(m.vals, i.op.args).value, ReadAll(vars, ValueNames(i.op.args)).value)
  {
    hide LocalsHeld, ValueName, Compilable, TermOk, Holds;
    assert OpOk(cx.fs, cx.kinds, cx.kinds[m.fn.name], cx.layouts[m.fn.name], cx.names[m.fn.name], i.op);
    forall v | v in i.op.args
      ensures v !in ParamIds(m.fn)
    {
      assert v in Operands(i.op);
    }
    ArgsRead(cx, m, vars, i.op.args);
    var args := LookupAll(m.vals, i.op.args).value;
    var data := ReadAll(vars, ValueNames(i.op.args)).value;
    forall j | 0 <= j < |args|
      ensures Shows(data[j], args[j], cx.kinds[cx.fs[k].name].Local(cx.fs[k].params[j].name))
      ensures InRange(W64, args[j]) && IsOf(args[j], cx.kinds[cx.fs[k].name].Local(cx.fs[k].params[j].name))
    {
      var v := i.op.args[j];
      PassedArg(cx, m, vars, v, cx.kinds[cx.fs[k].name].Local(cx.fs[k].params[j].name));
    }
  }

  lemma PassedArg(cx: Context, m: Frame, vars: Vars, v: ValueId, l: Kind)
    requires StoreRel(cx, m, vars) && v in m.vals && v !in ParamIds(m.fn)
    requires Widens(cx.kinds[m.fn.name].Value(v), l)
    ensures ValueName(v) in vars && Shows(vars[ValueName(v)].val, m.vals[v], l)
    ensures InRange(W64, m.vals[v]) && IsOf(m.vals[v], l)
  {
    ArgRead(cx, m, vars, v);
    WidensKeeps(m.vals[v], cx.kinds[m.fn.name].Value(v), l);
  }

  lemma CallSimulates(cx: Context, m: State, s: CState)
      returns (n: nat, c: CState)
    requires cx.Ok() && m.Running? && s.CRunning? && FrameRel(cx, m.top, s.top) && s.trace == CTraceOf(m.trace)
    requires m.top.instrs != [] && m.top.instrs[0].op.Call?
    requires MirMachine.Step(cx.fs, m).Some?
    ensures 1 <= n && CSteps(cx.Program(), s, n) == Some(c)
    ensures var m' := MirMachine.Step(cx.fs, m).value;
            && c.CRunning? && FrameRel(cx, m'.top, c.top)
            && c.callers == [s.top] + s.callers && c.trace == CTraceOf(m'.trace)
            && m'.top.fn.name == m.top.instrs[0].op.callee && m'.callers == [m.top] + m.callers
  {
    hide InstrOk, TermOk, ValuesHeld, LocalsHeld, ValueName, CTraceOf, MangleName, EmitFunction;
    var i := m.top.instrs[0];
    var lay := cx.layouts[m.top.fn.name];
    var prog := cx.Program();
    var k := FindFunction(cx.fs, i.op.callee).value;
    var g := cx.fs[k];
    var args := LookupAll(m.top.vals, i.op.args).value;
    CallLine(cx, m.top.fn, i);
    PassedArgsFit(cx, m.top, s.top.vars, i, k);
    NamesFindFunction(cx.fs, cx.layouts, k);
    var data := ReadAll(s.top.vars, ValueNames(i.op.args)).value;
    EntrySucceeds(cx, g, args, data);
    var c0 := CEnter(EmitFunction(g, cx.layouts[g.name]), data).value;
    var callers := [s.top] + s.callers;
    assert s.top.rest[0] == EmitInstr(lay, i)[0];
    assert CStep(prog, s) == Some(CRunning(c0, callers, s.trace));
    var top := EntrySimulates(cx, prog, g, args, data, c0, callers, m.trace);
    n := 1 + (|g.params| + 1);
    c := CRunning(top, callers, CTraceOf(m.trace + [(g.name, g.entry)]));
  }

  lemma CallLine(cx: Context, f: Function, i: Instr)
    requires f.name in cx.kinds && f.name in cx.names && f.name in cx.layouts && i.op.Call?
    requires InstrOk(cx.fs, cx.kinds, cx.layouts[f.name], cx.names[f.name], f, i)
    ensures !IsBuiltin(i.op.callee) && i.op.callee != "main"
    ensures EmitInstr(cx.layouts[f.name], i)
            == [Decl(cx.layouts[f.name].ValueType(i.result), ValueName(i.result),
                     CallTo(CName(i.op.callee), ValueNames(i.op.args)))]
  {
  }

  lemma EntrySucceeds(cx: Context, f: Function, args: seq<Value>, data: seq<Datum>)
    requires cx.Ok() && f in cx.fs && ArgsShown(cx, f, args, data)
    ensures CEnter(EmitFunction(f, cx.layouts[f.name]), data).Some?
  {
    EntryBinds(cx, f, args, data);
    hide EmitFunction, ArgsShown, BindArgs;
  }

  // ----- returns

  /** The datum a function hands back, in an object of a kind that can go where its result is expected. */
  ghost predicate Returned(cx: Context, f: Function, v: Value, d: Datum) {
    f.name in cx.kinds && Shows(d, v, cx.kinds[f.name].result)
  }

  /** The terminator's line of a function other than `main` gives the caller the value. */
  lemma ReturnLine(cx: Context, prog: seq<CFunction>, m: Frame, s: CState) returns (d: Datum)
    requires cx.Ok() && s.CRunning? && FrameRel(cx, m, s.top) && m.instrs == [] && !IsMain(m.fn)
    requires ReturnValue(m).Some?
    ensures Returned(cx, m.fn, ReturnValue(m).value, d)
    ensures CStep(prog, s) == ReturnTo(s, d)
  {
    hide ValueName, LocalName, LocalsHeld, InstrOk, EmitBlocks, EmitAliases, Holds;
    assert FunctionOk(cx.fs, cx.kinds, cx.layouts[m.fn.name], cx.names[m.fn.name], m.fn);
    assert s.top.rest[0] == EmitTerm(m.term, false);
    if m.term.Return? {
      ArgRead(cx, m, s.top.vars, m.term.returned);
      PassedArg(cx, m, s.top.vars, m.term.returned, cx.kinds[m.fn.name].result);
      d := s.top.vars[ValueName(m.term.returned)].val;
    } else {
      d := Whole(0);
      UnitShown(cx.kinds[m.fn.name].result);
    }
  }

  lemma UnitShown(k: Kind)
    requires Widens(UnitK, k)
    ensures Shows(Whole(0), UnitV, k)
  {
    assert Holds(Cell(Int, Whole(0)), UnitK, UnitV);
  }

  /** And of `main`, the low half, to C's environment. */
  lemma MainReturns(cx: Context, prog: seq<CFunction>, m: Frame, s: CState) returns (d: Datum)
    requires cx.Ok() && s.CRunning? && FrameRel(cx, m, s.top) && m.instrs == [] && IsMain(m.fn)
    requires ReturnValue(m).Some? && s.callers == []
    ensures CStep(prog, s) == Some(CDone(d, s.trace)) && ExitShows(m.fn, ReturnValue(m).value, d)
  {
    hide ValueName, LocalName, LocalsHeld, InstrOk, EmitBlocks, EmitAliases;
    assert FunctionOk(cx.fs, cx.kinds, cx.layouts[m.fn.name], cx.names[m.fn.name], m.fn);
    assert s.top.rest[0] == EmitTerm(m.term, true);
    if m.term.Return? {
      ArgRead(cx, m, s.top.vars, m.term.returned);
      var c := s.top.vars[ValueName(m.term.returned)];
      WrapStable(c.val.whole);
      d := Whole(Wrap32(c.val.whole));
    } else {
      d := Whole(0);
    }
  }

  lemma WrapStable(x: int)
    ensures Wrap32(Wrap32(x)) == Wrap32(x)
    ensures Wrap32(0) == 0 && Wrap32(1) == 1
  {
  }

  /** A function that started the run ends it with the value. */
  lemma ExitConverts(cx: Context, f: Function, v: Value, d: Datum, ty: CType)
    requires Returned(cx, f, v, d) && Roomy(ty, cx.kinds[f.name].result) && !IsMain(f)
    ensures Convert(ty, d).Some? && ExitShows(f, v, Convert(ty, d).value.val)
  {
    ShownConverts(d, v, cx.kinds[f.name].result, ty);
  }

  /** The pending declaration of the caller receives the value. */
  lemma ResumeSimulates(cx: Context, caller: Frame, cc: CFrame, callee: Function, v: Value, ret: CType)
      returns (c: CFrame)
    requires cx.Ok() && FrameRel(cx, caller, cc)
    requires caller.instrs != [] && caller.instrs[0].op.Call? && caller.instrs[0].op.callee == callee.name
    requires callee.name in cx.kinds && Holds(Cell(ret, Rep(ret, v)), cx.kinds[callee.name].result, v)
    ensures cc.rest != [] && cc.rest[0].Decl? && cc.rest[0].init.CallTo?
    ensures Declare(cc, cc.rest[0].ty, cc.rest[0].name, Rep(ret, v)) == Some(c)
    ensures FrameRel(cx, Resume(caller, v).value, c)
    ensures callee.name != "main"
  {
    hide ValueName, LocalName, ValuesHeld, LocalsHeld, OpOk, TermOk, MangleName, Rep, Convert, Holds;
    var i := caller.instrs[0];
    var lay, kinds := cx.layouts[caller.fn.name], cx.kinds[caller.fn.name];
    CallLine(cx, caller.fn, i);
    var ty, l := lay.ValueType(i.result), kinds.Value(i.result);
    assert InstrOk(cx.fs, cx.kinds, lay, cx.names[caller.fn.name], caller.fn, i);
    assert ResultKind(cx.kinds, kinds, i.op) == cx.kinds[callee.name].result;
    ConvertKeeps(Cell(ret, Rep(ret, v)), cx.kinds[callee.name].result, v, ty, l);
    var cell := Cell(ty, Rep(ty, v));
    ValueDeclared(kinds, ParamIds(caller.fn), cx.names[caller.fn.name], caller.vals, caller.locals, cc.vars,
                  i.result, v, cell);
    assert cc.rest[0] == EmitInstr(lay, i)[0];
    c := cc.(vars := cc.vars[ValueName(i.result) := cell], rest := cc.rest[1..]);
  }

  lemma ReturnSimulates(cx: Context, root: Function, m: State, s: CState)
      returns (c: CState)
    requires cx.Ok() && m.Running? && StateRel(cx, root, m, s)
    requires m.top.instrs == [] && (m.top.term.Return? || m.top.term.ReturnVoid?)
    requires MirMachine.Step(cx.fs, m).Some?
    ensures CStep(cx.Program(), s) == Some(c)
    ensures StateRel(cx, root, MirMachine.Step(cx.fs, m).value, c)
  {
    hide FrameRel, Convert, CTraceOf, Declare, ExitShows, Returned, Holds, Rep, Context.Program;
    var v := ReturnValue(m.top).value;
    if m.callers == [] && IsMain(m.top.fn) {
      var d := MainReturns(cx, cx.Program(), m.top, s);
      c := CDone(d, s.trace);
    } else if m.callers == [] {
      var d := ReturnLine(cx, cx.Program(), m.top, s);
      ReturnRoomy(cx, m.top, s.top);
      ExitConverts(cx, m.top.fn, v, d, s.top.fn.ret);
      c := CDone(Convert(s.top.fn.ret, d).value.val, s.trace);
    } else {
      NoMainCallee(cx, m.callers[0], s.callers[0], m.top.fn);
      var d := ReturnLine(cx, cx.Program(), m.top, s);
      ReturnRoomy(cx, m.top, s.top);
      var ret := s.top.fn.ret;
      ReturnedConverts(cx, m.top.fn, v, d, ret);
      var top := ResumeSimulates(cx, m.callers[0], s.callers[0], m.top.fn, v, ret);
      c := CRunning(top, s.callers[1..], s.trace);
    }
  }

  lemma ReturnedConverts(cx: Context, f: Function, v: Value, d: Datum, ty: CType)
    requires Returned(cx, f, v, d) && Roomy(ty, cx.kinds[f.name].result)
    ensures Convert(ty, d) == Some(Cell(ty, Rep(ty, v)))
    ensures Holds(Cell(ty, Rep(ty, v)), cx.kinds[f.name].result, v)
  {
    ShownConverts(d, v, cx.kinds[f.name].result, ty);
  }

  lemma ReturnRoomy(cx: Context, m: Frame, c: CFrame)
    requires cx.Ok() && FrameRel(cx, m, c) && !IsMain(m.fn)
    ensures m.fn.name in cx.kinds && Roomy(c.fn.ret, cx.kinds[m.fn.name].result)
  {
    assert FunctionOk(cx.fs, cx.kinds, cx.layouts[m.fn.name], cx.names[m.fn.name], m.fn);
    hide EmitAliases, EmitBlocks, Compilable, ParamsOk, BlockOk;
  }

  lemma NoMainCallee(cx: Context, caller: Frame, cc: CFrame, callee: Function)
    requires FrameRel(cx, caller, cc)
    requires caller.instrs != [] && caller.instrs[0].op.Call? && caller.instrs[0].op.callee == callee.name
    ensures !IsMain(callee)
  {
    hide EmitFunction;
    var i := caller.instrs[0];
    assert InstrOk(cx.fs, cx.kinds, cx.layouts[caller.fn.name], cx.names[caller.fn.name], caller.fn, i);
  }

  // ----- one step

  /** Each MIR step is matched by one or more C steps. */
  lemma StepSimulates(cx: Context, root: Function, m: State, s: CState)
      returns (n: nat, c: CState)
    requires cx.Ok() && StateRel(cx, root, m, s)
    requires MirMachine.Step(cx.fs, m).Some? && StepDefined(m)
    ensures 1 <= n && CSteps(cx.Program(), s, n) == Some(c)
    ensures StateRel(cx, root, MirMachine.Step(cx.fs, m).value, c)
  {
    hide FrameRel, CTraceOf, CStep, Execute, OpDefined, Context.Program;
    if m.top.instrs != [] && m.top.instrs[0].op.Call? {
      n, c := CallSimulates(cx, m, s);
      assert StackRel(cx, root, MirMachine.Step(cx.fs, m).value.top.fn, [m.top] + m.callers, [s.top] + s.callers) by {
        assert ([m.top] + m.callers)[1..] == m.callers && ([s.top] + s.callers)[1..] == s.callers;
      }
    } else if m.top.instrs != [] {
      var top;
      n, top := SimpleSimulates(cx, cx.Program(), m.top, s);
      c := s.(top := top);
    } else if m.top.term.Return? || m.top.term.ReturnVoid? {
      n := 1;
      c := ReturnSimulates(cx, root, m, s);
      CStepsFirst(cx.Program(), s, c, 0);
    } else {
      n := 2;
      var top := JumpSimulates(cx, cx.Program(), m.top, s, m.trace);
      c := s.(top := top, trace := CTraceOf(MirMachine.Step(cx.fs, m).value.trace));
    }
  }

  // ----- whole runs

  /** Nothing undefined in C is met in the first `n` steps. */
  ghost predicate RunDefined(fs: seq<Function>, m: State, n: nat) {
    forall k | 0 <= k < n :: Steps(fs, m, k).Some? ==> StepDefined(Steps(fs, m, k).value)
  }

  lemma {:induction false} RunSimulates(cx: Context, root: Function, m: State, s: CState, k: nat)
      returns (n: nat, c: CState)
    requires cx.Ok() && StateRel(cx, root, m, s)
    requires Steps(cx.fs, m, k).Some? && RunDefined(cx.fs, m, k)
    ensures k <= n && CSteps(cx.Program(), s, n) == Some(c)
    ensures StateRel(cx, root, Steps(cx.fs, m, k).value, c)
    decreases k
  {
    hide StateRel, StepDefined, MirMachine.Step, CStep, Context.Ok, Context.Program;
    if k == 0 {
      n, c := 0, s;
    } else {
      var n0, c0 := RunSimulates(cx, root, m, s, k - 1);
      var n1;
      n1, c := StepSimulates(cx, root, Steps(cx.fs, m, k - 1).value, c0);
      n := n0 + n1;
      CStepsAdd(cx.Program(), s, n0, n1);
    }
  }

  /** The C call that corresponds to running `f` on `args`. */
  function CStart(f: Function, lay: Layout, args: seq<Value>): Option<CState> {
    var fr :- CEnter(EmitFunction(f, lay), ArgData(lay, args));
    Some(CRunning(fr, [], []))
  }

  /** The arguments as objects of the parameter types. */
  function ArgData(lay: Layout, args: seq<Value>): seq<Datum> {
    seq(|args|, k requires 0 <= k < |args| => Rep(ParamType(lay, k), args[k]))
  }

  lemma StartShown(cx: Context, f: Function, args: seq<Value>)
    requires cx.Ok() && f in cx.fs && ArgsFit(cx, f, args)
    ensures ArgsShown(cx, f, args, ArgData(cx.layouts[f.name], args))
  {
    var lay := cx.layouts[f.name];
    FunctionParts(cx, f);
    hide Context.Ok, InstrOk;
    forall k | 0 <= k < |args|
      ensures Shows(Rep(ParamType(lay, k), args[k]), args[k], cx.kinds[f.name].Local(f.params[k].name))
    {
      var l := cx.kinds[f.name].Local(f.params[k].name);
      assert Holds(Cell(ParamType(lay, k), Rep(ParamType(lay, k), args[k])), l, args[k]);
    }
  }

  // ----- the program compiles

  lemma ContextCompilable(cx: Context)
    requires cx.Ok()
    ensures CompilableModule(cx.fs)
    ensures forall f | f in cx.fs :: f.name in cx.layouts && AllEmittable(f.blocks)
  {
    hide Compilable, CName, MangleName;
    forall f | f in cx.fs
      ensures CName(f.name) != CONCAT && Compilable(f) && CallsMatch(cx.fs, f) && AllEmittable(f.blocks)
    {
      assert FunctionOk(cx.fs, cx.kinds, cx.layouts[f.name], cx.names[f.name], f);
      forall b, i | b in f.blocks && i in b.instrs
        ensures InstrOk(cx.fs, cx.kinds, cx.layouts[f.name], cx.names[f.name], f, i)
      {
        assert BlockOk(cx.fs, cx.kinds, cx.layouts[f.name], cx.names[f.name], f, b);
      }
      ContextCalls(cx, f);
    }
  }

  lemma ContextCalls(cx: Context, f: Function)
    requires cx.Ok() && f in cx.fs
    requires forall b, i | b in f.blocks && i in b.instrs ::
               InstrOk(cx.fs, cx.kinds, cx.layouts[f.name], cx.names[f.name], f, i)
    ensures CallsMatch(cx.fs, f)
  {
    assert f.name in cx.kinds && f.name in cx.names by {
      assert FunctionOk(cx.fs, cx.kinds, cx.layouts[f.name], cx.names[f.name], f);
    }
    hide FunctionOk, MangleName, AllInstrs, InstrOk;
    forall g, i | g in cx.fs && i in AllInstrs(f.blocks) && i.op.Call? && MangleName(i.op.callee) == CName(g.name)
      ensures |i.op.args| == |g.params|
    {
      var b := BlockOf(f.blocks, i);
      CallMatches(cx, f, i, g);
    }
  }

  lemma CallMatches(cx: Context, f: Function, i: Instr, g: Function)
    requires cx.Ok() && f in cx.fs && g in cx.fs && f.name in cx.kinds && f.name in cx.names
    requires InstrOk(cx.fs, cx.kinds, cx.layouts[f.name], cx.names[f.name], f, i)
    requires i.op.Call? && MangleName(i.op.callee) == CName(g.name)
    ensures |i.op.args| == |g.params|
  {
    hide FunctionOk, MangleName, IsBuiltin, ResultKind;
    var k := FindFunction(cx.fs, i.op.callee).value;
    var j :| 0 <= j < |cx.fs| && cx.fs[j] == g;
    assert CName(cx.fs[k].name) == CName(cx.fs[j].name);
  }

  /** A function all of whose declarations are of executed types has no structures to mix. */
  lemma ScalarsApart(cf: CFunction)
    requires Executable(cf.ret) && forall t | t in cf.params :: Executable(t)
    requires forall s | s in cf.body && s.Decl? :: Executable(s.ty)
    ensures StructsApart(cf)
  {
    forall x, t | HasType(cf, x, t)
      ensures !Aggregate(t)
    {
      if k :| 0 <= k < |cf.params| && ParamName(k) == x && cf.params[k] == t {
        assert cf.params[k] in cf.params;
      }
    }
    hide HasType;
  }

  lemma InstrExecutable(cx: Context, f: Function, i: Instr, s: CStmt)
    requires f.name in cx.layouts && f.name in cx.names && f.name in cx.kinds
    requires InstrOk(cx.fs, cx.kinds, cx.layouts[f.name], cx.names[f.name], f, i)
    requires s in EmitInstr(cx.layouts[f.name], i) && s.Decl?
    ensures Executable(s.ty)
  {
    hide LocalName, ValueName, ResultKind, MangleName;
  }

  lemma AliasExecutable(cx: Context, f: Function, k: nat)
    requires f.name in cx.layouts && f.name in cx.names && f.name in cx.kinds
    requires ParamsOk(cx.kinds, cx.layouts[f.name], cx.names[f.name], f) && k < |f.params|
    ensures Executable(Alias(f, cx.layouts[f.name], k).ty)
  {
    assert Roomy(ParamType(cx.layouts[f.name], k), cx.kinds[f.name].Local(f.params[k].name));
  }

  /** What is known of a function of the context, without its structure. */
  lemma FunctionParts(cx: Context, f: Function)
    requires cx.Ok() && f in cx.fs
    ensures f.name in cx.layouts && f.name in cx.names && f.name in cx.kinds
    ensures ParamsOk(cx.kinds, cx.layouts[f.name], cx.names[f.name], f)
    ensures forall b, i | b in f.blocks && i in b.instrs ::
              InstrOk(cx.fs, cx.kinds, cx.layouts[f.name], cx.names[f.name], f, i)
  {
    assert FunctionOk(cx.fs, cx.kinds, cx.layouts[f.name], cx.names[f.name], f);
    hide Context.Ok, Compilable, LocalsApart, InstrOk, TermOk;
    forall b, i | b in f.blocks && i in b.instrs
      ensures InstrOk(cx.fs, cx.kinds, cx.layouts[f.name], cx.names[f.name], f, i)
    {
      assert BlockOk(cx.fs, cx.kinds, cx.layouts[f.name], cx.names[f.name], f, b);
    }
  }

  /** A declaration is an alias or belongs to an instruction. */
  lemma DeclarationFrom(f: Function, lay: Layout, s: CStmt)
    requires s in EmitFunction(f, lay).body && s.Decl?
    ensures || (exists k :: 0 <= k < |f.params| && s == Alias(f, lay, k))
            || (exists b, i :: b in f.blocks && i in b.instrs && s in EmitInstr(lay, i))
  {
    InFunction(f, lay, s);
    hide EmitFunction, EmitInstr, Alias;
    if b :| b in f.blocks && InBlock(lay, b, IsMain(f), s) {
      var i :| i in b.instrs && s in EmitInstr(lay, i);
    }
  }

  lemma DeclaresExecutable(cx: Context, f: Function, s: CStmt)
    requires cx.Ok() && f in cx.fs && s in EmitFunction(f, cx.layouts[f.name]).body && s.Decl?
    ensures Executable(s.ty)
  {
    var lay := cx.layouts[f.name];
    hide *;
    FunctionParts(cx, f);
    DeclarationFrom(f, lay, s);
    if k :| 0 <= k < |f.params| && s == Alias(f, lay, k) {
      AliasExecutable(cx, f, k);
    } else {
      var b, i :| b in f.blocks && i in b.instrs && s in EmitInstr(lay, i);
      InstrExecutable(cx, f, i, s);
    }
  }

  lemma FunctionApart(cx: Context, f: Function)
    requires cx.Ok() && f in cx.fs
    ensures StructsApart(EmitFunction(f, cx.layouts[f.name]))
  {
    var lay := cx.layouts[f.name];
    var cf := EmitFunction(f, lay);
    assert FunctionOk(cx.fs, cx.kinds, lay, cx.names[f.name], f);
    forall t | t in cf.params
      ensures Executable(t)
    {
      var k :| 0 <= k < |cf.params| && cf.params[k] == t;
    }
    hide Compilable, LocalsApart, BlockOk, EmitAliases, EmitBlocks, StructsApart;
    forall s | s in cf.body && s.Decl?
      ensures Executable(s.ty)
    {
      DeclaresExecutable(cx, f, s);
    }
    ScalarsApart(cf);
  }

  /** A C compiler takes the program: names, labels, jumps, calls and structures are as it wants them. */
  lemma ProgramCompiles(cx: Context)
    requires cx.Ok()
    ensures Compiles(cx.Program())
  {
    ContextCompilable(cx);
    EmittedProgramLegal(cx.fs, cx.layouts);
    hide LegalProgram, CompilableModule, FunctionOk, StructsApart, EmitFunction, AllEmittable;
    forall cf | cf in cx.Program()
      ensures StructsApart(cf)
    {
      var k :| 0 <= k < |cx.fs| && cf == EmitFunction(cx.fs[k], cx.layouts[cx.fs[k].name]);
      FunctionApart(cx, cx.fs[k]);
    }
  }

  /**
   Every run of every function, for as many steps as the MIR machine makes: the emitted program
   enters the same blocks in the same order, and when the MIR run is over it is over too, with the
   same result. A MIR run that never ends has a C run that never ends, since each step takes at
   least one.
   */
  lemma EmittedProgramSimulates(cx: Context, f: Function, args: seq<Value>, k: nat)
      returns (n: nat, c: CState)
    requires cx.Ok() && f in cx.fs && ArgsFit(cx, f, args)
    requires Start(f, args).Some? && Steps(cx.fs, Start(f, args).value, k).Some?
    requires RunDefined(cx.fs, Start(f, args).value, k)
    ensures CStart(f, cx.layouts[f.name], args).Some?
    ensures Compiles(cx.Program())
    ensures k < n && CSteps(cx.Program(), CStart(f, cx.layouts[f.name], args).value, n) == Some(c)
    ensures StateRel(cx, f, Steps(cx.fs, Start(f, args).value, k).value, c)
  {
    hide Steps, CSteps, CStep, RunDefined, StepDefined, Context.Program, FrameRel, EmitFunction, ArgData, Compiles;
    ProgramCompiles(cx);
    var data := ArgData(cx.layouts[f.name], args);
    StartShown(cx, f, args);
    EntrySucceeds(cx, f, args, data);
    var c0 := CEnter(EmitFunction(f, cx.layouts[f.name]), data).value;
    var top := EntrySimulates(cx, cx.Program(), f, args, data, c0, [], []);
    var m := Start(f, args).value;
    assert [] + [(f.name, f.entry)] == [(f.name, f.entry)];
    assert CTraceOf([]) == [];
    var s := CRunning(top, [], CTraceOf([(f.name, f.entry)]));
    var n1;
    n1, c := RunSimulates(cx, f, m, s, k);
    n := |f.params| + 1 + n1;
    CStepsAdd(cx.Program(), CRunning(c0, [], []), |f.params| + 1, n1);
  }

  /** In particular, for runs that return. */
  lemma EmittedProgramReturns(cx: Context, f: Function, args: seq<Value>, k: nat)
      returns (n: nat, d: Datum)
    requires cx.Ok() && f in cx.fs && ArgsFit(cx, f, args)
    requires Start(f, args).Some? && Steps(cx.fs, Start(f, args).value, k).Some?
    requires Steps(cx.fs, Start(f, args).value, k).value.Done?
    requires RunDefined(cx.fs, Start(f, args).value, k)
    ensures CStart(f, cx.layouts[f.name], args).Some?
    ensures Compiles(cx.Program())
    ensures var Done(v, t) := Steps(cx.fs, Start(f, args).value, k).value;
            && CSteps(cx.Program(), CStart(f, cx.layouts[f.name], args).value, n) == Some(CDone(d, CTraceOf(t)))
            && ExitShows(f, v, d)
  {
    hide Steps, CSteps, RunDefined, Context.Ok, Context.Program, ArgsFit, Compiles;
    var c;
    n, c := EmittedProgramSimulates(cx, f, args, k);
    d := c.result;
  }
}
