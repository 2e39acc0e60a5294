/** In a module that respects its kinds, every run gives every value and local what its kind says. */
module MirRuns {
  import opened Mir
  import opened MirEval
  import opened MirKinds
  import opened MirMachine
  import opened Options

  ghost predicate FrameKinded(fs: seq<Function>, km: KindMap, fr: Frame) {
    && fr.fn in fs && fr.fn.name in km
    && (forall v | v in fr.vals && v !in ParamIds(fr.fn) :: IsOf(fr.vals[v], km[fr.fn.name].Value(v)))
    && (forall x | x in fr.locals :: IsOf(fr.locals[x], km[fr.fn.name].Local(x)))
    && (forall i | i in fr.instrs :: InstrKinds(fs, km, fr.fn, i))
    && TermKinds(km, fr.fn, fr.term)
  }

  /** Each suspended activation waits at a call of the function above it. */
  ghost predicate StackKinded(fs: seq<Function>, km: KindMap, callee: string, callers: seq<Frame>)
    decreases |callers|
  {
    callers != [] ==>
      && FrameKinded(fs, km, callers[0])
      && callers[0].instrs != [] && callers[0].instrs[0].op.Call? && callers[0].instrs[0].op.callee == callee
      && StackKinded(fs, km, callers[0].fn.name, callers[1..])
  }

  /** Every activation is kinded, and a result is what the function the run started in returns. */
  ghost predicate StateKinded(fs: seq<Function>, km: KindMap, root: Function, s: State) {
    match s
    case Running(top, callers, _) =>
      && FrameKinded(fs, km, top) && StackKinded(fs, km, top.fn.name, callers)
      && (if callers == [] then top.fn.name else callers[|callers| - 1].fn.name) == root.name
    case Done(v, _) => root.name in km && IsOf(v, km[root.name].result)
  }

  ghost predicate ArgsKinded(km: KindMap, f: Function, args: seq<Value>) {
    && f.name in km && |args| == |f.params|
    && forall k | 0 <= k < |args| :: IsOf(args[k], km[f.name].Local(f.params[k].name))
  }

  // ----- one operation

  lemma ExecuteKept(fs: seq<Function>, km: KindMap, fr: Frame, i: Instr)
    requires FrameKinded(fs, km, fr) && InstrKinds(fs, km, fr.fn, i) && !i.op.Call? && Execute(fr, i.op).Some?
    ensures var (v, locals) := Execute(fr, i.op).value;
            && IsOf(v, km[fr.fn.name].Value(i.result))
            && forall x | x in locals :: IsOf(locals[x], km[fr.fn.name].Local(x))
  {
    hide EvalBinOp, EvalUnOp, BinaryKind, UnaryKind;
    var kinds := km[fr.fn.name];
    match i.op {
      case Binary(op, l, r) =>
        assert l in Operands(i.op) && r in Operands(i.op);
        BinaryKept(op, fr.vals[l], fr.vals[r], kinds.Value(l), kinds.Value(r));
      case Unary(op, a) =>
        assert a in Operands(i.op);
        UnaryKept(op, fr.vals[a], kinds.Value(a));
      case StoreLocal(x, a) =>
        assert a in Operands(i.op);
        WidensKeeps(fr.vals[a], kinds.Value(a), kinds.Local(x));
      case Copy(a) => assert a in Operands(i.op);
      case _ =>
    }
  }

  // ----- entering and leaving

  lemma {:induction false} BoundOf(params: seq<Param>, args: seq<Value>)
    requires |params| == |args|
    ensures forall v | v in Bind(params, args) :: exists p :: p in params && p.value == v
  {
    if params != [] {
      var n := |params| - 1;
      BoundOf(params[..n], args[..n]);
      assert params == params[..n] + [params[n]];
    }
  }

  lemma {:induction false} LocalsBound(km: KindMap, name: string, params: seq<Param>, args: seq<Value>)
    requires |params| == |args| && name in km
    requires forall k | 0 <= k < |args| :: IsOf(args[k], km[name].Local(params[k].name))
    ensures forall x | x in BindLocals(params, args) :: IsOf(BindLocals(params, args)[x], km[name].Local(x))
  {
    hide IsOf;
    if params != [] {
      var n := |params| - 1;
      LocalsBound(km, name, params[..n], args[..n]);
    }
  }

  lemma EntryKinded(fs: seq<Function>, km: KindMap, f: Function, args: seq<Value>)
    requires ModuleKinds(fs, km) && f in fs && ArgsKinded(km, f, args) && Enter(f, args).Some?
    ensures FrameKinded(fs, km, Enter(f, args).value) && Enter(f, args).value.fn == f
  {
    hide IsOf, InstrKinds, TermKinds;
    assert FunctionKinds(fs, km, f);
    BoundOf(f.params, args);
    LocalsBound(km, f.name, f.params, args);
  }

  lemma CallKinded(fs: seq<Function>, km: KindMap, fr: Frame, args: seq<Value>)
    requires FrameKinded(fs, km, fr) && fr.instrs != [] && fr.instrs[0].op.Call?
    requires LookupAll(fr.vals, fr.instrs[0].op.args) == Some(args)
    ensures var k := FindFunction(fs, fr.instrs[0].op.callee);
            k.Some? && ArgsKinded(km, fs[k.value], args)
  {
    var i := fr.instrs[0];
    assert InstrKinds(fs, km, fr.fn, i);
    var g := fs[FindFunction(fs, i.op.callee).value];
    forall j | 0 <= j < |args|
      ensures IsOf(args[j], km[g.name].Local(g.params[j].name))
    {
      assert i.op.args[j] in Operands(i.op);
      WidensKeeps(args[j], km[fr.fn.name].Value(i.op.args[j]), km[g.name].Local(g.params[j].name));
    }
  }

  lemma ReturnKinded(fs: seq<Function>, km: KindMap, fr: Frame)
    requires FrameKinded(fs, km, fr) && ReturnValue(fr).Some?
    ensures IsOf(ReturnValue(fr).value, km[fr.fn.name].result)
  {
    if fr.term.Return? {
      assert fr.term.returned in TermOperands(fr.term);
    }
  }

  lemma ResumeKinded(fs: seq<Function>, km: KindMap, fr: Frame, callee: string, v: Value)
    requires FrameKinded(fs, km, fr) && fr.instrs != [] && fr.instrs[0].op.Call? && fr.instrs[0].op.callee == callee
    requires callee in km && IsOf(v, km[callee].result)
    ensures FrameKinded(fs, km, Resume(fr, v).value) && Resume(fr, v).value.fn == fr.fn
  {
    hide IsOf, OpKinds, TermKinds;
    assert InstrKinds(fs, km, fr.fn, fr.instrs[0]);
    assert forall i | i in fr.instrs[1..] :: i in fr.instrs;
  }

  lemma SimpleKinded(fs: seq<Function>, km: KindMap, fr: Frame)
    requires FrameKinded(fs, km, fr) && fr.instrs != [] && !fr.instrs[0].op.Call?
    requires Execute(fr, fr.instrs[0].op).Some?
    ensures var (v, locals) := Execute(fr, fr.instrs[0].op).value;
            FrameKinded(fs, km,
                        fr.(vals := fr.vals[fr.instrs[0].result := v], locals := locals, instrs := fr.instrs[1..]))
  {
    var i := fr.instrs[0];
    assert InstrKinds(fs, km, fr.fn, i);
    ExecuteKept(fs, km, fr, i);
    hide IsOf, InstrKinds, TermKinds, Execute;
    assert forall j | j in fr.instrs[1..] :: j in fr.instrs;
  }

  lemma BlockKinded(fs: seq<Function>, km: KindMap, fr: Frame, b: Block)
    requires ModuleKinds(fs, km) && FrameKinded(fs, km, fr) && b in fr.fn.blocks
    ensures FrameKinded(fs, km, fr.(instrs := b.instrs, term := b.term))
  {
    hide IsOf, InstrKinds, TermKinds;
    assert FunctionKinds(fs, km, fr.fn);
  }

  // ----- one step

  lemma StepKinded(fs: seq<Function>, km: KindMap, root: Function, s: State)
    requires ModuleKinds(fs, km) && StateKinded(fs, km, root, s) && MirMachine.Step(fs, s).Some?
    ensures StateKinded(fs, km, root, MirMachine.Step(fs, s).value)
  {
    hide FrameKinded, Execute, IsOf, ModuleKinds, Enter, ReturnValue, ArgsKinded;
    if s.top.instrs != [] && s.top.instrs[0].op.Call? {
      var args := LookupAll(s.top.vals, s.top.instrs[0].op.args).value;
      CallKinded(fs, km, s.top, args);
      var g := fs[FindFunction(fs, s.top.instrs[0].op.callee).value];
      EntryKinded(fs, km, g, args);
      assert ([s.top] + s.callers)[1..] == s.callers;
    } else if s.top.instrs != [] {
      SimpleKinded(fs, km, s.top);
    } else if s.top.term.Return? || s.top.term.ReturnVoid? {
      ReturnKinded(fs, km, s.top);
      NameKnown(fs, km, s.top);
      if s.callers != [] {
        ResumeKinded(fs, km, s.callers[0], s.top.fn.name, ReturnValue(s.top).value);
      }
    } else {
      BlockKinded(fs, km, s.top, FindBlock(s.top.fn.blocks, Target(s.top).value).value);
    }
  }

  lemma NameKnown(fs: seq<Function>, km: KindMap, fr: Frame)
    requires FrameKinded(fs, km, fr)
    ensures fr.fn.name in km
  {
  }

  /** Every state of every run: what each value and local holds is of its kind. */
  lemma {:induction false} RunKinded(fs: seq<Function>, km: KindMap, f: Function, args: seq<Value>, n: nat)
    requires ModuleKinds(fs, km) && f in fs && ArgsKinded(km, f, args)
    requires Start(f, args).Some? && Steps(fs, Start(f, args).value, n).Some?
    ensures StateKinded(fs, km, f, Steps(fs, Start(f, args).value, n).value)
    decreases n
  {
    assert |f.params| == |args|;
    hide StateKinded, ModuleKinds, MirMachine.Step, ArgsKinded;
    if n == 0 {
      StartKinded(fs, km, f, args);
    } else {
      RunKinded(fs, km, f, args, n - 1);
      StepKinded(fs, km, f, Steps(fs, Start(f, args).value, n - 1).value);
    }
  }

  lemma StartKinded(fs: seq<Function>, km: KindMap, f: Function, args: seq<Value>)
    requires ModuleKinds(fs, km) && f in fs && ArgsKinded(km, f, args) && Start(f, args).Some?
    ensures StateKinded(fs, km, f, Start(f, args).value)
  {
    EntryKinded(fs, km, f, args);
    hide FrameKinded, ModuleKinds, ArgsKinded;
  }
}
