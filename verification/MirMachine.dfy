/**
 Whole-module execution of MIR, one instruction or terminator at a time: the interpreter's operators
 at 64 bits, calls on an explicit stack of frames, and mutable locals as the JIT back end has them
 (an allocation zeroes the local, a store also yields the stored value).
 */
module MirMachine {
  import opened Mir
  import opened MirEval
  import opened MirKinds
  import opened Options
  import opened Words

  type LocalEnv = map<string, Value>

  datatype Frame = Frame(fn: Function, vals: Env, locals: LocalEnv, instrs: seq<Instr>, term: Terminator)

  /** The blocks entered so far, each with the function it belongs to. */
  type Trace = seq<(string, BlockId)>

  datatype State =
    | Running(top: Frame, callers: seq<Frame>, trace: Trace)
    | Done(result: Value, trace: Trace)

  /** What a local holds before it is set; a string is no string yet. */
  function Zero(ty: TypeId): Value {
    match KindOfId(ty)
    case BoolK => BoolV(false)
    case FloatK => FloatV(0.0)
    case StrK => UnitV
    case _ => IntV(0)
  }

  function BindLocals(params: seq<Param>, args: seq<Value>): LocalEnv
    requires |params| == |args|
  {
    if params == [] then map[] else
    var n := |params| - 1;
    BindLocals(params[..n], args[..n])[params[n].name := args[n]]
  }

  function LookupAll(env: Env, vs: seq<ValueId>): (r: Option<seq<Value>>)
    ensures r.Some? ==> |r.value| == |vs| && forall k | 0 <= k < |vs| :: vs[k] in env && r.value[k] == env[vs[k]]
  {
    if vs == [] then Some([]) else
    var n := |vs| - 1;
    var front :- LookupAll(env, vs[..n]);
    var last :- Lookup(env, vs[n]);
    Some(front + [last])
  }

  /** A fresh activation, at the start of the function's entry block. */
  function Enter(f: Function, args: seq<Value>): Option<Frame>
    requires |f.params| == |args|
  {
    var b :- FindBlock(f.blocks, f.entry);
    Some(Frame(f, Bind(f.params, args), BindLocals(f.params, args), b.instrs, b.term))
  }

  /** The value of an instruction other than a call, and the locals after it. */
  function Execute(fr: Frame, op: Op): Option<(Value, LocalEnv)> {
    match op
    case LoadLocal(x) => if x in fr.locals then Some((fr.locals[x], fr.locals)) else None
    case StoreLocal(x, v) =>
      var val :- Lookup(fr.vals, v);
      if x in fr.locals then Some((val, fr.locals[x := val])) else None
    case Alloca(x, ty) => Some((Zero(ty), fr.locals[x := Zero(ty)]))
    case _ =>
      var val :- EvalOp(W64, fr.vals, op);
      Some((val, fr.locals))
  }

  function CaseTarget(cases: seq<(i64, BlockId)>, default: BlockId, val: int): BlockId {
    if cases == [] then default
    else if cases[0].0 == val then cases[0].1
    else CaseTarget(cases[1..], default, val)
  }

  /** Where a jump, branch or switch goes. */
  function Target(fr: Frame): Option<BlockId> {
    match fr.term
    case Jump(b) => Some(b)
    case Branch(cond, t, e) =>
      var v :- Lookup(fr.vals, cond);
      if v.BoolV? then Some(if v.flag then t else e) else None
    case Switch(d, cases, default) =>
      var v :- Lookup(fr.vals, d);
      if v.IntV? then Some(CaseTarget(cases, default, v.num)) else None
    case _ => None
  }

  function ReturnValue(fr: Frame): Option<Value> {
    match fr.term
    case Return(v) => Lookup(fr.vals, v)
    case ReturnVoid => Some(UnitV)
    case _ => None
  }

  /** The value of the pending call of `fr`, its first instruction. */
  function Resume(fr: Frame, v: Value): Option<Frame> {
    if fr.instrs != [] && fr.instrs[0].op.Call?
    then Some(fr.(vals := fr.vals[fr.instrs[0].result := v], instrs := fr.instrs[1..]))
    else None
  }

  function Step(fs: seq<Function>, s: State): Option<State> {
    if s.Done? then None
    else if s.top.instrs != [] then
      var i := s.top.instrs[0];
      if i.op.Call? then
        var k :- FindFunction(fs, i.op.callee);
        var args :- LookupAll(s.top.vals, i.op.args);
        if |args| != |fs[k].params| then None else
        var fr :- Enter(fs[k], args);
        Some(Running(fr, [s.top] + s.callers, s.trace + [(fs[k].name, fs[k].entry)]))
      else
        var (v, locals) :- Execute(s.top, i.op);
        Some(s.(top := s.top.(vals := s.top.vals[i.result := v], locals := locals, instrs := s.top.instrs[1..])))
    else if s.top.term.Return? || s.top.term.ReturnVoid? then
      var v :- ReturnValue(s.top);
      if s.callers == [] then Some(Done(v, s.trace)) else
      var fr :- Resume(s.callers[0], v);
      Some(Running(fr, s.callers[1..], s.trace))
    else
      var id :- Target(s.top);
      var b :- FindBlock(s.top.fn.blocks, id);
      Some(s.(top := s.top.(instrs := b.instrs, term := b.term), trace := s.trace + [(s.top.fn.name, id)]))
  }

  function Steps(fs: seq<Function>, s: State, n: nat): Option<State> {
    if n == 0 then Some(s) else
    var s' :- Steps(fs, s, n - 1);
    Step(fs, s')
  }

  function Start(f: Function, args: seq<Value>): Option<State>
    requires |f.params| == |args|
  {
    var fr :- Enter(f, args);
    Some(Running(fr, [], [(f.name, f.entry)]))
  }
}
