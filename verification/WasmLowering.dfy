/** Lowering MIR functions to WebAssembly, and what the lowered code computes. */
module WasmLowering {
  import opened Mir
  import opened MirEval
  import opened Options
  import opened WasmMachine
  import opened Words

  /** Only parameters have a place of their own; every other value is left on the operand stack. */
  type Locals = map<ValueId, u32>

  function ParamMap(params: seq<Param>): Locals {
    if params == [] then map[] else
    var n := |params| - 1;
    ParamMap(params[..n])[params[n].value := ToU32(n)]
  }

  /** The logical operators have no case of their own and fall through to addition. */
  function OpFor(op: BinOp): NumOp {
    match op
    case Add => I32Add
    case Sub => I32Sub
    case Mul => I32Mul
    case Div => I32DivS
    case Mod => I32RemS
    case BitAnd => I32And
    case BitOr => I32Or
    case BitXor => I32Xor
    case Shl => I32Shl
    case Shr => I32ShrS
    case Eq => I32Eq
    case NotEq => I32Ne
    case Lt => I32LtS
    case LtEq => I32LeS
    case Gt => I32GtS
    case GtEq => I32GeS
    case And => I32Add
    case Or => I32Add
  }

  function Fetch(vm: Locals, v: ValueId): seq<WasmInstr> {
    if v in vm then [LocalGet(vm[v])] else []
  }

  function LowerInstr(vm: Locals, i: Instr): seq<WasmInstr> {
    match i.op
    case ConstInt(val) => [I32Const(Wrap32(val))]
    case Binary(bop, left, right) => Fetch(vm, left) + Fetch(vm, right) + [Numeric(OpFor(bop))]
    case Copy(src) => Fetch(vm, src)
    case _ => []
  }

  function LowerInstrs(vm: Locals, instrs: seq<Instr>): seq<WasmInstr> {
    if instrs == [] then [] else LowerInstr(vm, instrs[0]) + LowerInstrs(vm, instrs[1..])
  }

  function LowerTerm(vm: Locals, t: Terminator): seq<WasmInstr> {
    if t.Return? then Fetch(vm, t.returned) + [WasmInstr.Return] else []
  }

  function LowerBlock(vm: Locals, b: Block): seq<WasmInstr> {
    LowerInstrs(vm, b.instrs) + LowerTerm(vm, b.term)
  }

  /** Blocks one after the other; no control flow is emitted between them. */
  function LowerBlocks(vm: Locals, blocks: seq<Block>): seq<WasmInstr> {
    if blocks == [] then [] else LowerBlock(vm, blocks[0]) + LowerBlocks(vm, blocks[1..])
  }

  function LowerFunction(f: Function): seq<WasmInstr> {
    LowerBlocks(ParamMap(f.params), f.blocks)
  }

  /** The instructions of all blocks, in the order of the text. */
  function Flattened(blocks: seq<Block>): seq<Instr> {
    if blocks == [] then [] else blocks[0].instrs + Flattened(blocks[1..])
  }

  /** The blocks run together into the first one, which ends as the last one does. */
  function OneBlock(f: Function): Function
    requires f.blocks != []
  {
    f.(blocks := [Block(f.blocks[0].id, Flattened(f.blocks), f.blocks[|f.blocks| - 1].term)])
  }

  lemma {:induction false} LowerInstrsAppend(vm: Locals, a: seq<Instr>, b: seq<Instr>)
    ensures LowerInstrs(vm, a + b) == LowerInstrs(vm, a) + LowerInstrs(vm, b)
  {
    hide LowerInstr;
    if a == [] {
      assert a + b == b;
    } else {
      assert (a + b)[1..] == a[1..] + b;
      LowerInstrsAppend(vm, a[1..], b);
    }
  }

  lemma {:induction false} BlocksRunOn(vm: Locals, blocks: seq<Block>)
    requires blocks != [] && forall k | 0 <= k < |blocks| - 1 :: !blocks[k].term.Return?
    ensures LowerBlocks(vm, blocks)
            == LowerInstrs(vm, Flattened(blocks)) + LowerTerm(vm, blocks[|blocks| - 1].term)
  {
    hide LowerInstrs;
    assert LowerBlocks(vm, []) == [] && Flattened([]) == [];
    if |blocks| == 1 {
      assert blocks[1..] == [] && blocks[0].instrs + [] == blocks[0].instrs;
    } else {
      BlocksRunOn(vm, blocks[1..]);
      LowerInstrsAppend(vm, blocks[0].instrs, Flattened(blocks[1..]));
      hide Fetch;
      assert LowerTerm(vm, blocks[0].term) == [];
    }
  }

  /** Blocks that run on to one another, only the last of which returns, are lowered as one block. */
  lemma ChainLowersAsOneBlock(f: Function)
    requires f.blocks != [] && forall k | 0 <= k < |f.blocks| - 1 :: !f.blocks[k].term.Return?
    ensures LowerFunction(f) == LowerFunction(OneBlock(f))
  {
    BlocksRunOn(ParamMap(f.params), f.blocks);
    BlocksRunOn(ParamMap(f.params), OneBlock(f).blocks);
    assert OneBlock(f).blocks[1..] == [];
    assert Flattened(OneBlock(f).blocks) == Flattened(f.blocks) + Flattened([]);
    hide LowerInstrs, LowerTerm, LowerBlocks;
  }

  // ----- the stack discipline lowering relies on

  predicate Commutes(op: BinOp) {
    op in {Add, Mul, Eq, NotEq, And, Or, BitAnd, BitOr, BitXor}
  }

  function IndexOf(st: seq<ValueId>, v: ValueId): (i: nat)
    requires v in st
    ensures i < |st| && st[i] == v
  {
    if st[0] == v then 0 else IndexOf(st[1..], v) + 1
  }

  /**
   The values the emitted code has on its operand stack, oldest first, as one instruction goes by.
   `None` when an operand is not where the emitted code will look for it.
   */
  function TrackInstr(vm: Locals, st: seq<ValueId>, i: Instr): Option<seq<ValueId>> {
    if i.result in vm || i.result in st then None else
    var n := |st|;
    match i.op
    case ConstInt(_) => Some(st + [i.result])
    case Copy(src) =>
      if src in vm then Some(st + [i.result])
      else if src in st then Some(st[IndexOf(st, src) := i.result])
      else None
    case Binary(op, l, r) =>
      if l in vm && r in vm then Some(st + [i.result])
      else if l in vm then
        // the parameter is fetched after the right operand is already on the stack
        if 1 <= n && st[n - 1] == r && Commutes(op) then Some(st[..n - 1] + [i.result]) else None
      else if r in vm then
        if 1 <= n && st[n - 1] == l then Some(st[..n - 1] + [i.result]) else None
      else if 2 <= n && st[n - 2] == l && st[n - 1] == r then Some(st[..n - 2] + [i.result])
      else None
    case _ => Some(st)
  }

  function Track(vm: Locals, st: seq<ValueId>, instrs: seq<Instr>): Option<seq<ValueId>>
    decreases instrs
  {
    if instrs == [] then Some(st) else
    var st' :- TrackInstr(vm, st, instrs[0]);
    Track(vm, st', instrs[1..])
  }

  /** A function of one block, which keeps the discipline and returns. */
  predicate Disciplined(f: Function) {
    && |f.blocks| == 1
    && f.blocks[0].id == f.entry
    && f.blocks[0].term.Return?
    && var vm := ParamMap(f.params);
       var ret := f.blocks[0].term.returned;
       var st := Track(vm, [], f.blocks[0].instrs);
       st.Some? && (ret in vm || (st.value != [] && st.value[|st.value| - 1] == ret))
  }

  // ----- one operator

  function Rep(v: Value): i32 {
    match v
    case IntV(i) => Wrap32(i)
    case BoolV(b) => Flag(b)
    case _ => 0
  }

  /** An i32 can stand for the value: it is no float, no string and no integer too large. */
  predicate Small(v: Value) {
    InRange(W32, v) && !v.FloatV? && !v.StrV?
  }

  /** The operands on which the emitted instruction is the operator the MIR asked for. */
  predicate OperatorKept(op: BinOp, l: Value, r: Value) {
    match op
    case And => l != BoolV(true) && r != BoolV(true)
    case Or => l != BoolV(true) || r != BoolV(true)
    case Div => !(l == IntV(-TWO_31) && r == IntV(-1))
    case _ => true
  }

  lemma WrapInRange(x: i32)
    ensures Wrap32(x) == x
  {
  }

  lemma WrapTwice(x: int)
    ensures Wrap32(Wrap32(x)) == Wrap32(x)
  {
  }

  lemma IntOperatorExact(op: BinOp, a: i32, b: i32)
    requires EvalIntOp(W32, op, a, b).Some?
    ensures NumericOp(OpFor(op), a, b) == Some(Rep(EvalIntOp(W32, op, a, b).value))
            <==> OperatorKept(op, IntV(a), IntV(b))
    ensures Small(EvalIntOp(W32, op, a, b).value)
  {
    hide Wrap32, TruncDiv, TruncRem, Bitwise, ShiftRight, Pow2;
    match op {
      case Add => WrapTwice(a + b);
      case Sub => WrapTwice(a - b);
      case Mul => WrapTwice(a * b);
      case Div => WrapTwice(TruncDiv(a, b));
      case Mod => WrapTwice(TruncRem(a, b));
      case BitAnd => WrapTwice(Bitwise(AndBits, a, b, 32));
      case BitOr => WrapTwice(Bitwise(OrBits, a, b, 32));
      case BitXor => WrapTwice(Bitwise(XorBits, a, b, 32));
      case Shl => WrapTwice(a * Pow2(b % 32));
      case Shr => WrapInRange(ShiftRight(a, b % 32));
      case _ =>
    }
  }

  lemma BoolOperatorExact(op: BinOp, a: bool, b: bool)
    requires EvalBoolOp(op, a, b).Some?
    ensures NumericOp(OpFor(op), Flag(a), Flag(b)) == Some(Rep(EvalBoolOp(op, a, b).value))
            <==> OperatorKept(op, BoolV(a), BoolV(b))
    ensures EvalBoolOp(op, a, b).value.BoolV?
  {
  }

  /** For every operator and every pair of operands the interpreter accepts. */
  lemma OperatorExact(op: BinOp, l: Value, r: Value)
    requires Small(l) && Small(r) && EvalBinOp(W32, op, l, r).Some?
    ensures NumericOp(OpFor(op), Rep(l), Rep(r)) == Some(Rep(EvalBinOp(W32, op, l, r).value))
            <==> OperatorKept(op, l, r)
    ensures Small(EvalBinOp(W32, op, l, r).value)
  {
    hide EvalIntOp, EvalBoolOp, NumericOp, OperatorKept, OpFor, Wrap32;
    match (l, r) {
      case (IntV(a), IntV(b)) =>
        WrapInRange(a);
        WrapInRange(b);
        IntOperatorExact(op, a, b);
      case (BoolV(a), BoolV(b)) => BoolOperatorExact(op, a, b);
      case _ =>
    }
  }

  // ----- straight-line execution

  function Exec(code: seq<WasmInstr>, locals: seq<i32>, stack: seq<i32>): Option<seq<i32>>
    decreases code
  {
    if code == [] then Some(stack) else
    var stack' :- Step(code[0], locals, stack);
    Exec(code[1..], locals, stack')
  }

  lemma {:induction false} RunAfter(code: seq<WasmInstr>, rest: seq<WasmInstr>, locals: seq<i32>, stack: seq<i32>)
    requires Exec(code, locals, stack).Some?
    ensures Run(code + rest, locals, stack) == Run(rest, locals, Exec(code, locals, stack).value)
    decreases code
  {
    if code == [] {
      assert code + rest == rest;
    } else {
      assert (code + rest)[1..] == code[1..] + rest;
      RunAfter(code[1..], rest, locals, Step(code[0], locals, stack).value);
    }
  }

  lemma {:induction false} ExecAfter(code: seq<WasmInstr>, rest: seq<WasmInstr>, locals: seq<i32>, stack: seq<i32>)
    requires Exec(code, locals, stack).Some?
    ensures Exec(code + rest, locals, stack) == Exec(rest, locals, Exec(code, locals, stack).value)
    decreases code
  {
    if code == [] {
      assert code + rest == rest;
    } else {
      assert (code + rest)[1..] == code[1..] + rest;
      ExecAfter(code[1..], rest, locals, Step(code[0], locals, stack).value);
    }
  }

  lemma ExecOne(i: WasmInstr, locals: seq<i32>, stack: seq<i32>)
    ensures Exec([i], locals, stack) == Step(i, locals, stack)
  {
    assert [i][1..] == [];
  }

  lemma ExecNothing(locals: seq<i32>, stack: seq<i32>)
    ensures Exec([], locals, stack) == Some(stack)
  {
  }

  /** Parameters sit in the locals, tracked values on the operand stack, all in 32-bit form. */
  ghost predicate Agree(vm: Locals, st: seq<ValueId>, env: Env, locals: seq<i32>, stack: seq<i32>) {
    && (forall v | v in vm :: v in env && vm[v] < |locals| && Small(env[v]) && locals[vm[v]] == Rep(env[v]))
    && |st| == |stack|
    && (forall k | 0 <= k < |st| :: st[k] !in vm && st[k] in env && Small(env[st[k]]) && stack[k] == Rep(env[st[k]]))
    && (forall j, k | 0 <= j < k < |st| :: st[j] != st[k])
  }

  /** A new value replaces everything above `below`. */
  lemma AgreeAfterPush(vm: Locals, st: seq<ValueId>, env: Env, locals: seq<i32>, stack: seq<i32>,
                       below: nat, result: ValueId, v: Value)
    requires Agree(vm, st, env, locals, stack) && below <= |st|
    requires result !in vm && result !in st && Small(v)
    ensures Agree(vm, st[..below] + [result], env[result := v], locals, stack[..below] + [Rep(v)])
  {
  }

  lemma FetchParam(vm: Locals, st: seq<ValueId>, env: Env, locals: seq<i32>, stack: seq<i32>, base: seq<i32>,
                   v: ValueId)
    requires Agree(vm, st, env, locals, stack) && v in vm
    ensures Exec(Fetch(vm, v), locals, base) == Some(base + [Rep(env[v])])
  {
    ExecOne(LocalGet(vm[v]), locals, base);
  }

  /** The operands of a tracked operator reach the top of the stack, in one order or the other. */
  lemma OperandsFetched(vm: Locals, st: seq<ValueId>, env: Env, locals: seq<i32>, stack: seq<i32>, i: Instr)
      returns (below: nat)
    requires i.op.Binary? && Agree(vm, st, env, locals, stack) && TrackInstr(vm, st, i).Some?
    ensures below <= |st| && TrackInstr(vm, st, i).value == st[..below] + [i.result]
    ensures i.op.left in env && i.op.right in env && Small(env[i.op.left]) && Small(env[i.op.right])
    ensures var code := Fetch(vm, i.op.left) + Fetch(vm, i.op.right);
            var l, r := Rep(env[i.op.left]), Rep(env[i.op.right]);
            || Exec(code, locals, stack) == Some(stack[..below] + [l, r])
            || (Commutes(i.op.bop) && Exec(code, locals, stack) == Some(stack[..below] + [r, l]))
  {
    var Binary(op, l, r) := i.op;
    below := if l in vm && r in vm then |st| else if l in vm || r in vm then |st| - 1 else |st| - 2;
    if l in vm && r in vm {
      BothFetched(vm, st, env, locals, stack, l, r);
    } else if l in vm {
      OneFetched(vm, st, env, locals, stack, l);
      assert Fetch(vm, l) + Fetch(vm, r) == Fetch(vm, l);
      assert stack + [Rep(env[l])] == stack[..below] + [Rep(env[r]), Rep(env[l])];
    } else if r in vm {
      OneFetched(vm, st, env, locals, stack, r);
      assert Fetch(vm, l) + Fetch(vm, r) == Fetch(vm, r);
      assert stack + [Rep(env[r])] == stack[..below] + [Rep(env[l]), Rep(env[r])];
    } else {
      ExecNothing(locals, stack);
      assert Fetch(vm, l) + Fetch(vm, r) == [];
      assert stack == stack[..below] + [Rep(env[l]), Rep(env[r])];
    }
    hide Exec, Rep, Commutes, Small, Fetch;
  }

  lemma OneFetched(vm: Locals, st: seq<ValueId>, env: Env, locals: seq<i32>, stack: seq<i32>, v: ValueId)
    requires Agree(vm, st, env, locals, stack) && v in vm
    ensures v in env && Small(env[v]) && Exec(Fetch(vm, v), locals, stack) == Some(stack + [Rep(env[v])])
  {
    FetchParam(vm, st, env, locals, stack, stack, v);
    hide Exec, Rep, Fetch;
  }

  lemma BothFetched(vm: Locals, st: seq<ValueId>, env: Env, locals: seq<i32>, stack: seq<i32>, l: ValueId, r: ValueId)
    requires Agree(vm, st, env, locals, stack) && l in vm && r in vm
    ensures l in env && r in env && Small(env[l]) && Small(env[r])
    ensures Exec(Fetch(vm, l) + Fetch(vm, r), locals, stack) == Some(stack[..|stack|] + [Rep(env[l]), Rep(env[r])])
  {
    FetchParam(vm, st, env, locals, stack, stack, l);
    FetchParam(vm, st, env, locals, stack, stack + [Rep(env[l])], r);
    ExecAfter(Fetch(vm, l), Fetch(vm, r), locals, stack);
    hide Exec, Rep, Fetch;
    assert stack + [Rep(env[l])] + [Rep(env[r])] == stack[..|stack|] + [Rep(env[l]), Rep(env[r])];
  }

  lemma CommutedOperands(op: BinOp, a: i32, b: i32)
    requires Commutes(op)
    ensures NumericOp(OpFor(op), a, b) == NumericOp(OpFor(op), b, a)
  {
    match op {
      case BitAnd => BitwiseCommutes(AndBits, a, b, 32);
      case BitOr => BitwiseCommutes(OrBits, a, b, 32);
      case BitXor => BitwiseCommutes(XorBits, a, b, 32);
      case Mul => assert a * b == b * a;
      case _ =>
    }
  }

  /** Nothing but these operators is indifferent to the order of its operands; 1 and 3 tell the others apart. */
  lemma CommutesExactly(op: BinOp)
    ensures (forall a: i32, b: i32 :: NumericOp(OpFor(op), a, b) == NumericOp(OpFor(op), b, a)) <==> Commutes(op)
  {
    if Commutes(op) {
      forall a: i32, b: i32
        ensures NumericOp(OpFor(op), a, b) == NumericOp(OpFor(op), b, a)
      {
        CommutedOperands(op, a, b);
      }
    } else {
      OneAndThree(op);
      hide NumericOp;
      assert NumericOp(OpFor(op), 1, 3) != NumericOp(OpFor(op), 3, 1);
    }
  }

  lemma OneAndThree(op: BinOp)
    requires !Commutes(op)
    ensures NumericOp(OpFor(op), 1, 3) != NumericOp(OpFor(op), 3, 1)
  {
    ShiftsDiffer();
    DivisionsDiffer();
    SignsDiffer();
    hide NumericOp;
  }

  lemma ShiftsDiffer()
    ensures NumericOp(I32Shl, 1, 3) == Some(8) && NumericOp(I32Shl, 3, 1) == Some(6)
    ensures NumericOp(I32ShrS, 1, 3) == Some(0) && NumericOp(I32ShrS, 3, 1) == Some(1)
  {
    hide Bitwise, TruncDiv, TruncRem, Pow2, ShiftRight;
    SmallShifts();
  }

  lemma SmallShifts()
    ensures Pow2(1) == 2 && Pow2(3) == 8 && ShiftRight(3, 1) == 1 && ShiftRight(1, 3) == 0
  {
    assert ShiftRight(1, 3) == ShiftRight(0, 2) == ShiftRight(0, 1);
  }

  lemma DivisionsDiffer()
    ensures NumericOp(I32DivS, 1, 3) == Some(0) && NumericOp(I32DivS, 3, 1) == Some(3)
    ensures NumericOp(I32RemS, 1, 3) == Some(1) && NumericOp(I32RemS, 3, 1) == Some(0)
  {
    hide Bitwise, Pow2, ShiftRight;
  }

  lemma SignsDiffer()
    ensures NumericOp(I32Sub, 1, 3) != NumericOp(I32Sub, 3, 1) && NumericOp(I32LtS, 1, 3) != NumericOp(I32LtS, 3, 1)
    ensures NumericOp(I32GtS, 1, 3) != NumericOp(I32GtS, 3, 1) && NumericOp(I32LeS, 1, 3) != NumericOp(I32LeS, 3, 1)
    ensures NumericOp(I32GeS, 1, 3) != NumericOp(I32GeS, 3, 1)
  {
    hide Bitwise, Pow2, ShiftRight, TruncDiv, TruncRem;
  }

  /** The stack after an operator, `None` if it trapped. */
  function Onto(base: seq<i32>, v: Option<i32>): Option<seq<i32>> {
    if v.None? then None else Some(base + [v.value])
  }

  lemma OntoInjective(base: seq<i32>, u: Option<i32>, v: Option<i32>)
    requires Onto(base, u) == Onto(base, v)
    ensures u == v
  {
    if u.Some? && v.Some? {
      assert (base + [u.value])[|base|] == (base + [v.value])[|base|];
    }
  }

  /** The code of an operator leaves what its opcode makes of the operands in the order the MIR has them. */
  predicate OrderKept(vm: Locals, i: Instr, locals: seq<i32>, base: seq<i32>, top: i32)
    requires i.op.Binary? && i.op.left in vm && vm[i.op.left] < |locals|
  {
    Exec(LowerInstr(vm, i), locals, base + [top])
    == Onto(base, NumericOp(OpFor(i.op.bop), locals[vm[i.op.left]], top))
  }

  lemma ParamLeftRuns(vm: Locals, i: Instr, locals: seq<i32>, base: seq<i32>, top: i32)
    requires i.op.Binary? && i.op.left in vm && i.op.right !in vm && vm[i.op.left] < |locals|
    ensures Exec(LowerInstr(vm, i), locals, base + [top])
         == Onto(base, NumericOp(OpFor(i.op.bop), top, locals[vm[i.op.left]]))
  {
    var fetch, op := [LocalGet(vm[i.op.left])], [Numeric(OpFor(i.op.bop))];
    hide NumericOp, OpFor;
    assert LowerInstr(vm, i) == fetch + op;
    ExecOne(fetch[0], locals, base + [top]);
    ExecAfter(fetch, op, locals, base + [top]);
    var stack := base + [top] + [locals[vm[i.op.left]]];
    ExecOne(op[0], locals, stack);
    assert stack[..|stack| - 2] == base;
  }

  /**
   A parameter left of the value on top of the stack is fetched after it. The code is right for all
   operands exactly when the operator commutes.
   */
  lemma ParamLeftExactly(vm: Locals, i: Instr)
    requires i.op.Binary? && i.op.left in vm && i.op.right !in vm
    ensures (forall locals: seq<i32>, base: seq<i32>, top: i32 | vm[i.op.left] < |locals| ::
               OrderKept(vm, i, locals, base, top))
            <==> Commutes(i.op.bop)
  {
    if Commutes(i.op.bop) {
      forall locals: seq<i32>, base: seq<i32>, top: i32 | vm[i.op.left] < |locals|
        ensures OrderKept(vm, i, locals, base, top)
      {
        ParamLeftRuns(vm, i, locals, base, top);
        CommutedOperands(i.op.bop, locals[vm[i.op.left]], top);
        hide NumericOp, OpFor, Exec, LowerInstr;
      }
    } else {
      var locals: seq<i32> := seq(vm[i.op.left] + 1, _ => 1);
      ParamLeftRuns(vm, i, locals, [], 3);
      OneAndThree(i.op.bop);
      hide NumericOp, OpFor, Exec, LowerInstr, Onto;
      if OrderKept(vm, i, locals, [], 3) {
        OntoInjective([], NumericOp(OpFor(i.op.bop), 1, 3), NumericOp(OpFor(i.op.bop), 3, 1));
        assert false;
      }
    }
  }

  /** What one instruction asks of the values it meets: only operators with a wrong opcode ask anything. */
  predicate Kept(env: Env, op: Op) {
    op.Binary? && op.left in env && op.right in env ==> OperatorKept(op.bop, env[op.left], env[op.right])
  }

  lemma OperatorRuns(op: BinOp, l: Value, r: Value, locals: seq<i32>, below: seq<i32>, stack: seq<i32>)
    requires Small(l) && Small(r) && EvalBinOp(W32, op, l, r).Some? && OperatorKept(op, l, r)
    requires stack == below + [Rep(l), Rep(r)] || (Commutes(op) && stack == below + [Rep(r), Rep(l)])
    ensures Small(EvalBinOp(W32, op, l, r).value)
    ensures Exec([Numeric(OpFor(op))], locals, stack) == Some(below + [Rep(EvalBinOp(W32, op, l, r).value)])
  {
    OperatorExact(op, l, r);
    ExecOne(Numeric(OpFor(op)), locals, stack);
    if Commutes(op) {
      CommutedOperands(op, Rep(l), Rep(r));
    }
    assert stack[..|stack| - 2] == below;
  }

  lemma BinarySimulates(vm: Locals, st: seq<ValueId>, env: Env, locals: seq<i32>, stack: seq<i32>, i: Instr)
      returns (stack': seq<i32>)
    requires i.op.Binary? && Agree(vm, st, env, locals, stack) && TrackInstr(vm, st, i).Some?
    requires EvalOp(W32, env, i.op).Some? && Kept(env, i.op)
    ensures Exec(LowerInstr(vm, i), locals, stack) == Some(stack')
    ensures Agree(vm, TrackInstr(vm, st, i).value, env[i.result := EvalOp(W32, env, i.op).value], locals, stack')
  {
    var Binary(op, l, r) := i.op;
    var below := OperandsFetched(vm, st, env, locals, stack, i);
    var v := EvalOp(W32, env, i.op).value;
    var fetch := Fetch(vm, l) + Fetch(vm, r);
    var mid := Exec(fetch, locals, stack).value;
    ExecAfter(fetch, [Numeric(OpFor(op))], locals, stack);
    OperatorRuns(op, env[l], env[r], locals, stack[..below], mid);
    stack' := stack[..below] + [Rep(v)];
    AgreeAfterPush(vm, st, env, locals, stack, below, i.result, v);
  }

  lemma CopySimulates(vm: Locals, st: seq<ValueId>, env: Env, locals: seq<i32>, stack: seq<i32>, i: Instr)
      returns (stack': seq<i32>)
    requires i.op.Copy? && Agree(vm, st, env, locals, stack) && TrackInstr(vm, st, i).Some?
    requires EvalOp(W32, env, i.op).Some?
    ensures Exec(LowerInstr(vm, i), locals, stack) == Some(stack')
    ensures Agree(vm, TrackInstr(vm, st, i).value, env[i.result := EvalOp(W32, env, i.op).value], locals, stack')
  {
    var src := i.op.src;
    if src in vm {
      FetchParam(vm, st, env, locals, stack, stack, src);
      stack' := stack + [Rep(env[src])];
    } else {
      stack' := stack;
    }
  }

  /** One instruction: the emitted code keeps parameters, stack and values in agreement. */
  lemma InstrSimulates(vm: Locals, st: seq<ValueId>, env: Env, locals: seq<i32>, stack: seq<i32>, i: Instr)
      returns (stack': seq<i32>)
    requires Agree(vm, st, env, locals, stack) && TrackInstr(vm, st, i).Some?
    requires EvalOp(W32, env, i.op).Some? && Kept(env, i.op)
    ensures Exec(LowerInstr(vm, i), locals, stack) == Some(stack')
    ensures Agree(vm, TrackInstr(vm, st, i).value, env[i.result := EvalOp(W32, env, i.op).value], locals, stack')
  {
    if i.op.Binary? {
      stack' := BinarySimulates(vm, st, env, locals, stack, i);
    } else if i.op.Copy? {
      stack' := CopySimulates(vm, st, env, locals, stack, i);
    } else {
      if i.op.ConstInt? {
        WrapTwice(i.op.val);
        ExecOne(I32Const(Wrap32(i.op.val)), locals, stack);
        stack' := stack + [Wrap32(i.op.val)];
      } else {
        stack' := stack;
      }
    }
  }

  /** `Kept`, at every instruction of a run. */
  predicate RunKept(w: Width, env: Env, instrs: seq<Instr>)
    decreases instrs
  {
    instrs != [] ==>
      && Kept(env, instrs[0].op)
      && var v := EvalOp(w, env, instrs[0].op);
         v.Some? ==> RunKept(w, env[instrs[0].result := v.value], instrs[1..])
  }

  lemma {:induction false} InstrsSimulate(vm: Locals, st: seq<ValueId>, env: Env, locals: seq<i32>, stack: seq<i32>,
                                          instrs: seq<Instr>)
      returns (stack': seq<i32>)
    requires Agree(vm, st, env, locals, stack) && Track(vm, st, instrs).Some?
    requires EvalInstrs(W32, env, instrs).Some? && RunKept(W32, env, instrs)
    ensures Exec(LowerInstrs(vm, instrs), locals, stack) == Some(stack')
    ensures Agree(vm, Track(vm, st, instrs).value, EvalInstrs(W32, env, instrs).value, locals, stack')
    decreases instrs
  {
    if instrs == [] {
      stack' := stack;
    } else {
      var i := instrs[0];
      var mid := InstrSimulates(vm, st, env, locals, stack, i);
      var env' := env[i.result := EvalOp(W32, env, i.op).value];
      stack' := InstrsSimulate(vm, TrackInstr(vm, st, i).value, env', locals, mid, instrs[1..]);
      ExecAfter(LowerInstr(vm, i), LowerInstrs(vm, instrs[1..]), locals, stack);
    }
  }

  lemma {:induction false} ParamsAgree(params: seq<Param>, args: seq<Value>)
    requires |params| == |args| < TWO_32
    requires forall a | a in args :: Small(a)
    ensures Agree(ParamMap(params), [], Bind(params, args), seq(|args|, k requires 0 <= k < |args| => Rep(args[k])), [])
  {
    var n := |params| - 1;
    if params != [] {
      ParamsAgree(params[..n], args[..n]);
    }
  }

  function LocalsOf(args: seq<Value>): seq<i32> {
    seq(|args|, k requires 0 <= k < |args| => Rep(args[k]))
  }

  lemma ReturnRuns(vm: Locals, st: seq<ValueId>, env: Env, locals: seq<i32>, stack: seq<i32>, ret: ValueId,
                   rest: seq<WasmInstr>)
    requires Agree(vm, st, env, locals, stack)
    requires ret in vm || (st != [] && st[|st| - 1] == ret)
    ensures ret in env && Run(Fetch(vm, ret) + [WasmInstr.Return] + rest, locals, stack) == Some(Rep(env[ret]))
  {
    var code := [WasmInstr.Return] + rest;
    assert Fetch(vm, ret) + [WasmInstr.Return] + rest == Fetch(vm, ret) + code;
    if ret in vm {
      FetchParam(vm, st, env, locals, stack, stack, ret);
      RunAfter(Fetch(vm, ret), code, locals, stack);
    } else {
      assert Fetch(vm, ret) + code == code;
    }
  }

  /**
   A disciplined function, in 32-bit arithmetic: whatever the interpreter returns, the lowered code
   returns, for every argument list.
   */
  lemma LoweringCorrect(f: Function, args: seq<Value>)
    requires |f.params| == |args| < TWO_32
    requires forall a | a in args :: Small(a)
    requires Disciplined(f) && EvalEntryBlock(W32, f, args).Some?
    requires RunKept(W32, Bind(f.params, args), f.blocks[0].instrs)
    ensures Run(LowerFunction(f), LocalsOf(args), []) == Some(Rep(EvalEntryBlock(W32, f, args).value))
  {
    hide EvalOp, EvalInstrs, Track, TrackInstr, Rep, Step, Exec, Run, RunKept, LowerInstrs, Fetch, Bind, ParamMap;
    var vm := ParamMap(f.params);
    var block := f.blocks[0];
    var env := Bind(f.params, args);
    var locals := LocalsOf(args);
    ParamsAgree(f.params, args);
    var stack := InstrsSimulate(vm, [], env, locals, [], block.instrs);
    var rest := LowerTerm(vm, block.term) + LowerBlocks(vm, f.blocks[1..]);
    assert LowerFunction(f) == LowerInstrs(vm, block.instrs) + rest;
    RunAfter(LowerInstrs(vm, block.instrs), rest, locals, []);
    ReturnRuns(vm, Track(vm, [], block.instrs).value, EvalInstrs(W32, env, block.instrs).value, locals, stack,
               block.term.returned, LowerBlocks(vm, f.blocks[1..]));
  }
}
