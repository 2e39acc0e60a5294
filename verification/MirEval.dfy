/**
 The values and operators of the MIR interpreter. Integer width is a parameter: at `W64` this is
 the compile-time interpreter of the repository, at `W32` the same operators on `i32`.
 */
module MirEval {
  import opened Mir
  import opened Options
  import opened Words

  /** Floats are exact: rounding, infinities and NaN are not modelled. */
  datatype Value = IntV(num: int) | BoolV(flag: bool) | FloatV(float: real) | StrV(text: string) | UnitV

  datatype Width = W32 | W64

  function Wrap(w: Width, x: int): int {
    if w.W32? then Wrap32(x) else Wrap64(x)
  }

  function Bits(w: Width): (n: nat)
    ensures 0 < n
  {
    if w.W32? then 32 else 64
  }

  function MinInt(w: Width): int {
    if w.W32? then -TWO_31 else -TWO_63
  }

  predicate InRange(w: Width, v: Value) {
    v.IntV? ==> MinInt(w) <= v.num < -MinInt(w)
  }

  function EvalIntOp(w: Width, op: BinOp, l: int, r: int): Option<Value> {
    match op
    case Add => Some(IntV(Wrap(w, l + r)))
    case Sub => Some(IntV(Wrap(w, l - r)))
    case Mul => Some(IntV(Wrap(w, l * r)))
    case Div => if r == 0 then None else Some(IntV(Wrap(w, TruncDiv(l, r))))
    case Mod => if r == 0 then None else Some(IntV(Wrap(w, TruncRem(l, r))))
    case Eq => Some(BoolV(l == r))
    case NotEq => Some(BoolV(l != r))
    case Lt => Some(BoolV(l < r))
    case LtEq => Some(BoolV(l <= r))
    case Gt => Some(BoolV(l > r))
    case GtEq => Some(BoolV(l >= r))
    case BitAnd => Some(IntV(Wrap(w, Bitwise(AndBits, l, r, Bits(w)))))
    case BitOr => Some(IntV(Wrap(w, Bitwise(OrBits, l, r, Bits(w)))))
    case BitXor => Some(IntV(Wrap(w, Bitwise(XorBits, l, r, Bits(w)))))
    case Shl => Some(IntV(Wrap(w, l * Pow2(r % Bits(w)))))
    case Shr => Some(IntV(ShiftRight(l, r % Bits(w))))
    case And => None
    case Or => None
  }

  function EvalBoolOp(op: BinOp, l: bool, r: bool): Option<Value> {
    match op
    case Eq => Some(BoolV(l == r))
    case NotEq => Some(BoolV(l != r))
    case And => Some(BoolV(l && r))
    case Or => Some(BoolV(l || r))
    case _ => None
  }

  function EvalFloatOp(op: BinOp, l: real, r: real): Option<Value> {
    match op
    case Add => Some(FloatV(l + r))
    case Sub => Some(FloatV(l - r))
    case Mul => Some(FloatV(l * r))
    case Div => if r == 0.0 then None else Some(FloatV(l / r))
    case Eq => Some(BoolV(l == r))
    case NotEq => Some(BoolV(l != r))
    case Lt => Some(BoolV(l < r))
    case LtEq => Some(BoolV(l <= r))
    case Gt => Some(BoolV(l > r))
    case GtEq => Some(BoolV(l >= r))
    case _ => None
  }

  function EvalStrOp(op: BinOp, l: string, r: string): Option<Value> {
    match op
    case Add => Some(StrV(l + r))
    case Eq => Some(BoolV(l == r))
    case NotEq => Some(BoolV(l != r))
    case _ => None
  }

  /** `None` is an interpreter error: division by zero, or operands the operator does not take. */
  function EvalBinOp(w: Width, op: BinOp, l: Value, r: Value): Option<Value> {
    match (l, r)
    case (IntV(a), IntV(b)) => EvalIntOp(w, op, a, b)
    case (FloatV(a), FloatV(b)) => EvalFloatOp(op, a, b)
    case (BoolV(a), BoolV(b)) => EvalBoolOp(op, a, b)
    case (StrV(a), StrV(b)) => EvalStrOp(op, a, b)
    case _ => None
  }

  function EvalUnOp(w: Width, op: UnOp, v: Value): Option<Value> {
    match (op, v)
    case (Neg, IntV(i)) => Some(IntV(Wrap(w, -i)))
    case (Neg, FloatV(f)) => Some(FloatV(-f))
    case (Not, BoolV(b)) => Some(BoolV(!b))
    case (BitNot, IntV(i)) => Some(IntV(-i - 1))
    case _ => None
  }

  // ----- straight-line code

  type Env = map<ValueId, Value>

  function Lookup(env: Env, v: ValueId): Option<Value> {
    if v in env then Some(env[v]) else None
  }

  /** The operations the interpreter evaluates inside one function, apart from calls and aggregates. */
  function EvalOp(w: Width, env: Env, op: Op): Option<Value> {
    match op
    case ConstInt(i) => Some(IntV(Wrap(w, i)))
    case ConstFloat(f) => Some(FloatV(f))
    case ConstBool(b) => Some(BoolV(b))
    case ConstString(s) => Some(StrV(s))
    case Unit => Some(UnitV)
    case Copy(src) => Lookup(env, src)
    case Binary(bop, left, right) =>
      var l :- Lookup(env, left);
      var r :- Lookup(env, right);
      EvalBinOp(w, bop, l, r)
    case Unary(uop, operand) =>
      var v :- Lookup(env, operand);
      EvalUnOp(w, uop, v)
    case _ => None
  }

  function EvalInstrs(w: Width, env: Env, instrs: seq<Instr>): Option<Env>
    decreases instrs
  {
    if instrs == [] then Some(env) else
    var v :- EvalOp(w, env, instrs[0].op);
    EvalInstrs(w, env[instrs[0].result := v], instrs[1..])
  }

  /** Parameters bound in order, so the last of two equal ids wins. */
  function Bind(params: seq<Param>, args: seq<Value>): (env: Env)
    requires |params| == |args|
    ensures forall p | p in params :: p.value in env
  {
    if params == [] then map[] else
    var n := |params| - 1;
    assert forall p | p in params :: p in params[..n] || p == params[n];
    Bind(params[..n], args[..n])[params[n].value := args[n]]
  }

  /** A call whose entry block returns: the interpreter's loop, left after one iteration. */
  function EvalEntryBlock(w: Width, f: Function, args: seq<Value>): Option<Value>
    requires |f.params| == |args|
  {
    var block :- FindBlock(f.blocks, f.entry);
    var env :- EvalInstrs(w, Bind(f.params, args), block.instrs);
    if block.term.Return? then Lookup(env, block.term.returned) else None
  }
}
