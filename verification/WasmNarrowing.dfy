/**
 The interpreter computes on 64-bit integers, the lowered code on 32-bit ones. When every operator
 of a run depends only on the low halves of its operands, the two agree modulo 2^32.
 */
module WasmNarrowing {
  import opened Mir
  import opened MirEval
  import opened Options
  import opened WasmLowering
  import opened WasmMachine
  import opened Words

  function Trunc(v: Value): Value {
    if v.IntV? then IntV(Wrap32(v.num)) else v
  }

  function TruncEnv(env: Env): Env {
    map v | v in env :: Trunc(env[v])
  }

  /**
   Operands on which an operator commutes with truncation: any for ring and bitwise operators,
   values that fit in 32 bits for comparisons, division and right shifts, small counts for shifts.
   */
  predicate Narrow(op: BinOp, l: Value, r: Value) {
    l.IntV? && r.IntV? ==>
      match op
      case Add => true
      case Sub => true
      case Mul => true
      case BitAnd => true
      case BitOr => true
      case BitXor => true
      case Shl => r.num % 64 < 32
      case Shr => InRange(W32, l) && r.num % 64 < 32
      case _ => InRange(W32, l) && InRange(W32, r)
  }

  // ----- congruences modulo 2^32

  lemma WrapCongruent(x: int, y: int, k: int)
    requires y == x + k * TWO_32
    ensures Wrap32(x) == Wrap32(y)
  {
  }

  /** `x` and its 32-bit form differ by a multiple of 2^32. */
  lemma WrapDistance(x: int) returns (k: int)
    ensures x == Wrap32(x) + k * TWO_32
  {
    k := x / TWO_32;
    if Wrap32(x) < 0 {
      k := k + 1;
    }
  }

  lemma Wrap64Then32(x: int)
    ensures Wrap32(Wrap64(x)) == Wrap32(x)
  {
    var q := x / TWO_64;
    var r := if x % TWO_64 < TWO_63 then q else q + 1;
    assert x == Wrap64(x) + r * TWO_64;
    WrapCongruent(Wrap64(x), x, r * TWO_32);
  }

  lemma WrapProduct(l: int, r: int)
    ensures Wrap32(Wrap32(l) * r) == Wrap32(l * r)
  {
    var k := WrapDistance(l);
    assert l * r == Wrap32(l) * r + (k * r) * TWO_32;
    WrapCongruent(Wrap32(l) * r, l * r, k * r);
  }

  lemma WrapProduct2(l: int, r: int)
    ensures Wrap32(Wrap32(l) * Wrap32(r)) == Wrap32(l * r)
  {
    WrapProduct(l, Wrap32(r));
    assert l * Wrap32(r) == Wrap32(r) * l;
    WrapProduct(r, l);
    assert r * l == l * r;
  }

  lemma Halves(x: int, y: int)
    ensures (x + 2 * y) / 2 == x / 2 + y && (x + 2 * y) % 2 == x % 2
  {
  }

  lemma DoubledPower(a: int, n: nat)
    requires 0 < n
    ensures a * Pow2(n) == 2 * (a * Pow2(n - 1))
  {
    var p: int := Pow2(n - 1);
    assert a * (2 * p) == 2 * (a * p);
  }

  ghost predicate SameLowBits(x: int, y: int, n: nat) {
    exists k :: y == x + k * Pow2(n)
  }

  lemma HalvesAgree(x: int, y: int, n: nat)
    requires 0 < n && SameLowBits(x, y, n)
    ensures x % 2 == y % 2 && SameLowBits(x / 2, y / 2, n - 1)
  {
    var k :| y == x + k * Pow2(n);
    DoubledPower(k, n);
    Halves(x, k * Pow2(n - 1));
  }

  /** The low bits of a bitwise result depend only on the low bits of the operands. */
  lemma {:induction false} BitwiseLow(op: BitOp, l: int, r: int, l': int, r': int, n: nat)
    requires SameLowBits(l, l', n) && SameLowBits(r, r', n)
    ensures Bitwise(op, l, r, n) == Bitwise(op, l', r', n)
    decreases n
  {
    if n > 0 {
      HalvesAgree(l, l', n);
      HalvesAgree(r, r', n);
      BitwiseLow(op, l / 2, r / 2, l' / 2, r' / 2, n - 1);
    }
  }

  /** A narrower bitwise result is what remains of a wider one. */
  lemma {:induction false} BitwisePrefix(op: BitOp, l: int, r: int, m: nat, n: nat) returns (k: nat)
    requires m <= n
    ensures Bitwise(op, l, r, n) == Bitwise(op, l, r, m) + k * Pow2(m)
    decreases n
  {
    if m == 0 {
      k := Bitwise(op, l, r, n);
    } else {
      k := BitwisePrefix(op, l / 2, r / 2, m - 1, n - 1);
      DoubledPower(k, m);
    }
  }

  lemma WrapSameLowBits(x: int)
    ensures SameLowBits(Wrap32(x), x, 32)
  {
    var k := WrapDistance(x);
    Pow2Of32();
    assert x == Wrap32(x) + k * Pow2(32);
  }

  lemma BitwiseOfWrapped(op: BitOp, l: int, r: int)
    ensures Bitwise(op, Wrap32(l), Wrap32(r), 32) == Bitwise(op, l, r, 32)
  {
    WrapSameLowBits(l);
    WrapSameLowBits(r);
    BitwiseLow(op, Wrap32(l), Wrap32(r), l, r, 32);
  }

  lemma WrapBitwise(op: BitOp, l: int, r: int)
    ensures Wrap32(Bitwise(op, Wrap32(l), Wrap32(r), 32)) == Wrap32(Wrap64(Bitwise(op, l, r, 64)))
  {
    BitwiseOfWrapped(op, l, r);
    var k := BitwisePrefix(op, l, r, 32, 64);
    Pow2Of32();
    WrapCongruent(Bitwise(op, l, r, 32), Bitwise(op, l, r, 64), k);
    Wrap64Then32(Bitwise(op, l, r, 64));
  }

  lemma WrapSum(l: int, r: int)
    ensures Wrap32(Wrap32(l) + Wrap32(r)) == Wrap32(Wrap64(l + r))
  {
    var a := WrapDistance(l);
    var b := WrapDistance(r);
    WrapCongruent(Wrap32(l) + Wrap32(r), l + r, a + b);
    Wrap64Then32(l + r);
  }

  lemma WrapDifference(l: int, r: int)
    ensures Wrap32(Wrap32(l) - Wrap32(r)) == Wrap32(Wrap64(l - r))
  {
    var a := WrapDistance(l);
    var b := WrapDistance(r);
    WrapCongruent(Wrap32(l) - Wrap32(r), l - r, a - b);
    Wrap64Then32(l - r);
  }

  lemma ShiftCount(r: int)
    requires r % 64 < 32
    ensures Wrap32(r) % 32 == r % 64
  {
    var k := WrapDistance(r);
    SameModulo64(Wrap32(r), r, k * 0x400_0000);
  }

  lemma SameModulo64(x: int, y: int, k: int)
    requires y == x + 64 * k
    ensures x % 64 == y % 64
    ensures y % 64 < 32 ==> x % 32 == y % 64
  {
    var q, t := x / 64, x % 64;
    assert y == 64 * (q + k) + t;
    assert y / 64 == q + k;
    if t < 32 {
      assert x == 32 * (2 * q) + t;
      assert x / 32 == 2 * q;
    }
  }

  // ----- one operator

  lemma WrapShift(l: int, k: nat)
    ensures Wrap32(Wrap32(l) * Pow2(k)) == Wrap32(Wrap64(l * Pow2(k)))
  {
    WrapProduct(l, Pow2(k));
    Wrap64Then32(l * Pow2(k));
  }

  lemma NarrowRingOp(op: BinOp, l: int, r: int)
    requires op in {Add, Sub, Mul, BitAnd, BitOr, BitXor}
    ensures EvalIntOp(W32, op, Wrap32(l), Wrap32(r)) == Some(Trunc(EvalIntOp(W64, op, l, r).value))
  {
    hide Wrap32, Wrap64, Bitwise, TruncDiv, TruncRem, ShiftRight, Pow2;
    match op {
      case Add => WrapSum(l, r);
      case Sub => WrapDifference(l, r);
      case Mul => WrapProduct2(l, r); Wrap64Then32(l * r);
      case BitAnd => WrapBitwise(AndBits, l, r);
      case BitOr => WrapBitwise(OrBits, l, r);
      case BitXor => WrapBitwise(XorBits, l, r);
    }
  }

  lemma NarrowShiftLeft(l: int, r: int)
    requires r % 64 < 32
    ensures EvalIntOp(W32, Shl, Wrap32(l), Wrap32(r)) == Some(Trunc(EvalIntOp(W64, Shl, l, r).value))
  {
    ShiftCount(r);
    WrapShift(l, r % 64);
  }

  lemma NarrowOrderOp(op: BinOp, l: i32, r: i32)
    requires op in {Div, Mod, Eq, NotEq, Lt, LtEq, Gt, GtEq}
    requires EvalIntOp(W64, op, l, r).Some?
    ensures EvalIntOp(W32, op, l, r) == Some(Trunc(EvalIntOp(W64, op, l, r).value))
  {
    match op {
      case Div => Wrap64Then32(TruncDiv(l, r));
      case Mod => Wrap64Then32(TruncRem(l, r));
      case _ =>
    }
  }

  lemma NarrowBinOp(op: BinOp, l: Value, r: Value)
    requires EvalBinOp(W64, op, l, r).Some? && Narrow(op, l, r)
    ensures EvalBinOp(W32, op, Trunc(l), Trunc(r)) == Some(Trunc(EvalBinOp(W64, op, l, r).value))
  {
    if l.IntV? {
      if op in {Add, Sub, Mul, BitAnd, BitOr, BitXor} {
        NarrowRingOp(op, l.num, r.num);
      } else if op == Shl {
        NarrowShiftLeft(l.num, r.num);
      } else if op == Shr {
        NarrowShiftRight(l.num, r.num);
      } else {
        WrapInRange(l.num);
        WrapInRange(r.num);
        NarrowOrderOp(op, l.num, r.num);
      }
    }
  }

  lemma NarrowShiftRight(l: i32, r: int)
    requires r % 64 < 32
    ensures EvalIntOp(W32, Shr, Wrap32(l), Wrap32(r)) == Some(Trunc(EvalIntOp(W64, Shr, l, r).value))
  {
    ShiftCount(r);
    WrapInRange(l);
    WrapInRange(ShiftRight(l, r % 64));
  }

  /** The 32-bit result is the low half of the 64-bit one, where that exists. */
  predicate KeepsLowHalf(op: BinOp, l: i64, r: i64) {
    EvalIntOp(W64, op, l, r).Some? ==>
      EvalIntOp(W32, op, Wrap32(l), Wrap32(r)) == Some(Trunc(EvalIntOp(W64, op, l, r).value))
  }

  lemma SmallWraps()
    ensures Wrap32(TWO_32) == 0 && Wrap32(0) == 0 && Wrap32(1) == 1 && Wrap32(2) == 2 && Wrap32(3) == 3
    ensures Wrap32(32) == 32 && Wrap64(TWO_32) == TWO_32 && Wrap64(TWO_31) == TWO_31 && Wrap32(TWO_31) == -TWO_31
  {
  }

  lemma ComparisonsDiffer(op: BinOp)
    requires op in {Eq, NotEq, Lt, LtEq, Gt, GtEq}
    ensures !KeepsLowHalf(op, TWO_32, 0) || !KeepsLowHalf(op, 0, TWO_32)
  {
    SmallWraps();
    hide Wrap32, Wrap64;
  }

  lemma QuotientsDiffer(op: BinOp)
    requires op == Div || op == Mod
    ensures !KeepsLowHalf(op, TWO_32, if op == Div then 2 else 3)
  {
    SmallWraps();
    assert TruncDiv(TWO_32, 2) == TWO_31 && TruncDiv(0, 2) == 0;
    assert TruncRem(TWO_32, 3) == 1 && TruncRem(0, 3) == 0;
    assert Wrap64(1) == 1;
    hide Wrap32, Wrap64, TruncDiv, TruncRem;
  }

  lemma SmallShifts()
    ensures Pow2(0) == 1 && Pow2(32) == TWO_32 && ShiftRight(0, 1) == 0 && ShiftRight(TWO_32, 1) == TWO_31
  {
    Pow2Of32();
    ShiftOnce(0);
    ShiftOnce(TWO_32);
  }

  lemma ShiftOnce(x: int)
    ensures ShiftRight(x, 1) == x / 2
  {
    assert ShiftRight(x / 2, 0) == x / 2;
  }

  lemma ShiftsDiffer(op: BinOp)
    requires op == Shl || op == Shr
    ensures if op == Shl then !KeepsLowHalf(op, 1, 32) else !KeepsLowHalf(op, TWO_32, 1)
  {
    hide Wrap32, Wrap64, Pow2, ShiftRight, Bitwise, TruncDiv, TruncRem;
    SmallWraps();
    SmallShifts();
  }

  /** 2^32 and a small number tell every other operator's halves apart. */
  lemma HighHalfMatters(op: BinOp)
    requires op in {Div, Mod, Eq, NotEq, Lt, LtEq, Gt, GtEq, Shl, Shr}
    ensures exists l: i64, r: i64 :: !KeepsLowHalf(op, l, r)
  {
    hide KeepsLowHalf;
    if op == Div || op == Mod {
      QuotientsDiffer(op);
    } else if op == Shl || op == Shr {
      ShiftsDiffer(op);
    } else {
      ComparisonsDiffer(op);
    }
  }

  /** Of the operators on integers, the ring and bitwise ones alone need nothing of their operands. */
  lemma NarrowExactly(op: BinOp)
    requires op != And && op != Or
    ensures (forall l: i64, r: i64 :: KeepsLowHalf(op, l, r)) <==> op in {Add, Sub, Mul, BitAnd, BitOr, BitXor}
  {
    if op in {Add, Sub, Mul, BitAnd, BitOr, BitXor} {
      forall l: i64, r: i64
        ensures KeepsLowHalf(op, l, r)
      {
        NarrowRingOp(op, l, r);
      }
    } else {
      HighHalfMatters(op);
    }
  }

  lemma NarrowUnOp(op: UnOp, v: Value)
    requires EvalUnOp(W64, op, v).Some?
    ensures EvalUnOp(W32, op, Trunc(v)) == Some(Trunc(EvalUnOp(W64, op, v).value))
  {
    if op.Neg? && v.IntV? {
      WrapDifference(0, v.num);
    }
  }

  // ----- a run

  /** `Narrow` at every operator of a 64-bit run, and an opcode that keeps it. */
  predicate RunNarrow(env: Env, instrs: seq<Instr>)
    decreases instrs
  {
    instrs != [] ==>
      var i := instrs[0];
      && (i.op.Binary? && i.op.left in env && i.op.right in env ==>
            && Narrow(i.op.bop, env[i.op.left], env[i.op.right])
            && OperatorKept(i.op.bop, Trunc(env[i.op.left]), Trunc(env[i.op.right])))
      && var v := EvalOp(W64, env, i.op);
         v.Some? ==> RunNarrow(env[i.result := v.value], instrs[1..])
  }

  lemma NarrowEvalOp(env: Env, op: Op)
    requires EvalOp(W64, env, op).Some?
    requires op.Binary? && op.left in env && op.right in env ==> Narrow(op.bop, env[op.left], env[op.right])
    ensures EvalOp(W32, TruncEnv(env), op) == Some(Trunc(EvalOp(W64, env, op).value))
  {
    match op {
      case Binary(bop, l, r) => NarrowBinOp(bop, env[l], env[r]);
      case Unary(uop, v) => NarrowUnOp(uop, env[v]);
      case ConstInt(i) => Wrap64Then32(i);
      case _ =>
    }
  }

  lemma {:induction false} NarrowInstrs(env: Env, instrs: seq<Instr>)
    requires EvalInstrs(W64, env, instrs).Some? && RunNarrow(env, instrs)
    ensures EvalInstrs(W32, TruncEnv(env), instrs) == Some(TruncEnv(EvalInstrs(W64, env, instrs).value))
    ensures RunKept(W32, TruncEnv(env), instrs)
    decreases instrs
  {
    if instrs != [] {
      var i := instrs[0];
      var v := EvalOp(W64, env, i.op).value;
      NarrowEvalOp(env, i.op);
      assert TruncEnv(env[i.result := v]) == TruncEnv(env)[i.result := Trunc(v)];
      NarrowInstrs(env[i.result := v], instrs[1..]);
    }
  }

  function TruncAll(args: seq<Value>): seq<Value> {
    seq(|args|, k requires 0 <= k < |args| => Trunc(args[k]))
  }

  lemma {:induction false} BindTruncated(params: seq<Param>, args: seq<Value>)
    requires |params| == |args|
    ensures Bind(params, TruncAll(args)) == TruncEnv(Bind(params, args))
  {
    if params != [] {
      var n := |params| - 1;
      BindTruncated(params[..n], args[..n]);
      assert TruncAll(args)[..n] == TruncAll(args[..n]);
      assert Bind(params, args) == Bind(params[..n], args[..n])[params[n].value := args[n]];
    }
  }

  lemma RepOfTrunc(v: Value)
    ensures Rep(Trunc(v)) == Rep(v)
    ensures !v.FloatV? && !v.StrV? ==> Small(Trunc(v))
  {
  }

  /**
   What the lowered code returns is the low half of what the interpreter returns, for every argument
   list on which the run stays narrow.
   */
  lemma LoweringAgreesWithInterpreter(f: Function, args: seq<Value>)
    requires |f.params| == |args| < TWO_32 && forall a | a in args :: !a.FloatV? && !a.StrV?
    requires Disciplined(f) && EvalEntryBlock(W64, f, args).Some?
    requires RunNarrow(Bind(f.params, args), f.blocks[0].instrs)
    ensures Run(LowerFunction(f), LocalsOf(args), []) == Some(Rep(EvalEntryBlock(W64, f, args).value))
  {
    var env := Bind(f.params, args);
    BindTruncated(f.params, args);
    NarrowInstrs(env, f.blocks[0].instrs);
    var v := EvalEntryBlock(W64, f, args).value;
    assert EvalEntryBlock(W32, f, TruncAll(args)) == Some(Trunc(v));
    forall k | 0 <= k < |args|
      ensures LocalsOf(TruncAll(args))[k] == LocalsOf(args)[k] && Small(TruncAll(args)[k])
    {
      RepOfTrunc(args[k]);
      assert args[k] in args;
    }
    LoweringCorrect(f, TruncAll(args));
    assert LocalsOf(TruncAll(args)) == LocalsOf(args);
    RepOfTrunc(v);
  }
}
