/** The lowered code of a disciplined function is valid. */
module WasmTyping {
  import opened Mir
  import opened Options
  import opened WasmEmission
  import opened WasmLowering
  import opened WasmMachine
  import opened WasmModule
  import opened WasmValidation
  import opened Words

  function I32s(n: nat): seq<ValType> {
    seq(n, _ => ValType.I32)
  }

  lemma OneMore(n: nat)
    ensures I32s(n) + [ValType.I32] == I32s(n + 1)
    ensures n > 0 ==> I32s(n)[..n - 1] == I32s(n - 1) && I32s(n)[n - 1] == ValType.I32
    ensures |I32s(n)| == n && forall k | 0 <= k < n :: I32s(n)[k] == ValType.I32
  {
  }

  /** Parameters have the first local indices. */
  lemma {:induction false} ParamIndices(params: seq<Param>)
    requires |params| < TWO_32
    ensures forall v | v in ParamMap(params) :: ParamMap(params)[v] < |params|
  {
    if params != [] {
      ParamIndices(params[..|params| - 1]);
    }
  }

  lemma {:induction false} ValidateAppend(a: seq<WasmInstr>, b: seq<WasmInstr>, locals: seq<ValType>,
                                          results: seq<ValType>, s: Shape)
    requires ValidateCode(a, locals, results, s).Some?
    ensures ValidateCode(a + b, locals, results, s)
         == ValidateCode(b, locals, results, ValidateCode(a, locals, results, s).value)
    decreases a
  {
    hide ValidateInstr;
    if a == [] {
      assert a + b == b;
    } else {
      assert (a + b)[1..] == a[1..] + b;
      ValidateAppend(a[1..], b, locals, results, ValidateInstr(a[0], locals, results, s).value);
    }
  }

  lemma ValidateOne(i: WasmInstr, locals: seq<ValType>, results: seq<ValType>, s: Shape)
    ensures ValidateCode([i], locals, results, s) == ValidateInstr(i, locals, results, s)
    ensures ValidateCode([], locals, results, s) == Some(s)
  {
    assert [i][1..] == [];
    hide ValidateInstr;
  }

  lemma FetchValid(vm: Locals, params: nat, v: ValueId, n: nat)
    requires forall w | w in vm :: vm[w] < params
    ensures ValidateCode(Fetch(vm, v), I32s(params), [ValType.I32], Shape(I32s(n), false))
         == Some(Shape(I32s(if v in vm then n + 1 else n), false))
  {
    OneMore(n);
    OneMore(params);
    if v in vm {
      ValidateOne(LocalGet(vm[v]), I32s(params), [ValType.I32], Shape(I32s(n), false));
    }
    hide I32s;
  }

  lemma NumericValid(op: NumOp, params: nat, n: nat)
    requires 2 <= n
    ensures ValidateCode([Numeric(op)], I32s(params), [ValType.I32], Shape(I32s(n), false))
         == Some(Shape(I32s(n - 1), false))
  {
    OneMore(n);
    OneMore(n - 1);
    OneMore(n - 2);
    ValidateOne(Numeric(op), I32s(params), [ValType.I32], Shape(I32s(n), false));
    hide I32s;
  }

  lemma BinaryValid(vm: Locals, params: nat, op: BinOp, l: ValueId, r: ValueId, n: nat)
    requires forall w | w in vm :: vm[w] < params
    requires n + (if l in vm then 1 else 0) + (if r in vm then 1 else 0) >= 2
    ensures ValidateCode(Fetch(vm, l) + Fetch(vm, r) + [Numeric(OpFor(op))], I32s(params), [ValType.I32],
                         Shape(I32s(n), false))
         == Some(Shape(I32s(n + (if l in vm then 1 else 0) + (if r in vm then 1 else 0) - 1), false))
  {
    hide *;
    var locals, results, s := I32s(params), [ValType.I32], Shape(I32s(n), false);
    FetchValid(vm, params, l, n);
    var n1 := if l in vm then n + 1 else n;
    FetchValid(vm, params, r, n1);
    var n2 := if r in vm then n1 + 1 else n1;
    NumericValid(OpFor(op), params, n2);
    ValidateAppend(Fetch(vm, l), Fetch(vm, r), locals, results, s);
    ValidateAppend(Fetch(vm, l) + Fetch(vm, r), [Numeric(OpFor(op))], locals, results, s);
  }

  /** The operand stack holds one i32 for each tracked value. */
  lemma InstrValid(vm: Locals, params: nat, st: seq<ValueId>, i: Instr)
    requires (forall w | w in vm :: vm[w] < params) && TrackInstr(vm, st, i).Some?
    ensures ValidateCode(LowerInstr(vm, i), I32s(params), [ValType.I32], Shape(I32s(|st|), false))
         == Some(Shape(I32s(|TrackInstr(vm, st, i).value|), false))
  {
    match i.op {
      case ConstInt(val) =>
        OneMore(|st|);
        ValidateOne(I32Const(Wrap32(val)), I32s(params), [ValType.I32], Shape(I32s(|st|), false));
      case Binary(op, l, r) =>
        hide ValidateCode, Fetch;
        BinaryValid(vm, params, op, l, r, |st|);
      case Copy(src) => FetchValid(vm, params, src, |st|);
      case _ =>
    }
  }

  lemma {:induction false} InstrsValid(vm: Locals, params: nat, st: seq<ValueId>, instrs: seq<Instr>)
    requires (forall w | w in vm :: vm[w] < params) && Track(vm, st, instrs).Some?
    ensures ValidateCode(LowerInstrs(vm, instrs), I32s(params), [ValType.I32], Shape(I32s(|st|), false))
         == Some(Shape(I32s(|Track(vm, st, instrs).value|), false))
    decreases instrs
  {
    hide ValidateInstr, LowerInstr, TrackInstr, I32s;
    if instrs != [] {
      var st' := TrackInstr(vm, st, instrs[0]).value;
      InstrValid(vm, params, st, instrs[0]);
      InstrsValid(vm, params, st', instrs[1..]);
      ValidateAppend(LowerInstr(vm, instrs[0]), LowerInstrs(vm, instrs[1..]), I32s(params), [ValType.I32],
                     Shape(I32s(|st|), false));
    }
  }

  lemma ReturnValid(vm: Locals, params: nat, v: ValueId, n: nat)
    requires (forall w | w in vm :: vm[w] < params) && (v in vm || n > 0)
    ensures ValidateCode(Fetch(vm, v) + [WasmInstr.Return], I32s(params), [ValType.I32], Shape(I32s(n), false))
         == Some(Shape([], true))
  {
    FetchValid(vm, params, v, n);
    var m := if v in vm then n + 1 else n;
    ValidateAppend(Fetch(vm, v), [WasmInstr.Return], I32s(params), [ValType.I32], Shape(I32s(n), false));
    ValidateOne(WasmInstr.Return, I32s(params), [ValType.I32], Shape(I32s(m), false));
    OneMore(m);
    OneResult(Shape(I32s(m), false));
    hide ValidateCode, Fetch, I32s;
  }

  lemma OneResult(s: Shape)
    ensures PopAll([ValType.I32], s) == s.Pop(ValType.I32)
  {
    assert [ValType.I32][..0] == [];
  }

  /** The body of a disciplined function is valid for every type of so many i32 parameters and an i32 result. */
  lemma LoweredValid(f: Function, t: FuncType)
    requires Disciplined(f) && |f.params| < TWO_32 && TakesAndYields(t, |f.params|)
    ensures ValidBody(t, LowerFunction(f))
  {
    var vm, b, n := ParamMap(f.params), f.blocks[0], |f.params|;
    ParamIndices(f.params);
    assert t.params == I32s(n);
    assert f.blocks[1..] == [] && LowerBlocks(vm, []) == [];
    assert LowerFunction(f) == LowerInstrs(vm, b.instrs) + (Fetch(vm, b.term.returned) + [WasmInstr.Return]);
    var st := Track(vm, [], b.instrs).value;
    hide LowerFunction, ParamMap, LowerInstrs, Track, Fetch, ValidateCode;
    InstrsValid(vm, n, [], b.instrs);
    assert I32s(0) == [];
    ReturnValid(vm, n, b.term.returned, |st|);
    ValidateAppend(LowerInstrs(vm, b.instrs), Fetch(vm, b.term.returned) + [WasmInstr.Return], I32s(n),
                   [ValType.I32], Shape([], false));
    OneResult(Shape([], true));
  }
}
