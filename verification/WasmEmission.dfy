/**
 Emitting a whole module, and the end-to-end statement: decode the emitted bytes with the
 specification's decoders, run an exported function, and get the interpreter's result.
 */
module WasmEmission {
  import opened Leb128
  import opened Mir
  import opened MirEval
  import opened Options
  import opened Sequences
  import opened WasmBuilder
  import opened WasmLowering
  import opened WasmMachine
  import opened WasmModule
  import opened WasmNarrowing
  import opened WasmValidation
  import opened Wire
  import opened Words

  // ----- one function body

  lemma {:induction false} LowerInstrsStep(vm: Locals, instrs: seq<Instr>, i: nat)
    requires i < |instrs|
    ensures LowerInstrs(vm, instrs[..i + 1]) == LowerInstrs(vm, instrs[..i]) + LowerInstr(vm, instrs[i])
  {
    hide LowerInstr;
    if i == 0 {
      assert instrs[..1][1..] == [];
    } else {
      LowerInstrsStep(vm, instrs[1..], i - 1);
      assert instrs[..i + 1][1..] == instrs[1..][..i];
      assert instrs[..i][1..] == instrs[1..][..i - 1];
    }
  }

  lemma {:induction false} LowerBlocksStep(vm: Locals, blocks: seq<Block>, i: nat)
    requires i < |blocks|
    ensures LowerBlocks(vm, blocks[..i + 1]) == LowerBlocks(vm, blocks[..i]) + LowerBlock(vm, blocks[i])
  {
    hide LowerBlock;
    if i == 0 {
      assert blocks[..1][1..] == [];
    } else {
      LowerBlocksStep(vm, blocks[1..], i - 1);
      assert blocks[..i + 1][1..] == blocks[1..][..i];
      assert blocks[..i][1..] == blocks[1..][..i - 1];
    }
  }

  /** Appends the code of one WebAssembly instruction; `ghost` counterpart of a push. */
  lemma CodeAppended(code: seq<WasmInstr>, i: WasmInstr)
    ensures Concat(InstrBytes, code + [i]) == Concat(InstrBytes, code) + InstrBytes(i)
  {
    ConcatAppend(InstrBytes, code, [i]);
    assert [i][1..] == [];
    assert Concat(InstrBytes, [i]) == InstrBytes(i) + Concat(InstrBytes, []);
  }

  method EmitFetch(vm: Locals, v: ValueId, buf: seq<byte>) returns (out: seq<byte>)
    ensures out == buf + Concat(InstrBytes, Fetch(vm, v))
  {
    out := buf;
    if v in vm {
      CodeAppended([], LocalGet(vm[v]));
      assert [] + [LocalGet(vm[v])] == [LocalGet(vm[v])];
      out := EncodeU32Leb128(vm[v], out + [LOCAL_GET]);
    }
  }

  method EmitBinary(vm: Locals, op: BinOp, left: ValueId, right: ValueId, buf: seq<byte>) returns (out: seq<byte>)
    ensures out == buf + Concat(InstrBytes, Fetch(vm, left) + Fetch(vm, right) + [Numeric(OpFor(op))])
  {
    hide Fetch, Opcode, OpFor, UnsignedLeb, SignedLeb, Concat;
    out := EmitFetch(vm, left, buf);
    out := EmitFetch(vm, right, out);
    ConcatAppend(InstrBytes, Fetch(vm, left), Fetch(vm, right));
    CodeAppended(Fetch(vm, left) + Fetch(vm, right), Numeric(OpFor(op)));
    out := out + [Opcode(OpFor(op))];
  }

  method EmitInstr(vm: Locals, i: Instr, buf: seq<byte>) returns (out: seq<byte>)
    ensures out == buf + Concat(InstrBytes, LowerInstr(vm, i))
  {
    hide UnsignedLeb, SignedLeb, Wrap32, Fetch, Opcode, OpFor;
    out := buf;
    match i.op {
      case ConstInt(val) =>
        CodeAppended([], I32Const(Wrap32(val)));
        assert [] + [I32Const(Wrap32(val))] == [I32Const(Wrap32(val))];
        out := EncodeI32Leb128(Wrap32(val), out + [I32_CONST]);
      case Binary(bop, left, right) =>
        out := EmitBinary(vm, bop, left, right, out);
      case Copy(src) =>
        out := EmitFetch(vm, src, out);
      case _ =>
    }
  }

  method EmitInstrs(vm: Locals, instrs: seq<Instr>, buf: seq<byte>) returns (out: seq<byte>)
    ensures out == buf + Concat(InstrBytes, LowerInstrs(vm, instrs))
  {
    hide LowerInstr, InstrBytes;
    out := buf;
    for i := 0 to |instrs|
      invariant out == buf + Concat(InstrBytes, LowerInstrs(vm, instrs[..i]))
    {
      LowerInstrsStep(vm, instrs, i);
      ConcatAppend(InstrBytes, LowerInstrs(vm, instrs[..i]), LowerInstr(vm, instrs[i]));
      out := EmitInstr(vm, instrs[i], out);
    }
    assert instrs[..|instrs|] == instrs;
  }

  method EmitTerm(vm: Locals, t: Terminator, buf: seq<byte>) returns (out: seq<byte>)
    ensures out == buf + Concat(InstrBytes, LowerTerm(vm, t))
  {
    out := buf;
    if t.Return? {
      out := EmitFetch(vm, t.returned, out);
      CodeAppended(Fetch(vm, t.returned), WasmInstr.Return);
      out := out + [RETURN];
    }
  }

  method EmitBlockBody(vm: Locals, b: Block, buf: seq<byte>) returns (out: seq<byte>)
    ensures out == buf + Concat(InstrBytes, LowerBlock(vm, b))
  {
    hide LowerInstrs, LowerTerm, InstrBytes, Concat;
    out := EmitInstrs(vm, b.instrs, buf);
    out := EmitTerm(vm, b.term, out);
    ConcatAppend(InstrBytes, LowerInstrs(vm, b.instrs), LowerTerm(vm, b.term));
  }

  method MapParams(params: seq<Param>) returns (vm: Locals)
    ensures vm == ParamMap(params)
  {
    vm := map[];
    for i := 0 to |params|
      invariant vm == ParamMap(params[..i])
    {
      assert params[..i + 1][..i] == params[..i];
      vm := vm[params[i].value := ToU32(i)];
    }
    assert params[..|params|] == params;
  }

  method EmitFunctionBody(f: Function) returns (body: seq<byte>)
    ensures body == BodyBytes(LowerFunction(f))
  {
    hide UnsignedLeb, InstrBytes, LowerBlock, ParamMap;
    body := EncodeU32Leb128(0, []);
    var vm := MapParams(f.params);
    ghost var start := body;
    for i := 0 to |f.blocks|
      invariant body == start + Concat(InstrBytes, LowerBlocks(vm, f.blocks[..i]))
    {
      LowerBlocksStep(vm, f.blocks, i);
      ConcatAppend(InstrBytes, LowerBlocks(vm, f.blocks[..i]), LowerBlock(vm, f.blocks[i]));
      body := EmitBlockBody(vm, f.blocks[i], body);
    }
    assert f.blocks[..|f.blocks|] == f.blocks;
    body := body + [END];
  }

  // ----- the module

  function Utf8Char(c: char): seq<byte> {
    var n := c as int;
    if n < 0x80 then [n]
    else if n < 0x800 then [0xC0 + n / 0x40, 0x80 + n % 0x40]
    else if n < 0x1_0000 then [0xE0 + n / 0x1000, 0x80 + n / 0x40 % 0x40, 0x80 + n % 0x40]
    else [0xF0 + n / 0x4_0000, 0x80 + n / 0x1000 % 0x40, 0x80 + n / 0x40 % 0x40, 0x80 + n % 0x40]
  }

  function Utf8(s: string): seq<byte> {
    Concat(Utf8Char, s)
  }

  /** Every parameter and the result are i32. */
  function SignatureOf(f: Function): FuncType {
    FuncType(seq(|f.params|, _ => ValType.I32), [ValType.I32])
  }

  /** What the emitter puts into the builder for each function. */
  ghost predicate HoldsFunction(m: Module, f: Function, i: nat)
    requires i < |m.functions| && i < |m.code| && i < |m.exports|
  {
    && m.code[i] == BodyBytes(LowerFunction(f))
    && m.exports[i] == Export(Utf8(f.name), 0, ToU32(i))
    && exists t :: 0 <= t < |m.types| && m.types[t] == SignatureOf(f) && m.functions[i] == ToU32(t)
  }

  ghost predicate Emitted(m: Module, fs: seq<Function>) {
    && Distinct(m.types)
    && |m.functions| == |m.code| == |m.exports| == |fs|
    && forall i | 0 <= i < |fs| :: HoldsFunction(m, fs[i], i)
  }

  /** Adding a function after the others leaves the earlier ones as they were. */
  lemma EmittedStep(m: Module, m': Module, fs: seq<Function>, f: Function)
    requires Emitted(m, fs) && Distinct(m'.types)
    requires m.types <= m'.types
    requires |m'.functions| == |m'.code| == |m'.exports| == |fs| + 1
    requires m'.functions[..|fs|] == m.functions && m'.code[..|fs|] == m.code && m'.exports[..|fs|] == m.exports
    requires HoldsFunction(m', f, |fs|)
    ensures Emitted(m', fs + [f])
  {
    forall i | 0 <= i < |fs|
      ensures HoldsFunction(m', fs[i], i)
    {
      assert HoldsFunction(m, fs[i], i);
      assert m'.code[i] == m'.code[..|fs|][i];
      assert m'.exports[i] == m'.exports[..|fs|][i];
      assert m'.functions[i] == m'.functions[..|fs|][i];
      var t :| 0 <= t < |m.types| && m.types[t] == SignatureOf(fs[i]) && m.functions[i] == ToU32(t);
      assert m'.types[t] == SignatureOf(fs[i]);
    }
  }

  /** One round of the module loop: the type interned, the function declared, its body and its export. */
  function WithFunction(m: Module, f: Function): Module {
    var t := SignatureOf(f);
    var types := if t in m.types then m.types else m.types + [t];
    Module(types, m.functions + [ToU32(TypeIndex(types, t))], m.memoryPages,
           m.exports + [Export(Utf8(f.name), 0, ToU32(|m.functions|))], m.code + [BodyBytes(LowerFunction(f))])
  }

  /** One page of memory, then the functions in order. */
  function CompiledModule(fs: seq<Function>): Module {
    if fs == [] then Module([], [], Some(1), [], [])
    else WithFunction(CompiledModule(fs[..|fs| - 1]), fs[|fs| - 1])
  }

  lemma WithFunctionEmitted(m: Module, fs: seq<Function>, f: Function)
    requires Emitted(m, fs)
    ensures Emitted(WithFunction(m, f), fs + [f]) && WithFunction(m, f).memoryPages == m.memoryPages
  {
    hide LowerFunction, BodyBytes, Utf8, SignatureOf;
    var m' := WithFunction(m, f);
    assert m'.functions[..|fs|] == m.functions && m'.code[..|fs|] == m.code && m'.exports[..|fs|] == m.exports;
    assert HoldsFunction(m', f, |fs|);
    hide WithFunction, HoldsFunction;
    assert m.types <= m'.types && Distinct(m'.types) by { Interned(m, f); }
    assert |m'.functions| == |m'.code| == |m'.exports| == |fs| + 1 by { Interned(m, f); }
    EmittedStep(m, m', fs, f);
  }

  lemma Interned(m: Module, f: Function)
    requires Distinct(m.types)
    ensures var m' := WithFunction(m, f);
            && m.types <= m'.types && Distinct(m'.types) && |m'.functions| == |m.functions| + 1
            && |m'.code| == |m.code| + 1 && |m'.exports| == |m.exports| + 1
  {
    hide LowerFunction, BodyBytes, Utf8, SignatureOf;
  }

  lemma {:induction false} CompiledIsEmitted(fs: seq<Function>)
    ensures Emitted(CompiledModule(fs), fs) && CompiledModule(fs).memoryPages == Some(1)
    decreases |fs|
  {
    NoFunctions();
    hide WithFunction, Emitted;
    if fs != [] {
      var front, f := fs[..|fs| - 1], fs[|fs| - 1];
      CompiledIsEmitted(front);
      WithFunctionEmitted(CompiledModule(front), front, f);
      assert fs == front + [f];
    }
  }

  lemma NoFunctions()
    ensures Emitted(CompiledModule([]), []) && CompiledModule([]).memoryPages == Some(1)
  {
  }

  lemma CompiledStep(fs: seq<Function>, k: nat)
    requires k < |fs|
    ensures CompiledModule(fs[..k + 1]) == WithFunction(CompiledModule(fs[..k]), fs[k])
  {
    assert fs[..k + 1][..k] == fs[..k];
    hide WithFunction;
  }

  /** The body of the module loop. */
  method EmitInto(builder: WasmModuleBuilder, f: Function)
    requires builder.Valid()
    modifies builder
    ensures builder.Valid() && builder.Contents() == WithFunction(old(builder.Contents()), f)
  {
    hide LowerFunction, BodyBytes, Utf8, SignatureOf, TypeIndex;
    var t := builder.AddType(SignatureOf(f));
    var body := EmitFunctionBody(f);
    var idx := builder.AddFunction(t, body);
    builder.AddExport(Utf8(f.name), 0, idx);
  }

  method EmitWasmBinary(fs: seq<Function>) returns (out: seq<byte>)
    ensures out == ModuleBytes(CompiledModule(fs))
  {
    var builder := new WasmModuleBuilder();
    builder.SetMemory(1);
    assert builder.Contents() == CompiledModule(fs[..0]);
    hide ModuleBytes, CompiledModule, WithFunction;
    for k := 0 to |fs|
      invariant fresh(builder) && builder.Valid()
      invariant builder.Contents() == CompiledModule(fs[..k])
    {
      CompiledStep(fs, k);
      EmitInto(builder, fs[k]);
    }
    assert fs[..|fs|] == fs;
    out := builder.BuildBytes();
  }

  // ----- end to end

  /** As many i32 parameters as the function has, and one i32 result. */
  predicate TakesAndYields(t: FuncType, params: nat) {
    && |t.params| == params && (forall k | 0 <= k < params :: t.params[k] == ValType.I32)
    && t.results == [ValType.I32]
  }

  /** The index space of the decoded binary: function `i`'s export, signature and decoded body, and the memory. */
  lemma EmittedModuleDecodes(fs: seq<Function>, i: nat) returns (d: Decoded)
    requires LengthsFit(CompiledModule(fs)) && i < |fs|
    ensures ReadModule(ModuleBytes(CompiledModule(fs))) == Some(d)
    ensures |d.exports| == |fs| + 1 && |d.functions| == |fs| == |d.code|
    ensures d.exports[i].name == Utf8(fs[i].name) && d.exports[i].kind == 0 && d.exports[i].index == i
    ensures d.functions[i] < |d.types| && TakesAndYields(d.types[d.functions[i]], |fs[i].params|)
    ensures ReadBody(d.code[i]) == Some(LowerFunction(fs[i]))
    ensures d.memories == [1] && d.exports[|fs|] == Export([0x6d, 0x65, 0x6d, 0x6f, 0x72, 0x79], 2, 0)
  {
    hide *;
    var m := CompiledModule(fs);
    CompiledIsEmitted(fs);
    WellFormedWhenEmitted(m, fs);
    ModuleRoundTrip(m);
    d := Decoded(m.types, m.functions, Memories(m), AllExports(m), m.code);
    EmittedParts(m, fs, i);
    BodyRoundTrip(LowerFunction(fs[i]));
  }

  lemma WellFormedWhenEmitted(m: Module, fs: seq<Function>)
    requires Emitted(m, fs)
    ensures WellFormed(m)
  {
    hide HoldsFunction;
    forall e | e in m.exports
      ensures e.kind <= 3
    {
      var j :| 0 <= j < |m.exports| && m.exports[j] == e;
      HeldExport(m, fs[j], j);
    }
  }

  lemma HeldExport(m: Module, f: Function, j: nat)
    requires j < |m.functions| && j < |m.code| && j < |m.exports| && HoldsFunction(m, f, j)
    ensures m.exports[j].kind == 0
  {
    hide BodyBytes, LowerFunction, Utf8, SignatureOf;
  }

  /** What the builder holds of function `i`, in terms of the function. */
  lemma EmittedParts(m: Module, fs: seq<Function>, i: nat)
    requires Emitted(m, fs) && m.memoryPages == Some(1) && LengthsFit(m) && i < |fs|
    ensures |AllExports(m)| == |fs| + 1 && |m.functions| == |fs| == |m.code|
    ensures AllExports(m)[i].name == Utf8(fs[i].name) && AllExports(m)[i].kind == 0 && AllExports(m)[i].index == i
    ensures m.functions[i] < |m.types| && TakesAndYields(m.types[m.functions[i]], |fs[i].params|)
    ensures m.code[i] == BodyBytes(LowerFunction(fs[i]))
    ensures Memories(m) == [1] && AllExports(m)[|fs|] == Export([0x6d, 0x65, 0x6d, 0x6f, 0x72, 0x79], 2, 0)
  {
    hide *;
    Holds(m, fs, i);
    CountsFit(m);
    SignatureTakes(fs[i]);
    HeldParts(m, fs[i], i);
    MemoryPart(m);
  }

  lemma Holds(m: Module, fs: seq<Function>, i: nat)
    requires Emitted(m, fs) && i < |fs|
    ensures |m.functions| == |m.code| == |m.exports| == |fs| && HoldsFunction(m, fs[i], i)
  {
    hide HoldsFunction;
  }

  lemma HeldParts(m: Module, f: Function, i: nat)
    requires i < |m.functions| && i < |m.code| && i < |m.exports| && HoldsFunction(m, f, i)
    requires |m.types| < TWO_32 && i < TWO_32
    ensures m.exports[i] == Export(Utf8(f.name), 0, i) && m.code[i] == BodyBytes(LowerFunction(f))
    ensures m.functions[i] < |m.types| && m.types[m.functions[i]] == SignatureOf(f)
  {
    hide BodyBytes, LowerFunction, Utf8, SignatureOf;
    var t :| 0 <= t < |m.types| && m.types[t] == SignatureOf(f) && m.functions[i] == ToU32(t);
  }

  lemma MemoryPart(m: Module)
    requires m.memoryPages == Some(1)
    ensures Memories(m) == [1] && AllExports(m) == m.exports + [Export([0x6d, 0x65, 0x6d, 0x6f, 0x72, 0x79], 2, 0)]
  {
  }

  lemma CountsFit(m: Module)
    requires LengthsFit(m)
    ensures |m.types| < TWO_32 && |m.functions| < TWO_32
  {
  }

  lemma SignatureTakes(f: Function)
    ensures TakesAndYields(SignatureOf(f), |f.params|)
  {
  }

  /**
   Compile a module, decode the bytes, and call function `i` with locals laid out by its decoded type:
   the result is the low half of the interpreter's, for every argument list.
   */
  lemma EmittedModuleRuns(fs: seq<Function>, i: nat, args: seq<Value>) returns (d: Decoded)
    requires LengthsFit(CompiledModule(fs)) && i < |fs|
    requires |fs[i].params| == |args| < TWO_32 && forall a | a in args :: !a.FloatV? && !a.StrV?
    requires Disciplined(fs[i]) && EvalEntryBlock(W64, fs[i], args).Some?
    requires RunNarrow(Bind(fs[i].params, args), fs[i].blocks[0].instrs)
    ensures ReadModule(ModuleBytes(CompiledModule(fs))) == Some(d)
    ensures Invoke(d, i, LocalsOf(args)) == Some(Rep(EvalEntryBlock(W64, fs[i], args).value))
  {
    d := EmittedModuleDecodes(fs, i);
    LoweringAgreesWithInterpreter(fs[i], args);
    assert |LocalsOf(args)| == |args|;
    Invoked(d, i, LowerFunction(fs[i]), LocalsOf(args));
    hide *;
  }

  lemma Invoked(d: Decoded, i: nat, code: seq<WasmInstr>, args: seq<i32>)
    requires i < |d.functions| == |d.code| && d.functions[i] < |d.types|
    requires TakesAndYields(d.types[d.functions[i]], |args|) && ReadBody(d.code[i]) == Some(code)
    ensures Invoke(d, i, args) == Run(code, args, [])
  {
    hide Run, ReadBody;
    assert d.types[d.functions[i]].params == seq(|args|, _ => ValType.I32);
  }
}
