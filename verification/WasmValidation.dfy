/** Validation of decoded modules (sections 3.3 and 3.4 of the WebAssembly Core Specification 1.0). */
module WasmValidation {
  import opened Options
  import opened WasmMachine
  import opened WasmModule
  import opened Words

  // ----- instruction sequences

  /** The operand types known on the stack; below a `return` any others may be assumed. */
  datatype Shape = Shape(known: seq<ValType>, unreachable: bool)
  {
    function Push(t: ValType): Shape {
      Shape(known + [t], unreachable)
    }

    /** Without an operand of that type on top, only unreachable code goes on. */
    function Pop(t: ValType): Option<Shape> {
      if known == [] then if unreachable then Some(this) else None
      else if known[|known| - 1] == t then Some(Shape(known[..|known| - 1], unreachable))
      else None
    }
  }

  function ValidateInstr(i: WasmInstr, locals: seq<ValType>, results: seq<ValType>, s: Shape): Option<Shape> {
    match i
    case LocalGet(index) => if index < |locals| then Some(s.Push(locals[index])) else None
    case I32Const(_) => Some(s.Push(ValType.I32))
    case Numeric(_) =>
      var s1 :- s.Pop(ValType.I32);
      var s2 :- s1.Pop(ValType.I32);
      Some(s2.Push(ValType.I32))
    case Return =>
      var _ :- PopAll(results, s);
      Some(Shape([], true))
  }

  function PopAll(ts: seq<ValType>, s: Shape): Option<Shape> {
    if ts == [] then Some(s) else
    var s' :- s.Pop(ts[|ts| - 1]);
    PopAll(ts[..|ts| - 1], s')
  }

  function ValidateCode(code: seq<WasmInstr>, locals: seq<ValType>, results: seq<ValType>, s: Shape): Option<Shape>
    decreases code
  {
    if code == [] then Some(s) else
    var s' :- ValidateInstr(code[0], locals, results, s);
    ValidateCode(code[1..], locals, results, s')
  }

  /** The body takes the parameters as its locals and leaves exactly the results. */
  predicate ValidBody(t: FuncType, code: seq<WasmInstr>) {
    match ValidateCode(code, t.params, t.results, Shape([], false))
    case None => false
    case Some(s) => PopAll(t.results, s).Some? && PopAll(t.results, s).value.known == []
  }

  // ----- modules

  predicate ValidFunction(d: Decoded, i: nat) {
    && i < |d.functions| && i < |d.code|
    && d.functions[i] < |d.types|
    && var code := ReadBody(d.code[i]);
       code.Some? && ValidBody(d.types[d.functions[i]], code.value)
  }

  predicate ValidExport(d: Decoded, e: Export) {
    (e.kind == 0 && e.index < |d.functions|) || (e.kind == 2 && e.index < |d.memories|)
  }

  /** Types, bodies, export targets, and exports of different names; a memory has at most 65536 pages. */
  predicate ValidModule(d: Decoded) {
    && (forall i | 0 <= i < |d.functions| :: ValidFunction(d, i))
    && (forall e | e in d.exports :: ValidExport(d, e))
    && (forall i, j | 0 <= i < j < |d.exports| :: d.exports[i].name != d.exports[j].name)
    && |d.memories| <= 1 && (forall m | m in d.memories :: m <= 65536)
  }

  // ----- execution

  /** A call of an exported function: the arguments become its locals, and must be what its type says. */
  function Invoke(d: Decoded, i: nat, args: seq<i32>): Option<i32> {
    if i >= |d.functions| || i >= |d.code| || d.functions[i] >= |d.types| then None else
    var t := d.types[d.functions[i]];
    if t.params != seq(|args|, _ => ValType.I32) || t.results != [ValType.I32] then None else
    var code :- ReadBody(d.code[i]);
    Run(code, args, [])
  }
}
