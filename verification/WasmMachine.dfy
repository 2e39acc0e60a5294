/**
 The fragment of WebAssembly the lowering targets: its instructions, their binary format
 (section 5.4 of the WebAssembly Core Specification 1.0) and their execution on a stack of i32
 values (sections 4.3.2 and 4.4).
 */
module WasmMachine {
  import opened Leb128
  import opened Options
  import opened Wire
  import opened Words

  datatype NumOp =
    | I32Add | I32Sub | I32Mul | I32DivS | I32RemS
    | I32And | I32Or | I32Xor | I32Shl | I32ShrS
    | I32Eq | I32Ne | I32LtS | I32GtS | I32LeS | I32GeS

  datatype WasmInstr = LocalGet(index: u32) | I32Const(val: i32) | Numeric(op: NumOp) | Return

  // ----- binary format

  const END: byte := 0x0B
  const RETURN: byte := 0x0F
  const LOCAL_GET: byte := 0x20
  const I32_CONST: byte := 0x41

  function Opcode(op: NumOp): byte {
    match op
    case I32Add => 0x6A
    case I32Sub => 0x6B
    case I32Mul => 0x6C
    case I32DivS => 0x6D
    case I32RemS => 0x6F
    case I32And => 0x71
    case I32Or => 0x72
    case I32Xor => 0x73
    case I32Shl => 0x74
    case I32ShrS => 0x75
    case I32Eq => 0x46
    case I32Ne => 0x47
    case I32LtS => 0x48
    case I32GtS => 0x4A
    case I32LeS => 0x4C
    case I32GeS => 0x4E
  }

  function NumOpOf(b: byte): Option<NumOp> {
    if b == 0x6A then Some(I32Add)
    else if b == 0x6B then Some(I32Sub)
    else if b == 0x6C then Some(I32Mul)
    else if b == 0x6D then Some(I32DivS)
    else if b == 0x6F then Some(I32RemS)
    else if b == 0x71 then Some(I32And)
    else if b == 0x72 then Some(I32Or)
    else if b == 0x73 then Some(I32Xor)
    else if b == 0x74 then Some(I32Shl)
    else if b == 0x75 then Some(I32ShrS)
    else if b == 0x46 then Some(I32Eq)
    else if b == 0x47 then Some(I32Ne)
    else if b == 0x48 then Some(I32LtS)
    else if b == 0x4A then Some(I32GtS)
    else if b == 0x4C then Some(I32LeS)
    else if b == 0x4E then Some(I32GeS)
    else None
  }

  function InstrBytes(i: WasmInstr): (bs: seq<byte>)
    ensures 1 <= |bs|
  {
    match i
    case LocalGet(index) => [LOCAL_GET] + UnsignedLeb(index)
    case I32Const(val) => [I32_CONST] + SignedLeb(val)
    case Numeric(op) => [Opcode(op)]
    case Return => [RETURN]
  }

  /** A code-section entry: no local declarations, the instructions, and the end marker. */
  function BodyBytes(code: seq<WasmInstr>): seq<byte> {
    UnsignedLeb(0) + Concat(InstrBytes, code) + [END]
  }

  function ReadInstr(bs: seq<byte>): (r: Option<(WasmInstr, seq<byte>)>)
    ensures r.Some? ==> |r.value.1| < |bs|
  {
    if bs == [] then None
    else if bs[0] == 0x20 then
      var (index, rest) :- DecodeUnsigned(32, bs[1..]);
      if index < TWO_32 then Some((LocalGet(index), rest)) else None
    else if bs[0] == 0x41 then
      var (val, rest) :- DecodeSigned(32, bs[1..]);
      if -TWO_31 <= val < TWO_31 then Some((I32Const(val), rest)) else None
    else if bs[0] == 0x0F then Some((Return, bs[1..]))
    else
      var op :- NumOpOf(bs[0]);
      Some((Numeric(op), bs[1..]))
  }

  /** Instructions up to the end marker, which must be the last byte. */
  function ReadExpr(bs: seq<byte>): Option<seq<WasmInstr>>
    decreases |bs|
  {
    if bs == [0x0B] then Some([]) else
    var (i, rest) :- ReadInstr(bs);
    var code :- ReadExpr(rest);
    Some([i] + code)
  }

  /** A function body without declared locals. */
  function ReadBody(bs: seq<byte>): Option<seq<WasmInstr>> {
    var (localCount, rest) :- DecodeUnsigned(32, bs);
    if localCount != 0 then None else ReadExpr(rest)
  }

  lemma InstrRoundTrip(i: WasmInstr, rest: seq<byte>)
    ensures ReadInstr(InstrBytes(i) + rest) == Some((i, rest))
  {
    var bs := InstrBytes(i) + rest;
    match i
    case LocalGet(index) =>
      assert bs[1..] == UnsignedLeb(index) + rest;
      U32RoundTrip(index, rest);
    case I32Const(val) =>
      assert bs[1..] == SignedLeb(val) + rest;
      I32RoundTrip(val, rest);
    case Numeric(op) =>
      assert bs[1..] == rest;
    case Return =>
      assert bs[1..] == rest;
  }

  lemma InstrNeverEnd(i: WasmInstr)
    ensures InstrBytes(i)[0] != 0x0B
  {
  }

  lemma {:induction false} ExprRoundTrip(code: seq<WasmInstr>)
    ensures ReadExpr(Concat(InstrBytes, code) + [END]) == Some(code)
  {
    if code != [] {
      var rest := Concat(InstrBytes, code[1..]) + [END];
      var bs := Concat(InstrBytes, code) + [END];
      assert bs == InstrBytes(code[0]) + rest;
      assert bs[0] == InstrBytes(code[0])[0];
      InstrNeverEnd(code[0]);
      InstrRoundTrip(code[0], rest);
      ExprRoundTrip(code[1..]);
      assert code == [code[0]] + code[1..];
    }
  }

  lemma BodyRoundTrip(code: seq<WasmInstr>)
    ensures ReadBody(BodyBytes(code)) == Some(code)
  {
    var rest := Concat(InstrBytes, code) + [END];
    assert BodyBytes(code) == UnsignedLeb(0) + rest;
    U32RoundTrip(0, rest);
    ExprRoundTrip(code);
  }

  // ----- execution

  function Flag(b: bool): i32 {
    if b then 1 else 0
  }

  /** One numeric instruction on its two operands, the second one popped first; `None` is a trap. */
  function NumericOp(op: NumOp, a: i32, b: i32): Option<i32> {
    match op
    case I32Add => Some(Wrap32(a + b))
    case I32Sub => Some(Wrap32(a - b))
    case I32Mul => Some(Wrap32(a * b))
    case I32DivS => if b == 0 || (a == -TWO_31 && b == -1) then None else Some(Wrap32(TruncDiv(a, b)))
    case I32RemS => if b == 0 then None else Some(Wrap32(TruncRem(a, b)))
    case I32And => Some(Wrap32(Bitwise(AndBits, a, b, 32)))
    case I32Or => Some(Wrap32(Bitwise(OrBits, a, b, 32)))
    case I32Xor => Some(Wrap32(Bitwise(XorBits, a, b, 32)))
    case I32Shl => Some(Wrap32(a * Pow2(b % 32)))
    case I32ShrS => Some(Wrap32(ShiftRight(a, b % 32)))
    case I32Eq => Some(Flag(a == b))
    case I32Ne => Some(Flag(a != b))
    case I32LtS => Some(Flag(a < b))
    case I32GtS => Some(Flag(a > b))
    case I32LeS => Some(Flag(a <= b))
    case I32GeS => Some(Flag(a >= b))
  }

  /** One instruction other than a return; `None` is a trap, a stack underflow or a missing local. */
  function Step(i: WasmInstr, locals: seq<i32>, stack: seq<i32>): Option<seq<i32>> {
    match i
    case LocalGet(index) => if index < |locals| then Some(stack + [locals[index]]) else None
    case I32Const(val) => Some(stack + [val])
    case Numeric(op) =>
      if |stack| < 2 then None else
      var n := |stack| - 2;
      var v :- NumericOp(op, stack[n], stack[n + 1]);
      Some(stack[..n] + [v])
    case Return => None
  }

  /**
   The result of a function of type [i32^n] -> [i32]: the top of the stack at a return, or the only
   value left at the end of the body.
   */
  function Run(code: seq<WasmInstr>, locals: seq<i32>, stack: seq<i32>): Option<i32>
    decreases code
  {
    if code == [] then
      if |stack| == 1 then Some(stack[0]) else None
    else if code[0] == Return then
      if stack != [] then Some(stack[|stack| - 1]) else None
    else
      var stack' :- Step(code[0], locals, stack);
      Run(code[1..], locals, stack')
  }
}
