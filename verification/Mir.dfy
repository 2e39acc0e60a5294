/** The mid-level IR both back ends lower: SSA instructions in basic blocks. */
module Mir {
  import opened Options
  import opened Words

  type ValueId = nat
  type BlockId = nat
  type TypeId = nat

  datatype BinOp =
    | Add | Sub | Mul | Div | Mod
    | Eq | NotEq | Lt | LtEq | Gt | GtEq
    | And | Or
    | BitAnd | BitOr | BitXor | Shl | Shr

  datatype UnOp = Neg | Not | BitNot

  /** `Placeholder` stands for the handler, GPU, inline-assembly and system-call operations. */
  datatype Op =
    | ConstInt(val: i64)
    | ConstFloat(float: real)
    | ConstBool(flag: bool)
    | ConstString(text: string)
    | Unit
    | Binary(bop: BinOp, left: ValueId, right: ValueId)
    | Unary(uop: UnOp, operand: ValueId)
    | Call(callee: string, args: seq<ValueId>)
    | Copy(src: ValueId)
    | LoadLocal(local: string)
    | StoreLocal(target: string, value: ValueId)
    | StoreIndex(indexed: ValueId, at: ValueId, element: ValueId)
    | Alloca(slot: string, slotTy: TypeId)
    | ArcAlloc(cell: string, cellTy: TypeId)
    | ArcRetain(retained: ValueId)
    | ArcRelease(released: ValueId)
    | StackDrop(dropped: ValueId)
    | GetField(aggregate: ValueId, field: string)
    | GetIndex(indexable: ValueId, index: ValueId)
    | Phi(entries: seq<(BlockId, ValueId)>)
    | Cast(casted: ValueId, castTy: TypeId)
    | EffectPerform(effect: string, operation: string, effectArgs: seq<ValueId>)
    | EnumConstruct(tag: u32, payload: seq<ValueId>)
    | EnumTag(tagged: ValueId)
    | EnumPayload(carrier: ValueId, fieldIndex: u32)
    | StructConstruct(structName: string, fields: seq<(string, ValueId)>)
    | Placeholder

  datatype Instr = Instr(result: ValueId, ty: TypeId, op: Op)

  datatype Terminator =
    | Return(returned: ValueId)
    | ReturnVoid
    | Jump(jump: BlockId)
    | Branch(condition: ValueId, thenBlock: BlockId, elseBlock: BlockId)
    | Switch(discriminant: ValueId, cases: seq<(i64, BlockId)>, default: BlockId)
    | Unreachable

  datatype Block = Block(id: BlockId, instrs: seq<Instr>, term: Terminator)

  datatype Param = Param(name: string, value: ValueId, ty: TypeId)

  datatype Function = Function(
    name: string,
    params: seq<Param>,
    returnTy: TypeId,
    blocks: seq<Block>,
    entry: BlockId)

  /** The first block with the given id, as the interpreter's linear search finds it. */
  function FindBlock(blocks: seq<Block>, id: BlockId): (b: Option<Block>)
    ensures b.Some? ==> b.value in blocks && b.value.id == id
    ensures b.None? ==> forall k | k in blocks :: k.id != id
  {
    if blocks == [] then None
    else if blocks[0].id == id then Some(blocks[0])
    else FindBlock(blocks[1..], id)
  }

  /** The first function with the given name, and its position. */
  function FindFunction(fs: seq<Function>, name: string): (i: Option<nat>)
    ensures i.Some? ==> i.value < |fs| && fs[i.value].name == name
    ensures i.None? ==> forall f | f in fs :: f.name != name
  {
    if fs == [] then None
    else if fs[0].name == name then Some(0)
    else
      var i :- FindFunction(fs[1..], name);
      Some(i + 1)
  }

  // ----- what an operation reads

  /** Constants, operators, copies, locals and calls. */
  predicate SimpleOp(op: Op) {
    op.ConstInt? || op.ConstFloat? || op.ConstBool? || op.ConstString? || op.Unit?
    || op.Binary? || op.Unary? || op.Copy? || op.LoadLocal?
    || op.StoreLocal? || op.Alloca? || op.Call?
  }

  function Operands(op: Op): set<ValueId> {
    match op
    case Binary(_, l, r) => {l, r}
    case Unary(_, v) => {v}
    case Copy(src) => {src}
    case StoreLocal(_, v) => {v}
    case Call(_, args) => set v | v in args
    case _ => {}
  }

  function TermOperands(t: Terminator): set<ValueId> {
    match t
    case Return(v) => {v}
    case Branch(c, _, _) => {c}
    case Switch(d, _, _) => {d}
    case _ => {}
  }

  function ParamIds(f: Function): set<ValueId> {
    set p | p in f.params :: p.value
  }

  function ParamNames(f: Function): set<string> {
    set p | p in f.params :: p.name
  }
}
