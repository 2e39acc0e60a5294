/** What the C emitter prints for a function: signature, parameter aliases, labelled blocks. */
module CEmission {
  import opened CLiterals
  import opened CMachine
  import opened CTypes
  import opened Mir

  // ----- names

  /** `replace("::", "_")`: leftmost, non-overlapping. */
  function ReplacePaths(s: string): string {
    if |s| >= 2 && s[0] == ':' && s[1] == ':' then "_" + ReplacePaths(s[2..])
    else if s == "" then ""
    else [s[0]] + ReplacePaths(s[1..])
  }

  function ReplaceDots(s: string): string {
    if s == "" then "" else [if s[0] == '.' then '_' else s[0]] + ReplaceDots(s[1..])
  }

  function MangleName(name: string): string {
    "agam_" + ReplaceDots(ReplacePaths(name))
  }

  function LocalName(name: string): string {
    "_local_" + ReplaceDots(ReplacePaths(name))
  }

  function ValueName(v: ValueId): string {
    "__v" + Decimal(v)
  }

  function ValueNames(vs: seq<ValueId>): seq<string> {
    seq(|vs|, k requires 0 <= k < |vs| => ValueName(vs[k]))
  }

  // ----- instructions

  function BinOpToC(op: BinOp): string {
    match op
    case Add => "+"
    case Sub => "-"
    case Mul => "*"
    case Div => "/"
    case Mod => "%"
    case Eq => "=="
    case NotEq => "!="
    case Lt => "<"
    case LtEq => "<="
    case Gt => ">"
    case GtEq => ">="
    case And => "&&"
    case Or => "||"
    case BitAnd => "&"
    case BitOr => "|"
    case BitXor => "^"
    case Shl => "<<"
    case Shr => ">>"
  }

  function UnOpToC(op: UnOp): string {
    match op
    case Neg => "-"
    case Not => "!"
    case BitNot => "~"
  }

  function DefaultValue(ty: CType): CExpr {
    match ty
    case Int => Lit(0)
    case Float => RealZero
    case Bool => Lit(0)
    case Str => NullPointer
    case OpaquePtr => NullPointer
    case Tensor => NullPointer
    case DataFrame => NullPointer
    case Enum => BracedZero
    case Struct => BracedZero
  }

  /** The lines of one instruction. Values of the types the C machine does not execute are left out. */
  function EmitInstr(lay: Layout, i: Instr): seq<CStmt> {
    var v := ValueName(i.result);
    var ty := lay.ValueType(i.result);
    match i.op
    case ConstInt(val) => [Decl(ty, v, Lit(val))]
    case ConstFloat(f) => [Decl(ty, v, RealLit(f))]
    case ConstBool(b) => [Decl(ty, v, Lit(if b then 1 else 0))]
    case ConstString(s) => [Decl(ty, v, TextLit(EscapeCString(s)))]
    case Unit => [Decl(ty, v, DefaultValue(ty))]
    case Binary(op, l, r) =>
      if op == Add && ty == Str then [Decl(ty, v, CallTo(CONCAT, [ValueName(l), ValueName(r)]))]
      else [Decl(ty, v, Infix(BinOpToC(op), ValueName(l), ValueName(r)))]
    case Unary(op, x) => [Decl(ty, v, Prefix(UnOpToC(op), ValueName(x)))]
    case Call(callee, args) =>
      if IsPrintBuiltin(callee) then [Unmodelled] else [Decl(ty, v, CallTo(MangleName(callee), ValueNames(args)))]
    case Copy(src) => [Decl(ty, v, Var(ValueName(src)))]
    case LoadLocal(name) => [Decl(ty, v, Var(LocalName(name)))]
    case StoreLocal(name, value) =>
      [Assign(LocalName(name), ValueName(value)), Decl(ty, v, Var(ValueName(value)))]
    case Alloca(name, _) =>
      var localTy := OrElse(lay.LocalType(name), Int);
      [Decl(localTy, LocalName(name), DefaultValue(localTy)), Decl(ty, v, DefaultValue(ty))]
    case _ => [Unmodelled]
  }

  function EmitInstrs(lay: Layout, instrs: seq<Instr>): seq<CStmt> {
    if instrs == [] then [] else EmitInstr(lay, instrs[0]) + EmitInstrs(lay, instrs[1..])
  }

  function EmitTerm(t: Terminator, isMain: bool): CStmt {
    match t
    case Return(v) => if isMain then ReturnIntCast(ValueName(v)) else ReturnVar(ValueName(v))
    case ReturnVoid => ReturnZero
    case Jump(b) => Goto(b)
    case Branch(c, t, e) => IfGoto(ValueName(c), t, e)
    case Switch(d, cases, default) => SwitchGoto(ValueName(d), cases, default)
    case Unreachable => Trap
  }

  function EmitBlock(lay: Layout, b: Block, isMain: bool): seq<CStmt> {
    [Label(b.id)] + EmitInstrs(lay, b.instrs) + [EmitTerm(b.term, isMain)]
  }

  function EmitBlocks(lay: Layout, blocks: seq<Block>, isMain: bool): seq<CStmt> {
    if blocks == [] then [] else EmitBlock(lay, blocks[0], isMain) + EmitBlocks(lay, blocks[1..], isMain)
  }

  function ParamType(lay: Layout, k: nat): CType {
    if k < |lay.params| then lay.params[k] else Int
  }

  /** The alias of parameter `k`. */
  function Alias(f: Function, lay: Layout, k: nat): CStmt
    requires k < |f.params|
  {
    Decl(ParamType(lay, k), LocalName(f.params[k].name), Var(ParamName(k)))
  }

  function EmitAliases(f: Function, lay: Layout, k: nat): seq<CStmt>
    requires k <= |f.params|
    decreases |f.params| - k
  {
    if k == |f.params| then [] else [Alias(f, lay, k)] + EmitAliases(f, lay, k + 1)
  }

  predicate IsMain(f: Function) {
    f.name == "main"
  }

  function CName(name: string): string {
    if name == "main" then "main" else MangleName(name)
  }

  /** `main` returns C's int and has no parameters of its own. */
  function EmitFunction(f: Function, lay: Layout): CFunction {
    CFunction(CName(f.name),
              if IsMain(f) then Bool else lay.returnTy,
              if IsMain(f) then [] else seq(|f.params|, k requires 0 <= k < |f.params| => ParamType(lay, k)),
              EmitAliases(f, lay, 0) + EmitBlocks(lay, f.blocks, IsMain(f)))
  }

  function EmitProgram(fs: seq<Function>, layouts: map<string, Layout>): seq<CFunction>
    requires forall f | f in fs :: f.name in layouts
  {
    seq(|fs|, k requires 0 <= k < |fs| => EmitFunction(fs[k], layouts[fs[k].name]))
  }
}
