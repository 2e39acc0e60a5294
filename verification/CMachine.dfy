/**
 The C programs the emitter prints, one constructor a line of output, and their execution. Names
 stay strings, so that two names colliding is visible. The types `agam_int` (64 bits), `agam_bool`
 (C's int, 32 bits), `agam_float` and `agam_str` are executed; anything else, and all undefined
 behaviour, is stuck. Floats are exact, and strings are their text.
 */
module CMachine {
  import opened CLiterals
  import opened CTypes
  import opened MirEval
  import opened Options
  import opened Words

  /** A float literal is printed without a point when it is integral; the last three are 0.0, NULL and {0}. */
  datatype CExpr =
    | Lit(val: int)
    | RealLit(float: real)
    | TextLit(spelled: string)
    | Var(x: string)
    | Infix(token: string, left: string, right: string)
    | Prefix(sign: string, operand: string)
    | CallTo(callee: string, args: seq<string>)
    | RealZero
    | NullPointer
    | BracedZero

  datatype CStmt =
    | Label(id: nat)
    | Decl(ty: CType, name: string, init: CExpr)
    | Assign(target: string, source: string)
    | Goto(dest: nat)
    | IfGoto(cond: string, thenLabel: nat, elseLabel: nat)
    | SwitchGoto(scrutinee: string, cases: seq<(int, nat)>, default: nat)
    | ReturnVar(returned: string)
    | ReturnIntCast(cast: string)
    | ReturnZero
    | Trap
    | Unmodelled

  datatype CFunction = CFunction(name: string, ret: CType, params: seq<CType>, body: seq<CStmt>)

  datatype Datum = Whole(whole: int) | Fraction(fraction: real) | Text(text: string) | Null

  /** A C object: its type and its value. */
  datatype Cell = Cell(ty: CType, val: Datum)

  type Vars = map<string, Cell>

  predicate Integral(ty: CType) {
    ty == Int || ty == Bool
  }

  predicate Executable(ty: CType) {
    Integral(ty) || ty == Float || ty == Str
  }

  function WidthOf(ty: CType): Width {
    if ty == Int then W64 else W32
  }

  predicate Representable(ty: CType, x: int) {
    InRange(WidthOf(ty), IntV(x))
  }

  /** Toward zero. */
  function Truncated(f: real): int {
    if f >= 0.0 then f.Floor else -((-f).Floor)
  }

  /** Conversion on assignment, initialisation, argument passing and return. */
  function Convert(ty: CType, d: Datum): Option<Cell> {
    match d
    case Whole(n) =>
      if Integral(ty) then Some(Cell(ty, Whole(Wrap(WidthOf(ty), n))))
      else if ty == Float then Some(Cell(Float, Fraction(n as real)))
      else None
    case Fraction(f) =>
      if ty == Float then Some(Cell(Float, d))
      else if Integral(ty) && Representable(ty, Truncated(f)) then Some(Cell(ty, Whole(Truncated(f))))
      else None
    case _ => if ty == Str then Some(Cell(Str, d)) else None
  }

  /** The usual arithmetic conversions, for the two integer types. */
  function Common(l: CType, r: CType): CType {
    if l == Int || r == Int then Int else Bool
  }

  function Checked(ty: CType, x: int): Option<Cell> {
    if Representable(ty, x) then Some(Cell(ty, Whole(x))) else None
  }

  function Truth(b: bool): Cell {
    Cell(Bool, Whole(if b then 1 else 0))
  }

  /** Signed overflow, division by zero and out-of-range shifts are undefined. */
  function EvalWhole(token: string, lt: CType, a: int, rt: CType, b: int): Option<Cell> {
    var ty := Common(lt, rt);
    var bits := Bits(WidthOf(ty));
    if token == "+" then Checked(ty, a + b)
    else if token == "-" then Checked(ty, a - b)
    else if token == "*" then Checked(ty, a * b)
    else if token == "/" then if b == 0 then None else Checked(ty, TruncDiv(a, b))
    else if token == "%" then
      if b == 0 || !Representable(ty, TruncDiv(a, b)) then None else Checked(ty, TruncRem(a, b))
    else if token == "==" then Some(Truth(a == b))
    else if token == "!=" then Some(Truth(a != b))
    else if token == "<" then Some(Truth(a < b))
    else if token == "<=" then Some(Truth(a <= b))
    else if token == ">" then Some(Truth(a > b))
    else if token == ">=" then Some(Truth(a >= b))
    else if token == "&&" then Some(Truth(a != 0 && b != 0))
    else if token == "||" then Some(Truth(a != 0 || b != 0))
    else if token == "&" then Some(Cell(ty, Whole(Wrap(WidthOf(ty), Bitwise(AndBits, a, b, bits)))))
    else if token == "|" then Some(Cell(ty, Whole(Wrap(WidthOf(ty), Bitwise(OrBits, a, b, bits)))))
    else if token == "^" then Some(Cell(ty, Whole(Wrap(WidthOf(ty), Bitwise(XorBits, a, b, bits)))))
    else if token == "<<" then
      if 0 <= b < Bits(WidthOf(lt)) && 0 <= a then Checked(lt, a * Pow2(b)) else None
    else if token == ">>" then
      if 0 <= b < Bits(WidthOf(lt)) then Some(Cell(lt, Whole(ShiftRight(a, b)))) else None
    else None
  }

  /** Division by zero gives an infinity or NaN, which is not modelled. */
  function EvalReal(token: string, a: real, b: real): Option<Cell> {
    if token == "+" then Some(Cell(Float, Fraction(a + b)))
    else if token == "-" then Some(Cell(Float, Fraction(a - b)))
    else if token == "*" then Some(Cell(Float, Fraction(a * b)))
    else if token == "/" then if b == 0.0 then None else Some(Cell(Float, Fraction(a / b)))
    else if token == "==" then Some(Truth(a == b))
    else if token == "!=" then Some(Truth(a != b))
    else if token == "<" then Some(Truth(a < b))
    else if token == "<=" then Some(Truth(a <= b))
    else if token == ">" then Some(Truth(a > b))
    else if token == ">=" then Some(Truth(a >= b))
    else if token == "&&" then Some(Truth(a != 0.0 && b != 0.0))
    else if token == "||" then Some(Truth(a != 0.0 || b != 0.0))
    else None
  }

  function AsReal(d: Datum): real
    requires d.Whole? || d.Fraction?
  {
    if d.Whole? then d.whole as real else d.fraction
  }

  predicate Numeric(d: Datum) {
    d.Whole? || d.Fraction?
  }

  /** Pointers have no operator here: a comparison of strings would compare addresses. */
  function EvalInfix(token: string, l: Cell, r: Cell): Option<Cell> {
    if l.val.Whole? && r.val.Whole? then EvalWhole(token, l.ty, l.val.whole, r.ty, r.val.whole)
    else if Numeric(l.val) && Numeric(r.val) then EvalReal(token, AsReal(l.val), AsReal(r.val))
    else None
  }

  function EvalPrefix(sign: string, c: Cell): Option<Cell> {
    match c.val
    case Whole(n) =>
      if sign == "-" then Checked(c.ty, -n)
      else if sign == "!" then Some(Truth(n == 0))
      else if sign == "~" then Some(Cell(c.ty, Whole(-n - 1)))
      else None
    case Fraction(f) =>
      if sign == "-" then Some(Cell(Float, Fraction(-f)))
      else if sign == "!" then Some(Truth(f == 0.0))
      else None
    case _ => None
  }

  function Read(vars: Vars, x: string): Option<Cell> {
    if x in vars then Some(vars[x]) else None
  }

  const CONCAT := "agam_str_concat"

  /** The runtime's routine: the bytes of the first argument, then those of the second. */
  function Concatenated(vars: Vars, args: seq<string>): Option<Cell> {
    if |args| != 2 then None else
    var l :- Read(vars, args[0]);
    var r :- Read(vars, args[1]);
    if l.val.Text? && r.val.Text? then Some(Cell(Str, Text(l.val.text + r.val.text))) else None
  }

  /** A float literal as it is read: an integer when nothing follows a point. */
  function RealLiteral(f: real): Option<Cell> {
    if f.Floor as real != f then Some(Cell(Float, Fraction(f)))
    else if -TWO_63 < f.Floor < TWO_63 then Some(Cell(Int, Whole(f.Floor)))
    else None
  }

  /** Expressions other than calls into the program. The literal for the least int64 is not representable. */
  function Eval(vars: Vars, e: CExpr): Option<Cell> {
    match e
    case Lit(val) => if -TWO_63 < val < TWO_63 then Some(Cell(Int, Whole(val))) else None
    case RealLit(f) => RealLiteral(f)
    case TextLit(spelled) =>
      var text :- ReadLiteral(spelled);
      Some(Cell(Str, Text(text)))
    case Var(x) => Read(vars, x)
    case Infix(token, left, right) =>
      var l :- Read(vars, left);
      var r :- Read(vars, right);
      EvalInfix(token, l, r)
    case Prefix(sign, operand) =>
      var c :- Read(vars, operand);
      EvalPrefix(sign, c)
    case CallTo(callee, args) => if callee == CONCAT then Concatenated(vars, args) else None
    case RealZero => Some(Cell(Float, Fraction(0.0)))
    case NullPointer => Some(Cell(Str, Null))
    case BracedZero => None
  }

  datatype CFrame = CFrame(fn: CFunction, vars: Vars, rest: seq<CStmt>)

  type CTrace = seq<(string, nat)>

  datatype CState =
    | CRunning(top: CFrame, callers: seq<CFrame>, trace: CTrace)
    | CDone(result: Datum, trace: CTrace)

  function FindLabel(body: seq<CStmt>, id: nat): Option<seq<CStmt>> {
    if body == [] then None
    else if body[0] == Label(id) then Some(body)
    else FindLabel(body[1..], id)
  }

  function FindCFunction(prog: seq<CFunction>, name: string): Option<CFunction> {
    if prog == [] then None
    else if prog[0].name == name then Some(prog[0])
    else FindCFunction(prog[1..], name)
  }

  function CaseLabel(cases: seq<(int, nat)>, default: nat, val: int): nat {
    if cases == [] then default
    else if cases[0].0 == val then cases[0].1
    else CaseLabel(cases[1..], default, val)
  }

  function ReadAll(vars: Vars, xs: seq<string>): Option<seq<Datum>> {
    if xs == [] then Some([]) else
    var n := |xs| - 1;
    var front :- ReadAll(vars, xs[..n]);
    var last :- Read(vars, xs[n]);
    Some(front + [last.val])
  }

  function Digit(n: nat): char
    requires n < 10
  {
    "0123456789"[n]
  }

  function Decimal(n: nat): (s: string)
    ensures s != ""
  {
    if n < 10 then [Digit(n)] else Decimal(n / 10) + [Digit(n % 10)]
  }

  function ParamName(i: nat): string {
    "__p" + Decimal(i)
  }

  /** Arguments converted to the parameter types. */
  function BindArgs(params: seq<CType>, args: seq<Datum>): Option<Vars>
    requires |params| == |args|
  {
    if params == [] then Some(map[]) else
    var n := |params| - 1;
    var front :- BindArgs(params[..n], args[..n]);
    var cell :- Convert(params[n], args[n]);
    Some(front[ParamName(n) := cell])
  }

  function CEnter(f: CFunction, args: seq<Datum>): Option<CFrame> {
    if |args| != |f.params| then None else
    var vars :- BindArgs(f.params, args);
    Some(CFrame(f, vars, f.body))
  }

  function Declare(fr: CFrame, ty: CType, x: string, val: Datum): Option<CFrame> {
    var cell :- Convert(ty, val);
    Some(fr.(vars := fr.vars[x := cell], rest := if fr.rest == [] then [] else fr.rest[1..]))
  }

  function Jump(fr: CFrame, id: nat): Option<CFrame> {
    var rest :- FindLabel(fr.fn.body, id);
    Some(fr.(rest := rest))
  }

  /** The value the caller's pending declaration receives. */
  function ReturnTo(s: CState, val: Datum): Option<CState>
    requires s.CRunning?
  {
    var cell :- Convert(s.top.fn.ret, val);
    if s.callers == [] then Some(CDone(cell.val, s.trace)) else
    var caller := s.callers[0];
    if caller.rest != [] && caller.rest[0].Decl? && caller.rest[0].init.CallTo? then
      var fr :- Declare(caller, caller.rest[0].ty, caller.rest[0].name, cell.val);
      Some(CRunning(fr, s.callers[1..], s.trace))
    else None
  }

  function CallFunction(prog: seq<CFunction>, s: CState, callee: string, args: seq<string>): Option<CState>
    requires s.CRunning?
  {
    var f :- FindCFunction(prog, callee);
    var vals :- ReadAll(s.top.vars, args);
    var fr :- CEnter(f, vals);
    Some(CRunning(fr, [s.top] + s.callers, s.trace))
  }

  function CStep(prog: seq<CFunction>, s: CState): Option<CState> {
    if s.CDone? || s.top.rest == [] then None else
    match s.top.rest[0]
    case Label(id) => Some(s.(top := s.top.(rest := s.top.rest[1..]), trace := s.trace + [(s.top.fn.name, id)]))
    case Decl(ty, x, e) =>
      if e.CallTo? && e.callee != CONCAT then CallFunction(prog, s, e.callee, e.args) else
      var cell :- Eval(s.top.vars, e);
      var fr :- Declare(s.top, ty, x, cell.val);
      Some(s.(top := fr))
    case Assign(x, y) =>
      var slot :- Read(s.top.vars, x);
      var cell :- Read(s.top.vars, y);
      var fr :- Declare(s.top, slot.ty, x, cell.val);
      Some(s.(top := fr))
    case Goto(id) =>
      var fr :- Jump(s.top, id);
      Some(s.(top := fr))
    case IfGoto(x, t, e) =>
      var cell :- Read(s.top.vars, x);
      if !cell.val.Whole? then None else
      var fr :- Jump(s.top, if cell.val.whole != 0 then t else e);
      Some(s.(top := fr))
    case SwitchGoto(x, cases, default) =>
      var cell :- Read(s.top.vars, x);
      if !cell.val.Whole? then None else
      var fr :- Jump(s.top, CaseLabel(cases, default, cell.val.whole));
      Some(s.(top := fr))
    case ReturnVar(x) =>
      var cell :- Read(s.top.vars, x);
      ReturnTo(s, cell.val)
    case ReturnIntCast(x) =>
      var cell :- Read(s.top.vars, x);
      if cell.val.Whole? then ReturnTo(s, Whole(Wrap32(cell.val.whole))) else None
    case ReturnZero => ReturnTo(s, Whole(0))
    case Trap => None
    case Unmodelled => None
  }

  function CSteps(prog: seq<CFunction>, s: CState, n: nat): Option<CState>
    decreases n
  {
    if n == 0 then Some(s) else
    var s' :- CStep(prog, s);
    CSteps(prog, s', n - 1)
  }

  lemma CStepsFirst(prog: seq<CFunction>, s: CState, s': CState, n: nat)
    requires CStep(prog, s) == Some(s')
    ensures CSteps(prog, s, n + 1) == CSteps(prog, s', n)
  {
    hide CStep;
  }

  lemma {:induction false} CStepsAdd(prog: seq<CFunction>, s: CState, m: nat, n: nat)
    requires CSteps(prog, s, m).Some?
    ensures CSteps(prog, s, m + n) == CSteps(prog, CSteps(prog, s, m).value, n)
    decreases m
  {
    hide CStep;
    if m > 0 {
      CStepsAdd(prog, CStep(prog, s).value, m - 1, n);
    }
  }
}
