/** C cells against MIR values, operator by operator. */
module CValues {
  import opened CEmission
  import opened CKinds
  import opened CMachine
  import opened CTypes
  import opened Mir
  import opened MirEval
  import opened MirKinds
  import opened MirMachine
  import opened Options
  import opened Words

  /** The value in an object of the type; a unit is zero, or no string yet. */
  function Rep(ty: CType, v: Value): Datum {
    match v
    case IntV(i) => Whole(i)
    case BoolV(b) => Whole(if b then 1 else 0)
    case FloatV(f) => Fraction(f)
    case StrV(s) => Text(s)
    case UnitV => if ty == Float then Fraction(0.0) else if ty == Str then Null else Whole(0)
  }

  ghost predicate Holds(c: Cell, k: Kind, v: Value) {
    InRange(W64, v) && IsOf(v, k) && Roomy(c.ty, k) && c.val == Rep(c.ty, v)
  }

  lemma WrapSmall(x: int)
    requires InRange(W64, IntV(x))
    ensures Wrap64(x) == x
    ensures -TWO_31 <= x < TWO_31 ==> Wrap32(x) == x
  {
  }

  /** Moving on to a variable with room for a wider kind keeps the value. */
  lemma ConvertKeeps(c: Cell, k: Kind, v: Value, ty: CType, l: Kind)
    requires Holds(c, k, v) && Widens(k, l) && Roomy(ty, l)
    ensures Convert(ty, c.val) == Some(Cell(ty, Rep(ty, v)))
    ensures Holds(Cell(ty, Rep(ty, v)), l, v)
  {
    if c.val.Whole? {
      WrapSmall(c.val.whole);
    }
    WidensKeeps(v, k, l);
  }

  /** The object C's operators give for a value. */
  function Natural(v: Value): Cell {
    match v
    case IntV(i) => Cell(Int, Whole(i))
    case BoolV(b) => Truth(b)
    case FloatV(f) => Cell(Float, Fraction(f))
    case StrV(s) => Cell(Str, Text(s))
    case UnitV => Cell(Int, Whole(0))
  }

  /** On two integers, the C operator is defined and right exactly when `Defined` says so. */
  lemma IntInfixExact(op: BinOp, a: i64, b: i64)
    requires EvalIntOp(W64, op, a, b).Some?
    ensures var v := EvalIntOp(W64, op, a, b).value;
            var c := EvalInfix(BinOpToC(op), Cell(Int, Whole(a)), Cell(Int, Whole(b)));
            && InRange(W64, v)
            && (c.Some? && c.value == Natural(v) <==> Defined(op, a, b))
  {
    hide TruncDiv, TruncRem, Bitwise, ShiftRight, Pow2, Wrap32;
    match op {
      case Add => WrapSmallIff(a + b);
      case Sub => WrapSmallIff(a - b);
      case Mul => WrapSmallIff(a * b);
      case Div => QuotientRange(a, b);
      case Mod => QuotientRange(a, b); RemainderRange(a, b);
      case Shl => if 0 <= b < 64 { WrapSmallIff(a * Pow2(b)); }
      case Shr => ShiftRange(a, b % 64);
      case _ =>
    }
  }

  lemma WrapSmallIff(x: int)
    ensures InRange(W64, IntV(x)) <==> Wrap64(x) == x
  {
  }

  lemma ShiftRange(a: i64, k: nat)
    ensures InRange(W64, IntV(ShiftRight(a, k)))
  {
  }

  lemma QuotientMagnitude(n: nat, d: nat)
    requires 1 <= d
    ensures 0 <= n / d <= n
    ensures 2 <= d ==> 2 * (n / d) <= n
    ensures 0 <= n - d * (n / d) < d
  {
    var q := n / d;
    assert n == d * q + n % d;
    if 2 <= d {
      assert d * q >= 2 * q;
    } else {
      assert d * q == q;
    }
  }

  /** Only the least integer divided by -1 leaves the range. */
  lemma QuotientRange(a: i64, b: i64)
    requires b != 0
    ensures InRange(W64, IntV(TruncDiv(a, b))) <==> !(a == -TWO_63 && b == -1)
    ensures !(a == -TWO_63 && b == -1) ==> Wrap64(TruncDiv(a, b)) == TruncDiv(a, b)
  {
    var n, d := Magnitude(a), Magnitude(b);
    QuotientMagnitude(n, d);
    if d == 1 {
      assert n / 1 == n;
    }
    WrapSmallIff(TruncDiv(a, b));
  }

  /** The signs work out so that the remainder's size does not depend on them. */
  lemma RemainderMagnitude(a: int, b: int, q: int)
    requires b != 0 && q == Magnitude(a) / Magnitude(b)
    ensures TruncRem(a, b) == if a < 0 then -(Magnitude(a) - Magnitude(b) * q) else Magnitude(a) - Magnitude(b) * q
  {
    SignedProduct(b, q);
    if b < 0 {
      assert TruncRem(a, b) == if a < 0 then a - b * q else a - b * -q;
    } else {
      assert TruncRem(a, b) == if a < 0 then a - b * -q else a - b * q;
    }
  }

  lemma RemainderRange(a: i64, b: i64)
    requires b != 0
    ensures InRange(W64, IntV(TruncRem(a, b))) && Wrap64(TruncRem(a, b)) == TruncRem(a, b)
  {
    var n, d := Magnitude(a), Magnitude(b);
    QuotientMagnitude(n, d);
    RemainderMagnitude(a, b, n / d);
    hide TruncRem;
    WrapSmallIff(TruncRem(a, b));
  }

  lemma SignedProduct(b: int, q: int)
    ensures b * -q == -(b * q)
    ensures b < 0 ==> b * q == -(Magnitude(b) * q)
  {
  }

  /** Booleans may sit in cells of either type; the operators they have are defined in both. */
  lemma BoolInfix(op: BinOp, l: Cell, k: Kind, r: Cell, k': Kind, a: bool, b: bool)
    requires Holds(l, k, BoolV(a)) && Holds(r, k', BoolV(b)) && EvalBoolOp(op, a, b).Some?
    ensures EvalInfix(BinOpToC(op), l, r) == Some(Natural(EvalBoolOp(op, a, b).value))
  {
    hide TruncDiv, TruncRem, Bitwise, ShiftRight, Pow2;
  }

  lemma FloatInfix(op: BinOp, a: real, b: real)
    requires EvalFloatOp(op, a, b).Some?
    ensures EvalInfix(BinOpToC(op), Cell(Float, Fraction(a)), Cell(Float, Fraction(b)))
         == Some(Natural(EvalFloatOp(op, a, b).value))
  {
    hide EvalWhole;
    assert EvalInfix(BinOpToC(op), Cell(Float, Fraction(a)), Cell(Float, Fraction(b))) == EvalReal(BinOpToC(op), a, b);
    match op {
      case Add => assert BinOpToC(op) == "+";
      case Sub => assert BinOpToC(op) == "-";
      case Mul => assert BinOpToC(op) == "*";
      case Div => assert BinOpToC(op) == "/";
      case _ =>
    }
  }

  /** What C makes of the objects that hold two operands is what the interpreter makes of the operands. */
  lemma InfixEvaluates(op: BinOp, l: Cell, k: Kind, r: Cell, k': Kind, x: Value, y: Value)
    requires Holds(l, k, x) && Holds(r, k', y) && EvalBinOp(W64, op, x, y).Some?
    requires OperandsDefined(op, x, y) && !x.StrV?
    ensures InRange(W64, EvalBinOp(W64, op, x, y).value)
    ensures EvalInfix(BinOpToC(op), l, r) == Some(Natural(EvalBinOp(W64, op, x, y).value))
  {
    hide EvalIntOp, EvalBoolOp, EvalFloatOp, EvalInfix, BinOpToC, Defined;
    match (x, y) {
      case (IntV(a), IntV(b)) =>
        assert l == Cell(Int, Whole(a)) && r == Cell(Int, Whole(b));
        IntInfixExact(op, a, b);
      case (BoolV(a), BoolV(b)) =>
        BoolInfix(op, l, k, r, k', a, b);
        BoolResult(op, a, b);
      case (FloatV(a), FloatV(b)) =>
        FloatInfix(op, a, b);
        FloatResult(op, a, b);
      case _ =>
    }
  }

  lemma BoolResult(op: BinOp, a: bool, b: bool)
    requires EvalBoolOp(op, a, b).Some?
    ensures InRange(W64, EvalBoolOp(op, a, b).value)
  {
  }

  lemma FloatResult(op: BinOp, a: real, b: real)
    requires EvalFloatOp(op, a, b).Some?
    ensures InRange(W64, EvalFloatOp(op, a, b).value)
  {
  }

  /** `Add` on two strings: the runtime's routine gives the interpreter's concatenation, left before right. */
  lemma ConcatEvaluates(vars: Vars, l: string, k: Kind, r: string, k': Kind, x: Value, y: Value)
    requires l in vars && r in vars && Holds(vars[l], k, x) && Holds(vars[r], k', y) && x.StrV?
    requires EvalBinOp(W64, Add, x, y).Some?
    ensures Eval(vars, CallTo(CONCAT, [l, r])) == Some(Natural(EvalBinOp(W64, Add, x, y).value))
  {
  }

  lemma PrefixEvaluates(op: UnOp, c: Cell, k: Kind, x: Value)
    requires Holds(c, k, x) && EvalUnOp(W64, op, x).Some?
    requires op == Neg && x.IntV? ==> x.num != -TWO_63
    ensures InRange(W64, EvalUnOp(W64, op, x).value)
    ensures EvalPrefix(UnOpToC(op), c) == Some(Natural(EvalUnOp(W64, op, x).value))
  {
    if op == Neg && x.IntV? {
      WrapSmall(-x.num);
    }
  }

  /** A computed value goes into a variable with room for it. */
  lemma NaturalConverts(v: Value, ty: CType, k: Kind)
    requires InRange(W64, v) && IsOf(v, k) && Roomy(ty, k) && !v.UnitV?
    ensures Convert(ty, Natural(v).val) == Some(Cell(ty, Rep(ty, v)))
  {
    if v.IntV? {
      WrapSmall(v.num);
    }
  }

  /** So does a literal. */
  lemma LiteralConverts(f: real)
    requires RealLiteral(f).Some?
    ensures Convert(Float, RealLiteral(f).value.val) == Some(Cell(Float, Fraction(f)))
  {
  }

  lemma DefaultConverts(vars: Vars, ty: CType, k: Kind, declared: TypeId)
    requires Roomy(ty, k) && Widens(KindOfId(declared), k)
    ensures Eval(vars, DefaultValue(ty)).Some?
    ensures Convert(ty, Eval(vars, DefaultValue(ty)).value.val) == Some(Cell(ty, Rep(ty, Zero(declared))))
    ensures IsOf(Zero(declared), k) && InRange(W64, Zero(declared))
  {
  }

  lemma UnitConverts(vars: Vars, ty: CType, k: Kind)
    requires Roomy(ty, k) && k != StrK
    ensures Eval(vars, DefaultValue(ty)).Some?
    ensures Convert(ty, Eval(vars, DefaultValue(ty)).value.val) == Some(Cell(ty, Rep(ty, UnitV)))
  {
  }
}
