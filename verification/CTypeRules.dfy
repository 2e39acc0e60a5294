/**
 The inferred layout against the typing rules of the C it is printed as: each result has the type its
 operation gives it, from the types its operands have in the finished layout.
 */
module CTypeRules {
  import opened CInference
  import opened CRuntime
  import opened CTypes
  import opened CTyping
  import opened Mir
  import opened Options

  // ----- merging

  /** From the least general type to the most general one. */
  function Rank(t: CType): nat {
    match t
    case Int => 0
    case Bool => 1
    case Float => 2
    case Str => 3
    case Tensor => 4
    case DataFrame => 5
    case OpaquePtr => 6
    case Struct => 7
    case Enum => 8
  }

  predicate Widest(ts: seq<CType>, t: CType) {
    t in ts && forall u | u in ts :: Rank(u) <= Rank(t)
  }

  lemma {:induction false} MergeIsWidest(ts: seq<CType>)
    requires ts != []
    ensures MergeAll(ts).Some? && Widest(ts, MergeAll(ts).value)
  {
    var front, last := ts[..|ts| - 1], ts[|ts| - 1];
    assert ts == front + [last];
    if front != [] {
      MergeIsWidest(front);
      MergeTwo(MergeAll(front).value, last);
    }
    hide Merge, Rank;
  }

  lemma MergeTwo(l: CType, r: CType)
    ensures Merge(l, r) in {l, r} && Rank(l) <= Rank(Merge(l, r)) && Rank(r) <= Rank(Merge(l, r))
  {
  }

  /** A function returns the widest type any of its blocks returns, in whatever order they stand. */
  lemma ReturnIsWidest(f: Function, rt: Returns)
    requires exists b :: b in f.blocks && b.term.Return?
    ensures var lay := Analysis(f, rt);
            && (exists b :: b in f.blocks && b.term.Return? && lay.ValueType(b.term.returned) == lay.returnTy)
            && (forall b | b in f.blocks && b.term.Return? ::
                  Rank(lay.ValueType(b.term.returned)) <= Rank(lay.returnTy))
  {
    var lay := InferInstrs(Seeded(f), rt, AllInstrs(f.blocks));
    var ts := ReturnTypes(lay, f.blocks);
    forall t
      ensures t in ts <==> exists b :: b in f.blocks && ReturnsTyped(lay, b, t)
    {
      InReturnTypes(lay, f.blocks, t);
    }
    hide InferInstrs, Seeded, AllInstrs, ReturnTypes, MergeAll, Rank;
    var some :| some in f.blocks && some.term.Return?;
    assert ReturnsTyped(lay, some, lay.ValueType(some.term.returned));
    assert lay.ValueType(some.term.returned) in ts;
    MergeIsWidest(ts);
    var b :| b in f.blocks && ReturnsTyped(lay, b, MergeAll(ts).value);
    forall b | b in f.blocks && b.term.Return?
      ensures Rank(lay.ValueType(b.term.returned)) <= Rank(MergeAll(ts).value)
    {
      assert ReturnsTyped(lay, b, lay.ValueType(b.term.returned));
    }
  }

  // ----- the rules

  /** The C type of a primitive type, by its number. */
  function Primitive(ty: TypeId): Option<CType> {
    if ty == 1 then Some(Bool)
    else if ty == 3 then Some(Str)
    else if ty in {5, 20} then Some(Float)
    else if ty in {4, 9, 10, 11, 12, 13, 14, 15, 16, 17, 18, 19, 21, 22, 23, 24} then Some(Int)
    else None
  }

  /** The values an operation takes its type from. */
  function TypedFrom(op: Op): set<ValueId> {
    match op
    case Binary(_, l, r) => {l, r}
    case Unary(_, v) => {v}
    case Copy(v) => {v}
    case StoreLocal(_, v) => {v}
    case StoreIndex(_, _, element) => {element}
    case ArcRetain(v) => {v}
    case GetField(aggregate, _) => {aggregate}
    case GetIndex(indexable, _) => {indexable}
    case Phi(entries) => set e | e in entries :: e.1
    case Cast(v, _) => {v}
    case _ => {}
  }

  function PhiTypes(lay: Layout, entries: seq<(BlockId, ValueId)>): seq<CType> {
    seq(|entries|, k requires 0 <= k < |entries| => lay.ValueType(entries[k].1))
  }

  /** Tests are booleans, a string absorbs what is added to it, and numbers give way to handles and floats. */
  predicate OperatorRule(op: BinOp, l: CType, r: CType, t: CType) {
    if op in {Eq, NotEq, Lt, LtEq, Gt, GtEq, And, Or} then t == Bool
    else if op == Add && Str in {l, r} then t == Str
    else
      var dominant := {Float, Tensor, DataFrame, OpaquePtr};
      if l in dominant || r in dominant
      then t in dominant && t in {l, r} && forall u | u in {l, r} && u in dominant :: Rank(u) <= Rank(t)
      else t == Int
  }

  /** What a call yields: nothing from printing, else what the runtime or the module says. */
  predicate CallRule(rt: Returns, callee: string, t: CType) {
    if callee in {"print", "println", "print_int", "print_str"} then t == Int
    else if Prototype(callee).Some? && callee != "str_concat" then t == Prototype(callee).value
    else t == if callee in rt then rt[callee] else Int
  }

  /** A local has one type throughout, except where structures come to be stored in it. */
  predicate LocalRule(lay: Layout, x: string, t: CType) {
    lay.LocalType(x).Some? && (Aggregate(lay.LocalType(x).value) || lay.LocalType(x).value == t)
  }

  /** The local an operation stores into or allocates. */
  function Defines(op: Op): set<string> {
    match op
    case StoreLocal(x, _) => {x}
    case Alloca(x, _) => {x}
    case ArcAlloc(x, _) => {x}
    case _ => {}
  }

  /** Parameters, and the locals stored or allocated in the text so far. */
  predicate Known(f: Function, prior: seq<Instr>, x: string) {
    x in ParamNames(f) || exists i | i in prior :: x in Defines(i.op)
  }

  /** The rule of each operation, given whether the local it loads is known. */
  predicate Rule(lay: Layout, rt: Returns, known: bool, i: Instr) {
    var t := lay.ValueType(i.result);
    match i.op
    case ConstInt(_) => t == Int
    case ConstFloat(_) => t == Float
    case ConstBool(_) => t == Bool
    case ConstString(_) => t == Str
    case Unit => t == Int
    case Binary(op, l, r) => OperatorRule(op, lay.ValueType(l), lay.ValueType(r), t)
    case Unary(op, v) => t == if op == Not then Bool else if op == Neg && lay.ValueType(v) == Float then Float else Int
    case Copy(v) => t == lay.ValueType(v)
    case StoreIndex(_, _, element) => t == lay.ValueType(element)
    case ArcRetain(v) => t == lay.ValueType(v)
    case GetField(aggregate, _) => t == lay.ValueType(aggregate)
    case GetIndex(indexable, _) => t == lay.ValueType(indexable)
    case Phi(entries) => if entries == [] then t == Int else Widest(PhiTypes(lay, entries), t)
    case Cast(v, ty) => t == OrElse(Primitive(ty), lay.ValueType(v))
    case Call(callee, _) => CallRule(rt, callee, t)
    case EffectPerform(effect, operation, _) => t == OrElse(EffectPrototype(effect, operation), Int)
    case EnumConstruct(_, _) => t == Enum
    case EnumPayload(_, _) => t == OrElse(Primitive(i.ty), Int)
    case StructConstruct(_, _) => t == Struct
    case LoadLocal(x) =>
      if known then LocalRule(lay, x, t) else lay.LocalType(x) == None ==> t == OrElse(Primitive(i.ty), Int)
    case StoreLocal(x, v) => LocalRule(lay, x, t) && (Aggregate(lay.ValueType(v)) ==> t == lay.ValueType(v))
    case Alloca(x, _) => LocalRule(lay, x, t)
    case ArcAlloc(x, _) => LocalRule(lay, x, t)
    case _ => t == Int
  }

  lemma PrimitiveTypes(ty: TypeId)
    ensures TypeOfId(ty) == Primitive(ty)
  {
  }

  lemma OperatorsByRule(op: BinOp, l: CType, r: CType)
    ensures OperatorRule(op, l, r, InferBinOp(op, l, r))
  {
    if op !in {Eq, NotEq, Lt, LtEq, Gt, GtEq, And, Or} && (op != Add || (l != Str && r != Str)) {
      Dominates(l, r);
    }
    hide Rank;
  }

  lemma Dominates(l: CType, r: CType)
    ensures var t := InferBinOp(Sub, l, r);
            var dominant := {Float, Tensor, DataFrame, OpaquePtr};
            if l in dominant || r in dominant
            then t in dominant && t in {l, r} && forall u | u in {l, r} && u in dominant :: Rank(u) <= Rank(t)
            else t == Int
  {
  }

  lemma CallsByRule(rt: Returns, callee: string)
    ensures CallRule(rt, callee, CallType(rt, callee))
  {
    if Prototype(callee).Some? && callee != "str_concat" {
      KnownRoutine(rt, callee);
    } else if BuiltinType(callee).Some? {
      BuiltinsHavePrototypes(callee);
    }
    hide Prototype, BuiltinType;
  }

  lemma EffectsByRule(effect: string, operation: string)
    ensures EffectType(effect, operation) == OrElse(EffectPrototype(effect, operation), Int)
  {
  }

  lemma PhisByRule(lay: Layout, entries: seq<(BlockId, ValueId)>)
    ensures if entries == [] then PhiType(lay, entries) == Int
            else Widest(PhiTypes(lay, entries), PhiType(lay, entries))
  {
    assert PhiTypes(lay, entries) == seq(|entries|, k requires 0 <= k < |entries| => lay.ValueType(entries[k].1));
    if entries != [] {
      MergeIsWidest(PhiTypes(lay, entries));
    }
    hide Widest, MergeAll;
  }

  /** Where a value is not defined again, its type no longer changes. */
  lemma {:induction false} ValueSettled(lay: Layout, rt: Returns, instrs: seq<Instr>, k: nat, v: ValueId)
    requires k <= |instrs| && forall j | k <= j < |instrs| :: instrs[j].result != v
    ensures InferInstrs(lay, rt, instrs).ValueType(v) == InferInstrs(lay, rt, instrs[..k]).ValueType(v)
    decreases |instrs|
  {
    hide InferResult;
    var n := |instrs| - 1;
    if k < |instrs| {
      ValueSettled(lay, rt, instrs[..n], k, v);
      assert instrs[..n][..k] == instrs[..k];
    } else {
      assert instrs[..k] == instrs;
    }
  }

  /** Locals once typed keep their types, but for structures. */
  lemma {:induction false} LocalsStay(lay: Layout, rt: Returns, instrs: seq<Instr>, k: nat, x: string)
    requires k <= |instrs| && x in InferInstrs(lay, rt, instrs[..k]).locals
    ensures LocalRule(InferInstrs(lay, rt, instrs), x, InferInstrs(lay, rt, instrs[..k]).locals[x])
    decreases |instrs|
  {
    var n := |instrs| - 1;
    if k < |instrs| {
      hide *;
      assert instrs[..n][..k] == instrs[..k] && instrs[..n + 1] == instrs;
      LocalsStay(lay, rt, instrs[..n], k, x);
      InferNext(lay, rt, instrs, n);
      LocalKept(InferInstrs(lay, rt, instrs[..n]), rt, instrs[n], x, InferInstrs(lay, rt, instrs[..k]).locals[x]);
    } else {
      assert instrs[..k] == instrs;
    }
  }

  lemma LocalKept(lay: Layout, rt: Returns, i: Instr, x: string, t: CType)
    requires LocalRule(lay, x, t)
    ensures LocalRule(InferInstr(lay, rt, i), x, t)
  {
    hide CallType, PhiType, InferBinOp, InferUnOp, EffectType, TypeOfId;
  }

  lemma {:induction false} BoundLocals(f: Function, lay: Layout, n: nat)
    requires n <= |f.params| == |lay.params|
    ensures forall k | 0 <= k < n :: f.params[k].name in BindParams(f, lay, n).locals
  {
    if n > 0 {
      BoundLocals(f, lay, n - 1);
    }
  }

  lemma {:induction false} KnownTyped(f: Function, rt: Returns, instrs: seq<Instr>, x: string)
    requires Known(f, instrs, x)
    ensures x in InferInstrs(Seeded(f), rt, instrs).locals
    decreases |instrs|
  {
    hide InferResult, Seed, AllInstrs;
    if instrs == [] {
      BoundLocals(f, Seed(f, InitialLayout(f), AllInstrs(f.blocks)), |f.params|);
    } else {
      var n := |instrs| - 1;
      assert instrs == instrs[..n] + [instrs[n]];
      if Known(f, instrs[..n], x) {
        hide Seeded;
        KnownTyped(f, rt, instrs[..n], x);
      }
    }
  }

  ghost predicate Follows(before: Layout, after: Layout, rt: Returns, i: Instr) {
    && after.ValueType(i.result) == InferResult(before, rt, i)
    && (forall v | v in TypedFrom(i.op) :: after.ValueType(v) == before.ValueType(v))
    && forall x | x in InferInstr(before, rt, i).locals :: LocalRule(after, x, InferInstr(before, rt, i).locals[x])
  }

  lemma RuleAtLocal(before: Layout, after: Layout, rt: Returns, known: bool, i: Instr)
    requires Follows(before, after, rt, i)
    requires i.op.LoadLocal? || i.op.StoreLocal? || i.op.Alloca? || i.op.ArcAlloc?
    requires known && i.op.LoadLocal? ==> i.op.local in before.locals
    ensures Rule(after, rt, known, i)
  {
    hide TypeOfId, Primitive;
    var locals := InferInstr(before, rt, i).locals;
    match i.op {
      case LoadLocal(x) =>
        PrimitiveTypes(i.ty);
        assert x in before.locals ==> x in locals;
      case StoreLocal(x, _) => assert x in locals;
      case Alloca(x, _) => assert x in locals;
      case ArcAlloc(x, _) => assert x in locals;
    }
  }

  lemma RuleAtInstr(before: Layout, after: Layout, rt: Returns, known: bool, i: Instr)
    requires Follows(before, after, rt, i)
    requires !(i.op.LoadLocal? || i.op.StoreLocal? || i.op.Alloca? || i.op.ArcAlloc?)
    ensures Rule(after, rt, known, i)
  {
    hide TypeOfId, Primitive, InferBinOp, OperatorRule, CallType, CallRule, PhiType, Widest, EffectType,
         EffectPrototype, InferInstr, LocalRule;
    match i.op {
      case Binary(op, l, r) => OperatorsByRule(op, before.ValueType(l), before.ValueType(r));
      case Call(callee, _) => CallsByRule(rt, callee);
      case Cast(_, ty) => PrimitiveTypes(ty);
      case EnumPayload(_, _) => PrimitiveTypes(i.ty);
      case EffectPerform(effect, operation, _) => EffectsByRule(effect, operation);
      case Phi(entries) =>
        PhisByRule(before, entries);
        forall k | 0 <= k < |entries|
          ensures after.ValueType(entries[k].1) == before.ValueType(entries[k].1)
        {
          assert entries[k] in entries;
        }
        assert PhiTypes(after, entries) == PhiTypes(before, entries);
      case _ =>
    }
  }

  /** In the finished layout every result obeys its rule, unless an operand is only defined further down. */
  lemma EveryResultTyped(f: Function, rt: Returns, k: nat)
    requires UniqueResults(f) && k < |AllInstrs(f.blocks)|
    requires forall j, v | k <= j < |AllInstrs(f.blocks)| && v in TypedFrom(AllInstrs(f.blocks)[k].op) ::
               AllInstrs(f.blocks)[j].result != v
    ensures var i := AllInstrs(f.blocks)[k];
            var known := i.op.LoadLocal? && Known(f, AllInstrs(f.blocks)[..k], i.op.local);
            Rule(Analysis(f, rt), rt, known, i)
  {
    var instrs := AllInstrs(f.blocks);
    var i := instrs[k];
    hide AllInstrs, InferInstrs, Seeded, Rule, InferResult, InferInstr, TypedFrom, ReturnTypes, MergeAll, Known,
         LocalRule;
    var before, after := InferInstrs(Seeded(f), rt, instrs[..k]), InferInstrs(Seeded(f), rt, instrs);
    ResultKeepsType(Seeded(f), rt, instrs, k);
    InferNext(Seeded(f), rt, instrs, k);
    forall v | v in TypedFrom(i.op)
      ensures after.ValueType(v) == before.ValueType(v)
    {
      ValueSettled(Seeded(f), rt, instrs, k, v);
    }
    forall x | x in InferInstr(before, rt, i).locals
      ensures LocalRule(after, x, InferInstr(before, rt, i).locals[x])
    {
      LocalsStay(Seeded(f), rt, instrs, k + 1, x);
    }
    var known := i.op.LoadLocal? && Known(f, instrs[..k], i.op.local);
    if known {
      KnownTyped(f, rt, instrs[..k], i.op.local);
    }
    if i.op.LoadLocal? || i.op.StoreLocal? || i.op.Alloca? || i.op.ArcAlloc? {
      RuleAtLocal(before, after, rt, known, i);
    } else {
      RuleAtInstr(before, after, rt, known, i);
    }
    RuleFollows(f, rt, known, i);
  }

  lemma InferNext(lay: Layout, rt: Returns, instrs: seq<Instr>, k: nat)
    requires k < |instrs|
    ensures InferInstrs(lay, rt, instrs[..k + 1]) == InferInstr(InferInstrs(lay, rt, instrs[..k]), rt, instrs[k])
  {
    assert instrs[..k + 1][..k] == instrs[..k];
    hide InferInstr;
  }

  /** The rules look at values and locals only. */
  lemma RuleFollows(f: Function, rt: Returns, known: bool, i: Instr)
    requires Rule(InferInstrs(Seeded(f), rt, AllInstrs(f.blocks)), rt, known, i)
    ensures Rule(Analysis(f, rt), rt, known, i)
  {
    hide AllInstrs, InferInstrs, Seeded, ReturnTypes, MergeAll, OperatorRule, CallRule, Widest, Primitive,
         EffectPrototype;
    match i.op {
      case Phi(entries) =>
        assert PhiTypes(Analysis(f, rt), entries)
            == PhiTypes(InferInstrs(Seeded(f), rt, AllInstrs(f.blocks)), entries);
      case _ =>
    }
  }
}
