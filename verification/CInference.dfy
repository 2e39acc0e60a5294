/**
 Whole-module type inference: two passes over each function, repeated over the module until no
 function's return type changes.
 */
module CInference {
  import opened CTypes
  import opened Mir

  type Returns = map<string, CType>

  function AllInstrs(blocks: seq<Block>): seq<Instr> {
    if blocks == [] then [] else
    var n := |blocks| - 1;
    AllInstrs(blocks[..n]) + blocks[n].instrs
  }

  // ----- first pass: aggregates

  /** Names of the locals loaded into `aggregate` anywhere in the function. */
  function LoadedInto(instrs: seq<Instr>, aggregate: ValueId): set<string> {
    set i | i in instrs && i.result == aggregate && i.op.LoadLocal? :: i.op.local
  }

  function MarkNamed(f: Function, ts: seq<CType>, names: set<string>, mark: CType): (r: seq<CType>)
    requires |ts| == |f.params|
    ensures |r| == |ts|
  {
    seq(|ts|, k requires 0 <= k < |ts| => if f.params[k].name in names then mark else ts[k])
  }

  function MarkBound(f: Function, ts: seq<CType>, value: ValueId, mark: CType): (r: seq<CType>)
    requires |ts| == |f.params|
    ensures |r| == |ts|
  {
    seq(|ts|, k requires 0 <= k < |ts| => if f.params[k].value == value then mark else ts[k])
  }

  /** An operand of a field access or of a tag or payload read is an aggregate, and so are its sources. */
  function MarkAggregate(f: Function, lay: Layout, aggregate: ValueId, mark: CType): Layout
    requires |lay.params| == |f.params|
  {
    var names := LoadedInto(AllInstrs(f.blocks), aggregate);
    lay.(values := lay.values[aggregate := mark],
         locals := lay.locals + map name | name in names :: mark,
         params := MarkBound(f, MarkNamed(f, lay.params, names, mark), aggregate, mark))
  }

  function SeedStore(lay: Layout, name: string, value: ValueId): Layout {
    var lay1 := if value in lay.values then lay.(locals := lay.locals[name := lay.values[value]]) else lay;
    if value !in lay.valueStructs then lay1
    else lay1.(localStructs := lay1.localStructs[name := lay.valueStructs[value]])
  }

  function SeedLoad(lay: Layout, result: ValueId, name: string): Layout {
    if name in lay.localStructs then
      lay.(valueStructs := lay.valueStructs[result := lay.localStructs[name]], values := lay.values[result := Struct])
    else lay
  }

  function SeedAlloc(lay: Layout, result: ValueId, name: string): Layout {
    lay.(localStructs := lay.localStructs[name := name], valueStructs := lay.valueStructs[result := name])
  }

  function SeedInstr(f: Function, lay: Layout, i: Instr): (r: Layout)
    requires |lay.params| == |f.params|
    ensures |r.params| == |f.params|
  {
    match i.op
    case GetField(aggregate, _) => MarkAggregate(f, lay, aggregate, Struct)
    case EnumTag(tagged) => MarkAggregate(f, lay, tagged, Enum)
    case EnumPayload(carrier, _) => MarkAggregate(f, lay, carrier, Enum)
    case StructConstruct(name, _) =>
      lay.(values := lay.values[i.result := Struct], valueStructs := lay.valueStructs[i.result := name])
    case Alloca(name, _) => SeedAlloc(lay, i.result, name)
    case ArcAlloc(name, _) => SeedAlloc(lay, i.result, name)
    case EnumConstruct(_, _) => lay.(values := lay.values[i.result := Enum])
    case StoreLocal(name, value) => SeedStore(lay, name, value)
    case LoadLocal(name) => SeedLoad(lay, i.result, name)
    case Copy(src) =>
      if src in lay.valueStructs then lay.(valueStructs := lay.valueStructs[i.result := lay.valueStructs[src]]) else lay
    case _ => lay
  }

  function Seed(f: Function, lay: Layout, instrs: seq<Instr>): (r: Layout)
    requires |lay.params| == |f.params|
    ensures |r.params| == |f.params|
  {
    if instrs == [] then lay else
    var n := |instrs| - 1;
    SeedInstr(f, Seed(f, lay, instrs[..n]), instrs[n])
  }

  function InitialLayout(f: Function): (r: Layout)
    ensures |r.params| == |f.params|
  {
    Layout(seq(|f.params|, k requires 0 <= k < |f.params| => OrElse(TypeOfId(f.params[k].ty), Int)),
           OrElse(TypeOfId(f.returnTy), Int), map[], map[], map[], map[])
  }

  /** Parameters enter the maps last, so they override what the first pass found for them. */
  function BindParams(f: Function, lay: Layout, n: nat): Layout
    requires n <= |f.params| == |lay.params|
    decreases n
  {
    if n == 0 then lay else
    var lay' := BindParams(f, lay, n - 1);
    var t := lay.params[n - 1];
    lay'.(values := lay'.values[f.params[n - 1].value := t], locals := lay'.locals[f.params[n - 1].name := t])
  }

  function Seeded(f: Function): Layout {
    BindParams(f, Seed(f, InitialLayout(f), AllInstrs(f.blocks)), |f.params|)
  }

  // ----- second pass: every result

  function CallType(rt: Returns, callee: string): CType {
    if IsPrintBuiltin(callee) then Int
    else if BuiltinType(callee).Some? then BuiltinType(callee).value
    else if callee in rt then rt[callee]
    else Int
  }

  function StoredType(lay: Layout, i: Instr, name: string, value: ValueId): CType {
    var vt := lay.ValueType(value);
    if vt == Enum || vt == Struct then vt
    else OrElse(lay.LocalType(name), OrElse(TypeOfId(i.ty), vt))
  }

  function SlotType(lay: Layout, name: string, ty: TypeId): CType {
    OrElse(lay.LocalType(name), OrElse(TypeOfId(ty), Int))
  }

  function PhiType(lay: Layout, entries: seq<(BlockId, ValueId)>): CType {
    OrElse(MergeAll(seq(|entries|, k requires 0 <= k < |entries| => lay.ValueType(entries[k].1))), Int)
  }

  function InferResult(lay: Layout, rt: Returns, i: Instr): CType {
    match i.op
    case ConstInt(_) => Int
    case ConstFloat(_) => Float
    case ConstBool(_) => Bool
    case ConstString(_) => Str
    case Unit => Int
    case Copy(src) => lay.ValueType(src)
    case Binary(op, l, r) => InferBinOp(op, lay.ValueType(l), lay.ValueType(r))
    case Unary(op, v) => InferUnOp(op, lay.ValueType(v))
    case Call(callee, _) => CallType(rt, callee)
    case LoadLocal(name) => OrElse(lay.LocalType(name), OrElse(TypeOfId(i.ty), Int))
    case StoreLocal(name, value) => StoredType(lay, i, name, value)
    case StoreIndex(_, _, element) => lay.ValueType(element)
    case Alloca(name, ty) => SlotType(lay, name, ty)
    case ArcAlloc(name, ty) => SlotType(lay, name, ty)
    case ArcRetain(v) => lay.ValueType(v)
    case GetField(aggregate, _) => lay.ValueType(aggregate)
    case GetIndex(indexable, _) => lay.ValueType(indexable)
    case Phi(entries) => PhiType(lay, entries)
    case Cast(v, ty) => OrElse(TypeOfId(ty), lay.ValueType(v))
    case EffectPerform(effect, operation, _) => EffectType(effect, operation)
    case EnumConstruct(_, _) => Enum
    case EnumPayload(_, _) => OrElse(TypeOfId(i.ty), Int)
    case StructConstruct(_, _) => Struct
    case ArcRelease(_) => Int
    case StackDrop(_) => Int
    case EnumTag(_) => Int
    case Placeholder => Int
  }

  /** Stores and allocations also fix the type of the local they name. */
  function InferInstr(lay: Layout, rt: Returns, i: Instr): Layout {
    var t := InferResult(lay, rt, i);
    var locals' :=
      match i.op
      case StoreLocal(name, _) => lay.locals[name := t]
      case Alloca(name, _) => lay.locals[name := t]
      case ArcAlloc(name, _) => lay.locals[name := t]
      case _ => lay.locals;
    lay.(values := lay.values[i.result := t], locals := locals')
  }

  function InferInstrs(lay: Layout, rt: Returns, instrs: seq<Instr>): Layout {
    if instrs == [] then lay else
    var n := |instrs| - 1;
    InferInstr(InferInstrs(lay, rt, instrs[..n]), rt, instrs[n])
  }

  function ReturnTypes(lay: Layout, blocks: seq<Block>): seq<CType> {
    if blocks == [] then [] else
    var n := |blocks| - 1;
    ReturnTypes(lay, blocks[..n]) +
    if blocks[n].term.Return? then [lay.ValueType(blocks[n].term.returned)] else []
  }

  function Analysis(f: Function, rt: Returns): Layout {
    var lay := InferInstrs(Seeded(f), rt, AllInstrs(f.blocks));
    lay.(returnTy := OrElse(MergeAll(ReturnTypes(lay, f.blocks)), lay.returnTy))
  }

  // ----- the loop over the module

  function DeclaredReturns(fs: seq<Function>): Returns {
    if fs == [] then map[] else
    var n := |fs| - 1;
    DeclaredReturns(fs[..n])[fs[n].name := OrElse(TypeOfId(fs[n].returnTy), Int)]
  }

  /** The return types in force when a pass that began with `rt` has analysed `n` functions. */
  function Within(fs: seq<Function>, rt: Returns, n: nat): Returns
    requires n <= |fs|
  {
    if n == 0 then rt else
    var rt' := Within(fs, rt, n - 1);
    rt'[fs[n - 1].name := Analysis(fs[n - 1], rt').returnTy]
  }

  /** The return types after `k` whole passes. */
  function Passes(fs: seq<Function>, k: nat): Returns {
    if k == 0 then DeclaredReturns(fs) else Within(fs, Passes(fs, k - 1), |fs|)
  }

  /** Pass `k`, counted from zero, changes no entry: the loop stops after it. */
  ghost predicate Unchanged(fs: seq<Function>, rt: Returns, n: nat)
    requires n <= |fs|
  {
    forall j | 0 <= j < n ::
      && fs[j].name in Within(fs, rt, j)
      && Within(fs, rt, j)[fs[j].name] == Analysis(fs[j], Within(fs, rt, j)).returnTy
  }

  ghost predicate QuietPass(fs: seq<Function>, k: nat) {
    Unchanged(fs, Passes(fs, k), |fs|)
  }

  // ----- consistency at the fixpoint

  predicate UniqueNames(fs: seq<Function>) {
    forall i, j | 0 <= i < j < |fs| :: fs[i].name != fs[j].name
  }

  predicate UniqueResults(f: Function) {
    var instrs := AllInstrs(f.blocks);
    forall i, j | 0 <= i < j < |instrs| :: instrs[i].result != instrs[j].result
  }

  lemma {:induction false} QuietStays(fs: seq<Function>, rt: Returns, n: nat)
    requires n <= |fs| && Unchanged(fs, rt, n)
    ensures Within(fs, rt, n) == rt
  {
    hide Analysis;
    if n > 0 {
      QuietStays(fs, rt, n - 1);
      assert Within(fs, rt, n - 1)[fs[n - 1].name] == Analysis(fs[n - 1], Within(fs, rt, n - 1)).returnTy;
    }
  }

  lemma {:induction false} ResultKeepsType(lay: Layout, rt: Returns, instrs: seq<Instr>, k: nat)
    requires k < |instrs|
    requires forall j | k < j < |instrs| :: instrs[j].result != instrs[k].result
    ensures InferInstrs(lay, rt, instrs).ValueType(instrs[k].result)
            == InferResult(InferInstrs(lay, rt, instrs[..k]), rt, instrs[k])
    decreases |instrs|
  {
    hide InferResult;
    var n := |instrs| - 1;
    if k < n {
      ResultKeepsType(lay, rt, instrs[..n], k);
      assert instrs[..n][..k] == instrs[..k];
    }
  }

  /** The type the final layout gives the result of each call. */
  lemma CallResultType(f: Function, rt: Returns, k: nat)
    requires UniqueResults(f) && k < |AllInstrs(f.blocks)| && AllInstrs(f.blocks)[k].op.Call?
    ensures var i := AllInstrs(f.blocks)[k];
            Analysis(f, rt).ValueType(i.result) == CallType(rt, i.op.callee)
  {
    hide InferInstrs, Seeded;
    ResultKeepsType(Seeded(f), rt, AllInstrs(f.blocks), k);
  }

  /** Layouts produced by one quiet pass. */
  ghost predicate Settled(fs: seq<Function>, rt: Returns, layouts: map<string, Layout>) {
    && Unchanged(fs, rt, |fs|)
    && forall f | f in fs :: f.name in layouts && layouts[f.name] == Analysis(f, rt) && f.name in rt
                             && rt[f.name] == layouts[f.name].returnTy
  }

  /**
   When the loop has stopped, every call to a function of the module has exactly the return type of
   the callee's final layout.
   */
  lemma CallsAgreeWithCallees(fs: seq<Function>, rt: Returns, layouts: map<string, Layout>, f: Function, g: Function,
                              k: nat)
    requires Settled(fs, rt, layouts)
    requires f in fs && g in fs && UniqueResults(f)
    requires k < |AllInstrs(f.blocks)|
    requires var op := AllInstrs(f.blocks)[k].op; op.Call? && op.callee == g.name && !IsBuiltin(g.name)
    ensures layouts[f.name].ValueType(AllInstrs(f.blocks)[k].result) == layouts[g.name].returnTy
  {
    CallResultType(f, rt, k);
  }

  // ----- termination without recursion

  /** The functions whose return types an analysis consults. */
  function Callees(instrs: seq<Instr>): set<string> {
    set i | i in instrs && i.op.Call? && !IsBuiltin(i.op.callee) :: i.op.callee
  }

  ghost predicate AgreeOn(names: set<string>, r1: Returns, r2: Returns) {
    forall n | n in names :: (n in r1 <==> n in r2) && (n in r1 ==> r1[n] == r2[n])
  }

  lemma ResultDependsOnCallee(lay: Layout, r1: Returns, r2: Returns, i: Instr)
    requires AgreeOn(Callees([i]), r1, r2)
    ensures InferResult(lay, r1, i) == InferResult(lay, r2, i)
  {
    if i.op.Call? && !IsBuiltin(i.op.callee) {
      assert i in [i];
      assert i.op.callee in Callees([i]);
    }
  }

  lemma {:induction false} InferDependsOnCallees(lay: Layout, r1: Returns, r2: Returns, instrs: seq<Instr>)
    requires AgreeOn(Callees(instrs), r1, r2)
    ensures InferInstrs(lay, r1, instrs) == InferInstrs(lay, r2, instrs)
    decreases |instrs|
  {
    hide InferResult;
    if instrs != [] {
      var n := |instrs| - 1;
      assert Callees(instrs[..n]) <= Callees(instrs);
      assert Callees([instrs[n]]) <= Callees(instrs);
      InferDependsOnCallees(lay, r1, r2, instrs[..n]);
      ResultDependsOnCallee(InferInstrs(lay, r1, instrs[..n]), r1, r2, instrs[n]);
    }
  }

  lemma AnalysisDependsOnCallees(f: Function, r1: Returns, r2: Returns)
    requires AgreeOn(Callees(AllInstrs(f.blocks)), r1, r2)
    ensures Analysis(f, r1) == Analysis(f, r2)
  {
    InferDependsOnCallees(Seeded(f), r1, r2, AllInstrs(f.blocks));
  }

  /** A rank that falls along every call inside the module: the call graph has no cycle. */
  ghost predicate Ranked(fs: seq<Function>, rank: string -> nat) {
    forall f, g | f in fs && g in fs && g.name in Callees(AllInstrs(f.blocks)) :: rank(g.name) < rank(f.name)
  }

  predicate Named(fs: seq<Function>, name: string) {
    exists f | f in fs :: f.name == name
  }

  lemma {:induction false} DeclaredNames(fs: seq<Function>)
    ensures forall n :: n in DeclaredReturns(fs) <==> Named(fs, n)
  {
    if fs != [] {
      var k := |fs| - 1;
      DeclaredNames(fs[..k]);
      assert fs[k] in fs;
      forall n
        ensures Named(fs, n) <==> Named(fs[..k], n) || n == fs[k].name
      {
        if Named(fs, n) {
          var f :| f in fs && f.name == n;
          assert f in fs[..k] || f == fs[k];
        }
      }
    }
  }

  lemma {:induction false} WithinNames(fs: seq<Function>, rt: Returns, n: nat)
    requires n <= |fs| && forall m :: m in rt <==> Named(fs, m)
    ensures forall m :: m in Within(fs, rt, n) <==> Named(fs, m)
  {
    hide Analysis;
    if n > 0 {
      WithinNames(fs, rt, n - 1);
      assert Named(fs, fs[n - 1].name);
    }
  }

  /** The table always has exactly the module's functions as keys. */
  lemma {:induction false} PassNames(fs: seq<Function>, k: nat, n: nat)
    requires n <= |fs|
    ensures forall m :: m in Within(fs, Passes(fs, k), n) <==> Named(fs, m)
    decreases k
  {
    if k == 0 {
      DeclaredNames(fs);
    } else {
      PassNames(fs, k - 1, |fs|);
    }
    WithinNames(fs, Passes(fs, k), n);
  }

  lemma PassStep(fs: seq<Function>, k: nat)
    requires 0 < k
    ensures Passes(fs, k) == Within(fs, Passes(fs, k - 1), |fs|)
  {
  }

  lemma FunctionIsKey(fs: seq<Function>, k: nat, j: nat)
    requires j < |fs|
    ensures fs[j].name in Passes(fs, k)
  {
    PassNames(fs, k, 0);
    assert Named(fs, fs[j].name);
  }

  /** Inside one pass, function `j`'s entry changes only when its turn comes. */
  lemma {:induction false} EntryWithin(fs: seq<Function>, rt: Returns, j: nat, n: nat)
    requires UniqueNames(fs) && j < |fs| && n <= |fs| && fs[j].name in rt
    ensures fs[j].name in Within(fs, rt, n)
    ensures n <= j ==> Within(fs, rt, n)[fs[j].name] == rt[fs[j].name]
    ensures n > j ==> Within(fs, rt, n)[fs[j].name] == Analysis(fs[j], Within(fs, rt, j)).returnTy
    decreases n
  {
    hide Analysis;
    if n > 0 {
      EntryWithin(fs, rt, j, n - 1);
    }
  }

  /** A function's final type: what it has once the pass numbered by its rank is over. */
  ghost function FinalType(fs: seq<Function>, rank: string -> nat, j: nat): CType
    requires j < |fs|
  {
    PassNames(fs, rank(fs[j].name), j);
    Analysis(fs[j], Within(fs, Passes(fs, rank(fs[j].name)), j)).returnTy
  }

  /** From the pass after its rank on, a function's entry never changes again. */
  lemma {:induction false} EntrySettles(fs: seq<Function>, rank: string -> nat, j: nat, k: nat, n: nat)
    requires UniqueNames(fs) && Ranked(fs, rank) && j < |fs| && n <= |fs|
    requires k > rank(fs[j].name)
    ensures fs[j].name in Within(fs, Passes(fs, k), n)
    ensures Within(fs, Passes(fs, k), n)[fs[j].name] == FinalType(fs, rank, j)
    decreases rank(fs[j].name), 1
  {
    hide *;
    PassStep(fs, k);
    FunctionIsKey(fs, k - 1, j);
    EntryWithin(fs, Passes(fs, k - 1), j, |fs|);
    AnalysisSettles(fs, rank, j, k - 1);
    FunctionIsKey(fs, k, j);
    EntryWithin(fs, Passes(fs, k), j, n);
    AnalysisSettles(fs, rank, j, k);
  }

  /** From the pass numbered by its rank on, a function's analysis always gives the same type. */
  lemma {:induction false} AnalysisSettles(fs: seq<Function>, rank: string -> nat, j: nat, k: nat)
    requires UniqueNames(fs) && Ranked(fs, rank) && j < |fs|
    requires k >= rank(fs[j].name)
    ensures Analysis(fs[j], Within(fs, Passes(fs, k), j)).returnTy == FinalType(fs, rank, j)
    decreases rank(fs[j].name), 0
  {
    hide Analysis;
    var f := fs[j];
    var r := rank(f.name);
    var later, first := Within(fs, Passes(fs, k), j), Within(fs, Passes(fs, r), j);
    PassNames(fs, k, j);
    PassNames(fs, r, j);
    forall n | n in Callees(AllInstrs(f.blocks)) && n in later
      ensures later[n] == first[n]
    {
      var g :| g in fs && g.name == n;
      var i :| 0 <= i < |fs| && fs[i] == g;
      EntrySettles(fs, rank, i, k, j);
      EntrySettles(fs, rank, i, r, j);
    }
    assert AgreeOn(Callees(AllInstrs(f.blocks)), later, first);
    AnalysisDependsOnCallees(f, later, first);
  }

  /** No chain of calls inside the module is longer than `h`. */
  ghost predicate CallHeightAtMost(fs: seq<Function>, h: nat) {
    exists rank: string -> nat :: Ranked(fs, rank) && forall f | f in fs :: rank(f.name) <= h
  }

  /** With call height `h`, pass `h + 1` (the one after `h + 1` others) changes nothing. */
  lemma AcyclicStops(fs: seq<Function>, h: nat)
    requires UniqueNames(fs) && CallHeightAtMost(fs, h)
    ensures QuietPass(fs, h + 1)
  {
    hide Analysis;
    var rank: string -> nat :| Ranked(fs, rank) && forall f | f in fs :: rank(f.name) <= h;
    forall j | 0 <= j < |fs|
      ensures fs[j].name in Within(fs, Passes(fs, h + 1), j)
      ensures Within(fs, Passes(fs, h + 1), j)[fs[j].name]
              == Analysis(fs[j], Within(fs, Passes(fs, h + 1), j)).returnTy
    {
      assert fs[j] in fs;
      EntrySettles(fs, rank, j, h + 1, j);
      AnalysisSettles(fs, rank, j, h + 1);
    }
  }

  // ----- a module on which the loop never stops

  /** fn name() -> ty { return next(); } */
  function Forwarder(name: string, next: string, ty: TypeId): Function {
    Function(name, [], ty, [Block(0, [Instr(0, ty, Call(next, []))], Return(0))], 0)
  }

  const BOOL: TypeId := 1
  const INT: TypeId := 11

  /** Three functions that return one another's results, with different declared types. */
  const RING := [Forwarder("a", "b", INT), Forwarder("b", "c", BOOL), Forwarder("c", "a", INT)]

  lemma ForwarderType(name: string, next: string, ty: TypeId, rt: Returns)
    requires !IsBuiltin(next) && next in rt
    ensures Analysis(Forwarder(name, next, ty), rt).returnTy == rt[next]
  {
    var f := Forwarder(name, next, ty);
    var instrs := f.blocks[0].instrs;
    assert f.blocks[..0] == [] && instrs[..0] == [];
    assert AllInstrs(f.blocks) == AllInstrs([]) + instrs == instrs;
    var lay := InferInstrs(Seeded(f), rt, instrs);
    assert lay.ValueType(0) == rt[next];
    assert ReturnTypes(lay, f.blocks) == ReturnTypes(lay, []) + [rt[next]] == [rt[next]];
  }

  function RingTypes(k: nat): Returns {
    if k % 2 == 0 then map["a" := Int, "b" := Bool, "c" := Int] else map["a" := Bool, "b" := Int, "c" := Bool]
  }

  lemma RingPass(k: nat, n: nat)
    requires n <= 3
    ensures Within(RING, RingTypes(k), n)
            == RingTypes(k)["a" := if n > 0 then RingTypes(k)["b"] else RingTypes(k)["a"]]
                           ["b" := if n > 1 then RingTypes(k)["c"] else RingTypes(k)["b"]]
                           ["c" := if n > 2 then RingTypes(k)["b"] else RingTypes(k)["c"]]
  {
    hide Analysis;
    if n > 0 {
      RingPass(k, n - 1);
      var rt := Within(RING, RingTypes(k), n - 1);
      if n == 1 {
        ForwarderType("a", "b", INT, rt);
      } else if n == 2 {
        ForwarderType("b", "c", BOOL, rt);
      } else {
        ForwarderType("c", "a", INT, rt);
      }
    }
  }

  lemma {:induction false} RingAlternates(k: nat)
    ensures Passes(RING, k) == RingTypes(k)
  {
    hide Analysis, Within;
    if k == 0 {
      assert RING[..2][..1][..0] == [] && RING[..2][..1] == [RING[0]] && RING[..2] == [RING[0], RING[1]];
      assert DeclaredReturns(RING[..2][..1]) == map["a" := Int];
      assert DeclaredReturns(RING[..2]) == map["a" := Int, "b" := Bool];
    } else {
      RingAlternates(k - 1);
      RingPass(k - 1, 3);
    }
  }

  /** However many passes are made, the next one changes something: the loop runs forever. */
  lemma RingNeverQuiet(k: nat)
    ensures !QuietPass(RING, k)
  {
    RingAlternates(k);
    var rt := Passes(RING, k);
    RingPass(k, 0);
    ForwarderType("a", "b", INT, rt);
    assert Within(RING, rt, 0)[RING[0].name] != Analysis(RING[0], Within(RING, rt, 0)).returnTy;
  }
}
