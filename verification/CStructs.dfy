/**
 Where structure types come from in a function that makes no structures: copied locals and calls. From
 there the second pass carries them along copies, loads and stores, in the order of the text.
 */
module CStructs {
  import opened CCopies
  import opened CInference
  import opened CLegal
  import opened CTypes
  import opened Mir
  import opened Options

  // ----- the second pass, as sets

  /** Values and locals that are structures, as far as the text goes. */
  datatype Flow = Flow(values: set<ValueId>, locals: set<string>)
  {
    function With(v: ValueId, struct: bool): Flow {
      if struct then Flow(values + {v}, locals) else this
    }
  }

  function FlowBy(rt: Returns, m: Flow, i: Instr): Flow {
    match i.op
    case Copy(v) => m.With(i.result, v in m.values)
    case LoadLocal(x) => m.With(i.result, x in m.locals)
    case Alloca(x, _) => m.With(i.result, x in m.locals)
    case StoreLocal(x, v) =>
      if v in m.values || x in m.locals then Flow(m.values + {i.result}, m.locals + {x}) else m
    case Call(callee, _) => m.With(i.result, CallType(rt, callee) == Struct)
    case _ => m
  }

  function FlowOf(rt: Returns, start: set<string>, instrs: seq<Instr>): Flow {
    if instrs == [] then Flow({}, start) else
    FlowBy(rt, FlowOf(rt, start, instrs[..|instrs| - 1]), instrs[|instrs| - 1])
  }

  /** Locals that the first pass already takes for structures. */
  function Sources(f: Function): set<string> {
    Copied(AllInstrs(f.blocks)) - ParamNames(f)
  }

  function Structs(f: Function, rt: Returns): Flow {
    FlowOf(rt, Sources(f), AllInstrs(f.blocks))
  }

  lemma FlowNothing(rt: Returns, start: set<string>, instrs: seq<Instr>)
    ensures FlowOf(rt, start, instrs[..0]) == Flow({}, start)
  {
  }

  lemma FlowPrefix(rt: Returns, start: set<string>, instrs: seq<Instr>, k: nat)
    requires k < |instrs|
    ensures FlowOf(rt, start, instrs[..k + 1]) == FlowBy(rt, FlowOf(rt, start, instrs[..k]), instrs[k])
  {
    hide FlowBy;
    assert instrs[..k + 1][..k] == instrs[..k];
  }

  lemma {:induction false} FlowDefined(rt: Returns, start: set<string>, instrs: seq<Instr>, v: ValueId)
    requires v in FlowOf(rt, start, instrs).values
    ensures DefinedIn(instrs, v)
  {
    var n := |instrs| - 1;
    if v in FlowOf(rt, start, instrs[..n]).values {
      FlowDefined(rt, start, instrs[..n], v);
      DefinedFurther(instrs[..n], instrs, v);
    } else {
      assert instrs[n] in instrs;
    }
  }

  lemma FlowByGrows(rt: Returns, m: Flow, i: Instr)
    ensures m.values <= FlowBy(rt, m, i).values <= m.values + {i.result}
    ensures m.locals <= FlowBy(rt, m, i).locals
  {
  }

  lemma {:induction false} FlowGrows(rt: Returns, start: set<string>, instrs: seq<Instr>, j: nat, k: nat)
    requires j <= k <= |instrs|
    ensures FlowOf(rt, start, instrs[..j]).values <= FlowOf(rt, start, instrs[..k]).values
    ensures FlowOf(rt, start, instrs[..j]).locals <= FlowOf(rt, start, instrs[..k]).locals
    decreases k
  {
    if j < k {
      FlowGrows(rt, start, instrs, j, k - 1);
      FlowPrefix(rt, start, instrs, k - 1);
      FlowByGrows(rt, FlowOf(rt, start, instrs[..k - 1]), instrs[k - 1]);
      hide FlowBy, FlowOf;
    }
  }

  /** What is stored, loaded or allocated last decides about a value for good. */
  lemma {:induction false} FlowSettled(rt: Returns, start: set<string>, instrs: seq<Instr>, j: nat, k: nat)
    requires j < k <= |instrs|
    requires forall h | j < h < k :: instrs[h].result != instrs[j].result
    ensures instrs[j].result in FlowOf(rt, start, instrs[..k]).values
            <==> instrs[j].result in FlowBy(rt, FlowOf(rt, start, instrs[..j]), instrs[j]).values
    decreases k
  {
    FlowPrefix(rt, start, instrs, k - 1);
    if j < k - 1 {
      FlowSettled(rt, start, instrs, j, k - 1);
      FlowByGrows(rt, FlowOf(rt, start, instrs[..k - 1]), instrs[k - 1]);
    }
    hide FlowBy, FlowOf;
  }

  // ----- the types follow

  ghost predicate NoEnums(rt: Returns) {
    forall g | g in rt :: rt[g] != Enum
  }

  ghost predicate NoEnum(lay: Layout) {
    (forall v | v in lay.values :: lay.values[v] != Enum) && forall x | x in lay.locals :: lay.locals[x] != Enum
  }

  ghost predicate LocalsTracked(m: Flow, lay: Layout) {
    forall x :: lay.LocalType(x) == Some(Struct) <==> x in m.locals
  }

  /** After `k` instructions of the second pass; values loaded further down may still have their old type. */
  ghost predicate Tracked(all: seq<Instr>, k: nat, m: Flow, lay: Layout) {
    && NoEnum(lay) && LocalsTracked(m, lay)
    && (forall v | v in m.values :: lay.ValueType(v) == Struct)
    && (forall v | lay.ValueType(v) == Struct :: v in m.values || LoadedLater(all, k, v))
  }

  lemma ResultTracked(rt: Returns, m: Flow, lay: Layout, i: Instr)
    requires SimpleOp(i.op) && NoEnums(rt) && NoEnum(lay) && LocalsTracked(m, lay)
    requires forall v | v in Operands(i.op) :: lay.ValueType(v) == Struct <==> v in m.values
    requires i.result !in m.values
    ensures InferResult(lay, rt, i) == Struct <==> i.result in FlowBy(rt, m, i).values
    ensures InferResult(lay, rt, i) != Enum
    ensures i.op.StoreLocal? || i.op.Alloca? ==>
              var x := if i.op.StoreLocal? then i.op.target else i.op.slot;
              InferResult(lay, rt, i) == Struct <==> x in FlowBy(rt, m, i).locals
  {
    hide IsPrintBuiltin;
    if i.op.Copy? {
      assert i.op.src in Operands(i.op);
    } else if i.op.StoreLocal? {
      assert i.op.value in Operands(i.op);
    }
  }

  lemma LocalsStep(rt: Returns, m: Flow, lay: Layout, i: Instr)
    requires SimpleOp(i.op) && LocalsTracked(m, lay)
    requires i.op.StoreLocal? || i.op.Alloca? ==>
               var x := if i.op.StoreLocal? then i.op.target else i.op.slot;
               InferResult(lay, rt, i) == Struct <==> x in FlowBy(rt, m, i).locals
    ensures LocalsTracked(FlowBy(rt, m, i), InferInstr(lay, rt, i))
  {
    hide InferResult;
  }

  lemma TrackedStep(f: Function, rt: Returns, k: nat, m: Flow, lay: Layout)
    requires Compilable(f) && k < |AllInstrs(f.blocks)| && Tracked(AllInstrs(f.blocks), k, m, lay)
    requires SimpleOp(AllInstrs(f.blocks)[k].op) && NoEnums(rt)
    requires AllInstrs(f.blocks)[k].result !in m.values
    ensures var i := AllInstrs(f.blocks)[k];
            Tracked(AllInstrs(f.blocks), k + 1, FlowBy(rt, m, i), InferInstr(lay, rt, i))
  {
    var all := AllInstrs(f.blocks);
    var i := all[k];
    forall v | v in Operands(i.op)
      ensures lay.ValueType(v) == Struct <==> v in m.values
    {
      OperandsNotLater(f, k, v);
    }
    ResultTracked(rt, m, lay, i);
    LocalsStep(rt, m, lay, i);
    FlowByGrows(rt, m, i);
    ValuesStep(all, rt, k, m, lay);
    hide InferInstr, InferResult, FlowBy, AllInstrs, Compilable, Operands, SimpleOp, LocalsTracked, NoEnums,
         LoadedLater;
  }

  lemma ValuesStep(all: seq<Instr>, rt: Returns, k: nat, m: Flow, lay: Layout)
    requires k < |all| && Tracked(all, k, m, lay)
    requires InferResult(lay, rt, all[k]) == Struct <==> all[k].result in FlowBy(rt, m, all[k]).values
    requires InferResult(lay, rt, all[k]) != Enum
    requires m.values <= FlowBy(rt, m, all[k]).values <= m.values + {all[k].result}
    requires all[k].result !in m.values
    ensures var out := InferInstr(lay, rt, all[k]);
            && NoEnum(out)
            && (forall v | v in FlowBy(rt, m, all[k]).values :: out.ValueType(v) == Struct)
            && (forall v | out.ValueType(v) == Struct ::
                  v in FlowBy(rt, m, all[k]).values || LoadedLater(all, k + 1, v))
  {
    hide InferResult, FlowBy, LocalsTracked;
    var i := all[k];
    var out := InferInstr(lay, rt, i);
    forall v | out.ValueType(v) == Struct
      ensures v in FlowBy(rt, m, i).values || LoadedLater(all, k + 1, v)
    {
      if v != i.result && v !in m.values {
        var j :| k <= j < |all| && all[j].result == v && all[j].op.LoadLocal?;
      }
    }
  }

  lemma TrackedStart(f: Function)
    requires forall i | i in AllInstrs(f.blocks) :: SimpleOp(i.op)
    ensures Tracked(AllInstrs(f.blocks), 0, Flow({}, Sources(f)), Seeded(f))
  {
    SeededHas(f);
    hide Seeded, AllInstrs, Copied, ParamNames, MarksOf;
    forall x
      ensures Seeded(f).LocalType(x) == Some(Struct) <==> x in Sources(f)
      ensures x in Seeded(f).locals ==> Seeded(f).locals[x] != Enum
    {
    }
    forall v | v in Seeded(f).values && Aggregate(Seeded(f).values[v])
      ensures LoadedLater(AllInstrs(f.blocks), 0, v)
    {
      LoadsAreLoads(AllInstrs(f.blocks), v);
    }
  }

  lemma InferNothing(lay: Layout, rt: Returns, instrs: seq<Instr>)
    ensures InferInstrs(lay, rt, instrs[..0]) == lay
  {
  }

  lemma InferPrefix(lay: Layout, rt: Returns, instrs: seq<Instr>, k: nat)
    requires k < |instrs|
    ensures InferInstrs(lay, rt, instrs[..k + 1]) == InferInstr(InferInstrs(lay, rt, instrs[..k]), rt, instrs[k])
  {
    hide InferInstr;
    assert instrs[..k + 1][..k] == instrs[..k];
  }

  lemma ResultNew(f: Function, rt: Returns, k: nat)
    requires Compilable(f) && k < |AllInstrs(f.blocks)|
    ensures AllInstrs(f.blocks)[k].result !in FlowOf(rt, Sources(f), AllInstrs(f.blocks)[..k]).values
  {
    hide *;
    var all := AllInstrs(f.blocks);
    CompilableInstr(f, k);
    if all[k].result in FlowOf(rt, Sources(f), all[..k]).values {
      FlowDefined(rt, Sources(f), all[..k], all[k].result);
    }
  }

  lemma {:induction false} TrackedPass(f: Function, rt: Returns, k: nat)
    requires Compilable(f) && NoEnums(rt) && k <= |AllInstrs(f.blocks)|
    requires forall i | i in AllInstrs(f.blocks) :: SimpleOp(i.op)
    ensures Tracked(AllInstrs(f.blocks), k, FlowOf(rt, Sources(f), AllInstrs(f.blocks)[..k]),
                    InferInstrs(Seeded(f), rt, AllInstrs(f.blocks)[..k]))
  {
    hide *;
    var all := AllInstrs(f.blocks);
    if k == 0 {
      TrackedStart(f);
      InferNothing(Seeded(f), rt, all);
      FlowNothing(rt, Sources(f), all);
    } else {
      TrackedPass(f, rt, k - 1);
      InferPrefix(Seeded(f), rt, all, k - 1);
      FlowPrefix(rt, Sources(f), all, k - 1);
      ResultNew(f, rt, k - 1);
      assert all[k - 1] in all;
      TrackedStep(f, rt, k - 1, FlowOf(rt, Sources(f), all[..k - 1]), InferInstrs(Seeded(f), rt, all[..k - 1]));
    }
  }

  /** The final layout types exactly the values and locals as structures that structures flow into. */
  lemma StructsExactly(f: Function, rt: Returns)
    requires Compilable(f) && NoEnums(rt)
    requires forall i | i in AllInstrs(f.blocks) :: SimpleOp(i.op)
    ensures forall v :: Analysis(f, rt).ValueType(v) == Struct <==> v in Structs(f, rt).values
    ensures forall x :: Analysis(f, rt).LocalType(x) == Some(Struct) <==> x in Structs(f, rt).locals
    ensures NoEnum(Analysis(f, rt))
  {
    var all := AllInstrs(f.blocks);
    TrackedPass(f, rt, |all|);
    assert all[..|all|] == all;
    hide Seeded, AllInstrs, InferInstrs, Compilable, FlowOf, Sources, SimpleOp;
    assert forall v :: !LoadedLater(all, |all|, v);
  }

  // ----- when no call returns one

  ghost predicate CallsScalar(rt: Returns, instrs: seq<Instr>) {
    forall i | i in instrs && i.op.Call? :: CallType(rt, i.op.callee) != Struct
  }

  ghost predicate NoStructCalls(f: Function, rt: Returns) {
    NoEnums(rt) && CallsScalar(rt, AllInstrs(f.blocks))
  }

  lemma CallsScalarPart(rt: Returns, part: seq<Instr>, instrs: seq<Instr>)
    requires part <= instrs && CallsScalar(rt, instrs)
    ensures CallsScalar(rt, part)
  {
    assert forall i | i in part :: i in instrs;
  }

  lemma {:induction false} NothingFlows(rt: Returns, instrs: seq<Instr>)
    requires CallsScalar(rt, instrs)
    ensures FlowOf(rt, {}, instrs) == Flow({}, {})
  {
    hide CallType;
    if instrs != [] {
      assert instrs[|instrs| - 1] in instrs;
      CallsScalarPart(rt, instrs[..|instrs| - 1], instrs);
      NothingFlows(rt, instrs[..|instrs| - 1]);
    }
  }

  lemma SourcesFlow(f: Function, rt: Returns)
    ensures Sources(f) <= Structs(f, rt).locals
  {
    var all := AllInstrs(f.blocks);
    FlowGrows(rt, Sources(f), all, 0, |all|);
    assert all[..|all|] == all;
  }

  /** Where no call returns a structure, there is a struct-typed local exactly when one is copied. */
  lemma StructsExactlyWhenCopied(f: Function, rt: Returns)
    requires Compilable(f) && NoStructCalls(f, rt)
    requires forall i | i in AllInstrs(f.blocks) :: SimpleOp(i.op)
    ensures (exists x :: Analysis(f, rt).LocalType(x) == Some(Struct))
            <==> !(Copied(AllInstrs(f.blocks)) <= ParamNames(f))
  {
    hide *;
    NoStructCallsParts(f, rt);
    StructsExactly(f, rt);
    SourcesFlow(f, rt);
    NoSources(f, rt);
    if x :| x in Sources(f) {
      assert x in Structs(f, rt).locals;
    }
  }

  lemma NoStructCallsParts(f: Function, rt: Returns)
    requires NoStructCalls(f, rt)
    ensures NoEnums(rt) && CallsScalar(rt, AllInstrs(f.blocks))
  {
  }

  lemma NoSources(f: Function, rt: Returns)
    requires CallsScalar(rt, AllInstrs(f.blocks))
    ensures (exists x :: x in Sources(f)) <==> !(Copied(AllInstrs(f.blocks)) <= ParamNames(f))
    ensures (forall x :: x !in Sources(f)) ==> Structs(f, rt) == Flow({}, {})
  {
    hide AllInstrs, Copied, ParamNames, FlowOf;
    if !(Copied(AllInstrs(f.blocks)) <= ParamNames(f)) {
      var x :| x in Copied(AllInstrs(f.blocks)) && x !in ParamNames(f);
      assert x in Sources(f);
    }
    if forall x :: x !in Sources(f) {
      assert Sources(f) == {};
      NothingFlows(rt, AllInstrs(f.blocks));
    }
  }

  // ----- where every stored value is loaded or computed

  /** Where a struct value comes from. */
  lemma {:induction false} FlowFrom(rt: Returns, start: set<string>, instrs: seq<Instr>, v: ValueId)
    requires CallsScalar(rt, instrs) && v in FlowOf(rt, start, instrs).values
    ensures exists i :: i in instrs && i.result == v
                        && (i.op.Copy? || i.op.StoreLocal? || i.op.Alloca?
                            || (i.op.LoadLocal? && i.op.local in FlowOf(rt, start, instrs).locals))
  {
    hide CallType;
    var n := |instrs| - 1;
    assert instrs[n] in instrs;
    CallsScalarPart(rt, instrs[..n], instrs);
    FlowByGrows(rt, FlowOf(rt, start, instrs[..n]), instrs[n]);
    if v in FlowOf(rt, start, instrs[..n]).values {
      FlowFrom(rt, start, instrs[..n], v);
    }
  }

  /** With plain stores no local becomes a structure that was not one from the start. */
  lemma {:induction false} PlainStep(f: Function, rt: Returns, k: nat)
    requires Compilable(f) && AllocatedAbove(f) && ParamsKept(f) && StoresPlain(f) && NoStructCalls(f, rt)
    requires k <= |AllInstrs(f.blocks)|
    ensures FlowOf(rt, Sources(f), AllInstrs(f.blocks)[..k]).locals == Sources(f)
  {
    hide *;
    var all := AllInstrs(f.blocks);
    if k == 0 {
      FlowNothing(rt, Sources(f), all);
    } else {
      PlainStep(f, rt, k - 1);
      FlowPrefix(rt, Sources(f), all, k - 1);
      var m := FlowOf(rt, Sources(f), all[..k - 1]);
      if all[k - 1].op.StoreLocal? && all[k - 1].op.value in m.values {
        PlainStore(f, rt, k - 1);
      }
      LocalsKept(rt, m, all[k - 1]);
    }
  }

  lemma LocalsKept(rt: Returns, m: Flow, i: Instr)
    requires i.op.StoreLocal? && i.op.value in m.values ==> i.op.target in m.locals
    ensures FlowBy(rt, m, i).locals == m.locals
  {
  }

  lemma PlainStore(f: Function, rt: Returns, k: nat)
    requires Compilable(f) && AllocatedAbove(f) && ParamsKept(f) && StoresPlain(f) && NoStructCalls(f, rt)
    requires k < |AllInstrs(f.blocks)| && AllInstrs(f.blocks)[k].op.StoreLocal?
    requires var m := FlowOf(rt, Sources(f), AllInstrs(f.blocks)[..k]);
             m.locals == Sources(f) && AllInstrs(f.blocks)[k].op.value in m.values
    ensures AllInstrs(f.blocks)[k].op.target in Sources(f)
  {
    var all := AllInstrs(f.blocks);
    hide AllInstrs, FlowOf, Copied, ParamNames;
    var i := all[k];
    CallsScalarPart(rt, all[..k], all);
    FlowFrom(rt, Sources(f), all[..k], i.op.value);
    var d :| d in all[..k] && d.result == i.op.value
             && (d.op.Copy? || d.op.StoreLocal? || d.op.Alloca? || (d.op.LoadLocal? && d.op.local in Sources(f)));
    assert i in all && d in all;
    assert i.op == StoreLocal(i.op.target, d.result);
    assert StoresLoaded(f, i.op.target);
    CopiedDirectly(f, i.op.target);
    hide Compilable, AllocatedAbove, StoresPlain;
  }

  /**
   A local that is no parameter is typed as a structure exactly when some store to it stores what
   was loaded from an allocated local.
   */
  lemma StructExactlyWhenStoredLoaded(f: Function, rt: Returns, y: string)
    requires Compilable(f) && AllocatedAbove(f) && ParamsKept(f) && StoresPlain(f)
    requires NoStructCalls(f, rt) && forall i | i in AllInstrs(f.blocks) :: SimpleOp(i.op)
    requires y !in ParamNames(f)
    ensures Analysis(f, rt).LocalType(y) == Some(Struct) <==> StoresLoaded(f, y)
  {
    var all := AllInstrs(f.blocks);
    CopiedDirectly(f, y);
    PlainStep(f, rt, |all|);
    assert all[..|all|] == all;
    hide AllInstrs, Copied, FlowOf, Compilable, AllocatedAbove, ParamsKept, StoresPlain, Analysis, ParamNames;
    StructsExactly(f, rt);
  }
}
