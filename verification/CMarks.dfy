/**
 What the first pass is for: whatever a field access, a tag read or a payload read is applied to ends up
 in a variable of a structure type, and so do the locals it was loaded from.
 */
module CMarks {
  import opened CInference
  import opened CTypes
  import opened Mir

  /** The value an operation takes apart. */
  function Opened(op: Op): set<ValueId> {
    match op
    case GetField(aggregate, _) => {aggregate}
    case EnumTag(tagged) => {tagged}
    case EnumPayload(carrier, _) => {carrier}
    case _ => {}
  }

  /** The structure types an operation brings into a function. */
  function Brings(op: Op): set<CType> {
    match op
    case GetField(_, _) => {Struct}
    case StructConstruct(_, _) => {Struct}
    case Alloca(_, _) => {Struct}
    case ArcAlloc(_, _) => {Struct}
    case EnumTag(_) => {Enum}
    case EnumPayload(_, _) => {Enum}
    case EnumConstruct(_, _) => {Enum}
    case _ => {}
  }

  /** All types found so far are among `ts`; allocated locals count as structures. */
  ghost predicate Only(lay: Layout, ts: set<CType>) {
    && (forall v | v in lay.values :: lay.values[v] in ts)
    && (forall x | x in lay.locals :: lay.locals[x] in ts)
    && (Struct !in ts ==> lay.localStructs == map[] && lay.valueStructs == map[])
  }

  /** The locals loaded into the value are typed, and so are the parameters it comes from. */
  ghost predicate MarkedFor(f: Function, lay: Layout, ts: set<CType>, a: ValueId) {
    && |lay.params| == |f.params|
    && var names := LoadedInto(AllInstrs(f.blocks), a);
    && (forall x | x in names :: x in lay.locals)
    && (forall k | 0 <= k < |f.params| ::
          f.params[k].name in names || f.params[k].value == a ==> lay.params[k] in ts)
  }

  ghost predicate MarkedSoFar(f: Function, lay: Layout, ts: set<CType>, prior: seq<Instr>) {
    && Only(lay, ts)
    && forall i, a | i in prior && a in Opened(i.op) :: MarkedFor(f, lay, ts, a)
  }

  lemma SeedMarksNext(f: Function, lay: Layout, ts: set<CType>, prior: seq<Instr>, i: Instr)
    requires |lay.params| == |f.params| && MarkedSoFar(f, lay, ts, prior) && Brings(i.op) <= ts
    ensures MarkedSoFar(f, SeedInstr(f, lay, i), ts, prior + [i])
  {
    var after := SeedInstr(f, lay, i);
    SeedOnly(f, lay, ts, i);
    hide Only, LoadedInto, AllInstrs;
    forall j, a | j in prior + [i] && a in Opened(j.op)
      ensures MarkedFor(f, after, ts, a)
    {
      if j in prior {
        assert MarkedFor(f, lay, ts, a);
      }
      SeedMarksOne(f, lay, ts, i, a);
    }
  }

  lemma SeedOnly(f: Function, lay: Layout, ts: set<CType>, i: Instr)
    requires |lay.params| == |f.params| && Only(lay, ts) && Brings(i.op) <= ts
    ensures Only(SeedInstr(f, lay, i), ts)
  {
    hide LoadedInto, AllInstrs, MarkNamed, MarkBound;
    match i.op {
      case GetField(_, _) => assert Struct in Brings(i.op);
      case StructConstruct(_, _) => assert Struct in Brings(i.op);
      case Alloca(_, _) => assert Struct in Brings(i.op);
      case ArcAlloc(_, _) => assert Struct in Brings(i.op);
      case EnumTag(_) => assert Enum in Brings(i.op);
      case EnumPayload(_, _) => assert Enum in Brings(i.op);
      case EnumConstruct(_, _) => assert Enum in Brings(i.op);
      case _ =>
    }
  }

  lemma SeedMarksOne(f: Function, lay: Layout, ts: set<CType>, i: Instr, a: ValueId)
    requires |lay.params| == |f.params| && Brings(i.op) <= ts
    requires a in Opened(i.op) || MarkedFor(f, lay, ts, a)
    ensures MarkedFor(f, SeedInstr(f, lay, i), ts, a)
  {
    hide LoadedInto, AllInstrs;
    match i.op {
      case GetField(_, _) => assert Struct in Brings(i.op);
      case EnumTag(_) => assert Enum in Brings(i.op);
      case EnumPayload(_, _) => assert Enum in Brings(i.op);
      case _ =>
    }
  }

  lemma {:induction false} SeedMarksAll(f: Function, ts: set<CType>, instrs: seq<Instr>)
    requires forall i | i in instrs :: Brings(i.op) <= ts
    ensures MarkedSoFar(f, Seed(f, InitialLayout(f), instrs), ts, instrs)
    decreases |instrs|
  {
    if instrs == [] {
      hide TypeOfId;
    } else {
      hide SeedInstr, MarkedSoFar, InitialLayout, Brings;
      var n := |instrs| - 1;
      assert instrs == instrs[..n] + [instrs[n]];
      SeedMarksAll(f, ts, instrs[..n]);
      SeedMarksNext(f, Seed(f, InitialLayout(f), instrs[..n]), ts, instrs[..n], instrs[n]);
    }
  }

  lemma {:induction false} BindKeeps(f: Function, lay: Layout, n: nat, x: string, ts: set<CType>)
    requires n <= |f.params| == |lay.params| && x in lay.locals && lay.locals[x] in ts
    requires forall k | 0 <= k < n :: f.params[k].name == x ==> lay.params[k] in ts
    ensures x in BindParams(f, lay, n).locals && BindParams(f, lay, n).locals[x] in ts
  {
    if n > 0 {
      BindKeeps(f, lay, n - 1, x, ts);
    }
  }

  /**
   After the first pass a local that is taken apart has one of the structure types the function's
   operations bring in: an enumeration where nothing else is at work, a structure where no enumeration is.
   */
  lemma FirstPassMarks(f: Function, ts: set<CType>, i: Instr, a: ValueId, x: string)
    requires forall j | j in AllInstrs(f.blocks) :: Brings(j.op) <= ts
    requires i in AllInstrs(f.blocks) && a in Opened(i.op) && x in LoadedInto(AllInstrs(f.blocks), a)
    ensures x in Seeded(f).locals && Seeded(f).locals[x] in ts
  {
    var lay := Seed(f, InitialLayout(f), AllInstrs(f.blocks));
    SeedMarksAll(f, ts, AllInstrs(f.blocks));
    assert MarkedFor(f, lay, ts, a);
    BindKeeps(f, lay, |f.params|, x, ts);
    hide Seed, AllInstrs, LoadedInto, BindParams;
  }

  ghost predicate Knows(early: Layout, late: Layout) {
    && early.values.Keys <= late.values.Keys && early.locals.Keys <= late.locals.Keys
    && early.localStructs.Keys <= late.localStructs.Keys
  }

  lemma SeedInstrGrows(f: Function, lay: Layout, i: Instr)
    requires |lay.params| == |f.params|
    ensures Knows(lay, SeedInstr(f, lay, i))
  {
    hide MarkAggregate;
    match i.op {
      case GetField(aggregate, _) => MarkGrows(f, lay, aggregate, Struct);
      case EnumTag(tagged) => MarkGrows(f, lay, tagged, Enum);
      case EnumPayload(carrier, _) => MarkGrows(f, lay, carrier, Enum);
      case _ =>
    }
  }

  lemma MarkGrows(f: Function, lay: Layout, aggregate: ValueId, mark: CType)
    requires |lay.params| == |f.params|
    ensures Knows(lay, MarkAggregate(f, lay, aggregate, mark))
  {
    hide MarkNamed, MarkBound, LoadedInto, AllInstrs;
  }

  /** What the first pass knows only grows. */
  lemma {:induction false} SeedGrows(f: Function, lay: Layout, instrs: seq<Instr>, k: nat)
    requires |lay.params| == |f.params| && k <= |instrs|
    ensures Knows(Seed(f, lay, instrs[..k]), Seed(f, lay, instrs))
    decreases |instrs|
  {
    if k < |instrs| {
      var n := |instrs| - 1;
      assert instrs[..n][..k] == instrs[..k];
      SeedGrows(f, lay, instrs[..n], k);
      SeedInstrGrows(f, Seed(f, lay, instrs[..n]), instrs[n]);
      hide SeedInstr;
    } else {
      assert instrs[..k] == instrs;
    }
  }

  lemma SeedNext(f: Function, lay: Layout, instrs: seq<Instr>, k: nat)
    requires |lay.params| == |f.params| && k < |instrs|
    ensures Seed(f, lay, instrs[..k + 1]) == SeedInstr(f, Seed(f, lay, instrs[..k]), instrs[k])
  {
    assert instrs[..k + 1][..k] == instrs[..k];
    hide SeedInstr;
  }

  /** A construction, or a load of a local allocated further up. */
  predicate Structured(instrs: seq<Instr>, j: nat)
    requires j < |instrs|
  {
    match instrs[j].op
    case EnumConstruct(_, _) => true
    case StructConstruct(_, _) => true
    case LoadLocal(x) => exists h :: 0 <= h < j && Allocates(instrs[h].op, x)
    case _ => false
  }

  predicate Allocates(op: Op, x: string) {
    (op.Alloca? && op.slot == x) || (op.ArcAlloc? && op.cell == x)
  }

  lemma StructuredValue(f: Function, instrs: seq<Instr>, j: nat)
    requires j < |instrs| && Structured(instrs, j)
    ensures instrs[j].result in Seed(f, InitialLayout(f), instrs[..j + 1]).values
  {
    SeedNext(f, InitialLayout(f), instrs, j);
    hide Seed, InitialLayout, MarkAggregate;
    if instrs[j].op.LoadLocal? {
      var h :| 0 <= h < j && Allocates(instrs[h].op, instrs[j].op.local);
      AllocatedKnown(f, instrs, h, j, instrs[j].op.local);
    }
  }

  lemma AllocatedKnown(f: Function, instrs: seq<Instr>, h: nat, j: nat, x: string)
    requires h < j < |instrs| && Allocates(instrs[h].op, x)
    ensures x in Seed(f, InitialLayout(f), instrs[..j]).localStructs
  {
    SeedNext(f, InitialLayout(f), instrs, h);
    SeedGrows(f, InitialLayout(f), instrs[..j], h + 1);
    assert instrs[..j][..h + 1] == instrs[..h + 1];
    hide Seed, InitialLayout, MarkAggregate;
  }

  lemma SeededStore(f: Function, instrs: seq<Instr>, j: nat, k: nat)
    requires j < k < |instrs| && Structured(instrs, j)
    requires instrs[k].op.StoreLocal? && instrs[k].op.value == instrs[j].result
    ensures instrs[k].op.target in Seed(f, InitialLayout(f), instrs).locals
  {
    StructuredValue(f, instrs, j);
    SeedGrows(f, InitialLayout(f), instrs[..k], j + 1);
    assert instrs[..k][..j + 1] == instrs[..j + 1];
    SeedNext(f, InitialLayout(f), instrs, k);
    SeedGrows(f, InitialLayout(f), instrs, k + 1);
    hide Seed, InitialLayout, Structured, MarkAggregate;
  }

  lemma {:induction false} UnboundKept(f: Function, lay: Layout, n: nat, x: string)
    requires n <= |f.params| == |lay.params| && x in lay.locals && x !in ParamNames(f)
    ensures x in BindParams(f, lay, n).locals && BindParams(f, lay, n).locals[x] == lay.locals[x]
  {
    if n > 0 {
      UnboundKept(f, lay, n - 1, x);
      assert f.params[n - 1] in f.params;
    }
  }

  /**
   A local of its own that is stored a structure, constructed or loaded from an allocated local, counts as
   one from the first pass on: wherever in the text it is loaded, the load has a structure type.
   */
  lemma StoredStructures(f: Function, j: nat, k: nat)
    requires j < k < |AllInstrs(f.blocks)| && Structured(AllInstrs(f.blocks), j)
    requires var store := AllInstrs(f.blocks)[k].op;
             store.StoreLocal? && store.value == AllInstrs(f.blocks)[j].result && store.target !in ParamNames(f)
    ensures var x := AllInstrs(f.blocks)[k].op.target;
            x in Seeded(f).locals && Aggregate(Seeded(f).locals[x])
  {
    var instrs := AllInstrs(f.blocks);
    var x := instrs[k].op.target;
    hide AllInstrs;
    SeededStore(f, instrs, j, k);
    forall i | i in instrs
      ensures Brings(i.op) <= {Enum, Struct}
    {
    }
    SeedMarksAll(f, {Enum, Struct}, instrs);
    UnboundKept(f, Seed(f, InitialLayout(f), instrs), |f.params|, x);
    hide Seed, InitialLayout, BindParams, Structured, Brings;
  }

  // ----- what the second pass leaves

  /** No store, load or allocation takes a structure type from a local. */
  lemma {:induction false} AggregatesStay(lay: Layout, rt: Returns, instrs: seq<Instr>, x: string)
    requires x in lay.locals && Aggregate(lay.locals[x])
    ensures var after := InferInstrs(lay, rt, instrs);
            x in after.locals && Aggregate(after.locals[x])
    decreases |instrs|
  {
    if instrs != [] {
      AggregatesStay(lay, rt, instrs[..|instrs| - 1], x);
      hide CallType, PhiType, InferBinOp, InferUnOp, EffectType, TypeOfId;
    }
  }

  lemma OnlyStructures(f: Function, i: Instr, a: ValueId, x: string)
    requires i in AllInstrs(f.blocks) && a in Opened(i.op) && x in LoadedInto(AllInstrs(f.blocks), a)
    ensures x in Seeded(f).locals && Aggregate(Seeded(f).locals[x])
  {
    forall j | j in AllInstrs(f.blocks)
      ensures Brings(j.op) <= {Enum, Struct}
    {
    }
    FirstPassMarks(f, {Enum, Struct}, i, a, x);
    hide Seeded, AllInstrs, LoadedInto;
  }

  /** In the finished layout every local taken apart, and the value it is loaded into, is of a structure type. */
  lemma OpenedAreStructures(f: Function, rt: Returns, i: Instr, k: nat)
    requires UniqueResults(f) && i in AllInstrs(f.blocks) && k < |AllInstrs(f.blocks)|
    requires AllInstrs(f.blocks)[k].op.LoadLocal? && AllInstrs(f.blocks)[k].result in Opened(i.op)
    ensures var load := AllInstrs(f.blocks)[k];
            var local := Analysis(f, rt).LocalType(load.op.local);
            local.Some? && Aggregate(local.value) && Aggregate(Analysis(f, rt).ValueType(load.result))
  {
    var instrs := AllInstrs(f.blocks);
    var load := instrs[k];
    assert load in instrs && load.op.local in LoadedInto(instrs, load.result);
    hide *;
    OnlyStructures(f, i, load.result, load.op.local);
    AggregatesStay(Seeded(f), rt, instrs, load.op.local);
    LoadIsStructure(f, rt, instrs, k);
    AnalysisTypes(f, rt);
  }

  /** The loads of such a local, wherever they stand, and the local itself, in the finished layout. */
  lemma StoredLoadsTyped(f: Function, rt: Returns, j: nat, k: nat, l: nat)
    requires UniqueResults(f) && j < k < |AllInstrs(f.blocks)| && Structured(AllInstrs(f.blocks), j)
    requires var store := AllInstrs(f.blocks)[k].op;
             store.StoreLocal? && store.value == AllInstrs(f.blocks)[j].result && store.target !in ParamNames(f)
    requires l < |AllInstrs(f.blocks)| && AllInstrs(f.blocks)[l].op == LoadLocal(AllInstrs(f.blocks)[k].op.target)
    ensures Aggregate(Analysis(f, rt).ValueType(AllInstrs(f.blocks)[l].result))
  {
    var instrs := AllInstrs(f.blocks);
    hide AllInstrs, Seeded, InferInstrs, Structured, Analysis;
    StoredStructures(f, j, k);
    LoadIsStructure(f, rt, instrs, l);
    AnalysisTypes(f, rt);
  }

  lemma LoadIsStructure(f: Function, rt: Returns, instrs: seq<Instr>, k: nat)
    requires instrs == AllInstrs(f.blocks) && UniqueResults(f) && k < |instrs| && instrs[k].op.LoadLocal?
    requires instrs[k].op.local in Seeded(f).locals && Aggregate(Seeded(f).locals[instrs[k].op.local])
    ensures Aggregate(InferInstrs(Seeded(f), rt, instrs).ValueType(instrs[k].result))
  {
    hide AllInstrs, Seeded, InferInstrs;
    AggregatesStay(Seeded(f), rt, instrs[..k], instrs[k].op.local);
    ResultKeepsType(Seeded(f), rt, instrs, k);
  }

  lemma AnalysisTypes(f: Function, rt: Returns)
    ensures var lay := InferInstrs(Seeded(f), rt, AllInstrs(f.blocks));
            Analysis(f, rt).values == lay.values && Analysis(f, rt).locals == lay.locals
  {
  }
}
