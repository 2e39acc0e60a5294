/** The inference as the emitter runs it: loops over blocks, instructions and passes. */
module CAnalysis {
  import opened CInference
  import opened CTypes
  import opened Mir
  import opened Options

  lemma AllInstrsStep(blocks: seq<Block>, b: nat)
    requires b < |blocks|
    ensures AllInstrs(blocks[..b + 1]) == AllInstrs(blocks[..b]) + blocks[b].instrs
  {
    assert blocks[..b + 1][..b] == blocks[..b];
  }

  // ----- first pass

  method MarkParamsNamed(f: Function, ts: seq<CType>, name: string, mark: CType) returns (r: seq<CType>)
    requires |ts| == |f.params|
    ensures r == MarkNamed(f, ts, {name}, mark)
  {
    r := ts;
    for k := 0 to |f.params|
      invariant |r| == |ts|
      invariant forall j | 0 <= j < |r| :: r[j] == if j < k && f.params[j].name == name then mark else ts[j]
    {
      if f.params[k].name == name {
        r := r[k := mark];
      }
    }
  }

  method MarkParamsBound(f: Function, ts: seq<CType>, value: ValueId, mark: CType) returns (r: seq<CType>)
    requires |ts| == |f.params|
    ensures r == MarkBound(f, ts, value, mark)
  {
    r := ts;
    for k := 0 to |f.params|
      invariant |r| == |ts|
      invariant forall j | 0 <= j < |r| :: r[j] == if j < k && f.params[j].value == value then mark else ts[j]
    {
      if f.params[k].value == value {
        r := r[k := mark];
      }
    }
  }

  /** The layout after the loads in `seen` have been looked at. */
  ghost function Marking(f: Function, lay: Layout, seen: seq<Instr>, aggregate: ValueId, mark: CType): Layout
    requires |lay.params| == |f.params|
  {
    var names := LoadedInto(seen, aggregate);
    lay.(values := lay.values[aggregate := mark],
         locals := lay.locals + map name | name in names :: mark,
         params := MarkNamed(f, lay.params, names, mark))
  }

  lemma MarkingStep(f: Function, lay: Layout, seen: seq<Instr>, i: Instr, aggregate: ValueId, mark: CType)
    requires |lay.params| == |f.params|
    ensures var cur := Marking(f, lay, seen, aggregate, mark);
            Marking(f, lay, seen + [i], aggregate, mark) ==
            if i.result == aggregate && i.op.LoadLocal? then
              cur.(locals := cur.locals[i.op.local := mark],
                   params := MarkNamed(f, cur.params, {i.op.local}, mark))
            else cur
  {
    var names := LoadedInto(seen, aggregate);
    LoadedStep(seen, i, aggregate);
    hide LoadedInto;
    if i.result == aggregate && i.op.LoadLocal? {
      MarkNamedTwice(f, lay.params, names, {i.op.local}, mark);
      hide MarkNamed;
      var name := i.op.local;
      assert (lay.locals + map n | n in names :: mark)[name := mark]
          == lay.locals + map n | n in names + {name} :: mark;
    }
  }

  lemma LoadedStep(seen: seq<Instr>, i: Instr, aggregate: ValueId)
    ensures LoadedInto(seen + [i], aggregate)
            == LoadedInto(seen, aggregate) + if i.result == aggregate && i.op.LoadLocal? then {i.op.local} else {}
  {
    var before, after := LoadedInto(seen, aggregate), LoadedInto(seen + [i], aggregate);
    if i.result == aggregate && i.op.LoadLocal? {
      assert i in seen + [i];
      assert after == before + {i.op.local};
    } else {
      assert after == before;
    }
  }

  lemma MarkNamedTwice(f: Function, ts: seq<CType>, a: set<string>, b: set<string>, mark: CType)
    requires |ts| == |f.params|
    ensures MarkNamed(f, MarkNamed(f, ts, a, mark), b, mark) == MarkNamed(f, ts, a + b, mark)
  {
  }

  method MarkInBlock(f: Function, lay0: Layout, block: Block, ghost seen: seq<Instr>, ghost start: Layout,
                     aggregate: ValueId, mark: CType) returns (r: Layout)
    requires |start.params| == |f.params|
    requires lay0 == Marking(f, start, seen, aggregate, mark)
    ensures r == Marking(f, start, seen + block.instrs, aggregate, mark)
  {
    r := lay0;
    assert seen + block.instrs[..0] == seen;
    for k := 0 to |block.instrs|
      invariant r == Marking(f, start, seen + block.instrs[..k], aggregate, mark)
    {
      hide LoadedInto;
      var i := block.instrs[k];
      MarkingStep(f, start, seen + block.instrs[..k], i, aggregate, mark);
      assert seen + block.instrs[..k + 1] == (seen + block.instrs[..k]) + [i];
      if i.result == aggregate && i.op.LoadLocal? {
        var params := MarkParamsNamed(f, r.params, i.op.local, mark);
        r := r.(locals := r.locals[i.op.local := mark], params := params);
      }
    }
    assert block.instrs[..|block.instrs|] == block.instrs;
  }

  lemma MarkingNothing(f: Function, lay: Layout, aggregate: ValueId, mark: CType)
    requires |lay.params| == |f.params|
    ensures Marking(f, lay, [], aggregate, mark) == lay.(values := lay.values[aggregate := mark])
  {
    assert MarkNamed(f, lay.params, {}, mark) == lay.params;
    assert LoadedInto([], aggregate) == {};
  }

  method MarkSources(f: Function, lay: Layout, aggregate: ValueId, mark: CType) returns (r: Layout)
    requires |lay.params| == |f.params|
    ensures r == MarkAggregate(f, lay, aggregate, mark)
  {
    hide LoadedInto, MarkNamed, MarkBound;
    r := lay.(values := lay.values[aggregate := mark]);
    MarkingNothing(f, lay, aggregate, mark);
    for b := 0 to |f.blocks|
      invariant r == Marking(f, lay, AllInstrs(f.blocks[..b]), aggregate, mark)
    {
      r := MarkInBlock(f, r, f.blocks[b], AllInstrs(f.blocks[..b]), lay, aggregate, mark);
      AllInstrsStep(f.blocks, b);
    }
    assert f.blocks[..|f.blocks|] == f.blocks;
    var params := MarkParamsBound(f, r.params, aggregate, mark);
    r := r.(params := params);
  }

  method SeedOne(f: Function, lay: Layout, i: Instr) returns (r: Layout)
    requires |lay.params| == |f.params|
    ensures r == SeedInstr(f, lay, i)
  {
    hide MarkAggregate, SeedAlloc, SeedStore, SeedLoad;
    match i.op {
      case GetField(aggregate, _) => r := MarkSources(f, lay, aggregate, Struct);
      case EnumTag(tagged) => r := MarkSources(f, lay, tagged, Enum);
      case EnumPayload(carrier, _) => r := MarkSources(f, lay, carrier, Enum);
      case _ => r := SeedInstr(f, lay, i);
    }
  }

  method SeedLayout(f: Function) returns (lay: Layout)
    ensures lay == Seeded(f)
  {
    hide SeedInstr, InitialLayout;
    lay := InitialLayout(f);
    ghost var start := lay;
    for b := 0 to |f.blocks|
      invariant |lay.params| == |f.params|
      invariant lay == Seed(f, start, AllInstrs(f.blocks[..b]))
    {
      var block := f.blocks[b];
      ghost var before := AllInstrs(f.blocks[..b]);
      assert before + block.instrs[..0] == before;
      for k := 0 to |block.instrs|
        invariant |lay.params| == |f.params|
        invariant lay == Seed(f, start, before + block.instrs[..k])
      {
        assert (before + block.instrs[..k + 1])[..|before| + k] == before + block.instrs[..k];
        lay := SeedOne(f, lay, block.instrs[k]);
      }
      assert block.instrs[..|block.instrs|] == block.instrs;
      AllInstrsStep(f.blocks, b);
    }
    assert f.blocks[..|f.blocks|] == f.blocks;
    ghost var seeded := lay;
    for k := 0 to |f.params|
      invariant lay == BindParams(f, seeded, k) && lay.params == seeded.params
    {
      var t := lay.params[k];
      lay := lay.(values := lay.values[f.params[k].value := t], locals := lay.locals[f.params[k].name := t]);
    }
  }

  // ----- second pass and return type

  method InferLayout(f: Function, lay0: Layout, rt: Returns) returns (lay: Layout)
    ensures lay == InferInstrs(lay0, rt, AllInstrs(f.blocks))
  {
    hide InferInstr;
    lay := lay0;
    for b := 0 to |f.blocks|
      invariant lay == InferInstrs(lay0, rt, AllInstrs(f.blocks[..b]))
    {
      var block := f.blocks[b];
      ghost var before := AllInstrs(f.blocks[..b]);
      assert before + block.instrs[..0] == before;
      for k := 0 to |block.instrs|
        invariant lay == InferInstrs(lay0, rt, before + block.instrs[..k])
      {
        assert (before + block.instrs[..k + 1])[..|before| + k] == before + block.instrs[..k];
        lay := InferInstr(lay, rt, block.instrs[k]);
      }
      assert block.instrs[..|block.instrs|] == block.instrs;
      AllInstrsStep(f.blocks, b);
    }
    assert f.blocks[..|f.blocks|] == f.blocks;
  }

  method MergeReturns(f: Function, lay: Layout) returns (t: CType)
    ensures t == OrElse(MergeAll(ReturnTypes(lay, f.blocks)), lay.returnTy)
  {
    var returned: seq<CType> := [];
    for b := 0 to |f.blocks|
      invariant returned == ReturnTypes(lay, f.blocks[..b])
    {
      assert f.blocks[..b + 1][..b] == f.blocks[..b];
      if f.blocks[b].term.Return? {
        returned := returned + [lay.ValueType(f.blocks[b].term.returned)];
      }
    }
    assert f.blocks[..|f.blocks|] == f.blocks;
    t := lay.returnTy;
    if returned != [] {
      t := returned[0];
      for k := 1 to |returned|
        invariant MergeAll(returned[..k]) == Some(t)
      {
        assert returned[..k + 1][..k] == returned[..k];
        t := Merge(t, returned[k]);
      }
      assert returned[..|returned|] == returned;
    }
  }

  method AnalyzeFunction(f: Function, rt: Returns) returns (lay: Layout)
    ensures lay == Analysis(f, rt)
  {
    lay := SeedLayout(f);
    lay := InferLayout(f, lay, rt);
    var t := MergeReturns(f, lay);
    lay := lay.(returnTy := t);
  }

  // ----- the loop

  method DeclareReturns(fs: seq<Function>) returns (rt: Returns)
    ensures rt == DeclaredReturns(fs)
  {
    rt := map[];
    for i := 0 to |fs|
      invariant rt == DeclaredReturns(fs[..i])
    {
      assert fs[..i + 1][..i] == fs[..i];
      rt := rt[fs[i].name := OrElse(TypeOfId(fs[i].returnTy), Int)];
    }
    assert fs[..|fs|] == fs;
  }

  /**
   At most `limit` passes. The source has no limit, and without one the loop need not stop
   (`CInference.RingNeverQuiet`). It stops after the first quiet pass, which is pass h + 2 or an
   earlier one when no call chain is longer than h, whatever the order of the functions.
   */
  method AnalyzeModule(fs: seq<Function>, limit: nat)
      returns (layouts: map<string, Layout>, rt: Returns, passes: nat, stopped: bool)
    ensures passes <= limit
    ensures stopped ==> 0 < passes && QuietPass(fs, passes - 1) && rt == Passes(fs, passes - 1)
    ensures forall k | 0 <= k < (if stopped then passes - 1 else passes) :: !QuietPass(fs, k)
    ensures !stopped ==> passes == limit
    ensures 0 < limit ==> forall f | f in fs :: f.name in layouts
    ensures stopped && UniqueNames(fs) ==> Settled(fs, rt, layouts)
    ensures forall h: nat :: UniqueNames(fs) && CallHeightAtMost(fs, h) && h + 2 <= limit ==> stopped && passes <= h + 2
  {
    hide Analysis, Within, Unchanged, Settled, UniqueNames, CallHeightAtMost, QuietPass;
    rt := DeclareReturns(fs);
    layouts, passes, stopped := map[], 0, false;
    while passes < limit && !stopped
      invariant passes <= limit
      invariant !stopped ==> rt == Passes(fs, passes)
      invariant stopped ==> 0 < passes && QuietPass(fs, passes - 1) && rt == Passes(fs, passes - 1)
      invariant forall k | 0 <= k < (if stopped then passes - 1 else passes) :: !QuietPass(fs, k)
      invariant 0 < passes ==> forall f | f in fs :: f.name in layouts
      invariant stopped && UniqueNames(fs) ==> Settled(fs, rt, layouts)
      decreases limit - passes, !stopped
    {
      var changed;
      layouts, rt, changed := AnalyzeOnce(fs, rt, layouts, passes);
      stopped := !changed;
      passes := passes + 1;
    }
    forall h: nat | UniqueNames(fs) && CallHeightAtMost(fs, h) && h + 2 <= limit
      ensures stopped && passes <= h + 2
    {
      AcyclicStops(fs, h);
    }
  }

  /** The layouts of the first `n` functions, as analysed within the pass that began with `rt`. */
  ghost predicate Recorded(fs: seq<Function>, rt: Returns, layouts: map<string, Layout>, n: nat)
    requires n <= |fs|
  {
    forall j | 0 <= j < n :: fs[j].name in layouts && layouts[fs[j].name] == Analysis(fs[j], Within(fs, rt, j))
  }

  lemma RecordedStep(fs: seq<Function>, rt: Returns, layouts: map<string, Layout>, n: nat)
    requires n < |fs| && UniqueNames(fs) && Recorded(fs, rt, layouts, n)
    ensures Recorded(fs, rt, layouts[fs[n].name := Analysis(fs[n], Within(fs, rt, n))], n + 1)
  {
    hide Analysis, Within;
  }

  lemma WithinStep(fs: seq<Function>, rt: Returns, n: nat)
    requires n < |fs|
    ensures Within(fs, rt, n + 1)
            == Within(fs, rt, n)[fs[n].name := Analysis(fs[n], Within(fs, rt, n)).returnTy]
  {
    hide Analysis;
  }

  lemma UnchangedStep(fs: seq<Function>, rt: Returns, n: nat)
    requires n < |fs|
    ensures Unchanged(fs, rt, n + 1) <==>
            && Unchanged(fs, rt, n)
            && fs[n].name in Within(fs, rt, n)
            && Within(fs, rt, n)[fs[n].name] == Analysis(fs[n], Within(fs, rt, n)).returnTy
  {
    hide Analysis, Within;
  }

  lemma NothingYet(fs: seq<Function>, rt: Returns, layouts: map<string, Layout>)
    ensures Within(fs, rt, 0) == rt && Unchanged(fs, rt, 0) && Recorded(fs, rt, layouts, 0)
  {
  }

  /** A pass with the first `n` functions analysed. */
  ghost predicate Midway(fs: seq<Function>, rt0: Returns, n: nat, rt: Returns, layouts: map<string, Layout>,
                         changed: bool)
  {
    && n <= |fs| && rt == Within(fs, rt0, n)
    && (!changed <==> Unchanged(fs, rt0, n))
    && (forall j | 0 <= j < n :: fs[j].name in layouts)
    && (UniqueNames(fs) ==> Recorded(fs, rt0, layouts, n))
  }

  lemma MidwayStart(fs: seq<Function>, rt: Returns, layouts: map<string, Layout>)
    ensures Midway(fs, rt, 0, rt, layouts, false)
  {
    NothingYet(fs, rt, layouts);
    hide Unchanged, Within, Recorded;
  }

  lemma MidwayStep(fs: seq<Function>, rt0: Returns, n: nat, rt: Returns, layouts: map<string, Layout>, changed: bool)
    requires Midway(fs, rt0, n, rt, layouts, changed) && n < |fs|
    ensures var name, lay := fs[n].name, Analysis(fs[n], rt);
            Midway(fs, rt0, n + 1, rt[name := lay.returnTy], layouts[name := lay],
                   changed || !(name in rt && rt[name] == lay.returnTy))
  {
    WithinStep(fs, rt0, n);
    UnchangedStep(fs, rt0, n);
    if UniqueNames(fs) {
      RecordedStep(fs, rt0, layouts, n);
    }
    hide Analysis, Unchanged, Within, Recorded;
  }

  lemma MidwayEnd(fs: seq<Function>, k: nat, rt: Returns, layouts: map<string, Layout>, changed: bool)
    requires Midway(fs, Passes(fs, k), |fs|, rt, layouts, changed)
    ensures rt == Passes(fs, k + 1) && (!changed <==> QuietPass(fs, k))
    ensures !changed ==> rt == Passes(fs, k)
    ensures forall f | f in fs :: f.name in layouts
    ensures !changed && UniqueNames(fs) ==> Settled(fs, rt, layouts)
  {
    var rt0 := Passes(fs, k);
    assert QuietPass(fs, k) <==> Unchanged(fs, rt0, |fs|);
    PassStep(fs, k + 1);
    hide Passes, Within, Unchanged, Recorded, Settled, QuietPass;
    if !changed {
      QuietStays(fs, rt0, |fs|);
      if UniqueNames(fs) {
        SettledAfterQuiet(fs, rt0, layouts);
      }
    }
  }

  /** One pass: every function analysed with the types found so far in the same pass. */
  method AnalyzeOnce(fs: seq<Function>, rt0: Returns, layouts0: map<string, Layout>, ghost k: nat)
      returns (layouts: map<string, Layout>, rt: Returns, changed: bool)
    requires rt0 == Passes(fs, k)
    ensures rt == Passes(fs, k + 1)
    ensures !changed <==> QuietPass(fs, k)
    ensures !changed ==> rt == rt0
    ensures forall f | f in fs :: f.name in layouts
    ensures !changed && UniqueNames(fs) ==> Settled(fs, rt0, layouts)
  {
    hide *;
    rt, layouts, changed := rt0, layouts0, false;
    MidwayStart(fs, rt0, layouts0);
    for i := 0 to |fs|
      invariant Midway(fs, rt0, i, rt, layouts, changed)
    {
      var f := fs[i];
      var lay := AnalyzeFunction(f, rt);
      var same := f.name in rt && rt[f.name] == lay.returnTy;
      MidwayStep(fs, rt0, i, rt, layouts, changed);
      rt := rt[f.name := lay.returnTy];
      changed := changed || !same;
      layouts := layouts[f.name := lay];
    }
    MidwayEnd(fs, k, rt, layouts, changed);
  }

  lemma SettledAfterQuiet(fs: seq<Function>, rt: Returns, layouts: map<string, Layout>)
    requires Unchanged(fs, rt, |fs|) && Recorded(fs, rt, layouts, |fs|)
    ensures Settled(fs, rt, layouts)
  {
    hide Analysis;
    forall f | f in fs
      ensures f.name in layouts && layouts[f.name] == Analysis(f, rt)
      ensures f.name in rt && rt[f.name] == layouts[f.name].returnTy
    {
      var j :| 0 <= j < |fs| && fs[j] == f;
      QuietStays(fs, rt, j);
      assert Within(fs, rt, j)[fs[j].name] == Analysis(fs[j], Within(fs, rt, j)).returnTy;
    }
  }
}
