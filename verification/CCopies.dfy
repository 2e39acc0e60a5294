/**
 The first pass of the inference, as sets of names: an allocation marks its local with a structure
 name, loads and stores pass the mark on, and a local that is stored a marked load counts as a copy.
 */
module CCopies {
  import opened CInference
  import opened CLegal
  import opened CTypes
  import opened Mir
  import opened Options

  // ----- a compilable function, instruction by instruction

  function InstrsIn(lines: seq<Line>): seq<Instr> {
    if lines == [] then [] else
    InstrsIn(lines[..|lines| - 1]) + if lines[|lines| - 1].Does? then [lines[|lines| - 1].instr] else []
  }

  lemma {:induction false} InstrsInAppend(a: seq<Line>, b: seq<Line>)
    ensures InstrsIn(a + b) == InstrsIn(a) + InstrsIn(b)
  {
    if b == [] {
      assert a + b == a;
    } else {
      assert (a + b)[..|a + b| - 1] == a + b[..|b| - 1];
      InstrsInAppend(a, b[..|b| - 1]);
    }
  }

  lemma {:induction false} InstrsInLines(instrs: seq<Instr>)
    ensures InstrsIn(InstrLines(instrs)) == instrs
  {
    if instrs != [] {
      InstrsInLines(instrs[1..]);
      FirstInstrLine(instrs);
      InstrsInAppend([Does(instrs[0])], InstrLines(instrs[1..]));
      assert [Does(instrs[0])][..0] == [];
      assert instrs == [instrs[0]] + instrs[1..];
    }
  }

  lemma BlockInstrs(b: Block)
    ensures InstrsIn(BlockLines(b)) == b.instrs
  {
    var head, mid, last := [Opens(b.id)], InstrLines(b.instrs), [Ends(b.term)];
    InstrsInLines(b.instrs);
    InstrsInAppend(head, mid);
    InstrsInAppend(head + mid, last);
    assert head[..0] == [] && last[..0] == [];
  }

  lemma {:induction false} AllInstrsFront(blocks: seq<Block>)
    requires blocks != []
    ensures AllInstrs(blocks) == blocks[0].instrs + AllInstrs(blocks[1..])
  {
    var n := |blocks| - 1;
    if n > 0 {
      AllInstrsFront(blocks[..n]);
      assert blocks[..n][1..] == blocks[1..][..n - 1] && blocks[1..][n - 1] == blocks[n];
    } else {
      assert blocks[..0] == [] && blocks[1..] == [];
    }
  }

  lemma {:induction false} LinesInstrs(blocks: seq<Block>)
    ensures InstrsIn(Lines(blocks)) == AllInstrs(blocks)
  {
    if blocks != [] {
      var b := blocks[0];
      LinesInstrs(blocks[1..]);
      AllInstrsFront(blocks);
      BlockInstrs(b);
      InstrsInAppend(BlockLines(b), Lines(blocks[1..]));
      hide InstrsIn, AllInstrs, BlockLines;
    }
  }

  /** The line of an instruction. */
  lemma {:induction false} LineOf(lines: seq<Line>, k: nat) returns (m: nat)
    requires k < |InstrsIn(lines)|
    ensures m < |lines| && lines[m] == Does(InstrsIn(lines)[k]) && InstrsIn(lines[..m]) == InstrsIn(lines)[..k]
  {
    var n := |lines| - 1;
    if k < |InstrsIn(lines[..n])| {
      m := LineOf(lines[..n], k);
      assert lines[..n][..m] == lines[..m];
    } else {
      m := n;
    }
  }

  lemma {:induction false} ResultsOfInstrs(lines: seq<Line>, v: ValueId)
    ensures v in Results(lines) <==> DefinedIn(InstrsIn(lines), v)
  {
    if lines != [] {
      var n := |lines| - 1;
      ResultsOfInstrs(lines[..n], v);
      assert lines == lines[..n] + [lines[n]];
      if lines[n].Does? {
        assert lines[n].instr in InstrsIn(lines);
      }
      forall i | i in InstrsIn(lines) && i.result == v
        ensures v in Results(lines)
      {
        assert i in InstrsIn(lines[..n]) || lines[n] == Does(i);
      }
      forall l | l in lines && l.Does? && l.instr.result == v
        ensures DefinedIn(InstrsIn(lines), v)
      {
        if l in lines[..n] {
          assert v in Results(lines[..n]);
          var i :| i in InstrsIn(lines[..n]) && i.result == v;
          assert i in InstrsIn(lines);
        }
      }
    }
  }

  predicate DefinedIn(prior: seq<Instr>, v: ValueId) {
    exists i | i in prior :: i.result == v
  }

  /** A new result, and operands that are defined above or, in a declaration, the very name declared. */
  lemma CompilableInstr(f: Function, k: nat)
    requires Compilable(f) && k < |AllInstrs(f.blocks)|
    ensures var i := AllInstrs(f.blocks)[k];
            && !DefinedIn(AllInstrs(f.blocks)[..k], i.result)
            && forall v | v in Operands(i.op) ::
                 DefinedIn(AllInstrs(f.blocks)[..k], v) || (v == i.result && !i.op.StoreLocal?)
  {
    var lines := Lines(f.blocks);
    LinesInstrs(f.blocks);
    var m := LineOf(lines, k);
    assert LineOk(f, lines[..m], lines[m]);
    forall v
      ensures v in Results(lines[..m]) <==> DefinedIn(AllInstrs(f.blocks)[..k], v)
    {
      ResultsOfInstrs(lines[..m], v);
    }
    hide Lines, AllInstrs, Results, DefinedIn, InstrsIn;
  }

  lemma CompilableUnique(f: Function)
    requires Compilable(f)
    ensures UniqueResults(f)
  {
    var all := AllInstrs(f.blocks);
    hide AllInstrs, Compilable;
    forall i, j | 0 <= i < j < |all|
      ensures all[i].result != all[j].result
    {
      CompilableInstr(f, j);
      assert all[i] in all[..j];
    }
  }

  // ----- the first pass, as sets of names

  /** Values and locals with a structure name, and the values that got theirs by a load. */
  datatype Marks = Marks(values: set<ValueId>, locals: set<string>, loads: set<ValueId>)

  function MarkedBy(m: Marks, i: Instr): Marks {
    match i.op
    case Alloca(x, _) => Marks(m.values + {i.result}, m.locals + {x}, m.loads)
    case LoadLocal(x) => if x in m.locals then Marks(m.values + {i.result}, m.locals, m.loads + {i.result}) else m
    case StoreLocal(x, v) => if v in m.values then Marks(m.values, m.locals + {x}, m.loads) else m
    case Copy(v) => if v in m.values then Marks(m.values + {i.result}, m.locals, m.loads) else m
    case _ => m
  }

  function MarksOf(instrs: seq<Instr>): Marks {
    if instrs == [] then Marks({}, {}, {}) else MarkedBy(MarksOf(instrs[..|instrs| - 1]), instrs[|instrs| - 1])
  }

  /** Locals that are stored the marked result of a load. */
  function Copied(instrs: seq<Instr>): set<string> {
    if instrs == [] then {} else
    var before, last := instrs[..|instrs| - 1], instrs[|instrs| - 1];
    Copied(before) + if last.op.StoreLocal? && last.op.value in MarksOf(before).loads then {last.op.target} else {}
  }

  /** The maps of the first pass have exactly these keys, and know only structures. */
  ghost predicate SeedHas(lay: Layout, m: Marks, copied: set<string>) {
    && lay.valueStructs.Keys == m.values && lay.localStructs.Keys == m.locals
    && lay.values.Keys == m.loads && lay.locals.Keys == copied
    && (forall v | v in lay.values :: lay.values[v] == Struct)
    && (forall x | x in lay.locals :: lay.locals[x] == Struct)
  }

  lemma SeedStoreStep(lay: Layout, m: Marks, copied: set<string>, name: string, value: ValueId)
    requires SeedHas(lay, m, copied)
    ensures SeedHas(SeedStore(lay, name, value),
                    if value in m.values then Marks(m.values, m.locals + {name}, m.loads) else m,
                    copied + if value in m.loads then {name} else {})
    ensures SeedStore(lay, name, value).params == lay.params && SeedStore(lay, name, value).returnTy == lay.returnTy
  {
  }

  lemma SeedStep(f: Function, lay: Layout, m: Marks, copied: set<string>, i: Instr)
    requires |lay.params| == |f.params| && SimpleOp(i.op) && SeedHas(lay, m, copied)
    ensures var c := if i.op.StoreLocal? && i.op.value in m.loads then {i.op.target} else {};
            SeedHas(SeedInstr(f, lay, i), MarkedBy(m, i), copied + c)
    ensures SeedInstr(f, lay, i).params == lay.params && SeedInstr(f, lay, i).returnTy == lay.returnTy
  {
    if i.op.StoreLocal? {
      SeedStoreStep(lay, m, copied, i.op.target, i.op.value);
      hide SeedHas, SeedStore;
    }
  }

  lemma {:induction false} SeedMarks(f: Function, instrs: seq<Instr>)
    requires forall i | i in instrs :: SimpleOp(i.op)
    ensures var lay := Seed(f, InitialLayout(f), instrs);
            && SeedHas(lay, MarksOf(instrs), Copied(instrs))
            && lay.params == InitialLayout(f).params && lay.returnTy == InitialLayout(f).returnTy
    decreases |instrs|
  {
    if instrs != [] {
      var n := |instrs| - 1;
      SeedMarks(f, instrs[..n]);
      assert instrs[n] in instrs;
      var lay := Seed(f, InitialLayout(f), instrs[..n]);
      SeedStep(f, lay, MarksOf(instrs[..n]), Copied(instrs[..n]), instrs[n]);
      hide SeedInstr, MarkedBy, InitialLayout, SeedHas;
    }
  }

  // ----- the second pass

  function FirstNames(f: Function, n: nat): set<string>
    requires n <= |f.params|
  {
    set k | 0 <= k < n :: f.params[k].name
  }

  /** `n` parameters bound on top of what the first pass found. */
  ghost predicate Bound(f: Function, lay: Layout, n: nat, out: Layout)
    requires n <= |f.params|
  {
    && out.locals.Keys == lay.locals.Keys + FirstNames(f, n)
    && (forall x | x in FirstNames(f, n) :: !Aggregate(out.locals[x]))
    && (forall x | x in lay.locals && x !in FirstNames(f, n) :: out.locals[x] == lay.locals[x])
    && (forall v | v in out.values && Aggregate(out.values[v]) :: v in lay.values && out.values[v] == lay.values[v])
    && out.params == lay.params && out.returnTy == lay.returnTy
  }

  lemma BoundStep(f: Function, lay: Layout, n: nat, out: Layout, t: CType)
    requires n < |f.params| && Bound(f, lay, n, out) && !Aggregate(t)
    ensures Bound(f, lay, n + 1, out.(values := out.values[f.params[n].value := t],
                                      locals := out.locals[f.params[n].name := t]))
  {
    assert FirstNames(f, n + 1) == FirstNames(f, n) + {f.params[n].name};
    hide FirstNames;
  }

  /** Only names of parameters are retyped on the way into the second pass, and not as aggregates. */
  lemma {:induction false} BindParamsTypes(f: Function, lay: Layout, n: nat)
    requires n <= |f.params| == |lay.params| && forall k | 0 <= k < |lay.params| :: !Aggregate(lay.params[k])
    ensures Bound(f, lay, n, BindParams(f, lay, n))
  {
    hide *;
    BindLast(f, lay, n);
    if n > 0 {
      BindParamsTypes(f, lay, n - 1);
      BoundStep(f, lay, n - 1, BindParams(f, lay, n - 1), lay.params[n - 1]);
    }
  }

  lemma BindLast(f: Function, lay: Layout, n: nat)
    requires n <= |f.params| == |lay.params|
    ensures n == 0 ==> Bound(f, lay, n, BindParams(f, lay, n))
    ensures n > 0 ==> var out, t := BindParams(f, lay, n - 1), lay.params[n - 1];
            BindParams(f, lay, n) == out.(values := out.values[f.params[n - 1].value := t],
                                          locals := out.locals[f.params[n - 1].name := t])
  {
    assert FirstNames(f, 0) == {};
  }

  /** What the second pass starts from. */
  lemma SeededHas(f: Function)
    requires forall i | i in AllInstrs(f.blocks) :: SimpleOp(i.op)
    ensures var lay, all := Seeded(f), AllInstrs(f.blocks);
            && (forall x | x in ParamNames(f) :: x in lay.locals && !Aggregate(lay.locals[x]))
            && (forall x | x !in ParamNames(f) ::
                  if x in Copied(all) then lay.LocalType(x) == Some(Struct) else x !in lay.locals)
            && (forall v | v in lay.values && Aggregate(lay.values[v]) ::
                  lay.values[v] == Struct && v in MarksOf(all).loads)
            && lay.params == InitialLayout(f).params && lay.returnTy == InitialLayout(f).returnTy
  {
    var all := AllInstrs(f.blocks);
    SeedMarks(f, all);
    var lay := Seed(f, InitialLayout(f), all);
    assert forall k | 0 <= k < |lay.params| :: !Aggregate(lay.params[k]);
    hide Seed, AllInstrs, InitialLayout, MarksOf, Copied;
    BindParamsTypes(f, lay, |f.params|);
    assert FirstNames(f, |f.params|) == ParamNames(f);
    hide FirstNames, ParamNames;
  }

  lemma {:induction false} LoadsAreLoads(instrs: seq<Instr>, v: ValueId)
    requires v in MarksOf(instrs).loads
    ensures exists j :: 0 <= j < |instrs| && instrs[j].result == v && instrs[j].op.LoadLocal?
  {
    var n := |instrs| - 1;
    if v in MarksOf(instrs[..n]).loads {
      LoadsAreLoads(instrs[..n], v);
    }
  }

  /** An aggregate type left over from the first pass: the value is loaded further down. */
  ghost predicate LoadedLater(all: seq<Instr>, k: nat, v: ValueId) {
    exists j :: k <= j < |all| && all[j].result == v && all[j].op.LoadLocal?
  }

  lemma DefinedFurther(prior: seq<Instr>, longer: seq<Instr>, v: ValueId)
    requires prior <= longer && DefinedIn(prior, v)
    ensures DefinedIn(longer, v)
  {
    var i :| i in prior && i.result == v;
    assert i in longer;
  }

  /** What an instruction reads is not loaded further down. */
  lemma OperandsNotLater(f: Function, k: nat, v: ValueId)
    requires Compilable(f) && k < |AllInstrs(f.blocks)| && v in Operands(AllInstrs(f.blocks)[k].op)
    ensures !LoadedLater(AllInstrs(f.blocks), k, v)
  {
    var all := AllInstrs(f.blocks);
    CompilableInstr(f, k);
    assert !all[k].op.LoadLocal?;
    hide AllInstrs, Compilable, Operands;
    forall j | k < j < |all|
      ensures all[j].result != v
    {
      CompilableInstr(f, j);
      if v == all[k].result {
        assert all[k] in all[..j];
      } else {
        assert all[..k] <= all[..j];
        DefinedFurther(all[..k], all[..j], v);
      }
    }
  }

  // ----- which locals

  /** Locals other than parameters are allocated above their loads. */
  ghost predicate AllocatedAbove(f: Function) {
    var all := AllInstrs(f.blocks);
    forall k | 0 <= k < |all| && all[k].op.LoadLocal? && all[k].op.local !in ParamNames(f) ::
      exists j :: 0 <= j < k && all[j].op.Alloca? && all[j].op.slot == all[k].op.local
  }

  /** Parameters keep the argument they came with. */
  ghost predicate ParamsKept(f: Function) {
    forall i | i in AllInstrs(f.blocks) ::
      && (i.op.StoreLocal? ==> i.op.target !in ParamNames(f))
      && (i.op.Alloca? ==> i.op.slot !in ParamNames(f))
  }

  /** Stored values are loaded or computed: they come from no copy, allocation or other store. */
  ghost predicate StoresPlain(f: Function) {
    forall i, d | i in AllInstrs(f.blocks) && d in AllInstrs(f.blocks) ::
      i.op.StoreLocal? && d.result == i.op.value ==> !d.op.Copy? && !d.op.StoreLocal? && !d.op.Alloca?
  }

  /** Some store to `y` stores what was loaded from an allocated local. */
  ghost predicate StoresLoaded(f: Function, y: string) {
    exists i, d :: i in AllInstrs(f.blocks) && d in AllInstrs(f.blocks)
                   && i.op == StoreLocal(y, d.result) && d.op.LoadLocal? && d.op.local !in ParamNames(f)
  }

  lemma {:induction false} AllocationMarks(instrs: seq<Instr>, j: nat)
    requires j < |instrs| && instrs[j].op.Alloca?
    ensures instrs[j].op.slot in MarksOf(instrs).locals
  {
    var n := |instrs| - 1;
    if j < n {
      AllocationMarks(instrs[..n], j);
    }
  }

  lemma {:induction false} MarkedNamed(f: Function, instrs: seq<Instr>)
    requires forall i | i in instrs ::
               && (i.op.StoreLocal? ==> i.op.target !in ParamNames(f))
               && (i.op.Alloca? ==> i.op.slot !in ParamNames(f))
    ensures MarksOf(instrs).locals !! ParamNames(f)
  {
    hide ParamNames;
    if instrs != [] {
      MarkedNamed(f, instrs[..|instrs| - 1]);
      assert instrs[|instrs| - 1] in instrs;
    }
  }

  /** The loads of a prefix, one by one. */
  lemma {:induction false} LoadsAt(instrs: seq<Instr>, n: nat, v: ValueId)
    requires n <= |instrs|
    ensures v in MarksOf(instrs[..n]).loads
            <==> exists b :: 0 <= b < n && MarkedLoad(instrs, b, v)
    decreases n
  {
    if n > 0 {
      LoadsAt(instrs, n - 1, v);
      assert instrs[..n][..n - 1] == instrs[..n - 1];
      assert v in MarksOf(instrs[..n]).loads
             <==> v in MarksOf(instrs[..n - 1]).loads || MarkedLoad(instrs, n - 1, v);
      hide MarkedLoad, MarksOf;
    }
  }

  ghost predicate MarkedLoad(instrs: seq<Instr>, b: nat, v: ValueId)
    requires b < |instrs|
  {
    instrs[b].result == v && instrs[b].op.LoadLocal? && instrs[b].op.local in MarksOf(instrs[..b]).locals
  }

  ghost predicate CopyingStore(instrs: seq<Instr>, c: nat, y: string)
    requires c < |instrs|
  {
    instrs[c].op.StoreLocal? && instrs[c].op.target == y && instrs[c].op.value in MarksOf(instrs[..c]).loads
  }

  lemma {:induction false} CopiedAt(instrs: seq<Instr>, n: nat, y: string)
    requires n <= |instrs|
    ensures y in Copied(instrs[..n]) <==> exists c :: 0 <= c < n && CopyingStore(instrs, c, y)
    decreases n
  {
    if n > 0 {
      CopiedAt(instrs, n - 1, y);
      assert instrs[..n][..n - 1] == instrs[..n - 1];
      assert y in Copied(instrs[..n]) <==> y in Copied(instrs[..n - 1]) || CopyingStore(instrs, n - 1, y);
      hide CopyingStore, MarksOf, Copied;
    }
  }

  /** What is loaded from an allocated local is marked, and nothing else is. */
  lemma LoadMarked(f: Function, b: nat)
    requires AllocatedAbove(f) && ParamsKept(f)
    requires b < |AllInstrs(f.blocks)| && AllInstrs(f.blocks)[b].op.LoadLocal?
    ensures var all := AllInstrs(f.blocks);
            MarkedLoad(all, b, all[b].result) <==> all[b].op.local !in ParamNames(f)
  {
    var all := AllInstrs(f.blocks);
    hide AllInstrs, ParamNames;
    if all[b].op.local !in ParamNames(f) {
      var j :| 0 <= j < b && all[j].op.Alloca? && all[j].op.slot == all[b].op.local;
      AllocationMarks(all[..b], j);
    }
    MarkedNamed(f, all[..b]);
    hide MarksOf;
  }

  /** Where no parameter is assigned, a local is copied into exactly when it is stored a load of an allocated one. */
  lemma CopiedDirectly(f: Function, y: string)
    requires Compilable(f) && AllocatedAbove(f) && ParamsKept(f)
    ensures y in Copied(AllInstrs(f.blocks)) <==> StoresLoaded(f, y)
  {
    var all := AllInstrs(f.blocks);
    CopiedAt(all, |all|, y);
    assert all[..|all|] == all;
    if y in Copied(all) {
      hide AllInstrs, ParamNames, Copied;
      var c :| 0 <= c < |all| && CopyingStore(all, c, y);
      LoadsAt(all, c, all[c].op.value);
      var b :| 0 <= b < c && MarkedLoad(all, b, all[c].op.value);
      LoadMarked(f, b);
      assert all[c] in all && all[b] in all;
      hide MarksOf, Compilable, AllocatedAbove, ParamsKept;
    }
    if StoresLoaded(f, y) {
      hide AllInstrs, ParamNames, Copied;
      var i, d :| i in all && d in all && i.op == StoreLocal(y, d.result) && d.op.LoadLocal?
                  && d.op.local !in ParamNames(f);
      var c :| 0 <= c < |all| && all[c] == i;
      var b :| 0 <= b < |all| && all[b] == d;
      DefinedAbove(f, c, b);
      LoadMarked(f, b);
      LoadsAt(all, c, d.result);
      assert CopyingStore(all, c, y);
    }
  }

  /** The operand of a store is computed above it. */
  lemma DefinedAbove(f: Function, c: nat, b: nat)
    requires Compilable(f) && c < |AllInstrs(f.blocks)| && b < |AllInstrs(f.blocks)|
    requires AllInstrs(f.blocks)[c].op.StoreLocal?
    requires AllInstrs(f.blocks)[c].op.value == AllInstrs(f.blocks)[b].result
    ensures b < c
  {
    var all := AllInstrs(f.blocks);
    CompilableInstr(f, c);
    CompilableUnique(f);
    hide AllInstrs, Compilable;
    assert all[c].op.value in Operands(all[c].op);
    var i :| i in all[..c] && i.result == all[c].op.value;
    var h :| 0 <= h < c && all[..c][h] == i;
    assert all[h].result == all[b].result;
  }
}
