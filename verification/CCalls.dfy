/** Calls and returns of the simulation, and the stack of suspended activations. */
module CCalls {
  import opened CControl
  import opened CEmission
  import opened CKinds
  import opened CMachine
  import opened CNames
  import opened CSimulation
  import opened CTypes
  import opened CValues
  import opened Mir
  import opened MirEval
  import opened MirKinds
  import opened MirMachine
  import opened Options

  // ----- arguments

  /** Arguments fit the parameters they are passed to. */
  ghost predicate ArgsFit(cx: Context, f: Function, args: seq<Value>) {
    && |args| == |f.params| && f.name in cx.kinds
    && forall k | 0 <= k < |args| ::
         InRange(W64, args[k]) && IsOf(args[k], cx.kinds[f.name].Local(f.params[k].name))
  }

  /** Some object that holds the value, and whose kind can go where `l` is expected, has the datum. */
  ghost predicate Shows(d: Datum, v: Value, l: Kind) {
    exists c, k :: Holds(c, k, v) && Widens(k, l) && c.val == d
  }

  ghost predicate ArgsShown(cx: Context, f: Function, args: seq<Value>, data: seq<Datum>) {
    && f.name in cx.kinds && |f.params| == |args| == |data|
    && forall k | 0 <= k < |args| :: Shows(data[k], args[k], cx.kinds[f.name].Local(f.params[k].name))
  }

  lemma ShownConverts(d: Datum, v: Value, l: Kind, ty: CType)
    requires Shows(d, v, l) && Roomy(ty, l)
    ensures Convert(ty, d) == Some(Cell(ty, Rep(ty, v))) && Holds(Cell(ty, Rep(ty, v)), l, v)
  {
    var c, k :| Holds(c, k, v) && Widens(k, l) && c.val == d;
    ConvertKeeps(c, k, v, ty, l);
  }

  ghost predicate ParamCells(types: seq<CType>, args: seq<Value>, vars: Vars)
    requires |types| == |args|
  {
    forall k | 0 <= k < |args| ::
      ParamName(k) in vars && vars[ParamName(k)] == Cell(types[k], Rep(types[k], args[k]))
  }

  lemma {:induction false} ArgsBound(types: seq<CType>, kinds: seq<Kind>, args: seq<Value>, data: seq<Datum>)
    requires |types| == |kinds| == |args| == |data|
    requires forall k | 0 <= k < |args| :: Shows(data[k], args[k], kinds[k]) && Roomy(types[k], kinds[k])
    ensures BindArgs(types, data).Some?
    ensures ParamCells(types, args, BindArgs(types, data).value)
  {
    hide Shows, Roomy;
    if types != [] {
      var n := |types| - 1;
      ArgsBound(types[..n], kinds[..n], args[..n], data[..n]);
      ShownConverts(data[n], args[n], kinds[n], types[n]);
      hide ParamName, Convert, Rep;
      forall k: nat
        ensures ParamName(k) == ParamName(n) <==> k == n
      {
        ParamNamesDistinct(k, n);
      }
    }
  }

  lemma ArgRead(cx: Context, m: Frame, vars: Vars, v: ValueId)
    requires StoreRel(cx, m, vars) && v in m.vals && v !in ParamIds(m.fn)
    ensures ValueName(v) in vars && Holds(vars[ValueName(v)], cx.kinds[m.fn.name].Value(v), m.vals[v])
  {
    hide ValueName, LocalName, LocalsHeld, ParamIds;
  }

  lemma {:induction false} ArgsRead(cx: Context, m: Frame, vars: Vars, vs: seq<ValueId>)
    requires StoreRel(cx, m, vars) && LookupAll(m.vals, vs).Some?
    requires forall v | v in vs :: v !in ParamIds(m.fn)
    ensures var data := ReadAll(vars, ValueNames(vs));
            && data.Some? && |data.value| == |vs|
            && forall k | 0 <= k < |vs| :: ValueName(vs[k]) in vars && data.value[k] == vars[ValueName(vs[k])].val
  {
    hide ValueName, StoreRel, ParamIds, Holds;
    if vs == [] {
      assert ValueNames(vs) == [];
    } else {
      var n := |vs| - 1;
      ArgsRead(cx, m, vars, vs[..n]);
      assert vs[n] in vs;
      ArgRead(cx, m, vars, vs[n]);
      assert ValueNames(vs)[..n] == ValueNames(vs[..n]);
    }
  }

  // ----- entering a function

  lemma {:induction false} BoundAreParams(params: seq<Param>, args: seq<Value>, v: ValueId)
    requires |params| == |args| && v in Bind(params, args)
    ensures exists p :: p in params && p.value == v
  {
    var n := |params| - 1;
    if v == params[n].value {
      assert params[n] in params;
    } else {
      BoundAreParams(params[..n], args[..n], v);
    }
  }

  /** Aliases run so far have declared the locals of the first `k` parameters. */
  ghost predicate AliasRel(cx: Context, f: Function, args: seq<Value>, k: nat, vars: Vars)
    requires k <= |f.params| == |args|
  {
    && f.name in cx.kinds && f.name in cx.names && f.name in cx.layouts
    && LocalsHeld(cx.kinds[f.name], cx.names[f.name], BindLocals(f.params[..k], args[..k]), vars)
    && forall j | 0 <= j < |args| ::
         var ty := ParamType(cx.layouts[f.name], j);
         ParamName(j) in vars && vars[ParamName(j)] == Cell(ty, Rep(ty, args[j]))
  }

  lemma AliasStep(cx: Context, prog: seq<CFunction>, f: Function, args: seq<Value>, k: nat, s: CState)
      returns (vars: Vars)
    requires cx.Ok() && f in cx.fs && ArgsFit(cx, f, args) && k < |f.params|
    requires s.CRunning? && AliasRel(cx, f, args, k, s.top.vars)
    requires s.top.rest != [] && s.top.rest[0] == Alias(f, cx.layouts[f.name], k)
    ensures CStep(prog, s) == Some(s.(top := s.top.(vars := vars, rest := s.top.rest[1..])))
    ensures AliasRel(cx, f, args, k + 1, vars)
  {
    hide LocalName, ParamName;
    var lay, kinds, names := cx.layouts[f.name], cx.kinds[f.name], cx.names[f.name];
    assert FunctionOk(cx.fs, cx.kinds, lay, names, f);
    var x, ty := f.params[k].name, ParamType(lay, k);
    var cell := Cell(ty, Rep(ty, args[k]));
    ConvertKeeps(cell, kinds.Local(x), args[k], ty, kinds.Local(x));
    vars := s.top.vars[LocalName(x) := cell];
    LocalSet(kinds, {}, names, map[], BindLocals(f.params[..k], args[..k]), s.top.vars, x, args[k], cell);
    assert f.params[..k + 1][..k] == f.params[..k] && args[..k + 1][..k] == args[..k];
    forall j: nat
      ensures ParamName(j) != LocalName(x)
    {
      SpacesDisjoint(0, x, j);
    }
  }

  /** `k` aliases have run, and the others are next. */
  ghost predicate AliasesLeft(cx: Context, f: Function, args: seq<Value>, k: nat, s: CState, tail: seq<CStmt>) {
    && |args| == |f.params| && k <= |f.params| && s.CRunning?
    && AliasRel(cx, f, args, k, s.top.vars)
    && s.top.rest == EmitAliases(f, cx.layouts[f.name], k) + tail
  }

  lemma {:induction false} AliasesRun(cx: Context, prog: seq<CFunction>, f: Function, args: seq<Value>, k: nat,
                                      s: CState, tail: seq<CStmt>)
      returns (end: CState)
    requires cx.Ok() && f in cx.fs && ArgsFit(cx, f, args)
    requires k <= |f.params| && AliasesLeft(cx, f, args, k, s, tail)
    ensures CSteps(prog, s, |f.params| - k) == Some(end) && OnlyVars(s, end)
    ensures AliasesLeft(cx, f, args, |f.params|, end, tail)
    decreases |f.params| - k
  {
    hide *;
    if k == |f.params| {
      end := s;
      CStepsNone(prog, s);
      NothingMoved(cx, f, args, k, s, tail);
    } else {
      var next := AliasNext(cx, prog, f, args, k, s, tail);
      end := AliasesRun(cx, prog, f, args, k + 1, next, tail);
      CStepsFirst(prog, s, next, |f.params| - (k + 1));
      VarsOnward(s, next, end);
    }
  }

  /** The same activation on the same stack, elsewhere and with other variables. */
  ghost predicate OnlyVars(s: CState, t: CState) {
    s.CRunning? && t.CRunning? && s.top.fn == t.top.fn && s.callers == t.callers && s.trace == t.trace
  }

  lemma NothingMoved(cx: Context, f: Function, args: seq<Value>, k: nat, s: CState, tail: seq<CStmt>)
    requires AliasesLeft(cx, f, args, k, s, tail)
    ensures OnlyVars(s, s)
  {
  }

  lemma VarsOnward(s: CState, t: CState, u: CState)
    requires OnlyVars(s, t) && OnlyVars(t, u)
    ensures OnlyVars(s, u)
  {
  }

  lemma AliasNext(cx: Context, prog: seq<CFunction>, f: Function, args: seq<Value>, k: nat, s: CState,
                  tail: seq<CStmt>)
      returns (next: CState)
    requires cx.Ok() && f in cx.fs && ArgsFit(cx, f, args)
    requires k < |f.params| && AliasesLeft(cx, f, args, k, s, tail)
    ensures CStep(prog, s) == Some(next) && OnlyVars(s, next) && AliasesLeft(cx, f, args, k + 1, next, tail)
  {
    assert AliasRel(cx, f, args, k, s.top.vars);
    AliasLines(f, cx.layouts[f.name], k, tail);
    hide AliasRel, EmitAliases, Alias, Context.Ok, ArgsFit, CStep;
    var mid := AliasStep(cx, prog, f, args, k, s);
    next := s.(top := s.top.(vars := mid, rest := s.top.rest[1..]));
    assert next.top.rest == EmitAliases(f, cx.layouts[f.name], k + 1) + tail;
    assert f.name in cx.layouts;
  }

  lemma AliasLines(f: Function, lay: Layout, k: nat, tail: seq<CStmt>)
    requires k <= |f.params|
    ensures var code := EmitAliases(f, lay, k) + tail;
            if k == |f.params| then code == tail
            else code != [] && code[0] == Alias(f, lay, k) && code[1..] == EmitAliases(f, lay, k + 1) + tail
  {
  }

  lemma CStepsNone(prog: seq<CFunction>, s: CState)
    ensures CSteps(prog, s, 0) == Some(s)
  {
  }

  /** A function just entered, both here and there. */
  lemma EntrySimulates(cx: Context, prog: seq<CFunction>, f: Function, args: seq<Value>, data: seq<Datum>,
                       c0: CFrame, callers: seq<CFrame>, t: Trace)
      returns (c: CFrame)
    requires cx.Ok() && f in cx.fs && ArgsFit(cx, f, args) && ArgsShown(cx, f, args, data) && Enter(f, args).Some?
    requires CEnter(EmitFunction(f, cx.layouts[f.name]), data) == Some(c0)
    ensures CSteps(prog, CRunning(c0, callers, CTraceOf(t)), |f.params| + 1)
            == Some(CRunning(c, callers, CTraceOf(t + [(f.name, f.entry)])))
    ensures FrameRel(cx, Enter(f, args).value, c)
  {
    hide CStep, EmitBlock, InstrOk, TermOk, CTraceOf, LocalName, ParamName, ValueName;
    var lay := cx.layouts[f.name];
    assert FunctionOk(cx.fs, cx.kinds, lay, cx.names[f.name], f);
    var s := CRunning(c0, callers, CTraceOf(t));
    var body := EmitBlocks(lay, f.blocks, IsMain(f));
    EntryCells(cx, f, args, data, c0);
    assert AliasesLeft(cx, f, args, 0, s, body);
    var at := AliasesRun(cx, prog, f, args, 0, s, body);
    var vars := at.top.vars;
    AliasLines(f, lay, |f.params|, body);
    assert at == s.(top := c0.(vars := vars, rest := body));
    var m := Enter(f, args).value;
    assert f.blocks[0] == FindBlock(f.blocks, f.entry).value;
    EntryStore(cx, f, args, vars);
    c := LabelRuns(cx, prog, m, f.blocks[0], at, t);
    assert CSteps(prog, at, 1) == CStep(prog, at) by {
      assert CSteps(prog, CStep(prog, at).value, 0) == CStep(prog, at);
    }
    CStepsAdd(prog, s, |f.params|, 1);
  }

  lemma EntryCells(cx: Context, f: Function, args: seq<Value>, data: seq<Datum>, c0: CFrame)
    requires cx.Ok() && f in cx.fs && ArgsFit(cx, f, args) && ArgsShown(cx, f, args, data)
    requires CEnter(EmitFunction(f, cx.layouts[f.name]), data) == Some(c0)
    ensures AliasRel(cx, f, args, 0, c0.vars)
    ensures c0.fn == EmitFunction(f, cx.layouts[f.name]) && c0.rest == c0.fn.body
  {
    hide ParamName, LocalName, Rep, Shows;
    EntryBinds(cx, f, args, data);
    assert f.params[..0] == [];
  }

  lemma EntryBinds(cx: Context, f: Function, args: seq<Value>, data: seq<Datum>)
    requires cx.Ok() && f in cx.fs && ArgsShown(cx, f, args, data)
    ensures var types := EmitFunction(f, cx.layouts[f.name]).params;
            && |types| == |data| && (forall k | 0 <= k < |data| :: types[k] == ParamType(cx.layouts[f.name], k))
            && BindArgs(types, data).Some? && ParamCells(types, args, BindArgs(types, data).value)
  {
    hide ParamName, LocalName, Rep, Shows, EmitAliases, EmitBlocks;
    var lay := cx.layouts[f.name];
    assert FunctionOk(cx.fs, cx.kinds, lay, cx.names[f.name], f);
    var types := EmitFunction(f, lay).params;
    var kinds := seq(|f.params|, k requires 0 <= k < |f.params| => cx.kinds[f.name].Local(f.params[k].name));
    ArgsBound(types, kinds, args, data);
  }

  lemma EntryStore(cx: Context, f: Function, args: seq<Value>, vars: Vars)
    requires cx.Ok() && f in cx.fs && ArgsFit(cx, f, args) && Enter(f, args).Some?
    requires AliasRel(cx, f, args, |f.params|, vars)
    ensures StoreRel(cx, Enter(f, args).value, vars)
  {
    hide LocalsHeld, ParamName;
    var m := Enter(f, args).value;
    assert FunctionOk(cx.fs, cx.kinds, cx.layouts[f.name], cx.names[f.name], f);
    assert f.params[..|f.params|] == f.params && args[..|args|] == args;
    forall v | v in m.vals
      ensures v in ParamIds(f)
    {
      BoundAreParams(f.params, args, v);
    }
  }
}
