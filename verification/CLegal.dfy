/**
 Which emitted functions a C compiler takes at all: one scope a body, so names are declared once and
 before they are used, labels are placed once and before any jump is missing one, and cases differ.
 */
module CLegal {
  import opened CEmission
  import opened CMachine
  import opened CNames
  import opened CTypes
  import opened Mir
  import opened Sequences

  // ----- what C asks of a function

  function ReadBy(e: CExpr): set<string> {
    match e
    case Var(x) => {x}
    case Infix(_, l, r) => {l, r}
    case Prefix(_, x) => {x}
    case CallTo(_, args) => set x | x in args
    case _ => {}
  }

  function Uses(s: CStmt): set<string> {
    match s
    case Decl(_, _, e) => ReadBy(e)
    case Assign(x, y) => {x, y}
    case IfGoto(x, _, _) => {x}
    case SwitchGoto(x, _, _) => {x}
    case ReturnVar(x) => {x}
    case ReturnIntCast(x) => {x}
    case _ => {}
  }

  function Declares(s: CStmt): set<string> {
    if s.Decl? then {s.name} else {}
  }

  function DeclaredBy(body: seq<CStmt>): set<string> {
    if body == [] then {} else DeclaredBy(body[..|body| - 1]) + Declares(body[|body| - 1])
  }

  /** A name may be declared once, and is in scope from its declarator on (section 6.2.1 of ISO/IEC 9899). */
  predicate WellScoped(body: seq<CStmt>, scope: set<string>) {
    body == []
    || var n := |body| - 1;
       var here := scope + DeclaredBy(body[..n]);
       WellScoped(body[..n], scope) && Declares(body[n]) !! here && Uses(body[n]) <= here + Declares(body[n])
  }

  function LabelsOf(body: seq<CStmt>): seq<nat> {
    if body == [] then [] else
    LabelsOf(body[..|body| - 1]) + if body[|body| - 1].Label? then [body[|body| - 1].id] else []
  }

  function JumpsTo(s: CStmt): set<nat> {
    match s
    case Goto(l) => {l}
    case IfGoto(_, t, e) => {t, e}
    case SwitchGoto(_, cases, default) => (set c | c in cases :: c.1) + {default}
    case _ => {}
  }

  predicate CasesDiffer(s: CStmt) {
    s.SwitchGoto? ==> forall i, j | 0 <= i < j < |s.cases| :: s.cases[i].0 != s.cases[j].0
  }

  /** Every jump of the body has a place to go, and no switch has two cases of one value. */
  predicate JumpsPlaced(body: seq<CStmt>, labels: set<nat>) {
    forall s | s in body :: JumpsTo(s) <= labels && CasesDiffer(s)
  }

  function ParamScope(params: nat): set<string> {
    set k | 0 <= k < params :: ParamName(k)
  }

  predicate Legal(cf: CFunction) {
    && WellScoped(cf.body, ParamScope(|cf.params|))
    && Distinct(LabelsOf(cf.body))
    && JumpsPlaced(cf.body, set l | l in LabelsOf(cf.body))
  }

  // ----- what that means for the MIR function

  /** Those with lines of their own in the model: all but calls that print. */
  predicate Emittable(op: Op) {
    SimpleOp(op) && (op.Call? ==> !IsPrintBuiltin(op.callee))
  }

  function Successors(t: Terminator): set<BlockId> {
    match t
    case Jump(b) => {b}
    case Branch(_, t, e) => {t, e}
    case Switch(_, cases, default) => (set c | c in cases :: c.1) + {default}
    case _ => {}
  }

  /** A function in the order it is printed. */
  datatype Line = Opens(id: BlockId) | Does(instr: Instr) | Ends(term: Terminator)

  function InstrLines(instrs: seq<Instr>): seq<Line> {
    seq(|instrs|, k requires 0 <= k < |instrs| => Does(instrs[k]))
  }

  function BlockLines(b: Block): seq<Line> {
    [Opens(b.id)] + InstrLines(b.instrs) + [Ends(b.term)]
  }

  function Lines(blocks: seq<Block>): seq<Line> {
    if blocks == [] then [] else BlockLines(blocks[0]) + Lines(blocks[1..])
  }

  lemma FirstInstrLine(instrs: seq<Instr>)
    requires instrs != []
    ensures InstrLines(instrs) == [Does(instrs[0])] + InstrLines(instrs[1..])
  {
  }

  function Results(prior: seq<Line>): set<ValueId> {
    set l | l in prior && l.Does? :: l.instr.result
  }

  /** The C variables of parameters and of the locals allocated so far. */
  function LocalVars(f: Function, prior: seq<Line>): set<string> {
    (set p | p in f.params :: LocalName(p.name))
    + set l | l in prior && l.Does? && l.instr.op.Alloca? :: LocalName(l.instr.op.slot)
  }

  /** A new value id, operands that have one already, a new local or one that has a variable. */
  predicate LineOk(f: Function, prior: seq<Line>, line: Line) {
    match line
    case Opens(_) => true
    case Does(i) =>
      && i.result !in Results(prior)
      && (forall v | v in Operands(i.op) :: v in Results(prior) || (v == i.result && !i.op.StoreLocal?))
      && (i.op.Alloca? ==> LocalName(i.op.slot) !in LocalVars(f, prior))
      && (i.op.LoadLocal? ==> LocalName(i.op.local) in LocalVars(f, prior))
      && (i.op.StoreLocal? ==> LocalName(i.op.target) in LocalVars(f, prior))
    case Ends(t) => TermOperands(t) <= Results(prior)
  }

  predicate LinesOk(f: Function, lines: seq<Line>) {
    forall k | 0 <= k < |lines| :: LineOk(f, lines[..k], lines[k])
  }

  predicate ParamsApart(f: Function) {
    forall i, j | 0 <= i < j < |f.params| :: LocalName(f.params[i].name) != LocalName(f.params[j].name)
  }

  function BlockIds(blocks: seq<Block>): (ids: seq<BlockId>)
    ensures |ids| == |blocks| && forall k | 0 <= k < |blocks| :: ids[k] == blocks[k].id
  {
    if blocks == [] then [] else [blocks[0].id] + BlockIds(blocks[1..])
  }

  predicate JumpsKnown(blocks: seq<Block>, ids: set<BlockId>) {
    forall b | b in blocks ::
      && Successors(b.term) <= ids
      && (b.term.Switch? ==> forall i, j | 0 <= i < j < |b.term.cases| :: b.term.cases[i].0 != b.term.cases[j].0)
  }

  /**
   Value ids and block ids are unique; no local is allocated twice, or under a parameter's name, as
   far as mangling tells names apart; everything is defined above its uses; jumps lead somewhere.
   */
  predicate Compilable(f: Function) {
    && ParamsApart(f)
    && (IsMain(f) ==> f.params == [])
    && LinesOk(f, Lines(f.blocks))
    && Distinct(BlockIds(f.blocks))
    && JumpsKnown(f.blocks, set id | id in BlockIds(f.blocks))
  }

  predicate AllEmittable(blocks: seq<Block>) {
    forall b, i | b in blocks && i in b.instrs :: Emittable(i.op)
  }

  // ----- scopes of code put together

  lemma {:induction false} DeclaredByAppend(a: seq<CStmt>, b: seq<CStmt>)
    ensures DeclaredBy(a + b) == DeclaredBy(a) + DeclaredBy(b)
  {
    if b == [] {
      assert a + b == a;
    } else {
      var n := |b| - 1;
      assert (a + b)[..|a| + n] == a + b[..n];
      DeclaredByAppend(a, b[..n]);
    }
  }

  lemma {:induction false} WellScopedAppend(a: seq<CStmt>, b: seq<CStmt>, scope: set<string>)
    ensures WellScoped(a + b, scope) <==> WellScoped(a, scope) && WellScoped(b, scope + DeclaredBy(a))
  {
    if b == [] {
      assert a + b == a;
    } else {
      var n := |b| - 1;
      assert (a + b)[..|a| + n] == a + b[..n];
      WellScopedAppend(a, b[..n], scope);
      DeclaredByAppend(a, b[..n]);
      assert scope + DeclaredBy(a) + DeclaredBy(b[..n]) == scope + DeclaredBy(a + b[..n]);
    }
  }

  lemma OneScoped(s: CStmt, scope: set<string>)
    ensures DeclaredBy([s]) == Declares(s)
    ensures WellScoped([s], scope) <==> Declares(s) !! scope && Uses(s) <= scope + Declares(s)
  {
    assert [s][..0] == [];
  }

  lemma TwoScoped(s: CStmt, t: CStmt, scope: set<string>)
    ensures DeclaredBy([s, t]) == Declares(s) + Declares(t)
    ensures WellScoped([s, t], scope)
            <==> && Declares(s) !! scope && Uses(s) <= scope + Declares(s)
                 && Declares(t) !! scope + Declares(s) && Uses(t) <= scope + Declares(s) + Declares(t)
  {
    OneScoped(s, scope);
    OneScoped(t, scope + Declares(s));
    assert [s, t] == [s] + [t];
    WellScopedAppend([s], [t], scope);
    DeclaredByAppend([s], [t]);
    hide WellScoped, DeclaredBy, Uses;
  }

  // ----- the code of a line

  function EmitLine(lay: Layout, line: Line, isMain: bool): seq<CStmt> {
    match line
    case Opens(id) => [Label(id)]
    case Does(i) => EmitInstr(lay, i)
    case Ends(t) => [EmitTerm(t, isMain)]
  }

  function EmitLines(lay: Layout, lines: seq<Line>, isMain: bool): seq<CStmt> {
    if lines == [] then [] else
    EmitLines(lay, lines[..|lines| - 1], isMain) + EmitLine(lay, lines[|lines| - 1], isMain)
  }

  lemma {:induction false} EmitLinesAppend(lay: Layout, a: seq<Line>, b: seq<Line>, isMain: bool)
    ensures EmitLines(lay, a + b, isMain) == EmitLines(lay, a, isMain) + EmitLines(lay, b, isMain)
  {
    hide EmitLine;
    if b == [] {
      assert a + b == a;
    } else {
      var n := |b| - 1;
      assert (a + b)[..|a| + n] == a + b[..n];
      EmitLinesAppend(lay, a, b[..n], isMain);
    }
  }

  lemma EmitOneLine(lay: Layout, line: Line, isMain: bool)
    ensures EmitLines(lay, [line], isMain) == EmitLine(lay, line, isMain)
  {
    hide EmitLine;
    assert [line][..0] == [];
    assert EmitLines(lay, [], isMain) == [];
  }

  lemma {:induction false} EmitInstrLines(lay: Layout, instrs: seq<Instr>, isMain: bool)
    ensures EmitLines(lay, InstrLines(instrs), isMain) == EmitInstrs(lay, instrs)
  {
    hide EmitInstr;
    if instrs != [] {
      EmitInstrLines(lay, instrs[1..], isMain);
      FirstInstrLine(instrs);
      EmitLinesAppend(lay, [Does(instrs[0])], InstrLines(instrs[1..]), isMain);
      EmitOneLine(lay, Does(instrs[0]), isMain);
      hide EmitLines, InstrLines;
    }
  }

  lemma {:induction false} EmitBlockLines(lay: Layout, blocks: seq<Block>, isMain: bool)
    ensures EmitLines(lay, Lines(blocks), isMain) == EmitBlocks(lay, blocks, isMain)
  {
    if blocks != [] {
      var b := blocks[0];
      EmitBlockLines(lay, blocks[1..], isMain);
      EmitInstrLines(lay, b.instrs, isMain);
      EmitOneLine(lay, Opens(b.id), isMain);
      EmitOneLine(lay, Ends(b.term), isMain);
      var head, mid, last := [Opens(b.id)], InstrLines(b.instrs), [Ends(b.term)];
      EmitLinesAppend(lay, head, mid, isMain);
      EmitLinesAppend(lay, head + mid, last, isMain);
      EmitLinesAppend(lay, head + mid + last, Lines(blocks[1..]), isMain);
      hide EmitLines, EmitInstrs, EmitTerm;
    }
  }

  // ----- names in scope

  /** Everything declared above a line. */
  function ScopeOf(f: Function, params: nat, prior: seq<Line>): set<string> {
    ParamScope(params) + LocalVars(f, prior) + set v | v in Results(prior) :: ValueName(v)
  }

  lemma ValueInScope(f: Function, params: nat, prior: seq<Line>, v: ValueId)
    ensures ValueName(v) in ScopeOf(f, params, prior) <==> v in Results(prior)
  {
    hide ValueName, LocalName, ParamName, Results;
    forall w
      ensures ValueName(v) == ValueName(w) <==> v == w
    {
      ValueNamesDistinct(v, w);
    }
    forall x
      ensures ValueName(v) != LocalName(x)
    {
      SpacesDisjoint(v, x, 0);
    }
    forall k: nat
      ensures ValueName(v) != ParamName(k)
    {
      SpacesDisjoint(v, "", k);
    }
  }

  lemma LocalInScope(f: Function, params: nat, prior: seq<Line>, x: string)
    ensures LocalName(x) in ScopeOf(f, params, prior) <==> LocalName(x) in LocalVars(f, prior)
  {
    hide ValueName, LocalName, ParamName, Results, LocalVars;
    forall v
      ensures ValueName(v) != LocalName(x)
    {
      SpacesDisjoint(v, x, 0);
    }
    forall k: nat
      ensures LocalName(x) != ParamName(k)
    {
      SpacesDisjoint(0, x, k);
    }
  }

  lemma LineDeclares(f: Function, params: nat, lay: Layout, prior: seq<Line>, line: Line, isMain: bool)
    requires line.Does? ==> Emittable(line.instr.op)
    ensures ScopeOf(f, params, prior + [line]) == ScopeOf(f, params, prior) + DeclaredBy(EmitLine(lay, line, isMain))
  {
    hide ValueName, LocalName, ParamScope;
    LineGrows(f, prior, line);
    if line.Does? {
      InstrDeclares(lay, line.instr);
    } else {
      OneScoped(EmitLine(lay, line, isMain)[0], {});
    }
    hide LocalVars, Results, DeclaredBy, EmitInstr;
  }

  lemma LineGrows(f: Function, prior: seq<Line>, line: Line)
    ensures Results(prior + [line]) == Results(prior) + if line.Does? then {line.instr.result} else {}
    ensures LocalVars(f, prior + [line])
            == LocalVars(f, prior) + if line.Does? && line.instr.op.Alloca? then {LocalName(line.instr.op.slot)} else {}
  {
    hide LocalName;
  }

  lemma InstrDeclares(lay: Layout, i: Instr)
    requires Emittable(i.op)
    ensures DeclaredBy(EmitInstr(lay, i))
            == {ValueName(i.result)} + if i.op.Alloca? then {LocalName(i.op.slot)} else {}
  {
    hide ValueName, LocalName;
    var code := EmitInstr(lay, i);
    if |code| == 1 {
      OneScoped(code[0], {});
      assert code == [code[0]];
    } else {
      TwoScoped(code[0], code[1], {});
      assert code == [code[0], code[1]];
    }
    hide DeclaredBy, WellScoped;
  }

  /** The variables an instruction other than a load reads are those of its operands. */
  lemma InstrReads(lay: Layout, i: Instr)
    requires Emittable(i.op) && !i.op.StoreLocal? && !i.op.Alloca?
    ensures |EmitInstr(lay, i)| == 1 && Declares(EmitInstr(lay, i)[0]) == {ValueName(i.result)}
    ensures Uses(EmitInstr(lay, i)[0])
            == if i.op.LoadLocal? then {LocalName(i.op.local)} else set v | v in Operands(i.op) :: ValueName(v)
  {
    hide ValueName, LocalName;
    if i.op.Call? {
      var names := ValueNames(i.op.args);
      assert forall k | 0 <= k < |names| :: names[k] == ValueName(i.op.args[k]);
    }
  }

  lemma OperandsScoped(f: Function, params: nat, prior: seq<Line>, vs: set<ValueId>, res: ValueId)
    ensures (set v | v in vs :: ValueName(v)) <= ScopeOf(f, params, prior) + {ValueName(res)}
            <==> forall v | v in vs :: v in Results(prior) || v == res
  {
    forall v
      ensures ValueName(v) in ScopeOf(f, params, prior) <==> v in Results(prior)
      ensures ValueName(v) == ValueName(res) <==> v == res
    {
      ValueInScope(f, params, prior, v);
      ValueNamesDistinct(v, res);
    }
    hide ValueName, ScopeOf, Results;
    var named := set v | v in vs :: ValueName(v);
    forall v | v in vs
      ensures ValueName(v) in named
    {
    }
    if forall v | v in vs :: v in Results(prior) || v == res {
      forall x | x in named
        ensures x in ScopeOf(f, params, prior) + {ValueName(res)}
      {
        var v :| v in vs && x == ValueName(v);
      }
    }
  }

  lemma StoreScoped(f: Function, params: nat, lay: Layout, prior: seq<Line>, i: Instr)
    requires i.op.StoreLocal?
    ensures WellScoped(EmitInstr(lay, i), ScopeOf(f, params, prior)) <==> LineOk(f, prior, Does(i))
  {
    var scope := ScopeOf(f, params, prior);
    ValueInScope(f, params, prior, i.result);
    ValueInScope(f, params, prior, i.op.value);
    LocalInScope(f, params, prior, i.op.target);
    hide ValueName, LocalName, ScopeOf, Results, LocalVars;
    TwoScoped(Assign(LocalName(i.op.target), ValueName(i.op.value)),
              Decl(lay.ValueType(i.result), ValueName(i.result), Var(ValueName(i.op.value))), scope);
    hide WellScoped, DeclaredBy;
  }

  lemma AllocaScoped(f: Function, params: nat, lay: Layout, prior: seq<Line>, i: Instr)
    requires i.op.Alloca?
    ensures WellScoped(EmitInstr(lay, i), ScopeOf(f, params, prior)) <==> LineOk(f, prior, Does(i))
  {
    var scope := ScopeOf(f, params, prior);
    ValueInScope(f, params, prior, i.result);
    LocalInScope(f, params, prior, i.op.slot);
    SpacesDisjoint(i.result, i.op.slot, 0);
    hide ValueName, LocalName, ScopeOf, Results, LocalVars;
    var localTy, ty := OrElse(lay.LocalType(i.op.slot), Int), lay.ValueType(i.result);
    TwoScoped(Decl(localTy, LocalName(i.op.slot), DefaultValue(localTy)),
              Decl(ty, ValueName(i.result), DefaultValue(ty)), scope);
    hide WellScoped, DeclaredBy;
  }

  lemma InstrScoped(f: Function, params: nat, lay: Layout, prior: seq<Line>, i: Instr)
    requires Emittable(i.op)
    ensures WellScoped(EmitInstr(lay, i), ScopeOf(f, params, prior)) <==> LineOk(f, prior, Does(i))
  {
    if i.op.StoreLocal? {
      StoreScoped(f, params, lay, prior, i);
    } else if i.op.Alloca? {
      AllocaScoped(f, params, lay, prior, i);
    } else {
      InstrReads(lay, i);
      var scope, s := ScopeOf(f, params, prior), EmitInstr(lay, i)[0];
      assert EmitInstr(lay, i) == [s];
      OneScoped(s, scope);
      ValueInScope(f, params, prior, i.result);
      if i.op.LoadLocal? {
        LocalInScope(f, params, prior, i.op.local);
        SpacesDisjoint(i.result, i.op.local, 0);
      } else {
        OperandsScoped(f, params, prior, Operands(i.op), i.result);
      }
      hide WellScoped, DeclaredBy, ScopeOf, Results, LocalVars, EmitInstr, ValueName, LocalName, Uses, Declares;
    }
  }

  lemma TermScoped(f: Function, params: nat, prior: seq<Line>, t: Terminator, isMain: bool)
    ensures WellScoped([EmitTerm(t, isMain)], ScopeOf(f, params, prior)) <==> LineOk(f, prior, Ends(t))
  {
    OneScoped(EmitTerm(t, isMain), ScopeOf(f, params, prior));
    forall v
      ensures ValueName(v) in ScopeOf(f, params, prior) <==> v in Results(prior)
    {
      ValueInScope(f, params, prior, v);
    }
    hide ScopeOf, Results, ValueName, WellScoped, DeclaredBy;
  }

  lemma LineScoped(f: Function, params: nat, lay: Layout, prior: seq<Line>, line: Line, isMain: bool)
    requires line.Does? ==> Emittable(line.instr.op)
    ensures WellScoped(EmitLine(lay, line, isMain), ScopeOf(f, params, prior)) <==> LineOk(f, prior, line)
  {
    match line
    case Opens(id) =>
      OneScoped(Label(id), ScopeOf(f, params, prior));
      hide ScopeOf, WellScoped;
    case Does(i) => InstrScoped(f, params, lay, prior, i);
    case Ends(t) => TermScoped(f, params, prior, t, isMain);
  }

  ghost predicate EmittableLines(lines: seq<Line>) {
    forall l | l in lines :: l.Does? ==> Emittable(l.instr.op)
  }

  lemma {:induction false} LinesScoped(f: Function, params: nat, lay: Layout, lines: seq<Line>, isMain: bool)
    requires EmittableLines(lines)
    ensures WellScoped(EmitLines(lay, lines, isMain), ScopeOf(f, params, [])) <==> LinesOk(f, lines)
    ensures ScopeOf(f, params, []) + DeclaredBy(EmitLines(lay, lines, isMain)) == ScopeOf(f, params, lines)
  {
    hide *;
    if lines == [] {
      NoLines(f, params, lay, isMain);
    } else {
      var n := |lines| - 1;
      var front, last := lines[..n], lines[n];
      assert lines == front + [last];
      EmittableSplit(front, last);
      LinesScoped(f, params, lay, front, isMain);
      LineScoped(f, params, lay, front, last, isMain);
      LineDeclares(f, params, lay, front, last, isMain);
      var a, b := EmitLines(lay, front, isMain), EmitLine(lay, last, isMain);
      WellScopedAppend(a, b, ScopeOf(f, params, []));
      DeclaredByAppend(a, b);
      EmitLinesAppend(lay, front, [last], isMain);
      EmitOneLine(lay, last, isMain);
      LinesOkLast(f, lines);
    }
  }

  lemma NoLines(f: Function, params: nat, lay: Layout, isMain: bool)
    ensures WellScoped(EmitLines(lay, [], isMain), ScopeOf(f, params, [])) && LinesOk(f, [])
    ensures DeclaredBy(EmitLines(lay, [], isMain)) == {}
  {
    hide ScopeOf;
  }

  lemma EmittableSplit(front: seq<Line>, last: Line)
    requires EmittableLines(front + [last])
    ensures EmittableLines(front) && (last.Does? ==> Emittable(last.instr.op))
  {
    hide Emittable;
    assert forall l | l in front :: l in front + [last];
    assert last in front + [last];
  }

  lemma LinesOkLast(f: Function, lines: seq<Line>)
    requires lines != []
    ensures var n := |lines| - 1; LinesOk(f, lines) <==> LinesOk(f, lines[..n]) && LineOk(f, lines[..n], lines[n])
  {
    hide LineOk;
    var n := |lines| - 1;
    forall k | 0 <= k < n
      ensures LineOk(f, lines[..n][..k], lines[..n][k]) == LineOk(f, lines[..k], lines[k])
    {
      assert lines[..n][..k] == lines[..k];
    }
    if LinesOk(f, lines[..n]) && LineOk(f, lines[..n], lines[n]) {
      forall k | 0 <= k < |lines|
        ensures LineOk(f, lines[..k], lines[k])
      {
        assert k < n ==> LineOk(f, lines[..n][..k], lines[..n][k]);
      }
    }
    if LinesOk(f, lines) {
      forall k | 0 <= k < n
        ensures LineOk(f, lines[..n][..k], lines[..n][k])
      {
        assert LineOk(f, lines[..k], lines[k]);
      }
    }
  }

  // ----- the aliases in front

  function AliasScope(f: Function, params: nat, k: nat): set<string>
    requires k <= |f.params|
  {
    ParamScope(params) + set j | 0 <= j < k :: LocalName(f.params[j].name)
  }

  predicate ParamsApartFrom(f: Function, k: nat) {
    forall i, j | 0 <= i < j < |f.params| && k <= j :: LocalName(f.params[i].name) != LocalName(f.params[j].name)
  }

  lemma ParamInScope(f: Function, params: nat, k: nat)
    requires k < |f.params|
    ensures ParamName(k) in AliasScope(f, params, k) + {LocalName(f.params[k].name)} <==> k < params
  {
    hide ParamName, LocalName;
    forall j: nat
      ensures ParamName(j) == ParamName(k) <==> j == k
    {
      ParamNamesDistinct(j, k);
    }
    forall x
      ensures LocalName(x) != ParamName(k)
    {
      SpacesDisjoint(0, x, k);
    }
  }

  lemma AliasInScope(f: Function, params: nat, k: nat)
    requires k < |f.params|
    ensures LocalName(f.params[k].name) in AliasScope(f, params, k)
            <==> exists i :: 0 <= i < k && LocalName(f.params[i].name) == LocalName(f.params[k].name)
  {
    hide ParamName, LocalName;
    forall j: nat
      ensures LocalName(f.params[k].name) != ParamName(j)
    {
      SpacesDisjoint(0, f.params[k].name, j);
    }
  }

  lemma AliasScoped(f: Function, params: nat, lay: Layout, k: nat)
    requires k < |f.params|
    ensures WellScoped([Alias(f, lay, k)], AliasScope(f, params, k))
            <==> k < params && forall i | 0 <= i < k :: LocalName(f.params[i].name) != LocalName(f.params[k].name)
    ensures AliasScope(f, params, k) + DeclaredBy([Alias(f, lay, k)]) == AliasScope(f, params, k + 1)
  {
    OneScoped(Alias(f, lay, k), AliasScope(f, params, k));
    ParamInScope(f, params, k);
    AliasInScope(f, params, k);
    hide ParamName, LocalName, WellScoped, DeclaredBy, ParamScope;
  }

  lemma {:induction false} AliasesScoped(f: Function, params: nat, lay: Layout, k: nat)
    requires k <= |f.params|
    ensures WellScoped(EmitAliases(f, lay, k), AliasScope(f, params, k))
            <==> ParamsApartFrom(f, k) && (k < |f.params| ==> |f.params| <= params)
    ensures AliasScope(f, params, k) + DeclaredBy(EmitAliases(f, lay, k)) == AliasScope(f, params, |f.params|)
    decreases |f.params| - k
  {
    hide AliasScope, Alias, LocalName;
    if k < |f.params| {
      AliasesScoped(f, params, lay, k + 1);
      AliasScoped(f, params, lay, k);
      var head, rest := [Alias(f, lay, k)], EmitAliases(f, lay, k + 1);
      WellScopedAppend(head, rest, AliasScope(f, params, k));
      DeclaredByAppend(head, rest);
      ParamsApartSplit(f, k);
      hide WellScoped, DeclaredBy, ParamsApartFrom;
    }
  }

  lemma ParamsApartSplit(f: Function, k: nat)
    requires k < |f.params|
    ensures ParamsApartFrom(f, k)
            <==> && ParamsApartFrom(f, k + 1)
                 && forall i | 0 <= i < k :: LocalName(f.params[i].name) != LocalName(f.params[k].name)
  {
    hide LocalName;
  }

  lemma AliasesDone(f: Function, params: nat)
    ensures AliasScope(f, params, 0) == ParamScope(params)
    ensures AliasScope(f, params, |f.params|) == ScopeOf(f, params, [])
  {
    hide ParamScope, LocalName;
  }

  // ----- labels and jumps

  lemma {:induction false} LabelsOfAppend(a: seq<CStmt>, b: seq<CStmt>)
    ensures LabelsOf(a + b) == LabelsOf(a) + LabelsOf(b)
  {
    if b == [] {
      assert a + b == a;
    } else {
      assert (a + b)[..|a + b| - 1] == a + b[..|b| - 1];
      LabelsOfAppend(a, b[..|b| - 1]);
    }
  }

  ghost predicate Straight(code: seq<CStmt>) {
    forall s | s in code :: !s.Label? && JumpsTo(s) == {} && !s.SwitchGoto?
  }

  lemma {:induction false} StraightHasNoLabels(code: seq<CStmt>)
    requires Straight(code)
    ensures LabelsOf(code) == []
  {
    hide JumpsTo;
    if code != [] {
      StraightHasNoLabels(code[..|code| - 1]);
      assert code[|code| - 1] in code;
    }
  }

  lemma {:induction false} InstrsStraight(lay: Layout, instrs: seq<Instr>)
    ensures Straight(EmitInstrs(lay, instrs))
  {
    if instrs != [] {
      InstrsStraight(lay, instrs[1..]);
    }
  }

  lemma {:induction false} AliasesStraight(f: Function, lay: Layout, k: nat)
    requires k <= |f.params|
    ensures Straight(EmitAliases(f, lay, k))
    decreases |f.params| - k
  {
    if k < |f.params| {
      AliasesStraight(f, lay, k + 1);
    }
  }

  lemma BlockLabels(lay: Layout, b: Block, isMain: bool)
    ensures LabelsOf(EmitBlock(lay, b, isMain)) == [b.id]
  {
    var head, mid, last := [Label(b.id)], EmitInstrs(lay, b.instrs), [EmitTerm(b.term, isMain)];
    InstrsStraight(lay, b.instrs);
    StraightHasNoLabels(mid);
    LabelsOfAppend(head, mid);
    LabelsOfAppend(head + mid, last);
    assert head[..0] == [] && last[..0] == [];
  }

  lemma {:induction false} BlocksLabels(lay: Layout, blocks: seq<Block>, isMain: bool)
    ensures LabelsOf(EmitBlocks(lay, blocks, isMain)) == BlockIds(blocks)
  {
    hide EmitBlock;
    if blocks != [] {
      BlocksLabels(lay, blocks[1..], isMain);
      BlockLabels(lay, blocks[0], isMain);
      LabelsOfAppend(EmitBlock(lay, blocks[0], isMain), EmitBlocks(lay, blocks[1..], isMain));
      hide LabelsOf;
    }
  }

  lemma JumpsAppend(a: seq<CStmt>, b: seq<CStmt>, labels: set<nat>)
    ensures JumpsPlaced(a + b, labels) <==> JumpsPlaced(a, labels) && JumpsPlaced(b, labels)
  {
    hide JumpsTo, CasesDiffer;
  }

  lemma BlockJumps(lay: Layout, b: Block, isMain: bool, ids: set<BlockId>)
    ensures JumpsPlaced(EmitBlock(lay, b, isMain), ids) <==> JumpsKnown([b], ids)
  {
    var head, mid, last := [Label(b.id)], EmitInstrs(lay, b.instrs), [EmitTerm(b.term, isMain)];
    InstrsStraight(lay, b.instrs);
    JumpsAppend(head, mid, ids);
    JumpsAppend(head + mid, last, ids);
    hide EmitInstrs, ValueName;
    assert JumpsPlaced(mid, ids) && JumpsPlaced(head, ids);
    assert EmitTerm(b.term, isMain) in last && b in [b];
  }

  lemma JumpsKnownFirst(blocks: seq<Block>, ids: set<BlockId>)
    requires blocks != []
    ensures JumpsKnown(blocks, ids) <==> JumpsKnown([blocks[0]], ids) && JumpsKnown(blocks[1..], ids)
  {
    hide Successors;
    assert blocks == [blocks[0]] + blocks[1..];
    forall b
      ensures b in blocks <==> b in [blocks[0]] || b in blocks[1..]
    {
    }
  }

  lemma {:induction false} BlocksJumps(lay: Layout, blocks: seq<Block>, isMain: bool, ids: set<BlockId>)
    ensures JumpsPlaced(EmitBlocks(lay, blocks, isMain), ids) <==> JumpsKnown(blocks, ids)
  {
    hide EmitBlock;
    if blocks != [] {
      BlocksJumps(lay, blocks[1..], isMain, ids);
      BlockJumps(lay, blocks[0], isMain, ids);
      JumpsKnownFirst(blocks, ids);
      JumpsAppend(EmitBlock(lay, blocks[0], isMain), EmitBlocks(lay, blocks[1..], isMain), ids);
      hide JumpsPlaced, JumpsKnown;
    }
  }

  // ----- the whole function

  lemma {:induction false} InstrLinesEmittable(instrs: seq<Instr>)
    requires forall i | i in instrs :: Emittable(i.op)
    ensures EmittableLines(InstrLines(instrs))
  {
    hide Emittable;
    if instrs != [] {
      assert instrs[0] in instrs;
      InstrLinesEmittable(instrs[1..]);
      FirstInstrLine(instrs);
    }
  }

  lemma {:induction false} LinesEmittable(blocks: seq<Block>)
    requires AllEmittable(blocks)
    ensures EmittableLines(Lines(blocks))
  {
    hide Emittable;
    if blocks != [] {
      assert blocks[0] in blocks;
      InstrLinesEmittable(blocks[0].instrs);
      LinesEmittable(blocks[1..]);
    }
  }

  lemma EmittedNames(f: Function, lay: Layout)
    requires AllEmittable(f.blocks)
    ensures var cf := EmitFunction(f, lay);
            WellScoped(cf.body, ParamScope(|cf.params|))
            <==> ParamsApart(f) && (IsMain(f) ==> f.params == []) && LinesOk(f, Lines(f.blocks))
  {
    var params := |EmitFunction(f, lay).params|;
    var head, tail := EmitAliases(f, lay, 0), EmitBlocks(lay, f.blocks, IsMain(f));
    assert EmitFunction(f, lay).body == head + tail;
    assert params == if IsMain(f) then 0 else |f.params|;
    assert ParamsApart(f) <==> ParamsApartFrom(f, 0);
    hide EmitFunction, IsMain, ParamsApart, ParamsApartFrom, WellScoped, DeclaredBy, ParamScope, LinesOk, EmitAliases;
    AliasesScoped(f, params, lay, 0);
    AliasesDone(f, params);
    EmitBlockLines(lay, f.blocks, IsMain(f));
    LinesEmittable(f.blocks);
    LinesScoped(f, params, lay, Lines(f.blocks), IsMain(f));
    WellScopedAppend(head, tail, ParamScope(params));
  }

  lemma EmittedLabels(f: Function, lay: Layout)
    ensures var body := EmitFunction(f, lay).body;
            && LabelsOf(body) == BlockIds(f.blocks)
            && forall ids :: JumpsPlaced(body, ids) <==> JumpsKnown(f.blocks, ids)
  {
    var head, tail := EmitAliases(f, lay, 0), EmitBlocks(lay, f.blocks, IsMain(f));
    AliasesStraight(f, lay, 0);
    StraightHasNoLabels(head);
    LabelsOfAppend(head, tail);
    BlocksLabels(lay, f.blocks, IsMain(f));
    assert EmitFunction(f, lay).body == head + tail;
    hide EmitFunction, EmitBlocks, EmitAliases, LabelsOf, BlockIds, JumpsKnown;
    forall ids
      ensures JumpsPlaced(head + tail, ids) <==> JumpsKnown(f.blocks, ids)
    {
      BlocksJumps(lay, f.blocks, IsMain(f), ids);
      JumpsAppend(head, tail, ids);
    }
  }

  /** The emitted function is legal C exactly when the MIR function is compilable, whatever its layout. */
  lemma EmittedLegal(f: Function, lay: Layout)
    requires AllEmittable(f.blocks)
    ensures Legal(EmitFunction(f, lay)) <==> Compilable(f)
  {
    EmittedNames(f, lay);
    EmittedLabels(f, lay);
    hide EmitFunction, WellScoped, LabelsOf, JumpsPlaced, JumpsKnown, LinesOk, BlockIds, ParamsApart, IsMain, Distinct;
  }
}
