/**
 What a C compiler checks beyond scopes: structures convert to nothing else and take part in no
 operator, and a program names its functions apart and calls them with as many arguments as they have
 parameters.
 */
module CTyping {
  import opened CCopies
  import opened CEmission
  import opened CInference
  import opened CLegal
  import opened CMachine
  import opened CNames
  import opened CStructs
  import opened CTypes
  import opened Mir

  // ----- what C asks

  /** A parameter's type, or that of a declaration. */
  ghost predicate HasType(cf: CFunction, x: string, t: CType) {
    || (exists s :: s in cf.body && s.Decl? && s.name == x && s.ty == t)
    || (exists k :: 0 <= k < |cf.params| && ParamName(k) == x && cf.params[k] == t)
  }

  /** Simple assignment to or from a structure (section 6.5.16.1 of ISO/IEC 9899). */
  predicate Assignable(to: CType, from: CType) {
    Aggregate(to) || Aggregate(from) ==> to == from
  }

  ghost predicate Scalar(cf: CFunction, x: string) {
    forall t | HasType(cf, x, t) :: !Aggregate(t)
  }

  ghost predicate Receives(cf: CFunction, to: CType, x: string) {
    forall t | HasType(cf, x, t) :: Assignable(to, t)
  }

  /** No parameter is ever a structure, so no argument may be. */
  ghost predicate InitApart(cf: CFunction, ty: CType, e: CExpr) {
    match e
    case Var(x) => Receives(cf, ty, x)
    case Infix(_, l, r) => !Aggregate(ty) && Scalar(cf, l) && Scalar(cf, r)
    case Prefix(_, x) => !Aggregate(ty) && Scalar(cf, x)
    case CallTo(_, args) => forall x | x in args :: Scalar(cf, x)
    case BracedZero => true
    case _ => !Aggregate(ty)
  }

  ghost predicate StmtApart(cf: CFunction, s: CStmt) {
    match s
    case Decl(ty, _, e) => InitApart(cf, ty, e)
    case Assign(x, y) => forall t | HasType(cf, x, t) :: Receives(cf, t, y)
    case IfGoto(x, _, _) => Scalar(cf, x)
    case SwitchGoto(x, _, _) => Scalar(cf, x)
    case ReturnVar(x) => Receives(cf, cf.ret, x)
    case ReturnIntCast(x) => Scalar(cf, x)
    case ReturnZero => !Aggregate(cf.ret)
    case _ => true
  }

  /** No line of the function mixes a structure with anything else. */
  ghost predicate StructsApart(cf: CFunction) {
    forall s | s in cf.body :: StmtApart(cf, s)
  }

  /** Calls within the program match their prototypes. */
  ghost predicate CallsFit(prog: seq<CFunction>, cf: CFunction) {
    forall g, s | g in prog && s in cf.body && s.Decl? && s.init.CallTo? ::
      s.init.callee == g.name && g.name != CONCAT ==> |s.init.args| == |g.params|
  }

  /** Functions have names of their own, also beside the runtime's routine. */
  ghost predicate LegalProgram(prog: seq<CFunction>) {
    && (forall i, j | 0 <= i < j < |prog| :: prog[i].name != prog[j].name)
    && (forall cf | cf in prog :: cf.name != CONCAT && Legal(cf) && CallsFit(prog, cf))
  }

  ghost predicate Compiles(prog: seq<CFunction>) {
    LegalProgram(prog) && forall cf | cf in prog :: StructsApart(cf)
  }

  // ----- a name has one type

  lemma {:induction false} DeclaresInside(body: seq<CStmt>, k: nat)
    requires k < |body|
    ensures Declares(body[k]) <= DeclaredBy(body)
  {
    if k < |body| - 1 {
      DeclaresInside(body[..|body| - 1], k);
    }
  }

  lemma {:induction false} DeclaredOnce(body: seq<CStmt>, scope: set<string>, k: nat)
    requires WellScoped(body, scope) && k < |body|
    ensures Declares(body[k]) !! scope + DeclaredBy(body[..k])
  {
    if k < |body| - 1 {
      DeclaredOnce(body[..|body| - 1], scope, k);
      assert body[..|body| - 1][..k] == body[..k];
    }
  }

  lemma OneDeclaration(body: seq<CStmt>, scope: set<string>, s: CStmt, t: CStmt)
    requires WellScoped(body, scope) && s in body && t in body && s.Decl? && t.Decl? && s.name == t.name
    ensures s == t && s.name !in scope
  {
    var i :| 0 <= i < |body| && body[i] == s;
    var j :| 0 <= j < |body| && body[j] == t;
    DeclaredOnce(body, scope, i);
    DeclaredOnce(body, scope, j);
    if i < j {
      DeclaresInside(body[..j], i);
    } else if j < i {
      DeclaresInside(body[..i], j);
    }
    hide WellScoped, DeclaredBy;
  }

  lemma OneType(cf: CFunction, x: string, t: CType, u: CType)
    requires Legal(cf) && HasType(cf, x, t) && HasType(cf, x, u)
    ensures t == u
  {
    var scope := ParamScope(|cf.params|);
    hide WellScoped, LabelsOf, JumpsPlaced;
    forall i: nat, j: nat
      ensures ParamName(i) == ParamName(j) <==> i == j
    {
      ParamNamesDistinct(i, j);
    }
    hide ParamName;
    forall s, s' | s in cf.body && s' in cf.body && s.Decl? && s'.Decl? && s.name == x && s'.name == x
      ensures s == s' && x !in scope
    {
      OneDeclaration(cf.body, scope, s, s');
    }
  }

  lemma TypedName(cf: CFunction, x: string, t: CType)
    requires Legal(cf) && HasType(cf, x, t)
    ensures Scalar(cf, x) <==> !Aggregate(t)
    ensures forall to :: Receives(cf, to, x) <==> Assignable(to, t)
  {
    forall u | HasType(cf, x, u)
      ensures u == t
    {
      OneType(cf, x, t, u);
    }
    hide HasType, Legal, Aggregate, Assignable;
  }

  lemma AssignTyped(cf: CFunction, x: string, y: string, t: CType, u: CType)
    requires Legal(cf) && HasType(cf, x, t) && HasType(cf, y, u)
    ensures StmtApart(cf, Assign(x, y)) <==> Assignable(t, u)
  {
    TypedName(cf, y, u);
    forall w | HasType(cf, x, w)
      ensures w == t
    {
      OneType(cf, x, t, w);
    }
    hide HasType, Legal, Aggregate, Assignable, Receives;
  }

  // ----- the lines of an emitted function

  lemma {:induction false} InInstrs(lay: Layout, instrs: seq<Instr>, s: CStmt)
    ensures s in EmitInstrs(lay, instrs) <==> exists i :: i in instrs && s in EmitInstr(lay, i)
  {
    hide EmitInstr;
    if instrs != [] {
      InInstrs(lay, instrs[1..], s);
      assert instrs == [instrs[0]] + instrs[1..];
      forall i
        ensures i in instrs <==> i == instrs[0] || i in instrs[1..]
      {
      }
    }
  }

  ghost predicate InBlock(lay: Layout, b: Block, isMain: bool, s: CStmt) {
    s == Label(b.id) || s == EmitTerm(b.term, isMain) || exists i :: i in b.instrs && s in EmitInstr(lay, i)
  }

  lemma {:induction false} InBlocks(lay: Layout, blocks: seq<Block>, isMain: bool, s: CStmt)
    ensures s in EmitBlocks(lay, blocks, isMain) <==> exists b :: b in blocks && InBlock(lay, b, isMain, s)
  {
    hide EmitInstr, EmitInstrs, EmitTerm;
    if blocks != [] {
      InBlocks(lay, blocks[1..], isMain, s);
      InInstrs(lay, blocks[0].instrs, s);
      assert s in EmitBlock(lay, blocks[0], isMain) <==> InBlock(lay, blocks[0], isMain, s);
      hide InBlock;
      assert blocks == [blocks[0]] + blocks[1..];
      forall b
        ensures b in blocks <==> b == blocks[0] || b in blocks[1..]
      {
      }
    }
  }

  lemma {:induction false} InAliases(f: Function, lay: Layout, k: nat, s: CStmt)
    requires k <= |f.params|
    ensures s in EmitAliases(f, lay, k) <==> exists j :: k <= j < |f.params| && s == Alias(f, lay, j)
    decreases |f.params| - k
  {
    hide Alias;
    if k < |f.params| {
      InAliases(f, lay, k + 1, s);
    }
  }

  lemma InFunction(f: Function, lay: Layout, s: CStmt)
    ensures s in EmitFunction(f, lay).body
            <==> || (exists k :: 0 <= k < |f.params| && s == Alias(f, lay, k))
                 || (exists b :: b in f.blocks && InBlock(lay, b, IsMain(f), s))
  {
    InAliases(f, lay, 0, s);
    InBlocks(lay, f.blocks, IsMain(f), s);
    hide Alias, InBlock, EmitAliases, EmitBlocks;
  }

  lemma InstrLine(f: Function, lay: Layout, b: Block, i: Instr, s: CStmt)
    requires b in f.blocks && i in b.instrs && s in EmitInstr(lay, i)
    ensures s in EmitFunction(f, lay).body
  {
    InFunction(f, lay, s);
    hide EmitInstr, EmitFunction, EmitTerm, Alias;
    assert InBlock(lay, b, IsMain(f), s);
  }

  lemma {:induction false} BlockOf(blocks: seq<Block>, i: Instr) returns (b: Block)
    requires i in AllInstrs(blocks)
    ensures b in blocks && i in b.instrs
  {
    var n := |blocks| - 1;
    if i in AllInstrs(blocks[..n]) {
      b := BlockOf(blocks[..n], i);
    } else {
      b := blocks[n];
    }
  }

  lemma {:induction false} InAllInstrs(blocks: seq<Block>, b: Block, i: Instr)
    requires b in blocks && i in b.instrs
    ensures i in AllInstrs(blocks)
  {
    var n := |blocks| - 1;
    if b != blocks[n] {
      InAllInstrs(blocks[..n], b, i);
    }
  }

  // ----- the types of emitted names

  lemma ValueHasType(f: Function, lay: Layout, v: ValueId)
    requires AllEmittable(f.blocks) && DefinedIn(AllInstrs(f.blocks), v)
    ensures HasType(EmitFunction(f, lay), ValueName(v), lay.ValueType(v))
  {
    hide AllInstrs, EmitFunction, ValueName, LocalName;
    var i :| i in AllInstrs(f.blocks) && i.result == v;
    var b := BlockOf(f.blocks, i);
    var code := EmitInstr(lay, i);
    var s := code[|code| - 1];
    assert s.Decl? && s.name == ValueName(v) && s.ty == lay.ValueType(v);
    InstrLine(f, lay, b, i, s);
  }

  lemma SlotHasType(f: Function, lay: Layout, i: Instr)
    requires i in AllInstrs(f.blocks) && i.op.Alloca?
    ensures HasType(EmitFunction(f, lay), LocalName(i.op.slot), OrElse(lay.LocalType(i.op.slot), Int))
  {
    hide AllInstrs, EmitFunction, ValueName, LocalName;
    var b := BlockOf(f.blocks, i);
    InstrLine(f, lay, b, i, EmitInstr(lay, i)[0]);
  }

  lemma ParamHasType(f: Function, lay: Layout, k: nat)
    requires k < |f.params|
    ensures HasType(EmitFunction(f, lay), LocalName(f.params[k].name), ParamType(lay, k))
    ensures !IsMain(f) ==> HasType(EmitFunction(f, lay), ParamName(k), ParamType(lay, k))
  {
    InFunction(f, lay, Alias(f, lay, k));
    hide LocalName, ParamName, EmitAliases, EmitBlocks, InBlock;
  }

  // ----- the types of a function that makes no structures

  lemma {:induction false} InferKeepsParams(lay: Layout, rt: Returns, instrs: seq<Instr>)
    ensures InferInstrs(lay, rt, instrs).params == lay.params && InferInstrs(lay, rt, instrs).returnTy == lay.returnTy
  {
    hide InferResult;
    if instrs != [] {
      InferKeepsParams(lay, rt, instrs[..|instrs| - 1]);
    }
  }

  lemma ParamsScalar(f: Function, rt: Returns, k: nat)
    requires forall i | i in AllInstrs(f.blocks) :: SimpleOp(i.op)
    ensures !Aggregate(ParamType(Analysis(f, rt), k))
  {
    SeededHas(f);
    InferKeepsParams(Seeded(f), rt, AllInstrs(f.blocks));
    hide AllInstrs, Seeded, InferInstrs, ReturnTypes, MergeAll, ParamNames, Copied, MarksOf;
  }

  lemma {:induction false} MergeStruct(ts: seq<CType>)
    requires forall t | t in ts :: t != Enum
    ensures ts != [] ==> MergeAll(ts).Some?
    ensures MergeAll(ts).Some? ==> (Aggregate(MergeAll(ts).value) <==> Struct in ts) && MergeAll(ts).value != Enum
  {
    if |ts| > 1 {
      var front, last := ts[..|ts| - 1], ts[|ts| - 1];
      assert ts == front + [last];
      forall t
        ensures t in ts <==> t in front || t == last
      {
      }
      assert last in ts;
      MergeStruct(front);
    } else if |ts| == 1 {
      assert ts == [ts[0]] && ts[0] in ts;
    }
  }

  ghost predicate ReturnsTyped(lay: Layout, b: Block, t: CType) {
    b.term.Return? && lay.ValueType(b.term.returned) == t
  }

  lemma {:induction false} InReturnTypes(lay: Layout, blocks: seq<Block>, t: CType)
    ensures t in ReturnTypes(lay, blocks) <==> exists b :: b in blocks && ReturnsTyped(lay, b, t)
  {
    if blocks != [] {
      var front, last := blocks[..|blocks| - 1], blocks[|blocks| - 1];
      InReturnTypes(lay, front, t);
      assert blocks == front + [last];
      assert t in ReturnTypes(lay, blocks) <==> t in ReturnTypes(lay, front) || ReturnsTyped(lay, last, t);
      hide ReturnTypes, ReturnsTyped;
      forall b
        ensures b in blocks <==> b in front || b == last
      {
      }
    }
  }

  ghost predicate ReturnsStruct(f: Function, rt: Returns) {
    exists b :: b in f.blocks && b.term.Return? && b.term.returned in Structs(f, rt).values
  }

  lemma ReturnTypeStruct(f: Function, rt: Returns)
    requires Compilable(f) && NoEnums(rt)
    requires forall i | i in AllInstrs(f.blocks) :: SimpleOp(i.op)
    ensures Analysis(f, rt).returnTy != Enum
    ensures Aggregate(Analysis(f, rt).returnTy) <==> ReturnsStruct(f, rt)
  {
    hide *;
    var lay := Analysis(f, rt);
    var ts := ReturnTypes(lay, f.blocks);
    StructsExactly(f, rt);
    ReturnTypeMerges(f, rt);
    InReturnTypes(lay, f.blocks, Enum);
    InReturnTypes(lay, f.blocks, Struct);
    NotReturned(lay, f.blocks);
    MergeStruct(ts);
    ReturnsStructs(f, rt, lay);
  }

  lemma NotReturned(lay: Layout, blocks: seq<Block>)
    requires NoEnum(lay)
    ensures !exists b :: b in blocks && ReturnsTyped(lay, b, Enum)
  {
  }

  lemma ReturnsStructs(f: Function, rt: Returns, lay: Layout)
    requires forall v :: lay.ValueType(v) == Struct <==> v in Structs(f, rt).values
    ensures ReturnsStruct(f, rt)
            <==> exists b :: b in f.blocks && ReturnsTyped(lay, b, Struct)
  {
    hide Structs;
    forall b
      ensures ReturnsTyped(lay, b, Struct) <==> b.term.Return? && b.term.returned in Structs(f, rt).values
    {
    }
  }

  lemma {:induction false} SameReturnTypes(a: Layout, b: Layout, blocks: seq<Block>)
    requires a.values == b.values
    ensures ReturnTypes(a, blocks) == ReturnTypes(b, blocks)
  {
    if blocks != [] {
      SameReturnTypes(a, b, blocks[..|blocks| - 1]);
    }
  }

  /** The merge of the returned types, or the declared one when nothing is returned. */
  lemma ReturnTypeMerges(f: Function, rt: Returns)
    requires forall i | i in AllInstrs(f.blocks) :: SimpleOp(i.op)
    ensures var lay := Analysis(f, rt);
            var merged := MergeAll(ReturnTypes(lay, f.blocks));
            if merged.Some? then lay.returnTy == merged.value
            else !Aggregate(lay.returnTy) && lay.returnTy != Enum && ReturnTypes(lay, f.blocks) == []
  {
    var lay := InferInstrs(Seeded(f), rt, AllInstrs(f.blocks));
    SeededHas(f);
    InferKeepsParams(Seeded(f), rt, AllInstrs(f.blocks));
    SameReturnTypes(lay, Analysis(f, rt), f.blocks);
    MergedSome(ReturnTypes(lay, f.blocks));
    hide AllInstrs, Seeded, InferInstrs, ReturnTypes, MergeAll, ParamNames, Copied, MarksOf;
  }

  lemma {:induction false} MergedSome(ts: seq<CType>)
    ensures MergeAll(ts).Some? <==> ts != []
  {
    hide Merge;
    if |ts| > 1 {
      MergedSome(ts[..|ts| - 1]);
    }
  }

  // ----- whole programs

  /** Calls that reach a function of the module pass as many arguments as it has parameters. */
  ghost predicate CallsMatch(fs: seq<Function>, f: Function) {
    forall g, i | g in fs && i in AllInstrs(f.blocks) && i.op.Call? ::
      MangleName(i.op.callee) == CName(g.name) && CName(g.name) != CONCAT ==> |i.op.args| == |g.params|
  }

  ghost predicate CompilableModule(fs: seq<Function>) {
    && (forall i, j | 0 <= i < j < |fs| :: CName(fs[i].name) != CName(fs[j].name))
    && (forall f | f in fs :: CName(f.name) != CONCAT && Compilable(f) && CallsMatch(fs, f))
  }

  lemma MainNoCallee(g: Function, callee: string)
    requires MangleName(callee) == CName(g.name)
    ensures !IsMain(g)
  {
    assert MangleName(callee)[0] == 'a';
  }

  lemma CallPrinted(lay: Layout, i: Instr, s: CStmt)
    requires Emittable(i.op) && s in EmitInstr(lay, i) && s.Decl? && s.init.CallTo? && s.init.callee != CONCAT
    ensures i.op.Call? && s.init == CallTo(MangleName(i.op.callee), ValueNames(i.op.args))
  {
    hide ValueName, LocalName, ValueNames, MangleName;
  }

  lemma CallsExactly(f: Function, lay: Layout, g: Function, glay: Layout)
    requires AllEmittable(f.blocks)
    ensures CallsFit([EmitFunction(g, glay)], EmitFunction(f, lay)) <==> CallsMatch([g], f)
  {
    var cf, cg := EmitFunction(f, lay), EmitFunction(g, glay);
    assert cg.name == CName(g.name) && (!IsMain(g) ==> |cg.params| == |g.params|);
    hide EmitFunction, MangleName, EmitInstr, ValueName, AllInstrs, IsMain, CName, Alias, EmitTerm;
    if CallsFit([cg], cf) {
      forall i | i in AllInstrs(f.blocks) && i.op.Call? && MangleName(i.op.callee) == CName(g.name)
                 && CName(g.name) != CONCAT
        ensures |i.op.args| == |g.params|
      {
        MainNoCallee(g, i.op.callee);
        var b := BlockOf(f.blocks, i);
        var s := PrintedCall(lay, i);
        InstrLine(f, lay, b, i, s);
        assert cg in [cg];
      }
    }
    if CallsMatch([g], f) {
      forall s | s in cf.body && s.Decl? && s.init.CallTo? && s.init.callee == cg.name && cg.name != CONCAT
        ensures |s.init.args| == |cg.params|
      {
        var i := CallBehind(f, lay, s);
        MainNoCallee(g, i.op.callee);
        assert g in [g];
      }
    }
  }

  lemma PrintedCall(lay: Layout, i: Instr) returns (s: CStmt)
    requires i.op.Call? && Emittable(i.op)
    ensures s in EmitInstr(lay, i) && s.Decl? && s.init == CallTo(MangleName(i.op.callee), ValueNames(i.op.args))
  {
    s := EmitInstr(lay, i)[0];
  }

  lemma CallBehind(f: Function, lay: Layout, s: CStmt) returns (i: Instr)
    requires AllEmittable(f.blocks) && s in EmitFunction(f, lay).body
    requires s.Decl? && s.init.CallTo? && s.init.callee != CONCAT
    ensures i in AllInstrs(f.blocks) && i.op.Call?
    ensures s.init == CallTo(MangleName(i.op.callee), ValueNames(i.op.args))
  {
    InFunction(f, lay, s);
    hide EmitFunction, MangleName, EmitInstr, ValueName, ValueNames, AllInstrs, LocalName;
    var b :| b in f.blocks && InBlock(lay, b, IsMain(f), s);
    i :| i in b.instrs && s in EmitInstr(lay, i);
    InAllInstrs(f.blocks, b, i);
    CallPrinted(lay, i, s);
  }

  /** The emitted program is legal exactly when the module is compilable, whatever the layouts. */
  lemma EmittedProgramLegal(fs: seq<Function>, layouts: map<string, Layout>)
    requires forall f | f in fs :: f.name in layouts && AllEmittable(f.blocks)
    ensures LegalProgram(EmitProgram(fs, layouts)) <==> CompilableModule(fs)
  {
    hide *;
    var prog := EmitProgram(fs, layouts);
    forall k | 0 <= k < |fs|
      ensures Same(prog, fs, k)
    {
      EmittedSame(fs, layouts, k);
    }
    EmittedLength(fs, layouts);
    SameLegal(prog, fs);
  }

  lemma EmittedLength(fs: seq<Function>, layouts: map<string, Layout>)
    requires forall f | f in fs :: f.name in layouts
    ensures |EmitProgram(fs, layouts)| == |fs|
  {
  }

  /** Function `k` has the name of its source, and is legal when that is compilable. */
  ghost predicate Same(prog: seq<CFunction>, fs: seq<Function>, k: nat) {
    && k < |prog| && k < |fs| && prog[k].name == CName(fs[k].name)
    && (Legal(prog[k]) <==> Compilable(fs[k]))
    && (CallsFit(prog, prog[k]) <==> CallsMatch(fs, fs[k]))
  }

  lemma EmittedSame(fs: seq<Function>, layouts: map<string, Layout>, k: nat)
    requires k < |fs| && forall f | f in fs :: f.name in layouts && AllEmittable(f.blocks)
    ensures Same(EmitProgram(fs, layouts), fs, k)
  {
    assert fs[k] in fs;
    EmittedLegal(fs[k], layouts[fs[k].name]);
    EmittedCalls(fs, layouts, k);
    EmittedName(fs[k], layouts[fs[k].name]);
    hide CallsFit, CallsMatch, Legal, Compilable, AllEmittable, CName, EmitFunction;
  }

  lemma SameLegal(prog: seq<CFunction>, fs: seq<Function>)
    requires |prog| == |fs| && forall k | 0 <= k < |fs| :: Same(prog, fs, k)
    ensures LegalProgram(prog) <==> CompilableModule(fs)
  {
    hide CallsFit, CallsMatch, Legal, Compilable, CName;
    if LegalProgram(prog) {
      forall f | f in fs
        ensures CName(f.name) != CONCAT && Compilable(f) && CallsMatch(fs, f)
      {
        var k :| 0 <= k < |fs| && fs[k] == f;
        assert Same(prog, fs, k) && prog[k] in prog;
      }
      forall i, j | 0 <= i < j < |fs|
        ensures CName(fs[i].name) != CName(fs[j].name)
      {
        assert Same(prog, fs, i) && Same(prog, fs, j);
      }
    }
    if CompilableModule(fs) {
      forall cf | cf in prog
        ensures cf.name != CONCAT && Legal(cf) && CallsFit(prog, cf)
      {
        var k :| 0 <= k < |prog| && prog[k] == cf;
        assert Same(prog, fs, k) && fs[k] in fs;
      }
      forall i, j | 0 <= i < j < |prog|
        ensures prog[i].name != prog[j].name
      {
        assert Same(prog, fs, i) && Same(prog, fs, j);
      }
    }
  }

  lemma EmittedName(f: Function, lay: Layout)
    ensures EmitFunction(f, lay).name == CName(f.name)
  {
  }

  lemma EmittedCalls(fs: seq<Function>, layouts: map<string, Layout>, k: nat)
    requires k < |fs| && forall f | f in fs :: f.name in layouts && AllEmittable(f.blocks)
    ensures var prog := EmitProgram(fs, layouts); CallsFit(prog, prog[k]) <==> CallsMatch(fs, fs[k])
  {
    var prog := EmitProgram(fs, layouts);
    var f := fs[k];
    assert f in fs;
    hide AllEmittable, EmitFunction, CName, MangleName, AllInstrs;
    forall j | 0 <= j < |fs|
      ensures CallsFit([prog[j]], prog[k]) <==> CallsMatch([fs[j]], f)
    {
      CallsExactly(f, layouts[f.name], fs[j], layouts[fs[j].name]);
    }
    CallsFitEach(prog, prog[k]);
    CallsMatchEach(fs, f);
    hide CallsFit, CallsMatch, EmitProgram;
  }

  lemma CallsFitEach(prog: seq<CFunction>, cf: CFunction)
    ensures CallsFit(prog, cf) <==> forall j | 0 <= j < |prog| :: CallsFit([prog[j]], cf)
  {
    forall j | 0 <= j < |prog|
      ensures CallsFit(prog, cf) ==> CallsFit([prog[j]], cf)
    {
      assert prog[j] in prog;
    }
    if forall j | 0 <= j < |prog| :: CallsFit([prog[j]], cf) {
      forall g, s | g in prog && s in cf.body && s.Decl? && s.init.CallTo?
                    && s.init.callee == g.name && g.name != CONCAT
        ensures |s.init.args| == |g.params|
      {
        var j :| 0 <= j < |prog| && prog[j] == g;
        assert CallsFit([prog[j]], cf) && g in [prog[j]];
      }
    }
  }

  lemma CallsMatchEach(fs: seq<Function>, f: Function)
    ensures CallsMatch(fs, f) <==> forall j | 0 <= j < |fs| :: CallsMatch([fs[j]], f)
  {
    hide AllInstrs, MangleName, CName;
    forall j | 0 <= j < |fs|
      ensures CallsMatch(fs, f) ==> CallsMatch([fs[j]], f)
    {
      assert fs[j] in fs;
    }
    if forall j | 0 <= j < |fs| :: CallsMatch([fs[j]], f) {
      forall g, i | g in fs && i in AllInstrs(f.blocks) && i.op.Call?
                    && MangleName(i.op.callee) == CName(g.name) && CName(g.name) != CONCAT
        ensures |i.op.args| == |g.params|
      {
        var j :| 0 <= j < |fs| && fs[j] == g;
        assert CallsMatch([fs[j]], f) && g in [fs[j]];
      }
    }
  }
}
