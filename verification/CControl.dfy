/** Control flow of the simulation: labels and jumps, calls, returns. */
module CControl {
  import opened CEmission
  import opened CKinds
  import opened CMachine
  import opened CSimulation
  import opened CTypes
  import opened Mir
  import opened MirMachine
  import opened Options
  import opened Words

  // ----- labels

  predicate NoLabels(code: seq<CStmt>) {
    forall k | 0 <= k < |code| :: !code[k].Label?
  }

  lemma {:induction false} InstrsHaveNoLabels(lay: Layout, instrs: seq<Instr>)
    ensures NoLabels(EmitInstrs(lay, instrs))
  {
    if instrs != [] {
      InstrsHaveNoLabels(lay, instrs[1..]);
    }
  }

  lemma {:induction false} AliasesHaveNoLabels(f: Function, lay: Layout, k: nat)
    requires k <= |f.params|
    ensures NoLabels(EmitAliases(f, lay, k))
    decreases |f.params| - k
  {
    if k < |f.params| {
      AliasesHaveNoLabels(f, lay, k + 1);
    }
  }

  lemma {:induction false} SkipUnlabelled(code: seq<CStmt>, rest: seq<CStmt>, id: nat)
    requires NoLabels(code)
    ensures FindLabel(code + rest, id) == FindLabel(rest, id)
  {
    if code == [] {
      assert code + rest == rest;
    } else {
      assert (code + rest)[1..] == code[1..] + rest;
      SkipUnlabelled(code[1..], rest, id);
    }
  }

  /** The first label with a block's number stands at the first block with that number. */
  lemma {:induction false} LabelFindsBlock(lay: Layout, blocks: seq<Block>, id: BlockId, isMain: bool)
    requires FindBlock(blocks, id).Some?
    ensures FindLabel(EmitBlocks(lay, blocks, isMain), id).Some?
    ensures EmitBlock(lay, FindBlock(blocks, id).value, isMain) <= FindLabel(EmitBlocks(lay, blocks, isMain), id).value
  {
    hide EmitInstrs, EmitTerm;
    var b := blocks[0];
    var code := EmitBlock(lay, b, isMain);
    var later := EmitBlocks(lay, blocks[1..], isMain);
    assert code[0] == Label(b.id);
    assert (code + later)[0] == Label(b.id);
    if b.id != id {
      var body := code[1..];
      assert body == EmitInstrs(lay, b.instrs) + [EmitTerm(b.term, isMain)];
      InstrsHaveNoLabels(lay, b.instrs);
      TermIsNoLabel(b.term, isMain);
      SkipUnlabelled(body, later, id);
      assert (code + later)[1..] == body + later;
      LabelFindsBlock(lay, blocks[1..], id, isMain);
    }
  }

  lemma TermIsNoLabel(t: Terminator, isMain: bool)
    ensures !EmitTerm(t, isMain).Label?
  {
  }

  lemma LabelInFunction(f: Function, lay: Layout, id: BlockId)
    requires FindBlock(f.blocks, id).Some?
    ensures FindLabel(EmitFunction(f, lay).body, id).Some?
    ensures EmitBlock(lay, FindBlock(f.blocks, id).value, IsMain(f)) <= FindLabel(EmitFunction(f, lay).body, id).value
  {
    AliasesHaveNoLabels(f, lay, 0);
    SkipUnlabelled(EmitAliases(f, lay, 0), EmitBlocks(lay, f.blocks, IsMain(f)), id);
    LabelFindsBlock(lay, f.blocks, id, IsMain(f));
  }

  // ----- traces

  /** The C function name and label of every block entered. */
  function CTraceOf(t: Trace): CTrace {
    seq(|t|, k requires 0 <= k < |t| => (CName(t[k].0), t[k].1))
  }

  lemma TraceGrows(t: Trace, name: string, id: BlockId)
    ensures CTraceOf(t + [(name, id)]) == CTraceOf(t) + [(CName(name), id)]
  {
  }

  /** Standing at a block's label: one step enters the block. */
  lemma LabelRuns(cx: Context, prog: seq<CFunction>, m: Frame, b: Block, s: CState, t: Trace)
      returns (c: CFrame)
    requires cx.Ok() && StoreRel(cx, m, if s.CRunning? then s.top.vars else map[]) && s.CRunning?
    requires m.fn.name in cx.layouts && b in m.fn.blocks
    requires s.top.fn == EmitFunction(m.fn, cx.layouts[m.fn.name])
    requires EmitBlock(cx.layouts[m.fn.name], b, IsMain(m.fn)) <= s.top.rest
    requires s.trace == CTraceOf(t)
    ensures CStep(prog, s) == Some(s.(top := c, trace := CTraceOf(t + [(m.fn.name, b.id)])))
    ensures FrameRel(cx, m.(instrs := b.instrs, term := b.term), c)
  {
    hide ValuesHeld, LocalsHeld, InstrOk, TermOk;
    var lay := cx.layouts[m.fn.name];
    assert FunctionOk(cx.fs, cx.kinds, lay, cx.names[m.fn.name], m.fn);
    assert BlockOk(cx.fs, cx.kinds, lay, cx.names[m.fn.name], m.fn, b);
    TraceGrows(t, m.fn.name, b.id);
    c := s.top.(rest := s.top.rest[1..]);
    assert s.top.rest[0] == Label(b.id);
    assert EmitBlock(lay, b, IsMain(m.fn))[1..] == EmitInstrs(lay, b.instrs) + [EmitTerm(b.term, IsMain(m.fn))];
  }

  // ----- jumps

  lemma {:induction false} CasesAgree(cases: seq<(i64, BlockId)>, default: BlockId, val: int)
    ensures CaseLabel(cases, default, val) == CaseTarget(cases, default, val)
  {
    if cases != [] {
      CasesAgree(cases[1..], default, val);
    }
  }

  /** The terminator's line jumps to the label of the block the interpreter goes to. */
  lemma TermJumps(cx: Context, prog: seq<CFunction>, m: Frame, s: CState)
    requires s.CRunning? && FrameRel(cx, m, s.top) && m.instrs == []
    requires Target(m).Some? && CMachine.Jump(s.top, Target(m).value).Some?
    ensures CStep(prog, s) == Some(s.(top := CMachine.Jump(s.top, Target(m).value).value))
  {
    hide ValueName, LocalName;
    assert s.top.rest[0] == EmitTerm(m.term, IsMain(m.fn));
    if m.term.Switch? {
      CasesAgree(m.term.cases, m.term.default, m.vals[m.term.discriminant].num);
    }
  }

  lemma JumpSimulates(cx: Context, prog: seq<CFunction>, m: Frame, s: CState, t: Trace)
      returns (c: CFrame)
    requires cx.Ok() && s.CRunning? && FrameRel(cx, m, s.top) && m.instrs == []
    requires Target(m).Some? && FindBlock(m.fn.blocks, Target(m).value).Some?
    requires s.trace == CTraceOf(t)
    ensures var id := Target(m).value;
            var b := FindBlock(m.fn.blocks, id).value;
            && CSteps(prog, s, 2) == Some(s.(top := c, trace := CTraceOf(t + [(m.fn.name, id)])))
            && FrameRel(cx, m.(instrs := b.instrs, term := b.term), c)
  {
    hide ValueName, LocalName, EmitBlock, EmitFunction, ValuesHeld, LocalsHeld, InstrOk, TermOk, CStep, CTraceOf;
    var id := Target(m).value;
    LabelInFunction(m.fn, cx.layouts[m.fn.name], id);
    TermJumps(cx, prog, m, s);
    var at := s.(top := CMachine.Jump(s.top, id).value);
    c := LabelRuns(cx, prog, m, FindBlock(m.fn.blocks, id).value, at, t);
    assert CSteps(prog, at, 1) == CStep(prog, at) by {
      assert CSteps(prog, CStep(prog, at).value, 0) == CStep(prog, at);
    }
  }
}
