/**
 Copied locals at work: a function whose only copy makes C reject it, and one that copies both ways, so
 that everything in it is a structure and C takes it.
 */
module CCopyGaps {
  import opened CApart
  import opened CCopies
  import opened CEmission
  import opened CInference
  import opened CLegal
  import opened CMachine
  import opened CNames
  import opened CStructs
  import opened CTypes
  import opened CTyping
  import opened Mir
  import opened Options

  /** One block that does `ops` in turn, numbering results from 0, and returns the last one. */
  function Straight(name: string, ops: seq<Op>): Function
    requires ops != []
  {
    Function(name, [], INT,
             [Block(0, seq(|ops|, k requires 0 <= k < |ops| => Instr(k, INT, ops[k])), Return(|ops| - 1))], 0)
  }

  /** fn main() { let x = 1; let y = x; return y } */
  const COPYING: seq<Op> :=
    [Alloca("x", INT), ConstInt(1), StoreLocal("x", 1), Alloca("y", INT), LoadLocal("x"), StoreLocal("y", 4),
     LoadLocal("y")]

  /** fn relay() { let x; let y = x; x = y; return x } */
  const RELAYING: seq<Op> :=
    [Alloca("x", INT), Alloca("y", INT), LoadLocal("x"), StoreLocal("y", 2), LoadLocal("y"), StoreLocal("x", 4),
     LoadLocal("x")]

  // ----- a straight function compiles

  ghost predicate SlotAbove(ops: seq<Op>, k: nat, x: string)
    requires k <= |ops|
  {
    exists j :: 0 <= j < k && ops[j].Alloca? && ops[j].slot == x
  }

  /** Reads what is above, allocates at most `x` and `y`, once each, and stores what is loaded or computed. */
  ghost predicate OpOrdered(ops: seq<Op>, k: nat)
    requires k < |ops|
  {
    && Emittable(ops[k])
    && (forall v | v in Operands(ops[k]) :: v < k)
    && (ops[k].Alloca? ==> !SlotAbove(ops, k, ops[k].slot) && ops[k].slot in {"x", "y"})
    && (ops[k].LoadLocal? ==> SlotAbove(ops, k, ops[k].local))
    && (ops[k].StoreLocal? ==>
          && SlotAbove(ops, k, ops[k].target)
          && (ops[k].value < |ops| ==>
                var stored := ops[ops[k].value]; !stored.Copy? && !stored.StoreLocal? && !stored.Alloca?))
  }

  ghost predicate Ordered(ops: seq<Op>) {
    ops != [] && forall k | 0 <= k < |ops| :: OpOrdered(ops, k)
  }

  lemma StraightInstrs(name: string, ops: seq<Op>)
    requires ops != []
    ensures var all := AllInstrs(Straight(name, ops).blocks);
            && |all| == |ops| && forall k | 0 <= k < |ops| :: all[k] == Instr(k, INT, ops[k])
    ensures forall i | i in AllInstrs(Straight(name, ops).blocks) :: i.result < |ops| && i.op == ops[i.result]
  {
    var blocks := Straight(name, ops).blocks;
    assert blocks[..0] == [] && AllInstrs([]) == [];
    assert AllInstrs(blocks) == blocks[0].instrs;
  }

  lemma XApartFromY()
    ensures LocalName("x") != LocalName("y")
  {
    AllButOneFree({"x", "y"}, "x");
  }

  /** The lines above instruction `k`. */
  function Above(b: Block, k: nat): seq<Line>
    requires k <= |b.instrs|
  {
    [Opens(b.id)] + InstrLines(b.instrs[..k])
  }

  lemma StraightLine(name: string, ops: seq<Op>, k: nat)
    requires Ordered(ops) && k < |ops|
    ensures var f := Straight(name, ops); LineOk(f, Above(f.blocks[0], k), Does(f.blocks[0].instrs[k]))
  {
    var f := Straight(name, ops);
    var prior := Above(f.blocks[0], k);
    assert OpOrdered(ops, k);
    XApartFromY();
    hide LocalName, Emittable, Operands, Ordered;
    forall v: nat | v < k
      ensures v in Results(prior)
    {
      assert prior[v + 1] == Does(f.blocks[0].instrs[v]);
    }
    forall x | SlotAbove(ops, k, x)
      ensures LocalName(x) in LocalVars(f, prior)
    {
      var j :| 0 <= j < k && ops[j].Alloca? && ops[j].slot == x;
      assert prior[j + 1] == Does(f.blocks[0].instrs[j]);
    }
    forall l | l in prior && l.Does?
      ensures l.instr.result < k
      ensures l.instr.op.Alloca? ==> SlotAbove(ops, k, l.instr.op.slot) && l.instr.op.slot in {"x", "y"}
    {
      var m :| 0 <= m < |prior| && prior[m] == l;
      OrderedSlot(ops, m - 1);
    }
  }

  lemma OrderedSlot(ops: seq<Op>, k: nat)
    requires Ordered(ops) && k < |ops|
    ensures ops[k].Alloca? ==> ops[k].slot in {"x", "y"}
  {
    assert OpOrdered(ops, k);
  }

  lemma StraightCompilable(name: string, ops: seq<Op>)
    requires Ordered(ops)
    ensures Compilable(Straight(name, ops))
  {
    var f := Straight(name, ops);
    var b := f.blocks[0];
    var lines := Lines(f.blocks);
    assert f.blocks[1..] == [] && lines == BlockLines(b) + Lines([]) == BlockLines(b);
    forall k | 0 <= k < |lines|
      ensures LineOk(f, lines[..k], lines[k])
    {
      if 0 < k <= |b.instrs| {
        StraightLine(name, ops, k - 1);
        assert lines[..k] == Above(b, k - 1);
      } else if k > 0 {
        assert lines[|ops|] == Does(b.instrs[|ops| - 1]);
        assert lines[|ops|] in lines[..k];
      }
    }
    hide LineOk;
    assert BlockIds(f.blocks) == [b.id];
  }

  lemma StraightSlot(name: string, ops: seq<Op>, k: nat, x: string) returns (j: nat)
    requires Ordered(ops) && k < |AllInstrs(Straight(name, ops).blocks)|
    requires var op := AllInstrs(Straight(name, ops).blocks)[k].op;
             op == LoadLocal(x) || (op.StoreLocal? && op.target == x)
    ensures var all := AllInstrs(Straight(name, ops).blocks);
            j < k && all[j].op.Alloca? && all[j].op.slot == x && all[j] in all
  {
    StraightInstrs(name, ops);
    hide AllInstrs, Emittable, Operands, Straight;
    assert OpOrdered(ops, k);
    j :| 0 <= j < k && ops[j].Alloca? && ops[j].slot == x;
  }

  lemma StraightOwn(name: string, ops: seq<Op>)
    requires Ordered(ops)
    ensures OwnLocals(Straight(name, ops))
  {
    var all := AllInstrs(Straight(name, ops).blocks);
    hide AllInstrs, Ordered, Straight;
    forall i | i in all
      ensures i.op.LoadLocal? ==> Owned(Straight(name, ops), i.op.local)
      ensures i.op.StoreLocal? ==> Owned(Straight(name, ops), i.op.target)
    {
      var k :| 0 <= k < |all| && all[k] == i;
      if i.op.LoadLocal? {
        var j := StraightSlot(name, ops, k, i.op.local);
      } else if i.op.StoreLocal? {
        var j := StraightSlot(name, ops, k, i.op.target);
      }
    }
  }

  lemma StraightAbove(name: string, ops: seq<Op>)
    requires Ordered(ops)
    ensures AllocatedAbove(Straight(name, ops))
  {
    var all := AllInstrs(Straight(name, ops).blocks);
    hide AllInstrs, Ordered, Straight;
    forall k | 0 <= k < |all| && all[k].op.LoadLocal?
      ensures exists j :: 0 <= j < k && all[j].op.Alloca? && all[j].op.slot == all[k].op.local
    {
      var j := StraightSlot(name, ops, k, all[k].op.local);
    }
  }

  lemma StraightStores(name: string, ops: seq<Op>)
    requires Ordered(ops)
    ensures ParamsKept(Straight(name, ops)) && StoresPlain(Straight(name, ops))
    ensures AllEmittable(Straight(name, ops).blocks)
  {
    var f := Straight(name, ops);
    var all := AllInstrs(f.blocks);
    StraightInstrs(name, ops);
    hide AllInstrs, Emittable, Operands, SlotAbove;
    assert ParamNames(f) == {};
    forall i | i in all
      ensures OpOrdered(ops, i.result)
    {
    }
    forall b, i | b in f.blocks && i in b.instrs
      ensures Emittable(i.op)
    {
      assert OpOrdered(ops, i.result);
    }
  }

  /** So stores are decided in plain terms. */
  lemma StraightPlain(name: string, ops: seq<Op>, rt: Returns)
    requires Ordered(ops) && NoStructCalls(Straight(name, ops), rt)
    ensures Plain(Straight(name, ops), rt)
  {
    StraightCompilable(name, ops);
    StraightOwn(name, ops);
    StraightAbove(name, ops);
    StraightStores(name, ops);
    hide AllInstrs, Compilable, Ordered, StoresPlain, OwnLocals, AllocatedAbove, ParamsKept, AllEmittable, Straight;
  }

  lemma CallsNothing(name: string, ops: seq<Op>, rt: Returns)
    requires ops != [] && NoEnums(rt) && forall op | op in ops :: !op.Call?
    ensures NoStructCalls(Straight(name, ops), rt)
  {
    StraightInstrs(name, ops);
    hide AllInstrs, Straight, CallType;
  }

  // ----- the copy that is rejected

  lemma CopyingOrdered()
    ensures Ordered(COPYING) && |COPYING| == 7
  {
    assert COPYING[0] == Alloca("x", INT) && COPYING[3] == Alloca("y", INT);
    hide IsPrintBuiltin;
    forall k | 0 <= k < |COPYING|
      ensures OpOrdered(COPYING, k)
    {
      if k > 3 {
        assert SlotAbove(COPYING, k, "y");
      }
      if k > 0 {
        assert SlotAbove(COPYING, k, "x");
      }
    }
  }

  /** Nothing loaded is stored in `x`. */
  lemma XStoredPlainly(name: string)
    ensures !StoresLoaded(Straight(name, COPYING), "x")
  {
    var all := AllInstrs(Straight(name, COPYING).blocks);
    StraightInstrs(name, COPYING);
    hide AllInstrs, Straight;
    forall i, d | i in all && d in all && i.op == StoreLocal("x", d.result)
      ensures !d.op.LoadLocal?
    {
      assert i.result == 2;
    }
  }

  /** The copy of an integer is declared as a structure, and the integer is assigned to it, which C rejects. */
  lemma CopyRejected(rt: Returns)
    requires NoEnums(rt)
    ensures var f := Straight("main", COPYING);
            var cf := EmitFunction(f, Analysis(f, rt));
            && HasType(cf, LocalName("y"), Struct) && Scalar(cf, ValueName(4))
            && Assign(LocalName("y"), ValueName(4)) in cf.body
            && !StmtApart(cf, Assign(LocalName("y"), ValueName(4))) && !StructsApart(cf)
  {
    var f := Straight("main", COPYING);
    var all := AllInstrs(f.blocks);
    assert f.params == [] && ParamNames(f) == {};
    CallsNothing("main", COPYING, rt);
    CopyingOrdered();
    StraightInstrs("main", COPYING);
    assert all[5] == Instr(5, INT, StoreLocal("y", 4)) && all[4] == Instr(4, INT, LoadLocal("x"));
    hide *;
    StraightPlain("main", COPYING, rt);
    XStoredPlainly("main");
    LoneCopyRejected(f, rt, all[5], all[4]);
  }

  // ----- copies both ways

  lemma RelayingOrdered()
    ensures Ordered(RELAYING) && |RELAYING| == 7
  {
    assert RELAYING[0] == Alloca("x", INT) && RELAYING[1] == Alloca("y", INT);
    hide IsPrintBuiltin;
    forall k | 0 <= k < |RELAYING|
      ensures OpOrdered(RELAYING, k)
    {
      if k > 1 {
        assert SlotAbove(RELAYING, k, "y");
      }
      if k > 0 {
        assert SlotAbove(RELAYING, k, "x");
      }
    }
  }

  /** From the third operation on, loads and stores take turns. */
  lemma RelayingOps(k: nat)
    requires 2 <= k < 7
    ensures |RELAYING| == 7
    ensures k % 2 == 0 ==> RELAYING[k].LoadLocal? && RELAYING[k].local in {"x", "y"}
    ensures k % 2 == 1 ==> RELAYING[k] == StoreLocal(if k == 3 then "y" else "x", k - 1)
  {
  }

  lemma RelayingAt(k: nat)
    requires k < 7
    ensures |RELAYING| == 7
    ensures var all := AllInstrs(Straight("relay", RELAYING).blocks);
            |all| == 7 && all[k] == Instr(k, INT, RELAYING[k]) && all[k] in all
    ensures ParamNames(Straight("relay", RELAYING)) == {}
  {
    StraightInstrs("relay", RELAYING);
    hide AllInstrs;
  }

  lemma RelayingStores()
    ensures var f := Straight("relay", RELAYING); StoresLoaded(f, "x") && StoresLoaded(f, "y")
  {
    RelayingAt(2);
    RelayingAt(3);
    RelayingAt(4);
    RelayingAt(5);
    RelayingOps(2);
    RelayingOps(3);
    RelayingOps(4);
    RelayingOps(5);
    hide AllInstrs, Straight, ParamNames;
  }

  /** Whatever is loaded or stored is a structure. */
  lemma RelayingStructs(rt: Returns, k: nat)
    requires Plain(Straight("relay", RELAYING), rt) && 2 <= k < 7
    ensures k in Structs(Straight("relay", RELAYING), rt).values
  {
    hide *;
    RelayingAt(k);
    var f := Straight("relay", RELAYING);
    RelayingOps(k);
    RelayingStores();
    PlainParts(f, rt);
    if k % 2 == 0 {
      PlainLoad(f, rt, k);
    } else {
      RelayingStructs(rt, k - 1);
      StoreYields(f, rt, AllInstrs(f.blocks)[k]);
    }
  }

  lemma RelayingVars(rt: Returns)
    requires Plain(Straight("relay", RELAYING), rt)
    ensures "x" in StructVars(Straight("relay", RELAYING), rt) && "y" in StructVars(Straight("relay", RELAYING), rt)
  {
    var f := Straight("relay", RELAYING);
    RelayingAt(0);
    RelayingStores();
    PlainParts(f, rt);
    TypableSimple(f, rt);
    CopiedDirectly(f, "x");
    CopiedDirectly(f, "y");
    SourcesFlow(f, rt);
    hide AllInstrs, Straight, ParamNames, Plain, Typable, Compilable, AllocatedAbove, ParamsKept, StoresPlain,
         StoresLoaded, Structs, Copied;
  }

  lemma RelayingInstr(rt: Returns, k: nat)
    requires Plain(Straight("relay", RELAYING), rt) && k < 7
    ensures InstrApart(Straight("relay", RELAYING), rt, Instr(k, INT, RELAYING[k]))
  {
    var f := Straight("relay", RELAYING);
    RelayingVars(rt);
    if k > 1 {
      RelayingStructs(rt, k);
      RelayingOps(k);
      if k % 2 == 1 {
        RelayingStructs(rt, k - 1);
      }
    }
    assert k <= 1 ==> RELAYING[k].Alloca?;
    hide Straight, Structs, StructVars, Plain;
  }

  /** Copied both ways, both locals are structures, and the C of the function is consistent about it. */
  lemma RelayApart(rt: Returns)
    requires NoEnums(rt)
    ensures var f := Straight("relay", RELAYING);
            && Analysis(f, rt).LocalType("x") == Some(Struct) && Analysis(f, rt).LocalType("y") == Some(Struct)
            && Legal(EmitFunction(f, Analysis(f, rt))) && StructsApart(EmitFunction(f, Analysis(f, rt)))
  {
    var f := Straight("relay", RELAYING);
    CallsNothing("relay", RELAYING, rt);
    hide *;
    RelayingOrdered();
    StraightPlain("relay", RELAYING, rt);
    PlainParts(f, rt);
    TypableParts(f, rt);
    EmittedLegal(f, Analysis(f, rt));
    RelayingFlows(rt);
    StructsApartExactly(f, rt);
    TypableSimple(f, rt);
    RelayingAt(0);
    RelayingStores();
    StructExactlyWhenStoredLoaded(f, rt, "x");
    StructExactlyWhenStoredLoaded(f, rt, "y");
  }

  lemma RelayingFlows(rt: Returns)
    requires Plain(Straight("relay", RELAYING), rt)
    ensures FlowsApart(Straight("relay", RELAYING), rt)
  {
    var f := Straight("relay", RELAYING);
    assert !IsMain(f);
    RelayingStructs(rt, 6);
    forall k | 0 <= k < 7
      ensures InstrApart(f, rt, Instr(k, INT, RELAYING[k]))
    {
      RelayingInstr(rt, k);
    }
    RelayingOps(6);
    assert f.blocks[0].term == Terminator.Return(6) && f.blocks[0] in f.blocks;
    hide Plain, Structs, InstrApart, IsMain;
    assert TermApart(f, rt, f.blocks[0].term);
  }
}
