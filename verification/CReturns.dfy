/** Functions that return integers on one path and booleans on another. */
module CReturns {
  import opened CEmission
  import opened CInference
  import opened CMachine
  import opened CTypes
  import opened Mir
  import opened Options
  import opened Words

  /** Some block returns a value of the type. */
  ghost predicate Returns(blocks: seq<Block>, lay: Layout, t: CType) {
    exists b :: b in blocks && b.term.Return? && lay.ValueType(b.term.returned) == t
  }

  ghost predicate ReturnsPlain(blocks: seq<Block>, lay: Layout) {
    forall b | b in blocks && b.term.Return? :: lay.ValueType(b.term.returned) in {Int, Bool}
  }

  lemma ReturnsLast(blocks: seq<Block>, lay: Layout, t: CType)
    requires blocks != []
    ensures var n := |blocks| - 1;
            Returns(blocks, lay, t)
            <==> Returns(blocks[..n], lay, t)
                 || (blocks[n].term.Return? && lay.ValueType(blocks[n].term.returned) == t)
  {
    var n := |blocks| - 1;
    assert blocks[n] in blocks;
    forall b | b in blocks
      ensures b in blocks[..n] || b == blocks[n]
    {
    }
    forall b | b in blocks[..n]
      ensures b in blocks
    {
    }
  }

  /** Merging integers and booleans gives a boolean as soon as there is one. */
  lemma {:induction false} MergedReturns(blocks: seq<Block>, lay: Layout)
    requires ReturnsPlain(blocks, lay)
    ensures var m := MergeAll(ReturnTypes(lay, blocks));
            && (m == Some(Bool) <==> Returns(blocks, lay, Bool))
            && (m == Some(Int) <==> Returns(blocks, lay, Int) && !Returns(blocks, lay, Bool))
            && (m.Some? ==> m.value in {Int, Bool})
            && (m.None? ==> ReturnTypes(lay, blocks) == [])
  {
    if blocks != [] {
      var n := |blocks| - 1;
      assert blocks[n] in blocks;
      forall b | b in blocks[..n]
        ensures b in blocks
      {
      }
      MergedReturns(blocks[..n], lay);
      ReturnsLast(blocks, lay, Bool);
      ReturnsLast(blocks, lay, Int);
      if blocks[n].term.Return? {
        MergeLast(ReturnTypes(lay, blocks[..n]), lay.ValueType(blocks[n].term.returned));
      } else {
        assert ReturnTypes(lay, blocks) == ReturnTypes(lay, blocks[..n]);
      }
      MergeNothing();
      hide Returns, MergeAll;
    }
  }

  lemma MergeNothing()
    ensures MergeAll([]).None?
  {
  }

  lemma MergeLast(ts: seq<CType>, t: CType)
    ensures MergeAll(ts + [t]) == if ts == [] then Some(t) else
                                  if MergeAll(ts).None? then None else Some(Merge(MergeAll(ts).value, t))
  {
    assert (ts + [t])[..|ts|] == ts;
    hide Merge;
  }

  /** The inferred return type is boolean exactly when one of the returned values is. */
  lemma MixedReturnsAreBool(f: Function, rt: CInference.Returns)
    requires ReturnsPlain(f.blocks, Analysis(f, rt))
    requires exists b :: b in f.blocks && b.term.Return?
    ensures Analysis(f, rt).returnTy == Bool <==> Returns(f.blocks, Analysis(f, rt), Bool)
    ensures Analysis(f, rt).returnTy == Int || Analysis(f, rt).returnTy == Bool
  {
    var lay := InferInstrs(Seeded(f), rt, AllInstrs(f.blocks));
    SameValues(f.blocks, lay, Analysis(f, rt));
    hide Seeded, InferInstrs, AllInstrs;
    MergedReturns(f.blocks, lay);
    var b :| b in f.blocks && b.term.Return?;
    assert Returns(f.blocks, lay, lay.ValueType(b.term.returned));
    hide MergeAll, ReturnTypes;
  }

  lemma SameValues(blocks: seq<Block>, a: Layout, b: Layout)
    requires a.values == b.values
    ensures ReturnsPlain(blocks, a) <==> ReturnsPlain(blocks, b)
    ensures forall t :: Returns(blocks, a, t) <==> Returns(blocks, b, t)
  {
  }

  /**
   The emitted return of an integer, in a function that elsewhere returns a boolean: what comes back
   is the integer exactly when that fits in 32 bits.
   */
  lemma MixedReturnLosesBits(f: Function, rt: CInference.Returns, prog: seq<CFunction>, s: CState, v: ValueId, n: i64)
    requires ReturnsPlain(f.blocks, Analysis(f, rt)) && Returns(f.blocks, Analysis(f, rt), Bool) && !IsMain(f)
    requires s.CRunning? && s.top.fn == EmitFunction(f, Analysis(f, rt)) && s.callers == []
    requires s.top.rest != [] && s.top.rest[0] == EmitTerm(Terminator.Return(v), false)
    requires ValueName(v) in s.top.vars && s.top.vars[ValueName(v)] == Cell(Int, Whole(n))
    ensures CStep(prog, s).Some? && CStep(prog, s).value.CDone?
    ensures CStep(prog, s).value.result == Whole(n) <==> -TWO_31 <= n < TWO_31
    ensures CStep(prog, s).value.result == Whole(Wrap32(n))
  {
    hide *;
    SomeReturns(f.blocks, Analysis(f, rt), Bool);
    MixedReturnsAreBool(f, rt);
    PrintedReturn(f, Analysis(f, rt), v);
    BoolReturn(prog, s, ValueName(v), n);
    WrapExactly(n);
  }

  lemma WrapExactly(n: i64)
    ensures Wrap32(n) == n <==> -TWO_31 <= n < TWO_31
  {
  }

  lemma SomeReturns(blocks: seq<Block>, lay: Layout, t: CType)
    requires Returns(blocks, lay, t)
    ensures exists b :: b in blocks && b.term.Return?
  {
  }

  lemma PrintedReturn(f: Function, lay: Layout, v: ValueId)
    requires !IsMain(f)
    ensures EmitFunction(f, lay).ret == lay.returnTy
    ensures EmitTerm(Terminator.Return(v), false) == ReturnVar(ValueName(v))
  {
    hide EmitAliases, EmitBlocks, ValueName;
  }

  lemma BoolReturn(prog: seq<CFunction>, s: CState, x: string, n: i64)
    requires s.CRunning? && s.callers == [] && s.top.fn.ret == Bool
    requires s.top.rest != [] && s.top.rest[0] == ReturnVar(x)
    requires x in s.top.vars && s.top.vars[x] == Cell(Int, Whole(n))
    ensures CStep(prog, s) == Some(CDone(Whole(Wrap32(n)), s.trace))
  {
    hide Eval;
  }
}
