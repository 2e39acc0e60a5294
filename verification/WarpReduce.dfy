/**
 The shuffle-down reduction emitted for `WarpReduceAdd`, run on 32 lanes in lockstep.
 Registers carry the identifier scheme of the emitted text: `%v7`, `%v7_s16`, `%v7_r16`.
 */
module WarpReduce {
  import opened Options
  import opened Words

  datatype Register = Plain(id: nat) | Shuffled(id: nat, delta: nat) | Partial(id: nat, delta: nat)

  /** `shfl.sync.down` and 32-bit `add`: the two instructions the intrinsic expands to. */
  datatype Instruction =
    | ShuffleDown(dst: Register, mask: int, src: Register, delta: nat, clamp: nat)
    | Add(dst: Register, left: Register, right: Register)

  const LANES := 32

  ghost predicate IsWarp(lanes: seq<int>) {
    |lanes| == LANES && forall i | 0 <= i < LANES :: -TWO_31 <= lanes[i] < TWO_31
  }

  type Registers = map<Register, seq<int>>

  // ----- what is emitted

  /** One shuffle and one addition. */
  function Round(id: nat, dst: Register, src: Register, delta: nat): seq<Instruction> {
    [ShuffleDown(Shuffled(id, delta), -1, src, delta, 31), Add(dst, src, Shuffled(id, delta))]
  }

  /** Without an argument the emitter reduces `%v0`. */
  function Emit(id: nat, args: seq<nat>): seq<Instruction> {
    var val := if args == [] then 0 else args[0];
    Round(id, Partial(id, 16), Plain(val), 16)
    + (Round(id, Partial(id, 8), Partial(id, 16), 8)
       + (Round(id, Partial(id, 4), Partial(id, 8), 4)
          + (Round(id, Partial(id, 2), Partial(id, 4), 2)
             + Round(id, Plain(id), Partial(id, 2), 1))))
  }

  // ----- the warp

  /** A lane whose source lies past the clamp reads its own value. */
  function Shuffle(lanes: seq<int>, delta: nat, clamp: nat): (r: seq<int>)
    requires |lanes| == LANES
    ensures |r| == LANES
  {
    seq(LANES, i requires 0 <= i < LANES =>
      if i + delta <= clamp && i + delta < LANES then lanes[i + delta] else lanes[i])
  }

  function AddLanes(a: seq<int>, b: seq<int>): (r: seq<int>)
    requires |a| == LANES && |b| == LANES
    ensures |r| == LANES
  {
    seq(LANES, i requires 0 <= i < LANES => Wrap32(a[i] + b[i]))
  }

  /** `None` for an undefined register, or for a shuffle some lane sits out. */
  function Step(i: Instruction, regs: Registers): Option<Registers> {
    match i
    case ShuffleDown(dst, mask, src, delta, clamp) =>
      if mask == -1 && src in regs && |regs[src]| == LANES
      then Some(regs[dst := Shuffle(regs[src], delta, clamp)]) else None
    case Add(dst, left, right) =>
      if left in regs && right in regs && |regs[left]| == LANES && |regs[right]| == LANES
      then Some(regs[dst := AddLanes(regs[left], regs[right])]) else None
  }

  function Run(code: seq<Instruction>, regs: Registers): Option<Registers> {
    if code == [] then Some(regs) else
    var next :- Step(code[0], regs);
    Run(code[1..], next)
  }

  lemma RunRound(id: nat, dst: Register, src: Register, delta: nat, rest: seq<Instruction>, regs: Registers)
    requires src in regs && |regs[src]| == LANES && src != Shuffled(id, delta)
    ensures Run(Round(id, dst, src, delta) + rest, regs)
         == Run(rest, regs[Shuffled(id, delta) := Shuffle(regs[src], delta, 31)][dst := Fold(regs[src], delta)])
  {
    var code := Round(id, dst, src, delta) + rest;
    var shuffled := regs[Shuffled(id, delta) := Shuffle(regs[src], delta, 31)];
    assert code[1..][1..] == rest;
    assert Step(code[0], regs) == Some(shuffled);
    assert Step(code[1..][0], shuffled) == Some(shuffled[dst := Fold(regs[src], delta)]);
  }

  // ----- one round

  /** Adds to each lane the one `delta` above it. */
  function Fold(lanes: seq<int>, delta: nat): (r: seq<int>)
    requires |lanes| == LANES
    ensures |r| == LANES
  {
    AddLanes(lanes, Shuffle(lanes, delta, 31))
  }

  /** `s[k] + s[k + d] + s[k + 2d] + ...`: one residue class modulo `d` when `k < d`. */
  function StrideSum(s: seq<int>, k: nat, d: nat): int
    requires 0 < d
    decreases |s| - k
  {
    if k >= |s| then 0 else s[k] + StrideSum(s, k + d, d)
  }

  /** A class modulo `d` is two classes modulo `2d`. */
  lemma {:induction false} ClassSplits(s: seq<int>, k: nat, d: nat)
    requires 0 < d
    ensures StrideSum(s, k, d) == StrideSum(s, k, 2 * d) + StrideSum(s, k + d, 2 * d)
    decreases |s| - k
  {
    if k < |s| {
      ClassSplits(s, k + d, d);
    }
  }

  lemma WrapAdds(x: int, y: int)
    ensures Wrap32(Wrap32(x) + Wrap32(y)) == Wrap32(x + y)
  {
  }

  /** The invariant of the reduction: lanes below `d` hold the sums of their classes modulo `d`. */
  ghost predicate HoldsClasses(s: seq<int>, lanes: seq<int>, d: nat)
    requires 0 < d <= LANES
  {
    |lanes| == LANES && forall i | 0 <= i < d :: lanes[i] == Wrap32(StrideSum(s, i, d))
  }

  lemma StartsWithClasses(s: seq<int>)
    requires IsWarp(s)
    ensures HoldsClasses(s, s, LANES)
  {
    forall i | 0 <= i < LANES
      ensures s[i] == Wrap32(StrideSum(s, i, LANES))
    {
      assert StrideSum(s, i + LANES, LANES) == 0;
    }
  }

  lemma FoldedLane(lanes: seq<int>, d: nat, i: nat)
    requires |lanes| == LANES && i + d < LANES
    ensures Fold(lanes, d)[i] == Wrap32(lanes[i] + lanes[i + d])
  {
  }

  lemma FoldKeepsClasses(s: seq<int>, lanes: seq<int>, d: nat)
    requires 0 < d && 2 * d <= LANES && HoldsClasses(s, lanes, 2 * d)
    ensures HoldsClasses(s, Fold(lanes, d), d)
  {
    hide Fold, StrideSum, Wrap32;
    forall i | 0 <= i < d
      ensures Fold(lanes, d)[i] == Wrap32(StrideSum(s, i, d))
    {
      FoldedLane(lanes, d, i);
      ClassSplits(s, i, d);
      WrapAdds(StrideSum(s, i, 2 * d), StrideSum(s, i + d, 2 * d));
    }
  }

  // ----- the whole reduction

  function Sum(s: seq<int>): int {
    if s == [] then 0 else s[0] + Sum(s[1..])
  }

  lemma {:induction false} UnitStrideIsSum(s: seq<int>, k: nat)
    requires k <= |s|
    ensures StrideSum(s, k, 1) == Sum(s[k..])
    decreases |s| - k
  {
    if k < |s| {
      UnitStrideIsSum(s, k + 1);
      assert s[k..][1..] == s[k + 1..];
    }
  }

  function FoldAll(lanes: seq<int>): (r: seq<int>)
    requires |lanes| == LANES
    ensures |r| == LANES
  {
    Fold(Fold(Fold(Fold(Fold(lanes, 16), 8), 4), 2), 1)
  }

  lemma EmittedFoldsAll(id: nat, args: seq<nat>, regs: Registers)
    requires var val := Plain(if args == [] then 0 else args[0]);
             val in regs && |regs[val]| == 32
    ensures var val := Plain(if args == [] then 0 else args[0]);
            var end := Run(Emit(id, args), regs);
            && end.Some? && Plain(id) in end.value && end.value[Plain(id)] == FoldAll(regs[val])
            && forall r | r in regs && r.Plain? && r != Plain(id) :: r in end.value && end.value[r] == regs[r]
  {
    hide Run, Round, Fold, Shuffle;
    var val := Plain(if args == [] then 0 else args[0]);
    var r2 := Round(id, Plain(id), Partial(id, 2), 1);
    var r4 := Round(id, Partial(id, 2), Partial(id, 4), 2) + r2;
    var r8 := Round(id, Partial(id, 4), Partial(id, 8), 4) + r4;
    var r16 := Round(id, Partial(id, 8), Partial(id, 16), 8) + r8;
    var s0 := regs[Shuffled(id, 16) := Shuffle(regs[val], 16, 31)][Partial(id, 16) := Fold(regs[val], 16)];
    RunRound(id, Partial(id, 16), val, 16, r16, regs);
    var l1 := s0[Partial(id, 16)];
    var s1 := s0[Shuffled(id, 8) := Shuffle(l1, 8, 31)][Partial(id, 8) := Fold(l1, 8)];
    RunRound(id, Partial(id, 8), Partial(id, 16), 8, r8, s0);
    var l2 := s1[Partial(id, 8)];
    var s2 := s1[Shuffled(id, 4) := Shuffle(l2, 4, 31)][Partial(id, 4) := Fold(l2, 4)];
    RunRound(id, Partial(id, 4), Partial(id, 8), 4, r4, s1);
    var l3 := s2[Partial(id, 4)];
    var s3 := s2[Shuffled(id, 2) := Shuffle(l3, 2, 31)][Partial(id, 2) := Fold(l3, 2)];
    RunRound(id, Partial(id, 2), Partial(id, 4), 2, r2, s2);
    var l4 := s3[Partial(id, 2)];
    var s4 := s3[Shuffled(id, 1) := Shuffle(l4, 1, 31)][Plain(id) := Fold(l4, 1)];
    assert r2 + [] == r2;
    RunRound(id, Plain(id), Partial(id, 2), 1, [], s3);
    RunNothing(s4);
  }

  lemma RunNothing(regs: Registers)
    ensures Run([], regs) == Some(regs)
  {
  }

  lemma LaneZero(s: seq<int>)
    requires IsWarp(s)
    ensures FoldAll(s)[0] == Wrap32(Sum(s))
  {
    hide Fold, StrideSum;
    StartsWithClasses(s);
    FoldKeepsClasses(s, s, 16);
    FoldKeepsClasses(s, Fold(s, 16), 8);
    FoldKeepsClasses(s, Fold(Fold(s, 16), 8), 4);
    FoldKeepsClasses(s, Fold(Fold(Fold(s, 16), 8), 4), 2);
    FoldKeepsClasses(s, Fold(Fold(Fold(Fold(s, 16), 8), 4), 2), 1);
    UnitStrideIsSum(s, 0);
    assert s[0..] == s;
  }

  /** Lane 0 of the result register holds the wrapping sum of all lanes of the argument. */
  lemma WarpSum(id: nat, args: seq<nat>, regs: Registers)
    requires var val := Plain(if args == [] then 0 else args[0]);
             val in regs && IsWarp(regs[val])
    ensures var val := Plain(if args == [] then 0 else args[0]);
            var end := Run(Emit(id, args), regs);
            && end.Some? && Plain(id) in end.value && |end.value[Plain(id)]| == 32
            && end.value[Plain(id)][0] == Wrap32(Sum(regs[val]))
  {
    EmittedFoldsAll(id, args, regs);
    hide Run, Emit, FoldAll;
    LaneZero(regs[Plain(if args == [] then 0 else args[0])]);
  }

  // ----- the other lanes

  ghost predicate SilentAbove(lanes: seq<int>) {
    |lanes| == LANES && forall j | 0 < j < LANES :: lanes[j] == 0
  }

  /** Values only move down: a lane never hears of the lanes below it. */
  lemma FoldStaysSilent(lanes: seq<int>, delta: nat)
    requires SilentAbove(lanes)
    ensures SilentAbove(Fold(lanes, delta))
  {
  }

  lemma {:induction false} SumOfZeros(s: seq<int>)
    requires forall k | 0 <= k < |s| :: s[k] == 0
    ensures Sum(s) == 0
  {
    if s != [] {
      SumOfZeros(s[1..]);
    }
  }

  /** The emitted comment says butterfly, but lane 0 is the only one sure to hold the sum. */
  lemma SumInLaneZeroOnly(i: nat)
    requires i < LANES
    ensures (forall s: seq<int> :: IsWarp(s) ==> FoldAll(s)[i] == Wrap32(Sum(s))) <==> i == 0
  {
    if i == 0 {
      forall s: seq<int> | IsWarp(s)
        ensures FoldAll(s)[0] == Wrap32(Sum(s))
      {
        LaneZero(s);
      }
    } else {
      var s: seq<int> := seq(LANES, k => if k == 0 then 1 else 0);
      SumOfZeros(s[1..]);
      assert Sum(s) == 1;
      FoldStaysSilent(s, 16);
      FoldStaysSilent(Fold(s, 16), 8);
      FoldStaysSilent(Fold(Fold(s, 16), 8), 4);
      FoldStaysSilent(Fold(Fold(Fold(s, 16), 8), 4), 2);
      FoldStaysSilent(Fold(Fold(Fold(Fold(s, 16), 8), 4), 2), 1);
      hide Fold, Sum;
      assert FoldAll(s)[i] == 0 && Wrap32(1) == 1;
      assert IsWarp(s);
    }
  }

  lemma TopLane(lanes: seq<int>, delta: nat, x: int)
    requires |lanes| == LANES && 0 < delta && lanes[31] == Wrap32(x)
    ensures Fold(lanes, delta)[31] == Wrap32(2 * x)
  {
    assert Fold(lanes, delta)[31] == Wrap32(lanes[31] + lanes[31]);
    WrapAdds(x, x);
    hide Wrap32;
  }

  lemma WordWraps(x: int)
    requires -TWO_31 <= x < TWO_31
    ensures Wrap32(x) == x
  {
  }

  /** The top lane has nothing above it and doubles itself five times. */
  lemma TopLaneDoubles(lanes: seq<int>)
    requires IsWarp(lanes)
    ensures FoldAll(lanes)[31] == Wrap32(32 * lanes[31])
  {
    var x := lanes[31];
    WordWraps(x);
    hide Fold, Wrap32;
    TopLane(lanes, 16, x);
    TopLane(Fold(lanes, 16), 8, 2 * x);
    TopLane(Fold(Fold(lanes, 16), 8), 4, 4 * x);
    TopLane(Fold(Fold(Fold(lanes, 16), 8), 4), 2, 8 * x);
    TopLane(Fold(Fold(Fold(Fold(lanes, 16), 8), 4), 2), 1, 16 * x);
  }
}
