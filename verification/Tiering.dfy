/** Tiered execution: loop counters, promotion to the optimizing tier and bailouts back. */
module Tiering {
  import opened Options
  import opened Sequences

  datatype Tier = Baseline | Optimized

  datatype Slot = IntSlot(num: int) | FloatSlot(float: real) | BoolSlot(flag: bool) | PointerSlot(address: nat)

  datatype Frame = Frame(functionName: string, blockId: nat, loopNestDepth: nat, locals: map<nat, Slot>,
                         inductionVars: map<string, int>)

  datatype Reason =
    | TypeGuardFailed(expected: string, actual: string)
    | ArrayBoundsCheckFailed(index: int, length: nat)
    | IntegerOverflow
    | DivisionByZero
    | SpeculationInvalidated(hint: string)

  datatype Bailout = Bailout(reason: Reason, targetBlock: nat, restored: Frame)

  /** What can happen to the engine. */
  datatype Event =
    | BackEdge(loop: string, runner: string)
    | Deopt(deopted: string, bailout: Bailout)

  // ----- what a history says

  function BackEdges(h: seq<Event>, loop: string): nat {
    if h == [] then 0 else
    BackEdges(h[..|h| - 1], loop) + if h[|h| - 1].BackEdge? && h[|h| - 1].loop == loop then 1 else 0
  }

  function Bailouts(h: seq<Event>): seq<Bailout> {
    if h == [] then [] else
    Bailouts(h[..|h| - 1]) + if h[|h| - 1].Deopt? then [h[|h| - 1].bailout] else []
  }

  /** The tier of a function after the history. */
  function TierAfter(h: seq<Event>, f: string, threshold: nat): Tier {
    if h == [] then Baseline else
    var before, last := h[..|h| - 1], h[|h| - 1];
    if last.Deopt? && last.deopted == f then Baseline
    else if last.BackEdge? && last.runner == f && Hot(before, last.loop, threshold) then Optimized
    else TierAfter(before, f, threshold)
  }

  /** The next back-edge of the loop reaches the threshold. */
  predicate Hot(h: seq<Event>, loop: string, threshold: nat) {
    BackEdges(h, loop) + 1 >= threshold
  }

  /** Event `k` promotes `f`: a hot back-edge of a function still in the baseline tier. */
  predicate PromotesAt(h: seq<Event>, k: nat, f: string, threshold: nat)
    requires k < |h|
  {
    && h[k].BackEdge? && h[k].runner == f
    && Hot(h[..k], h[k].loop, threshold) && TierAfter(h[..k], f, threshold) == Baseline
  }

  predicate DeoptsAt(h: seq<Event>, k: nat, f: string)
    requires k < |h|
  {
    h[k].Deopt? && h[k].deopted == f
  }

  /** Promoted, and not deoptimized since. */
  ghost predicate PromotedSinceDeopt(h: seq<Event>, f: string, threshold: nat) {
    exists k :: 0 <= k < |h| && PromotesAt(h, k, f, threshold) && forall j | k < j < |h| :: !DeoptsAt(h, j, f)
  }

  lemma PrefixEvents(h: seq<Event>, k: nat, n: nat, f: string, threshold: nat)
    requires k < n <= |h|
    ensures PromotesAt(h[..n], k, f, threshold) == PromotesAt(h, k, f, threshold)
    ensures DeoptsAt(h[..n], k, f) == DeoptsAt(h, k, f)
  {
    assert h[..n][..k] == h[..k] && h[..n][k] == h[k];
    hide TierAfter, Hot;
  }

  /** A function is in the optimizing tier exactly when promoted since its last deoptimization. */
  lemma {:induction false} OptimizedIffPromoted(h: seq<Event>, f: string, threshold: nat)
    ensures TierAfter(h, f, threshold) == Optimized <==> PromotedSinceDeopt(h, f, threshold)
    decreases |h|
  {
    if h != [] {
      var n := |h| - 1;
      OptimizedIffPromoted(h[..n], f, threshold);
      if DeoptsAt(h, n, f) {
      } else if PromotesAt(h, n, f, threshold) {
      } else {
        LastIsQuiet(h, f, threshold);
      }
    }
  }

  lemma LastIsQuiet(h: seq<Event>, f: string, threshold: nat)
    requires h != [] && !DeoptsAt(h, |h| - 1, f) && !PromotesAt(h, |h| - 1, f, threshold)
    ensures PromotedSinceDeopt(h, f, threshold) <==> PromotedSinceDeopt(h[..|h| - 1], f, threshold)
  {
    var n := |h| - 1;
    var before := h[..n];
    hide PromotesAt, DeoptsAt;
    forall k | 0 <= k < n
      ensures PromotesAt(before, k, f, threshold) == PromotesAt(h, k, f, threshold)
      ensures DeoptsAt(before, k, f) == DeoptsAt(h, k, f)
    {
      PrefixEvents(h, k, n, f, threshold);
    }
    if PromotedSinceDeopt(h, f, threshold) {
      var k :| 0 <= k < |h| && PromotesAt(h, k, f, threshold) && forall j | k < j < |h| :: !DeoptsAt(h, j, f);
      assert k < n && PromotesAt(before, k, f, threshold);
      assert forall j | k < j < n :: !DeoptsAt(before, j, f);
    }
    if PromotedSinceDeopt(before, f, threshold) {
      var k :| 0 <= k < n && PromotesAt(before, k, f, threshold) && forall j | k < j < n :: !DeoptsAt(before, j, f);
      assert PromotesAt(h, k, f, threshold);
      assert forall j | k < j < |h| :: !DeoptsAt(h, j, f);
    }
  }

  // ----- counting

  function Promotions(h: seq<Event>, f: string, threshold: nat): nat {
    if h == [] then 0 else
    Promotions(h[..|h| - 1], f, threshold) + if PromotesAt(h, |h| - 1, f, threshold) then 1 else 0
  }

  function Deopts(h: seq<Event>, f: string): nat {
    if h == [] then 0 else
    Deopts(h[..|h| - 1], f) + if DeoptsAt(h, |h| - 1, f) then 1 else 0
  }

  /** Between two promotions of a function lies a deoptimization of it. */
  lemma {:induction false} PromotionsBounded(h: seq<Event>, f: string, threshold: nat)
    ensures Promotions(h, f, threshold)
         <= Deopts(h, f) + if TierAfter(h, f, threshold) == Optimized then 1 else 0
    decreases |h|
  {
    if h != [] {
      PromotionsBounded(h[..|h| - 1], f, threshold);
      hide Hot;
    }
  }

  function AllDeopts(h: seq<Event>, functions: seq<string>): nat {
    if functions == [] then 0 else Deopts(h, functions[0]) + AllDeopts(h, functions[1..])
  }

  lemma {:induction false} AllDeoptsStep(h: seq<Event>, functions: seq<string>)
    requires h != [] && Distinct(functions)
    ensures var last := h[|h| - 1];
            AllDeopts(h, functions) == AllDeopts(h[..|h| - 1], functions)
            + if last.Deopt? && last.deopted in functions then 1 else 0
  {
    if functions != [] {
      AllDeoptsStep(h, functions[1..]);
      assert functions == [functions[0]] + functions[1..];
    }
  }

  /** The recorded bailouts are the deoptimizations of all functions together. */
  lemma {:induction false} BailoutsAreDeopts(h: seq<Event>, functions: seq<string>)
    requires Distinct(functions)
    requires forall e | e in h :: e.Deopt? ==> e.deopted in functions
    ensures |Bailouts(h)| == AllDeopts(h, functions)
    decreases |h|
  {
    if h == [] {
      NoDeopts(functions);
    } else {
      assert h[|h| - 1] in h;
      BailoutsAreDeopts(h[..|h| - 1], functions);
      AllDeoptsStep(h, functions);
    }
  }

  lemma {:induction false} NoDeopts(functions: seq<string>)
    ensures AllDeopts([], functions) == 0
  {
    if functions != [] {
      NoDeopts(functions[1..]);
    }
  }

  function AllPromotions(h: seq<Event>, functions: seq<string>, threshold: nat): nat {
    if functions == [] then 0 else Promotions(h, functions[0], threshold) + AllPromotions(h, functions[1..], threshold)
  }

  lemma {:induction false} PromotionsOfAllBounded(h: seq<Event>, functions: seq<string>, threshold: nat)
    ensures AllPromotions(h, functions, threshold) <= AllDeopts(h, functions) + |functions|
  {
    if functions != [] {
      PromotionsBounded(h, functions[0], threshold);
      PromotionsOfAllBounded(h, functions[1..], threshold);
      hide Promotions, Deopts, TierAfter;
    }
  }

  /** Over all functions: at most one promotion each beyond the recorded bailouts. */
  lemma PromotionsCapped(h: seq<Event>, functions: seq<string>, threshold: nat)
    requires Distinct(functions)
    requires forall e | e in h :: e.Deopt? ==> e.deopted in functions
    ensures AllPromotions(h, functions, threshold) <= |Bailouts(h)| + |functions|
  {
    PromotionsOfAllBounded(h, functions, threshold);
    BailoutsAreDeopts(h, functions);
  }

  /** Loop counters outlive a deoptimization: the very next back-edge of a hot loop promotes again. */
  lemma DeoptDoesNotCool(h: seq<Event>, loop: string, f: string, bailout: Bailout, threshold: nat)
    requires Hot(h, loop, threshold)
    ensures var next := h + [Deopt(f, bailout)] + [BackEdge(loop, f)];
            PromotesAt(next, |h| + 1, f, threshold) && TierAfter(next, f, threshold) == Optimized
  {
    var down := h + [Deopt(f, bailout)];
    var next := down + [BackEdge(loop, f)];
    assert down[..|h|] == h && next[..|h| + 1] == down;
    assert next[|h| + 1] == BackEdge(loop, f) && down[|h|] == Deopt(f, bailout);
  }

  // ----- the engine

  class OsrEngine {
    const hotLoopThreshold: nat
    var counters: map<string, nat>
    var tiers: map<string, Tier>
    var deoptHistory: seq<Bailout>
    ghost var history: seq<Event>

    ghost predicate Valid()
      reads this
    {
      && (forall loop :: Counter(loop) == BackEdges(history, loop))
      && (forall f :: CurrentTier(f) == TierAfter(history, f, hotLoopThreshold))
      && deoptHistory == Bailouts(history)
    }

    function Counter(loop: string): nat
      reads this
    {
      if loop in counters then counters[loop] else 0
    }

    function CurrentTier(f: string): Tier
      reads this
    {
      if f in tiers then tiers[f] else Baseline
    }

    constructor (hotLoopThreshold: nat)
      ensures this.hotLoopThreshold == hotLoopThreshold && Valid() && history == []
    {
      this.hotLoopThreshold := hotLoopThreshold;
      counters, tiers, deoptHistory, history := map[], map[], [], [];
    }

    /** Counts the back-edge; promotes, and says so, exactly when the loop is hot and the function is not. */
    method RecordLoopIteration(loop: string, f: string) returns (promoted: Option<Tier>)
      requires Valid()
      modifies this
      ensures Valid() && history == old(history) + [BackEdge(loop, f)]
      ensures promoted == if PromotesAt(history, |history| - 1, f, hotLoopThreshold) then Some(Optimized) else None
      ensures promoted.Some? <==> old(Counter(loop)) + 1 >= hotLoopThreshold && old(CurrentTier(f)) == Baseline
      ensures Counter(loop) == old(Counter(loop)) + 1
    {
      ghost var before := history;
      ghost var now := history + [BackEdge(loop, f)];
      assert now[..|now| - 1] == before;
      var count := (if loop in counters then counters[loop] else 0) + 1;
      counters := counters[loop := count];
      history := now;
      promoted := None;
      if count >= hotLoopThreshold {
        var current := if f in tiers then tiers[f] else Baseline;
        if current == Baseline {
          tiers := tiers[f := Optimized];
          promoted := Some(Optimized);
        }
      }
    }

    /** Always downgrades, whatever tier the function was in. */
    method TriggerDeopt(f: string, reason: Reason, targetBlock: nat, frame: Frame) returns (bailout: Bailout)
      requires Valid()
      modifies this
      ensures bailout == Bailout(reason, targetBlock, frame)
      ensures Valid() && history == old(history) + [Deopt(f, bailout)]
    {
      bailout := Bailout(reason, targetBlock, frame);
      ghost var now := history + [Deopt(f, bailout)];
      assert now[..|now| - 1] == history;
      tiers := tiers[f := Baseline];
      deoptHistory := deoptHistory + [bailout];
      history := now;
    }

    method GetTier(f: string) returns (tier: Tier)
      requires Valid()
      ensures tier == Optimized <==> PromotedSinceDeopt(history, f, hotLoopThreshold)
    {
      tier := if f in tiers then tiers[f] else Baseline;
      assert tier == CurrentTier(f);
      OptimizedIffPromoted(history, f, hotLoopThreshold);
      hide TierAfter;
    }

    method DeoptCount() returns (n: nat)
      requires Valid()
      ensures n == |Bailouts(history)|
    {
      n := |deoptHistory|;
    }
  }
}
