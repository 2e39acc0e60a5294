/**
 Whole-program summary index: which functions can run, and what dead-code elimination leaves.

 Reachability is stated with explicit call paths; the worklist of the source is proved to compute
 exactly the names at the end of such paths.
 */
module LinkIndex {
  datatype FunctionSummary = FunctionSummary(name: string, moduleName: string, isExported: bool, isRoot: bool,
                                             callees: set<string>)

  type Index = map<string, FunctionSummary>

  ghost predicate Keyed(fs: Index) {
    forall n | n in fs :: fs[n].name == n
  }

  predicate EntryPoint(fs: Index, n: string) {
    n in fs && (fs[n].isRoot || fs[n].isExported)
  }

  predicate Calls(fs: Index, caller: string, callee: string) {
    caller in fs && callee in fs[caller].callees
  }

  predicate CallPath(fs: Index, p: seq<string>) {
    p != [] && EntryPoint(fs, p[0]) && forall k | 0 <= k < |p| - 1 :: Calls(fs, p[k], p[k + 1])
  }

  /** A name at the end of a call path. It need not be registered: externals are called by name. */
  ghost predicate Reachable(fs: Index, n: string) {
    exists p: seq<string> :: CallPath(fs, p) && p[|p| - 1] == n
  }

  lemma EntryReachable(fs: Index, n: string)
    requires EntryPoint(fs, n)
    ensures Reachable(fs, n)
  {
    assert CallPath(fs, [n]);
  }

  lemma CalleeReachable(fs: Index, caller: string, callee: string)
    requires Reachable(fs, caller) && Calls(fs, caller, callee)
    ensures Reachable(fs, callee)
  {
    var p :| CallPath(fs, p) && p[|p| - 1] == caller;
    assert CallPath(fs, p + [callee]);
  }

  /** Holds the entry points and every callee of a member. */
  ghost predicate Closed(fs: Index, names: set<string>) {
    && (forall n | EntryPoint(fs, n) :: n in names)
    && (forall n, c | n in names && Calls(fs, n, c) :: c in names)
  }

  lemma {:induction false} ClosedHoldsPaths(fs: Index, names: set<string>, p: seq<string>, k: nat)
    requires Closed(fs, names) && CallPath(fs, p) && k < |p|
    ensures p[k] in names
    decreases k
  {
    if k > 0 {
      ClosedHoldsPaths(fs, names, p, k - 1);
      assert Calls(fs, p[k - 1], p[k - 1 + 1]);
    }
  }

  /** The reachable names are the least closed set. */
  lemma ClosedHoldsReachable(fs: Index, names: set<string>, n: string)
    requires Closed(fs, names) && Reachable(fs, n)
    ensures n in names
  {
    var p :| CallPath(fs, p) && p[|p| - 1] == n;
    ClosedHoldsPaths(fs, names, p, |p| - 1);
  }

  // ----- what elimination leaves

  ghost function Survivors(fs: Index): Index {
    map n | n in fs && Reachable(fs, n) :: fs[n]
  }

  /** A function survives exactly when it is a root, is exported, or is called by a survivor. */
  lemma SurvivesExactly(fs: Index, n: string)
    ensures n in Survivors(fs)
            <==> n in fs && (fs[n].isRoot || fs[n].isExported
                             || exists caller :: caller in Survivors(fs) && n in Survivors(fs)[caller].callees)
  {
    if n in Survivors(fs) && !fs[n].isRoot && !fs[n].isExported {
      var p :| CallPath(fs, p) && p[|p| - 1] == n;
      var caller := p[|p| - 2];
      PrefixPath(fs, p, |p| - 2);
      assert Calls(fs, caller, n);
      assert caller in Survivors(fs) && n in Survivors(fs)[caller].callees;
    }
    if n in fs && (fs[n].isRoot || fs[n].isExported) {
      EntryReachable(fs, n);
    }
    if caller :| caller in Survivors(fs) && n in Survivors(fs)[caller].callees {
      CalleeReachable(fs, caller, n);
    }
  }

  /** Every run from an entry point takes the same calls before and after elimination. */
  lemma PathsPreserved(fs: Index, p: seq<string>)
    ensures CallPath(fs, p) <==> CallPath(Survivors(fs), p)
  {
    if CallPath(fs, p) {
      forall k | 0 <= k < |p|
        ensures Reachable(fs, p[k])
      {
        PrefixPath(fs, p, k);
      }
      assert EntryPoint(Survivors(fs), p[0]);
      assert forall k | 0 <= k < |p| - 1 :: Calls(Survivors(fs), p[k], p[k + 1]);
    }
  }

  lemma PrefixPath(fs: Index, p: seq<string>, k: nat)
    requires CallPath(fs, p) && k < |p|
    ensures Reachable(fs, p[k])
  {
    var q := p[..k + 1];
    assert CallPath(fs, q) && q[|q| - 1] == p[k];
  }

  lemma ReachabilityPreserved(fs: Index, n: string)
    ensures Reachable(Survivors(fs), n) <==> Reachable(fs, n)
  {
    if Reachable(fs, n) {
      var p :| CallPath(fs, p) && p[|p| - 1] == n;
      PathsPreserved(fs, p);
    }
    if Reachable(Survivors(fs), n) {
      var p :| CallPath(Survivors(fs), p) && p[|p| - 1] == n;
      PathsPreserved(fs, p);
    }
  }

  /** A survivor that called a registered function still finds it, unchanged. */
  lemma NoCalleeLost(fs: Index, caller: string, callee: string)
    requires Calls(Survivors(fs), caller, callee) && callee in fs
    ensures callee in Survivors(fs) && Survivors(fs)[callee] == fs[callee]
  {
    CalleeReachable(fs, caller, callee);
  }

  lemma SecondPassIdle(fs: Index)
    ensures Survivors(Survivors(fs)) == Survivors(fs)
  {
    forall n | n in Survivors(fs)
      ensures Reachable(Survivors(fs), n)
    {
      ReachabilityPreserved(fs, n);
    }
  }

  /** Elimination is as thorough as it can be: whatever keeps entry points and callees keeps every survivor. */
  lemma SurvivorsAreLeast(fs: Index, keep: set<string>)
    requires forall n | EntryPoint(fs, n) :: n in keep
    requires forall n, c | n in keep && Calls(fs, n, c) && c in fs :: c in keep
    ensures Survivors(fs).Keys <= keep
  {
    var names := keep + (set n, c | n in fs && c in fs[n].callees && c !in fs :: c);
    assert Closed(fs, names);
    forall n | n in Survivors(fs)
      ensures n in keep
    {
      ClosedHoldsReachable(fs, names, n);
    }
  }

  // ----- the worklist

  /** Every name the index mentions as a function or a callee. */
  ghost function Universe(fs: Index): set<string> {
    fs.Keys + set n, c | n in fs && c in fs[n].callees :: c
  }

  /** Between two rounds: marks are sound, and complete but for what is still waiting. */
  ghost predicate Marked(fs: Index, reachable: set<string>, worklist: seq<string>) {
    && reachable <= Universe(fs)
    && (forall n | n in reachable :: Reachable(fs, n))
    && (forall n | EntryPoint(fs, n) :: n in reachable)
    && (forall n | n in worklist :: n in reachable)
    && (forall n, c | n in reachable && n !in worklist && Calls(fs, n, c) :: c in reachable)
  }

  lemma StartsMarked(fs: Index, reachable: set<string>, worklist: seq<string>)
    requires forall n :: n in worklist <==> EntryPoint(fs, n)
    requires forall n :: n in reachable <==> n in worklist
    ensures Marked(fs, reachable, worklist)
  {
    forall n | n in reachable
      ensures Reachable(fs, n)
    {
      EntryReachable(fs, n);
    }
  }

  /** One round takes the last waiting name and marks its callees. */
  lemma StaysMarked(fs: Index, was: set<string>, waiting: seq<string>, now: set<string>, worklist: seq<string>)
    requires waiting != [] && Marked(fs, was, waiting)
    requires var current, rest := waiting[|waiting| - 1], waiting[..|waiting| - 1];
             if current in fs
             then now == was + fs[current].callees
                  && forall n :: n in worklist <==> n in rest || n in fs[current].callees - was
             else now == was && worklist == rest
    ensures was <= now <= Universe(fs) && Marked(fs, now, worklist)
  {
    var current := waiting[|waiting| - 1];
    if current in fs {
      forall c | c in fs[current].callees
        ensures Reachable(fs, c) && c in Universe(fs)
      {
        CalleeReachable(fs, current, c);
      }
    }
    hide Reachable, Universe, EntryPoint;
    forall n, c | n in now && n !in worklist && Calls(fs, n, c)
      ensures c in now
    {
      if n != current {
        assert n in was && n !in waiting;
      }
    }
  }

  lemma MarkedIsExact(fs: Index, reachable: set<string>)
    requires Marked(fs, reachable, [])
    ensures forall n :: n in reachable <==> Reachable(fs, n)
  {
    assert Closed(fs, reachable);
    forall n | Reachable(fs, n)
      ensures n in reachable
    {
      ClosedHoldsReachable(fs, reachable, n);
    }
  }

  lemma Shrinks(universe: set<string>, was: set<string>, now: set<string>)
    requires was <= now <= universe
    ensures now == was || |universe - now| < |universe - was|
  {
    if now != was {
      assert universe - was == (universe - now) + (now - was);
      assert now - was != {};
    }
  }

  // ----- the index

  class ModuleSummaryIndex {
    var functions: Index

    ghost predicate Valid()
      reads this
    {
      Keyed(functions)
    }

    constructor ()
      ensures Valid() && functions == map[]
    {
      functions := map[];
    }

    /** A second registration under the same name replaces the first. */
    method RegisterFunction(summary: FunctionSummary)
      requires Valid()
      modifies this
      ensures Valid() && functions == old(functions)[summary.name := summary]
    {
      functions := functions[summary.name := summary];
    }

    /** The initial worklist, in whatever order the map yields its values. */
    method EntryPoints() returns (worklist: seq<string>)
      requires Valid()
      ensures forall n :: n in worklist <==> EntryPoint(functions, n)
    {
      worklist := [];
      var keys := functions.Keys;
      while keys != {}
        invariant keys <= functions.Keys
        invariant forall n :: n in worklist <==> n !in keys && EntryPoint(functions, n)
      {
        var key :| key in keys;
        keys := keys - {key};
        if functions[key].isRoot || functions[key].isExported {
          worklist := worklist + [functions[key].name];
        }
      }
    }

    /** Marks the callees of one function; the newly marked ones go on the worklist. */
    method MarkCallees(callees: set<string>, marked: set<string>, pending: seq<string>)
      returns (reachable: set<string>, worklist: seq<string>)
      ensures reachable == marked + callees
      ensures forall n :: n in worklist <==> n in pending || n in callees - marked
      ensures callees <= marked ==> worklist == pending
    {
      reachable, worklist := marked, pending;
      var rest := callees;
      while rest != {}
        invariant rest <= callees && reachable == marked + (callees - rest)
        invariant forall n :: n in worklist <==> n in pending || n in callees - rest - marked
        invariant callees <= marked ==> worklist == pending
      {
        var callee :| callee in rest;
        if callee !in reachable {
          reachable := reachable + {callee};
          worklist := worklist + [callee];
        }
        rest := rest - {callee};
      }
    }

    /** Ends because each round marks an unmarked name or shortens the worklist; and is exact. */
    method ComputeReachableFunctions() returns (reachable: set<string>)
      requires Valid()
      ensures forall n :: n in reachable <==> Reachable(functions, n)
    {
      var worklist := EntryPoints();
      reachable := set n | n in worklist;
      StartsMarked(functions, reachable, worklist);
      hide *;
      while worklist != []
        invariant Marked(functions, reachable, worklist)
        decreases |Universe(functions) - reachable|, |worklist|
      {
        var current := worklist[|worklist| - 1];
        ghost var was, waiting := reachable, worklist;
        worklist := worklist[..|worklist| - 1];
        if current in functions {
          reachable, worklist := MarkCallees(functions[current].callees, reachable, worklist);
        }
        StaysMarked(functions, was, waiting, reachable, worklist);
        Shrinks(Universe(functions), was, reachable);
      }
      MarkedIsExact(functions, reachable);
    }

    /** The unreachable keys, in whatever order the map yields them. */
    method DeadKeys(reachable: set<string>) returns (dead: seq<string>)
      ensures forall n :: n in dead <==> n in functions && n !in reachable
      ensures forall i, j | 0 <= i < j < |dead| :: dead[i] != dead[j]
    {
      dead := [];
      var keys := functions.Keys;
      while keys != {}
        invariant keys <= functions.Keys
        invariant forall n :: n in dead <==> n in functions && n !in keys && n !in reachable
        invariant forall i, j | 0 <= i < j < |dead| :: dead[i] != dead[j]
      {
        var key :| key in keys;
        keys := keys - {key};
        if key !in reachable {
          dead := dead + [key];
        }
      }
    }

    method EliminateDeadFunctions() returns (dead: seq<string>)
      requires Valid()
      modifies this
      ensures Valid() && functions == Survivors(old(functions))
      ensures forall n :: n in dead <==> n in old(functions) && !Reachable(old(functions), n)
      ensures forall i, j | 0 <= i < j < |dead| :: dead[i] != dead[j]
    {
      ghost var before := functions;
      var reachable := ComputeReachableFunctions();
      dead := DeadKeys(reachable);
      for i := 0 to |dead|
        invariant forall n :: n in functions <==> n in before && n !in dead[..i]
        invariant forall n | n in functions :: functions[n] == before[n]
      {
        functions := functions - {dead[i]};
      }
      assert dead[..|dead|] == dead;
      assert functions.Keys == Survivors(before).Keys;
    }
  }
}
