/** The evolutionary search over lowering options: a run, and what no run can lose. */
module Tuner {
  import Division
  import Occupancy
  import opened Options
  import opened StableSort
  import opened Words

  datatype Gene = Gene(blockSize: u32, unrollFactor: u32, smemPaddingStride: u32, vectorWidth: u32,
                       inlineThreshold: u32)

  datatype Candidate = Candidate(gene: Gene, score: real)

  /** The settings of one tuner and the kernel it is asked about. */
  datatype Search = Search(populationSize: nat, generations: nat, mutationRate: real, registers: u32,
                           device: Occupancy.Device)

  const BLOCKS: seq<u32> := [64, 128, 256, 512]
  const UNROLLS: seq<u32> := [1, 2, 4, 8, 16]
  const PADDINGS: seq<u32> := [0, 1, 4]
  const WIDTHS: seq<u32> := [1, 2, 4]

  /** `TuningCandidate::default()`. */
  const DEFAULT := Candidate(Gene(256, 4, 1, 4, 100), 100.0)

  predicate InSpace(g: Gene) {
    && g.blockSize in BLOCKS && g.unrollFactor in UNROLLS && g.smemPaddingStride in PADDINGS
    && g.vectorWidth in WIDTHS && g.inlineThreshold == 100
  }

  function VectorFactor(width: u32): real {
    if width == 4 then 1.5 else if width == 2 then 1.25 else 1.0
  }

  function UnrollFactor(unroll: u32): real {
    if unroll == 4 || unroll == 8 then 1.3 else if unroll == 2 then 1.15 else if unroll == 16 then 1.1 else 1.0
  }

  function PaddingBonus(stride: u32): real {
    if stride > 0 then 1.2 else 0.9
  }

  function Weighted(percent: real, width: u32, unroll: u32, stride: u32): real {
    percent / 100.0 * VectorFactor(width) * UnrollFactor(unroll) * PaddingBonus(stride) * 100.0
  }

  /** `evaluate_fitness`; `None` where it panics, or has no number for the sort to compare. */
  function Fitness(g: Gene, registers: u32, device: Occupancy.Device): Option<real> {
    var smem := Division.Product(g.blockSize, g.smemPaddingStride + 4);
    if g.smemPaddingStride + 4 >= TWO_32 || smem >= TWO_32 then None else
    var report :- Occupancy.CalculateOccupancy(registers, smem, g.blockSize, device);
    var percent :- report.percent;
    Some(Weighted(percent, g.vectorWidth, g.unrollFactor, g.smemPaddingStride))
  }

  function Evaluate(g: Gene, s: Search): Option<Candidate> {
    var score :- Fitness(g, s.registers, s.device);
    Some(Candidate(g, score))
  }

  /** The sort of the source: descending score, equals in place. */
  predicate Fitter(a: Candidate, b: Candidate) {
    a.score >= b.score
  }

  function Ranked(population: seq<Candidate>): (r: seq<Candidate>)
    ensures multiset(r) == multiset(population) && |r| == |population|
  {
    Sort(Fitter, population)
  }

  // ----- generations

  function SeedGene(i: nat): Gene {
    Gene(BLOCKS[i % 4], UNROLLS[(i / 2) % 5], PADDINGS[i % 3], WIDTHS[i % 3], 100)
  }

  function Seeds(n: nat, s: Search): Option<seq<Candidate>> {
    if n == 0 then Some([]) else
    var earlier :- Seeds(n - 1, s);
    var c :- Evaluate(SeedGene(n - 1), s);
    Some(earlier + [c])
  }

  /** Mutation overrides everything but the block size and the inline threshold. */
  function Mutant(g: Gene): Gene {
    Gene(g.blockSize, 8, 1, 4, g.inlineThreshold)
  }

  /** Crossover of the two fittest; a child early enough in the generation is mutated. */
  function Child(p1: Gene, p2: Gene, position: nat, mutationRate: real): Gene {
    if position as real * 0.1 < mutationRate
    then Mutant(p1)
    else Gene(p1.blockSize, p2.unrollFactor, p1.smemPaddingStride, p2.vectorWidth, p1.inlineThreshold)
  }

  /** Children until the generation is full. */
  function Fill(next: seq<Candidate>, ranked: seq<Candidate>, s: Search): Option<seq<Candidate>>
    requires ranked != []
    decreases s.populationSize - |next|
  {
    if |next| >= s.populationSize then Some(next) else
    var gene := Child(ranked[0].gene, ranked[1 % |ranked|].gene, |next|, s.mutationRate);
    var c :- Evaluate(gene, s);
    Fill(next + [c], ranked, s)
  }

  /** The two fittest survive; indexing an empty population panics. */
  function NextGeneration(population: seq<Candidate>, s: Search): Option<seq<Candidate>> {
    var ranked := Ranked(population);
    if ranked == [] then None else
    Fill(if |ranked| > 1 then [ranked[0], ranked[1]] else [ranked[0]], ranked, s)
  }

  /** The population after `k` generations. */
  function Population(k: nat, s: Search): Option<seq<Candidate>> {
    if k == 0 then Seeds(s.populationSize, s) else
    var before :- Population(k - 1, s);
    NextGeneration(before, s)
  }

  // ----- the run

  method Evolve(s: Search) returns (r: Option<Candidate>)
    ensures r.Some? <==> Population(s.generations, s).Some?
    ensures r.Some? ==> r.value == Winner(Population(s.generations, s).value)
    ensures s.populationSize == s.generations == 0 ==> r == Some(Candidate(Gene(256, 4, 1, 4, 100), 100.0))
  {
    hide *;
    if s.populationSize == s.generations == 0 {
      EmptyRun(s);
    }
    var seeded := Seed(s);
    UnfoldPopulation(0, s);
    if seeded.None? {
      NoneFrom(0, s.generations, s);
      return None;
    }
    var population := seeded.value;
    for k := 0 to s.generations
      invariant Population(k, s) == Some(population)
    {
      UnfoldPopulation(k + 1, s);
      var next := Breed(population, s);
      if next.None? {
        NoneFrom(k + 1, s.generations, s);
        return None;
      }
      population := next.value;
    }
    r := Some(Winner(population));
  }

  /** The first after the last sort, or the default candidate of an empty population. */
  function Winner(population: seq<Candidate>): Candidate {
    var ranked := Ranked(population);
    if ranked == [] then DEFAULT else ranked[0]
  }

  /** Nobody to choose from: the default settings. */
  lemma EmptyRun(s: Search)
    requires s.populationSize == s.generations == 0
    ensures Population(s.generations, s).Some?
    ensures Winner(Population(s.generations, s).value) == Candidate(Gene(256, 4, 1, 4, 100), 100.0)
  {
  }

  method Seed(s: Search) returns (r: Option<seq<Candidate>>)
    ensures r == Seeds(s.populationSize, s)
  {
    var population := [];
    for i := 0 to s.populationSize
      invariant Seeds(i, s) == Some(population)
    {
      var c := Evaluate(SeedGene(i), s);
      if c.None? {
        SeedsNone(i + 1, s.populationSize, s);
        return None;
      }
      population := population + [c.value];
      hide Evaluate, SeedGene;
    }
    r := Some(population);
  }

  lemma {:induction false} SeedsNone(i: nat, n: nat, s: Search)
    requires i <= n && Seeds(i, s).None?
    ensures Seeds(n, s).None?
    decreases n
  {
    hide Evaluate, SeedGene;
    if i < n {
      SeedsNone(i, n - 1, s);
    }
  }

  method Breed(population: seq<Candidate>, s: Search) returns (r: Option<seq<Candidate>>)
    ensures r == NextGeneration(population, s)
  {
    var ranked := Ranked(population);
    if ranked == [] {
      return None;
    }
    var next := [ranked[0]];
    if |ranked| > 1 {
      next := next + [ranked[1]];
      assert next == [ranked[0], ranked[1]];
    }
    hide Evaluate, Child, Ranked;
    while |next| < s.populationSize
      invariant Fill(next, ranked, s) == NextGeneration(population, s)
      decreases s.populationSize - |next|
    {
      var gene := Child(ranked[0].gene, ranked[1 % |ranked|].gene, |next|, s.mutationRate);
      var c := Evaluate(gene, s);
      if c.None? {
        return None;
      }
      next := next + [c.value];
    }
    r := Some(next);
  }

  lemma UnfoldPopulation(k: nat, s: Search)
    ensures k == 0 ==> Population(k, s) == Seeds(s.populationSize, s)
    ensures k > 0 && Population(k - 1, s).None? ==> Population(k, s).None?
    ensures k > 0 && Population(k - 1, s).Some? ==> Population(k, s) == NextGeneration(Population(k - 1, s).value, s)
  {
    hide Seeds, NextGeneration;
  }

  lemma {:induction false} NoneFrom(k: nat, n: nat, s: Search)
    requires k <= n && Population(k, s).None?
    ensures Population(n, s).None?
    decreases n
  {
    hide *;
    if k < n {
      NoneFrom(k, n - 1, s);
      UnfoldPopulation(n, s);
    }
  }

  // ----- what every generation keeps

  /** A full population of points of the search space, each with its own fitness. */
  ghost predicate Sound(population: seq<Candidate>, s: Search) {
    forall c | c in population :: InSpace(c.gene) && Fitness(c.gene, s.registers, s.device) == Some(c.score)
  }

  /** Some member is at least as fit as the score. */
  ghost predicate Reaches(population: seq<Candidate>, score: real) {
    exists c :: c in population && c.score >= score
  }

  lemma FitterIsPreorder()
    ensures Preorder(Fitter)
  {
  }

  /** The front of a ranking is as fit as anyone. */
  lemma FrontIsFittest(population: seq<Candidate>)
    requires population != []
    ensures Ranked(population) != [] && Ranked(population)[0] in population
    ensures forall c | c in population :: Ranked(population)[0].score >= c.score
    ensures forall c | c in Ranked(population) :: c in population
  {
    FitterIsPreorder();
    SortSorts(Fitter, population);
    var ranked := Ranked(population);
    forall c | c in ranked
      ensures c in population
    {
      assert c in multiset(ranked);
    }
    forall c | c in population
      ensures ranked[0].score >= c.score
    {
      assert c in multiset(population);
      assert c in multiset(ranked);
      var j :| 0 <= j < |ranked| && ranked[j] == c;
      assert j == 0 || Fitter(ranked[0], ranked[j]);
    }
  }

  lemma SeedsInSpace(i: nat)
    ensures InSpace(SeedGene(i))
  {
  }

  lemma ChildInSpace(p1: Gene, p2: Gene, position: nat, mutationRate: real)
    requires InSpace(p1) && InSpace(p2)
    ensures InSpace(Child(p1, p2, position, mutationRate))
  {
    assert 8 == UNROLLS[3] && 1 == PADDINGS[1] && 4 == WIDTHS[2];
  }

  lemma {:induction false} SeedsSound(n: nat, s: Search)
    requires Seeds(n, s).Some?
    ensures |Seeds(n, s).value| == n && Sound(Seeds(n, s).value, s)
  {
    hide Fitness, InSpace, SeedGene;
    if n > 0 {
      SeedsSound(n - 1, s);
      SeedsInSpace(n - 1);
    }
  }

  lemma {:induction false} FillSound(next: seq<Candidate>, ranked: seq<Candidate>, s: Search)
    requires ranked != [] && Sound(ranked, s) && Sound(next, s) && |next| <= s.populationSize
    requires Fill(next, ranked, s).Some?
    ensures var full := Fill(next, ranked, s).value;
            |full| == s.populationSize && Sound(full, s) && next <= full
    decreases s.populationSize - |next|
  {
    hide Fitness, InSpace, Child;
    if |next| < s.populationSize {
      var p1, p2 := ranked[0], ranked[1 % |ranked|];
      assert p1 in ranked && p2 in ranked;
      ChildInSpace(p1.gene, p2.gene, |next|, s.mutationRate);
      var c := Evaluate(Child(p1.gene, p2.gene, |next|, s.mutationRate), s).value;
      FillSound(next + [c], ranked, s);
    }
  }

  /** One generation keeps the size, the search space and the scores, and loses no fitness. */
  lemma GenerationKeeps(population: seq<Candidate>, s: Search)
    requires population != [] && |population| == s.populationSize && Sound(population, s)
    requires NextGeneration(population, s).Some?
    ensures var next := NextGeneration(population, s).value;
            && |next| == s.populationSize && Sound(next, s)
            && forall c | c in population :: Reaches(next, c.score)
  {
    FrontIsFittest(population);
    var ranked := Ranked(population);
    hide Ranked, Fitness, InSpace;
    var elite := if |ranked| > 1 then [ranked[0], ranked[1]] else [ranked[0]];
    assert Sound(ranked, s) && Sound(elite, s);
    FillSound(elite, ranked, s);
    var next := NextGeneration(population, s).value;
    assert next[0] == elite[0] && next[0] in next;
  }

  lemma {:induction false} PopulationSound(k: nat, s: Search)
    requires Population(k, s).Some?
    ensures |Population(k, s).value| == s.populationSize && Sound(Population(k, s).value, s)
  {
    hide *;
    UnfoldPopulation(k, s);
    if k == 0 {
      SeedsSound(s.populationSize, s);
    } else {
      PopulationSound(k - 1, s);
      NothingBreeds(s);
      GenerationKeeps(Population(k - 1, s).value, s);
    }
  }

  lemma NothingBreeds(s: Search)
    ensures NextGeneration([], s).None?
  {
  }

  /** Whatever was evaluated in an earlier generation is matched in every later one. */
  lemma {:induction false} NothingLost(j: nat, k: nat, c: Candidate, s: Search)
    requires j <= k && Population(k, s).Some?
    ensures Population(j, s).Some?
    ensures c in Population(j, s).value ==> Reaches(Population(k, s).value, c.score)
    decreases k
  {
    hide *;
    if j == k {
      ReachesItself(Population(k, s).value, c);
    } else {
      UnfoldPopulation(k, s);
      NothingLost(j, k - 1, c, s);
      var before := Population(k - 1, s).value;
      PopulationSound(k - 1, s);
      if c in Population(j, s).value {
        ReachCarries(before, c.score, s);
      }
    }
  }

  lemma ReachesItself(population: seq<Candidate>, c: Candidate)
    ensures c in population ==> Reaches(population, c.score)
  {
  }

  lemma ReachCarries(before: seq<Candidate>, score: real, s: Search)
    requires Reaches(before, score) && |before| == s.populationSize && Sound(before, s)
    requires NextGeneration(before, s).Some?
    ensures Reaches(NextGeneration(before, s).value, score)
  {
    var c :| c in before && c.score >= score;
    GenerationKeeps(before, s);
    hide NextGeneration, Sound;
    var d :| d in NextGeneration(before, s).value && d.score >= c.score;
  }

  /**
   The winner of a nonempty search is a point of the search space with its true fitness, at least
   as fit as every individual evaluated in any generation.
   */
  lemma WinnerIsBestEver(s: Search, k: nat, c: Candidate)
    requires s.populationSize > 0 && Population(s.generations, s).Some? && k <= s.generations
    ensures Population(k, s).Some?
    ensures var winner := Winner(Population(s.generations, s).value);
            && InSpace(winner.gene) && Fitness(winner.gene, s.registers, s.device) == Some(winner.score)
            && (c in Population(k, s).value ==> winner.score >= c.score)
  {
    PopulationSound(s.generations, s);
    NothingLost(k, s.generations, c, s);
    FrontIsFittest(Population(s.generations, s).value);
    hide Population, Ranked, Fitness, InSpace;
  }

  // ----- what every generation gains

  /** The first two of a ranking; a population of one counts twice. */
  ghost predicate Leaders(population: seq<Candidate>, a: Gene, b: Gene) {
    var ranked := Ranked(population);
    ranked != [] && a == ranked[0].gene && b == ranked[if |ranked| > 1 then 1 else 0].gene
  }

  /** Positions filled so far: the elite as it was, then children by their position. */
  ghost predicate Bred(next: seq<Candidate>, elite: nat, a: Gene, b: Gene, s: Search) {
    forall p | elite <= p < |next| ::
      && next[p].gene
         == (if p as real * 0.1 < s.mutationRate then Gene(a.blockSize, 8, 1, 4, a.inlineThreshold)
             else Gene(a.blockSize, b.unrollFactor, a.smemPaddingStride, b.vectorWidth, a.inlineThreshold))
      && Fitness(next[p].gene, s.registers, s.device) == Some(next[p].score)
  }

  lemma {:induction false} FillBreeds(next: seq<Candidate>, elite: nat, ranked: seq<Candidate>, s: Search)
    requires ranked != [] && elite <= |next| && Fill(next, ranked, s).Some?
    requires Bred(next, elite, ranked[0].gene, ranked[1 % |ranked|].gene, s)
    ensures var full := Fill(next, ranked, s).value;
            && next <= full && Bred(full, elite, ranked[0].gene, ranked[1 % |ranked|].gene, s)
            && |full| == if |next| > s.populationSize then |next| else s.populationSize
    decreases s.populationSize - |next|
  {
    hide Fitness;
    if |next| < s.populationSize {
      var gene := Child(ranked[0].gene, ranked[1 % |ranked|].gene, |next|, s.mutationRate);
      FillBreeds(next + [Evaluate(gene, s).value], elite, ranked, s);
    }
  }

  /**
   A generation, position by position: the two leaders, and from position 2 on the leader's block size,
   padding and threshold with the runner-up's unroll factor and width, or the mutated leader.
   */
  lemma GenerationIs(population: seq<Candidate>, s: Search, a: Gene, b: Gene)
    requires |population| == s.populationSize && NextGeneration(population, s).Some? && Leaders(population, a, b)
    ensures var ranked, next := Ranked(population), NextGeneration(population, s).value;
            && |next| == s.populationSize && next[0] == ranked[0] && (|ranked| > 1 ==> next[1] == ranked[1])
            && Bred(next, 2, a, b, s)
  {
    hide *;
    var ranked := Ranked(population);
    LeadersAre(population, a, b);
    var elite := if |ranked| > 1 then [ranked[0], ranked[1]] else [ranked[0]];
    GenerationFills(population, s);
    NothingBred(elite, a, b, s);
    FillBreeds(elite, |elite|, ranked, s);
    FromTwo(Fill(elite, ranked, s).value, |elite|, a, b, s);
  }

  lemma LeadersAre(population: seq<Candidate>, a: Gene, b: Gene)
    requires Leaders(population, a, b)
    ensures var ranked := Ranked(population);
            ranked != [] && |ranked| == |population| && a == ranked[0].gene && b == ranked[1 % |ranked|].gene
  {
    hide Ranked;
  }

  lemma GenerationFills(population: seq<Candidate>, s: Search)
    requires NextGeneration(population, s).Some?
    ensures var ranked := Ranked(population);
            ranked != [] && NextGeneration(population, s)
                            == Fill(if |ranked| > 1 then [ranked[0], ranked[1]] else [ranked[0]], ranked, s)
  {
    hide Ranked, Fill;
  }

  lemma NothingBred(elite: seq<Candidate>, a: Gene, b: Gene, s: Search)
    ensures Bred(elite, |elite|, a, b, s)
  {
  }

  lemma FromTwo(next: seq<Candidate>, elite: nat, a: Gene, b: Gene, s: Search)
    requires elite <= 2 && Bred(next, elite, a, b, s)
    ensures Bred(next, 2, a, b, s)
  {
    hide Fitness;
  }

  /** A position that is not mutated brings the crossover of the leaders. */
  lemma CrossoverGained(population: seq<Candidate>, s: Search, a: Gene, b: Gene, p: nat)
    requires |population| == s.populationSize && NextGeneration(population, s).Some? && Leaders(population, a, b)
    requires 2 <= p < s.populationSize && p as real * 0.1 >= s.mutationRate
    ensures var crossed := Gene(a.blockSize, b.unrollFactor, a.smemPaddingStride, b.vectorWidth, a.inlineThreshold);
            var fitness := Fitness(crossed, s.registers, s.device);
            fitness.Some? && Reaches(NextGeneration(population, s).value, fitness.value)
  {
    GenerationIs(population, s, a, b);
    var next := NextGeneration(population, s).value;
    hide Fitness, NextGeneration, Leaders;
    assert next[p] in next;
  }

  /** Position 2, when it is mutated, brings the leader with the options mutation sets. */
  lemma MutationGained(population: seq<Candidate>, s: Search, a: Gene, b: Gene)
    requires |population| == s.populationSize && NextGeneration(population, s).Some? && Leaders(population, a, b)
    requires 2 < s.populationSize && 0.2 < s.mutationRate
    ensures var fitness := Fitness(Gene(a.blockSize, 8, 1, 4, a.inlineThreshold), s.registers, s.device);
            fitness.Some? && Reaches(NextGeneration(population, s).value, fitness.value)
  {
    GenerationIs(population, s, a, b);
    var next := NextGeneration(population, s).value;
    hide Fitness, NextGeneration, Leaders;
    assert next[2] in next;
  }

  lemma WinnerReaches(s: Search, k: nat, score: real)
    requires s.populationSize > 0 && Population(s.generations, s).Some? && k <= s.generations
    requires Population(k, s).Some? && Reaches(Population(k, s).value, score)
    ensures Winner(Population(s.generations, s).value).score >= score
  {
    hide *;
    var c := Reacher(Population(k, s).value, score);
    WinnerIsBestEver(s, k, c);
  }

  lemma Reacher(population: seq<Candidate>, score: real) returns (c: Candidate)
    requires Reaches(population, score)
    ensures c in population && c.score >= score
  {
    c :| c in population && c.score >= score;
  }

  /**
   Whatever the leaders of a generation before the last are, the winner of the run is at least as fit
   as their crossover and as the mutated leader, where some position is bred that way.
   */
  lemma WinnerBeatsChildren(s: Search, k: nat, a: Gene, b: Gene, p: nat)
    requires k < s.generations && Population(s.generations, s).Some? && 2 <= p < s.populationSize
    requires Population(k, s).Some? && Leaders(Population(k, s).value, a, b)
    ensures var crossed := Gene(a.blockSize, b.unrollFactor, a.smemPaddingStride, b.vectorWidth, a.inlineThreshold);
            var fitness := Fitness(crossed, s.registers, s.device);
            p as real * 0.1 >= s.mutationRate ==>
              fitness.Some? && Winner(Population(s.generations, s).value).score >= fitness.value
    ensures var fitness := Fitness(Gene(a.blockSize, 8, 1, 4, a.inlineThreshold), s.registers, s.device);
            0.2 < s.mutationRate ==>
              fitness.Some? && Winner(Population(s.generations, s).value).score >= fitness.value
  {
    var mutated := Gene(a.blockSize, 8, 1, 4, a.inlineThreshold);
    var crossed := Gene(a.blockSize, b.unrollFactor, a.smemPaddingStride, b.vectorWidth, a.inlineThreshold);
    hide *;
    EarlierExists(k + 1, s.generations, s);
    UnfoldPopulation(k + 1, s);
    PopulationSound(k, s);
    var before := Population(k, s).value;
    if p as real * 0.1 >= s.mutationRate {
      CrossoverGained(before, s, a, b, p);
      WinnerReaches(s, k + 1, Fitness(crossed, s.registers, s.device).value);
    }
    if 0.2 < s.mutationRate {
      MutationGained(before, s, a, b);
      WinnerReaches(s, k + 1, Fitness(mutated, s.registers, s.device).value);
    }
  }

  lemma EarlierExists(k: nat, n: nat, s: Search)
    requires k <= n && Population(n, s).Some?
    ensures Population(k, s).Some?
  {
    hide *;
    if Population(k, s).None? {
      NoneFrom(k, n, s);
    }
  }

  // ----- what the search starts from

  /** The index of the seed with the given options, by their positions in the candidate lists. */
  function SeedIndex(b: nat, u: nat, p: nat): nat
    requires b < 4 && u < 5 && p < 3
  {
    var q := (5 * (b / 2) + 6 * u) % 10;
    var j := 2 * q + b % 2;
    j + 20 * ((2 * p + 4 * j) % 3)
  }

  lemma TenDigits(x: nat, y: nat)
    requires x < 2 && y < 5
    ensures var q := (5 * x + 6 * y) % 10; q % 2 == x && q % 5 == y
  {
  }

  lemma SixtyDigits(p: nat, j: nat)
    requires p < 3 && j < 20
    ensures var i := j + 20 * ((2 * p + 4 * j) % 3); i < 60 && i % 3 == p
  {
    var m, t := (2 * p + 4 * j) / 3, (2 * p + 4 * j) % 3;
    assert j + 20 * t == (13 * p + 27 * j - 20 * m) * 3 + p;
    Division.DivisionUnique(j + 20 * t, 13 * p + 27 * j - 20 * m, p, 3);
  }

  lemma TwentyDigits(t: nat, q: nat, r: nat)
    requires r < 2 && q < 10
    ensures var i := 2 * q + r + 20 * t; i % 4 == 2 * (q % 2) + r && (i / 2) % 5 == q % 5
  {
    var i := 2 * q + r + 20 * t;
    Division.DivisionUnique(i, 5 * t + q / 2, 2 * (q % 2) + r, 4);
    Division.DivisionUnique(i, 10 * t + q, r, 2);
    Division.DivisionUnique(10 * t + q, 2 * t + q / 5, q % 5, 5);
  }

  lemma SeedIndexed(b: nat, u: nat, p: nat)
    requires b < 4 && u < 5 && p < 3
    ensures var i := SeedIndex(b, u, p); i < 60 && i % 4 == b && (i / 2) % 5 == u && i % 3 == p
  {
    var q := (5 * (b / 2) + 6 * u) % 10;
    var j := 2 * q + b % 2;
    TenDigits(b / 2, u);
    SixtyDigits(p, j);
    TwentyDigits((2 * p + 4 * j) % 3, q, b % 2);
  }

  /** The paddings and widths that go together in a seed. */
  predicate Paired(g: Gene) {
    (g.smemPaddingStride, g.vectorWidth) in {(0, 1), (1, 2), (4, 4)}
  }

  predicate IsSeed(g: Gene) {
    && g.blockSize in {64, 128, 256, 512} && g.unrollFactor in {1, 2, 4, 8, 16} && Paired(g)
    && g.inlineThreshold == 100
  }

  lemma SeedsPaired(i: nat)
    ensures IsSeed(SeedGene(i))
  {
    assert i % 4 < 4 && (i / 2) % 5 < 5 && i % 3 < 3;
  }

  lemma {:induction false} SeedsAre(n: nat, s: Search, i: nat)
    requires Seeds(n, s).Some? && i < n
    ensures |Seeds(n, s).value| == n && Seeds(n, s).value[i].gene == SeedGene(i)
    decreases n
  {
    hide Fitness, SeedGene;
    if i < n - 1 {
      SeedsAre(n - 1, s, i);
    } else if n > 1 {
      SeedsAre(n - 1, s, 0);
    }
  }

  lemma SeedFor(g: Gene) returns (i: nat)
    requires IsSeed(g)
    ensures i < 60 && SeedGene(i) == g
  {
    var b := if g.blockSize == 64 then 0 else if g.blockSize == 128 then 1 else if g.blockSize == 256 then 2 else 3;
    var u := if g.unrollFactor == 1 then 0 else if g.unrollFactor == 2 then 1 else if g.unrollFactor == 4 then 2
             else if g.unrollFactor == 8 then 3 else 4;
    var p := if g.vectorWidth == 1 then 0 else if g.vectorWidth == 2 then 1 else 2;
    i := SeedIndex(b, u, p);
    SeedIndexed(b, u, p);
    hide SeedIndex;
  }

  /**
   Sixty seeds are every combination of a block size, an unroll factor and a padding, the width going
   with the padding; no seed pairs them otherwise, however many there are.
   */
  lemma SeedsExactly(n: nat, s: Search, g: Gene)
    requires Seeds(n, s).Some? && n >= 60
    ensures (exists c :: c in Seeds(n, s).value && c.gene == g) <==> IsSeed(g)
  {
    SeedsSound(n, s);
    hide Seeds, SeedGene, IsSeed, Fitness, InSpace;
    if IsSeed(g) {
      var i := SeedFor(g);
      SeedsAre(n, s, i);
      assert Seeds(n, s).value[i] in Seeds(n, s).value;
    }
    if c :| c in Seeds(n, s).value && c.gene == g {
      var i :| 0 <= i < |Seeds(n, s).value| && Seeds(n, s).value[i] == c;
      SeedsAre(n, s, i);
      SeedsPaired(i);
    }
  }

  // ----- what options are worth

  lemma FitnessFactors(g: Gene, registers: u32, device: Occupancy.Device)
    requires Fitness(g, registers, device).Some?
    ensures var h := g.(unrollFactor := 1, vectorWidth := 1);
            Fitness(h, registers, device).Some?
            && Fitness(g, registers, device).value
               == Fitness(h, registers, device).value * VectorFactor(g.vectorWidth) * UnrollFactor(g.unrollFactor)
  {
    hide Occupancy.CalculateOccupancy, Division.Product;
  }

  /** Width 4 is worth half as much again as width 1, and so on for each option. */
  lemma OptionsWorth(g: Gene, registers: u32, device: Occupancy.Device)
    requires Fitness(g, registers, device).Some? && g.vectorWidth == 1 && g.unrollFactor == 1
    ensures var f := Fitness(g, registers, device).value;
            && Fitness(g.(vectorWidth := 2), registers, device) == Some(1.25 * f)
            && Fitness(g.(vectorWidth := 4), registers, device) == Some(1.5 * f)
            && Fitness(g.(unrollFactor := 2), registers, device) == Some(1.15 * f)
            && Fitness(g.(unrollFactor := 4), registers, device) == Some(1.3 * f)
            && Fitness(g.(unrollFactor := 8), registers, device) == Some(1.3 * f)
            && Fitness(g.(unrollFactor := 16), registers, device) == Some(1.1 * f)
  {
    hide Occupancy.CalculateOccupancy, Division.Product;
  }

  /** The plainest points: the occupancy in percent, a tenth less unpadded and a fifth more padded. */
  lemma PlainFitness(block: u32, stride: u32, s: Search)
    requires block in {64, 128, 256, 512} && stride in {0, 1, 4} && Evaluable(s)
    ensures var report := Occupancy.CalculateOccupancy(s.registers, block * (stride + 4), block, s.device);
            && report.Some? && report.value.percent.Some?
            && Fitness(Gene(block, 1, stride, 1, 100), s.registers, s.device)
               == Some(report.value.percent.value * if stride == 0 then 0.9 else 1.2)
  {
    assert block in BLOCKS;
    var smem := Division.Product(block, stride + 4);
    assert smem == block * (stride + 4);
    assert smem <= 4096 by {
      Occupancy.ProductGrows(block, 512, stride + 4);
      Occupancy.ProductGrows(stride + 4, 8, 512);
    }
    hide Occupancy.Calculable, Division.Product, Occupancy.CalculateOccupancy;
    assert Occupancy.Calculable(s.registers, block, s.device);
  }

  // ----- when the run ends

  /** Every point of the search space can be evaluated. */
  predicate Evaluable(s: Search) {
    && s.device.maxWarpsPerSm > 0
    && forall b | b in BLOCKS :: Occupancy.Calculable(s.registers, b, s.device)
  }

  lemma EvaluableGene(g: Gene, s: Search)
    requires Evaluable(s) && InSpace(g)
    ensures Evaluate(g, s).Some?
  {
    assert g.blockSize <= 512 && g.smemPaddingStride + 4 <= 8;
    assert Division.Product(g.blockSize, g.smemPaddingStride + 4) <= 4096;
    hide Occupancy.Calculable, VectorFactor, UnrollFactor, PaddingBonus;
  }

  lemma {:induction false} SeedsEnd(n: nat, s: Search)
    requires Evaluable(s)
    ensures Seeds(n, s).Some?
  {
    hide Evaluate, Evaluable, InSpace, SeedGene;
    if n > 0 {
      SeedsEnd(n - 1, s);
      SeedsInSpace(n - 1);
      EvaluableGene(SeedGene(n - 1), s);
    }
  }

  lemma {:induction false} FillEnds(next: seq<Candidate>, ranked: seq<Candidate>, s: Search)
    requires Evaluable(s) && ranked != [] && forall c | c in ranked :: InSpace(c.gene)
    ensures Fill(next, ranked, s).Some?
    decreases s.populationSize - |next|
  {
    hide Evaluate, Evaluable, InSpace, Child;
    if |next| < s.populationSize {
      var p1, p2 := ranked[0], ranked[1 % |ranked|];
      assert p1 in ranked && p2 in ranked;
      var gene := Child(p1.gene, p2.gene, |next|, s.mutationRate);
      ChildInSpace(p1.gene, p2.gene, |next|, s.mutationRate);
      EvaluableGene(gene, s);
      FillEnds(next + [Evaluate(gene, s).value], ranked, s);
    }
  }

  /** On such a device a search fails exactly when it breeds from an empty population. */
  lemma {:induction false} SearchEnds(k: nat, s: Search)
    requires Evaluable(s)
    ensures Population(k, s).Some? <==> k == 0 || s.populationSize > 0
  {
    hide *;
    UnfoldPopulation(k, s);
    if k == 0 {
      SeedsEnd(s.populationSize, s);
    } else {
      SearchEnds(k - 1, s);
      if Population(k - 1, s).Some? {
        PopulationSound(k - 1, s);
        BreedEnds(Population(k - 1, s).value, s);
      }
    }
  }

  lemma BreedEnds(population: seq<Candidate>, s: Search)
    requires Evaluable(s) && Sound(population, s)
    ensures NextGeneration(population, s).Some? <==> population != []
  {
    if population != [] {
      FrontIsFittest(population);
      var ranked := Ranked(population);
      hide Ranked, Evaluable, Fitness, InSpace, Fill;
      FillEnds(if |ranked| > 1 then [ranked[0], ranked[1]] else [ranked[0]], ranked, s);
    }
  }

  // ----- what mutation aims at

  lemma ScaleUp(a: real, b: real, x: real, y: real)
    requires 0.0 <= a <= b && 0.0 <= x <= y
    ensures 0.0 <= a * x <= b * y
  {
    assert 0.0 <= a * x <= a * y <= b * y;
  }

  /** The factors of the mutant are the greatest there are. */
  lemma FactorsBounded(g: Gene)
    ensures 0.0 <= VectorFactor(g.vectorWidth) <= VectorFactor(4)
    ensures 0.0 <= UnrollFactor(g.unrollFactor) <= UnrollFactor(8)
    ensures 0.0 <= PaddingBonus(g.smemPaddingStride) <= PaddingBonus(1)
  {
  }

  /**
   Among the padded points with its block size the mutant is the fittest: the least padding leaves
   room for at least as many blocks, and its other options have the greatest factors.
   */
  lemma MutantIsFittest(g: Gene, s: Search)
    requires Evaluable(s) && InSpace(g) && g.smemPaddingStride > 0
    ensures Fitness(g, s.registers, s.device).Some? && Fitness(Mutant(g), s.registers, s.device).Some?
    ensures Fitness(Mutant(g), s.registers, s.device).value >= Fitness(g, s.registers, s.device).value
  {
    var smem, least := Division.Product(g.blockSize, g.smemPaddingStride + 4), Division.Product(g.blockSize, 5);
    Occupancy.ProductGrows(5, g.smemPaddingStride + 4, g.blockSize);
    assert smem <= 4096 by {
      Occupancy.ProductGrows(g.blockSize, 512, g.smemPaddingStride + 4);
      Occupancy.ProductGrows(g.smemPaddingStride + 4, 8, 512);
    }
    assert Occupancy.Calculable(s.registers, g.blockSize, s.device);
    hide Division.Product, Occupancy.Calculable, Occupancy.ActiveBlocks, VectorFactor, UnrollFactor, PaddingBonus,
         Occupancy.CalculateOccupancy;
    Occupancy.LessMemoryFitsMore(s.registers, least, smem, g.blockSize, s.device);
    var low := Occupancy.CalculateOccupancy(s.registers, smem, g.blockSize, s.device).value.percent.value;
    var high := Occupancy.CalculateOccupancy(s.registers, least, g.blockSize, s.device).value.percent.value;
    FactorsBounded(g);
    WeightedGrows(low, high, g);
  }

  lemma WeightedGrows(low: real, high: real, g: Gene)
    requires 0.0 <= low <= high
    ensures Weighted(low, g.vectorWidth, g.unrollFactor, g.smemPaddingStride) <= Weighted(high, 4, 8, 1)
  {
    FactorsBounded(g);
    hide VectorFactor, UnrollFactor, PaddingBonus;
    var v, v', u, u' := VectorFactor(g.vectorWidth), VectorFactor(4), UnrollFactor(g.unrollFactor), UnrollFactor(8);
    var a, b := low / 100.0, high / 100.0;
    ScaleUp(a, b, v, v');
    ScaleUp(a * v, b * v', u, u');
    ScaleUp(a * v * u, b * v' * u', PaddingBonus(g.smemPaddingStride), PaddingBonus(1));
  }

  // ----- a device

  const AMPERE := Occupancy.Device(64, 32, 65536, 167936, 167936, 1024, 32)

  lemma AmpereBlock(registers: u32, block: u32, warps: nat)
    requires 0 < warps <= 16 && block == 32 * warps
    ensures Occupancy.Calculable(registers, block, AMPERE) <==> registers * 32 * warps < TWO_32
  {
    var ceil := Division.CeilDiv(block, 32);
    assert ceil >= warps && warps >= ceil;
    hide Division.CeilDiv;
  }

  /** On the Ampere preset every search with a reasonable register count can be evaluated, and no other. */
  lemma AmpereEvaluable(s: Search)
    requires s.device == AMPERE
    ensures Evaluable(s) <==> s.registers < 0x80_0000
  {
    AmpereBlock(s.registers, 64, 2);
    AmpereBlock(s.registers, 128, 4);
    AmpereBlock(s.registers, 256, 8);
    AmpereBlock(s.registers, 512, 16);
    hide Occupancy.Calculable;
    assert BLOCKS[3] == 512;
  }
}
