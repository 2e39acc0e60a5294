/** How many blocks fit on a multiprocessor, and the launch shape that fits most. */
module Occupancy {
  import opened Division
  import opened Options
  import opened Words

  datatype Device = Device(
    maxWarpsPerSm: u32,
    maxBlocksPerSm: u32,
    maxRegistersPerSm: u32,
    maxSharedMemPerSm: u32,
    maxSharedMemPerBlock: u32,
    maxThreadsPerBlock: u32,
    warpSize: u32)

  datatype LimitFactor = Warps | Registers | SharedMemory | Blocks

  /** `percent` is `None` for 0/0, which compares as greater than nothing. */
  datatype Report = Report(percent: Option<real>, activeWarps: u32, activeBlocks: u32, maxWarps: u32,
                           limit: LimitFactor)

  lemma FloorDivGreatest(x: nat, d: nat)
    requires 0 < d
    ensures forall n: nat :: n <= x / d <==> n * d <= x
  {
    DivMod(x, d);
    forall n: nat
      ensures n <= x / d <==> n * d <= x
    {
      MulSub(n, x / d, d);
      MulAtLeast(n - x / d, d);
    }
  }

  /** `checked_div`, with `otherwise` for a zero divisor. */
  function DivOr(x: nat, d: nat, otherwise: nat): nat {
    if d == 0 then otherwise else x / d
  }

  function Min(a: nat, b: nat): nat {
    if a <= b then a else b
  }

  function WarpsPerBlock(threads: nat, device: Device): nat
    requires 0 < device.warpSize
  {
    CeilDiv(threads, device.warpSize)
  }

  function RegistersPerBlock(registers: nat, threads: nat, device: Device): nat
    requires 0 < device.warpSize
  {
    Product(Product(registers, device.warpSize), WarpsPerBlock(threads, device))
  }

  /** When the calculation runs to its end: otherwise an assertion, a division or a product panics. */
  predicate Calculable(registers: u32, threads: u32, device: Device) {
    && 0 < threads <= device.maxThreadsPerBlock
    && 0 < device.warpSize
    && Product(registers, device.warpSize) < TWO_32
    && RegistersPerBlock(registers, threads, device) < TWO_32
  }

  /** `b` blocks respect every limit at once. */
  predicate Resident(b: nat, registers: u32, sharedMem: u32, threads: u32, device: Device)
    requires 0 < device.warpSize
  {
    && Product(b, WarpsPerBlock(threads, device)) <= device.maxWarpsPerSm
    && Product(b, RegistersPerBlock(registers, threads, device)) <= device.maxRegistersPerSm
    && Product(b, sharedMem) <= device.maxSharedMemPerSm
    && b <= device.maxBlocksPerSm
  }

  /** A block has at least one warp, so the first division never falls back. */
  function ActiveBlocks(registers: u32, sharedMem: u32, threads: u32, device: Device): nat
    requires Calculable(registers, threads, device)
  {
    var warps := WarpsPerBlock(threads, device);
    var byWarps := DivOr(device.maxWarpsPerSm, warps, 0);
    var registersPerBlock := RegistersPerBlock(registers, threads, device);
    var byRegisters := DivOr(device.maxRegistersPerSm, registersPerBlock, device.maxBlocksPerSm);
    var byMemory := DivOr(device.maxSharedMemPerSm, sharedMem, device.maxBlocksPerSm);
    Min(Min(Min(byWarps, byRegisters), byMemory), device.maxBlocksPerSm)
  }

  lemma AtLeastOneWarp(threads: u32, device: Device)
    requires 0 < threads && 0 < device.warpSize
    ensures 1 <= WarpsPerBlock(threads, device) <= threads
  {
    assert !(0 * device.warpSize >= threads);
    MulAtLeast(device.warpSize, threads);
    assert threads * device.warpSize >= threads;
  }

  lemma QuotientBounds(n: nat, x: nat, d: nat, otherwise: nat)
    requires n <= otherwise || d > 0
    ensures n <= DivOr(x, d, otherwise) <==> Product(n, d) <= x
  {
    if d > 0 {
      FloorDivGreatest(x, d);
    } else {
      assert n * d == 0;
    }
  }

  /** The resident blocks are exactly the counts up to `ActiveBlocks`: it is the greatest that fits. */
  lemma ActiveBlocksGreatest(b: nat, registers: u32, sharedMem: u32, threads: u32, device: Device)
    requires Calculable(registers, threads, device)
    ensures Resident(b, registers, sharedMem, threads, device)
            <==> b <= ActiveBlocks(registers, sharedMem, threads, device)
  {
    AtLeastOneWarp(threads, device);
    hide DivOr, WarpsPerBlock, RegistersPerBlock, Product;
    QuotientBounds(b, device.maxWarpsPerSm, WarpsPerBlock(threads, device), 0);
    if b <= device.maxBlocksPerSm {
      QuotientBounds(b, device.maxRegistersPerSm, RegistersPerBlock(registers, threads, device), device.maxBlocksPerSm);
      QuotientBounds(b, device.maxSharedMemPerSm, sharedMem, device.maxBlocksPerSm);
    }
  }

  /** Share of the warps in use, in percent. */
  function Percent(active: nat, max: nat): Option<real> {
    if max == 0 then None else Some(active as real / max as real * 100.0)
  }

  function ActiveWarps(registers: u32, sharedMem: u32, threads: u32, device: Device): (w: u32)
    requires Calculable(registers, threads, device)
    ensures w <= device.maxWarpsPerSm
  {
    var blocks := ActiveBlocks(registers, sharedMem, threads, device);
    hide ActiveBlocks, Product, WarpsPerBlock, RegistersPerBlock, Calculable;
    ActiveBlocksGreatest(blocks, registers, sharedMem, threads, device);
    Product(blocks, WarpsPerBlock(threads, device))
  }

  /** `calculate_occupancy`; `None` where it panics. */
  function CalculateOccupancy(registers: u32, sharedMem: u32, threads: u32, device: Device): (r: Option<Report>)
    ensures r.Some? <==> Calculable(registers, threads, device)
    ensures r.Some? ==>
              forall b: nat :: Resident(b, registers, sharedMem, threads, device) <==> b <= r.value.activeBlocks
    ensures r.Some? ==> r.value.activeWarps == Product(r.value.activeBlocks, WarpsPerBlock(threads, device))
    ensures r.Some? ==> r.value.percent == Percent(r.value.activeWarps, device.maxWarpsPerSm)
    ensures r.Some? && r.value.percent.Some? ==> 0.0 <= r.value.percent.value <= 100.0
  {
    if !Calculable(registers, threads, device) then None else
    var blocks := ActiveBlocks(registers, sharedMem, threads, device);
    var warps := ActiveWarps(registers, sharedMem, threads, device);
    var registersPerBlock := RegistersPerBlock(registers, threads, device);
    var byRegisters := DivOr(device.maxRegistersPerSm, registersPerBlock, device.maxBlocksPerSm);
    var byMemory := DivOr(device.maxSharedMemPerSm, sharedMem, device.maxBlocksPerSm);
    var byWarps := DivOr(device.maxWarpsPerSm, WarpsPerBlock(threads, device), 0);
    var limit := if blocks == byRegisters then Registers
                 else if blocks == byMemory then SharedMemory
                 else if blocks == byWarps then Warps else Blocks;
    assert forall b: nat :: Resident(b, registers, sharedMem, threads, device) <==> b <= blocks by {
      forall b: nat
        ensures Resident(b, registers, sharedMem, threads, device) <==> b <= blocks
      {
        ActiveBlocksGreatest(b, registers, sharedMem, threads, device);
      }
    }
    assert Percent(warps, device.maxWarpsPerSm).Some?
           ==> 0.0 <= Percent(warps, device.maxWarpsPerSm).value <= 100.0 by {
      PercentBounds(warps, device.maxWarpsPerSm);
    }
    Some(Report(Percent(warps, device.maxWarpsPerSm), warps, blocks, device.maxWarpsPerSm, limit))
  }

  lemma PercentBounds(active: nat, max: nat)
    requires active <= max
    ensures Percent(active, max).Some? ==> 0.0 <= Percent(active, max).value <= 100.0
  {
    if max > 0 {
      assert 0.0 <= active as real / max as real <= 1.0;
    }
  }

  /** A block that asks for less shared memory never fits fewer times, nor reaches a lower occupancy. */
  lemma LessMemoryFitsMore(registers: u32, less: u32, more: u32, threads: u32, device: Device)
    requires less <= more && Calculable(registers, threads, device) && 0 < device.maxWarpsPerSm
    ensures ActiveBlocks(registers, more, threads, device) <= ActiveBlocks(registers, less, threads, device)
    ensures var high := CalculateOccupancy(registers, less, threads, device).value.percent;
            var low := CalculateOccupancy(registers, more, threads, device).value.percent;
            high.Some? && low.Some? && 0.0 <= low.value <= high.value
  {
    var b := ActiveBlocks(registers, more, threads, device);
    ActiveBlocksGreatest(b, registers, more, threads, device);
    ProductGrows(less, more, b);
    ActiveBlocksGreatest(b, registers, less, threads, device);
    ProductGrows(b, ActiveBlocks(registers, less, threads, device), WarpsPerBlock(threads, device));
    PercentGrows(ActiveWarps(registers, more, threads, device), ActiveWarps(registers, less, threads, device),
                 device.maxWarpsPerSm);
    hide ActiveBlocks, Product, WarpsPerBlock, RegistersPerBlock, Percent;
  }

  lemma ProductGrows(a: nat, b: nat, c: nat)
    requires a <= b
    ensures Product(a, c) <= Product(b, c) && Product(c, a) <= Product(c, b)
  {
  }

  lemma PercentGrows(a: nat, b: nat, max: nat)
    requires a <= b && 0 < max
    ensures Percent(a, max).Some? && Percent(b, max).Some?
    ensures 0.0 <= Percent(a, max).value <= Percent(b, max).value
  {
    assert 0.0 <= a as real / max as real <= b as real / max as real;
  }

  /** `warps` warps are just enough for the threads of a block. */
  ghost predicate JustEnough(warps: nat, threads: nat, warpSize: nat) {
    warps * warpSize >= threads && forall w: nat | w * warpSize >= threads :: warps <= w
  }

  lemma WarpsJustEnough(warps: nat, threads: u32, device: Device)
    requires 0 < device.warpSize && JustEnough(warps, threads, device.warpSize)
    ensures WarpsPerBlock(threads, device) == warps
  {
    var q := WarpsPerBlock(threads, device);
    assert q >= q && q * device.warpSize >= threads;
  }

  /**
   The whole report in plain arithmetic, from the warps and the registers of a block. A count of blocks is resident
   exactly when warps, registers, shared memory and the block limit all allow it; a limit is named exactly
   when one more block would break it, registers before memory before warps, and when a resource that is
   not used leaves the block limit to decide.
   */
  lemma OccupancyMeans(registers: u32, sharedMem: u32, threads: u32, device: Device, warps: nat,
                       perBlock: nat)
    requires 0 < device.warpSize && JustEnough(warps, threads, device.warpSize)
    requires perBlock == (registers * device.warpSize) * warps
    ensures var r := CalculateOccupancy(registers, sharedMem, threads, device);
            && (r.Some? <==> 0 < threads <= device.maxThreadsPerBlock && registers * device.warpSize < TWO_32
                             && perBlock < TWO_32)
            && (r.Some? ==> FitsExactly(r.value.activeBlocks, warps, perBlock, sharedMem, device))
            && (r.Some? ==> LimitIs(r.value.limit, r.value.activeBlocks, warps, perBlock, sharedMem, device))
            && (r.Some? ==> r.value.activeWarps == r.value.activeBlocks * warps
                            && r.value.maxWarps == device.maxWarpsPerSm)
            && (r.Some? ==> r.value.percent == if device.maxWarpsPerSm == 0 then None else
                              Some((r.value.activeBlocks * warps) as real / device.maxWarpsPerSm as real * 100.0))
  {
    WarpsJustEnough(warps, threads, device);
    hide CalculateOccupancy, WarpsPerBlock, JustEnough;
    if Calculable(registers, threads, device) {
      AtLeastOneWarp(threads, device);
      BlocksFitExactly(registers, sharedMem, threads, device);
      LimitNamed(registers, sharedMem, threads, device);
    }
    hide FitsExactly, LimitIs;
  }

  predicate Fit(b: nat, warps: nat, registers: nat, sharedMem: nat, device: Device) {
    && b * warps <= device.maxWarpsPerSm && b * registers <= device.maxRegistersPerSm
    && b * sharedMem <= device.maxSharedMemPerSm && b <= device.maxBlocksPerSm
  }

  ghost predicate FitsExactly(blocks: nat, warps: nat, registers: nat, sharedMem: nat, device: Device) {
    forall b: nat :: Fit(b, warps, registers, sharedMem, device) <==> b <= blocks
  }

  lemma BlocksFitExactly(registers: u32, sharedMem: u32, threads: u32, device: Device)
    requires Calculable(registers, threads, device)
    ensures FitsExactly(CalculateOccupancy(registers, sharedMem, threads, device).value.activeBlocks,
                        WarpsPerBlock(threads, device), RegistersPerBlock(registers, threads, device), sharedMem,
                        device)
  {
    hide WarpsPerBlock, RegistersPerBlock, Resident, Fit, ActiveBlocks, ActiveWarps, DivOr;
    forall b: nat
      ensures Fit(b, WarpsPerBlock(threads, device), RegistersPerBlock(registers, threads, device), sharedMem, device)
              <==> Resident(b, registers, sharedMem, threads, device)
    {
      ResidentFits(b, registers, sharedMem, threads, device);
    }
  }

  lemma ResidentFits(b: nat, registers: u32, sharedMem: u32, threads: u32, device: Device)
    requires 0 < device.warpSize
    ensures Fit(b, WarpsPerBlock(threads, device), RegistersPerBlock(registers, threads, device), sharedMem, device)
            <==> Resident(b, registers, sharedMem, threads, device)
  {
    hide WarpsPerBlock, RegistersPerBlock;
  }

  /** A limit decides when one block more would pass it, or when nothing uses it up. */
  predicate Decides(blocks: nat, perBlock: nat, limit: nat, maxBlocks: nat) {
    if perBlock == 0 then blocks == maxBlocks else (blocks + 1) * perBlock > limit
  }

  predicate LimitIs(limit: LimitFactor, blocks: nat, warps: nat, registers: nat, sharedMem: nat, device: Device) {
    var byRegisters := Decides(blocks, registers, device.maxRegistersPerSm, device.maxBlocksPerSm);
    var byMemory := Decides(blocks, sharedMem, device.maxSharedMemPerSm, device.maxBlocksPerSm);
    var byWarps := Decides(blocks, warps, device.maxWarpsPerSm, device.maxBlocksPerSm);
    && (limit == Registers <==> byRegisters)
    && (limit == SharedMemory <==> byMemory && !byRegisters)
    && (limit == Warps <==> byWarps && !byMemory && !byRegisters)
  }

  lemma QuotientDecides(blocks: nat, perBlock: nat, limit: nat, maxBlocks: nat)
    requires blocks <= DivOr(limit, perBlock, maxBlocks)
    ensures blocks == DivOr(limit, perBlock, maxBlocks) <==> Decides(blocks, perBlock, limit, maxBlocks)
  {
    if perBlock > 0 {
      FloorDivGreatest(limit, perBlock);
      assert blocks + 1 <= limit / perBlock <==> (blocks + 1) * perBlock <= limit;
    }
  }

  lemma LimitNamed(registers: u32, sharedMem: u32, threads: u32, device: Device)
    requires Calculable(registers, threads, device)
    ensures var r := CalculateOccupancy(registers, sharedMem, threads, device).value;
            LimitIs(r.limit, r.activeBlocks, WarpsPerBlock(threads, device),
                    RegistersPerBlock(registers, threads, device), sharedMem, device)
  {
    AtLeastOneWarp(threads, device);
    hide WarpsPerBlock, RegistersPerBlock, DivOr, Decides, ActiveWarps, Percent, Resident, Product;
    var blocks := ActiveBlocks(registers, sharedMem, threads, device);
    QuotientDecides(blocks, RegistersPerBlock(registers, threads, device), device.maxRegistersPerSm,
                    device.maxBlocksPerSm);
    QuotientDecides(blocks, sharedMem, device.maxSharedMemPerSm, device.maxBlocksPerSm);
    WarpsDecide(blocks, WarpsPerBlock(threads, device), device);
  }

  lemma WarpsDecide(blocks: nat, warps: nat, device: Device)
    requires 1 <= warps && blocks <= DivOr(device.maxWarpsPerSm, warps, 0)
    ensures blocks == DivOr(device.maxWarpsPerSm, warps, 0)
            <==> Decides(blocks, warps, device.maxWarpsPerSm, device.maxBlocksPerSm)
  {
    QuotientDecides(blocks, warps, device.maxWarpsPerSm, device.maxBlocksPerSm);
  }

  // ----- launch tuning

  datatype Launch = Launch(gridDim: u32, blockDim: u32, dynamicSharedMem: u32, expectedPercent: int)

  const CANDIDATES: seq<u32> := [64, 128, 256, 512]

  /** What trying a block size comes to. */
  datatype Trial = Panics | TooMuchMemory | Rated(percent: Option<real>)

  function Try(block: u32, registers: u32, sharedPerThread: u32, device: Device): Trial {
    var sharedMem := Product(block, sharedPerThread);
    if sharedMem >= TWO_32 then Panics else
    if sharedMem > device.maxSharedMemPerBlock then TooMuchMemory else
    match CalculateOccupancy(registers, sharedMem, block, device)
    case None => Panics
    case Some(report) => Rated(report.percent)
  }

  /** The occupancy a fitting block size reaches; zero for the others. */
  function Score(trial: Trial): (s: real) {
    if trial.Rated? && trial.percent.Some? && trial.percent.value > 0.0 then trial.percent.value else 0.0
  }

  /** The chosen block size after the first `n` candidates: the first of the best, or 256 when none fits. */
  ghost predicate BestOf(n: nat, block: u32, score: real, registers: u32, sharedPerThread: u32, device: Device)
    requires n <= |CANDIDATES|
  {
    && (forall i | 0 <= i < n :: Score(Try(CANDIDATES[i], registers, sharedPerThread, device)) <= score)
    && (if score > 0.0
        then exists i :: 0 <= i < n && CANDIDATES[i] == block
                         && score == Score(Try(block, registers, sharedPerThread, device))
                         && forall j | 0 <= j < i ::
                              Score(Try(CANDIDATES[j], registers, sharedPerThread, device)) < score
        else score == 0.0 && block == 256)
  }

  lemma TryNext(n: nat, block: u32, score: real, registers: u32, sharedPerThread: u32, device: Device)
    requires n < |CANDIDATES| && BestOf(n, block, score, registers, sharedPerThread, device)
    ensures var s := Score(Try(CANDIDATES[n], registers, sharedPerThread, device));
            if s > score then BestOf(n + 1, CANDIDATES[n], s, registers, sharedPerThread, device)
            else BestOf(n + 1, block, score, registers, sharedPerThread, device)
  {
    hide Try, Score;
  }

  ghost predicate NoPanic(n: nat, registers: u32, sharedPerThread: u32, device: Device)
    requires n <= |CANDIDATES|
  {
    forall i | 0 <= i < n :: !Try(CANDIDATES[i], registers, sharedPerThread, device).Panics?
  }

  /** The loop over the candidates; `None` where a trial panics. */
  method PickBlock(registers: u32, sharedPerThread: u32, device: Device) returns (r: Option<(u32, real)>)
    ensures r.Some? <==> NoPanic(|CANDIDATES|, registers, sharedPerThread, device)
    ensures r.Some? ==> BestOf(|CANDIDATES|, r.value.0, r.value.1, registers, sharedPerThread, device)
  {
    var bestBlock: u32, bestOccupancy := 256, 0.0;
    assert BestOf(0, bestBlock, bestOccupancy, registers, sharedPerThread, device);
    hide Try, BestOf;
    for i := 0 to |CANDIDATES|
      invariant BestOf(i, bestBlock, bestOccupancy, registers, sharedPerThread, device)
      invariant NoPanic(i, registers, sharedPerThread, device)
    {
      var trial := Try(CANDIDATES[i], registers, sharedPerThread, device);
      TryNext(i, bestBlock, bestOccupancy, registers, sharedPerThread, device);
      if trial.Panics? {
        return None;
      }
      if trial.TooMuchMemory? {
        continue;
      }
      if trial.percent.Some? && trial.percent.value > bestOccupancy {
        bestBlock, bestOccupancy := CANDIDATES[i], trial.percent.value;
      }
    }
    r := Some((bestBlock, bestOccupancy));
  }

  lemma BestIsCandidate(block: u32, score: real, registers: u32, sharedPerThread: u32, device: Device)
    requires BestOf(|CANDIDATES|, block, score, registers, sharedPerThread, device)
    ensures block in CANDIDATES
  {
    hide Try, Score;
    assert CANDIDATES[2] == 256;
  }

  /** `auto_tune_kernel_launch`; `None` where it panics, as when a candidate exceeds the device's block size. */
  method AutoTune(totalElements: nat, registers: u32, sharedPerThread: u32, device: Device)
    returns (r: Option<Launch>)
    ensures r.Some? <==> NoPanic(|CANDIDATES|, registers, sharedPerThread, device)
    ensures r.Some? ==>
              exists score: real ::
                && r.value.expectedPercent == score.Floor
                && BestOf(|CANDIDATES|, r.value.blockDim, score, registers, sharedPerThread, device)
    ensures r.Some? ==> r.value.blockDim in CANDIDATES
    ensures r.Some? ==> r.value.dynamicSharedMem == Product(r.value.blockDim, sharedPerThread)
    ensures r.Some? ==> r.value.gridDim == CeilDiv(ToU32(totalElements), r.value.blockDim)
  {
    var best := PickBlock(registers, sharedPerThread, device);
    if best.None? {
      return None;
    }
    var (block, occupancy) := best.value;
    BestIsCandidate(block, occupancy, registers, sharedPerThread, device);
    NoProductOverflows(block, registers, sharedPerThread, device);
    GridFits(totalElements, block);
    hide Try, CeilDiv, Product, BestOf, NoPanic;
    var gridSize := CeilDiv(ToU32(totalElements), block);
    r := Some(Launch(gridSize, block, Product(block, sharedPerThread), occupancy.Floor));
  }

  lemma GridFits(totalElements: nat, block: u32)
    requires block in CANDIDATES
    ensures CeilDiv(ToU32(totalElements), block) < TWO_32
  {
    assert ToU32(totalElements) * block >= ToU32(totalElements);
  }

  lemma NoProductOverflows(block: u32, registers: u32, sharedPerThread: u32, device: Device)
    requires block in CANDIDATES
    requires NoPanic(|CANDIDATES|, registers, sharedPerThread, device)
    ensures Product(block, sharedPerThread) < TWO_32
  {
  }

  /**
   A fitting candidate with any occupancy makes the choice optimal: it is a candidate, it fits, its score is
   its occupancy, and no candidate that fits has a higher one.
   */
  lemma ChoiceIsOptimal(block: u32, score: real, registers: u32, sharedPerThread: u32, device: Device, c: u32,
                        memory: u32, report: Report)
    requires BestOf(|CANDIDATES|, block, score, registers, sharedPerThread, device)
    requires c in {64, 128, 256, 512} && memory == c * sharedPerThread <= device.maxSharedMemPerBlock
    requires CalculateOccupancy(registers, memory, c, device) == Some(report)
    requires report.percent.Some? && report.percent.value > 0.0
    ensures block in {64, 128, 256, 512} && 0 <= block * sharedPerThread <= device.maxSharedMemPerBlock
    ensures var chosen := CalculateOccupancy(registers, block * sharedPerThread, block, device);
            chosen.Some? && chosen.value.percent == Some(score) && report.percent.value <= score
  {
    hide CalculateOccupancy, BestOf;
    assert CANDIDATES[0] == 64 && CANDIDATES[1] == 128 && CANDIDATES[2] == 256 && CANDIDATES[3] == 512;
    assert c in CANDIDATES;
    BestIsCandidate(block, score, registers, sharedPerThread, device);
    BestScore(block, score, registers, sharedPerThread, device, c);
  }

  lemma BestScore(block: u32, score: real, registers: u32, sharedPerThread: u32, device: Device, c: u32)
    requires BestOf(|CANDIDATES|, block, score, registers, sharedPerThread, device)
    requires c in CANDIDATES && Score(Try(c, registers, sharedPerThread, device)) > 0.0
    ensures Try(block, registers, sharedPerThread, device) == Rated(Some(score))
    ensures Score(Try(c, registers, sharedPerThread, device)) <= score
  {
    hide Try;
  }

  /** Without a candidate that fits and has any occupancy, 256 is chosen. */
  lemma NoChoiceIs256(block: u32, score: real, registers: u32, sharedPerThread: u32, device: Device)
    requires BestOf(|CANDIDATES|, block, score, registers, sharedPerThread, device)
    requires forall c: u32 | c in {64, 128, 256, 512} && c * sharedPerThread <= device.maxSharedMemPerBlock ::
               var r := CalculateOccupancy(registers, c * sharedPerThread, c, device);
               r.Some? && r.value.percent.Some? ==> r.value.percent.value <= 0.0
    ensures block == 256 && score == 0.0
  {
    hide CalculateOccupancy;
    BestIsCandidate(block, score, registers, sharedPerThread, device);
  }

  /** The tuning panics exactly at a candidate whose memory overflows, or that fits and cannot be calculated. */
  lemma PanicsExactly(registers: u32, sharedPerThread: u32, device: Device)
    ensures NoPanic(|CANDIDATES|, registers, sharedPerThread, device)
            <==> forall c: u32 | c in {64, 128, 256, 512} ::
                   && c * sharedPerThread < TWO_32
                   && (c * sharedPerThread <= device.maxSharedMemPerBlock ==>
                         CalculateOccupancy(registers, c * sharedPerThread, c, device).Some?)
  {
    hide CalculateOccupancy;
    assert CANDIDATES[0] == 64 && CANDIDATES[1] == 128 && CANDIDATES[2] == 256 && CANDIDATES[3] == 512;
    forall i | 0 <= i < |CANDIDATES|
      ensures CANDIDATES[i] in {64, 128, 256, 512}
    {
    }
  }

  /** The grid covers every element exactly when the element count fits 32 bits, and is then least. */
  lemma GridCovers(totalElements: nat, block: u32)
    requires block in CANDIDATES
    ensures CeilDiv(ToU32(totalElements), block) * block >= totalElements <==> totalElements < TWO_32
    ensures totalElements < TWO_32 ==>
            forall g: nat | g * block >= totalElements :: CeilDiv(ToU32(totalElements), block) <= g
  {
    var low := ToU32(totalElements);
    var g := CeilDiv(low, block);
    if g > 0 {
      assert !((g - 1) * block >= low);
      MulSub(g, 1, block);
    }
    DivMod(totalElements, TWO_32);
    if totalElements >= TWO_32 {
      assert totalElements >= TWO_32 + low;
    }
  }
}
