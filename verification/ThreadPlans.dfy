/**
 Thread plans (`ThreadPlan` in src/parallel.rs) and the bounds `read_all_parallel` derives from one: how many
 readers it may admit, how many bevies its queue holds, how far ahead of the consumer it may read.
 */
module ThreadPlans {
  import opened Basics
  import opened Streams
  import opened Pipeline

  const MAX_READERS: nat := 8
  const REORDER_BUDGET_BYTES: nat := 1024 * 1024 * 1024

  /** Streams of no more bevies than this are read serially. */
  const INLINE_BEVY_MAX: nat := 2

  function Clamp(x: int, lo: int, hi: int): int {
    if x < lo then lo else if x > hi then hi else x
  }

  datatype ThreadPlan = ThreadPlan(readers: nat, workers: nat, digesters: nat, budget: nat) {
    function Total(): nat { readers + workers + digesters }

    predicate IsParallel() { readers >= 1 && workers >= 1 && Total() > 1 }

    /** `pinned`: the operator fixed the thread count, and the governor may not probe. */
    function ReaderCeiling(pinned: bool): nat {
      if pinned then readers else Max(Min(MAX_READERS, readers + Max(0, workers - 1)), readers)
    }

    function WithDigestThreads(algorithms: nat): ThreadPlan {
      var digesters' := Min(Max(0, algorithms - 1), Max(0, budget - (readers + 1)));
      this.(workers := Max(Max(0, budget - (readers + digesters')), if workers > 0 then 1 else 0), digesters := digesters')
    }
  }

  function FromBudget(budget: nat): ThreadPlan {
    if budget < 2 then ThreadPlan(1, 0, 0, Max(1, budget))
    else var readers := Min(2, budget - 1); ThreadPlan(readers, budget - readers, 0, budget)
  }

  /**
   Every plan the program makes spends its budget and no more, even with every reader admitted in place of a
   worker; it runs a pipeline exactly when there are two threads to spend.
   */
  lemma SplitFits(budget: nat, algorithms: nat, pinned: bool)
    ensures var p := FromBudget(budget).WithDigestThreads(algorithms);
            && p.Total() == Max(1, budget)
            && (p.IsParallel() <==> budget >= 2)
            && (p.IsParallel() ==> p.readers <= p.ReaderCeiling(pinned) && p.ReaderCeiling(pinned) + 1 + p.digesters <= budget)
            && p.readers <= 2
  {
  }

  // ----- the bounds of one read -----

  /** What one bevy holds decompressed, as a saturating product. */
  function BevyPlain(st: ImageStream): nat {
    Max(1, Min(st.chunkSize * st.chunksInSegment, U64_MAX))
  }

  /** How many raw bevies the queue holds. */
  function QueueDepth(bevyPlain: nat, readers: nat): nat
    requires bevyPlain > 0
  {
    Clamp(REORDER_BUDGET_BYTES / 3 / bevyPlain, readers + 2, 12)
  }

  function Slots(bevyPlain: nat, workers: nat): nat
    requires bevyPlain > 0
  {
    Clamp(REORDER_BUDGET_BYTES * 2 / 3 / bevyPlain, 2, Max(workers * 3, 4))
  }

  /** The stream, the plan and nothing else fix the threads, the queue and the lookahead of a pipelined read. */
  predicate AsPlanned(s: Setup, plan: ThreadPlan, pinned: bool) {
    && s.st.Openable() && s.Count() > INLINE_BEVY_MAX
    && plan.IsParallel() && plan.readers + 2 <= 12
    && s.workers == plan.workers && s.admitted == plan.readers
    && s.Readers() == plan.ReaderCeiling(pinned)
    && s.depth == QueueDepth(BevyPlain(s.st), plan.readers)
    && s.lookahead == Slots(BevyPlain(s.st), plan.workers) + s.depth + plan.workers
  }

  /** A parallel plan with a queue to fit it, and a size of bevy of which a stream can hold 32. */
  predicate Possible(plan: ThreadPlan, chunkSize: nat, chunksInSegment: nat) {
    && plan.IsParallel() && plan.readers + 2 <= 12
    && 1 <= chunkSize * chunksInSegment && 32 * (chunkSize * chunksInSegment) <= U64_MAX
  }

  lemma PlannedIsArranged(s: Setup, plan: ThreadPlan, pinned: bool)
    requires AsPlanned(s, plan, pinned)
    ensures s.Arranged()
    ensures s.workers == 1 ==> s.Readers() == s.admitted
  {
  }

  lemma QuotientAtLeast(n: nat, d: nat, k: nat)
    requires d > 0
    ensures n / d >= k <==> k * d <= n
  {
    QuotientRemainder(n, d);
    if n / d >= k {
      MulMonotone(k, n / d, d);
    } else {
      MulMonotone(n / d + 1, k, d);
      MulSucc(n / d, d);
    }
  }

  /** The queue seats `c` readers exactly when two more than the plan starts are enough, or the byte budget holds `c` bevies. */
  lemma QueueSeats(bevyPlain: nat, readers: nat, c: nat)
    requires bevyPlain > 0 && readers + 2 <= 12
    ensures c <= QueueDepth(bevyPlain, readers) <==>
            c <= readers + 2 || (c <= 12 && c * bevyPlain <= REORDER_BUDGET_BYTES / 3)
  {
    QuotientAtLeast(REORDER_BUDGET_BYTES / 3, bevyPlain, c);
  }
}
