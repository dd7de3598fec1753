/** `cputicks` (top.c): the CPU cycles a slot consumed between two
    snapshots, summed over the categories a bit mask selects. */
module TickDelta {
  import opened U64
  import opened Procs

  /** Exact sum of `c2[i] - c1[i]` over the selected categories `i < n`. */
  function DeltaSum(c1: Cycles, c2: Cycles, mode: bv32, n: nat): int
    requires n <= NCategories
  {
    if n == 0 then 0
    else DeltaSum(c1, c2, mode, n - 1) + (if Selected(mode, n - 1) then c2[n - 1] as int - c1[n - 1] else 0)
  }

  /** Exact sum of `c[i]` over the selected categories `i < n`. */
  function CounterSum(c: Cycles, mode: bv32, n: nat): int
    requires n <= NCategories
  {
    if n == 0 then 0
    else CounterSum(c, mode, n - 1) + (if Selected(mode, n - 1) then c[n - 1] else 0)
  }

  /** `x` when category `i` is selected by `mode`, 0 otherwise. */
  function Pick(mode: bv32, i: nat, x: int): int
    requires i < NCategories
  {
    if Selected(mode, i) then x else 0
  }

  /** What `cputicks(p1, p2, mode)` returns: when the two slots hold the same
      endpoint, the selected counter differences; otherwise the selected
      counters of `p2` in full; either way reduced modulo 2^64. Nothing but
      the two endpoints and the counters is consulted. The contract spells
      the sum out over the three categories. */
  function Ticks(p1: Proc, p2: Proc, mode: bv32): (t: u64)
    ensures var c1, c2 := p1.cycles, p2.cycles;
      p1.endpoint == p2.endpoint ==>
        t == (Pick(mode, 0, c2[0] as int - c1[0]) + Pick(mode, 1, c2[1] as int - c1[1])
              + Pick(mode, 2, c2[2] as int - c1[2])) % TWO64
    ensures var c2 := p2.cycles;
      p1.endpoint != p2.endpoint ==>
        t == (Pick(mode, 0, c2[0]) + Pick(mode, 1, c2[1]) + Pick(mode, 2, c2[2])) % TWO64
  {
    var c1, c2 := p1.cycles, p2.cycles;
    assert DeltaSum(c1, c2, mode, 1) == Pick(mode, 0, c2[0] as int - c1[0]);
    assert DeltaSum(c1, c2, mode, 2) == DeltaSum(c1, c2, mode, 1) + Pick(mode, 1, c2[1] as int - c1[1]);
    assert CounterSum(c2, mode, 1) == Pick(mode, 0, c2[0]);
    assert CounterSum(c2, mode, 2) == CounterSum(c2, mode, 1) + Pick(mode, 1, c2[1]);
    (if p1.endpoint == p2.endpoint then DeltaSum(c1, c2, mode, NCategories)
     else CounterSum(c2, mode, NCategories)) % TWO64
  }

  /** `cputicks`: a loop over the categories accumulating in a `u64_t`. */
  method CpuTicks(p1: Proc, p2: Proc, timemode: bv32) returns (t: u64)
    ensures t == Ticks(p1, p2, timemode)
  {
    t := 0;
    for i := 0 to NCategories
      invariant t == (if p1.endpoint == p2.endpoint then DeltaSum(p1.cycles, p2.cycles, timemode, i)
                      else CounterSum(p2.cycles, timemode, i)) % TWO64
    {
      if !Selected(timemode, i) {
        continue;
      }
      if p1.endpoint == p2.endpoint {
        var before := DeltaSum(p1.cycles, p2.cycles, timemode, i);
        ModAdd(before, p2.cycles[i]);
        ModAdd(before + p2.cycles[i], -(p1.cycles[i] as int));
        t := Sub64(Add64(t, p2.cycles[i]), p1.cycles[i]);
      } else {
        ModAdd(CounterSum(p2.cycles, timemode, i), p2.cycles[i]);
        t := Add64(t, p2.cycles[i]);
      }
    }
  }

  /** Categories the masks agree on give the same sums. */
  lemma {:induction false} SumsAgree(c1: Cycles, c2: Cycles, m1: bv32, m2: bv32, n: nat)
    requires n <= NCategories
    requires forall i :: 0 <= i < n ==> Selected(m1, i) == Selected(m2, i)
    ensures DeltaSum(c1, c2, m1, n) == DeltaSum(c1, c2, m2, n)
    ensures CounterSum(c2, m1, n) == CounterSum(c2, m2, n)
  {
    if n > 0 {
      SumsAgree(c1, c2, m1, m2, n - 1);
    }
  }

  /** Mask bits at positions 3 and above select nothing. */
  lemma HighBitsIgnored(p1: Proc, p2: Proc, mode: bv32)
    ensures Ticks(p1, p2, mode) == Ticks(p1, p2, mode & 7)
  {
  }

  /** Mask 0 selects no category, so the result is 0. */
  lemma EmptyMask(p1: Proc, p2: Proc)
    ensures Ticks(p1, p2, 0) == 0
  {
  }

  /** When none of the first `n` categories is selected, both sums over
      them are 0. */
  lemma {:induction false} NothingSelected(c1: Cycles, c2: Cycles, mode: bv32, n: nat)
    requires n <= NCategories
    requires forall i :: 0 <= i < n ==> !Selected(mode, i)
    ensures DeltaSum(c1, c2, mode, n) == 0 && CounterSum(c2, mode, n) == 0
  {
    if n > 0 {
      NothingSelected(c1, c2, mode, n - 1);
    }
  }

  /** Mask 1, the one used for the total: category 0 ("user") alone, as a
      wrapping `u64_t` difference or the full counter. */
  lemma UserCategoryOnly(p1: Proc, p2: Proc)
    ensures Ticks(p1, p2, 1) ==
      if p1.endpoint == p2.endpoint then Sub64(p2.cycles[0], p1.cycles[0]) else p2.cycles[0]
  {
  }

  /** The result depends on the previous slot only through its endpoint and,
      when the endpoints agree, its counters: neither slot's pid nor its
      flags (in particular the previous slot's USED) are consulted. */
  lemma OnlyEndpointAndCounters(p1: Proc, p2: Proc, q1: Proc, q2: Proc, mode: bv32)
    requires (p1.endpoint == p2.endpoint) == (q1.endpoint == q2.endpoint)
    requires p2.cycles == q2.cycles
    requires p1.endpoint == p2.endpoint ==> p1.cycles == q1.cycles
    ensures Ticks(p1, p2, mode) == Ticks(q1, q2, mode)
  {
  }

  /** Counter differences are non-negative and bounded by the newer
      counters when no selected counter decreased. */
  lemma {:induction false} DeltaSumBounds(c1: Cycles, c2: Cycles, mode: bv32, n: nat)
    requires n <= NCategories
    requires forall i :: 0 <= i < n && Selected(mode, i) ==> c1[i] <= c2[i]
    ensures 0 <= DeltaSum(c1, c2, mode, n) <= CounterSum(c2, mode, n)
  {
    if n > 0 {
      DeltaSumBounds(c1, c2, mode, n - 1);
    }
  }

  /** With the same endpoint, no selected counter decreasing and no overflow of
      their sum, the result is the exact, non-negative total of the
      selected differences: no wrap-around takes place. */
  lemma NoWrapForMonotoneCounters(p1: Proc, p2: Proc, mode: bv32)
    requires p1.endpoint == p2.endpoint
    requires forall i :: 0 <= i < NCategories && Selected(mode, i) ==> p1.cycles[i] <= p2.cycles[i]
    requires CounterSum(p2.cycles, mode, NCategories) < TWO64
    ensures Ticks(p1, p2, mode) == DeltaSum(p1.cycles, p2.cycles, mode, NCategories)
  {
    DeltaSumBounds(p1.cycles, p2.cycles, mode, NCategories);
  }

  /** A record with the given endpoint and counters, other fields zero. */
  function Sample(endpoint: int, pid: int, cycles: Cycles): Proc {
    Proc({Used}, endpoint, pid, cycles, 0, 0, 0, 0, 0, 0, [])
  }

  /** Same endpoint and pid, counters [100, 10, 5] then [150, 10, 5]:
      all three categories give 50. */
  lemma SameProcessExample()
    ensures Ticks(Sample(3, 10, [100, 10, 5]), Sample(3, 10, [150, 10, 5]), 7) == 50
  {
  }

  /** A slot whose previous record has another endpoint is charged its full
      counters: [20, 0, 0] gives 20, whatever the old counters were. */
  lemma NewEndpointExample(previous: Proc)
    requires previous.endpoint != 3
    ensures Ticks(previous, Sample(3, 11, [20, 0, 0]), 7) == 20
  {
  }

  /** Identity is the endpoint alone: a new pid at the same endpoint, or a
      stale record left in a slot that was not USED, is subtracted from,
      and smaller new counters wrap around modulo 2^64. */
  lemma SameEndpointNewPidExample()
    ensures Ticks(Sample(3, 10, [100, 10, 5]).(flags := {}), Sample(3, 11, [5, 0, 0]), 7) == TWO64 - 110
  {
  }
}
