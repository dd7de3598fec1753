# Accounting core of MINIX `top`

This project models the accounting engine of `top.c`, a `top` clone for
MINIX 3, and proves properties of it in Dafny.

The program keeps two snapshots of the process table, `proc` and
`prev_proc`, each an array of `nr_total` slots of `struct proc`. Each
refresh does three things:

1. `get_procs` swaps the two buffers and clears every slot's flags.
2. `parse_file` fills one slot from each process's psinfo file.
3. `print_procs` compares the two snapshots slot by slot with `cputicks`. It
   collects the USED slots into `tick_procs` and sums CPU ticks into
   `total_ticks`, `systemticks` and `userticks`.

Modules:

- `U64`: the C integer arithmetic involved.
  - `u64_t` addition and subtraction wrap modulo 2^64.
  - `make64(lo, hi)` builds a counter from two 32-bit halves.
  - `SLOT_NR` stores an unsigned sum into an `int`.
- `Procs`: one slot (`struct proc`), its flag bits, the three cycle
  categories ("user", "ipc", "kernelcall"), the `CPUTIME` mask test, and the
  three ways the accounting loop classifies a slot (task, system, user).
- `TickDelta`: `cputicks`.
  - The function `Ticks` is its closed form.
  - The method `CpuTicks` is the loop, proved against `Ticks`.
  - Lemmas give the mask and identity behaviour.
- `Psinfo`: what `parse_file` writes into a slot.
  - A psinfo file is modelled as the sequence of reads `parse_file` makes. Each read is an `Option`, and `None` is a failed read.
  - `Populate` is the slot after the reads, up to the first failed required read. It is built from three stages: `Stamp`, `ApplyStatus` and `Finish`.
- `Aggregate`: the slot loop of `print_procs` as functions over the two
  snapshots. Lemmas cover the entries, the sums and how the buckets relate.
- `Top`: the global state as a class.
  - Fields: the arrays `proc`, `prevProc` and `tickProcs`, and the counts `nr_tasks` and `nr_total`.
  - Methods: `GetProcs`, `ParseFile` (with one method per stage) and `PrintProcs`.
  - Each method is proved against the functions above.

In these places the code does less than a reader of a `top` might expect;
the model follows the code:

- `cputicks` identifies a process by `p_endpoint` alone. It never looks at
  the pid or at the previous slot's USED flag. So a reused endpoint, or a
  stale record left in an unused slot, is subtracted from; with smaller
  counters this wraps around modulo 2^64.
- `total_ticks` is summed with mask 1, category 0 ("user") only. The system
  and user buckets are summed with the display mask `cputimemode`. With a
  mask that selects category 1 or 2 the buckets can exceed the total
  (`Aggregate.BucketsMayExceedTotal`).
- There are no kernel or idle buckets. `kernelticks` and `idleticks` are used
  by the percentage lines (top.c:337-338), but their declarations are
  commented out (top.c:288-289).
- Nothing is ranked. The `qsort` call is commented out (top.c:333), so
  `tick_procs` stays in ascending slot order.
- `get_procs` clears only `p_flags`. A reused buffer keeps the endpoints,
  counters and other fields of the snapshot taken two refreshes earlier.
  The model keeps them.

## Model

| member | source | states |
|---|---|---|
| `U64.Add64` | top.c:348-351 | a `u64_t` sum is the exact sum or the sum less 2^64, and it is below the first operand exactly when the exact sum overflows |
| `U64.Sub64` | top.c:349 | a `u64_t` difference is exact when it does not borrow, and 2^64 more than the exact one when it does |
| `U64.ModAdd` | top.c:312 | reducing a running sum modulo 2^64 before each addition gives the reduced exact sum |
| `U64.Make64` | top.c:250 | `make64(lo, hi)` is a 64-bit counter from which `hi` and `lo` are read back as its upper and lower 32 bits |
| `U64.WrapInt32` | top.c:54 | an unsigned 32-bit value stored in an `int` lies in [-2^31, 2^31), is congruent to the value modulo 2^32, and equals it when it fits |
| `Procs.Selected` | top.c:49 | `CPUTIME(m, i)`: category 0 is selected by bit 0x1 of the mask, category 1 by 0x2 and category 2 by 0x4 |
| `Procs.KindOf` | top.c:320-325 | every slot is exactly one of task (IS_TASK), system (IS_SYSTEM without IS_TASK) or user (neither) |
| `TickDelta.Ticks` | top.c:341-356 | the value of `cputicks`: over the three categories, the selected differences `p2 - p1` when the endpoints agree and the selected counters of `p2` otherwise, summed modulo 2^64 |
| `TickDelta.CpuTicks` | top.c:341-356 | the loop over the categories returns the selected counter differences when the endpoints agree, or else the selected counters of `p2`, reduced modulo 2^64 |
| `TickDelta.SumsAgree` | top.c:49 | two masks that select the same categories give the same sums |
| `TickDelta.HighBitsIgnored` | top.c:345-347 | mask bits at position 3 and above change nothing |
| `TickDelta.EmptyMask` | top.c:345-347 | mask 0 gives 0 ticks |
| `TickDelta.NothingSelected` | top.c:346-347 | when none of the first `n` categories is selected, the difference sum and the counter sum over them are both 0 |
| `TickDelta.UserCategoryOnly` | top.c:311 | mask 1 counts category 0 alone: the wrapping difference for the same endpoint, the full counter otherwise |
| `TickDelta.OnlyEndpointAndCounters` | top.c:347-352 | the result depends only on whether the endpoints agree, on `p2`'s counters, and on `p1`'s counters when the endpoints agree; pid and flags play no part |
| `TickDelta.DeltaSumBounds` | top.c:349 | when no selected counter decreased (unselected ones may have), the sum of differences lies between 0 and the sum of the newer counters |
| `TickDelta.NoWrapForMonotoneCounters` | top.c:348-349 | same endpoint, no selected counter decreasing and no overflow: the ticks are the exact sum of the differences |
| `TickDelta.SameProcessExample` | top.c:348-349 | counters 100 then 150 with the others unchanged give 50 ticks |
| `TickDelta.NewEndpointExample` | top.c:350-351 | a slot whose previous record has another endpoint is charged its full counters, whatever the old counters |
| `TickDelta.SameEndpointNewPidExample` | top.c:348-349 | a new pid at the same endpoint, with a previous record that is not USED, is subtracted from and wraps to 2^64 - 110 |
| `Psinfo.CounterValue` | top.c:265-271 | a category counter that was read is `hi * 2^32 + lo`; one that was not read is 0 |
| `Psinfo.TruncateName` | top.c:245-246 | the stored name is the prefix of the scanned name no longer than `PROC_NAME_LEN` characters and cut only where it must: the whole name when it fits, exactly `PROC_NAME_LEN` characters otherwise |
| `Psinfo.Stamp` | top.c:229-235 | the header sets endpoint and pid and adds IS_TASK for type `T` or IS_SYSTEM for type `S`; nothing else changes and no flag is removed |
| `Psinfo.ApplyStatus` | top.c:237-251 | the status line sets name, blocked-on endpoint, priority, user time and the category-0 counter, sets memory to 0 and adds BLOCKED unless running; the other fields and flags are unchanged |
| `Psinfo.Finish` | top.c:253-280 | the rest of a complete file sets the owner (0 for a task), categories 1 and 2 (0 when unread), a task's memory (0 when unread) or the account's memory and nice, and finally USED |
| `Psinfo.Populate` | top.c:227-280 | the slot after parsing has the new endpoint and pid and type flags; it is USED exactly when it was already USED or every required read succeeded; a failed status read leaves all other fields; categories 1 and 2 are the read values or 0 once complete and stale otherwise; `nice` is kept unless a non-task's account line was read; flags are only added |
| `Psinfo.ClearedSlot` | top.c:161-162 | in a slot whose flags were cleared, USED is set exactly when every required read succeeded, BLOCKED exactly when the state is not running, and the accounting kind is the type read from the file |
| `Aggregate.UsedEntriesExact` | top.c:305-310 | the entries are exactly the USED slots, each once, in ascending slot order, each with its ticks |
| `Aggregate.EntriesSumToUsedSum` | top.c:310 | the entries' ticks add up to the sum over the USED slots |
| `Aggregate.KindsPartition` | top.c:320-325 | task, system and user sums partition the sum over the USED slots; task slots enter neither bucket |
| `Aggregate.BucketsWithinTotal` | top.c:311-325 | with mask 1 for everything, system plus user ticks never exceed the total |
| `Aggregate.BucketsMayExceedTotal` | top.c:310-325 | with mask 7 one user process puts 30 ticks in `userticks` against a total of 10 |
| `Aggregate.ZeroSumIffNoTicks` | top.c:330-331 | the exact total is 0 exactly when every USED slot has 0 ticks |
| `Aggregate.UnusedSlotIgnored` | top.c:307-308 | a slot that is not USED in the current snapshot changes no entry and no sum, whatever it and its previous record hold |
| `Top.ShortReadNotCounted` | top.c:237-243 | a file whose required reads stop early, parsed into a cleared slot, changes no `print_procs` entry and no sum (the slot is skipped at top.c:307-308) |
| `Top.SlotNr` | top.c:219 | the slot is the endpoint's slot part plus `nr_tasks`, wrapped into a 32-bit `int` |
| `Top.Top.constructor` | top.c:115 | `nr_total` is `nr_procs + nr_tasks`, and no buffer is allocated yet |
| `Top.Top.GetProcs` | top.c:143-162 | the buffers swap roles; a missing buffer becomes a fresh one of `nr_total` slots; every slot's flags are cleared and every other field is left as it was |
| `Top.Top.ParseFile` | top.c:189-283 | a failed version or header read, a version mismatch or an out-of-range slot leave the table unchanged; otherwise exactly the slot changes, to `Populate` of its old value, and the outcome says whether USED was set |
| `Top.Top.StampSlot` | top.c:227-235 | the slot becomes `Stamp` of its old value and no other slot changes |
| `Top.Top.ReadStatus` | top.c:245-251 | the slot becomes `ApplyStatus` of its old value and no other slot changes |
| `Top.Top.ReadRest` | top.c:253-280 | the slot becomes `Finish` of its old value and no other slot changes |
| `Top.Record` | top.c:309-310 | storing entry `k` of `tick_procs` appends it to the entries before it and leaves every later entry as it was |
| `Top.Top.PrintProcs` | top.c:285-331 | `tick_procs[0..nprocs)` is the entry list of the USED slots, and on a reused buffer `tick_procs[nprocs..)` keeps the entries of the earlier call; `total_ticks` is the mask-1 sum, `systemticks` and `userticks` the system and user sums, all modulo 2^64; it reports exactly when `total_ticks` is not 0 |

## Left out

- `getkinfo`, `parse_dir` and `print_memory`, and the reading of the files
  themselves (`fopen`, `fscanf`, `readdir`): they are file and directory I/O.
  `nr_procs` and `nr_tasks` are constructor parameters. A psinfo file is the
  sequence of its reads.
- The partial stores of a `fscanf` that fails part way through a line: the
  model treats each line as read entirely or not at all. A failed status or
  account line therefore leaves no field of that line written.
- The percentage `printf` lines of `print_procs` (top.c:335-338): floating
  point and output. They also use the undeclared `kernelticks` and
  `idleticks`, so they are not modelled.
- Ranking: `qsort` is commented out and no comparator exists. `order` is
  unused.
- Curses, termcap and termios state, the key bindings and `blockedverbose`:
  these are user-interface code.
- `malloc` failure and the `exit(1)` paths. Allocation is a fresh array. The
  version mismatch is the outcome `VersionMismatch`, not a process exit.
- `_ENDPOINT_P` and the constants of `<minix/procfs.h>` come from MINIX
  headers that are not part of this model.
  - `_ENDPOINT_P` is a function-valued constant of the class.
  - `TYPE_TASK`, `TYPE_SYSTEM`, `STATE_RUN`, `PSINFO_VERSION` and
    `PROC_NAME_LEN` take their MINIX values. The proofs rely only on
    `TYPE_TASK` differing from `TYPE_SYSTEM`.
- `Top.Top.constructor`: it requires `nr_procs + nr_tasks < 2^31` instead of
  modelling the `(int)` conversion of a larger unsigned sum to `nr_total`.
- The widths of the display-only fields (`p_priority`, `p_blocked`,
  `p_user_time`, `p_memory`, `p_effuid`, `p_nice`): they are unbounded
  integers, because no property here depends on them.
- `p_flags` is modelled as the set of its bits, not as an `int`. This is
  exact because the word is cleared to 0 before each refresh and only the
  four flag bits are ever or-ed into it.
- The `struct tp` pointer `proc2 + p` is kept as the slot index `p`.
