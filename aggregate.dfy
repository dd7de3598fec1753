/** The integer accounting of `print_procs` (top.c): which slots enter
    `tick_procs`, and the sums `total_ticks`, `systemticks` and `userticks`,
    stated over the two snapshots as sequences of slots. */
module Aggregate {
  import opened U64
  import opened Procs
  import opened TickDelta

  /** `struct tp`: a slot of the current snapshot (the pointer `proc2 + p`
      is kept as the index `p`) and its ticks for the interval. */
  datatype TickProc = TickProc(slot: nat, ticks: u64)

  /** The USED slots `p < n` of `proc2`, in slot order, each with
      `cputicks(&proc1[p], &proc2[p], mode)`. */
  function UsedEntries(proc1: seq<Proc>, proc2: seq<Proc>, mode: bv32, n: nat): seq<TickProc>
    requires n <= |proc1| && n <= |proc2|
  {
    if n == 0 then []
    else
      UsedEntries(proc1, proc2, mode, n - 1)
      + (if IsUsed(proc2[n - 1]) then [TickProc(n - 1, Ticks(proc1[n - 1], proc2[n - 1], mode))] else [])
  }

  /** Exact sum of the ticks of the USED slots `p < n`. */
  function UsedSum(proc1: seq<Proc>, proc2: seq<Proc>, mode: bv32, n: nat): nat
    requires n <= |proc1| && n <= |proc2|
  {
    if n == 0 then 0
    else
      UsedSum(proc1, proc2, mode, n - 1)
      + (if IsUsed(proc2[n - 1]) then Ticks(proc1[n - 1], proc2[n - 1], mode) else 0)
  }

  /** Exact sum of the ticks of the USED slots `p < n` of kind `k`. */
  function KindSum(proc1: seq<Proc>, proc2: seq<Proc>, mode: bv32, n: nat, k: Kind): nat
    requires n <= |proc1| && n <= |proc2|
  {
    if n == 0 then 0
    else
      KindSum(proc1, proc2, mode, n - 1, k)
      + (if IsUsed(proc2[n - 1]) && KindOf(proc2[n - 1]) == k
         then Ticks(proc1[n - 1], proc2[n - 1], mode) else 0)
  }

  /** Sum of the ticks recorded in a list of entries. */
  function EntrySum(es: seq<TickProc>): nat {
    if es == [] then 0 else EntrySum(es[..|es| - 1]) + es[|es| - 1].ticks
  }

  /** One more slot: a USED slot appends its entry and adds its ticks to the
      sum and to its kind's sum; any other slot changes nothing. */
  lemma Step(proc1: seq<Proc>, proc2: seq<Proc>, mode: bv32, p: nat)
    requires p < |proc1| && p < |proc2|
    ensures var t := Ticks(proc1[p], proc2[p], mode);
      && UsedEntries(proc1, proc2, mode, p + 1) ==
           UsedEntries(proc1, proc2, mode, p) + (if IsUsed(proc2[p]) then [TickProc(p, t)] else [])
      && UsedSum(proc1, proc2, mode, p + 1) ==
           UsedSum(proc1, proc2, mode, p) + (if IsUsed(proc2[p]) then t else 0)
      && (forall k :: KindSum(proc1, proc2, mode, p + 1, k) ==
           KindSum(proc1, proc2, mode, p, k) + (if IsUsed(proc2[p]) && KindOf(proc2[p]) == k then t else 0))
  {
  }

  /** The `u64_t` accumulators after one more slot: each stays the exact
      sum so far reduced modulo 2^64. */
  lemma AccumulateStep(proc1: seq<Proc>, proc2: seq<Proc>, mode: bv32, p: nat, total: u64, system: u64, user: u64)
    requires p < |proc1| && p < |proc2|
    requires total == UsedSum(proc1, proc2, 1, p) % TWO64
    requires system == KindSum(proc1, proc2, mode, p, SystemKind) % TWO64
    requires user == KindSum(proc1, proc2, mode, p, UserKind) % TWO64
    ensures var used, t, u := IsUsed(proc2[p]), Ticks(proc1[p], proc2[p], mode), Ticks(proc1[p], proc2[p], 1);
      && (if used then Add64(total, u) else total) == UsedSum(proc1, proc2, 1, p + 1) % TWO64
      && (if used && KindOf(proc2[p]) == SystemKind then Add64(system, t) else system)
           == KindSum(proc1, proc2, mode, p + 1, SystemKind) % TWO64
      && (if used && KindOf(proc2[p]) == UserKind then Add64(user, t) else user)
           == KindSum(proc1, proc2, mode, p + 1, UserKind) % TWO64
  {
    Step(proc1, proc2, mode, p);
    Step(proc1, proc2, 1, p);
    var t, u := Ticks(proc1[p], proc2[p], mode), Ticks(proc1[p], proc2[p], 1);
    ModAdd(UsedSum(proc1, proc2, 1, p), u);
    ModAdd(KindSum(proc1, proc2, mode, p, SystemKind), t);
    ModAdd(KindSum(proc1, proc2, mode, p, UserKind), t);
  }

  /** Every entry is a USED slot below `n` with its ticks, and there are at
      most `n` of them. */
  lemma {:induction false} UsedEntriesSound(proc1: seq<Proc>, proc2: seq<Proc>, mode: bv32, n: nat)
    requires n <= |proc1| && n <= |proc2|
    ensures var es := UsedEntries(proc1, proc2, mode, n);
      && |es| <= n
      && (forall k :: 0 <= k < |es| ==>
            es[k].slot < n && IsUsed(proc2[es[k].slot])
            && es[k].ticks == Ticks(proc1[es[k].slot], proc2[es[k].slot], mode))
  {
    if n > 0 {
      UsedEntriesSound(proc1, proc2, mode, n - 1);
      Step(proc1, proc2, mode, n - 1);
    }
  }

  /** The entries are in strictly ascending slot order. */
  lemma {:induction false} UsedEntriesAscending(proc1: seq<Proc>, proc2: seq<Proc>, mode: bv32, n: nat)
    requires n <= |proc1| && n <= |proc2|
    ensures var es := UsedEntries(proc1, proc2, mode, n);
      forall k, l :: 0 <= k < l < |es| ==> es[k].slot < es[l].slot
  {
    if n > 0 {
      UsedEntriesAscending(proc1, proc2, mode, n - 1);
      UsedEntriesSound(proc1, proc2, mode, n - 1);
      Step(proc1, proc2, mode, n - 1);
    }
  }

  /** Every USED slot below `n` has an entry. */
  lemma {:induction false} UsedEntriesComplete(proc1: seq<Proc>, proc2: seq<Proc>, mode: bv32, n: nat)
    requires n <= |proc1| && n <= |proc2|
    ensures var es := UsedEntries(proc1, proc2, mode, n);
      forall p :: 0 <= p < n && IsUsed(proc2[p]) ==> exists k :: 0 <= k < |es| && es[k].slot == p
  {
    if n > 0 {
      UsedEntriesComplete(proc1, proc2, mode, n - 1);
      Step(proc1, proc2, mode, n - 1);
      var es := UsedEntries(proc1, proc2, mode, n - 1);
      var es' := UsedEntries(proc1, proc2, mode, n);
      forall p | 0 <= p < n && IsUsed(proc2[p])
        ensures exists k :: 0 <= k < |es'| && es'[k].slot == p
      {
        if p == n - 1 {
          assert es'[|es|].slot == p;
        } else {
          var k :| 0 <= k < |es| && es[k].slot == p;
          assert es'[k].slot == p;
        }
      }
    }
  }

  /** `tick_procs[0..nprocs)` holds exactly the USED slots below `n`, each
      once, in ascending slot order, each with its ticks for `mode`. */
  lemma UsedEntriesExact(proc1: seq<Proc>, proc2: seq<Proc>, mode: bv32, n: nat)
    requires n <= |proc1| && n <= |proc2|
    ensures var es := UsedEntries(proc1, proc2, mode, n);
      && |es| <= n
      && (forall k :: 0 <= k < |es| ==>
            es[k].slot < n && IsUsed(proc2[es[k].slot])
            && es[k].ticks == Ticks(proc1[es[k].slot], proc2[es[k].slot], mode))
      && (forall k, l :: 0 <= k < l < |es| ==> es[k].slot < es[l].slot)
      && (forall p :: 0 <= p < n && IsUsed(proc2[p]) ==> exists k :: 0 <= k < |es| && es[k].slot == p)
  {
    UsedEntriesSound(proc1, proc2, mode, n);
    UsedEntriesAscending(proc1, proc2, mode, n);
    UsedEntriesComplete(proc1, proc2, mode, n);
  }

  /** The entries' ticks add up to the sum over the USED slots. */
  lemma {:induction false} EntriesSumToUsedSum(proc1: seq<Proc>, proc2: seq<Proc>, mode: bv32, n: nat)
    requires n <= |proc1| && n <= |proc2|
    ensures EntrySum(UsedEntries(proc1, proc2, mode, n)) == UsedSum(proc1, proc2, mode, n)
  {
    if n > 0 {
      EntriesSumToUsedSum(proc1, proc2, mode, n - 1);
      var es := UsedEntries(proc1, proc2, mode, n - 1);
      if IsUsed(proc2[n - 1]) {
        var es' := es + [TickProc(n - 1, Ticks(proc1[n - 1], proc2[n - 1], mode))];
        assert UsedEntries(proc1, proc2, mode, n) == es';
        assert es'[..|es'| - 1] == es;
      } else {
        assert UsedEntries(proc1, proc2, mode, n) == es;
      }
    }
  }

  /** Every USED slot is of exactly one kind: the task, system and user sums
      partition the sum over the USED slots. So the task slots, which enter
      neither `systemticks` nor `userticks`, are exactly what those two
      buckets miss of the total. */
  lemma {:induction false} KindsPartition(proc1: seq<Proc>, proc2: seq<Proc>, mode: bv32, n: nat)
    requires n <= |proc1| && n <= |proc2|
    ensures UsedSum(proc1, proc2, mode, n) ==
      KindSum(proc1, proc2, mode, n, TaskKind) + KindSum(proc1, proc2, mode, n, SystemKind)
      + KindSum(proc1, proc2, mode, n, UserKind)
  {
    if n > 0 {
      KindsPartition(proc1, proc2, mode, n - 1);
    }
  }

  /** With mask 1 for both (the mask of `total_ticks`), system plus user
      ticks never exceed the total: any task slot makes them fall short. */
  lemma BucketsWithinTotal(proc1: seq<Proc>, proc2: seq<Proc>, n: nat)
    requires n <= |proc1| && n <= |proc2|
    ensures KindSum(proc1, proc2, 1, n, SystemKind) + KindSum(proc1, proc2, 1, n, UserKind)
            <= UsedSum(proc1, proc2, 1, n)
  {
  }

  /** The buckets use the display mask while the total uses mask 1, so with
      another mask they can exceed the total: one new user process with
      counters [10, 10, 10] under mask 7 puts 30 in `userticks` against a
      total of 10. */
  lemma BucketsMayExceedTotal()
    ensures var proc1, proc2 := [Sample(4, 1, [0, 0, 0])], [Sample(5, 2, [10, 10, 10])];
      KindSum(proc1, proc2, 7, 1, UserKind) == 30 && UsedSum(proc1, proc2, 1, 1) == 10
  {
  }

  /** The exact total is 0 exactly when every USED slot has no ticks: the
      report is skipped (`total_ticks == 0`) when nothing was consumed, and
      only then as long as the sum does not wrap. */
  lemma {:induction false} ZeroSumIffNoTicks(proc1: seq<Proc>, proc2: seq<Proc>, mode: bv32, n: nat)
    requires n <= |proc1| && n <= |proc2|
    ensures UsedSum(proc1, proc2, mode, n) == 0 <==>
      forall p :: 0 <= p < n && IsUsed(proc2[p]) ==> Ticks(proc1[p], proc2[p], mode) == 0
  {
    if n > 0 {
      ZeroSumIffNoTicks(proc1, proc2, mode, n - 1);
    }
  }

  /** A slot that is not USED in the current snapshot contributes nothing:
      replacing it, and the previous snapshot's slot beside it, by anything
      else that is not USED changes no entry and no sum. */
  lemma {:induction false} UnusedSlotIgnored(
    proc1: seq<Proc>, proc2: seq<Proc>, mode: bv32, n: nat, q: nat, before: Proc, now: Proc)
    requires n <= |proc1| && n <= |proc2| && q < |proc1| && q < |proc2|
    requires !IsUsed(proc2[q]) && !IsUsed(now)
    ensures UsedEntries(proc1[q := before], proc2[q := now], mode, n) == UsedEntries(proc1, proc2, mode, n)
    ensures UsedSum(proc1[q := before], proc2[q := now], mode, n) == UsedSum(proc1, proc2, mode, n)
    ensures forall k :: KindSum(proc1[q := before], proc2[q := now], mode, n, k) == KindSum(proc1, proc2, mode, n, k)
  {
    if n > 0 {
      UnusedSlotIgnored(proc1, proc2, mode, n - 1, q, before, now);
    }
  }
}
