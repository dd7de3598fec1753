/** The global state of top.c and the procedures that change it: the two
    snapshot buffers `proc` and `prev_proc` swapped by `get_procs`, the slot
    writes of `parse_file`, and the accounting loop of `print_procs` with
    its `tick_procs` buffer. */
module Top {
  import opened U64
  import opened Procs
  import opened TickDelta
  import opened Psinfo
  import opened Aggregate

  /** How a call of `parse_file` ended. */
  datatype Outcome =
    | Unreadable       // the file could not be opened or its version read
    | VersionMismatch  // the program reports the mismatch and exits
    | NoHeader         // type and endpoint could not be read
    | BadEndpoint      // slot outside [0, nr_total): reported and dropped
    | ShortRead        // a later required read failed: USED stays unset
    | Populated        // every required read succeeded: USED is set

  /** `SLOT_NR(e)`: `_ENDPOINT_P(e) + nr_tasks`, added as `unsigned int`
      and stored in an `int`: the 32-bit value congruent to the sum, which
      is the sum itself whenever that fits. */
  function SlotNr(endpointP: int -> int, nrTasks: nat, e: int): (slot: int)
    ensures -TWO31 <= slot < TWO31
    ensures (endpointP(e) + nrTasks - slot) % TWO32 == 0
    ensures -TWO31 <= endpointP(e) + nrTasks < TWO31 ==> slot == endpointP(e) + nrTasks
  {
    WrapInt32(endpointP(e) + nrTasks)
  }

  /** A file that stops before its required reads were all made, parsed
      into a slot `get_procs` cleared, leaves a slot that is not USED: the
      accounting of `print_procs` sees the same entries and sums as if the
      file had not been parsed at all. */
  lemma ShortReadNotCounted(
    proc1: seq<Proc>, proc2: seq<Proc>, mode: bv32, n: nat, q: nat, pid: int, h: Header, rec: PsInfo)
    requires n <= |proc1| && n <= |proc2| && q < |proc1| && q < |proc2|
    requires proc2[q].flags == {} && !Completes(proc2[q], h, rec)
    ensures var after := proc2[q := Populate(proc2[q], pid, h, rec)];
      && UsedEntries(proc1, after, mode, n) == UsedEntries(proc1, proc2, mode, n)
      && UsedSum(proc1, after, mode, n) == UsedSum(proc1, proc2, mode, n)
      && forall k :: KindSum(proc1, after, mode, n, k) == KindSum(proc1, proc2, mode, n, k)
  {
    ClearedSlot(proc2[q], pid, h, rec);
    UnusedSlotIgnored(proc1, proc2, mode, n, q, proc1[q], Populate(proc2[q], pid, h, rec));
    assert proc1[q := proc1[q]] == proc1;
  }

  /** `tick_procs[k] = e`: the entries before `k` gain `e` at the end, and
      the entries after `k` stay as they were. */
  method Record(buf: array<TickProc>, k: nat, e: TickProc)
    requires k < buf.Length
    modifies buf
    ensures buf[..k + 1] == old(buf[..k]) + [e]
    ensures buf[k + 1..] == old(buf[k + 1..])
  {
    buf[k] := e;
  }

  class Top {
    /** `nr_tasks` and `nr_total = nr_procs + nr_tasks`, fixed at start-up. */
    const nrTasks: nat
    const nrTotal: nat
    /** `_ENDPOINT_P`, the slot part of an endpoint, from a MINIX header. */
    const endpointP: int -> int

    /** The current and the previous snapshot; NULL until first needed. */
    var proc: array?<Proc>
    var prevProc: array?<Proc>
    /** The static buffer of `print_procs`; NULL until its first call. */
    var tickProcs: array?<TickProc>

    ghost predicate Valid()
      reads this
    {
      && (proc != null ==> proc.Length == nrTotal)
      && (prevProc != null ==> prevProc.Length == nrTotal && proc != null && proc != prevProc)
      && (tickProcs != null ==> tickProcs.Length == nrTotal)
    }

    /** The state once `getkinfo` has read the two counts. */
    constructor (nrProcs: nat, nrTasks: nat, endpointP: int -> int)
      requires nrProcs + nrTasks < TWO31
      ensures Valid()
      ensures this.nrTasks == nrTasks && nrTotal == nrProcs + nrTasks && this.endpointP == endpointP
      ensures proc == null && prevProc == null && tickProcs == null
    {
      this.nrTasks := nrTasks;
      nrTotal := nrProcs + nrTasks;
      this.endpointP := endpointP;
      proc, prevProc, tickProcs := null, null, null;
    }

    /** `get_procs` up to the directory scan: the buffers swap roles, a
        buffer of `nr_total` slots is allocated if there was none, and every
        slot's flags are cleared. Nothing but the flags is reset, so a
        reused buffer keeps the records of two refreshes ago. */
    method GetProcs()
      requires Valid()
      modifies this`proc, this`prevProc, prevProc
      ensures Valid() && proc != null
      ensures prevProc == old(proc)
      ensures old(proc) != null ==> prevProc[..] == old(proc[..])
      ensures old(prevProc) != null ==> proc == old(prevProc)
      ensures old(prevProc) == null ==> fresh(proc)
      ensures forall i :: 0 <= i < nrTotal ==> proc[i].flags == {}
      ensures old(prevProc) != null ==>
        forall i :: 0 <= i < nrTotal ==> proc[i] == old(prevProc[i]).(flags := {})
    {
      var p := prevProc;
      prevProc := proc;
      proc := p;

      if proc == null {
        proc := new Proc[nrTotal];
      }
      var table: array<Proc> := proc;
      ghost var before := table[..];

      for i := 0 to nrTotal
        invariant proc == table && prevProc == old(proc)
        invariant forall j :: 0 <= j < i ==> table[j] == before[j].(flags := {})
        invariant forall j :: i <= j < nrTotal ==> table[j] == before[j]
      {
        table[i] := table[i].(flags := {});
      }
    }

    /** `parse_file(pid)` for a file whose reads gave `rec`: maps the
        endpoint to a slot, drops it when out of range, and otherwise writes
        the slot field by field until the first failed read. */
    method ParseFile(pid: int, rec: PsInfo) returns (outcome: Outcome)
      requires Valid() && proc != null
      modifies proc
      ensures rec.version.None? ==> outcome == Unreadable && unchanged(proc)
      ensures rec.version.Some? && rec.version.value != PSINFO_VERSION ==>
        outcome == VersionMismatch && unchanged(proc)
      ensures rec.version == Some(PSINFO_VERSION) && rec.header.None? ==>
        outcome == NoHeader && unchanged(proc)
      ensures rec.version == Some(PSINFO_VERSION) && rec.header.Some? ==>
        var h := rec.header.value;
        var slot := SlotNr(endpointP, nrTasks, h.endpoint);
        if slot < 0 || slot >= nrTotal then
          outcome == BadEndpoint && unchanged(proc)
        else
          && proc[slot] == Populate(old(proc[slot]), pid, h, rec)
          && (forall i :: 0 <= i < nrTotal && i != slot ==> proc[i] == old(proc[i]))
          && outcome == if Completes(old(proc[slot]), h, rec) then Populated else ShortRead
    {
      if rec.version.None? {
        return Unreadable;
      }
      if rec.version.value != PSINFO_VERSION {
        return VersionMismatch;
      }
      if rec.header.None? {
        return NoHeader;
      }
      var h := rec.header.value;
      var slot := SlotNr(endpointP, nrTasks, h.endpoint);
      if slot < 0 || slot >= nrTotal {
        return BadEndpoint;
      }

      StampSlot(slot, pid, h);
      if rec.status.None? {
        return ShortRead;
      }
      ReadStatus(slot, rec.status.value);
      if !HasFlag(proc[slot], IsTask) && rec.account.None? {
        return ShortRead;
      }
      ReadRest(slot, rec);
      outcome := Populated;
    }

    /** The header part of `parse_file`: the type flag, endpoint and pid. */
    method StampSlot(slot: nat, pid: int, h: Header)
      requires proc != null && slot < proc.Length
      modifies proc
      ensures proc[slot] == Stamp(old(proc[slot]), pid, h)
      ensures forall j :: 0 <= j < proc.Length && j != slot ==> proc[j] == old(proc[j])
    {
      if h.kind == TYPE_TASK {
        proc[slot] := proc[slot].(flags := proc[slot].flags + {IsTask});
      } else if h.kind == TYPE_SYSTEM {
        proc[slot] := proc[slot].(flags := proc[slot].flags + {IsSystem});
      }
      proc[slot] := proc[slot].(endpoint := h.endpoint);
      proc[slot] := proc[slot].(pid := pid);
    }

    /** The status line part of `parse_file`. */
    method ReadStatus(slot: nat, s: Status)
      requires proc != null && slot < proc.Length
      modifies proc
      ensures proc[slot] == ApplyStatus(old(proc[slot]), s)
      ensures forall j :: 0 <= j < proc.Length && j != slot ==> proc[j] == old(proc[j])
    {
      proc[slot] := proc[slot].(name := TruncateName(s.name));
      proc[slot] := proc[slot].(blocked := s.blocked, priority := s.priority, userTime := s.userTime);
      if s.state != STATE_RUN {
        proc[slot] := proc[slot].(flags := proc[slot].flags + {Blocked});
      }
      proc[slot] := proc[slot].(cycles := proc[slot].cycles[0 := Make64(s.cyclesLo, s.cyclesHi)]);
      proc[slot] := proc[slot].(memory := 0);
    }

    /** The rest of `parse_file` once the account line (for a non-task) was
        read: owner, the remaining category counters, a task's memory, and
        USED last. */
    method ReadRest(slot: nat, rec: PsInfo)
      requires proc != null && slot < proc.Length
      requires !HasFlag(proc[slot], IsTask) ==> rec.account.Some?
      modifies proc
      ensures proc[slot] == Finish(old(proc[slot]), rec)
      ensures forall j :: 0 <= j < proc.Length && j != slot ==> proc[j] == old(proc[j])
    {
      if !HasFlag(proc[slot], IsTask) {
        var a := rec.account.value;
        proc[slot] := proc[slot].(memory := a.memory, nice := a.nice);
        proc[slot] := proc[slot].(effuid := a.effuid);
      } else {
        proc[slot] := proc[slot].(effuid := 0);
      }

      ghost var p2 := proc[slot];
      for i := 1 to NCategories
        invariant forall j :: 0 <= j < proc.Length && j != slot ==> proc[j] == old(proc[j])
        invariant proc[slot] == p2.(cycles := proc[slot].cycles)
        invariant proc[slot].cycles[0] == p2.cycles[0]
        invariant forall j :: 1 <= j < i ==> proc[slot].cycles[j] == CounterValue(CounterRead(rec, j))
      {
        var c := CounterRead(rec, i);
        if c.Some? {
          proc[slot] := proc[slot].(cycles := proc[slot].cycles[i := Make64(c.value.lo, c.value.hi)]);
        } else {
          proc[slot] := proc[slot].(cycles := proc[slot].cycles[i := 0]);
        }
      }
      assert proc[slot].cycles == [p2.cycles[0], CounterValue(CounterRead(rec, 1)), CounterValue(CounterRead(rec, 2))];

      if HasFlag(proc[slot], IsTask) {
        proc[slot] := proc[slot].(memory := if rec.taskMemory.Some? then rec.taskMemory.value else 0);
      }
      proc[slot] := proc[slot].(flags := proc[slot].flags + {Used});
    }

    /** The integer part of `print_procs(proc1, proc2, cputimemode)`: fills
        `tick_procs` with the USED slots of `proc2` and their ticks for
        `cputimemode`, sums every USED slot's category-0 ticks into
        `total_ticks`, and the ticks of non-task slots into `systemticks`
        or `userticks` by IS_SYSTEM. `report` is false when the procedure
        returns early because `total_ticks` is 0. */
    method PrintProcs(proc1: array<Proc>, proc2: array<Proc>, cputimemode: bv32)
      returns (report: bool, nprocs: nat, totalTicks: u64, systemTicks: u64, userTicks: u64)
      requires Valid()
      requires proc1.Length == nrTotal && proc2.Length == nrTotal
      modifies this`tickProcs, tickProcs
      ensures Valid() && tickProcs != null
      ensures old(tickProcs) != null ==> tickProcs == old(tickProcs)
      ensures old(tickProcs) == null ==> fresh(tickProcs)
      ensures nprocs <= nrTotal
      ensures tickProcs[..nprocs] == UsedEntries(proc1[..], proc2[..], cputimemode, nrTotal)
      ensures old(tickProcs) != null ==> tickProcs[nprocs..] == old(tickProcs[nprocs..])
      ensures totalTicks == UsedSum(proc1[..], proc2[..], 1, nrTotal) % TWO64
      ensures systemTicks == KindSum(proc1[..], proc2[..], cputimemode, nrTotal, SystemKind) % TWO64
      ensures userTicks == KindSum(proc1[..], proc2[..], cputimemode, nrTotal, UserKind) % TWO64
      ensures report <==> totalTicks != 0
    {
      if tickProcs == null {
        tickProcs := new TickProc[nrTotal];
      }
      var tp: array<TickProc> := tickProcs;
      nprocs, totalTicks, systemTicks, userTicks := 0, 0, 0, 0;
      ghost var s1, s2 := proc1[..], proc2[..];

      for p := 0 to nrTotal
        invariant tickProcs == tp
        invariant nprocs <= p
        invariant tp[..nprocs] == UsedEntries(s1, s2, cputimemode, p)
        invariant old(tickProcs) != null ==> tp[nprocs..] == old(tickProcs[nprocs..])
        invariant totalTicks == UsedSum(s1, s2, 1, p) % TWO64
        invariant systemTicks == KindSum(s1, s2, cputimemode, p, SystemKind) % TWO64
        invariant userTicks == KindSum(s1, s2, cputimemode, p, UserKind) % TWO64
      {
        Step(s1, s2, cputimemode, p);
        AccumulateStep(s1, s2, cputimemode, p, totalTicks, systemTicks, userTicks);
        if !IsUsed(proc2[p]) {
          continue;
        }
        var ticks := CpuTicks(proc1[p], proc2[p], cputimemode);
        Record(tp, nprocs, TickProc(p, ticks));
        var uticks := CpuTicks(proc1[p], proc2[p], 1);
        totalTicks := Add64(totalTicks, uticks);
        if !HasFlag(proc2[p], IsTask) {
          if HasFlag(proc2[p], IsSystem) {
            systemTicks := Add64(systemTicks, ticks);
          } else {
            userTicks := Add64(userTicks, ticks);
          }
        }
        nprocs := nprocs + 1;
      }

      report := totalTicks != 0;
    }
  }
}
