/** What `parse_file` (top.c) writes into a table slot, given the values it
    scanned from a process's psinfo file. Each read of the file is an
    optional value: `None` stands for a read that failed. */
module Psinfo {
  import opened U64
  import opened Procs

  datatype Option<T> = None | Some(value: T)

  /** Constants of <minix/procfs.h> and <minix/const.h>, with the values
      MINIX 3 gives them. The proofs only rely on TYPE_TASK != TYPE_SYSTEM. */
  const PSINFO_VERSION: int := 0
  const TYPE_TASK: char := 'T'
  const TYPE_SYSTEM: char := 'S'
  const STATE_RUN: char := 'R'
  const PROC_NAME_LEN: nat := 16

  /** `" %c %d"`: process type and endpoint. */
  datatype Header = Header(kind: char, endpoint: int)

  /** `" %255s %c %d %d %lu %*u %lu %lu"`: name, state, blocked-on endpoint,
      priority, user time and the two halves of the category-0 counter. */
  datatype Status = Status(
    name: string, state: char, blocked: int, priority: int, userTime: int,
    cyclesHi: u32, cyclesLo: u32)

  /** The line read for non-task processes: memory, effective uid, nice. */
  datatype Account = Account(memory: int, effuid: int, nice: int)

  /** `" %lu %lu"`: the halves of one further category counter. */
  datatype Counter = Counter(hi: u32, lo: u32)

  /** One psinfo file as the successive reads of `parse_file` see it.
      `counters[j]` is the read for category `j + 1`; a missing entry is a
      failed read. */
  datatype PsInfo = PsInfo(
    version: Option<int>,
    header: Option<Header>,
    status: Option<Status>,
    account: Option<Account>,
    counters: seq<Option<Counter>>,
    taskMemory: Option<int>)

  /** The read of category `i` (1 <= i). */
  function CounterRead(rec: PsInfo, i: nat): Option<Counter> {
    if 1 <= i && i - 1 < |rec.counters| then rec.counters[i - 1] else None
  }

  /** A category counter: `make64(lo, hi)` when read, 0 otherwise. */
  function CounterValue(c: Option<Counter>): (r: u64)
    ensures c.None? ==> r == 0
    ensures c.Some? ==> r == c.value.hi * TWO32 + c.value.lo
  {
    match c
    case Some(k) => Make64(k.lo, k.hi)
    case None => 0
  }

  /** `strncpy` into `p_name[PROC_NAME_LEN + 1]` followed by a terminator. */
  function TruncateName(name: string): (r: string)
    ensures |r| == if |name| <= PROC_NAME_LEN then |name| else PROC_NAME_LEN
    ensures r == name[..|r|]
    ensures |name| <= PROC_NAME_LEN ==> r == name
  {
    if |name| <= PROC_NAME_LEN then name else name[..PROC_NAME_LEN]
  }

  /** The flag the process type adds: IS_TASK, IS_SYSTEM or none. */
  function TypeFlag(kind: char): set<Flag> {
    if kind == TYPE_TASK then {IsTask} else if kind == TYPE_SYSTEM then {IsSystem} else {}
  }

  /** Whether the slot counts as a task once the type was stamped. */
  predicate TaskAfterStamp(p: Proc, h: Header) {
    HasFlag(p, IsTask) || h.kind == TYPE_TASK
  }

  /** Whether every required read succeeded, so that USED gets set: the
      status line, and for a slot that is not a task the account line. */
  predicate Completes(p: Proc, h: Header, rec: PsInfo) {
    rec.status.Some? && (TaskAfterStamp(p, h) || rec.account.Some?)
  }

  /** The type flag, endpoint and pid, written as soon as the header is read. */
  function Stamp(p: Proc, pid: int, h: Header): (q: Proc)
    ensures q == p.(flags := q.flags, endpoint := h.endpoint, pid := pid)
    ensures HasFlag(q, IsTask) <==> TaskAfterStamp(p, h)
    ensures HasFlag(q, IsSystem) <==> HasFlag(p, IsSystem) || h.kind == TYPE_SYSTEM
    ensures HasFlag(q, Blocked) == HasFlag(p, Blocked) && IsUsed(q) == IsUsed(p)
    ensures p.flags <= q.flags
  {
    p.(flags := p.flags + TypeFlag(h.kind), endpoint := h.endpoint, pid := pid)
  }

  /** The fields taken from the status line: name, blocked-on endpoint,
      priority, user time, BLOCKED unless running, the category-0 counter,
      and memory reset to 0. */
  function ApplyStatus(q: Proc, s: Status): (r: Proc)
    ensures r == q.(flags := r.flags, name := TruncateName(s.name), blocked := s.blocked,
                    priority := s.priority, userTime := s.userTime,
                    cycles := q.cycles[0 := s.cyclesHi * TWO32 + s.cyclesLo], memory := 0)
    ensures HasFlag(r, Blocked) <==> HasFlag(q, Blocked) || s.state != STATE_RUN
    ensures HasFlag(r, IsTask) == HasFlag(q, IsTask) && HasFlag(r, IsSystem) == HasFlag(q, IsSystem)
    ensures IsUsed(r) == IsUsed(q)
    ensures q.flags <= r.flags
  {
    var q1 := q.(name := TruncateName(s.name), blocked := s.blocked,
                 priority := s.priority, userTime := s.userTime);
    var q2 := if s.state != STATE_RUN then q1.(flags := q1.flags + {Blocked}) else q1;
    q2.(cycles := q2.cycles[0 := Make64(s.cyclesLo, s.cyclesHi)], memory := 0)
  }

  /** The rest of a complete file: the account line or, for a task, uid 0;
      the remaining categories (0 when unread); a task's memory (0 when
      unread); and finally USED. */
  function Finish(q: Proc, rec: PsInfo): (r: Proc)
    requires !HasFlag(q, IsTask) ==> rec.account.Some?
    ensures r.cycles == [q.cycles[0], CounterValue(CounterRead(rec, 1)), CounterValue(CounterRead(rec, 2))]
    ensures HasFlag(q, IsTask) ==>
      r == q.(flags := r.flags, cycles := r.cycles, effuid := 0,
              memory := match rec.taskMemory case Some(m) => m case None => 0)
    ensures !HasFlag(q, IsTask) ==>
      r == q.(flags := r.flags, cycles := r.cycles, memory := rec.account.value.memory,
              effuid := rec.account.value.effuid, nice := rec.account.value.nice)
    ensures IsUsed(r)
    ensures HasFlag(r, IsTask) == HasFlag(q, IsTask) && HasFlag(r, IsSystem) == HasFlag(q, IsSystem)
    ensures HasFlag(r, Blocked) == HasFlag(q, Blocked)
    ensures q.flags <= r.flags
  {
    var q1 := if !HasFlag(q, IsTask)
              then q.(memory := rec.account.value.memory, effuid := rec.account.value.effuid,
                      nice := rec.account.value.nice)
              else q.(effuid := 0);
    var q2 := q1.(cycles := [q1.cycles[0], CounterValue(CounterRead(rec, 1)),
                             CounterValue(CounterRead(rec, 2))]);
    var q3 := if HasFlag(q2, IsTask)
              then q2.(memory := match rec.taskMemory case Some(m) => m case None => 0)
              else q2;
    q3.(flags := q3.flags + {Used})
  }

  /** The slot `p` after `parse_file` found header `h` for `pid` and went on
      reading `rec`, up to the first failed required read. */
  function Populate(p: Proc, pid: int, h: Header, rec: PsInfo): (r: Proc)
    // identity and type are written before any further read
    ensures r.endpoint == h.endpoint && r.pid == pid
    ensures HasFlag(r, IsTask) <==> TaskAfterStamp(p, h)
    ensures HasFlag(r, IsSystem) <==> HasFlag(p, IsSystem) || h.kind == TYPE_SYSTEM
    ensures HasFlag(r, Blocked) <==>
      HasFlag(p, Blocked) || (rec.status.Some? && rec.status.value.state != STATE_RUN)
    // USED only after every required read
    ensures IsUsed(r) <==> IsUsed(p) || Completes(p, h, rec)
    // flags are only ever added
    ensures p.flags <= r.flags
    // a short status line leaves every other field as it was
    ensures rec.status.None? ==> r == p.(flags := r.flags, endpoint := h.endpoint, pid := pid)
    ensures rec.status.Some? ==>
      var s := rec.status.value;
      && r.cycles[0] == s.cyclesHi * TWO32 + s.cyclesLo
      && r.name == TruncateName(s.name)
      && r.blocked == s.blocked && r.priority == s.priority && r.userTime == s.userTime
    // the other categories: read or 0 once complete, stale otherwise
    ensures Completes(p, h, rec) ==>
      forall i :: 1 <= i < NCategories ==> r.cycles[i] == CounterValue(CounterRead(rec, i))
    ensures !Completes(p, h, rec) ==> r.cycles[1..] == p.cycles[1..]
    // memory and owner
    ensures rec.status.Some? && !Completes(p, h, rec) ==> r.memory == 0 && r.effuid == p.effuid
    ensures Completes(p, h, rec) && TaskAfterStamp(p, h) ==>
      r.effuid == 0 && r.memory == (match rec.taskMemory case Some(m) => m case None => 0)
    ensures Completes(p, h, rec) && !TaskAfterStamp(p, h) ==>
      r.memory == rec.account.value.memory && r.effuid == rec.account.value.effuid
      && r.nice == rec.account.value.nice
    ensures !(Completes(p, h, rec) && !TaskAfterStamp(p, h)) ==> r.nice == p.nice
  {
    var q := Stamp(p, pid, h);
    match rec.status
    case None => q
    case Some(s) =>
      var q1 := ApplyStatus(q, s);
      if !HasFlag(q1, IsTask) && rec.account.None? then q1
      else Finish(q1, rec)
  }

  /** A slot whose flags `get_procs` cleared: it is USED exactly when every
      required read succeeded, BLOCKED exactly when the state read is not
      running, and the kind the accounting loop sees is the type read from
      the file. */
  lemma ClearedSlot(p: Proc, pid: int, h: Header, rec: PsInfo)
    requires p.flags == {}
    ensures var r := Populate(p, pid, h, rec);
      && (IsUsed(r) <==> Completes(p, h, rec))
      && (HasFlag(r, Blocked) <==> rec.status.Some? && rec.status.value.state != STATE_RUN)
      && KindOf(r) == (if h.kind == TYPE_TASK then TaskKind
                       else if h.kind == TYPE_SYSTEM then SystemKind else UserKind)
  {
  }
}
