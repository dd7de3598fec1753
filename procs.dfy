/** One slot of the process table (`struct proc`) and its flag word. */
module Procs {
  import opened U64

  /** `CPUTIMENAMES`: the cycle categories "user", "ipc" and "kernelcall",
      in the order the process files list them. */
  const NCategories: nat := 3

  /** `p_cpucycles`: one 64-bit counter per category. */
  type Cycles = c: seq<u64> | |c| == NCategories witness [0, 0, 0]

  /** The bits of `p_flags`: USED (0x1), IS_TASK (0x2), IS_SYSTEM (0x4) and
      BLOCKED (0x8). The word is cleared to 0 before a slot is filled and
      only these bits are ever or-ed into it, so it is modelled as the set
      of bits that are on. */
  datatype Flag = Used | IsTask | IsSystem | Blocked

  /** `struct proc`. Display-only fields keep unbounded integer types. */
  datatype Proc = Proc(
    flags: set<Flag>,
    endpoint: int,
    pid: int,
    cycles: Cycles,
    priority: int,
    blocked: int,
    userTime: int,
    memory: int,
    effuid: int,
    nice: int,
    name: string)

  /** `p->p_flags & bit`. */
  predicate HasFlag(p: Proc, bit: Flag) {
    bit in p.flags
  }

  predicate IsUsed(p: Proc) { HasFlag(p, Used) }

  /** The three mutually exclusive ways the accounting loop treats a slot. */
  datatype Kind = TaskKind | SystemKind | UserKind

  /** The tests of the accounting loop: IS_TASK first, then IS_SYSTEM. */
  function KindOf(p: Proc): (k: Kind)
    ensures k == TaskKind <==> HasFlag(p, IsTask)
    ensures k == SystemKind <==> !HasFlag(p, IsTask) && HasFlag(p, IsSystem)
    ensures k == UserKind <==> !HasFlag(p, IsTask) && !HasFlag(p, IsSystem)
  {
    if HasFlag(p, IsTask) then TaskKind
    else if HasFlag(p, IsSystem) then SystemKind
    else UserKind
  }

  /** `CPUTIME(m, i)`: is category `i` selected by the mask `m`? Category
      0 ("user") is bit 0x1, "ipc" 0x2 and "kernelcall" 0x4. */
  function Selected(mode: bv32, i: nat): (b: bool)
    requires i < NCategories
    ensures i == 0 ==> (b <==> mode & 1 != 0)
    ensures i == 1 ==> (b <==> mode & 2 != 0)
    ensures i == 2 ==> (b <==> mode & 4 != 0)
  {
    mode & ((1 as bv32) << i) != 0
  }
}
