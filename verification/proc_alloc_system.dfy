/** Several wasm instances sharing one slot table.

Every instance (one ARINC 653 process running on its own host thread) has
its own `__stack_pointer`, `__tls_base` and `__apex_wasm_proc_ptr` globals,
while `__proc_slots` and `__proc_used` live in the shared linear memory.
Calls are interleaved at the granularity of whole exported calls.

The `owner` map is bookkeeping of the model, not state of the program: it
records which instance each taken slot was handed to, so that mutual
exclusion can be stated. The first half runs the corrected allocator
(`AllocFixed`, which records `i + 1` in `proc_ptr`). The second half runs
the header as written: there `proc_ptr` stays 0, every free traps, and a
context is known to hold a slot only through its TLS base.
 */
module ProcAllocSystem {
  import opened Wrappers
  import opened ProcAlloc

  /** Identity of a wasm instance. */
  type Context = nat

  datatype System = System(shared: Shared, regs: map<Context, Regs>, owner: map<nat, Context>)

  /** Context c believes it holds slot `proc_ptr - 1`: the owner map agrees
      and its TLS base is that slot's. */
  predicate HoldsCurrent(s: System, c: Context)
    requires ValidShared(s.shared) && c in s.regs && s.regs[c].procPtr != 0
  {
    var k := s.regs[c].procPtr - 1;
    && k < MAX_PROCS
    && k in s.owner && s.owner[k] == c
    && s.regs[c].tlsBase == SlotBase(s.shared, k)
  }

  /** A flag is set exactly for the slots that have an owner, every owner
      is a known context, and every context whose `proc_ptr` is non-zero
      holds the slot it names. */
  predicate Inv(s: System)
  {
    && ValidShared(s.shared)
    && (forall i :: i in s.owner ==> i < MAX_PROCS && s.shared.used[i] && s.owner[i] in s.regs)
    && (forall i :: 0 <= i < MAX_PROCS && s.shared.used[i] ==> i in s.owner)
    && (forall c :: c in s.regs && s.regs[c].procPtr != 0 ==> HoldsCurrent(s, c))
  }

  /** Start-up: all flags clear, every instance with `proc_ptr == 0`. */
  function Init(sh: Shared, contexts: set<Context>, r0: Regs): (s: System)
    requires ValidShared(sh) && AllFree(sh.used) && r0.procPtr == 0
    ensures Inv(s)
    ensures s.regs.Keys == contexts && s.owner == map[]
  {
    System(sh, map c | c in contexts :: r0, map[])
  }

  /** Context c calls `__apex_wasm_proc_alloc`. On success it is recorded as
      the owner of a slot nobody owned before, and nothing else about the
      ownership changes; on failure every slot was owned and nothing changes. */
  function SysAlloc(s: System, c: Context): (r: (bool, System))
    requires Inv(s) && c in s.regs
    ensures Inv(r.1)
    ensures r.1.regs.Keys == s.regs.Keys
    ensures r.0 ==> LowestFree(s.shared.used).Some?
    ensures r.0 ==> var k := LowestFree(s.shared.used).value;
                    k !in s.owner && r.1.owner == s.owner[k := c] && r.1.regs[c].procPtr == k + 1
    ensures !r.0 ==> r.1 == s && forall i :: 0 <= i < MAX_PROCS ==> i in s.owner
    ensures forall d :: d in s.regs && d != c ==> r.1.regs[d] == s.regs[d]
  {
    var st := AllocFixed(Machine(s.shared, s.regs[c]));
    if st.ok then
      var k := LowestFree(s.shared.used).value;
      var s' := System(st.m.shared, s.regs[c := st.m.regs], s.owner[k := c]);
      AllocKeepsInv(s, c, st.m, k);
      (true, s')
    else
      (false, s)
  }

  /** Slot addresses depend only on where the table was linked. */
  lemma SlotBaseDependsOnLayoutOnly(a: Shared, b: Shared, i: nat)
    requires ValidShared(a) && ValidShared(b) && SameLayout(a, b) && i < MAX_PROCS
    ensures SlotBase(a, i) == SlotBase(b, i)
  {
  }

  lemma AllocKeepsInv(s: System, c: Context, m': Machine, k: nat)
    requires Inv(s) && c in s.regs && k < MAX_PROCS && !s.shared.used[k]
    requires Valid(m') && SameLayout(m'.shared, s.shared)
    requires m'.shared.used == s.shared.used[k := true]
    requires BoundTo(m'.shared, m'.regs, k) && m'.regs.procPtr == k + 1
    ensures Inv(System(m'.shared, s.regs[c := m'.regs], s.owner[k := c]))
  {
    var s' := System(m'.shared, s.regs[c := m'.regs], s.owner[k := c]);
    assert k !in s.owner;
    forall d | d in s'.regs && s'.regs[d].procPtr != 0
      ensures HoldsCurrent(s', d)
    {
      if d != c {
        assert HoldsCurrent(s, d);
        var kd := s.regs[d].procPtr - 1;
        assert kd != k;
        SlotBaseDependsOnLayoutOnly(s.shared, s'.shared, kd);
      }
    }
  }

  /** Context c calls `__apex_wasm_proc_free`: None stands for the trap.
      It traps iff c holds nothing; otherwise exactly the slot c holds loses
      its owner, and every other slot keeps its owner. */
  function SysFree(s: System, c: Context): (r: Option<System>)
    requires Inv(s) && c in s.regs
    ensures r.None? <==> s.regs[c].procPtr == 0
    ensures r.Some? ==> Inv(r.value) && r.value.regs.Keys == s.regs.Keys
    ensures r.Some? ==> var k := s.regs[c].procPtr - 1;
                        k in s.owner && s.owner[k] == c && r.value.owner == s.owner - {k}
    ensures r.Some? ==> forall d :: d in s.regs && d != c ==> r.value.regs[d] == s.regs[d]
  {
    var out := Free(Machine(s.shared, s.regs[c]));
    if out.Trapped? then None
    else
      assert HoldsCurrent(s, c);
      var k := s.regs[c].procPtr - 1;
      FreeKeepsInv(s, c, out.m, k);
      Some(System(out.m.shared, s.regs[c := out.m.regs], s.owner - {k}))
  }

  lemma FreeKeepsInv(s: System, c: Context, m': Machine, k: nat)
    requires Inv(s) && c in s.regs && s.regs[c].procPtr == k + 1 && HoldsCurrent(s, c)
    requires Valid(m') && SameLayout(m'.shared, s.shared) && m'.regs.procPtr == 0
    requires !m'.shared.used[k] && OthersUnchanged(s.shared.used, m'.shared.used, k)
    ensures Inv(System(m'.shared, s.regs[c := m'.regs], s.owner - {k}))
  {
    var s' := System(m'.shared, s.regs[c := m'.regs], s.owner - {k});
    forall i | 0 <= i < MAX_PROCS && s'.shared.used[i]
      ensures i in s'.owner
    {
      assert i != k;
      assert s.shared.used[i];
    }
    forall d | d in s'.regs && s'.regs[d].procPtr != 0
      ensures HoldsCurrent(s', d)
    {
      assert d != c && HoldsCurrent(s, d);
      SlotBaseDependsOnLayoutOnly(s.shared, s'.shared, s.regs[d].procPtr - 1);
    }
  }

  /** Mutual exclusion: two different contexts that both believe they hold
      a slot hold different slots, and their slot regions do not overlap. */
  lemma MutualExclusion(s: System, c1: Context, c2: Context)
    requires Inv(s) && c1 in s.regs && c2 in s.regs && c1 != c2
    requires s.regs[c1].procPtr != 0 && s.regs[c2].procPtr != 0
    ensures s.regs[c1].procPtr != s.regs[c2].procPtr
    ensures s.regs[c1].tlsBase + SLOT_SIZE <= s.regs[c2].tlsBase
         || s.regs[c2].tlsBase + SLOT_SIZE <= s.regs[c1].tlsBase
  {
    assert HoldsCurrent(s, c1) && HoldsCurrent(s, c2);
    var k1 := s.regs[c1].procPtr - 1;
    var k2 := s.regs[c2].procPtr - 1;
    assert k1 != k2;
    SlotsDisjoint(s.shared, k1, k2);
  }

  /** One interleaved call of either operation. */
  datatype Call = AllocCall(c: Context) | FreeCall(c: Context)

  /** Runs a schedule of calls; a call by an unknown context, or a trapping
      free, leaves the state as it is (the trap ends that instance's call). */
  function Run(s: System, calls: seq<Call>): (r: System)
    requires Inv(s)
    ensures Inv(r) && r.regs.Keys == s.regs.Keys
    decreases |calls|
  {
    if calls == [] then s
    else
      var next :=
        match calls[0]
        case AllocCall(c) => if c in s.regs then SysAlloc(s, c).1 else s
        case FreeCall(c) =>
          if c in s.regs then (var f := SysFree(s, c); if f.Some? then f.value else s) else s;
      Run(next, calls[1..])
  }

  /** For every schedule of alloc and free calls from the start-up state, no
      two contexts ever believe they hold the same slot. */
  lemma NoScheduleBreaksExclusion(sh: Shared, contexts: set<Context>, r0: Regs, calls: seq<Call>,
                                  c1: Context, c2: Context)
    requires ValidShared(sh) && AllFree(sh.used) && r0.procPtr == 0
    requires var s := Run(Init(sh, contexts, r0), calls);
             c1 in s.regs && c2 in s.regs && c1 != c2
             && s.regs[c1].procPtr != 0 && s.regs[c2].procPtr != 0
    ensures var s := Run(Init(sh, contexts, r0), calls);
            s.regs[c1].procPtr != s.regs[c2].procPtr
  {
    MutualExclusion(Run(Init(sh, contexts, r0), calls), c1, c2);
  }

  // ---------------------------------------------------------------------
  // The header as written: alloc never stores to `proc_ptr`.
  // ---------------------------------------------------------------------

  /** Context c runs on slot k: its TLS base is slot k's. */
  predicate RunsOn(s: System, c: Context, k: nat)
    requires ValidShared(s.shared) && c in s.regs && k < MAX_PROCS
  {
    s.regs[c].tlsBase == SlotBase(s.shared, k)
  }

  /** A flag is set exactly for the slots that have an owner, every
      `proc_ptr` is 0, and a context running on a slot was handed that
      slot. */
  predicate InvAsWritten(s: System)
  {
    && ValidShared(s.shared)
    && (forall i :: i in s.owner ==> i < MAX_PROCS && s.shared.used[i] && s.owner[i] in s.regs)
    && (forall i :: 0 <= i < MAX_PROCS && s.shared.used[i] ==> i in s.owner)
    && (forall c :: c in s.regs ==> s.regs[c].procPtr == 0)
    && (forall c, k :: c in s.regs && 0 <= k < MAX_PROCS && RunsOn(s, c, k) ==> k in s.owner && s.owner[k] == c)
  }

  /** Start-up for the header as written, where no instance yet runs on a
      slot: its TLS base is none of the slots'. */
  function InitAsWritten(sh: Shared, contexts: set<Context>, r0: Regs): (s: System)
    requires ValidShared(sh) && AllFree(sh.used) && r0.procPtr == 0
    requires forall k :: 0 <= k < MAX_PROCS ==> r0.tlsBase != SlotBase(sh, k)
    ensures InvAsWritten(s)
    ensures s.regs.Keys == contexts && s.owner == map[] && s.shared == sh
  {
    var s := Init(sh, contexts, r0);
    assert forall c, k :: c in s.regs && 0 <= k < MAX_PROCS ==> !RunsOn(s, c, k);
    s
  }

  /** Context c calls `__apex_wasm_proc_alloc` as written. On success it
      runs on, and owns, a slot nobody owned before; `proc_ptr` stays 0. */
  function SysAllocAsWritten(s: System, c: Context): (r: (bool, System))
    requires InvAsWritten(s) && c in s.regs
    ensures InvAsWritten(r.1)
    ensures r.1.regs.Keys == s.regs.Keys && SameLayout(r.1.shared, s.shared)
    ensures r.0 ==> LowestFree(s.shared.used).Some?
    ensures r.0 ==> var k := LowestFree(s.shared.used).value;
                    k !in s.owner && r.1.owner == s.owner[k := c] && RunsOn(r.1, c, k)
    ensures !r.0 ==> r.1 == s && forall i :: 0 <= i < MAX_PROCS ==> i in s.owner
    ensures forall d :: d in s.regs && d != c ==> r.1.regs[d] == s.regs[d]
    ensures forall i :: 0 <= i < MAX_PROCS && s.shared.used[i] ==> r.1.shared.used[i]
  {
    var st := Alloc(Machine(s.shared, s.regs[c]));
    if st.ok then
      var k := LowestFree(s.shared.used).value;
      AllocAsWrittenKeepsInv(s, c, st.m, k);
      (true, System(st.m.shared, s.regs[c := st.m.regs], s.owner[k := c]))
    else
      (false, s)
  }

  lemma AllocAsWrittenKeepsInv(s: System, c: Context, m': Machine, k: nat)
    requires InvAsWritten(s) && c in s.regs && k < MAX_PROCS && !s.shared.used[k]
    requires Valid(m') && SameLayout(m'.shared, s.shared)
    requires m'.shared.used == s.shared.used[k := true]
    requires BoundTo(m'.shared, m'.regs, k) && m'.regs.procPtr == 0
    ensures InvAsWritten(System(m'.shared, s.regs[c := m'.regs], s.owner[k := c]))
  {
    var s' := System(m'.shared, s.regs[c := m'.regs], s.owner[k := c]);
    assert k !in s.owner;
    forall d, j | d in s'.regs && 0 <= j < MAX_PROCS && RunsOn(s', d, j)
      ensures j in s'.owner && s'.owner[j] == d
    {
      SlotBaseDependsOnLayoutOnly(s.shared, s'.shared, j);
      if d == c {
        if j != k {
          SlotsDisjoint(s'.shared, j, k);
        }
      } else {
        assert RunsOn(s, d, j);
      }
    }
  }

  /** Context c calls `__apex_wasm_proc_free` as written: `proc_ptr` is 0,
      so it always traps (None) and no slot is ever released. */
  function SysFreeAsWritten(s: System, c: Context): (r: Option<System>)
    requires InvAsWritten(s) && c in s.regs
    ensures r.None?
  {
    var out := Free(Machine(s.shared, s.regs[c]));
    if out.Trapped? then None else assert false; None
  }

  /** Runs a schedule of calls against the header as written. Every free
      traps (`SysFreeAsWritten`) and leaves the state as it is, so flags are
      only ever set and an owner is never replaced: slots are never
      recycled. */
  function RunAsWritten(s: System, calls: seq<Call>): (r: System)
    requires InvAsWritten(s)
    ensures InvAsWritten(r) && r.regs.Keys == s.regs.Keys
    ensures forall i :: 0 <= i < MAX_PROCS && s.shared.used[i] ==> r.shared.used[i]
    ensures forall i :: i in s.owner ==> i in r.owner && r.owner[i] == s.owner[i]
    decreases |calls|
  {
    if calls == [] then s
    else
      var next :=
        match calls[0]
        case AllocCall(c) => if c in s.regs then SysAllocAsWritten(s, c).1 else s
        case FreeCall(_) => s;
      RunAsWritten(next, calls[1..])
  }

  /** Mutual exclusion for the header as written: two different contexts
      running on slots run on different slots, whose regions do not
      overlap. */
  lemma MutualExclusionAsWritten(s: System, c1: Context, c2: Context, k1: nat, k2: nat)
    requires InvAsWritten(s) && c1 in s.regs && c2 in s.regs && c1 != c2
    requires k1 < MAX_PROCS && k2 < MAX_PROCS && RunsOn(s, c1, k1) && RunsOn(s, c2, k2)
    ensures k1 != k2
    ensures s.regs[c1].tlsBase + SLOT_SIZE <= s.regs[c2].tlsBase
         || s.regs[c2].tlsBase + SLOT_SIZE <= s.regs[c1].tlsBase
  {
    assert s.owner[k1] == c1 && s.owner[k2] == c2;
    SlotsDisjoint(s.shared, k1, k2);
  }

  /** For every schedule of alloc and free calls from start-up, the header
      as written never lets two contexts run on the same slot. */
  lemma NoScheduleBreaksExclusionAsWritten(sh: Shared, contexts: set<Context>, r0: Regs, calls: seq<Call>,
                                           c1: Context, c2: Context, k1: nat, k2: nat)
    requires ValidShared(sh) && AllFree(sh.used) && r0.procPtr == 0
    requires forall k :: 0 <= k < MAX_PROCS ==> r0.tlsBase != SlotBase(sh, k)
    requires k1 < MAX_PROCS && k2 < MAX_PROCS
    requires var s := RunAsWritten(InitAsWritten(sh, contexts, r0), calls);
             c1 in s.regs && c2 in s.regs && c1 != c2 && RunsOn(s, c1, k1) && RunsOn(s, c2, k2)
    ensures k1 != k2
  {
    MutualExclusionAsWritten(RunAsWritten(InitAsWritten(sh, contexts, r0), calls), c1, c2, k1, k2);
  }
}
