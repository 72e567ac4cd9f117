/** The per-process slot allocator of `wasm_apex_proc_alloc.h`.

ARINC 653 processes of one partition share one linear memory (ARINC 653
Part 1, sections 2.3.4 and 3.5), so every process needs its own slice of it
for the compiler's secondary ("linear") stack and for thread-local storage.
The header reserves a fixed table of MAX_PROCS slots `{tls[TLS_SIZE];
ss[SS_SIZE]}` plus one atomic "used" flag per slot, and exports three
functions:

- `__apex_wasm_set_regs(i)`: compare-and-swap flag i from false to true; on
  success point `__stack_pointer` and `__tls_base` into slot i;
- `__apex_wasm_proc_alloc()`: try set_regs(0), set_regs(1), ... and stop at
  the first success;
- `__apex_wasm_proc_free()`: trap if `__apex_wasm_proc_ptr` is 0, otherwise
  poison both registers, clear flag `proc_ptr - 1` and reset `proc_ptr`.

Each exported call is modelled as one atomic step on a Machine: the shared
part (slot table address, flag array address, flags) and the three wasm
globals of the calling instance. Addresses are 32-bit wasm32 addresses.

The code as written never stores to `__apex_wasm_proc_ptr` outside `free`;
the members without a suffix model exactly that, and the `...Fixed` members
model the evidently intended protocol in which a successful set_regs(i)
records `i + 1` there.
 */
module ProcAlloc {
  import opened Wrappers
  import opened Ints

  /** Default `MAX_PROCS`: number of slots. */
  const MAX_PROCS: nat := 128
  /** Default `SS_SIZE`: 64 KiB of secondary stack per slot. */
  const SS_SIZE: nat := 0x10000
  /** Default `TLS_SIZE`: 4 KiB of thread-local storage per slot. */
  const TLS_SIZE: nat := 0x1000
  /** `sizeof(struct __apex_wasm_proc)`: two byte arrays, so no padding. */
  const SLOT_SIZE: nat := TLS_SIZE + SS_SIZE

  /** What `free` writes into `__stack_pointer`. */
  const POISONED_STACK_POINTER: U32 := 0
  /** What `free` writes into `__tls_base`: `0xffffffff - sizeof(tls)`. */
  const POISONED_TLS_BASE: U32 := 0xffff_ffff - TLS_SIZE

  /** Memory shared by all instances: where the two arrays were linked, and
      the contents of `__proc_used`. */
  datatype Shared = Shared(slotsBase: U32, markersBase: U32, used: seq<bool>)

  /** The three per-instance globals touched by the allocator. */
  datatype Regs = Regs(stackPointer: U32, tlsBase: U32, procPtr: U32)

  datatype Machine = Machine(shared: Shared, regs: Regs)

  /** Result of set_regs / alloc: the returned `_Bool` and the new state. */
  datatype Step = Step(ok: bool, m: Machine)

  /** Result of free: a normal return, a return whose flag store landed
      outside `__proc_used` (at `address`), or an `unreachable` trap. */
  datatype FreeOutcome =
    | Freed(m: Machine)
    | StrayStore(m: Machine, address: U32)
    | Trapped

  /** The flag array has MAX_PROCS entries and both arrays fit in the
      32-bit address space. */
  predicate ValidShared(sh: Shared)
  {
    && |sh.used| == MAX_PROCS
    && sh.slotsBase + MAX_PROCS * SLOT_SIZE <= U32_LIMIT
    && sh.markersBase + MAX_PROCS <= U32_LIMIT
  }

  predicate Valid(m: Machine)
  {
    ValidShared(m.shared)
  }

  /** Linking is fixed: no operation moves the arrays. */
  predicate SameLayout(a: Shared, b: Shared)
  {
    a.slotsBase == b.slotsBase && a.markersBase == b.markersBase
  }

  lemma SlotOffsetBound(i: nat)
    requires i < MAX_PROCS
    ensures i * SLOT_SIZE + SLOT_SIZE <= MAX_PROCS * SLOT_SIZE
  {
    assert i * SLOT_SIZE + SLOT_SIZE == (i + 1) * SLOT_SIZE;
  }

  /** `&__proc_slots[i]`, which is also `&__proc_slots[i].tls`. */
  function SlotBase(sh: Shared, i: nat): (a: U32)
    requires ValidShared(sh) && i < MAX_PROCS
    ensures sh.slotsBase <= a
    ensures a + SLOT_SIZE <= sh.slotsBase + MAX_PROCS * SLOT_SIZE
  {
    SlotOffsetBound(i);
    sh.slotsBase + i * SLOT_SIZE
  }

  /** `&__proc_slots[i].ss[SS_SIZE - 8]`: the initial stack pointer of slot i.
      It lies strictly inside the slot's `ss` area, which follows its `tls`
      area, eight bytes below the end of the slot. */
  function StackTop(sh: Shared, i: nat): (a: U32)
    requires ValidShared(sh) && i < MAX_PROCS
    ensures SlotBase(sh, i) + TLS_SIZE < a < SlotBase(sh, i) + SLOT_SIZE
    ensures a + 8 == SlotBase(sh, i) + SLOT_SIZE
  {
    SlotBase(sh, i) + TLS_SIZE + (SS_SIZE - 8)
  }

  /** The registers point into slot i. */
  predicate BoundTo(sh: Shared, r: Regs, i: nat)
    requires ValidShared(sh) && i < MAX_PROCS
  {
    r.tlsBase == SlotBase(sh, i) && r.stackPointer == StackTop(sh, i)
  }

  /** Only flag i may differ between the two flag arrays. */
  predicate OthersUnchanged(before: seq<bool>, after: seq<bool>, i: nat)
  {
    |after| == |before| && forall j :: 0 <= j < |before| && j != i ==> after[j] == before[j]
  }

  /** `__apex_wasm_set_regs(i)`. There is no bounds check in the source, so
      `i < MAX_PROCS` is the caller's obligation. */
  function SetRegs(m: Machine, i: nat): (r: Step)
    requires Valid(m) && i < MAX_PROCS
    ensures Valid(r.m) && SameLayout(r.m.shared, m.shared)
    ensures r.ok <==> !m.shared.used[i]
    ensures r.m.shared.used[i]
    ensures OthersUnchanged(m.shared.used, r.m.shared.used, i)
    ensures r.ok ==> BoundTo(r.m.shared, r.m.regs, i)
    ensures !r.ok ==> r.m == m
    ensures r.m.regs.procPtr == m.regs.procPtr
  {
    if !m.shared.used[i] then
      var sh := m.shared.(used := m.shared.used[i := true]);
      Step(true, Machine(sh, Regs(StackTop(sh, i), SlotBase(sh, i), m.regs.procPtr)))
    else
      Step(false, m)
  }

  /** Reference definition: the lowest index whose flag is false. */
  function LowestFreeFrom(used: seq<bool>, from: nat): (r: Option<nat>)
    requires from <= |used|
    ensures r.Some? ==> from <= r.value < |used| && !used[r.value]
    ensures r.Some? ==> forall j :: from <= j < r.value ==> used[j]
    ensures r.None? <==> forall j :: from <= j < |used| ==> used[j]
    decreases |used| - from
  {
    if from == |used| then None
    else if !used[from] then Some(from)
    else LowestFreeFrom(used, from + 1)
  }

  function LowestFree(used: seq<bool>): (r: Option<nat>)
    ensures r.Some? ==> r.value < |used| && !used[r.value]
    ensures r.Some? ==> forall j :: 0 <= j < r.value ==> used[j]
    ensures r.None? <==> forall j :: 0 <= j < |used| ==> used[j]
  {
    LowestFreeFrom(used, 0)
  }

  /** The `for (i = from; i < MAX_PROCS; i++)` scan of alloc, entered at `from`. */
  function AllocFrom(m: Machine, from: nat): (r: Step)
    requires Valid(m) && from <= MAX_PROCS
    ensures r.ok <==> LowestFreeFrom(m.shared.used, from).Some?
    ensures r.ok ==> r == SetRegs(m, LowestFreeFrom(m.shared.used, from).value)
    ensures !r.ok ==> r.m == m
    decreases MAX_PROCS - from
  {
    if from == MAX_PROCS then Step(false, m)
    else
      var s := SetRegs(m, from);
      if s.ok then s else AllocFrom(m, from + 1)
  }

  /** `__apex_wasm_proc_alloc()`: succeeds iff some flag is false, and then
      has done exactly set_regs(lowest free index); otherwise nothing changes.
      It never writes `__apex_wasm_proc_ptr`. */
  function Alloc(m: Machine): (r: Step)
    requires Valid(m)
    ensures Valid(r.m) && SameLayout(r.m.shared, m.shared)
    ensures r.ok <==> exists j :: 0 <= j < MAX_PROCS && !m.shared.used[j]
    ensures r.ok ==> r == SetRegs(m, LowestFree(m.shared.used).value)
    ensures !r.ok ==> r.m == m
    ensures r.m.regs.procPtr == m.regs.procPtr
  {
    AllocFrom(m, 0)
  }

  /** The i32 address `marker_base_addr + (proc_ptr - 1)` that free stores to. */
  function MarkerAddress(sh: Shared, procPtr: U32): U32
    requires procPtr != 0
  {
    (sh.markersBase + (procPtr - 1)) % U32_LIMIT
  }

  /** The store lands inside `__proc_used` exactly when `proc_ptr - 1` is a
      slot index, and then it addresses flag `proc_ptr - 1`. */
  lemma MarkerAddressHitsFlag(sh: Shared, procPtr: U32)
    requires ValidShared(sh) && procPtr != 0
    ensures var a := MarkerAddress(sh, procPtr);
            (sh.markersBase <= a < sh.markersBase + MAX_PROCS <==> procPtr - 1 < MAX_PROCS)
    ensures procPtr - 1 < MAX_PROCS ==> MarkerAddress(sh, procPtr) - sh.markersBase == procPtr - 1
  {
    var sum := sh.markersBase + (procPtr - 1);
    if sum < U32_LIMIT {
      assert MarkerAddress(sh, procPtr) == sum;
    } else {
      assert MarkerAddress(sh, procPtr) == sum - U32_LIMIT;
    }
  }

  /** `__apex_wasm_proc_free()`: traps iff `proc_ptr` is 0; otherwise the
      registers are poisoned, `proc_ptr` is reset and flag `proc_ptr - 1`
      (only that one) is cleared -- or, if `proc_ptr - 1` is no slot index,
      the byte store goes to an address outside the flag array. Whether
      that address still lies in linear memory (a stray write) or beyond
      it (a trap of the store) is not told apart: both are `StrayStore`. */
  function Free(m: Machine): (out: FreeOutcome)
    requires Valid(m)
    ensures out.Trapped? <==> m.regs.procPtr == 0
    ensures !out.Trapped? ==> Valid(out.m) && SameLayout(out.m.shared, m.shared)
    ensures !out.Trapped? ==> out.m.regs == Regs(POISONED_STACK_POINTER, POISONED_TLS_BASE, 0)
    ensures out.Freed? <==> 0 < m.regs.procPtr <= MAX_PROCS
    ensures out.Freed? ==> !out.m.shared.used[m.regs.procPtr - 1]
    ensures out.Freed? ==> OthersUnchanged(m.shared.used, out.m.shared.used, m.regs.procPtr - 1)
    ensures out.StrayStore? ==> out.m.shared == m.shared
    ensures out.StrayStore? ==>
      !(m.shared.markersBase <= out.address < m.shared.markersBase + MAX_PROCS)
  {
    if m.regs.procPtr == 0 then Trapped
    else
      var regs := Regs(POISONED_STACK_POINTER, POISONED_TLS_BASE, 0);
      var addr := MarkerAddress(m.shared, m.regs.procPtr);
      MarkerAddressHitsFlag(m.shared, m.regs.procPtr);
      if m.shared.markersBase <= addr < m.shared.markersBase + MAX_PROCS then
        var index := addr - m.shared.markersBase;
        Freed(Machine(m.shared.(used := m.shared.used[index := false]), regs))
      else
        StrayStore(Machine(m.shared, regs), addr)
  }

  /** Distinct slots occupy disjoint address ranges, so two processes bound
      to different slots never share TLS or secondary-stack bytes. */
  lemma {:induction false} SlotsDisjoint(sh: Shared, i: nat, j: nat)
    requires ValidShared(sh) && i < MAX_PROCS && j < MAX_PROCS && i != j
    ensures SlotBase(sh, i) + SLOT_SIZE <= SlotBase(sh, j)
         || SlotBase(sh, j) + SLOT_SIZE <= SlotBase(sh, i)
  {
    if i < j {
      assert j * SLOT_SIZE == i * SLOT_SIZE + (j - i) * SLOT_SIZE;
    } else {
      assert i * SLOT_SIZE == j * SLOT_SIZE + (i - j) * SLOT_SIZE;
    }
  }

  predicate AllFree(used: seq<bool>)
  {
    forall j :: 0 <= j < |used| ==> !used[j]
  }

  /** The machine after `n` allocations in a row. */
  function AfterAllocs(m: Machine, n: nat): (r: Machine)
    requires Valid(m)
    ensures Valid(r) && SameLayout(r.shared, m.shared)
    decreases n
  {
    if n == 0 then m else Alloc(AfterAllocs(m, n - 1)).m
  }

  /** Flags 0..k-1 are taken and the rest are free. */
  predicate FilledUpTo(used: seq<bool>, k: nat)
  {
    forall j :: 0 <= j < |used| ==> (used[j] <==> j < k)
  }

  /** One allocation on a table filled up to k takes slot k. */
  lemma AllocTakesNextSlot(m: Machine, k: nat)
    requires Valid(m) && k < MAX_PROCS && FilledUpTo(m.shared.used, k)
    ensures Alloc(m).ok
    ensures BoundTo(Alloc(m).m.shared, Alloc(m).m.regs, k)
    ensures FilledUpTo(Alloc(m).m.shared.used, k + 1)
  {
    var used := m.shared.used;
    assert !used[k];
    var r := LowestFree(used);
    assert r.Some?;
    assert !used[r.value];
    assert r.value == k;
  }

  /** From an all-free table, k allocations fill flags 0..k-1 exactly. */
  lemma {:induction false} AllocsFromEmptyFillPrefix(m: Machine, k: nat)
    requires Valid(m) && AllFree(m.shared.used) && k <= MAX_PROCS
    ensures FilledUpTo(AfterAllocs(m, k).shared.used, k)
  {
    if k == 0 {
      assert AfterAllocs(m, 0) == m;
      assert FilledUpTo(m.shared.used, 0);
    } else {
      var j := k - 1;
      AllocsFromEmptyFillPrefix(m, j);
      var prev := AfterAllocs(m, j);
      var next := Alloc(prev);
      AllocTakesNextSlot(prev, j);
      assert AfterAllocs(m, k) == next.m;
    }
  }

  /** From an all-free table, the k-th allocation (0-based) takes slot k with
      slot k's registers, and once MAX_PROCS allocations have filled the
      table in index order the next one fails. */
  lemma AllocsFromEmptyTakeSlotsInOrder(m: Machine, k: nat)
    requires Valid(m) && AllFree(m.shared.used) && k <= MAX_PROCS
    ensures k < MAX_PROCS ==>
      var s := Alloc(AfterAllocs(m, k));
      s.ok && BoundTo(s.m.shared, s.m.regs, k)
    ensures k == MAX_PROCS ==> !Alloc(AfterAllocs(m, k)).ok
  {
    AllocsFromEmptyFillPrefix(m, k);
    var cur := AfterAllocs(m, k);
    if k < MAX_PROCS {
      AllocTakesNextSlot(cur, k);
    } else {
      AllocOnFullTableFails(cur);
    }
  }

  /** With every flag set, alloc reports failure. */
  lemma AllocOnFullTableFails(m: Machine)
    requires Valid(m) && FilledUpTo(m.shared.used, MAX_PROCS)
    ensures !Alloc(m).ok
  {
    assert LowestFree(m.shared.used).None?;
  }

  /** A process holding slot k (with `proc_ptr == k + 1`) frees it; when all
      lower slots are taken, the next allocation gets slot k back with the
      very same stack pointer and TLS base, and the flags are as before. */
  lemma FreeThenAllocRecyclesSlot(m: Machine, k: nat)
    requires Valid(m) && k < MAX_PROCS && m.shared.used[k]
    requires m.regs.procPtr == k + 1
    requires forall j :: 0 <= j < k ==> m.shared.used[j]
    ensures Free(m).Freed?
    ensures var s := Alloc(Free(m).m);
            && s.ok
            && s.m.regs.tlsBase == SlotBase(m.shared, k)
            && s.m.regs.stackPointer == StackTop(m.shared, k)
            && s.m.shared.used == m.shared.used
  {
    var f := Free(m).m;
    assert LowestFree(f.shared.used) == Some(k);
    assert Alloc(f).m.shared.used == m.shared.used;
  }

  /** As written, alloc leaves `proc_ptr` at 0, so a process that allocated
      from the initial state and then frees traps instead of releasing. */
  lemma AllocThenFreeTraps(m: Machine)
    requires Valid(m) && m.regs.procPtr == 0
    requires exists j :: 0 <= j < MAX_PROCS && !m.shared.used[j]
    ensures Alloc(m).ok
    ensures Free(Alloc(m).m).Trapped?
  {
  }

  /** Concrete instance: slot table at 0x10000, flags right behind it. */
  lemma AllocThenFreeTrapsExample()
    ensures var m := Machine(Shared(0x1_0000, 0x1_0000 + MAX_PROCS * SLOT_SIZE, seq(MAX_PROCS, _ => false)),
                             Regs(0x1_0000, 0, 0));
            Valid(m) && Alloc(m).ok && Free(Alloc(m).m).Trapped?
  {
    var m := Machine(Shared(0x1_0000, 0x1_0000 + MAX_PROCS * SLOT_SIZE, seq(MAX_PROCS, _ => false)),
                     Regs(0x1_0000, 0, 0));
    assert !m.shared.used[0];
    AllocThenFreeTraps(m);
  }

  // ---------------------------------------------------------------------
  // Corrected protocol: a successful set_regs(i) also records i + 1 in
  // `__apex_wasm_proc_ptr`, the 1-based index that free relies on.
  // ---------------------------------------------------------------------

  /** set_regs with the missing `proc_ptr := i + 1` store on success. */
  function SetRegsFixed(m: Machine, i: nat): (r: Step)
    requires Valid(m) && i < MAX_PROCS
    ensures Valid(r.m) && SameLayout(r.m.shared, m.shared)
    ensures r.ok == SetRegs(m, i).ok && r.m.shared == SetRegs(m, i).m.shared
    ensures r.ok ==> BoundTo(r.m.shared, r.m.regs, i) && r.m.regs.procPtr == i + 1
    ensures !r.ok ==> r.m == m
  {
    var s := SetRegs(m, i);
    if s.ok then Step(true, s.m.(regs := s.m.regs.(procPtr := i + 1))) else s
  }

  function AllocFixedFrom(m: Machine, from: nat): (r: Step)
    requires Valid(m) && from <= MAX_PROCS
    ensures r.ok <==> LowestFreeFrom(m.shared.used, from).Some?
    ensures r.ok ==> r == SetRegsFixed(m, LowestFreeFrom(m.shared.used, from).value)
    ensures !r.ok ==> r.m == m
    decreases MAX_PROCS - from
  {
    if from == MAX_PROCS then Step(false, m)
    else
      var s := SetRegsFixed(m, from);
      if s.ok then s else AllocFixedFrom(m, from + 1)
  }

  /** alloc over the corrected set_regs: same slot choice and flags as the
      as-written alloc; only `proc_ptr` differs. */
  function AllocFixed(m: Machine): (r: Step)
    requires Valid(m)
    ensures Valid(r.m) && SameLayout(r.m.shared, m.shared)
    ensures r.ok == Alloc(m).ok && r.m.shared == Alloc(m).m.shared
    ensures r.ok ==> var k := LowestFree(m.shared.used).value;
                     BoundTo(r.m.shared, r.m.regs, k) && r.m.regs.procPtr == k + 1
    ensures !r.ok ==> r.m == m
  {
    AllocFixedFrom(m, 0)
  }

  /** With the corrected alloc, alloc followed by free releases the slot
      just taken: the flags return to what they were and the registers are
      poisoned. */
  lemma AllocFixedThenFreeReleases(m: Machine)
    requires Valid(m)
    requires exists j :: 0 <= j < MAX_PROCS && !m.shared.used[j]
    ensures AllocFixed(m).ok
    ensures var f := Free(AllocFixed(m).m);
            f.Freed? && f.m.shared == m.shared
            && f.m.regs == Regs(POISONED_STACK_POINTER, POISONED_TLS_BASE, 0)
  {
    var k := LowestFree(m.shared.used).value;
    var a := AllocFixed(m).m;
    var f := Free(a).m;
    assert f.shared.used == m.shared.used;
  }
}
