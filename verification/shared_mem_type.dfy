/** Choosing the type of the one shared memory that all guest modules import.

Both runtimes look, in each module's import list, for the first import whose
module name and field name are the configured ones and whose type is a
shared memory. The example runtime merges the limits of many modules per
the Limits rule of "Import Subtyping" in the validation chapter of the
WebAssembly core specification (threads proposal): limits {min n1, max m1?}
match {min n2, max m2?} iff n1 >= n2 and, when m2 is present, m1 is present
and m1 <= m2. The harness takes the single module's limits as they are.

Wasmtime reports limits as u64; the source converts them to u32 with
`try_into().unwrap()`, relying on wasmtime's documentation that 32-bit
memories always fit, so the model takes them as U32 directly.
 */
module SharedMemType {
  import opened Wrappers
  import opened Ints


  datatype MemoryType = MemoryType(minimum: U32, maximum: Option<U32>, isShared: bool)

  /** `ExternType`: only memories matter; functions, globals, tables and
      tags are lumped together. */
  datatype ExternType = Memory(mem: MemoryType) | OtherExtern

  datatype Import = Import(moduleName: string, name: string, ty: ExternType)

  /** A compiled module, seen through its imports in declaration order. */
  datatype Module = Module(imports: seq<Import>)

  /** Limits: a minimum and an optional maximum, in pages. */
  datatype Limits = Limits(min: U32, max: Option<U32>)

  /** The closure given to `find_map`: module and field name must both be
      equal, and the import must be a shared memory. */
  predicate Qualifies(imp: Import, hostModule: string, memoryName: string)
  {
    && imp.moduleName == hostModule
    && imp.name == memoryName
    && imp.ty.Memory?
    && imp.ty.mem.isShared
  }

  /** `imports().find_map(...)`: the first qualifying import's memory type;
      an import with the right names but another type is skipped. */
  function FindSharedMemory(imports: seq<Import>, hostModule: string, memoryName: string)
    : (r: Option<MemoryType>)
    ensures r.None? <==> forall k :: 0 <= k < |imports| ==> !Qualifies(imports[k], hostModule, memoryName)
    ensures r.Some? ==> exists k :: 0 <= k < |imports|
                          && Qualifies(imports[k], hostModule, memoryName)
                          && imports[k].ty.mem == r.value
                          && forall j :: 0 <= j < k ==> !Qualifies(imports[j], hostModule, memoryName)
  {
    if imports == [] then None
    else if Qualifies(imports[0], hostModule, memoryName) then Some(imports[0].ty.mem)
    else
      var rest := FindSharedMemory(imports[1..], hostModule, memoryName);
      if rest.Some? then
        var k :| 0 <= k < |imports[1..]|
                 && Qualifies(imports[1..][k], hostModule, memoryName)
                 && imports[1..][k].ty.mem == rest.value
                 && forall j :: 0 <= j < k ==> !Qualifies(imports[1..][j], hostModule, memoryName);
        assert Qualifies(imports[k + 1], hostModule, memoryName);
        assert forall j :: 0 <= j < k + 1 ==> !Qualifies(imports[j], hostModule, memoryName) by {
          forall j | 0 <= j < k + 1
            ensures !Qualifies(imports[j], hostModule, memoryName)
          {
            if j > 0 { assert imports[j] == imports[1..][j - 1]; }
          }
        }
        rest
      else
        assert forall k :: 0 <= k < |imports| ==> !Qualifies(imports[k], hostModule, memoryName) by {
          forall k | 0 <= k < |imports|
            ensures !Qualifies(imports[k], hostModule, memoryName)
          {
            if k > 0 { assert imports[k] == imports[1..][k - 1]; }
          }
        }
        rest
  }

  function LimitsOf(mt: MemoryType): Limits
  {
    Limits(mt.minimum, mt.maximum)
  }

  /** The harness's `infer_shared_mem_type` for its one module: the first
      qualifying import's limits, unchanged (no check that min <= max), or
      None iff no import qualifies. */
  function InferSingle(m: Module, hostModule: string, memoryName: string): (r: Option<Limits>)
    ensures r.None? <==> forall k :: 0 <= k < |m.imports| ==> !Qualifies(m.imports[k], hostModule, memoryName)
    ensures r.Some? ==> exists k :: 0 <= k < |m.imports|
                          && Qualifies(m.imports[k], hostModule, memoryName)
                          && LimitsOf(m.imports[k].ty.mem) == r.value
                          && forall j :: 0 <= j < k ==> !Qualifies(m.imports[j], hostModule, memoryName)
  {
    var mt :- FindSharedMemory(m.imports, hostModule, memoryName);
    Some(LimitsOf(mt))
  }

  /** The single-module variant accepts limits whose minimum exceeds their
      maximum. */
  lemma InferSingleKeepsInvertedLimits()
    ensures var m := Module([Import("env", "memory", Memory(MemoryType(5, Some(2), true)))]);
            InferSingle(m, "env", "memory") == Some(Limits(5, Some(2)))
  {
    var m := Module([Import("env", "memory", Memory(MemoryType(5, Some(2), true)))]);
    assert Qualifies(m.imports[0], "env", "memory");
  }

  /** Limits rule of import subtyping: `sub` matches `sup`. */
  predicate Matches(sub: Limits, sup: Limits)
  {
    && sub.min >= sup.min
    && (sup.max.Some? ==> sub.max.Some? && sub.max.value <= sup.max.value)
  }

  /** Limits that a memory may actually have. */
  predicate WellFormed(l: Limits)
  {
    l.max.Some? ==> l.min <= l.max.value
  }

  function Max(a: U32, b: U32): U32 { if a >= b then a else b }
  function Min(a: U32, b: U32): U32 { if a <= b then a else b }

  /** Reference definition of the merged minimum: the largest minimum, 0 for
      no modules. Defined on prefixes to follow the loop. */
  function MergedMin(ls: seq<Limits>): (n: U32)
    ensures forall i :: 0 <= i < |ls| ==> n >= ls[i].min
    ensures n == 0 || exists i :: 0 <= i < |ls| && n == ls[i].min
  {
    if ls == [] then 0
    else
      var prev := MergedMin(ls[..|ls| - 1]);
      assert forall i :: 0 <= i < |ls| - 1 ==> ls[..|ls| - 1][i] == ls[i];
      Max(prev, ls[|ls| - 1].min)
  }

  /** Reference definition of the merged maximum: the smallest of the
      maxima that are present, None iff no module declares one. */
  function MergedMax(ls: seq<Limits>): (m: Option<U32>)
    ensures m.None? <==> forall i :: 0 <= i < |ls| ==> ls[i].max.None?
    ensures m.Some? ==> forall i :: 0 <= i < |ls| && ls[i].max.Some? ==> m.value <= ls[i].max.value
    ensures m.Some? ==> exists i :: 0 <= i < |ls| && ls[i].max == m
  {
    if ls == [] then None
    else
      var prev := MergedMax(ls[..|ls| - 1]);
      assert forall i :: 0 <= i < |ls| - 1 ==> ls[..|ls| - 1][i] == ls[i];
      MinOfPresent(prev, ls[|ls| - 1].max)
  }

  /** The smaller of two optional maxima, ignoring an absent one. */
  function MinOfPresent(a: Option<U32>, b: Option<U32>): (m: Option<U32>)
    ensures m.None? <==> a.None? && b.None?
    ensures m.Some? ==> (a.Some? ==> m.value <= a.value) && (b.Some? ==> m.value <= b.value)
    ensures m == a || m == b
  {
    match a
    case Some(m1) => (match b case Some(m2) => Some(Min(m1, m2)) case None => Some(m1))
    case None => b
  }

  /** The merged limits match every module's limits... */
  lemma MergedMatchesAll(ls: seq<Limits>, i: nat)
    requires i < |ls|
    ensures Matches(Limits(MergedMin(ls), MergedMax(ls)), ls[i])
  {
  }

  /** ...and they are the principal choice: any limits matching all modules
      have at least the merged minimum and, when some module declares a
      maximum, at most the merged maximum. */
  lemma MergedIsPrincipal(ls: seq<Limits>, cand: Limits)
    requires forall i :: 0 <= i < |ls| ==> Matches(cand, ls[i])
    ensures cand.min >= MergedMin(ls)
    ensures MergedMax(ls).Some? ==> cand.max.Some? && cand.max.value <= MergedMax(ls).value
  {
    var n := MergedMin(ls);
    if n != 0 {
      var i :| 0 <= i < |ls| && n == ls[i].min;
      assert Matches(cand, ls[i]);
    }
    var m := MergedMax(ls);
    if m.Some? {
      var i :| 0 <= i < |ls| && ls[i].max == m;
      assert Matches(cand, ls[i]);
    }
  }

  /** Reference: each module's qualifying import, None if one has none. */
  function CollectLimits(modules: seq<Module>, hostModule: string, memoryName: string)
    : (r: Option<seq<Limits>>)
    ensures r.None? <==> exists j :: 0 <= j < |modules|
                           && InferSingle(modules[j], hostModule, memoryName).None?
    ensures r.Some? ==> |r.value| == |modules|
    ensures r.Some? ==> forall j :: 0 <= j < |modules| ==>
                          Some(r.value[j]) == InferSingle(modules[j], hostModule, memoryName)
  {
    if modules == [] then Some([])
    else
      var prev := CollectLimits(modules[..|modules| - 1], hostModule, memoryName);
      assert forall j :: 0 <= j < |modules| - 1 ==> modules[..|modules| - 1][j] == modules[j];
      var last := InferSingle(modules[|modules| - 1], hostModule, memoryName);
      if prev.None? || last.None? then None
      else Some(prev.value + [last.value])
  }

  /** The example runtime's `infer_shared_mem_type` over all modules, as the
      loop is written: `?` returns None as soon as a module has no
      qualifying import; afterwards None if the merged minimum exceeds the
      merged maximum. */
  method InferMerged(modules: seq<Module>, hostModule: string, memoryName: string)
    returns (r: Option<Limits>)
    ensures CollectLimits(modules, hostModule, memoryName).None? ==> r.None?
    ensures CollectLimits(modules, hostModule, memoryName).Some? ==>
              var ls := CollectLimits(modules, hostModule, memoryName).value;
              r == if WellFormed(Limits(MergedMin(ls), MergedMax(ls)))
                   then Some(Limits(MergedMin(ls), MergedMax(ls))) else None
    ensures r.Some? ==> WellFormed(r.value)
    ensures modules == [] ==> r == Some(Limits(0, None))
  {
    var n1: U32 := 0;
    var m1: Option<U32> := None;
    var ls: seq<Limits> := [];
    var k := 0;
    while k < |modules|
      invariant 0 <= k <= |modules|
      invariant CollectLimits(modules[..k], hostModule, memoryName) == Some(ls)
      invariant n1 == MergedMin(ls) && m1 == MergedMax(ls)
    {
      var found := InferSingle(modules[k], hostModule, memoryName);
      CollectStep(modules, k, hostModule, memoryName);
      if found.None? {
        CollectNoneExtends(modules, k + 1, hostModule, memoryName);
        return None;
      }
      var l := found.value;
      n1 := Max(n1, l.min);
      m1 := MinOfPresent(m1, l.max);
      MergeStep(ls, l);
      ls := ls + [l];
      k := k + 1;
    }
    assert modules[..k] == modules;
    if m1.Some? && n1 > m1.value {
      return None;
    }
    return Some(Limits(n1, m1));
  }

  /** Collecting one more module extends the collected limits by its own. */
  lemma CollectStep(modules: seq<Module>, k: nat, hostModule: string, memoryName: string)
    requires k < |modules|
    ensures var prefix := CollectLimits(modules[..k], hostModule, memoryName);
            var found := InferSingle(modules[k], hostModule, memoryName);
            CollectLimits(modules[..k + 1], hostModule, memoryName)
              == if prefix.Some? && found.Some? then Some(prefix.value + [found.value]) else None
  {
    assert modules[..k + 1][..k] == modules[..k];
  }

  /** Merging one more module's limits is one step of the loop. */
  lemma MergeStep(ls: seq<Limits>, l: Limits)
    ensures MergedMin(ls + [l]) == Max(MergedMin(ls), l.min)
    ensures MergedMax(ls + [l]) == MinOfPresent(MergedMax(ls), l.max)
  {
    assert (ls + [l])[..|ls + [l]| - 1] == ls;
  }

  /** Once a prefix has a module without a qualifying import, so does the
      whole list. */
  lemma CollectNoneExtends(modules: seq<Module>, k: nat, hostModule: string, memoryName: string)
    requires k <= |modules|
    requires CollectLimits(modules[..k], hostModule, memoryName).None?
    ensures CollectLimits(modules, hostModule, memoryName).None?
  {
    var j :| 0 <= j < k && InferSingle(modules[..k][j], hostModule, memoryName).None?;
    assert modules[..k][j] == modules[j];
  }

  /** An inconsistent set of modules: merged minimum 4 above merged maximum 3. */
  lemma MergeRejectsConflictingLimits()
    ensures var ls := [Limits(4, None), Limits(1, Some(3))];
            MergedMin(ls) == 4 && MergedMax(ls) == Some(3)
            && !WellFormed(Limits(MergedMin(ls), MergedMax(ls)))
  {
    var ls := [Limits(4, None), Limits(1, Some(3))];
    assert ls[..1] == [Limits(4, None)];
    assert ls[..1][..0] == [];
  }
}
