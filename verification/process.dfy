/** The harness's process table (`ProcessTable`, `Process`).

The table is an append-only vector: a process's pid is its position, and
two processes are "equal" (`PartialEq for Process`) when their names are
equal ignoring ASCII case. Starting a process thread needs a fresh wasm
instance, a lookup in its indirect function table and an OS thread; what
each of those steps observes is a parameter. The instance's call of
`proc_alloc` is the slot allocator's `Alloc`.
 */
module ProcessTable {
  import opened Wrappers
  import opened Ints
  import opened Ascii
  import ProcAlloc

  /** `ProcessAttribute` as decoded from guest memory. */
  datatype ProcessAttribute = ProcessAttribute(
    period: I64,
    timeCapacity: I64,
    entryPoint: I32,
    stackSize: U32,
    basePriority: I32,
    deadline: I32,
    name: string)

  /** Identity of the host thread running a process. */
  type ThreadId = nat

  /** A process: its attributes, the handle of its thread once spawned, and
      whether `START` enabled it. */
  datatype Process = Process(attribute: ProcessAttribute, handle: Option<ThreadId>, enabled: bool)

  datatype ProcessTable = ProcessTable(procs: seq<Process>)

  datatype ProcessError =
    | AlreadyExists(name: string)
    | AlreadySpawned(name: string)
    | NotEnabled(name: string)
    /** Registering the host functions or the shared memory failed, the
        entry point names no function, or the OS refused the thread: an
        error the caller sees. */
    | LaunchFailed(name: string)
    /** `instantiate_process` panicked. A panic is modelled as a value, but
        nothing can handle it: the host call that spawns dies with it. */
    | Panicked(name: string)

  /** What `instantiate_process` observes: whether the module
      instantiates, whether it exports `proc_alloc`, and what the call
      returned (None for a trap). */
  datatype Instantiation = Instantiation(instantiates: bool, exportsProcAlloc: bool, procAllocResult: Option<I32>)

  /** `instantiate_process` returns only when every `expect` passes and
      `proc_alloc` returned 1; in every other case it panics. */
  predicate Instantiates(i: Instantiation)
  {
    i.instantiates && i.exportsProcAlloc && i.procAllocResult == Some(1)
  }

  /** The `_Bool` returned by `__apex_wasm_proc_alloc`, widened to `i32`. */
  function ProcAllocResult(m: ProcAlloc.Machine): (r: I32)
    requires ProcAlloc.Valid(m)
    ensures r == 1 <==> ProcAlloc.Alloc(m).ok
    ensures r == 0 || r == 1
  {
    if ProcAlloc.Alloc(m).ok then 1 else 0
  }

  /** What the steps of starting one process thread observe, in the order
      `spawn` takes them: `init_process` registers the shared memory and
      the host functions (`?`) and instantiates (panics), then
      `find_function` looks up the entry point (`?`), then the thread is
      spawned (`?`, None when the OS refuses it). */
  datatype Launch = Launch(registered: bool, inst: Instantiation, entryFound: bool, thread: Option<ThreadId>)

  /** Every step succeeded: the process runs on thread `thread.value`. */
  predicate Launched(l: Launch)
  {
    l.registered && Instantiates(l.inst) && l.entryFound && l.thread.Some?
  }

  /** The launch panics: registration succeeded and instantiation did not. */
  predicate LaunchPanics(l: Launch)
  {
    l.registered && !Instantiates(l.inst)
  }

  /** `Process::new`: not yet enabled, no thread. */
  function NewProcess(attr: ProcessAttribute): (p: Process)
    ensures p.attribute == attr && p.handle.None? && !p.enabled
  {
    Process(attr, None, false)
  }

  /** `PartialEq for Process`: names equal ignoring ASCII case. */
  predicate SameProcess(a: Process, b: Process)
  {
    EqIgnoreAsciiCase(a.attribute.name, b.attribute.name)
  }

  /** `Vec::contains` with that equality. */
  predicate Contains(t: ProcessTable, p: Process)
  {
    exists i :: 0 <= i < |t.procs| && SameProcess(t.procs[i], p)
  }

  /** No two processes of the table are equal. */
  predicate NamesDistinct(t: ProcessTable)
  {
    forall i, j :: 0 <= i < j < |t.procs| ==> !SameProcess(t.procs[i], t.procs[j])
  }

  /** `ProcessTable::insert`: rejects an equal process and leaves the table
      as it was; otherwise appends and returns the previous length. */
  function Insert(t: ProcessTable, p: Process): (r: (Result<nat, ProcessError>, ProcessTable))
    ensures r.0.Err? <==> Contains(t, p)
    ensures r.0.Err? ==> r.0.error == AlreadyExists(p.attribute.name) && r.1 == t
    ensures r.0.Ok? ==> r.0.value == |t.procs| && r.1.procs == t.procs + [p]
  {
    if Contains(t, p) then (Err(AlreadyExists(p.attribute.name)), t)
    else (Ok(|t.procs|), ProcessTable(t.procs + [p]))
  }

  /** Insertion keeps the names distinct. */
  lemma InsertKeepsNamesDistinct(t: ProcessTable, p: Process)
    ensures NamesDistinct(t) ==> NamesDistinct(Insert(t, p).1)
  {
    var t' := Insert(t, p).1;
    if NamesDistinct(t) && !Contains(t, p) {
      forall i, j | 0 <= i < j < |t'.procs|
        ensures !SameProcess(t'.procs[i], t'.procs[j])
      {
        if j == |t.procs| {
          assert !SameProcess(t.procs[i], p);
        }
      }
    }
  }

  /** `get_from_pid_mut`: since a `Vec` never holds more than `isize::MAX`
      elements, exactly the pids 0..len-1 are found. */
  function GetFromPid(t: ProcessTable, pid: I64): (r: Option<Process>)
    ensures pid >= 0 ==> (r.Some? <==> pid < |t.procs|)
    ensures pid >= 0 && r.Some? ==> r.value == t.procs[pid]
    ensures pid < 0 && |t.procs| <= ISIZE_MAX ==> r.None?
  {
    var index := I64AsUsize(pid);
    if index < |t.procs| then Some(t.procs[index]) else None
  }

  /** The pid handed out by `insert` finds the process inserted, and every
      earlier pid still finds the process it found before. */
  lemma InsertThenGet(t: ProcessTable, p: Process, pid: I64)
    requires Insert(t, p).0.Ok?
    ensures |t.procs| < ISIZE_MAX ==>
              GetFromPid(Insert(t, p).1, Insert(t, p).0.value) == Some(p)
    ensures pid >= 0 && pid != |t.procs| ==> GetFromPid(Insert(t, p).1, pid) == GetFromPid(t, pid)
  {
  }

  /** Inserting a sequence of processes from the empty table: on success
      process k gets pid k, in insertion order. */
  function InsertAll(t: ProcessTable, ps: seq<Process>): (r: Result<ProcessTable, ProcessError>)
    ensures r.Ok? ==> |r.value.procs| == |t.procs| + |ps|
    ensures r.Ok? ==> r.value.procs == t.procs + ps
    ensures r.Ok? && NamesDistinct(t) ==> NamesDistinct(r.value)
    decreases |ps|
  {
    if ps == [] then Ok(t)
    else
      var (res, t1) := Insert(t, ps[0]);
      if res.Err? then Err(res.error)
      else
        InsertKeepsNamesDistinct(t, ps[0]);
        var r :- InsertAll(t1, ps[1..]);
        assert t1.procs + ps[1..] == t.procs + ps;
        Ok(r)
  }

  /** Pids are dense: after inserting `ps` into an empty table, pid k is
      the k-th process of `ps`. */
  lemma PidsAreDense(ps: seq<Process>, k: I64)
    requires InsertAll(ProcessTable([]), ps).Ok?
    ensures |ps| <= ISIZE_MAX ==>
              GetFromPid(InsertAll(ProcessTable([]), ps).value, k) ==
              if 0 <= k < |ps| then Some(ps[k]) else None
  {
  }

  /** `Process::enable`: sets the flag and changes nothing else. */
  function Enable(p: Process): (q: Process)
    ensures q.enabled && q.attribute == p.attribute && q.handle == p.handle
  {
    p.(enabled := true)
  }

  /** `get_from_pid_mut(pid).map(enable)`: the table with process `pid`
      enabled, or None when there is no such process. */
  function EnablePid(t: ProcessTable, pid: I64): (r: Option<ProcessTable>)
    ensures r.Some? <==> GetFromPid(t, pid).Some?
    ensures r.Some? ==> |r.value.procs| == |t.procs|
    ensures r.Some? ==> GetFromPid(r.value, pid) == Some(Enable(GetFromPid(t, pid).value))
    ensures r.Some? ==> forall i :: 0 <= i < |t.procs| && i != I64AsUsize(pid) ==> r.value.procs[i] == t.procs[i]
  {
    var index := I64AsUsize(pid);
    if index < |t.procs| then Some(ProcessTable(t.procs[index := Enable(t.procs[index])]))
    else None
  }

  /** `Process::spawn`: refuses a spawned process, then a disabled one, and
      only then tries to launch its thread. A launch step that fails with
      `?` is `LaunchFailed`, a panic of `instantiate_process` is `Panicked`.
      On error the process is unchanged. */
  function Spawn(p: Process, launch: Launch): (r: Result<Process, ProcessError>)
    ensures p.handle.Some? ==> r == Err(AlreadySpawned(p.attribute.name))
    ensures p.handle.None? && !p.enabled ==> r == Err(NotEnabled(p.attribute.name))
    ensures r.Ok? <==> p.handle.None? && p.enabled && Launched(launch)
    ensures r.Ok? ==> r.value == p.(handle := launch.thread)
    ensures r == Err(Panicked(p.attribute.name)) <==> p.handle.None? && p.enabled && LaunchPanics(launch)
    ensures p.handle.None? && p.enabled && !Launched(launch) && !LaunchPanics(launch) ==>
              r == Err(LaunchFailed(p.attribute.name))
  {
    if p.handle.Some? then Err(AlreadySpawned(p.attribute.name))
    else if !p.enabled then Err(NotEnabled(p.attribute.name))
    else if !launch.registered then Err(LaunchFailed(p.attribute.name))
    else if !Instantiates(launch.inst) then Err(Panicked(p.attribute.name))
    else if !launch.entryFound || launch.thread.None? then Err(LaunchFailed(p.attribute.name))
    else Ok(p.(handle := launch.thread))
  }

  /** Once the slot table is full, starting another process panics: its
      instance's `proc_alloc` returns 0. From start-up this is the process
      after the first MAX_PROCS instances, whatever the other steps do. */
  lemma FullSlotTablePanics(p: Process, m: ProcAlloc.Machine, registered: bool, entryFound: bool,
                            thread: Option<ThreadId>)
    requires ProcAlloc.Valid(m) && ProcAlloc.AllFree(m.shared.used)
    requires p.handle.None? && p.enabled
    ensures var full := ProcAlloc.AfterAllocs(m, ProcAlloc.MAX_PROCS);
            var inst := Instantiation(true, true, Some(ProcAllocResult(full)));
            Spawn(p, Launch(registered, inst, entryFound, thread))
              == if registered then Err(Panicked(p.attribute.name)) else Err(LaunchFailed(p.attribute.name))
  {
    ProcAlloc.AllocsFromEmptyTakeSlotsInOrder(m, ProcAlloc.MAX_PROCS);
  }

  /** Both guards are decided before any instance is created: when either
      fires the launch outcome does not matter. */
  lemma SpawnGuardsPrecedeLaunch(p: Process, l1: Launch, l2: Launch)
    requires p.handle.Some? || !p.enabled
    ensures Spawn(p, l1) == Spawn(p, l2) && Spawn(p, l1).Err?
  {
  }

  /** Position i of `after` is what spawn_all leaves there once it has
      passed i: the spawned process if it was enabled, else unchanged. */
  predicate SpawnedAt(before: seq<Process>, after: seq<Process>, i: nat, launch: nat -> Launch)
    requires i < |before| && i < |after|
  {
    if before[i].enabled then Spawn(before[i], launch(i)) == Ok(after[i])
    else after[i] == before[i]
  }

  /** `ProcessTable::spawn_all`: spawn every enabled process in table order;
      stop at the first error, keeping the threads already spawned.
      `launch(i)` is the launch outcome of the process at position i. */
  method SpawnAll(t: ProcessTable, launch: nat -> Launch)
    returns (r: Outcome<ProcessError>, t': ProcessTable)
    ensures |t'.procs| == |t.procs|
    ensures forall i :: 0 <= i < |t.procs| ==>
              t'.procs[i].attribute == t.procs[i].attribute && t'.procs[i].enabled == t.procs[i].enabled
    ensures forall i :: 0 <= i < |t.procs| && !t.procs[i].enabled ==> t'.procs[i] == t.procs[i]
    ensures r.Pass? ==> forall i :: 0 <= i < |t.procs| ==> SpawnedAt(t.procs, t'.procs, i, launch)
    ensures r.Fail? ==> exists k :: (0 <= k < |t.procs|
              && t.procs[k].enabled && Spawn(t.procs[k], launch(k)) == Err(r.error)
              && (forall i :: 0 <= i < k ==> SpawnedAt(t.procs, t'.procs, i, launch))
              && (forall i :: k <= i < |t.procs| ==> t'.procs[i] == t.procs[i]))
  {
    var procs := t.procs;
    var k := 0;
    while k < |procs|
      invariant 0 <= k <= |procs| && |procs| == |t.procs|
      invariant forall i :: 0 <= i < k ==> SpawnedAt(t.procs, procs, i, launch)
      invariant forall i :: k <= i < |procs| ==> procs[i] == t.procs[i]
      invariant forall i :: 0 <= i < |procs| ==>
                  procs[i].attribute == t.procs[i].attribute && procs[i].enabled == t.procs[i].enabled
      invariant forall i :: 0 <= i < |procs| && !t.procs[i].enabled ==> procs[i] == t.procs[i]
    {
      if procs[k].enabled {
        var s := Spawn(procs[k], launch(k));
        if s.Err? {
          return Fail(s.error), ProcessTable(procs);
        }
        var next := procs[k := s.value];
        assert forall i :: 0 <= i < k ==> next[i] == procs[i];
        assert forall i :: 0 <= i < k ==> SpawnedAt(t.procs, next, i, launch) by {
          forall i | 0 <= i < k
            ensures SpawnedAt(t.procs, next, i, launch)
          {
            assert SpawnedAt(t.procs, procs, i, launch);
          }
        }
        procs := next;
      }
      k := k + 1;
    }
    return Pass, ProcessTable(procs);
  }

  /** spawn_all succeeds exactly when every enabled process was not yet
      spawned and could be launched. */
  lemma SpawnAllSucceedsIff(t: ProcessTable, launch: nat -> Launch, r: Outcome<ProcessError>, t': ProcessTable)
    requires |t'.procs| == |t.procs|
    requires r.Pass? ==> forall i :: 0 <= i < |t.procs| ==> SpawnedAt(t.procs, t'.procs, i, launch)
    requires r.Fail? ==> exists k :: (0 <= k < |t.procs|
              && t.procs[k].enabled && Spawn(t.procs[k], launch(k)) == Err(r.error))
    ensures r.Pass? ==> forall i :: 0 <= i < |t.procs| && t.procs[i].enabled ==>
                          t.procs[i].handle.None? && Launched(launch(i))
    ensures r.Fail? ==> exists k :: 0 <= k < |t.procs| && t.procs[k].enabled
                          && (t.procs[k].handle.Some? || !Launched(launch(k)))
  {
    if r.Pass? {
      forall i | 0 <= i < |t.procs| && t.procs[i].enabled
        ensures t.procs[i].handle.None? && Launched(launch(i))
      {
        assert SpawnedAt(t.procs, t'.procs, i, launch);
      }
    }
  }

  /** `get_from_tid`: the first process whose thread has the given id. */
  function GetFromTid(t: ProcessTable, tid: ThreadId): (r: Option<Process>)
    ensures r.None? <==> forall i :: 0 <= i < |t.procs| ==> t.procs[i].handle != Some(tid)
    ensures r.Some? ==> exists i :: 0 <= i < |t.procs| && t.procs[i] == r.value
                          && r.value.handle == Some(tid)
                          && forall j :: 0 <= j < i ==> t.procs[j].handle != Some(tid)
    decreases |t.procs|
  {
    if t.procs == [] then None
    else if t.procs[0].handle == Some(tid) then Some(t.procs[0])
    else
      var rest := GetFromTid(ProcessTable(t.procs[1..]), tid);
      assert forall i :: 1 <= i < |t.procs| ==> t.procs[i] == t.procs[1..][i - 1];
      if rest.Some? then
        var i :| 0 <= i < |t.procs[1..]| && t.procs[1..][i] == rest.value
                 && rest.value.handle == Some(tid)
                 && forall j :: 0 <= j < i ==> t.procs[1..][j].handle != Some(tid);
        assert t.procs[i + 1] == rest.value;
        rest
      else rest
  }

  /** `ProcessTable::clear`: hands back every process in order and leaves
      the table empty. */
  function Clear(t: ProcessTable): (r: (seq<Process>, ProcessTable))
    ensures r.0 == t.procs && r.1.procs == []
    ensures forall pid: I64 :: GetFromPid(r.1, pid).None?
  {
    (t.procs, ProcessTable([]))
  }
}
