# arinc653-wasm in Dafny

A model of the decision logic of DLR-FT/arinc653-wasm. That repository runs ARINC 653 partitions as WebAssembly: every ARINC 653 process of a partition is an instance of the same wasm module, running on its own host thread over one shared linear memory. It has three parts, and the model follows them.

- **The per-process slot allocator** (`wasm_apex_proc_alloc.h`). It gives each process its own secondary stack and TLS area out of a fixed table of `MAX_PROCS` slots. A parallel array of "used" flags marks which slots are taken.
  - `ProcAlloc` models `set_regs`, `alloc` and `free` as atomic steps on a machine made of the shared flags and the three wasm globals of the calling instance.
  - `ProcAllocSystem` runs several instances against one table. It keeps an owner map to state mutual exclusion, once for the corrected allocator and once for the header as written.
- **The wasmtime harness**:
  - `SharedMemType` models choosing the shared memory's limits: the single-module lookup and the many-module merge of the import-subtyping Limits rule.
  - `Shmem` models bounds-checked host access to guest memory, with little-endian stores and NUL-terminated UTF-8 strings. `Utf8` models `str::from_utf8`.
  - `ProcessTable` and `Channel` model the process and sampling-port tables: append-only, with ASCII-case-insensitive duplicate rejection (`Ascii`). `Channel` also models the sampling-port read, write and validity policy.
  - `Partition` models the ARINC 653 services that make decisions on top of these tables.
- **c-abi-lens**, a C code generator for struct field accessors:
  - `CTypes` models `RepresentableCType`: classification, sizes, lengths, element type and C rendering.
  - `Tokens` models the C snippet renderers. `Text` models the Rust string helpers they use (`lines`, `join`, centring, decimal printing).
  - `FunctionEmitter` models the struct and field emitter.
  - `ByteSwap` models what the emitted byte-swapping copy loop does to bytes.
  - `StdintTypes` models the `stdint.h` formatters.
  - `Clang` is the abstract view of libclang types and entities.

Some modelling conventions apply throughout:
- A Rust panic is modelled as a value: `None`, or a `Panic` error.
- Integer widths are subset types of `int` (`U8` … `U64`, `I32`, `I64`, `Usize`).
- `ptr as usize` on a negative `i32` is written out as sign extension.
- Socket results, the clock and thread launches are parameters.

Some observations recorded as lemmas, beyond the findings below:
- A struct-typed field whose size is not 1, 2, 4 or 8 bytes gets no accessor at all. The byte-swap helper is chosen before the type branch, even when no swapping is asked for (`FunctionEmitter.OddSizedRecordGetsNoAccessor`).
- A pointer prints as `int64_t` in the `stdint.h` formatter but as `void *` in `RepresentableCType` (`StdintTypes.PointersPrintAsIntegers`).
- The per-struct `sizeof` of a struct `A__B` has the same name as the per-field `sizeof` of field `B` of struct `A` (`FunctionEmitter.StructAndFieldNamesCanCollide`).
- Once `MAX_PROCS` instances have taken a slot, starting one more process panics in `instantiate_process`, because its `proc_alloc` returns 0 (`ProcessTable.FullSlotTablePanics`).
- The single-module shared-memory lookup accepts a minimum above the maximum (`SharedMemType.InferSingleKeepsInvertedLimits`).

## Model

| member | source | states |
|---|---|---|
| ProcAlloc.SlotBase | include/private/wasm_apex_proc_alloc.h:111-112 | slot i's address lies inside the slot table, with room for a whole slot |
| ProcAlloc.StackTop | include/private/wasm_apex_proc_alloc.h:118 | the initial stack pointer lies strictly inside slot i, after its TLS area and 8 bytes below the slot's end |
| ProcAlloc.SetRegs | include/private/wasm_apex_proc_alloc.h:114-123 | succeeds iff flag i was clear; sets flag i and no other flag; on success both registers point into slot i; on failure nothing changes; proc_ptr is never written |
| ProcAlloc.LowestFree | include/private/wasm_apex_proc_alloc.h:129-149 | the lowest clear flag, or None iff every flag is set |
| ProcAlloc.Alloc | include/private/wasm_apex_proc_alloc.h:127-150 | succeeds iff some flag is clear, and then acts as set_regs on the lowest clear index; on failure nothing changes; proc_ptr is untouched |
| ProcAlloc.MarkerAddressHitsFlag | include/private/wasm_apex_proc_alloc.h:179-185 | the 32-bit flag address free stores to lies in the flag array iff proc_ptr - 1 is a slot index, and then it is flag proc_ptr - 1 |
| ProcAlloc.Free | include/private/wasm_apex_proc_alloc.h:153-199 | traps iff proc_ptr is 0; otherwise sp becomes 0, tls_base becomes 0xffffffff - TLS_SIZE and proc_ptr becomes 0; flag proc_ptr - 1 alone is cleared, or the store misses the flag array when proc_ptr exceeds MAX_PROCS |
| ProcAlloc.SlotsDisjoint | include/private/wasm_apex_proc_alloc.h:111-112 | distinct slots occupy disjoint address ranges |
| ProcAlloc.AfterAllocs | include/private/wasm_apex_proc_alloc.h:127-150 | any number of allocations keeps the table valid and does not move it |
| ProcAlloc.AllocTakesNextSlot | include/private/wasm_apex_proc_alloc.h:129-149 | on a table filled up to k, alloc takes slot k and the table is then filled up to k + 1 |
| ProcAlloc.AllocsFromEmptyFillPrefix | include/private/wasm_apex_proc_alloc.h:129-149 | from an all-clear table, k allocations set exactly flags 0..k-1 |
| ProcAlloc.AllocsFromEmptyTakeSlotsInOrder | include/private/wasm_apex_proc_alloc.h:112-149 | from an all-clear table, the k-th allocation gets slot k with slot k's registers, and the allocation after MAX_PROCS of them fails |
| ProcAlloc.AllocOnFullTableFails | include/private/wasm_apex_proc_alloc.h:129-149 | alloc fails when every flag is set |
| ProcAlloc.FreeThenAllocRecyclesSlot | include/private/wasm_apex_proc_alloc.h:118-185 | freeing slot k with all lower slots taken, then allocating, yields slot k again with the same sp and tls_base and the same flags |
| ProcAlloc.AllocThenFreeTraps | include/private/wasm_apex_proc_alloc.h:97-161 | as written, free right after a successful alloc from proc_ptr 0 traps |
| ProcAlloc.AllocThenFreeTrapsExample | include/private/wasm_apex_proc_alloc.h:82-161 | a concrete linked table on which alloc succeeds and the following free traps |
| ProcAlloc.SetRegsFixed | include/private/wasm_apex_proc_alloc.h:114-180 | the corrected set_regs behaves like set_regs on flags and registers and also records i + 1 in proc_ptr on success |
| ProcAlloc.AllocFixed | include/private/wasm_apex_proc_alloc.h:127-180 | the corrected alloc picks the same slot as alloc and leaves proc_ptr naming it |
| ProcAlloc.AllocFixedThenFreeReleases | include/private/wasm_apex_proc_alloc.h:153-199 | with the corrected alloc, alloc then free restores the flags and poisons the registers |
| ProcAllocSystem.Init | include/private/wasm_apex_proc_alloc.h:96-113 | the start-up state with all flags clear satisfies the ownership invariant |
| ProcAllocSystem.SysAlloc | include/private/wasm_apex_proc_alloc.h:127-150 | with the corrected alloc, a call by one instance keeps the invariant, makes it the owner of a previously unowned slot, and changes no other instance's registers |
| ProcAllocSystem.SysFree | include/private/wasm_apex_proc_alloc.h:153-199 | a free traps iff the instance holds nothing; otherwise it releases exactly the slot that instance owns and keeps the invariant |
| ProcAllocSystem.MutualExclusion | include/private/wasm_apex_proc_alloc.h:111-123 | with the corrected allocator, two instances that both hold a slot hold different slots, with disjoint memory |
| ProcAllocSystem.Run | include/private/wasm_apex_proc_alloc.h:127-199 | with the corrected allocator, every interleaving of whole alloc and free calls keeps the invariant |
| ProcAllocSystem.NoScheduleBreaksExclusion | include/private/wasm_apex_proc_alloc.h:114-199 | with the corrected allocator, after any schedule from start-up no two instances name the same slot |
| ProcAllocSystem.InitAsWritten | include/private/wasm_apex_proc_alloc.h:96-113 | start-up with all flags clear and no instance running on a slot satisfies the invariant of the header as written |
| ProcAllocSystem.SysAllocAsWritten | include/private/wasm_apex_proc_alloc.h:127-150 | as written, a successful alloc makes the caller run on and own a slot nobody owned, sets flags only, leaves proc_ptr at 0 and changes no other instance |
| ProcAllocSystem.SysFreeAsWritten | include/private/wasm_apex_proc_alloc.h:153-161 | as written, proc_ptr is always 0, so every free traps |
| ProcAllocSystem.RunAsWritten | include/private/wasm_apex_proc_alloc.h:127-199 | as written, every interleaving keeps the invariant, only ever sets flags and never changes an owner: no slot is recycled |
| ProcAllocSystem.MutualExclusionAsWritten | include/private/wasm_apex_proc_alloc.h:111-150 | as written, two instances running on slots run on different slots, with disjoint memory |
| ProcAllocSystem.NoScheduleBreaksExclusionAsWritten | include/private/wasm_apex_proc_alloc.h:114-199 | as written, after any schedule from start-up no two instances run on the same slot |
| SharedMemType.FindSharedMemory | pkgs/arinc653-wasm-harness/src/lib.rs:23-37 | the first import with both names equal that is a shared memory; None iff there is none; other same-named imports are skipped |
| SharedMemType.InferSingle | pkgs/arinc653-wasm-harness/src/lib.rs:16-44 | the first qualifying import's limits, unchanged, and None iff no import qualifies |
| SharedMemType.InferSingleKeepsInvertedLimits | pkgs/arinc653-wasm-harness/src/lib.rs:40-43 | limits with minimum 5 and maximum 2 are returned as they are |
| SharedMemType.MergedMin | pkgs/example_wasm_runtime/src/lib.rs:10-30 | the merged minimum is at least every module's minimum and is 0 or one of them |
| SharedMemType.MergedMax | pkgs/example_wasm_runtime/src/lib.rs:11-39 | the merged maximum is at most every declared maximum and is one of them; None iff no module declares one |
| SharedMemType.MergedMatchesAll | pkgs/example_wasm_runtime/src/lib.rs:8-48 | the merged limits match every module's limits under the import-subtyping rule |
| SharedMemType.MergedIsPrincipal | pkgs/example_wasm_runtime/src/lib.rs:8-48 | any limits matching every module have at least the merged minimum and at most the merged maximum |
| SharedMemType.CollectLimits | pkgs/example_wasm_runtime/src/lib.rs:13-28 | each module's qualifying limits in order; None iff some module has no qualifying import |
| SharedMemType.InferMerged | pkgs/example_wasm_runtime/src/lib.rs:3-49 | None if some module lacks the import; otherwise the merged limits, or None when the minimum exceeds the maximum; `Some((0, None))` for no modules |
| SharedMemType.CollectNoneExtends | pkgs/example_wasm_runtime/src/lib.rs:13-28 | a module without the import makes the whole merge None, so returning early is sound |
| SharedMemType.MergeRejectsConflictingLimits | pkgs/example_wasm_runtime/src/lib.rs:42-46 | minimum 4 and maximum 3 from two modules are rejected |
| Shmem.AsUsize | pkgs/arinc653-wasm-harness/src/a653.rs:185 | `ptr as usize` keeps a non-negative pointer and sign-extends a negative one above 2^64 - 2^31 |
| Shmem.ExtractCells | pkgs/arinc653-wasm-harness/src/a653.rs:184-190 | succeeds iff the pointer is non-negative and ptr + len fits the memory, and then yields exactly the len bytes at ptr |
| Shmem.ExtractBytes | pkgs/arinc653-wasm-harness/src/a653.rs:192-199 | the bytes `mem[ptr..ptr+len]` under the same range condition |
| Shmem.BeforeNul | pkgs/arinc653-wasm-harness/src/a653.rs:203 | a prefix free of zero bytes, ended by a zero byte or by the end of the input |
| Shmem.ExtractStr | pkgs/arinc653-wasm-harness/src/a653.rs:201-205 | out of range is an error; otherwise it succeeds iff the bytes before the first NUL are valid UTF-8, and the string encodes back to exactly those bytes |
| Shmem.ExtractedStrHasNoNul | pkgs/arinc653-wasm-harness/src/a653.rs:201-205 | a string read from guest memory contains no NUL |
| Shmem.EncodedNulFree | pkgs/arinc653-wasm-harness/src/a653.rs:203-204 | a string whose UTF-8 encoding has no zero byte has no NUL character |
| Shmem.ExtractStrStopsAtNul | pkgs/arinc653-wasm-harness/src/a653.rs:201-205 | `68 69 00 FF` reads as "hi": the invalid byte after the NUL is never decoded |
| Shmem.WriteBytes | pkgs/arinc653-wasm-harness/src/a653.rs:207-213 | succeeds iff the range fits; writes val at ptr and leaves every other byte as it was |
| Shmem.WriteThenExtract | pkgs/arinc653-wasm-harness/src/a653.rs:192-213 | reading back the range just written yields the bytes written |
| Shmem.LeBytes | pkgs/arinc653-wasm-harness/src/a653.rs:217-237 | `to_le_bytes` gives n bytes whose little-endian value is v |
| Shmem.LeBytesOfValue | pkgs/arinc653-wasm-harness/src/a653.rs:217-237 | the converse round trip: encoding the little-endian value of a byte sequence gives the sequence back |
| Shmem.FromToTwos | pkgs/arinc653-wasm-harness/src/a653.rs:215-233 | reading a two's complement encoding back as signed gives the value |
| Shmem.WriteI64 | pkgs/arinc653-wasm-harness/src/a653.rs:215-223 | succeeds iff 8 bytes fit at ptr, and then they hold the little-endian two's complement of val and every other byte is unchanged |
| Shmem.WriteI32 | pkgs/arinc653-wasm-harness/src/a653.rs:225-233 | succeeds iff 4 bytes fit at ptr, and then they hold the little-endian two's complement of val and every other byte is unchanged |
| Shmem.WriteU8 | pkgs/arinc653-wasm-harness/src/a653.rs:235-243 | succeeds iff ptr is inside the memory, and then exactly that byte becomes val |
| Shmem.WriteI64ReadsBack | pkgs/arinc653-wasm-harness/src/a653.rs:192-223 | the 8 bytes read back after write_i64 decode to the value written |
| Shmem.WriteI32ReadsBack | pkgs/arinc653-wasm-harness/src/a653.rs:192-233 | the 4 bytes read back after write_i32 decode to the value written |
| Shmem.LittleEndianExamples | pkgs/arinc653-wasm-harness/src/a653.rs:225-233 | -1 is stored as four 0xFF bytes and 1 as `01 00 00 00` |
| Shmem.NegativePointerIsOutOfRange | pkgs/arinc653-wasm-harness/src/a653.rs:184-190 | a negative guest pointer is always out of range |
| Utf8.DecodeEncode | pkgs/arinc653-wasm-harness/src/a653.rs:204 | every string's UTF-8 encoding decodes back to it |
| Utf8.EncodeDecode | pkgs/arinc653-wasm-harness/src/a653.rs:204 | every accepted byte sequence is exactly the encoding of what it decodes to |
| Utf8.AsciiIsValid | pkgs/arinc653-wasm-harness/src/a653.rs:204 | ASCII bytes are valid UTF-8, one character per byte |
| Utf8.RejectsIllFormed | pkgs/arinc653-wasm-harness/src/a653.rs:204 | a lone continuation byte, an overlong encoding and an encoded surrogate are rejected |
| Ascii.LowerAscii | pkgs/arinc653-wasm-harness/src/process.rs:142-144 | lowers ASCII letters position by position and keeps the length |
| Ascii.EqIgnoreAsciiCase | pkgs/arinc653-wasm-harness/src/config.rs:79-83 | `eq_ignore_ascii_case`: same length and equal characters after ASCII folding, position by position |
| Ascii.EqIgnoreAsciiCaseIffLowerEqual | pkgs/arinc653-wasm-harness/src/config.rs:79-83 | names are equal ignoring ASCII case iff their ASCII-lowered forms are equal |
| Ascii.EqIgnoreAsciiCaseIsEquivalence | pkgs/arinc653-wasm-harness/src/process.rs:140-146 | equality ignoring ASCII case is reflexive, symmetric and transitive |
| Ascii.ToAsciiLowerOnlyFoldsLetters | pkgs/arinc653-wasm-harness/src/config.rs:79-83 | two different characters are identified only when they are an ASCII letter in its two cases |
| ProcessTable.NewProcess | pkgs/arinc653-wasm-harness/src/process.rs:81-87 | a new process is disabled and has no thread |
| ProcessTable.SameProcess | pkgs/arinc653-wasm-harness/src/process.rs:140-146 | two processes are equal when their names are equal ignoring ASCII case |
| ProcessTable.Insert | pkgs/arinc653-wasm-harness/src/process.rs:40-48 | rejects a process whose name equals an existing one ignoring ASCII case and leaves the table as it was; otherwise it appends and returns the previous length |
| ProcessTable.InsertKeepsNamesDistinct | pkgs/arinc653-wasm-harness/src/process.rs:40-48 | insertion preserves pairwise-distinct names |
| Ints.I64AsUsize | pkgs/arinc653-wasm-harness/src/process.rs:51 | `pid as usize`, and `id as usize` for port ids, keeps a non-negative value and maps a negative one to the same value modulo 2^64, beyond `isize::MAX` |
| ProcessTable.GetFromPid | pkgs/arinc653-wasm-harness/src/process.rs:50-52 | finds the pid-th process iff 0 <= pid < len; a negative pid finds nothing |
| ProcessTable.InsertThenGet | pkgs/arinc653-wasm-harness/src/process.rs:40-52 | the returned pid finds the inserted process, and other pids find what they found before |
| ProcessTable.InsertAll | pkgs/arinc653-wasm-harness/src/process.rs:40-48 | successive successful inserts append in order and keep names distinct |
| ProcessTable.PidsAreDense | pkgs/arinc653-wasm-harness/src/process.rs:45-52 | after inserting a list into an empty table, pid k is the k-th process and no other pid exists |
| ProcessTable.Enable | pkgs/arinc653-wasm-harness/src/process.rs:119-121 | sets the enabled flag and changes nothing else |
| ProcessTable.EnablePid | pkgs/arinc653-wasm-harness/src/process.rs:50-121 | enables exactly the process with that pid, or reports that there is none |
| ProcessTable.Spawn | pkgs/arinc653-wasm-harness/src/process.rs:89-117 | refuses a spawned process, then a disabled one; then a registration error, a missing entry function or a refused thread is an error, and a failed instantiation, a missing or trapping `proc_alloc` or a result other than 1 is a panic; succeeds iff no step fails, recording the thread |
| ProcessTable.ProcAllocResult | include/private/wasm_apex_proc_alloc.h:127-150 | the value `proc_alloc` returns is 1 iff the allocation succeeded, and 0 otherwise |
| ProcessTable.FullSlotTablePanics | pkgs/arinc653-wasm-harness/src/a653.rs:482-500 | after MAX_PROCS allocations from start-up, spawning one more enabled process panics in `instantiate_process` whatever the other steps do |
| ProcessTable.SpawnGuardsPrecedeLaunch | pkgs/arinc653-wasm-harness/src/process.rs:89-98 | when a guard fires, the outcome does not depend on the launch |
| ProcessTable.SpawnAll | pkgs/arinc653-wasm-harness/src/process.rs:60-66 | spawns the enabled processes in table order, leaves disabled ones untouched, and stops at the first enabled process whose spawn fails or panics, keeping the earlier spawns |
| ProcessTable.SpawnAllSucceedsIff | pkgs/arinc653-wasm-harness/src/process.rs:60-97 | spawn_all succeeds exactly when every enabled process was unspawned and could launch |
| ProcessTable.GetFromTid | pkgs/arinc653-wasm-harness/src/process.rs:54-58 | the first process whose thread has the id, or None iff there is none |
| ProcessTable.Clear | pkgs/arinc653-wasm-harness/src/process.rs:68-70 | hands back every process in order and leaves the table empty |
| Channel.SamePort | pkgs/arinc653-wasm-harness/src/config.rs:79-83 | two ports are equal when their names are equal ignoring ASCII case |
| Channel.Elapsed | pkgs/arinc653-wasm-harness/src/channel.rs:113 | the time since the stamp, saturating at zero |
| Channel.MessageValidity | pkgs/arinc653-wasm-harness/src/channel.rs:112-118 | Invalid iff the age strictly exceeds the refresh period; an age equal to it is Valid |
| Channel.ValidityIsMonotone | pkgs/arinc653-wasm-harness/src/channel.rs:112-118 | a message that is invalid stays invalid later |
| Channel.DefaultMessage | pkgs/arinc653-wasm-harness/src/channel.rs:121-128 | the default message is empty and stamped now |
| Channel.NewUdpPort | pkgs/arinc653-wasm-harness/src/channel.rs:138-165 | succeeds iff socket setup succeeded; a failed bind of a source port panics |
| Channel.UdpRead | pkgs/arinc653-wasm-harness/src/channel.rs:167-175 | only a destination port reads; a received datagram becomes the message, truncated to the buffer size |
| Channel.UdpWrite | pkgs/arinc653-wasm-harness/src/channel.rs:177-183 | only a source port writes; it succeeds iff the send did |
| Channel.NewSamplingPort | pkgs/arinc653-wasm-harness/src/channel.rs:57-70 | a fresh port carries its config and refresh period, and its last message is empty |
| Channel.Read | pkgs/arinc653-wasm-harness/src/channel.rs:76-83 | always Ok with a copy of the last message; a successful receive replaces it, a failed one leaves the port as it was |
| Channel.SourcePortReadsStayPut | pkgs/arinc653-wasm-harness/src/channel.rs:76-83 | reading a source port returns its last message and changes nothing |
| Channel.FreshPortReadsEmpty | pkgs/arinc653-wasm-harness/src/channel.rs:57-128 | a fresh port reads back an empty message until something arrives |
| Channel.Write | pkgs/arinc653-wasm-harness/src/channel.rs:85-91 | always Ok, and the port is unchanged |
| Channel.WriteHidesDirectionError | pkgs/arinc653-wasm-harness/src/channel.rs:85-91 | writing to a destination port reports Ok although the UDP write failed |
| Channel.Insert | pkgs/arinc653-wasm-harness/src/channel.rs:19-46 | rejects a port whose config name equals an existing one ignoring ASCII case and leaves the table as it was; otherwise it appends and returns the previous length |
| Channel.InsertKeepsNamesDistinct | pkgs/arinc653-wasm-harness/src/channel.rs:19-27 | insertion preserves pairwise-distinct port names |
| Channel.GetPort | pkgs/arinc653-wasm-harness/src/channel.rs:29-31 | the id-th port iff 0 <= id < len |
| Channel.PutPort | pkgs/arinc653-wasm-harness/src/channel.rs:29-31 | storing a port back through its id changes that entry only |
| Channel.InsertThenGet | pkgs/arinc653-wasm-harness/src/channel.rs:19-31 | the returned id finds the inserted port |
| Partition.CreateProcess | pkgs/arinc653-wasm-harness/src/a653.rs:64-72 | panics iff a process of that name, ignoring ASCII case, exists, and then leaves the partition as it was; otherwise it appends the new process and returns the next pid |
| Partition.Start | pkgs/arinc653-wasm-harness/src/a653.rs:85-89 | panics iff the pid is unknown; otherwise it enables exactly that process |
| Partition.CreateThenStart | pkgs/arinc653-wasm-harness/src/a653.rs:64-89 | a created and started process is enabled and has no thread yet |
| Partition.SetPartitionMode | pkgs/arinc653-wasm-harness/src/a653.rs:91-107 | only NORMAL acts; on success every enabled process launched and runs on its thread and the mode is NORMAL; otherwise the mode is unchanged, every enabled process before the failing one k spawned successfully and keeps its thread, processes from k on are untouched, and the result is k's error, or a panic when k's spawn panicked; ports and disabled processes are untouched |
| Partition.SpawnErrorToProvider | pkgs/arinc653-wasm-harness/src/a653.rs:91-96 | a spawn error reaches the guest as that error, and a panic during a spawn as a panic |
| Partition.FindConfiguredPort | pkgs/arinc653-wasm-harness/src/a653.rs:116-122 | the first configured port whose name equals the requested one ignoring ASCII case; None iff there is none |
| Partition.ChannelErrorToProvider | pkgs/arinc653-wasm-harness/src/a653.rs:123 | a socket set-up panic reaches the guest as a panic, every other channel error as that error |
| Partition.CreateSamplingPort | pkgs/arinc653-wasm-harness/src/a653.rs:109-127 | succeeds iff the name is configured, the socket is set up and no created port has that name; an unconfigured name is an error; a source port's failed bind or connect is a panic; on success the new port is appended with the next id, its configuration and an empty last message, and nothing else changes; errors change nothing |
| Partition.SecondCreateFails | pkgs/arinc653-wasm-harness/src/a653.rs:109-127 | creating the same port again, under any ASCII case, fails |
| Partition.WriteSamplingMessage | pkgs/arinc653-wasm-harness/src/a653.rs:129-135 | fails iff the sid is unknown, and never changes the partition |
| Partition.ReadSamplingMessage | pkgs/arinc653-wasm-harness/src/a653.rs:137-145 | fails iff the sid is unknown; otherwise the port's last message with its validity for the port's refresh period; only that port's last message may change, as the port's read decides |
| Partition.RereadWithoutTrafficReturnsSameMessage | pkgs/arinc653-wasm-harness/src/a653.rs:137-145 | two reads with nothing received in between return the same message |
| CTypes.New | pkgs/c-abi-lens/src/code_gen/c_types.rs:32-84 | fails iff sizeof fails; integer kinds of 1/2/4/8 bytes give Integer, floats of 4/8 give Float, a constant array of a sized element gives Array of the array length, and anything else gives Opaque of its size |
| CTypes.Layers | pkgs/c-abi-lens/src/code_gen/c_types.rs:208-240 | the layers start at the type, go through each Array's element, and end at the first non-Array |
| CTypes.RecurseIntoType | pkgs/c-abi-lens/src/code_gen/c_types.rs:208-240 | visits every layer outermost first, with is_first only on the first visit and is_last exactly on the non-Array layer |
| CTypes.Dims | pkgs/c-abi-lens/src/code_gen/c_types.rs:175-184 | one dimension per Array layer: the outer length first |
| CTypes.ElementType | pkgs/c-abi-lens/src/code_gen/c_types.rs:156-170 | the last layer, never an Array |
| CTypes.ElementTypeIsInnermost | pkgs/c-abi-lens/src/code_gen/c_types.rs:156-170 | the element type is the innermost type, and an Array shares it with its element |
| CTypes.Length | pkgs/c-abi-lens/src/code_gen/c_types.rs:189-202 | the product of all dimensions, and 1 for a non-Array |
| CTypes.LayerProductIsDimsProduct | pkgs/c-abi-lens/src/code_gen/c_types.rs:196-200 | multiplying `length_1d` over the layers gives the product of the dimensions |
| CTypes.LengthOfArray | pkgs/c-abi-lens/src/code_gen/c_types.rs:175-202 | an Array's length is its outer length times its element's length |
| CTypes.ElementSizeBytes | pkgs/c-abi-lens/src/code_gen/c_types.rs:144-154 | the innermost element's byte width; it fails exactly for Opaque without a size, `uintptr_t` and `void` |
| CTypes.TotalSizeBytes | pkgs/c-abi-lens/src/code_gen/c_types.rs:135-139 | the element size times the length; it fails exactly when the element size does |
| CTypes.TotalSizeOfArray | pkgs/c-abi-lens/src/code_gen/c_types.rs:135-202 | an Array's total size is its outer length times its element's total size |
| CTypes.FormatAsType | pkgs/c-abi-lens/src/code_gen/c_types.rs:87-130 | renders iff no float of a width other than 4 or 8 is involved; an Array renders as its element type, the name, then `[n]` per dimension |
| CTypes.ScalarFormatAppendsName | pkgs/c-abi-lens/src/code_gen/c_types.rs:87-126 | for scalars other than `uintptr_t` and `void`, rendering with a name is rendering without it plus a space and the name |
| CTypes.ArrayDeclaratorIsNested | pkgs/c-abi-lens/src/code_gen/c_types.rs:113-123 | rendering `x` of an Array is rendering `x[n]` of its element: the C declarator reading |
| CTypes.FormatArrayExample | pkgs/c-abi-lens/src/code_gen/c_types.rs:254-267 | `[7][11]` of `uint32_t` named arr renders as `uint32_t arr[7][11]` |
| CTypes.NewIsSizedAndRenderable | pkgs/c-abi-lens/src/code_gen/c_types.rs:32-84 | every classified type has a known size and renders without panicking |
| Text.NatToString | pkgs/c-abi-lens/src/code_gen/function_emitter.rs:121 | decimal digits without a leading zero |
| Text.ParseNatToString | pkgs/c-abi-lens/src/code_gen/function_emitter.rs:121 | the printed digits read back as the number |
| Text.NatToStringInjective | pkgs/c-abi-lens/src/code_gen/function_emitter.rs:121 | different numbers print differently |
| Text.Lines | pkgs/c-abi-lens/src/code_gen/tokens.rs:102-172 | lines contain no line feed, and there are none iff the text is empty |
| Text.LinesRoundTrip | pkgs/c-abi-lens/src/code_gen/tokens.rs:102-172 | for text without carriage returns, the lines each followed by a line feed give the text back, with a line feed added at the end if it lacked one |
| Text.Join | pkgs/c-abi-lens/src/code_gen/tokens.rs:144 | joining nothing is empty and joining one part is that part |
| Text.JoinLinesThenTerminate | pkgs/c-abi-lens/src/code_gen/tokens.rs:116-128 | joining lines with line feeds and adding one is terminating every line |
| Text.Centre | pkgs/c-abi-lens/src/code_gen/tokens.rs:165 | a text at least as wide as the field is unchanged, and otherwise the result is exactly the field's width |
| Text.CentreIsBalanced | pkgs/c-abi-lens/src/code_gen/tokens.rs:165 | the text sits in the middle, with half the padding (rounded down) on the left |
| Tokens.IncludeText | pkgs/c-abi-lens/src/code_gen/tokens.rs:39-44 | `#include<h>` and a line feed for a system header; `#include"h"` followed by a backslash and an `n`, not a line feed, for a library header, as the raw string spells it |
| Tokens.IncludeTextIsInjective | pkgs/c-abi-lens/src/code_gen/tokens.rs:39-44 | different includes never render alike |
| Tokens.LibraryIncludeHasNoLineFeed | pkgs/c-abi-lens/src/code_gen/tokens.rs:42 | as written, a library include of a header without line feeds contains no line feed and ends in a backslash and an `n` |
| Tokens.IncludeTextFixed | pkgs/c-abi-lens/src/code_gen/tokens.rs:39-44 | the corrected include: the system form unchanged, the library form ended by a line feed |
| Tokens.IncludeTextFixedIsOneLine | pkgs/c-abi-lens/src/code_gen/tokens.rs:39-44 | with the correction, every include of a header without line feeds is exactly one line ending in a line feed |
| Tokens.FuncPrefix | pkgs/c-abi-lens/src/code_gen/tokens.rs:94-96 | the prefix and a space, or nothing |
| Tokens.FormatComment | pkgs/c-abi-lens/src/code_gen/tokens.rs:99-111 | opens with a slash and star and ends with a slash and line feed; a non-empty comment ends with a line feed, space, star, slash and line feed |
| Tokens.EmptyCommentIsUnterminated | pkgs/c-abi-lens/src/code_gen/tokens.rs:99-111 | an empty comment renders as slash, star, slash, which C does not read as a closed comment |
| Tokens.FormatCommentExample | pkgs/c-abi-lens/src/code_gen/tokens.rs:99-111 | the emitter's title, blank line and description layout renders line by line, the blank line with no space |
| Tokens.IndentAll | pkgs/c-abi-lens/src/code_gen/tokens.rs:119-123 | each line is tab-indented unless it is empty |
| Tokens.FormatBody | pkgs/c-abi-lens/src/code_gen/tokens.rs:116-128 | panics iff the body is empty; otherwise the indented lines joined by line feeds, with no trailing line feed |
| Tokens.FormatBodyOneLine | pkgs/c-abi-lens/src/code_gen/tokens.rs:116-128 | a one-line body is that line after a tab |
| Tokens.ArgTexts | pkgs/c-abi-lens/src/code_gen/tokens.rs:133-137 | each argument rendered with its name, in order, unless a type cannot render |
| Tokens.FormatArgs | pkgs/c-abi-lens/src/code_gen/tokens.rs:131-145 | `void` for no arguments, otherwise the rendered arguments joined by `, ` |
| Tokens.Generate | pkgs/c-abi-lens/src/code_gen/tokens.rs:64-91 | renders iff the return type and arguments render and, when a body is emitted, the body is not empty; the text is the optional comment, the optional prefix, the return type, the name and the parenthesised arguments, then the braced body or `;` |
| Tokens.CommentIsPrepended | pkgs/c-abi-lens/src/code_gen/tokens.rs:73-91 | emitting the comment only puts the formatted comment in front of the text rendered without it, and does not change whether it renders |
| Tokens.PrototypeMatchesDefinition | pkgs/c-abi-lens/src/code_gen/tokens.rs:64-91 | a prototype and a definition agree up to the closing parenthesis; then one has `;` and the other the braced body |
| Tokens.SectionText | pkgs/c-abi-lens/src/code_gen/tokens.rs:162-178 | panics iff the width is below 4; otherwise the centred banner, followed by a comment block when there is a comment |
| Tokens.SectionBannerIsWidthWide | pkgs/c-abi-lens/src/code_gen/tokens.rs:162-165 | a banner whose title fits is exactly width characters wide: slashes at both ends, the title centred, stars elsewhere |
| Tokens.CentredTitleIsBanner | pkgs/c-abi-lens/src/code_gen/tokens.rs:165 | the centred title between the delimiters has that banner shape |
| FunctionEmitter.FieldFunctionNamesDiffer | pkgs/c-abi-lens/src/code_gen/function_emitter.rs:147 | per-field functions of different operations get different names |
| FunctionEmitter.StructAndFieldNamesCanCollide | pkgs/c-abi-lens/src/code_gen/function_emitter.rs:95-147 | a struct `A__B`'s sizeof and field `B` of struct `A`'s sizeof share a name |
| FunctionEmitter.EmitPerStructFunctions | pkgs/c-abi-lens/src/code_gen/function_emitter.rs:90-126 | fails with nothing emitted iff the struct has no size; otherwise it appends the section, a blank line, the sizeof function and a blank line |
| FunctionEmitter.ByteSwapFn | pkgs/c-abi-lens/src/code_gen/function_emitter.rs:203-209 | a helper exists iff the width is 1, 2, 4 or 8, and it is empty for single bytes |
| FunctionEmitter.ByteSwapFnNamesWidth | pkgs/c-abi-lens/src/code_gen/function_emitter.rs:205 | the helper is named `bswap_` and the bit width |
| FunctionEmitter.ScalarSwapStatement | pkgs/c-abi-lens/src/code_gen/function_emitter.rs:225-230 | swap code exists iff swapping is asked for and the width is not 1 |
| FunctionEmitter.CopyCode | pkgs/c-abi-lens/src/code_gen/function_emitter.rs:285-301 | the array copy is the byte loop iff swapping is asked for and the element width is not 1, and `memcpy` otherwise |
| FunctionEmitter.AddAccessor | pkgs/c-abi-lens/src/code_gen/function_emitter.rs:233-251 | two inserts at len - 2 put the function and its blank line in front of the last two snippets |
| FunctionEmitter.AddAccessors | pkgs/c-abi-lens/src/code_gen/function_emitter.rs:233-335 | successive accessor inserts land in order in front of the last two snippets |
| FunctionEmitter.AccessorFuncs | pkgs/c-abi-lens/src/code_gen/function_emitter.rs:211-359 | get and set for integer and float kinds, read and write for constant arrays of integers or floats, and otherwise one getter returning a void pointer |
| FunctionEmitter.EmitTypedField | pkgs/c-abi-lens/src/code_gen/function_emitter.rs:155-361 | fails iff the element width has no byte-swap helper, keeping the section, sizeof and offsetof already pushed; otherwise the accessors sit between sizeof and offsetof |
| FunctionEmitter.EmitPerFieldFunctions | pkgs/c-abi-lens/src/code_gen/function_emitter.rs:133-153 | an unaligned offset or an unsized type fails with nothing emitted; otherwise the offset in bytes is offset_bits / 8; earlier snippets are always kept |
| FunctionEmitter.ScalarFieldOrder | pkgs/c-abi-lens/src/code_gen/function_emitter.rs:155-273 | a scalar field yields section, sizeof, get, set and offsetof, each followed by a blank line, with offsetof returning offset_bits / 8 |
| FunctionEmitter.OddSizedRecordGetsNoAccessor | pkgs/c-abi-lens/src/code_gen/function_emitter.rs:155-209 | a 12-byte struct field fails on the byte-swap helper after its section, sizeof and offsetof, even without swapping |
| FunctionEmitter.EmitFields | pkgs/c-abi-lens/src/code_gen/function_emitter.rs:30-83 | succeeds iff every child is a named FieldDecl; fields of unknown offset or type are skipped; per-field errors are swallowed; emitted snippets are kept (what a known field adds is stated by KnownFieldIsEmitted) |
| FunctionEmitter.KnownFieldIsEmitted | pkgs/c-abi-lens/src/code_gen/function_emitter.rs:45-81 | a named field with a known offset and type contributes exactly what `emit_per_field_functions` emits for it, before the later fields |
| FunctionEmitter.FieldOutputIsAppended | pkgs/c-abi-lens/src/code_gen/function_emitter.rs:133-153 | a field's snippets and outcome do not depend on what was emitted before it; they are appended |
| FunctionEmitter.UnknownFieldIsSkipped | pkgs/c-abi-lens/src/code_gen/function_emitter.rs:45-64 | a field of unknown offset or type contributes nothing |
| FunctionEmitter.InsertStructFunctions | pkgs/c-abi-lens/src/code_gen/function_emitter.rs:12-87 | missing type, size or name fail with nothing emitted; otherwise the struct's snippets and a blank line come first; success iff every child is a named field; on success the output is the fields' snippets after that head, then a blank line |
| ByteSwap.SourceIndexAsWrittenIsElementEnd | pkgs/c-abi-lens/src/code_gen/function_emitter.rs:292-295 | the generated source index is always the last byte of the current element, so it stays inside the array |
| ByteSwap.CopyAsWritten | pkgs/c-abi-lens/src/code_gen/function_emitter.rs:292-295 | the generated loop copies byte i from the generated source index, which is in bounds |
| ByteSwap.CopyAsWrittenRepeatsLastByte | pkgs/c-abi-lens/src/code_gen/function_emitter.rs:292-295 | every byte of an element receives that element's last byte |
| ByteSwap.CopyAsWrittenDoesNotSwap | pkgs/c-abi-lens/src/code_gen/function_emitter.rs:285-295 | the two-byte element `[1, 2]` comes out as `[2, 2]`, not `[2, 1]` |
| ByteSwap.SourceIndexFixedMirrors | pkgs/c-abi-lens/src/code_gen/function_emitter.rs:285 | the corrected index takes byte j of an element from byte e - 1 - j of the same element |
| ByteSwap.CopyFixed | pkgs/c-abi-lens/src/code_gen/function_emitter.rs:285-295 | the corrected loop copies byte i from the mirrored index, which is in bounds |
| ByteSwap.CopyFixedReversesEachElement | pkgs/c-abi-lens/src/code_gen/function_emitter.rs:285 | the corrected loop reverses the bytes of every element |
| ByteSwap.CopyFixedIsInvolution | pkgs/c-abi-lens/src/code_gen/function_emitter.rs:285 | swapping twice gives the bytes back |
| ByteSwap.CopyFixedSwaps | pkgs/c-abi-lens/src/code_gen/function_emitter.rs:285 | `[1, 2]` comes out as `[2, 1]` |
| ByteSwap.SingleBytesAreCopied | pkgs/c-abi-lens/src/code_gen/function_emitter.rs:287-299 | for one-byte elements both loops are a plain copy |
| StdintTypes.NewInteger | pkgs/c-abi-lens/src/c_types.rs:27-50 | fails on a type that is not an integer, pointer or enum, then on an unknown size, then on a size outside 1, 2, 4 and 8; otherwise it keeps the size and signedness |
| StdintTypes.NewByteArray | pkgs/c-abi-lens/src/c_types.rs:76-90 | any type with a known size, keeping that size |
| StdintTypes.ReturnType | pkgs/c-abi-lens/src/c_types.rs:54-121 | `uint<n>_t` or `int<n>_t` with n eight times the byte width for an integer, `uint8_t` for a byte array, `void*` for a type without representation |
| StdintTypes.ArgumentType | pkgs/c-abi-lens/src/c_types.rs:60-125 | the return type, a space and the argument name, followed by the bracketed byte count for a byte array and by nothing otherwise |
| StdintTypes.SizeBytes | pkgs/c-abi-lens/src/c_types.rs:65-135 | the byte width for an integer and a byte array; for a type without representation its type's sizeof, or 0 when there is no type or no size |
| StdintTypes.ConstructedSizeIsSizeof | pkgs/c-abi-lens/src/c_types.rs:27-90 | a formatter constructed from a type stands for exactly that type's sizeof |
| StdintTypes.ByteArrayArgumentDeclaresSize | pkgs/c-abi-lens/src/c_types.rs:93-106 | for every size and name, a byte-array argument is `uint8_t`, the name and a bracketed decimal count that reads back as the formatter's size |
| StdintTypes.IntegerWidthIsSize | pkgs/c-abi-lens/src/c_types.rs:53-67 | the width an integer's name states is eight times the formatter's size |
| StdintTypes.IntegerNameRoundTrip | pkgs/c-abi-lens/src/c_types.rs:54-58 | the integer type name reads back as its signedness and 8 times its byte width |
| StdintTypes.IntegerNamesDiffer | pkgs/c-abi-lens/src/c_types.rs:54-58 | integers of different width or signedness get different names |
| StdintTypes.IntegersAgreeWithRepresentable | pkgs/c-abi-lens/src/c_types.rs:27-63 | for integer kinds the `stdint.h` names equal those `RepresentableCType` renders, bare and with a name |
| StdintTypes.PointersPrintAsIntegers | pkgs/c-abi-lens/src/c_types.rs:28-58 | an 8-byte pointer is `int64_t` here but `void *` as a `RepresentableCType` |
| StdintTypes.ByteArrayArgumentExample | pkgs/c-abi-lens/src/c_types.rs:98-102 | a 12-byte argument named buf is `uint8_t buf[12]` |

## Left out

- Real concurrency in the allocator is not modelled. This covers compare-and-swap interleavings inside the alloc loop, memory ordering and the inline assembly beyond its net effect on registers and flags. Each exported call is one atomic step.
- The stack-usage problem noted in the allocator's own comment (include/private/wasm_apex_proc_alloc.h:133-135) is not modelled. It concerns the compiler's use of the stack during the call.
- Alignment of the initial stack pointer is not stated: the code does not enforce it.
- ProcAlloc.SetRegs: `i < MAX_PROCS` is a precondition because the source has no bounds check; an out-of-range index is a memory-safety question outside this model.
- Wasmtime plumbing is left out: the `host_*` functions, the linker calls of `register_*` and `init_process`, the table lookup of `find_function` and both `run` functions. What they observe enters as the `ProcessTable.Launch` parameter, which keeps the recoverable errors of `spawn` apart from the four panics of `instantiate_process`.
- The locks of `PartitionContext` and the condition-variable wait in `set_partition_mode` are left out. Each service is one step.
- `get_current_process_name` and the logging services are left out. They depend on thread ids and only log.
- `extract_proc_attrs` and `ProcAttrBuffer` are left out. They are binrw decoding through volatile raw-pointer reads.
- UDP socket setup, send and receive are parameters. Their outcomes are nondeterministic.
- Time (`Instant`) is an abstract number of nanoseconds supplied by the caller.
- The configuration, the command lines and both `main` programs are left out; they are clap, serde and toml wrappers. Only `Port::eq` is kept, as the port-table equality.
- `clang_args_from_env` is left out because it reads the environment. The libclang traversal is abstracted to kind, size, element and offset data. Type canonicalisation is taken as already done. A field's offset is a function from field name to bits.
- The `Debug` text of libclang types is an opaque string.
- CTypes.Length: lengths and sizes are unbounded integers, so a `u64` overflow in `length` or `total_size_bytes` is not modelled.
- ProcAllocSystem.SysAlloc: runs the corrected alloc; the header as written is run by `ProcAllocSystem.SysAllocAsWritten`.
- ProcAllocSystem.MutualExclusion: stated for the corrected allocator, whose `proc_ptr` names the slot held; for the header as written see `ProcAllocSystem.MutualExclusionAsWritten`, which identifies the slot by the TLS base.
- ProcAllocSystem.Run: interleaves calls of the corrected allocator; `ProcAllocSystem.RunAsWritten` interleaves the header's.
- ProcAllocSystem.NoScheduleBreaksExclusion: stated for the corrected allocator; `ProcAllocSystem.NoScheduleBreaksExclusionAsWritten` states it for the header as written.
- ProcAllocSystem.InitAsWritten: assumes that before its first alloc no instance's TLS base is a slot's, which the linker's layout makes so but the header does not check.
- ProcAlloc.Free: a flag store outside `__proc_used` is one `StrayStore` outcome; whether it lands in linear memory or beyond it, where the store traps, is not told apart, because the memory size is not part of the allocator's state.
- SharedMemType.InferSingle: memory limits are taken as `u32`; the `try_into().unwrap()` from wasmtime's `u64` is assumed never to panic, as wasmtime documents for 32-bit memories.
- Ascii.EqIgnoreAsciiCase: compares characters where Rust compares UTF-8 bytes; that the two decide the same relation is assumed, not proved.
- Shmem.ExtractCells: the debug-build overflow panic of `ptr + len` is merged into the out-of-range error.
- Writing snippets to a file, `code_gen/mod.rs` (re-exports only), the tests and the C example programs are not part of this model.

## Findings

| source | as written | input that shows it | evidently intended | confidence | as-written member | corrected member |
|---|---|---|---|---|---|---|
| include/private/wasm_apex_proc_alloc.h:114-161 | neither `__apex_wasm_set_regs` nor `__apex_wasm_proc_alloc` stores to `__apex_wasm_proc_ptr`, but `__apex_wasm_proc_free` traps when it is 0 and otherwise uses it as the 1-based slot index | an instance starting with proc_ptr 0 calls alloc, which succeeds, then free, which executes `unreachable` | a successful set_regs(i) also sets proc_ptr to i + 1, so free releases slot i | not executed; no other store to the global appears in the header or the harness sources | ProcAlloc.AllocThenFreeTraps | ProcAlloc.AllocFixedThenFreeReleases |
| pkgs/c-abi-lens/src/code_gen/function_emitter.rs:292-295 | the emitted swap loop reads source byte `i + (e - 1) - (i % e)`, which is the last byte of the current element for every i | an array of one `uint16_t` with bytes `[1, 2]` is copied as `[2, 2]` | the reversal the comment at line 285 describes, source index `i + (e - 1) - 2 * (i % e)` | not executed; the index algebra is proved for every i and e | ByteSwap.CopyAsWrittenDoesNotSwap | ByteSwap.CopyFixedReversesEachElement |
| pkgs/c-abi-lens/src/code_gen/tokens.rs:42 | the library include is a raw string, so its `\n` is a backslash and an `n` and the line gets no line feed | `Library("a.h")` renders as `#include"a.h"` followed by a backslash and an `n`, and the next snippet continues that line | a line feed after the closing quote, as the system form has | not executed; the `Library` variant is marked dead code and is never constructed in these sources | Tokens.LibraryIncludeHasNoLineFeed | Tokens.IncludeTextFixedIsOneLine |
