# amli, modelled and proved in Dafny

amli is an interpreter for ACPI Machine Language (AML, ACPI 6.5). This project models the parts of it
whose correctness is a matter of bits, bytes, links and control flow, and proves what they promise.
`dafny verify dfyconfig.toml` checks everything.

The models follow the C code branch by branch. Code that changes state step by step is a class or a
method over arrays with the same loops; each such method is proved against a specification, and the
theorems are about the specification.

## The parts

- **Bit fields.** `Bits`, `CopyBits`, `FieldBits`, `BufferField`, `Region`, `RegionField`,
  `RegionFieldTheorems`, `AccessTypes`, `FieldEffects`, `FieldUnit`, `FieldMeanings`: fields of any bit
  offset and length, read and written through access words of 8 to 64 bits with read-modify-write and three
  update rules, on top of a bit copier with a byte fast path; buffer fields with truncation and padding;
  bank and index fields, nested to any depth, with the lock rule. Every result is stated bit by bit.
- **Scopes and mutexes.** `Locks` (a transition system), `LockState` (the imperative code, each method equal
  to one step), `LockMeanings` (what each step answers and counts), `LockTheorems` and `LockRuns` (whole
  runs): a stack of method scopes, a chain of acquisition counts per mutex, the global lock with its
  hardware half.
- **Skipping encoded AML.** `Decoder` (the skip functions over a window), `Skipper` (the cursor machine,
  each method equal to one function), `Encoding` (the grammar of section 20.2), `SkipTheorem`,
  `OpcodeTable`, `AmlBytes` (where each encoding ends and what it is worth, byte by byte).
- **Namespace.** `Hash`, `NamePaths`, `NameRules` (the map from absolute paths and the search rule of
  section 5.3 of ACPI 6.5), `NameMeanings` (what prefixes, creations and searches mean), `NameTree`,
  `Namespace` (the chained hash index, the evaluation-order list, the scope stack and the tree).
- **Control flow.** `Control` (structured statements and their semantics), `ControlMachine` (the
  interpreter's cursor, window, loop level and pending event), `ControlMeanings` (what statements over plain
  terms do), `ControlTheorems`, `ControlEndings`, `ControlLevels`.
- **Allocators.** `Heap`, `HeapMeanings` and `HeapRuns` (power-of-two bins); the arena, chunk lists with
  nested snapshots: `ChunkList` and `ArenaState` (lists and memory), `ArenaSteps` (a transition system over
  every state its pointers can reach, as the code is written and as its comments intend), `Arena` (the
  imperative code, each method equal to one step), `ArenaMeanings` (which memory an allocation gets),
  `ArenaRuns`, `ArenaTheorems` and `ArenaSound` (which steps and runs are safe), `ArenaFailures` (runs that
  are not).
- **Text and numbers.** `PathText` (path parser and printer), `Numerals` (BCD, numerals, integers and
  buffers).
- `Folding` keeps large definitions folded in proofs; it models nothing.

## Where the code does not do what it says

The models follow the code. Each difference is stated by the member named with it; where the code is right
only sometimes, that member says exactly when.

- The copier's bounds test rounds down (src/aml_base.c:32, 39): `CopyBits.SpanGuardGap`. The only caller
  that can pass such a span is a buffer field read with truncation, which hands over the count before
  truncation (src/aml_buffer_field.c:66): a field that ends inside the byte past the result is cut and
  overruns it, any longer field is refused: `BufferField.OverrunIff`, `BufferField.Read`.
- A preserving region write with truncation allowed does not read before it writes (src/aml_field.c:467), so
  it zeroes the neighbours: `RegionFieldTheorems.TruncatingPreserve`. Strings and buffers are stored in
  fields that way (src/aml_conv.c:326, 1236).
- The field bounds test adds the length rounded up to the offset rounded down (src/aml_field.c:195-196,
  424-425): for which fields it is exact, admits too much or refuses too much:
  `RegionFieldTheorems.BoundsTestExactIff`, `RegionFieldTheorems.BoundsTestAdmitsIff`,
  `RegionFieldTheorems.BoundsTestRefusesIff`.
- The hardware global lock is given back on every nested release (src/aml_mutex.c:116):
  `LockRuns.HardwareAgreesIff`, for one step `LockTheorems.ReleaseHardware` and `LockRuns.PopHardwareIff`.
  So a field with the lock rule whose bank or index register has it too is accessed without the hardware
  lock: `FieldEffects.HeldDuringIff`. When the hardware lock does not come free in time, the host mutex
  stays held (src/aml_mutex.c:53): `LockRuns.GlobalHoldsIff`, `LockRuns.TimedOutAcquireIsKept`.
- RevisionOp, and locals and arguments as SuperName, are matched without being consumed
  (src/aml_decoder.c:751, 1375): `SkipTheorem.TermArgAdvances`, `SkipTheorem.SuperNameAdvances`. A
  VarPackage that ends with the window is refused (src/aml_decoder.c:1231): `SkipTheorem.VarPackageMatches`.
  A prefix of sixteen characters is refused although there is room for it (src/aml_decoder.c:899):
  `SkipTheorem.PrefixLimit`.
- The search at the root compares the hash and the last segment only (src/aml_namespace.c:428-536):
  `NameRules.RootStepRightIffClear`.
- Releasing the first node of the evaluation-order list clears the list's head (src/aml_namespace.c:1134),
  and a later build covers nothing until a node is created, and then only from that node on:
  `Namespace.BuildIsComplete`, `Namespace.ReleasedFirstLosesOther`. A node created after the build is linked
  only below its immediate parent (src/aml_namespace.c:876): `NameTree.CreationKeepsTreeIff`.
- Committing a method's snapshot restores the pending event before it is tested (src/aml_method.c:453, 463;
  src/aml_state_snapshot.c:411), so a Break or Continue of a called method outside any loop of its own is
  never reported, and what it does depends on the caller: `ControlTheorems.LooseInCallee`,
  `ControlLevels.CallFromLoops`, `ControlLevels.CallSameAtEveryLevel`. An empty body at the very end of the
  data is refused (src/aml_eval.c:1552): `ControlEndings.EndingsExact`, `ControlEndings.EmptyMethodFails`.
- Popping a heap bin drops the blocks behind its first (src/aml_heap.c:99):
  `HeapRuns.NothingLostThroughoutIff`, `HeapRuns.LosingRun`. An empty request is taken from bin 0 and freed
  into bin 1 (src/aml_heap.c:49): `HeapRuns.ThroughoutIff`, `HeapRuns.EmptyRequestTooSmall`. Requests above
  2^63 bytes get less than they ask for: `Heap.BlockHoldsRequest`.
- A rollback across chunks leaves the list tails wrong (src/aml_arena.c:573, 583), which can hand out memory
  twice: `ChunkList.TransplantTails`, `ArenaFailures.MemoryHandedOutTwice`. When no chunk can be created the
  arena forgets its current chunk (src/aml_arena.c:429), so that a snapshot and its rollback free what is
  live: `ArenaFailures.FailureFreesLive`, `ArenaFailures.MemoryGivenAway`. A reset under an open snapshot of
  a chunk leaves the snapshot pointing into the free list. `ArenaTheorems.WrittenRun` says exactly over
  which runs none of this happens, `ArenaSound.SoundThroughoutIff` over which runs memory is sound all the
  same.
- The path parser makes too little room for many short segments (src/aml_base.c:264):
  `PathText.RoomForSegments`.

## Model

| member | source | states |
|---|---|---|
| CopyBits.CopyBits | src/aml_base.c:11-87 | Replaces exactly the given bits of memory by the given bits, and refuses exactly the spans its rounded tests refuse, changing nothing; for a span that ends inside the byte past a buffer, what it does to that byte |
| CopyBits.BitByBitCopies | src/aml_base.c:46-84 | The plain bit-by-bit loop has the same effect as the copier with its byte fast path |
| CopyBits.CopiedUnique | src/aml_base.c:46-84 | Nothing else has: whatever copies the bits is the bit-by-bit copy |
| CopyBits.SpanGuardGap | src/aml_base.c:32-41 | The rounded-down bounds test admits a span that leaves the buffer exactly when it ends inside the byte past the end |
| BufferField.Read | src/aml_buffer_field.c:13-80 | Succeeds exactly for a readable field that fits the result or overruns it by less than a byte; the result is the field's bits, zero-extended or cut, and memory past the result is changed by the overrunning bits alone |
| BufferField.OverrunIff | src/aml_buffer_field.c:38-69 | A read whose bits do not fit the result is accepted exactly if truncation is allowed and the field ends inside the byte past the result |
| BufferField.Write | src/aml_buffer_field.c:88-163 | The field holds the input, cut or zero-padded by the chunked loop, every other bit is kept, a refused write changes nothing; exactly when it is refused |
| BufferField.WriteThenRead | src/aml_buffer_field.c:13-163 | A truncating write always succeeds on a writable field, and reading the field then gives the input cut or zero-extended |
| FieldBits.RoundTripExact | src/aml_buffer_field.c:47-160 | Storing a value that fills the field and fetching it at that size is the identity |
| FieldBits.IntegerRoundTrip | src/aml_conv.c:512-565 | A 64-bit integer stored in a field of len bits and fetched as a 64-bit integer comes back modulo 2^len |
| FieldBits.FetchedUnique | src/aml_field.c:211-239 | The bits determine the fetched bytes |
| FieldBits.DisjointFieldUnaffected | src/aml_field.c:440-535 | A write that keeps the other bits does not change what a disjoint field reads |
| Region.OperationRegion.Read | src/aml_operation_region.c:147-200 | A little-endian word of the region followed by zeros; fails exactly out of range or when the region cannot be accessed |
| Region.OperationRegion.Write | src/aml_operation_region.c:207-250 | Replaces exactly the bytes of the word, or nothing |
| RegionField.FieldRead | src/aml_field.c:120-249 | Gives the first min(length, result size) bits of the field zero-extended, for every offset, length and access width; exactly when it succeeds |
| RegionField.ReadLoop | src/aml_field.c:202-239 | The chunk loop alone: succeeds exactly when every word of the wanted bits is inside the region |
| RegionField.ReadChunk | src/aml_field.c:212-239 | One chunk adds its bits behind the bits already fetched |
| RegionField.BitWordMask | src/aml_field.c:494-499 | The shifted and clipped mask selects exactly the chunk's bits of the access word, for widths up to 64 |
| RegionField.BitMerge | src/aml_field.c:513-518 | Merging under a mask takes the masked bits from the shifted input and the others from the word |
| RegionField.FieldWrite | src/aml_field.c:341-538 | Every bit of the region afterwards: the field holds the zero-extended input, other bits of touched words follow the update rule, nothing else changes; exactly when it succeeds |
| RegionField.WriteLoop | src/aml_field.c:437-535 | The read-modify-write loop over access words has that effect, word by word |
| RegionField.WriteCycle | src/aml_field.c:440-535 | One cycle writes its word as the whole write would, and leaves the rest for later cycles |
| RegionField.ComposeWord | src/aml_field.c:447-518 | The word stored by a cycle holds the input's bits and, outside them, what the update rule says |
| RegionField.WriteMore | src/aml_field.c:440-535 | Storing such a word extends the finished part of the region by one access word |
| RegionFieldTheorems.WrittenHolds | src/aml_field.c:440-535 | Whatever the width and rule, a successful write stores the zero-extended input |
| RegionFieldTheorems.ReadAfterWrite | src/aml_field.c:211-535 | Reading a written field, at any size, gives the input cut to both |
| RegionFieldTheorems.IntegerThroughField | src/aml_conv.c:1532-1548 | Storing an integer in a region field and loading it gives it modulo 2^length |
| RegionFieldTheorems.PreserveKeepsOthers | src/aml_field.c:461-518 | A preserving write without truncation changes the field's own bits only |
| RegionFieldTheorems.WidthIndependent | src/aml_field.c:341-538 | Preserving writes give the same memory at every access width that succeeds |
| RegionFieldTheorems.LastWriteWins | src/aml_field.c:341-538 | A second write to the field forgets the first, under every update rule |
| RegionFieldTheorems.DisjointWritesCommute | src/aml_field.c:341-538 | Preserving writes to disjoint fields commute, at any two widths, even when they share words |
| RegionFieldTheorems.TruncatingPreserve | src/aml_field.c:461-485 | With truncation allowed, a preserving write keeps the neighbouring bits exactly when they were zero already |
| RegionFieldTheorems.BoundsTestExactWhenAligned | src/aml_field.c:191-200 | For a field on a word boundary the bounds test is exact |
| RegionFieldTheorems.BoundsTestExactIff | src/aml_field.c:191-200 | The test is right for every region length exactly if the field begins in the first byte of an access word, and on its boundary or with its odd bits fitting that word |
| RegionFieldTheorems.BoundsTestAdmitsIff | src/aml_field.c:191-200 | Some region that is too short is admitted exactly if the field's last word begins past where its length alone would put it |
| RegionFieldTheorems.BoundsTestRefusesIff | src/aml_field.c:191-200 | Some region that is long enough is refused exactly if the field begins past the first byte of a word that its odd bits fit |
| RegionFieldTheorems.BoundsTestErrsUnaligned | src/aml_field.c:191-200 | A concrete field for each direction |
| AccessTypes.ByteWrites | src/aml_field.c:395-538 | AnyAcc and ByteAcc write single bytes: which bytes a write changes, and what WriteAsOnes and WriteAsZeros leave in the field's first and last byte |
| AccessTypes.WordWrites | src/aml_field.c:395-538 | WordAcc writes pairs of bytes from an even one on, likewise |
| AccessTypes.DWordWrites | src/aml_field.c:395-538 | DWordAcc writes four bytes at a time, likewise |
| AccessTypes.QWordWrites | src/aml_field.c:395-538 | QWordAcc writes eight bytes at a time, likewise |
| AccessTypes.ByteReaches | src/aml_field.c:172-249 | On a byte boundary such a field is read in full, or written, exactly if its region is ready and has its bytes |
| AccessTypes.WordReaches | src/aml_field.c:172-249 | On a boundary of 16 bits, exactly if the region has its pairs of bytes |
| AccessTypes.DWordReaches | src/aml_field.c:172-249 | On a boundary of 32 bits, exactly if the region has its groups of four |
| AccessTypes.QWordReaches | src/aml_field.c:172-249 | On a boundary of 64 bits, exactly if the region has its groups of eight |
| AccessTypes.OthersRefused | src/aml_field.c:172-189 | No other access type reads or writes a region field |
| Locks.StepKeepsInv | src/aml_method.c:12-325 | Acquire, release, push and pop keep: chains have one level per scope, innermost first, scope lists and chains agree, host holds and the global hold count are the counts along the chains |
| Locks.TrackKeeps | src/aml_method.c:12-80 | Tracking an acquisition keeps chains and lists well formed and adds one to the chain's sum |
| Locks.PopKeepsInv | src/aml_method.c:142-325 | Leaving a scope, which releases all it holds, keeps the invariant |
| LockTheorems.RunKeepsOuter | src/aml_method.c:12-325 | No run that stays inside a scope changes the scopes and levels outside it |
| LockTheorems.RunLosesOnlyGlobal | src/aml_mutex.c:45-76 | Only acquisitions of the global lock mutex are ever left untracked in a run inside scopes |
| LockTheorems.Conservation | src/aml_mutex.c:35-124 | Over every run the host holds of each mutex but _GL equal the sum along its chain, and the global hold count the sum along _GL's |
| LockTheorems.PopRestores | src/aml_method.c:287-325 | Leaving a scope after any run inside it restores the scope stack, all chains, all holds of other mutexes and the global hold count |
| LockTheorems.InnerCannotRelease | src/aml_method.c:88-134 | At no point of a run inside a scope has a hold of an outer scope been given up |
| LockTheorems.ReleaseHardware | src/aml_mutex.c:104-118 | A release keeps the hardware lock and the hold count consistent exactly when the hold is not nested |
| LockTheorems.AcquireHardware | src/aml_mutex.c:45-66 | An acquisition keeps them consistent |
| LockTheorems.NestedReleaseLosesHardware | src/aml_mutex.c:104-118 | Acquire, acquire, release: held once, with the hardware lock gone |
| LockRuns.MissingExact | src/aml_mutex.c:45-118 | Over every run, scope exits included, the hardware lock falls behind the hold count by one for each hold given back while more than one was counted |
| LockRuns.HardwareAgreesIff | src/aml_mutex.c:45-118 | From a consistent state, hardware and hold count agree after a run exactly if no release and no scope exit in it gave back a hold while the count was above 1 |
| LockRuns.NeverComesBack | src/aml_mutex.c:45-118 | Once the hardware lock is behind, no run of acquisitions, releases and scopes makes it agree again |
| LockRuns.PopHardwareIff | src/aml_method.c:142-195 | A scope exit keeps them consistent exactly if the scope holds nothing of the global lock or its one hold is the only one |
| LockRuns.ExcessExact | src/aml_mutex.c:35-76 | Over every run the host holds of a mutex run ahead of the sum along its chain by one for each acquisition that was not tracked |
| LockRuns.GlobalHoldsIff | src/aml_mutex.c:45-66 | In a run inside scopes the host holds of _GL are the sum along its chain exactly if no acquisition of it got the host mutex and timed out on the hardware lock |
| LockRuns.TimedOutAcquireIsKept | src/aml_mutex.c:45-66 | The run of three steps after which the host mutex is held and no scope knows |
| LockState.LockState.MutexAcquire | src/aml_mutex.c:14-78 | Is the acquire step, for every host answer and timeout: a host refusal is reported as it is and changes nothing, any mutex but _GL the host grants is acquired inside a scope, and _GL exactly if it is held already or the hardware lock comes free in time |
| LockState.LockState.MutexRelease | src/aml_mutex.c:86-124 | Is the release step |
| LockState.LockState.SpinForHardware | src/aml_mutex.c:51-63 | The polling loop gets the lock exactly when it comes free before the deadline, on the first try, or without a deadline |
| LockState.LockState.TrackAcquire | src/aml_method.c:12-80 | Is the tracking step, when memory suffices; fails exactly without a scope |
| LockState.LockState.TrackRelease | src/aml_method.c:88-134 | Lowers the innermost scope's own count, and is refused without one |
| LockState.LockState.PushScope | src/aml_method.c:209-280 | Is the push step on the scope stack, when memory suffices |
| LockState.LockState.PopScope | src/aml_method.c:287-325 | Is the pop step on scopes and mutexes; fails exactly at the lowest permitted level |
| LockState.LockState.ReleaseScope | src/aml_method.c:142-195 | The nested release loops drop every level of the innermost scope |
| LockMeanings.HostRefusal | src/aml_mutex.c:35-38 | What the host answers is reported, Timeout as Timeout, and nothing has changed |
| LockMeanings.AcquireAnswers | src/aml_mutex.c:35-78 | What an acquisition the host grants answers: Timeout when the hardware lock is awaited in vain, Error without a scope, else Success |
| LockMeanings.AcquireHolds | src/aml_mutex.c:35-78 | Whatever the answer, the host holds that mutex once more if it granted it |
| LockMeanings.AcquireCounts | src/aml_mutex.c:35-78 | A successful acquisition adds one hold to the innermost scope's own, of that mutex only, and to the global hold count only for _GL |
| LockMeanings.ReleaseCounts | src/aml_mutex.c:96-124 | A release takes back one hold the innermost scope has of its own, of that mutex only; without one it changes nothing |
| LockMeanings.ReleaseUndoesAcquire | src/aml_mutex.c:14-124 | A release straight after an acquisition takes back all its counts, and the hardware lock exactly if the mutex is not _GL or was not held |
| LockMeanings.PushOpens | src/aml_method.c:209-280 | A pushed scope has no holds, and all else is as it was |
| LockMeanings.PopRefusedIff | src/aml_method.c:287-325 | Popping is refused exactly without a scope or at the lowest permitted level |
| LockMeanings.PopGivesBack | src/aml_method.c:287-325 | It gives back exactly the innermost scope's own holds, of every mutex |
| FieldUnit.Lock | src/aml_field.c:674-678 | With no deadline the acquisition is granted exactly if the host grants it; it adds one hold of the global lock, or leaves the lock state as it was |
| FieldUnit.Unlock | src/aml_field.c:681-683 | The release after an access gives back exactly that hold |
| FieldUnit.FieldUnitRead | src/aml_field.c:658-717 | For all four kinds, through any nesting of registers: it succeeds exactly if the host grants every lock rule on the way, every register can be written and the field read; memory afterwards, what a refusal leaves in it included; the bits delivered, how many, the hardware lock at the access and after it, and that every hold and count is as before |
| FieldUnit.FieldUnitWrite | src/aml_field.c:725-778 | For all four kinds, through any nesting of registers, which may lie in the field's own memory: exactly when it succeeds, likewise; memory afterwards, what a refusal leaves in it included; the hardware lock at the access and after it, and that every hold and count is as before |
| FieldUnit.BankFieldRead | src/aml_field.c:546-566 | The bank register, of any kind, is written with the bank value, and then the field is read; exactly when both can be done, and what is left if not |
| FieldUnit.BankFieldWrite | src/aml_field.c:574-594 | The bank register, of any kind, is written and then the field is, in that order, even in one region; exactly when both can be done, and what is left if not |
| FieldUnit.IndexFieldRead | src/aml_field.c:600-624 | The index register, of any kind, is written with the byte offset, and then the data register is read; exactly when both can be done, and what is left if not |
| FieldUnit.IndexFieldWrite | src/aml_field.c:631-651 | The index register, of any kind, is written and then the data register is, in that order, even in one region; exactly when both can be done, and what is left if not |
| FieldUnit.IntegerToFieldUnit | src/aml_conv.c:512-565 | Writes the integer's eight bytes through any nesting of registers; buffer fields pad and cut, other fields follow their update rule; exactly when it succeeds, and what is left if not |
| FieldUnit.FieldUnitToInteger | src/aml_conv.c:1532-1548 | Loads the field's bits, through any nesting of registers, as a 64-bit integer, exactly when the field can be read into eight bytes |
| FieldUnit.StoreThenLoad | src/aml_conv.c:512-1548 | Storing an integer and loading it back gives it modulo 2^length for all four kinds, if the registers are not in the field's own memory; exactly when both succeed; lock state as before |
| FieldUnit.AllowedWithoutLocks | src/aml_field.c:658-778 | Without a lock rule anywhere on the way success depends on regions and lengths alone |
| FieldUnit.ReadableOnceStorable | src/aml_conv.c:512-1548 | What an integer can be stored in, it can be loaded from |
| FieldMeanings.RegionAccess | src/aml_field.c:670-778 | A field of byte access is accessed exactly if its region is ready and has its bytes, and the host grants its lock rule, if it has one |
| FieldMeanings.BankAccess | src/aml_field.c:546-594 | A bank field exactly if both regions are and have, and every lock rule of the two is granted |
| FieldMeanings.IndexAccess | src/aml_field.c:600-651 | An index field exactly if the regions of both its registers are and have |
| FieldMeanings.BankSelects | src/aml_field.c:574-594 | Writing a bank field puts the low byte of the bank value into an 8-bit bank register and changes nothing else there |
| FieldMeanings.BankReadSelects | src/aml_field.c:546-566 | So does reading one, which changes nothing anywhere else |
| FieldMeanings.IndexSelects | src/aml_field.c:631-651 | Writing an index field puts the bit offset divided by eight into an 8-bit index register |
| FieldMeanings.IndexReadSelects | src/aml_field.c:600-624 | So does reading one |
| FieldEffects.WriteTouches | src/aml_field.c:574-778 | A write through nested registers changes the memory of the field and of its registers only |
| FieldEffects.ReadTouches | src/aml_field.c:546-717 | A read changes the memory of its registers only |
| FieldEffects.WriteReaches | src/aml_field.c:574-778 | Whatever the nesting and the update rules, a write leaves the zero-extended input in the field's own bits |
| FieldEffects.StoredThenLoaded | src/aml_conv.c:512-1548 | What a write and a read through nested registers add up to: the integer modulo 2^length |
| FieldEffects.HeldDuringIff | src/aml_field.c:658-778 | The bits of a field with the lock rule are accessed with the hardware lock held exactly if no register written on the way has, or selects through one that has, the lock rule |
| FieldEffects.LostFromFreeIff | src/aml_field.c:658-778 | An access that finds the global lock free loses hardware holds exactly if it follows a lock rule inside another |
| SkipTheorem.TermSkips | src/aml_decoder.c:1617-1783 | Skipping an encoded term stops exactly at its end: constants, strings, buffers, packages, arguments, locals, names in all four forms with invocations, operators with every kind of argument, to any nesting the depth limit allows |
| SkipTheorem.ArgsSkip | src/aml_decoder.c:1435-1557 | The same for the argument list of an instruction |
| SkipTheorem.DataSkips | src/aml_decoder.c:1262-1303 | The same for data objects |
| SkipTheorem.ConstSkips | src/aml_decoder.c:397-491 | Byte, word, dword and qword constants are skipped whole |
| SkipTheorem.StringSkips | src/aml_decoder.c:496-566 | Strings are skipped up to their terminator |
| SkipTheorem.BufferSkips | src/aml_decoder.c:647-707 | Buffers are skipped whole, whatever their body |
| SkipTheorem.PackageSkips | src/aml_decoder.c:1117-1191 | Packages are skipped whole, whatever their body |
| SkipTheorem.VarPackageMatches | src/aml_decoder.c:1198-1256 | A VarPackage is matched exactly when the window goes on after it |
| SkipTheorem.TermArgAdvances | src/aml_decoder.c:712-779 | A TermArg succeeds without moving exactly when RevisionOp is next |
| SkipTheorem.SuperNameAdvances | src/aml_decoder.c:1333-1426 | A SuperName succeeds without moving exactly on a local or an argument |
| SkipTheorem.PrefixLimit | src/aml_decoder.c:885-920 | A name's prefix is accepted exactly up to 15 characters |
| AmlBytes.SmallConstants | src/aml_decoder.c:458-469 | The bytes 00, 01 and FF are skipped alone and are 0, 1 and 2^64 - 1 |
| AmlBytes.ByteConstant | src/aml_decoder.c:438-442 | 0A is skipped with one byte, and is its value |
| AmlBytes.WordConstant | src/aml_decoder.c:443-447 | 0B with two, the low one first |
| AmlBytes.DWordConstant | src/aml_decoder.c:448-452 | 0C with four |
| AmlBytes.QWordConstant | src/aml_decoder.c:453-457 | 0E with eight |
| AmlBytes.StringData | src/aml_decoder.c:496-566 | 0D with its ASCII characters and the zero byte after them |
| AmlBytes.PackageLengths | src/aml_decoder.c:581-642 | The value and end of a package length, for each of its four forms; exactly when the window has it |
| AmlBytes.BufferBytes | src/aml_decoder.c:647-707 | 11 up to where its package length says |
| AmlBytes.PackageBytes | src/aml_decoder.c:1117-1191 | 12 likewise, when its count byte is inside |
| AmlBytes.VarPackageBytes | src/aml_decoder.c:1198-1256 | 13 likewise, when the window goes on |
| AmlBytes.LocalsAndArgs | src/aml_decoder.c:785-831 | 60 to 67 are locals and 68 to 6E arguments, skipped alone |
| AmlBytes.Revision | src/aml_decoder.c:712-779 | 5B 30 is matched and not consumed |
| AmlBytes.NamePathBytes | src/aml_decoder.c:925-1003 | What a name string is and where it ends: one segment, 2E and two, 2F with a count and as many, 00 and none |
| AmlBytes.PrefixedName | src/aml_decoder.c:885-920 | Up to fifteen bytes 5C and 5E before a name are its prefix |
| AmlBytes.NameTerm | src/aml_decoder.c:1617-1687 | A name is skipped with as many terms as its method has arguments |
| AmlBytes.OperatorTerm | src/aml_decoder.c:1617-1687 | A one-byte operator is skipped with its arguments, one after the other |
| AmlBytes.BinaryTerm | src/aml_decoder.c:1562-1687 | 72, 74, 77, 7B, 7D and 7F take a term, another from where that ends, and a target from where that ends |
| AmlBytes.NotTerm | src/aml_decoder_tables.inc.h:229-233 | 92 takes one term, or with 93, 94 or 95 behind it two |
| AmlBytes.ExtendedTerm | src/aml_decoder_tables.inc.h:198-227 | An operator behind 5B is skipped with its arguments |
| AmlBytes.StatementRefused | src/aml_decoder.c:1617-1687 | A statement is no term |
| AmlBytes.ArgumentBytes | src/aml_decoder.c:1435-1557 | How many bytes each kind of plain argument takes; a zero byte is no target |
| AmlBytes.SuperNameBytes | src/aml_decoder.c:1333-1426 | 60 to 6E as a SuperName are matched and not consumed; 5B 31 is the debug object |
| Encoding.PkgLengthRoundTrip | src/aml_decoder.c:581-642 | Decoding a package length gives it back, for every length below 2^28 and every encoding of it |
| Encoding.NameSkips | src/aml_decoder.c:870-1003 | A name string is consumed whole and its prefix and segments are what was encoded |
| OpcodeTable.SourceTableOk | src/aml_decoder_tables.inc.h:160-367 | The interpreter's opcode table, with the argument lists of all its opcodes, is one the skip theorem applies to |
| OpcodeTable.OperatorsFit | src/aml_decoder_tables.inc.h:241-367 | Every one-byte operator is read as itself whatever follows, except LNot before a comparison, with its own arguments |
| OpcodeTable.ExtendedFit | src/aml_decoder_tables.inc.h:198-227 | Behind 0x5B exactly the expressions are operators, whatever follows, with their own arguments |
| OpcodeTable.NegatedFit | src/aml_decoder_tables.inc.h:229-233 | LNotEqual, LLessEqual and LGreaterEqual are read as one operator of two arguments |
| OpcodeTable.OperatorsExactly | src/aml_decoder_tables.inc.h:198-367 | No other opcode is an operator |
| OpcodeTable.OperatorShapes | src/aml_decoder_tables.inc.h:241-367 | The argument list of every one-byte operator, by its byte |
| OpcodeTable.OperatorsListed | src/aml_decoder_tables.inc.h:241-367 | Their bytes are all the operators there are |
| OpcodeTable.ExtendedShapes | src/aml_decoder_tables.inc.h:198-227 | The argument list of every operator behind 5B, and that there are no others |
| Skipper.Skipper.PeekByte | src/aml_decoder.c:24-36 | The byte at the cursor plus the lookahead, if inside the window; window and depth kept |
| Skipper.Skipper.ConsumeByte | src/aml_decoder.c:41-59 | One byte, if the window has it; window and depth kept |
| Skipper.Skipper.ConsumeSpan | src/aml_decoder.c:64-85 | A run of bytes, if the window has it and is not used up; window and depth kept |
| Skipper.Skipper.MatchByte | src/aml_decoder.c:90-104 | Moves past the byte exactly if it is the expected one; window and depth kept |
| Skipper.Skipper.PeekOpcode | src/aml_decoder.c:225-325 | The table's entry for the next one or two bytes, mandatory and optional two-byte families included; window and depth kept |
| Skipper.Skipper.ConsumeOpcode | src/aml_decoder.c:330-362 | Moves past that opcode; window and depth kept |
| Skipper.Skipper.MatchOpcode | src/aml_decoder.c:367-391 | Moves past it exactly if it is the expected one; window and depth kept |
| Skipper.Skipper.MatchConstInteger | src/aml_decoder.c:397-491 | The constant's value and end; window and depth kept |
| Skipper.Skipper.ConsumeAsciiZ | src/aml_decoder.c:496-540 | Stops after the terminator, or at the first byte that is not ASCII; window and depth kept |
| Skipper.Skipper.MatchString | src/aml_decoder.c:545-566 | Prefix and characters; window and depth kept |
| Skipper.Skipper.ConsumePackageLength | src/aml_decoder.c:581-642 | The shifted and or-ed bytes are the little-endian value the specification function gives; window and depth kept |
| Skipper.Skipper.MatchBuffer | src/aml_decoder.c:647-707 | End of the buffer from its package length; window and depth kept |
| Skipper.Skipper.MatchComputational | src/aml_decoder.c:712-779 | Constants, strings, buffers, and RevisionOp without moving; window and depth kept |
| Skipper.Skipper.MatchRange | src/aml_decoder.c:785-831 | Arguments and locals by opcode range; window and depth kept |
| Skipper.Skipper.ConsumeNameString | src/aml_decoder.c:870-1003 | Prefix loop and the four path forms, with what was read; window and depth kept |
| Skipper.Skipper.ConsumeSimpleName | src/aml_decoder.c:1067-1111 | Argument, local or name; window and depth kept |
| Skipper.Skipper.MatchPackage | src/aml_decoder.c:1117-1191 | End of the package from its package length; window and depth kept |
| Skipper.Skipper.MatchVarPackage | src/aml_decoder.c:1198-1256 | The same, with the stricter window test; window and depth kept |
| Skipper.Skipper.MatchDataObject | src/aml_decoder.c:1262-1303 | The alternatives in order; window and depth kept |
| Skipper.Skipper.ConsumeSuperName | src/aml_decoder.c:1333-1426 | Debug, references, locals and arguments without moving, names with invocations; window and depth kept |
| Skipper.Skipper.ConsumeArgs | src/aml_decoder.c:1432-1557 | The fixed argument list of an instruction; window and depth kept |
| Skipper.Skipper.ConsumeInstructionArgs | src/aml_decoder.c:1562-1588 | Depth check, variable packages and fixed arguments; depth restored; window and depth kept |
| Skipper.Skipper.ConsumeExpression | src/aml_decoder.c:1617-1687 | Expression opcodes and method invocations; window and depth kept |
| Skipper.Skipper.ConsumeTermArg | src/aml_decoder.c:1696-1783 | Terminates on every byte string, never reads past the window, leaves the cursor inside it and the depth as it was, on success and failure |
| Hash.InjectiveInKey | src/aml_hash.c:36-118 | For a fixed seed no two segments share a hash |
| Hash.InjectiveInSeed | src/aml_hash.c:36-118 | For a fixed segment no two seeds lead to the same hash |
| Hash.KnownHashes | src/aml_hash.c:36-118 | Published test vectors of 32-bit MurmurHash3, and those of two name segments |
| NamePaths.ConvertToAbsolutePath | src/aml_namespace.c:76-189 | The resolved absolute path, or refusal, for every prefix |
| NamePaths.HashPrefixedName | src/aml_namespace.c:196-264 | The hash folded from scope and name is the hash of the resolved path, for all parent prefix counts, with the same refusals |
| NamePaths.FoldAppends | src/aml_namespace.c:196-264 | Hashing is compositional |
| NamePaths.FoldInjectiveInSeed | src/aml_namespace.c:196-264 | From different hashes the same segments lead to different hashes |
| NamePaths.NearPathsNeverCollide | src/aml_namespace.c:856-865 | Paths of equal length that differ in exactly one segment never share a hash |
| NamePaths.SameChildOfDifferentParents | src/aml_namespace.c:856-865 | Same-named children collide exactly when their parents do |
| NameMeanings.BareIsAppended | src/aml_namespace.c:76-189 | A name without prefix is appended to the scope's path |
| NameMeanings.CaretsGoUp | src/aml_namespace.c:112-189 | k parent characters mean what the bare name means in the scope k levels up, and nothing when there are not as many |
| NameMeanings.CaretFromChild | src/aml_namespace.c:112-189 | A parent character in a child means what the rest of the name means in its parent |
| NameMeanings.CaretCreatesTheSame | src/aml_namespace.c:196-264 | So it has the same hash, is refused by the same live paths and creates the same path |
| NameMeanings.RootedIsItself | src/aml_namespace.c:76-189 | A rooted name means itself in every scope |
| NameMeanings.RefusedIff | src/aml_namespace.c:112-189 | A name is refused exactly if it goes up too far, or has a character in its prefix that is neither a leading root nor a parent character |
| NameMeanings.NamesInScope | src/aml_namespace.c:76-189 | What C, ^C, ^^C, ^^^C and a rooted C mean in a scope of two segments |
| NameMeanings.KnownPathHashes | src/aml_namespace.c:196-264 | The hashes of the root and of two paths below it |
| NameRules.RunKeepsDistinct | src/aml_namespace.c:789-939 | After any run of creations and releases no two live paths share a hash |
| NameMeanings.CreatesBareIff | src/aml_namespace.c:789-939 | A bare name is created exactly if no live path has its hash, and is live then besides the others |
| NameMeanings.CreatesRootedIff | src/aml_namespace.c:789-939 | A rooted one likewise |
| NameMeanings.ReleaseRemovesOne | src/aml_namespace.c:1079-1145 | After a release that path is not live, and every other is what it was |
| NameRules.SiblingsNeverRefused | src/aml_namespace.c:856-865 | Two children of a node collide only if they are the same |
| NameRules.CousinsNeverRefused | src/aml_namespace.c:856-865 | Same-named children of two siblings never collide |
| NameRules.LongestPrefixIsLongest | src/aml_namespace.c:428-536 | The rule picks the live path at the longest prefix of the scope, or none exactly if there is none |
| NameMeanings.LongestPrefixMeans | src/aml_namespace.c:428-536 | The name below a prefix of the scope is the answer exactly if it is live and none below a longer prefix is |
| NameRules.RootHitExactly | src/aml_namespace.c:428-536 | What the root step can return: live paths with the right last segment whose parent path hashes to the seed |
| NameRules.SearchFollowsRule | src/aml_namespace.c:428-536 | With a clear root the search is the rule, for every scope and live set |
| NameRules.HitBelowRoot | src/aml_namespace.c:428-536 | A hit below the root needs no assumption about hashes |
| NameRules.RootStepRightIffClear | src/aml_namespace.c:428-536 | The root step is right for every name exactly when the root is clear |
| NameRules.SearchIsFunction | src/aml_namespace.c:428-536 | The search has one answer |
| Namespace.Namespace.FindPath | src/aml_namespace.c:362-421 | The bucket scan finds exactly the live node of the path |
| Namespace.Namespace.SearchPrefixed | src/aml_namespace.c:362-421 | Returns exactly the live node with the resolved path, if any |
| Namespace.Namespace.FindUnder | src/aml_namespace.c:428-536 | At an ancestor the scan finds exactly the live node below it with that segment |
| Namespace.Namespace.FindAtRoot | src/aml_namespace.c:428-536 | At the root it finds a root hit, or nothing if there is none |
| Namespace.Namespace.SearchRelative | src/aml_namespace.c:428-536 | The upward loop finds what the search rule describes; creation looks in the scope alone |
| Namespace.Namespace.Search | src/aml_namespace.c:544-606 | Prefixed and multi-segment names exactly, single segments by the longest live prefix when the root is clear, over an alias-free namespace |
| Namespace.Namespace.PushScope | src/aml_namespace.c:642-730 | Pushes the resolved path; a name without segments means the root |
| Namespace.Namespace.PopScope | src/aml_namespace.c:737-782 | Undoes the last push, never the root scope |
| Namespace.Namespace.SearchRelativeTo | src/aml_namespace.c:995-1016 | Searches from the node and gives the scope stack back |
| Namespace.Namespace.Collides | src/aml_namespace.c:856-865 | The bucket scan reports exactly the live paths with that hash |
| Namespace.Namespace.CreateNode | src/aml_namespace.c:789-939 | Refused exactly when the name does not resolve or its hash is taken; otherwise index, list, live set and tree gain the node |
| Namespace.Namespace.ReleaseNode | src/aml_namespace.c:1079-1145 | Index, list and live set lose the node; the list's head is lost when it was the head |
| Namespace.Namespace.TreeInsertNode | src/aml_namespace.c:1275-1324 | Every live prefix is present afterwards, each below the nearest one, and nothing else is |
| Namespace.Namespace.TreeBuild | src/aml_namespace.c:1331-1345 | The tree covers exactly the live prefixes of the listed nodes, each hanging where it should |
| Namespace.Namespace.ParentNode | src/aml_namespace.c:946-987 | Tree branch and scan branch both return the live node of the longest proper prefix |
| Namespace.BuildIsComplete | src/aml_namespace.c:1224-1345 | After a build from nothing, wherever the list's head is, every live node is in the tree exactly if each node before the head is a prefix of one from the head on; what is there is there once, below its nearest live ancestor; with the head in place all are, with a lost head none |
| Namespace.ReleasedFirstLosesOther | src/aml_namespace.c:1079-1345 | Of two nodes the first is released: a build leaves the other out |
| NameTree.LinkKeepsTree | src/aml_namespace.c:1224-1268 | Linking a node below its nearest live ancestor keeps parents, depths and child lists right |
| NameTree.InsertLinks | src/aml_namespace.c:1275-1324 | One level of an insertion |
| NameTree.DepthCountsAncestors | src/aml_namespace.c:1224-1268 | A node's depth is two more than the number of its live proper prefixes, saturated |
| NameTree.AncestorsPresent | src/aml_namespace.c:1275-1324 | With a node, all its live prefixes are in the tree |
| NameTree.CreationKeepsTreeIff | src/aml_namespace.c:874-902 | A creation after the build leaves the tree right exactly when no present node lies below the new path |
| NameMeanings.ChildIsLinkedIff | src/aml_namespace.c:874-902 | A node created after the build is in the tree exactly if its immediate parent is, and is then that parent's last child |
| NameMeanings.NearestAboveIs | src/aml_namespace.c:1224-1324 | The nearest live ancestor is a live proper prefix with no live one between |
| ControlMachine.Machine.EvalTermList | src/aml_eval.c:1538-1615 | On any code: window, depth, loop level and, if asked, the cursor come back. On encoded statements anywhere in the data, its very end included: store and event are those of the structured semantics, and it fails exactly when that fails; a list of plain terms leaves what evaluating each of them in turn leaves, and fails with the first that does |
| ControlMachine.Machine.RunTerms | src/aml_eval.c:1580-1604 | The loop that stops at the first pending event is the structured list |
| ControlMachine.Machine.EvalTerm | src/aml_eval.c:1412-1480 | One term is one structured statement |
| ControlMachine.Machine.EvalSimple | src/aml_eval_statement.c:419-440 | Break and Continue set the event inside a loop and are ignored outside |
| ControlMachine.Machine.EvalReturn | src/aml_eval_statement.c:441-464 | Return evaluates its argument and sets the event, only inside a method |
| ControlMachine.Machine.EvalIfElse | src/aml_eval_statement.c:14-128 | If and Else run or skip their packages as the structured statement does, and the cursor never stops at an Else |
| ControlMachine.Machine.EvalElse | src/aml_eval_statement.c:93-127 | The alternative is run exactly when the predicate was false |
| ControlMachine.Machine.EvalWhile | src/aml_eval_statement.c:136-271 | Refines the structured loop, iteration limit and nesting limit included; a successful loop restores level and window, leaves the cursor at its end, and no event or Return |
| ControlMachine.Machine.RunLoop | src/aml_eval_statement.c:192-262 | The same for the iterations alone |
| ControlMachine.Machine.RunIteration | src/aml_eval_statement.c:192-262 | One iteration consumes Break and Continue, passes Return on and evaluates the test again |
| ControlMachine.Machine.MethodInvoke | src/aml_method.c:411-471 | A call is the structured call of the method's statements, and puts back code block, window, level, event and cursor; arguments and return values are part of the opaque store |
| ControlTheorems.EventsAllowed | src/aml_eval_statement.c:192-464 | Break and Continue come out only inside a loop, Return only inside a method, a While leaves nothing or Return, a call nothing |
| ControlMeanings.TermsInTurn | src/aml_eval.c:1580-1604 | A list of plain terms evaluates each on what the one before left, and fails with the first that does |
| ControlMeanings.ReturnAfterTerms | src/aml_eval_statement.c:441-464 | Terms and a Return evaluate the terms and the argument, fail with them, and skip what follows; outside a method they fail |
| ControlMeanings.IfTerms | src/aml_eval_statement.c:14-128 | If evaluates its test, and its terms when that is true |
| ControlMeanings.IfElseTerms | src/aml_eval_statement.c:14-128 | With Else it evaluates the one or the other |
| ControlMeanings.WhileTerms | src/aml_eval_statement.c:136-271 | A loop over terms evaluates test and terms as often as the test is true, and the test once more; it fails exactly beyond the limit |
| ControlMeanings.WhileContinues | src/aml_eval_statement.c:192-262 | Continue skips the rest of the turn, and the loop goes on |
| ControlMeanings.WhileBreaks | src/aml_eval_statement.c:192-262 | Break ends it in the turn that reaches it |
| ControlMeanings.CallTerms | src/aml_method.c:411-471 | A call evaluates the terms of its method |
| ControlMeanings.CallReturns | src/aml_method.c:411-471 | And ends with what the argument of its Return leaves |
| ControlMeanings.LooseDoesNothing | src/aml_eval_statement.c:419-440 | Outside every loop Break and Continue do nothing |
| ControlMeanings.TooManyLoops | src/aml_eval_statement.c:192-215 | A loop nested too deeply fails once its test is true |
| ControlMeanings.TooDeep | src/aml_eval.c:1538-1560 | Nothing is evaluated in a list nested too deeply |
| ControlMeanings.EncodedCells | src/aml_eval_statement.c:14-271 | Where opcode, package length, test and body of each statement lie |
| ControlTheorems.ExecSplits | src/aml_eval.c:1580-1604 | An event skips exactly the statements after it in its own list |
| ControlTheorems.LooseInCallee | src/aml_method.c:449-471 | A Break or Continue that a called method reaches outside its own loops ends the method if the caller is in a loop, and is ignored otherwise |
| ControlTheorems.CallIgnoresLevel | src/aml_method.c:411-471 | If no method has such a statement, a call that succeeds gives the same result at every lower loop level of its caller, outside loops included |
| ControlLevels.ReachExact | src/aml_eval_statement.c:14-440 | Inside a loop a statement ends in Break or Continue exactly if it reaches one outside its own loops, however deep inside If, and with the store it reaches it with |
| ControlLevels.CallFromLoops | src/aml_method.c:411-471 | A call from inside loops ends at the Break or Continue its method reaches outside its own loops; if neither it nor a method it calls reaches one, it gives what it gives outside loops, error or not |
| ControlLevels.LevelShifts | src/aml_eval_statement.c:136-440 | More loops around a statement, with as many more allowed, change nothing inside a loop, and outside loops nothing unless a Break or Continue is met there |
| ControlLevels.CallSameAtEveryLevel | src/aml_method.c:411-471 | Where no method has such a statement a call gives the same result, error or not, at every level |
| ControlTheorems.ResultKept | src/aml_eval_statement.c:192-271 | Raising any limit and lowering the loop level keep every result of a statement but an error, unless a loose Break or Continue is at stake |
| ControlTheorems.LimitsOnlyFail | src/aml_eval_statement.c:192-215 | Raising the iteration, loop and recursion limits never changes a result, only turns failures into results |
| ControlEndings.EndingsExact | src/aml_eval.c:1552-1554 | A statement fails if its plain execution enters an empty list at the very end of the data, and is otherwise executed as if more data followed |
| ControlEndings.EndingsMatterIff | src/aml_eval.c:1552-1554 | The end of the data changes a result exactly by turning a success that enters such a list into an error |
| ControlEndings.EmptyMethodFails | src/aml_eval.c:1552-1554 | Calling an empty method fails exactly if it is the last thing in its data |
| ControlEndings.EmptyLoopFails | src/aml_eval.c:1552-1554 | A loop with an empty body there fails as soon as its test is true, and succeeds if it is false at once |
| Heap.BinIsLeast | src/aml_heap.c:33-57 | The bin of a request of 1 to 2^63 bytes is the least k from 1 on with 2^k bytes enough |
| Heap.BlockHoldsRequest | src/aml_heap.c:33-57 | The block holds the request exactly up to 2^63 bytes |
| Heap.FreedToSameBin | src/aml_heap.c:144-182 | A block returns to the bin it was taken for exactly if its request was not empty |
| Heap.LiveBlocks | src/aml_heap.c:65-182 | Live blocks never overlap and are in no bin |
| Heap.FreedBin | src/aml_heap.c:144-182 | A freed block keeps the bins' sizes exactly if it is not the one-byte block of an empty request |
| Heap.Heap.Allocate | src/aml_heap.c:65-137 | Is the allocation step, and keeps heap and bins sound |
| Heap.Heap.Free | src/aml_heap.c:144-182 | Is the free step, keeps the heap sound, and keeps the bins' sizes exactly if the block is not of one byte |
| Heap.AllocateKeeps | src/aml_heap.c:65-137 | An allocation keeps blocks apart and hands out a block that was not live |
| HeapRuns.RunKeepsBins | src/aml_heap.c:33-182 | Over every run of nonempty requests and frees of live blocks every bin holds blocks of its own size only, and no block has one byte |
| HeapRuns.NextBlockHolds | src/aml_heap.c:65-137 | After such a run a request of up to 2^63 bytes gets a block that holds it and overlaps no live one |
| HeapRuns.ThroughoutIff | src/aml_heap.c:33-182 | Over any run the bins have their sizes at every point exactly if no block of one byte is freed in it |
| HeapRuns.EmptyRequestTooSmall | src/aml_heap.c:33-182 | An empty request, freed, is handed to a request for two bytes: one byte |
| HeapRuns.NothingLostThroughoutIff | src/aml_heap.c:65-182 | Over any run from a heap that has lost nothing, every block is live or in a bin at every point exactly if no request meets a bin that holds more than one block |
| HeapRuns.LosesNothingIff | src/aml_heap.c:65-182 | And so at the end of the run, since a lost block is never found again |
| HeapRuns.SecondFreeLoses | src/aml_heap.c:85-182 | From any heap: two live blocks freed into one bin and one request from it lose the first |
| HeapRuns.LosingRun | src/aml_heap.c:65-182 | A concrete run from the empty heap that loses a block |
| HeapMeanings.ApartIs | src/aml_heap.c:65-137 | Blocks are apart when one ends, 16 bytes of header included, before the other starts |
| HeapMeanings.BinBetween | src/aml_heap.c:33-57 | A request between two powers of two is rounded up to the upper one |
| HeapMeanings.KnownSizes | src/aml_heap.c:33-57 | The block sizes of requests for 0, 1, 2, 3, 17 and 4096 bytes, and of all from 2^63 on |
| HeapMeanings.RefusedIff | src/aml_heap.c:65-137 | A request is refused exactly if no free block has its size and the arena has no room |
| HeapMeanings.FreeFirst | src/aml_heap.c:65-137 | It gets a free block of its size if there is one, and else a new one where the arena has room |
| HeapMeanings.FreedIsNext | src/aml_heap.c:65-182 | What has just been freed is given to the next request of its size |
| ChunkList.InsertChain | src/aml_arena.c:40-60 | Insertion appends, with links right in both directions |
| ChunkList.RemoveChain | src/aml_arena.c:65-105 | Removal takes out exactly that chunk, links right in both directions |
| ChunkList.AppendChain | src/aml_arena.c:300-340 | Resetting puts the active chain behind the free chain |
| ChunkList.TransplantLinks | src/aml_arena.c:522-593 | After a rollback the links of both chains are right |
| ChunkList.TransplantTails | src/aml_arena.c:566-584 | The active tail is wrong whenever chunks follow the snapshot's, the free tail exactly when one does |
| ArenaState.AllocationInside | src/aml_arena.c:393-453 | Live allocations are 16-aligned and inside the used part of their chunk |
| ArenaState.AllocationsDisjoint | src/aml_arena.c:393-453 | Live allocations never overlap |
| ArenaState.SlotTaken | src/aml_arena.c:436-453 | Taking a slot keeps memory, lists, live allocations and open snapshots consistent |
| ArenaState.RolledBack | src/aml_arena.c:522-593 | Going back to the topmost snapshot keeps them consistent, with the allocations live at the snapshot |
| Arena.Arena.TryReclaimFreeChunk | src/aml_arena.c:151-188 | From the tail the first free chunk that is big enough is taken out, emptied; nothing changes if there is none; for all pointers the lists can have |
| Arena.Arena.CreateChunk | src/aml_arena.c:236-292 | Is the creation step: a reclaimed or fresh chunk becomes current and last in the active list, or nothing changes; exactly when |
| Arena.Arena.Allocate | src/aml_arena.c:393-453 | Is the allocation step, failed creations included: a pointer means one more live allocation of the requested size, and is the first multiple of 16 in its slot |
| Arena.Arena.TakeSnapshot | src/aml_arena.c:504-513 | Is the snapshot step; the record marks the new topmost snapshot |
| Arena.Arena.Commit | src/aml_arena.c:601-615 | Is the commit step, exactly for the topmost snapshot |
| Arena.Arena.Reset | src/aml_arena.c:300-340 | Is the reset step, open snapshots or not |
| Arena.Arena.Rollback | src/aml_arena.c:522-593 | Is the rollback step as written, wrong tails included, exactly for the topmost snapshot |
| Arena.Arena.MoveChunksAfter | src/aml_arena.c:556-586 | Moves the chunks taken since to the free list, with the tails the code leaves |
| ArenaMeanings.StartsEmpty | src/aml_arena.c:111-145 | A new arena has no chunk, and takes the 48 bytes of a chunk header off the chunk size if there are as many |
| ArenaMeanings.AllocatesIff | src/aml_arena.c:236-453 | An allocation gets memory exactly if it fits the current chunk with 16 bytes of slack, or the chunk for it has a possible size and a free chunk is big enough or the backend gives one |
| ArenaMeanings.FromCurrent | src/aml_arena.c:393-453 | Where there is room it lies behind what the current chunk has in use |
| ArenaMeanings.FromFree | src/aml_arena.c:151-292 | Else at the start of the last free chunk that is big enough, unless it exceeds the base size |
| ArenaMeanings.FromBackend | src/aml_arena.c:194-292 | Else at the start of a new chunk of the base size, or of its own with slack if that is more |
| ArenaMeanings.WalkFinds | src/aml_arena.c:151-188 | The walk from the tail finds the last chunk that is big enough, whatever the length of the list |
| ArenaMeanings.RefusalLeaves | src/aml_arena.c:393-453 | A refused allocation leaves the arena as it was, but without a current chunk unless the size itself was refused |
| ArenaMeanings.CommitKeepsAll | src/aml_arena.c:601-615 | Whatever was done since a snapshot, committing it keeps it all |
| ArenaMeanings.ResetFrees | src/aml_arena.c:300-340 | After a reset nothing is live, and the active chunks follow the free ones |
| ArenaTheorems.WrittenRun | src/aml_arena.c:111-615 | As written, over every run of allocations, snapshots, commits, rollbacks and resets: the invariant holds throughout exactly if every rollback is to no chunk or to the current one, no creation fails while a chunk is current, and no reset leaves a snapshot of a chunk; then live allocations are 16-aligned, inside their chunks and pairwise apart, and every chunk is in exactly one list |
| ArenaTheorems.IntendedRun | src/aml_arena.c:111-615 | With the tails the comments intend the same holds over every run exactly if no reset leaves a snapshot of a chunk |
| ArenaSound.SoundThroughoutIff | src/aml_arena.c:111-615 | As written and as intended, over every run: memory is sound at every point exactly if every step is safe: no creation fails while a chunk is current, every rollback is to no chunk or to the current one, and what it brings back to life is in the snapshot's chunk or the used part of an active chunk before it |
| ArenaSound.StepSoundIff | src/aml_arena.c:393-615 | The same for one step, whatever the open snapshots look like |
| ArenaSound.SafeUnderInv | src/aml_arena.c:393-615 | While the invariant holds, the safe steps are the careful ones and the resets |
| ArenaSound.FromStart | src/aml_arena.c:111-615 | Both exact conditions for every run of a new arena |
| ArenaSound.ResetUnderSnapshot | src/aml_arena.c:300-340 | A snapshot of a chunk and a reset: not careful, and safe |
| ArenaTheorems.CarefulRunAsIntended | src/aml_arena.c:522-593 | Over the runs on which the code is right it does what the comments intend, step by step |
| ArenaTheorems.RollbackRestores | src/aml_arena.c:522-593 | Whatever was done since a snapshot, rolling back to it leaves live exactly what was live then, with the same open snapshots, current chunk and fill |
| ArenaTheorems.InvIsSound | src/aml_arena.c:111-615 | The invariant means sound memory |
| ArenaTheorems.FreeWalkEnds | src/aml_arena.c:151-188 | In a state of the invariant the walk over the free list ends |
| ArenaRuns.StepExact | src/aml_arena.c:393-615 | As written, one step keeps the invariant exactly if it is careful |
| ArenaRuns.IntendedKeeps | src/aml_arena.c:393-615 | As intended, every step that is no reset under a snapshot of a chunk keeps it |
| ArenaFailures.MemoryHandedOutTwice | src/aml_arena.c:522-593 | A concrete run of allocations, two snapshots and their rollbacks after which two live allocations are the same memory |
| ArenaFailures.FailureFreesLive | src/aml_arena.c:427-433 | From every sound state with a current chunk: a refused allocation, a snapshot and its rollback put every chunk with live allocations in the free list |
| ArenaFailures.MemoryGivenAway | src/aml_arena.c:427-433 | A concrete run in which that memory is handed out again while it is live |
| PathText.Parse | src/aml_base.c:209-383 | Accepts exactly the texts that spell a name, and yields that name |
| PathText.Print | src/aml_debug.c:87-111 | Prefix and segments separated by dots |
| PathText.PrintedMeansName | src/aml_base.c:209-383 | The parser undoes the printer, for every valid prefix and any number of full segments |
| PathText.DottedMeaning | src/aml_base.c:209-383 | What a prefix and any dotted texts mean: the prefix and each text padded, or nothing if one of them is no segment |
| PathText.SegmentTextIs | src/aml_base.c:286-330 | A segment has one to four capital letters, digits and underscores, and does not begin with a digit |
| PathText.PadFillsRight | src/aml_base.c:335-350 | Shorter ones are filled up with underscores on the right |
| PathText.PrefixIs | src/aml_base.c:240-257 | A prefix has up to 17 parent characters and possibly a root character after them |
| PathText.KnownPath | src/aml_base.c:209-383 | A rooted text of two short segments |
| PathText.KnownParentPath | src/aml_base.c:209-383 | A text with two parent characters |
| PathText.KnownRefusals | src/aml_base.c:209-383 | A leading digit, five characters, an empty segment and the empty text are refused |
| PathText.KnownPrints | src/aml_debug.c:87-111 | What three names are printed as |
| PathText.RoomForSegments | src/aml_base.c:258-273 | The parser makes room for n segments exactly when they have at least 3n - 2 characters in all |
| PathText.FullSegmentsFit | src/aml_base.c:258-273 | So there is room for full segments |
| Numerals.DecimalToBcd | src/aml_base.c:92-110 | The decimal digits of a number below 10^16, four bits each, without leaving 64 bits |
| Numerals.BcdToDecimal | src/aml_base.c:117-137 | The number whose digits are the nibbles, without leaving 64 bits |
| Numerals.BcdIsDecimal | src/aml_base.c:92-137 | Encoding and decoding is the identity, and every nibble is a decimal digit |
| Numerals.FromBcdRoundTrip | src/aml_base.c:92-137 | Decoding and encoding is the identity exactly on values whose nibbles are decimal digits |
| Numerals.BcdFits64 | src/aml_base.c:92-110 | The encoding fits 64 bits exactly below 10^16 |
| Numerals.BcdDigits | src/aml_base.c:92-110 | Nibble k of the encoding is decimal digit k of the number |
| Numerals.KnownBcd | src/aml_base.c:92-137 | 1234 is 0x1234 and 90 is 0x90, both ways |
| Numerals.IntegerToString | src/aml_conv.c:625-717 | The text, in lower case and without needless zeros, stands for the integer in base 16 or 10, as written to a fresh string |
| Numerals.NumeralStandsForNumber | src/aml_conv.c:665-700 | The numeral stands for the integer |
| Numerals.NumeralIsShortest | src/aml_conv.c:665-700 | No shorter string of digits does |
| Numerals.StringSizeSuffices | src/aml_conv.c:621-631 | 8, 16, 10 and 20 characters always suffice, and the greatest integer needs them all |
| Numerals.DigitChars | src/aml_conv.c:677-700 | The sixteen digits by character |
| Numerals.TextStandsForNumber | src/aml_conv.c:665-710 | Read character by character, the text stands for the integer, and is a proper numeral |
| Numerals.ProperNumeralUnique | src/aml_conv.c:665-710 | Every proper numeral is the text of the integer it stands for |
| Numerals.KnownTexts | src/aml_conv.c:665-710 | beef, 2026 and 0 |
| Numerals.IntegerToBuffer | src/aml_conv.c:492-502 | The integer's bytes, as many as fit, then zeros |
| Numerals.BufferToInteger | src/aml_conv.c:799-843 | The little-endian value of the first bytes; an empty buffer is refused |
| Numerals.IntegerThroughBuffer | src/aml_conv.c:492-843 | Integer to buffer to integer keeps the low bytes both sides have |
| Numerals.StoredBytes | src/aml_conv.c:492-502 | Byte k of the buffer is byte k of the integer, and zero past its size |
| Numerals.ReadDigits | src/aml_conv.c:799-843 | Byte k of the integer read is byte k of the buffer, and there are no others |
| Numerals.KnownBytes | src/aml_conv.c:492-843 | 0x11223344 as six and as two bytes, and back |

## Left out

- Fixed-width overflow of bit offsets, sizes, counts and recursion depths (`UINT64`, `SIZE_T`): they are natural numbers here, except where a 64-bit bound is the point (hashes, BCD, bins, access words, integers).
- BufferAcc fields, and the memory, I/O port, PCI and serial handlers behind operation regions: a region is RAM that can be accessed or not. The region types that demand BufferAcc are not distinguished.
- Host calls (mutex, global lock, timer, backend allocator): their answers are parameters.
- Field units are inductive values, not objects that point at each other; the byte arrays they lie in are real arrays.
- Region.OperationRegion.Read: whether a handler is registered and accepts the access is one flag, ready; the checks of the single region spaces are not distinguished.
- Region.OperationRegion.Write: see Region.OperationRegion.Read.
- FieldUnit.FieldUnitRead: a read with truncation of a buffer field that ends inside the byte past the result, reached through a field unit, is outside its domain; BufferField.Read says what it does.
- FieldUnit.IndexFieldRead: see FieldUnit.FieldUnitRead.
- FieldUnit.FieldUnitToInteger: the choice between integer and buffer by the field's length, and the 32-bit integers of old tables, are left out.
- LockState.LockState.TrackAcquire: running out of memory while tracking and overflow of a count are left out.
- LockState.LockState.PushScope: creating the scope's argument and local objects, and its failure, are left out.
- LockState.LockState.PopScope: releasing those objects and the result of the arena rollback are left out.
- Namespace.Namespace.PushScope: scope flags and the lookup of the parent that sets them are left out.
- Namespace.Namespace.PopScope: releasing the nodes of a temporary scope is left out.
- ControlMachine.Machine.MethodInvoke: arguments, return value, native methods and failures to open a scope are left out.
- Numerals.DecimalToBcd: numbers from 10^16 on, for which the code shifts by 64 bits and more, are outside its domain.
- Numerals.IntegerToString: reuse, resizing and termination of an existing output string are left out.
- Arena.Arena.TryReclaimFreeChunk: needs a free list whose walk ends, and so do the methods that use it; once the list has become a cycle the code does not come back, and ArenaSteps gives up after as many chunks as there are.
- ArenaTheorems.IntendedRun: the intended steps differ from the code in two places only, the tails after a rollback and the current chunk after a failed creation; a reset under a snapshot of a chunk is as in the code.
- Namespace buckets, the evaluation-order list and the scope stack are sequences of nodes, so previous and next pointers there are not modelled; the arena's chunk lists are modelled with their pointers.
- Temporary scopes and scope flags, unlinking from the tree, alias resolution, reference counts.
- Namespace.Namespace.ReleaseNode: does not unlink the node from the tree.
- Namespace.BuildIsComplete: alias-free namespaces only, and a build that starts from an empty tree.
- PathText.Parse: does not model the segment buffer it may outgrow (see PathText.RoomForSegments), nor the prefix buffer that a root character after 17 parent characters would outgrow.
- SkipTheorem.TermSkips: the grammar of data objects, arguments, locals, names and expression opcodes with fixed arguments; named objects, statements and operators with a package of their own are not terms of it.
- The namespace pass, all statements other than control flow (arbitrary partial functions on the store here), and how arguments and return values of methods travel.
- ControlMachine.Machine.EvalTermList: one cell of code stands for one encoded item; the bytes of package lengths and predicates are the business of Skipper and SkipTheorem.
- Hash keys other than four bytes, the generic tail of the hash.
- Heap alignment and the arena behind the heap: the arena's answer is a parameter that must not overlap the blocks there are.
- String-to-integer, string-to-buffer and buffer-to-string conversions, EISA identifiers, reference and package stores.
- Evaluation of names, targets, packages and operators; Load and LoadTable, PCI routing, `_CRS`, device initialisation, debug output.
- Mutex objects of another type.
