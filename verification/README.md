# Win2000-on-x64 runtime: a verified model

The repository translates Windows 2000 programs to PE64 and gives them, at run time, the parts of the old C runtime they lean on. The centre of this model is `w2kseh64.py`, which emits x86-64 code for `_setjmp3`, `longjmp`, `_except_handler3`, a vectored exception handler, a chain unwinder and four critical-section shims, and which writes an import section and rewrites assembled bytes. Three tools around it are modelled as well: the step-over protocol of the tracer (`dbg_trace.py`), the loader and heap of the emulator (`ring0_emu.py`), and the exception-jumping loop of the root-cause daemon (`dbg_root.py`).

## How it is built

- `Wrappers`, `Words`, `Memory`, `Machine`, `Stepping`, `Frames`: options and bounded logs, and a small x86-64 processor (registers, the flags the stubs branch on, byte memory, the three GS slots) with exactly the instructions the stubs use, and one lemma per instruction shape. A theorem about a stub is about `Run`, the iterated step function, over every initial state that meets its entry condition.
- `ScopeTables`, `Chains`, `ExceptHandler3`, `FilterAnswers`, `VectoredHandler`, `DispatchRuns`: exception dispatch. `ScopeTables` and `Chains` say in terms of memory alone which scope of a frame and which frame of a chain takes an exception; `ExceptHandler3` and `VectoredHandler` prove that runs of the two listings do just that; `FilterAnswers` compares the search of the code with the one its comment describes; `DispatchRuns` bounds whole runs of exceptions.
- `Codec`, `JumpStubs`, `NonLocalJumps`, `JumpHistories`, `ChainUnwinder`: the hand-encoded stubs. A decoder (sections 2.1.3, 2.1.5 and 2.2.1 of the Intel SDM, Vol. 2A), builders that append bytes and patch branch distances, proofs that the bytes decode to the intended listings, and proofs about runs of those bytes.
- `SlotTable`, `CsShims`, `ShimRuns`, `ConcurrentScan`: the guest-to-host map of critical sections: as an abstract partial map, as the table the four shims keep, over sequences of calls, and under interleaving.
- `GsRewrite`, `GsMeaning`, `Bytes`, `ImportTable`: the rewrite of gs loads, on bytes and then in any instruction set, and the import section.
- `Tracing`, `TraceCoverage`, `TraceLoop`: the tracer and its process as functions on their joint state, why tracing changes nothing; what the ring ends up with, said of the untraced run alone; and the classes whose methods refine those functions.
- `AddressSpace`, `EmulatorMemory`, `Relocation`, `ImportBinding`, `Boot`: placement, standard layout and heap, base relocation, import binding, and the run from an empty engine to bound imports.
- `FaultJournal`, `RootCause`: the daemon's journal as a function of the faults met; which events end a run, which are faults and which are shown, read off the sequence of events; and the class whose loop keeps all that.

## Findings

- In `_except_handler3` the comment lists three filter answers, -1 for continue-execution among them, but the code looks for 1 only (`w2kseh64.py:307-310`). On a frame whose only scope answers -1 the comment would continue and the code finds nobody (`FilterAnswers.MinusOneIsIgnored`). Code and comment agree if and only if above every scope that answers -1 there is one that accepts (`FilterAnswers.CodeMeetsCommentIff`).
- Re-initialising a live guest whose slot lies behind a freed one maps it twice; `SlotTable.InitKeepsDistinctIff` is the exact condition and `SlotTable.ReinitDuplicates` an instance.
- The GS rewrite works on bytes and knows no instructions. However code is cut into instructions, it rewrites exactly those that are sites if and only if every site starts an eight-byte instruction (`GsRewrite.PiecesKeptIff`). With gs:[0] in place of gs:[rip+0] in loads as what is intended, code keeps its meaning if and only if besides that every such instruction becomes what is intended for it (`GsMeaning.MeaningKeptIff`, for any instruction set), which for one with a REX byte is to say that its index bit is clear (`GsMeaning.LoadsKeptIff`, `GsMeaning.WidenedKeptIff`). `GsMeaning.SiteInsideAnInstruction` is an instance where it does not. Branches survive exactly when no site lies between them and their target (`GsRewrite.BranchKeptIff`).
- It rewrites loads only: no store through gs:[rip+d], of whatever width, is a site (`GsMeaning.StoresAreNoSites`), so should the assembler pick that form for the store to gs:[0] at `w2kseh64.py:315`, it would be left (`GsMeaning.StoreIsLeft`). A gs:[rip+0] operand is left exactly when something other than a load with a REX byte has one (`GsMeaning.LeftIff`, `GsMeaning.WidenedLeftIff`).
- The tracer needs the loader's breakpoint to come first: it puts the entry's byte back and rewinds whenever the process executes the int3 planted there if and only if an int3 of the process's own precedes its first arrival (`Tracing.EntryRestoredIff`). Otherwise the entry instruction loses its first byte (`Tracing.EntryFirstIsSkipped`).
- The emulator's layout needs a stack hint on a page: for any other one the return sled runs past the end of the mapped stubs (`EmulatorMemory.SledFits`). Its callers pass such a hint.
- The emulator's heap never grows: behind it one page is free and growing asks for at least two (`EmulatorMemory.GrowthIsRefused`).
- The daemon's rule for keeping an external tail never applies: the ring only ever holds frames inside the image (`RootCause.Daemon.RecordStep`).
- The daemon switches tracing on when it meets a fault for the third time, but that same fault is never jumped and ends the run (`dbg_root.py:771-777`): while a run goes on, tracing is what the option says (`RootCause.TracingStays`).
- Where the process leaves the image and the word on top of its stack is no readable address there, the tracer drops the trap flag and arms nothing: tracing is over although the process runs on (`TraceCoverage.LosesTrack`).

## Premises that recur

- Stubs run on a stack that does not overlap what they read and write for their callers, and no datum wraps around the end of the address space. For the two exception stubs this is `Separate`, and of the links of a chain it speaks only of those a walk visits and of what the tests there read; for the shims it is `Entry`, for the jumps `SetEntry` and `JumpEntry`.
- A jmp_buf has to be left alone only from its setjmp to the jumps through it (`JumpHistories.Live`), and the shared area only from the last setjmp to the jump.
- A scope filter is a pure function of its address and of the frame; it keeps r8 and r10. Nothing is claimed about stack alignment at its call.
- A host function changes only the critical section it is given and the stack below it (`CsShims.Confined`).
- Memory access is total; bytes never written read as 0. Where a tool does test whether memory can be read, the model does too.

## Model

| member | source | states |
|---|---|---|
| ExceptHandler3.Gate | w2kseh64.py:262-274 | The search starts exactly for a frame above 0x10000 whose scope table lies in the image and begins with -1; otherwise control goes to the search-continues exit. |
| ExceptHandler3.Look | w2kseh64.py:280-310 | One turn of the scope loop goes to the handler code exactly when scope k holds the fault address and its filter is absent or answers 1, and to the scope below it otherwise. |
| ExceptHandler3.Take | w2kseh64.py:311-341 | Taking scope k makes exactly the four writes of `Taken`: try level k-1, resume address, resume stack pointer, frame pointer; and the head of the chain. |
| ExceptHandler3.ExceptHandlerRun | w2kseh64.py:240-355 | Every run returns with the caller's registers; it answers 0 with the effects of the greatest accepting scope at or below max(trylevel, 0) if there is one, and otherwise 1 with no guest memory and no GS slot changed. Termination included. |
| ScopeTables.TakenView | w2kseh64.py:311-340 | The effect of taking scope k read back: try level k-1, resume at the normalised handler (or scope end), RBP = frame + 0x20, RSP loaded from 0x18 below the interrupted RBP, the frame's link untouched. |
| ScopeTables.SameTaking | w2kseh64.py:311-340 | Taking a scope does the same to memories that differ only on the stub's own stack, which is what lets the dispatcher's result be stated on the memory it was entered with. |
| Chains.WalkIsFirstMatch | w2kseh64.py:375-438 | The bounded walk yields a frame exactly when it is the earliest of the first n links that is eligible and has an accepting scope, on cyclic chains too. |
| Chains.WalkFailsIffNoTaker | w2kseh64.py:375-443 | It yields nobody exactly when no link it may visit takes the exception. |
| FilterAnswers.CodedIsSelected | w2kseh64.py:280-310 | The code's search from the top scope down yields a scope exactly when that scope is the greatest accepting one, and nobody exactly when the frame does not serve. |
| FilterAnswers.RunCarriesOutVerdict | w2kseh64.py:240-355 | Every run of the stub on a frame with a table has the effects of the scope that search yields, or answers 1 with none. |
| FilterAnswers.CodeMeetsCommentIff | w2kseh64.py:307-310 | The code's search and the commented one, which stops at an answer of -1, agree if and only if above every scope that covers the address and answers -1 there is an accepting one. |
| FilterAnswers.MinusOneIsIgnored | w2kseh64.py:307-310 | A concrete frame on which they do not: its only filter answers -1, the comment continues execution, and the code finds nobody. |
| VectoredHandler.CheckFrame | w2kseh64.py:384-416 | The code's tests lead to the call exactly for frames that are aligned, within the stack bounds, and have a trusted scope table and handler. |
| VectoredHandler.Consult | w2kseh64.py:417-427 | The call of `_except_handler3` answers 0 exactly when the frame serves, and has that stub's effects and no others. |
| VectoredHandler.VectoredRun | w2kseh64.py:358-461 | Every run returns, over any chain whose visited links and whose takers lie apart from the handler's stack; with a taker among the first 64 links it answers -1 with the effects of that frame. Without one it gets to the system call with eax 0x2C, r10 all ones and the record's code in edx, and answers 0 with memory and GS slots as they were, whatever the kernel answers. |
| VectoredHandler.VectoredAnswer | w2kseh64.py:358-461 | The answer is -1 if and only if some link among the first 64 takes the exception, and the earliest such link has it; otherwise the kernel was asked and the answer is 0. |
| DispatchRuns.DispatchHappens | w2kseh64.py:358-461 | From every admissible entry, with the links apart from what a dispatch writes, the handler runs to its return and the episode is a dispatch. |
| DispatchRuns.DispatchShortens | w2kseh64.py:312-315 | A handled exception leaves exactly the part of the chain behind its taker, a strict suffix; an unhandled one leaves the chain. |
| DispatchRuns.HandledAtMostChain | w2kseh64.py:418-438 | Over any run of exceptions without new registrations, no more are handled than there were frames. |
| DispatchRuns.NoRepeats | w2kseh64.py:433-438 | A chain that ends visits no frame twice. |
| Codec.AccessRoundTrip | w2kseh64.py:49-84 | For all sixteen registers and every displacement: an encoding exists exactly when it fits 32 bits, and whatever follows it decodes to the intended move and length. |
| Codec.DecodeLocal | w2kseh64.py:45-46 | Decoding depends on no more bytes than the instruction has, so a byte string decodes in one way. |
| JumpStubs.BuildSetjmp3 | w2kseh64.py:87-123 | Both variants of `_setjmp3`, byte by byte; and the bytes decode, offset by offset, to its listing. The first lea opcode is at 49 in the one and nowhere in the other. |
| JumpStubs.BuildLongjmp | w2kseh64.py:126-170 | So for `longjmp`, with both forward branches linked to their labels. |
| JumpStubs.BuildUnwind | w2kseh64.py:184-204 | So for the unwinder, with the backward distance stored modulo 256. |
| JumpStubs.Patch | w2kseh64.py:151-163 | Overwriting the distance byte of a short branch changes that instruction to the branch with the signed distance and no other instruction of the listing. |
| JumpStubs.BranchesLand | w2kseh64.py:151-204 | Every branch of the finished stubs lands on an instruction of its listing. |
| JumpStubs.PatchNvSaveLea | w2kseh64.py:173-181 | Only the four displacement bytes of the first lea within reach change, to the distance to the save area; not found and does-not-fit are told apart and change nothing. |
| JumpStubs.PatchedStubs | w2kseh64.py:173-181 | What patching makes of both stubs, for any 32-bit distance: the same listings with that distance in the lea. |
| NonLocalJumps.SetjmpRun | w2kseh64.py:87-123 | A run returns 0 to its caller with all else intact, the eight words of the buffer and the three of the shared area hold the state to come back to, and no other byte changes. |
| NonLocalJumps.LongjmpRun | w2kseh64.py:126-170 | A run through a buffer whose return address is 0 traps; any other continues there with stack, frame, chain and registers from the buffer, r12/r14/r15 from the shared area, and the sign-extended value, 1 for 0. |
| JumpHistories.JumpUndoesSet | w2kseh64.py:87-170 | With buffer and shared area untouched, longjmp lands where setjmp returned, with all nonvolatile registers, the stack pointer and the chain as they were then; it traps exactly when that address is 0. |
| JumpHistories.SameSharedArea | w2kseh64.py:173-181 | Both leas, placed anywhere in an image, address the same save area. |
| JumpHistories.BuildImage | w2kseh64.py:87-181 | Building both stubs, filling them up and patching both leas succeeds exactly when both distances fit 32 bits, and the bytes then decode to the two listings with those distances. |
| JumpHistories.PatchedBytesAreAnImage | w2kseh64.py:173-181 | Such bytes, wherever the image is placed, run as the two listings and share one save area, which is where the distances were meant to point. |
| JumpHistories.BufferRemembered | w2kseh64.py:112-119 | From a setjmp on, whatever other calls are interleaved, its buffer keeps the snapshot for as long as it is live: nobody else writes it, and buffers set meanwhile lie apart from it. |
| JumpHistories.SharedRemembered | w2kseh64.py:112-119 | From a setjmp of any buffer to the next one the shared area keeps its r12, r14 and r15, if nobody else writes it in between. |
| JumpHistories.EachJumpFindsItsOwn | w2kseh64.py:87-170 | So each jump through a live buffer restores r13, RSP, RIP, RBP, RBX, RSI, RDI and GS:[0] from its own buffer's last setjmp, and r12, r14, r15 from the last setjmp of any. |
| JumpHistories.CallsHappen | w2kseh64.py:87-170 | From every admissible entry both stubs do run to an exit as histories describe. |
| ChainUnwinder.UnwindRun | w2kseh64.py:184-204 | If some link of the chain is the saved head or -1, the unwinder returns with r8 and GS:[0] at the first such link and no memory written. |
| ChainUnwinder.UnwindForever | w2kseh64.py:184-204 | If none is, no number of steps takes it out of its loop. |
| ChainUnwinder.UnwindFinite | w2kseh64.py:184-204 | On a chain that ends in -1, GS:[0] ends as the saved head if that is on the chain and as -1 otherwise. |
| SlotTable.OperationRefines | w2kseh64.py:557-756 | Each operation on a table that implements a partial map answers as the map does and leaves a table that implements the updated map. |
| SlotTable.FreeIffRoom | w2kseh64.py:642-645 | A slot is free exactly when fewer guests are live than there are slots, so Init fails exactly on a full map. |
| SlotTable.RunRefines | w2kseh64.py:557-756 | The same over every run in which guests are non-null and Init is applied to unmapped guests only; keys stay distinct. |
| ShimRuns.CallHappens | w2kseh64.py:623-756 | From every admissible entry each of the four shims gets to its caller or to the host's Enter or Leave, with the reply and the table that the operation has. |
| ShimRuns.HistoryRefines | w2kseh64.py:557-756 | Over every sequence of calls of the four shims between which nobody writes the table, their replies are those of one partial map, and no guest is mapped twice. |
| SlotTable.InitKeepsDistinctIff | w2kseh64.py:636-651 | Without that premise: Init keeps keys distinct if and only if the guest is not mapped behind a free slot. |
| SlotTable.ReinitDuplicates | w2kseh64.py:636-651 | A concrete table on which re-initialising a live guest leaves it mapped after one Delete. |
| CsShims.InitRun | w2kseh64.py:623-661 | A run stops at the first slot that holds the guest or is free, calls the host with that slot's object and the key in place, and returns; a full table answers 0 and is unchanged. |
| CsShims.EnterRun | w2kseh64.py:664-721 | A run for a mapped guest jumps to the host function with its slot's object and the caller's stack and registers; any other run returns; the table is unchanged. |
| CsShims.DeleteRun | w2kseh64.py:724-756 | A run calls the host with the slot's object, then frees that key and no other; for an unmapped guest it answers 0 and only free stack changes. |
| CsShims.HostKeepsKeys | w2kseh64.py:648-651 | What a host function may write never touches a key. |
| ConcurrentScan.ScannerSteps | w2kseh64.py:664-721 | Each instruction of Enter or Leave, from entry to tail jump, changes no key, keeps the scan at or before the guest's slot whatever the other keys are by then, and brings it nearer its end. |
| ConcurrentScan.StepKeepsInv | w2kseh64.py:623-756 | Every step of the scanner, of a writer, of a writer arriving, or of anybody else who leaves keys, the scanner's spill and its import slot alone, keeps the joint invariant. |
| ConcurrentScan.ScanFindsItsSlot | w2kseh64.py:623-756 | Over the shims of one image, each with its own import slot: in every instruction-level interleaving of a live guest's Enter or Leave with serialised Init and Delete of other guests, the shim never gets to its exit for a missing guest, and once it leaves it has jumped to the host function with that guest's host object and its caller's stack and registers. Also when a writer is at work as it begins. |
| ConcurrentScan.ScanIsBounded | w2kseh64.py:664-721 | Whatever the others do meanwhile, it has jumped after at most five of its own steps for each slot of the table and nine more. |
| GsRewrite.FixGsAbsDisp | w2kseh64.py:219-237 | The loop computes the recursive rewrite. |
| GsRewrite.FixedLength | w2kseh64.py:219-237 | The output is longer by one byte for each site. |
| GsRewrite.NoSiteLeft | w2kseh64.py:219-237 | No offset of the output matches again, across replacements too. |
| GsRewrite.Idempotent | w2kseh64.py:219-237 | Rewriting twice is rewriting once. |
| GsRewrite.PiecesKeptIff | w2kseh64.py:219-237 | For every cutting of code into nonempty instructions, of whatever instruction set: the rewritten code is the instructions one after another, each that is an eight-byte site replaced and all others as they were, if and only if every site starts an eight-byte instruction. |
| GsMeaning.MeaningKeptIff | w2kseh64.py:219-237 | In any instruction set whose instructions depend on their own bytes only, and for all code made of it: the rewritten code decodes to what is intended if and only if every site starts an eight-byte instruction and each of these becomes what is intended for it. |
| GsMeaning.LoadsKeptIff | w2kseh64.py:219-237 | If the set knows the loads through gs, an eight-byte site with a REX byte becomes what is intended if and only if its index bit is clear. |
| GsMeaning.WidenedKeptIff | w2kseh64.py:219-237 | For the stubs' decoder together with any further instructions, known by their bytes alone: the meaning is kept if and only if every site starts an eight-byte instruction and has a REX byte with a clear index bit. |
| GsMeaning.AssembledIsFurther | w2kseh64.py:240-461 | Such further instructions are, for instance, `sub rsp, imm8`, `mov r64, imm64`, `inc r13d` and `jb` of the assembled stubs. |
| GsMeaning.LoadsAreSites | w2kseh64.py:224-231 | Every 64-bit load through gs:[rip+0] is a site, so none is missed. |
| GsMeaning.SiteInsideAnInstruction | w2kseh64.py:219-237 | A concrete store whose bytes contain a site and which the rewrite changes. |
| GsMeaning.StoresAreNoSites | w2kseh64.py:224-226 | No store through [rip+d], of a register or an immediate, of any width and behind any prefixes, is a site. |
| GsMeaning.DecodedStoresAreNoSites | w2kseh64.py:224-226 | Nor is any 32- or 64-bit store through gs:[rip+d] as the stubs' decoder reads it. |
| GsMeaning.LeftIff | w2kseh64.py:219-237 | In any instruction set whose changed instructions no longer access gs:[rip+0]: code that keeps its meaning still accesses it if and only if an instruction that is not to change did. |
| GsMeaning.WidenedLeftIff | w2kseh64.py:219-237 | So for the stubs' decoder together with any further instructions, some of which access gs:[rip+0]: such an operand is left if and only if something other than a load with a REX byte has one. |
| GsMeaning.StoreIsLeft | w2kseh64.py:219-237 | A concrete store through gs:[rip+0] that the rewrite leaves alone. |
| GsRewrite.BranchKeptIff | w2kseh64.py:219-237 | In any instruction set, a branch still reaches the instruction it went to, with the distance it had, if and only if no site lies between them. |
| ImportTable.ThunksRead | debug_scripts/_bp_after_d08c.py:20-34 | Walking a finished thunk table, lookup or address, yields the names from any entry on, each with its slot. |
| ImportTable.BuildIdata | w2kseh64.py:589-615 | Refused exactly when a descriptor field does not fit 32 bits. Otherwise the walk yields, for names without a NUL, one library with exactly these names in order from both tables; and for any names at all, corresponding entries of the two tables are equal and point at their hints, and both tables end in a zero entry. |
| ImportTable.BuildShimIdata | w2kseh64.py:565-620 | Refused exactly below -40 and where the last hint does not fit 32 bits. Otherwise the eight addresses returned are base + 112 to base + 168 by eights; the walk over the 370 bytes finds one library, whose name is KERNEL32.dll character by character, and at each address the function documented for it, spelled out, and no other. |
| Tracing.HitInv | dbg_trace.py:538-562 | At a patched address the tracer restores the saved byte and rewinds; the process is where the untraced one is. |
| Tracing.FreeInv | dbg_trace.py:814-826 | Away from the patch the process runs free in step with the untraced one, and the patch stays. |
| Tracing.BareInv | dbg_trace.py:563-826 | Without a patch both step alike, and the invariant holds after whatever the tracer does, arming a return breakpoint included. |
| Tracing.Transparent | dbg_trace.py:373-562 | In every reachable state memory is the untraced process's except one int3 at the entry or one-shot address, whose original byte is saved; a one-shot is armed only while nothing is single-stepped; registers are the untraced ones after n instructions, with n at least about half the steps. |
| Tracing.Continues | dbg_trace.py:795-830 | Tracing goes on as long as the untraced process does, unless the wild-branch check stops it. |
| Tracing.EntryRestoredIff | dbg_trace.py:529-538 | Whenever the traced process executes the int3 planted at its entry the tracer restores the byte and rewinds, if and only if a breakpoint of the process's own precedes every arrival at the entry. |
| Tracing.EntryFirstIsSkipped | dbg_trace.py:529-537 | If the entry is reached before any breakpoint of the process's own, its first byte is skipped and the patch stays. |
| Tracing.RingIsLast | dbg_trace.py:566-570 | The ring is always the last max(ring_max, 0) of the image positions single-stepped. |
| Tracing.HistoryIsOfTheRun | dbg_trace.py:563-570 | Those positions are, in order, positions of the untraced run. |
| TraceCoverage.StartsAtEntry | dbg_trace.py:529-547 | If the untraced process gets to its entry for the first time at its n-th configuration, after a breakpoint of its own, the tracer single-steps it from just there, with an empty ring. |
| TraceCoverage.StartsAtBreak | dbg_trace.py:529-537 | With no entry to wait for, tracing starts behind the first breakpoint. |
| TraceCoverage.FollowsStraight | dbg_trace.py:563-720 | From a configuration being single-stepped on, as long as the untraced run executes instructions that end in the image, the ring gets the position of every one of its configurations, and single-stepping goes on. |
| TraceCoverage.RingFromEntry | dbg_trace.py:529-720 | So if the untraced run gets to its entry first at n0 and stays in the image up to n, then one step after n the tracer is at configuration n and the ring holds the last ring_max positions of configurations n0 + 1 to n. |
| TraceCoverage.PassesOver | dbg_trace.py:559-562 | A benign exception or a breakpoint of the process's own adds nothing to the ring and does not stop the single-stepping. |
| TraceCoverage.ResumesAtReturn | dbg_trace.py:548-826 | If the untraced run leaves the image with a readable address p of the image on top of its stack and first gets to p at m, single-stepping goes on from m, and nothing was added to the ring meanwhile; unless the wild-branch check stopped it. |
| TraceCoverage.LosesTrack | dbg_trace.py:814-830 | If that word is no address of the image that can be read, the process runs free from then on for good and the ring stays as it is. |
| TraceLoop.Tracer.constructor | dbg_trace.py:478-490 | Creating the process plants the entry breakpoint if there is an entry and it can be read. |
| TraceLoop.Tracer.Arm | dbg_trace.py:373-379 | Arms a readable address and saves its byte; otherwise nothing changes. |
| TraceLoop.Tracer.Clear | dbg_trace.py:381-386 | Puts the saved byte back and forgets it. |
| TraceLoop.Tracer.Breakpoint | dbg_trace.py:528-562 | The loader, entry, one-shot and foreign cases in that order. |
| TraceLoop.Tracer.SingleStep | dbg_trace.py:563-830 | Ring and trap flag inside the image; the step-over or free run outside it; what that amounts to is `TraceCoverage`. |
| TraceLoop.Tracer.Loop | dbg_trace.py:433-853 | The loop over events is the traced run, of which `TraceCoverage` tells where it traces; while it goes on the process is in a state of the untraced run and the ring holds the last positions. |
| AddressSpace.FreeAfterLast | ring0_emu.py:835-844 | Past the last occupied range everything is free, so one hop suffices. |
| AddressSpace.FreeIff | ring0_emu.py:837-841 | A range passes the test of the search exactly when no address in it lies in an occupied range. |
| AddressSpace.FindFreeBase | ring0_emu.py:835-844 | The search never fails and hops at most once, to a free range, and not at all if the aligned preferred range is free. |
| AddressSpace.PlaceImage | ring0_emu.py:738-757 | The same for the search of an image, for any preferred base. |
| AddressSpace.DownIsFree | ring0_emu.py:757-758 | Rounding the chosen base down to a page stays clear of ranges that lie on pages. |
| EmulatorMemory.Memory.MapImage | ring0_emu.py:738-760 | The range chosen is free of every occupied range, and the loader's ranges stay pairwise disjoint; it is refused only for size 0, for its bounds or for pages mapped behind the loader's back. |
| EmulatorMemory.Memory.MapRegion | ring0_emu.py:846-851 | Records exactly what the engine accepted. |
| EmulatorMemory.Memory.FaultIn | ring0_emu.py:1448-1451 | A page mapped on demand leaves the accounts as they are. |
| EmulatorMemory.LayoutFits | ring0_emu.py:866-885 | In an empty engine the four regions of the layout are accepted one after another exactly when they end below the limit. |
| EmulatorMemory.SledFits | ring0_emu.py:877-882 | The return sled at the end of the stubs lies in mapped pages if and only if the stack hint lies on a page: regions are rounded down to pages, the sled's address is not. |
| EmulatorMemory.Memory.AllocEnv | ring0_emu.py:866-889 | For any stack hint, when it succeeds: stack, heap, stubs and pool one page apart, at the source's distances from the hint, and an empty heap. In an empty engine it succeeds exactly when the hint lies on a page and the layout ends below the limit. |
| EmulatorMemory.GrowthIsRefused | ring0_emu.py:895-898 | Growing the heap overlaps the stubs whatever is asked for. |
| EmulatorMemory.Memory.HeapAlloc | ring0_emu.py:891-902 | Allocation succeeds exactly when the block fits the heap as first mapped and its zeros can be written, which in a heap on a page they always can; blocks lie in order, disjoint and inside it, on multiples of 16 if its base does. |
| Relocation.Compose | ring0_emu.py:716-735 | Relocating non-overlapping sites by d and then by e is relocating by d + e. |
| Relocation.Neutral | ring0_emu.py:717-719 | Relocating by 0 changes nothing, which is what the early return relies on. |
| Relocation.Inverse | ring0_emu.py:716-735 | Relocating back restores every byte. |
| Relocation.Elsewhere | ring0_emu.py:725-735 | Bytes outside the sites that apply never change. |
| Relocation.Moves | ring0_emu.py:727-733 | Each site that applies is moved by exactly delta modulo its width. |
| Relocation.BlocksMoved | ring0_emu.py:721-733 | The same of relocating the entries of all blocks one after another, as a function on images. |
| Relocation.Relocate | ring0_emu.py:716-735 | In place, over any blocks: if no two entries that apply overlap, each of them ends as its old field plus delta modulo its width; and a byte that lies in none of them never changes. |
| ImportBinding.Linker.AllocStub | ring0_emu.py:904-910 | A stub's address is new, hooked under the lower-cased module and the function, and earlier hooks stay. |
| ImportBinding.Linker.ResolveImport | ring0_emu.py:1293-1299 | The address at which the module of that name, as loaded, exports the function; or, where it does not or is not loaded, a stub hooked under the lower-cased name and the function. What was bound stays bound. |
| ImportBinding.Linker.ResolveImports | ring0_emu.py:922-944 | All of a module's slots get bound, without unbinding others; it fails exactly at an address that does not fit a slot. |
| ImportBinding.Linker.ResolveAllImports | ring0_emu.py:946-948 | Afterwards every import of every module is resolved in terms of the files: its slot holds the loaded base of the module with the dll's lower-cased name plus its export of the name asked for, or a stub hooked under just these, ordinals as `ord_` and the decimal number; however often modules were resolved before. It succeeds exactly when all those addresses fit, and takes at most one stub per import. |
| ImportBinding.Linker.LoadModule | ring0_emu.py:914-920 | A module replaces one of its name, all others stay, and its own imports are resolved, with at most one stub per import; it succeeds exactly when the addresses fit; names stay distinct. |
| ImportBinding.Linker.constructor | ring0_emu.py:866-889 | Over a stub region in the address space the linker starts with no module, no hook and all of the region to give out. |
| ImportBinding.Linker.Link | ring0_emu.py:914-948 | The whole run: any modules of different names are loaded in turn and all resolved any number of times; it succeeds exactly when the addresses fit, and then every import of every module is resolved in terms of the files. |
| ImportBinding.BoundIsAllResolved | ring0_emu.py:922-944 | Bound slots are resolved imports: which module is meant, what it exports, which name an ordinal asks for and where the slot is are said without the functions the linker computes them with. |
| ImportBinding.SlotsDependOnTheSet | ring0_emu.py:922-948 | What a bound slot holds, or for a stub the name it is hooked under, depends on the set of modules only, not on the order of loading or the rounds of resolving. |
| Boot.AllSpaced | ring0_emu.py:738-760 | Slots that lie in their images and apart within each do not overlap across images, because images do not. |
| Boot.SlotsOutside | ring0_emu.py:738-760 | Nor do they lie in a region the images are apart from, the stub region for one. |
| Boot.PlaceAll | ring0_emu.py:738-760 | Images are placed one after another where the search ends for each; it fails exactly when the engine refuses one. |
| Boot.Start | ring0_emu.py:1595-1628 | From an empty engine: which of layout, placement and binding fails is determined exactly, and if none does every import of every module is resolved in terms of the files and of the bases they were placed at, whatever else the mode has mapped before the images. |
| ImportBinding.BoundPastStub | ring0_emu.py:904-910 | Handing out a stub leaves every slot bound. |
| ImportBinding.OrderDoesNotMatter | ring0_emu.py:1293-1299 | What a name resolves to is the same for every load order. |
| FaultJournal.JumpsThenOneStop | dbg_root.py:779-791 | The journal is numbered consecutively and every note but the last is a jump. |
| FaultJournal.JumpsBounded | dbg_root.py:773-774 | At most max_exc - 1 exceptions are jumped. |
| FaultJournal.TwiceAtMost | dbg_root.py:770-774 | Each (RIP, RSP, code) is jumped at most twice. |
| FaultJournal.GoesOnIff | dbg_root.py:770-777 | A run goes on past all its faults if and only if jumping is on, they are fewer than max_exc, all first-chance and of the listed codes, and none occurs three times. |
| RootCause.FaultsMet | dbg_root.py:766-798 | Over every sequence of events, each fault but the last was jumped, and a run that met one that was not has ended. |
| RootCause.AfterDescribed | dbg_root.py:708-806 | Up to the event that ends it, the state of a run is what the events themselves say: the faults, the frames and calls of the exceptions shown (faults, and single-steps under the trace option) inside the image attached by then, their number, and whether tracing is on, which is so under the option or once some fault occurred three times. |
| RootCause.TracingStays | dbg_root.py:770-777 | While a run goes on, tracing is on exactly under the trace option: the fault that would switch it on ends the run. |
| RootCause.Daemon.RecordStep | dbg_root.py:278-301 | The ring is the last trace_cap steps inside the image, in order, and the call log the last 256 calls; no external frame enters. |
| RootCause.Daemon.Terminal | dbg_root.py:766-791 | The journal, the counters and the decision after a fault are those of the faults so far. |
| RootCause.Daemon.Loop | dbg_root.py:708-806 | Over any events the loop stops exactly at the first that ends the run, which is said of the events alone; step count, ring, call log, journal and counters are those of the faults and, under the trace option, single-steps up to there. |

## Left out

- Keystone and Capstone: an assembled stub is taken instruction by instruction, instruction k at offset k of its text, and an access to gs:[0] in it as an access to gs:[0]. Which encodings the assembler picks is not modelled; the rewrite of loads it needs is, on bytes.
- The fallbacks for a failed assembly, the VirtualQuery, osfhandle and DllMain shims.
- Host functions, filters and the raw system call of the vectored handler: atomic, with the effects listed under the recurring premises and otherwise arbitrary.
- Overflow, parity and auxiliary flags: no stub looks at them.
- Runs of the two stub variants without the shared save area: their bytes are decoded, but not run.
- Alignment of the stack at a filter call, and filters that change r8 or r10.
- ConcurrentScan.ScanFindsItsSlot: a host call counts as one instruction, memory is sequentially consistent, and writers are serialised among themselves, on stacks that hold neither the scanner's spilled register nor its import slot.
- Boot.Start: places all images first and then links, while the emulator does both for one module after the other; neither looks at what the other changes. Names are distinct, and slots lie in their images.
- Codec.DecodeLocal: the decoder knows the encodings the stubs and the rewrite use, not the whole instruction set; bytes outside it decode to nothing.
- GsMeaning.MeaningKeptIff: takes the instruction set as a parameter, with what is intended for its eight-byte sites; that the processor's instructions depend on their own bytes only is a premise.
- Tracing.Transparent: assumes patched bytes are only looked at by executing at them, one thread, and no breakpoint or single-step exceptions other than those the processor raises; the untraced run is the process under a debugger that merely continues.
- The wild-branch check of the tracer: an arbitrary early stop.
- Waiting, timeouts, reports, the API log and the heap, stack-slot and register heuristics of both debuggers, and the probes of the daemon, which keep a log of their own.
- What the emulator writes into fresh blocks and mapped images apart from relocations, import slots and stubs; the kernel and user mode mocks.
- ImportBinding.Linker.ResolveAllImports: assumes non-overlapping slots outside the stub area (which `Boot` derives from placement), memory that can be written, and stub space for one stub per import; an exporter's address of 0 is not written, as in the code. The import directory is one flat list.
- Relocation.Compose: is stated for non-overlapping sites; overlapping ones do not commute.
- `dbg_compare.py`, the translator package and the one-off scripts, apart from the import walker.
