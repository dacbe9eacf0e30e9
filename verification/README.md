# A verified model of the Cyclone V SoC OpenCL driver

The driver under `c5soc/driver` gives OpenCL host programs access to an FPGA: a character device moves
bytes between user memory and two mapped register regions, `mmap` hands out physically contiguous
memory, an interrupt handler forwards "kernel done" to the user program as a signal, and
`reprogram.c` reloads the FPGA underneath all of it. `CL/cl.hpp` is the C++ face of the OpenCL
library that host programs use. This project models the parts of both whose behaviour only shows over
several calls, and proves what they promise. `dafny verify dfyconfig.toml` checks it.

| file | models |
|---|---|
| `Bytes.dfy`, `Common.dfy` | little-endian register values, overwriting part of a memory, 32-bit `unsigned long`, error numbers |
| `Transfer.dfy` | `aclsoc_rw_large`, `aclsoc_read_small`, `aclsoc_write_small`: the loops over arrays, the bus trace, the flat copy they amount to |
| `Commands.dfy` | `aclsoc_exec_cmd` as device and user memory see it: register writes and answers |
| `Dispatch.dfy` | `aclsoc_rw`, `aclsoc_get_checked_addr` and `open`: the request block, routing, bounds, the semaphore, what a run of calls does to memory |
| `Serial.dfy` | any number of `aclsoc_rw` calls interleaved |
| `Preempted.dfy` | the same with the interrupt handler running at any point |
| `AddrMap.dfy` | the mmap slot table, its reference counts, the freeing of DMA blocks, the address lookup |
| `Interrupts.dfy` | handler, `init_irq`, `release_irq`, `open` and the interrupt commands, interleaved with the hardware |
| `Reprogram.dfy` | the order of steps in `reprogram_with_rbf` |
| `Wrapper.dfy` | `cl::detail::Wrapper` reference counts over a heap of handles |
| `Vector.dfy` | `cl::vector` and its iterator |

## How the model is set up

- **Imperative code stays imperative.** Loops over buffers and tables are methods over arrays and class
  fields. Each is proved equal to a specification function (`LargeEffect`, `Serve`, `MmapStep`,
  `Handler`, `RetainedIfAny`, `Fold`, ...), and the theorems are about those functions and their runs.
- **Memory.** A register region is plain byte memory with a ghost trace of bus accesses. `uX` is four
  bytes, as on ARM. The page size, and so the bounce buffer, is any positive multiple of four.
- **User copies** fail when they leave user space, and may also fault after moving any prefix, as a
  parameter of the call (`Faults`) decides. After a fault the rest of a kernel-side destination holds
  arbitrary bytes.
- **Addresses** wrap at 2^32, and the signed comparison in the routing is kept. Where wrapping or the
  two-byte write below makes a transfer access a byte beyond its mapped region, the outcome is `Stray` and
  the theorems say nothing about what follows; `StraysExactly` says in terms of the accesses when that is,
  `StraysByRequest` in terms of what the caller passes.
- **Request blocks** lie in user memory and are fetched when a call's turn comes, as the calls before it
  left them.
- **The enable register** is written by commands, by transfers that cover it and, at any time, by the
  interrupt handler. `Dispatch` has it as four bytes of BAR 2, `Interrupts` as a bit, with `Store` for the
  transfers; `RegisterFollowsMachine` joins the two. `Preempted` lets the handler clear the four bytes between any two steps of the calls.
- **Interleaving.** In `Serial` a step is one fill or drain of the bounce buffer, one dispatch, or one
  semaphore operation. In `Interrupts` a step is one statement of process context or a whole handler. The
  `mmap` and VMA steps are atomic.
- **Parameters.** What the DMA allocator, `remap_pfn_range`, `request_irq`, `send_sig_info`, the OpenCL
  runtime and the scheduler answer are inputs; to a special command, so is the slot table as it finds it. The
  payload of the signal command is whatever the kernel variable holds after its user copy, failed or not.

## Where the code and its description part

Each is modelled as the code has it.

- A two-byte write falls through into the four-byte case and stores four bytes
  (`c5soc/driver/aclsoc_fileio.c:267-276`). `Width`, `SmallAgreesWithLarge` and `StraysByRequest` carry
  this through, down to the two-byte write whose second store leaves the region.
- A request whose address sum wraps can pass the bounds check. `StraysByRequest` says exactly when it then leaves
  the region: unless the user copy of a chunk before the region's end faults.
- A small write stores its variable even if the user copy failed; a large one leaves the device alone.
  `SmallAgreesExactly` says exactly when this makes a difference.
- A block whose `remap_pfn_range` fails is neither recorded nor freed (`c5soc/driver/aclsoc.c:430-435`):
  `Conserved` counts such blocks apart, and `SweepSettles` shows that they are all that is never freed.
- The lookup stops at the first hole. `LookupAgreesExactly` says which mappings it then misses,
  `HoleHidesMapping` is a run in which it misses one, and `LifoLookup` gives a discipline under which it
  misses none below slot 128.
- A match in the lookup overwrites the result of reading the address (`c5soc/driver/aclsoc_cmd.c:98-104`), so a
  caller whose address could not be read may be told of success: `LookupFinds` has the result depend on the
  copy of the handle alone.
- "Undelivered signals never outnumber handled interrupts" fails between the two counter resets of
  `init_irq`. `ResetWindow` says exactly when, `ResetWindowIsReached` is a run in which it does, and
  `NoFlood` excludes just that window; as comparison of the 32-bit counters it also stops when the number of
  handled interrupts no longer fits.
- A handler that runs inside `open()`, between the new task and the cleared payload, sends the new task
  the old payload: `SignalRouting` says exactly when a signal is wrong, `StalePayload` is a run with one.
- The get-info helper overwrites its handle without releasing what it held: `Delta` counts that reference
  as surplus, the one way in which handles alone lose a reference. It also retains the answer when the
  answer is NULL; `RunsAreSafe` counts those calls exactly.
- An iterator's index is an `int`. `Traverse` says exactly when stepping it overflows.

## Model

| member | source | states |
|---|---|---|
| Bytes.EncodeDecode | c5soc/driver/aclsoc_fileio.c:49-59 | bytes carried through a register of any width come out unchanged |
| Bytes.DecodeEncode | c5soc/driver/aclsoc_fileio.c:49-59 | a value that fits the register width comes back as it was |
| Bytes.LittleEndian | c5soc/driver/aclsoc_fileio.c:49-59 | one byte counts for its value, and what follows n bytes counts as moved up by n bytes |
| Transfer.CopyFromUser | c5soc/driver/aclsoc_fileio.c:327-333 | moves a prefix, all of it exactly if there is no fault, and reports what is missing |
| Transfer.CopyToUser | c5soc/driver/aclsoc_fileio.c:363-369 | the same towards user memory, touching nothing else |
| Transfer.AnyPrefixCanMove | c5soc/driver/aclsoc_fileio.c:327-329 | a faulting copy can have moved each shorter prefix that user space has, and no other |
| Transfer.AnythingCanRemain | c5soc/driver/aclsoc_fileio.c:327-329 | after one the kernel-side destination holds that prefix and, beyond it, can hold anything |
| Transfer.DeliveredExactly | c5soc/driver/aclsoc_fileio.c:363-366 | user space holds the prefix moved to it and is otherwise as before, byte by byte |
| Transfer.ReadChunk | c5soc/driver/aclsoc_fileio.c:335-360 | the word loop and the tail-byte loop together make the buffer's start equal the device range, change no other buffer byte and leave the trace of that range |
| Transfer.WriteChunk | c5soc/driver/aclsoc_fileio.c:335-360 | the same from buffer to device, for all other device bytes |
| Transfer.MoveChunk | c5soc/driver/aclsoc_fileio.c:320-374 | one pass of the loop advances the flat copy by a chunk, or ends it with -EFAULT where the flat copy ends |
| Transfer.RwLarge | c5soc/driver/aclsoc_fileio.c:304-383 | the nested loops terminate and equal one flat copy of the stretch the user copies allow, with its result, and a trace that is words then bytes over the touched range; the buffer's old contents do not matter; only the range really touched must lie in the region |
| Transfer.SuccessCopies | c5soc/driver/aclsoc_fileio.c:304-383 | on success the destination equals the source byte for byte and every other byte of both memories is as before |
| Transfer.LargeResult | c5soc/driver/aclsoc_fileio.c:320-382 | a transfer returns 0 if no chunk's user copy faults and -EFAULT otherwise |
| Transfer.StopsAtFirstFault | c5soc/driver/aclsoc_fileio.c:320-370 | a transfer succeeds if and only if no chunk's user copy faults; otherwise it stops at the first that does, behind exactly that many whole pages |
| Transfer.ReachesBeyond | c5soc/driver/aclsoc_fileio.c:320-370 | a transfer touches bytes past a point of its range if and only if the user copies of the chunks that start before the point go through, all but the last of them for a read |
| Transfer.ChunkFaultsMeaning | c5soc/driver/aclsoc_fileio.c:320-333 | chunk j exists, starts j pages on and faults if and only if the copy with that number does |
| Transfer.FailureLeavesWholePages | c5soc/driver/aclsoc_fileio.c:327-369 | if chunk k is the first to fault the result is -EFAULT; a write has stored exactly k pages; a read has delivered k pages, changed nothing past chunk k and left the device as it was |
| Transfer.TouchesOnceAscending | c5soc/driver/aclsoc_fileio.c:335-360 | the trace touches each byte of its range exactly once, in ascending order |
| Transfer.TouchesCount | c5soc/driver/aclsoc_fileio.c:335-360 | there are len/4 + len%4 accesses, of which exactly the first len/4 are words, each at its address |
| Transfer.ByteAccessesInLastChunk | c5soc/driver/aclsoc_fileio.c:348-359 | a byte-wide access lies in the transfer's last chunk |
| Transfer.ReadSmall | c5soc/driver/aclsoc_fileio.c:216-253 | delivers the 1, 2 or 4 device bytes as far as the user copy goes; other sizes do nothing and succeed |
| Transfer.WriteSmall | c5soc/driver/aclsoc_fileio.c:257-297 | stores what the kernel variable holds, faulted or not, four bytes for a two-byte write, whose last user copy decides the result |
| Transfer.SmallMeaning | c5soc/driver/aclsoc_fileio.c:216-297 | byte by byte what a small read or a one- or four-byte write does to both memories, faulting or not, and that its result is 0 exactly if its copy goes through |
| Transfer.TwoByteWriteIsFourByteWrite | c5soc/driver/aclsoc_fileio.c:267-276 | a two-byte write is a four-byte write whose user copies are the second and later ones |
| Transfer.SmallTouches | c5soc/driver/aclsoc_fileio.c:216-297 | one access of the request's bytes, or for a two-byte write its two bytes and then four |
| Transfer.SmallAgreesWithLarge | c5soc/driver/aclsoc_fileio.c:216-297 | a small read, faulting or not, and a small write whose user copy goes through have the effect the large path would have on the same bytes, a two-byte write that of a four-byte one |
| Transfer.SmallWriteFaultStores | c5soc/driver/aclsoc_fileio.c:257-297 | with a fault the two paths agree if and only if the device already held what the variable does |
| Transfer.SmallAgreesExactly | c5soc/driver/aclsoc_fileio.c:216-383 | for all small requests: the two paths differ if and only if the user copy of a write faults and leaves in the kernel variable what the device does not hold already |
| Dispatch.Aclsoc.GetCheckedAddr | c5soc/driver/aclsoc_fileio.c:67-92 | accepts exactly the two mapped regions and sums, modulo 2^32, within them |
| Dispatch.Aclsoc.Down | c5soc/driver/aclsoc_fileio.c:426-428 | takes one unit of the semaphore, at once or when others release it during the wait, or fails and takes none |
| Dispatch.Aclsoc.FetchBlock | c5soc/driver/aclsoc_fileio.c:430-436 | the request is what the caller's memory holds at the block, or a fault |
| Dispatch.FetchReadsBlock | c5soc/driver/pcie_linux_driver_exports.h:89-115 | if the caller lays out the six words of struct acl_cmd in order and they can be copied, the request has exactly these fields; the rest of the call is passed on |
| Dispatch.Aclsoc.Dispatch | c5soc/driver/aclsoc_fileio.c:430-515 | between acquisition and release: commands executed, transfers routed, checked and carried out, the DMA branch never entered; the trace lies on the routed region only |
| Dispatch.Aclsoc.Open | c5soc/driver/aclsoc_fileio.c:147-187 | the segment is 0 after a successful open, and untouched by an interrupted one; the semaphore ends as it began, also after a wait |
| Dispatch.Aclsoc.Session | c5soc/driver/aclsoc_fileio.c:129-187 | over any list of calls after an open, memory is what the requests fetched do to a flat memory, the segment stays 0, and the run strays if and only if one of those requests does |
| Dispatch.Aclsoc.Transfer | c5soc/driver/aclsoc_fileio.c:486-509 | the size selects the path; memory, result and trace are those of the request |
| Dispatch.Aclsoc.Rw | c5soc/driver/aclsoc_fileio.c:410-520 | on every path the semaphore ends as it began; once it is taken, at once or after a wait, memory, result and trace are those of the request in the block, served; an interrupted wait changes nothing |
| Dispatch.Routing | c5soc/driver/aclsoc_fileio.c:444-483 | a request goes to BAR 0 or BAR 2, never the DMA BAR; BAR 0 requests pass their check; without wrap BAR 0 gets exactly the requests wholly inside the memory window |
| Dispatch.RoutesExactly | c5soc/driver/aclsoc_fileio.c:444-452 | in numbers and with wrap-around: which requests BAR 0 takes; BAR 2 takes the others |
| Dispatch.AcceptsExactly | c5soc/driver/aclsoc_fileio.c:67-92 | in numbers: a transfer is turned away if and only if it is routed to BAR 2 and its end, modulo 2^32, is past 256 KiB |
| Dispatch.RefusedFails | c5soc/driver/aclsoc_fileio.c:430-483 | a request that is turned away, or whose block cannot be fetched, returns -14 and changes nothing |
| Dispatch.OutcomeExactly | c5soc/driver/aclsoc_fileio.c:410-520 | every outcome of a transfer: -EFAULT if turned away, else stray, else 0 or -EFAULT as its user copies go through or not |
| Dispatch.UserFrame | c5soc/driver/aclsoc_fileio.c:410-520 | a write changes no user byte, a read none outside its range, a command none outside its answer; the region a request is not routed to stays as it was |
| Dispatch.StraysExactly | c5soc/driver/aclsoc_fileio.c:77-88 | some access of an accepted transfer falls outside its region if and only if the stretch it touches before ending or faulting reaches past the region's end |
| Dispatch.StraysByRequest | c5soc/driver/aclsoc_fileio.c:77-88 | exactly when an accepted request leaves its region: a small one if its sum wraps or it is a two-byte write within three bytes of the end; a large one if its sum wraps and the user copies of its chunks up to the region's end go through |
| Dispatch.WrappedSuccessStrays | c5soc/driver/aclsoc_fileio.c:77-88 | so a wrapped request that is small or would succeed always leaves it |
| Dispatch.TouchesExactly | c5soc/driver/aclsoc_fileio.c:486-509 | the device bytes on an accepted transfer's trace are exactly those from its address on, as far as it gets |
| Dispatch.StrayExamples | c5soc/driver/aclsoc_fileio.c:267-276 | a wrapped read and a late two-byte write that leave the region, and a wrapped write that an early fault keeps inside |
| Dispatch.TouchesStayInRegion | c5soc/driver/aclsoc_fileio.c:410-520 | every device byte on the trace of a call that does not stray is in its region, and in the enable register for a command |
| Dispatch.ServeFrame | c5soc/driver/aclsoc_fileio.c:410-520 | a request changes no device byte that it neither stores to nor, as a command, arms |
| Dispatch.RunFrame | c5soc/driver/aclsoc_fileio.c:410-520 | nor does any run of such requests |
| Dispatch.StoreLands | c5soc/driver/aclsoc_fileio.c:257-297 | a byte that a write of any size stores is on the device after it, even if the write then fails |
| Dispatch.StoresUsersByte | c5soc/driver/aclsoc_fileio.c:257-383 | that byte is the user's, unless the write is a small one that failed |
| Dispatch.ReadDelivers | c5soc/driver/aclsoc_fileio.c:216-253 | after a successful read of any size each user byte is the covered device byte |
| Dispatch.ReadReturnsLastStore | c5soc/driver/user.c:128-165 | over any run of transfers and commands, a successful read returns for each byte outside the enable register what the last write that stored it stored there, which is what that write was given unless it is a small one that failed |
| Dispatch.RunReadsLastStore | c5soc/driver/user.c:128-165 | the same for the last request of any run and any earlier one that nothing between them has overwritten |
| Commands.ExecCmd | c5soc/driver/aclsoc_cmd.c:55-134 | each command's register writes, answer and result are those of its effect on device and user memory |
| Commands.GetPhysPtrFromVirt | c5soc/driver/aclsoc_cmd.c:95-108 | the address is read from the caller, looked up in the table, and a handle found is sent back; the result is the last copy's |
| Commands.LastWriteStays | c5soc/driver/aclsoc_cmd.c:71-118 | after any number of writes the register holds the last and nothing else in the region has changed |
| Commands.CommandFrame | c5soc/driver/aclsoc_cmd.c:55-134 | a command changes no device byte outside the enable register and no user byte outside its answer |
| Commands.IdleStatus | c5soc/driver/aclsoc_cmd.c:62-66 | command 5 sends the word 1, which the caller reads if the copy goes through, writes no register, and returns the number of bytes not copied |
| Commands.DeviceId | c5soc/driver/aclsoc_cmd.c:89-93 | command 7 does so with 0xC500 |
| Commands.DriverVersion | c5soc/driver/aclsoc_cmd.c:83-87 | command 13 does so with the six bytes of "14.1." and its zero |
| Commands.SilentCommands | c5soc/driver/aclsoc_cmd.c:68-118 | commands 1, 2, 6, 12 and 14 send nothing; their results, how often they write the enable register and what they leave there |
| Commands.OthersAreRefused | c5soc/driver/aclsoc_cmd.c:120-131 | any command but these and 16 returns -EFAULT and changes nothing |
| Commands.RegisterFollowsMachine | c5soc/driver/aclsoc_cmd.c:71-118 | if the register bytes hold the interrupt machine's enable bit before a command, they do after it |
| Commands.AddressIsCallers | c5soc/driver/aclsoc_cmd.c:95-98 | the address looked up is the caller's word unless its copy faults |
| Commands.LookupMisses | c5soc/driver/aclsoc_cmd.c:95-108 | an address that is not found leaves user memory untouched, and the result is 0 if and only if the address could be read |
| Commands.LookupFinds | c5soc/driver/aclsoc_cmd.c:95-108 | with distinct addresses in the table, one that is found is mapped; the result is 0 if and only if the handle could be sent, and the caller then reads what the address maps to |
| Commands.MappedIsFound | c5soc/driver/aclsoc_cmd.c:100-106 | a mapped address is found if and only if its slot is below 128 and below the first hole |
| Serial.LoopRefines | c5soc/driver/aclsoc_fileio.c:320-374 | fill and drain steps run to the end are the flat copy, for any contents of the bounce buffer |
| Serial.AloneServes | c5soc/driver/aclsoc_fileio.c:410-520 | a call left alone from acquisition to release does exactly what its block, as it then reads, asks for |
| Serial.StepKeepsInv | c5soc/driver/aclsoc_fileio.c:426-519 | each step of any call keeps: one holder at most, memory as the serial execution leaves it once the holder is done, outcomes as in that execution |
| Serial.SchedulerMeaning | c5soc/driver/aclsoc_fileio.c:426-519 | phase by phase what a turn or a signal does to a call, the semaphore and the log, that it leaves other calls alone, and that only a call inside touches memory |
| Serial.OneChunkAtATime | c5soc/driver/aclsoc_fileio.c:320-374 | an admitted large transfer starts with nothing moved, and each step moves at most one chunk, into the bounce buffer or out of it into one memory |
| Serial.MutualExclusion | c5soc/driver/aclsoc_fileio.c:426-519 | in every state of every schedule at most one call is between acquire and release, and the semaphore is 0 then and never above 1 |
| Serial.Serialisation | c5soc/driver/aclsoc_fileio.c:426-519 | in every schedule of any number of calls, final memory and every outcome are those of serving the calls one at a time in the order of acquisition, blocks fetched in turn, provided none strays in that order; the semaphore ends free |
| Serial.SomeCallCanMove | c5soc/driver/aclsoc_fileio.c:426-519 | while a call has not returned, some call can take a step |
| Serial.StepDecreases | c5soc/driver/aclsoc_fileio.c:426-519 | every event that changes anything lowers a bound on what is left to do |
| Serial.FairSchedulesFinish | c5soc/driver/aclsoc_fileio.c:426-519 | every schedule that gives each call a turn often enough ends with all calls returned |
| Serial.HolderReadsLastStore | c5soc/driver/aclsoc_fileio.c:426-519 | in every interleaving, when a call is about to return from a successful read, the caller's memory holds for each byte what the last call before it in the order of acquisition to store the byte has stored |
| Serial.InTurnIsRun | c5soc/driver/aclsoc_fileio.c:426-519 | serving in acquisition order is a run of the requests that the read-back theorem is about |
| Preempted.StepAlike | c5soc/driver/aclsoc_fileio.c:304-520 | a step of a call does the same to two memories that differ in the enable register only, unless it transfers over that register |
| Preempted.InterruptClears | c5soc/driver/aclsoc.c:172-175 | an interrupt leaves 0 in the enable register and everything else as it was |
| Preempted.InterruptsAreInvisible | c5soc/driver/aclsoc.c:172-210 | with and without interrupts a schedule goes through the same phases and leaves the same memory but for the enable register |
| Preempted.SerialisationUnderInterrupts | c5soc/driver/aclsoc_fileio.c:426-519 | serialisation holds with interrupts at any point, provided no call transfers over the enable register, for all of memory but that register |
| Preempted.ReadsLastStoreUnderInterrupts | c5soc/driver/aclsoc_fileio.c:426-519 | the same with interrupts at any point, provided no call transfers over the enable register |
| AddrMap.FirstFree | c5soc/driver/aclsoc.c:410-417 | the slot found is free and every lower one is live |
| AddrMap.Table.Mmap | c5soc/driver/aclsoc.c:400-447 | the array and its history go to the state of the mapping step, error paths included, with that result |
| AddrMap.Table.VmaOpen | c5soc/driver/aclsoc.c:382-386 | one more VMA on the same slot, and its count |
| AddrMap.Table.VmaClose | c5soc/driver/aclsoc.c:388-392 | one VMA less; with the last the slot is cleared and the block freed |
| AddrMap.Table.FreeMapInfo | c5soc/driver/aclsoc.c:361-371 | frees a live slot's block as recorded and clears the slot; does nothing to a free one |
| AddrMap.Table.FreeContiguousMemory | c5soc/driver/aclsoc.c:450-456 | the loop is the sweep over all slots |
| AddrMap.StepKeepsInv | c5soc/driver/aclsoc.c:361-447 | every operation keeps: slots all zero or live, count equal to the number of VMAs on the slot, each allocation where its fate says, outstanding blocks distinct |
| AddrMap.MmapNeedsAddress | c5soc/driver/aclsoc.c:410-441 | a successful mapping keeps that if and only if its address is not zero |
| AddrMap.Conservation | c5soc/driver/aclsoc.c:361-456 | over every run the allocations are the disjoint union of live, freed and dropped ones; none is freed twice, each free has the recorded size, address and handle, and no two live slots' blocks overlap; the sweep at the end of any run leaves exactly the dropped blocks unfreed |
| AddrMap.FreedAtLastClose | c5soc/driver/aclsoc.c:374-392 | a close frees the allocation if and only if it closes the last VMA on it |
| AddrMap.SweepSettles | c5soc/driver/aclsoc.c:450-456 | after the sweep nothing is live and everything but dropped blocks has been freed once; with all VMAs closed it changes nothing |
| AddrMap.MmapFillsUpward | c5soc/driver/aclsoc.c:410-435 | success strictly raises the first free slot; -ENOMEM exactly when the allocator fails or every slot is live; no failure changes the table |
| AddrMap.MmapRecords | c5soc/driver/aclsoc.c:400-447 | a success gives the VMA a slot no other VMA is on, recording the address, size, CPU address and handle asked for and granted; a failed remap returns -11 and puts the block on record as dropped; any other failure returns -12 and changes nothing |
| AddrMap.OpenAdds | c5soc/driver/aclsoc.c:382-386 | one VMA is added, on its source's slot; no other VMA, block or allocation changes |
| AddrMap.CloseRemoves | c5soc/driver/aclsoc.c:388-392 | exactly the closed VMA is removed, and only its slot can change, if it was the last |
| AddrMap.FreedExactlyWhenReleased | c5soc/driver/aclsoc.c:361-447 | over every run an allocation that was not dropped is freed if and only if every VMA opened on it, directly or by duplication, has been closed |
| AddrMap.Table.GetPhysPtrFromVirt | c5soc/driver/aclsoc_cmd.c:95-108 | a handle is copied out exactly when the lookup has one, and the result is then that copy's alone |
| AddrMap.ScanFindsExactly | c5soc/driver/aclsoc_cmd.c:100-106 | slot k is matched if and only if it is live below 128 with that address and every lower slot is live with another |
| AddrMap.LookupAgreesExactly | c5soc/driver/aclsoc_cmd.c:100-106 | with distinct addresses a mapped one gets the mapping's handle if its slot is below 128 and below the first hole, and nothing otherwise |
| AddrMap.FindHandle | c5soc/driver/aclsoc_cmd.c:100-106 | the scan loop finds exactly what the lookup function does |
| AddrMap.HoleHidesMapping | c5soc/driver/aclsoc_cmd.c:100-106 | a run of two mappings and an unmapping after which a mapped address gets nothing |
| AddrMap.LookupOfUnmapped | c5soc/driver/aclsoc_cmd.c:100-106 | an unmapped address gets nothing |
| AddrMap.FoundIsMapped | c5soc/driver/aclsoc_cmd.c:100-106 | with distinct addresses, what is found is what the address maps to |
| AddrMap.LifoKeepsStacked | c5soc/driver/aclsoc.c:361-447 | if the block freed is the latest live one, live slots stay a prefix in order of allocation |
| AddrMap.LifoLookup | c5soc/driver/aclsoc_cmd.c:95-108 | over every such run the live slots form a prefix and the lookup equals the mapping for the first 128 slots |
| Interrupts.NoFlood | c5soc/driver/aclsoc.c:172-308 | at every point of every run: handler runs since the reset plus the enable bit do not exceed writes of 1 plus the bit at the reset; the counters are those counts in 32 bits; undelivered does not exceed handled except between the two resets |
| Interrupts.ResetWindow | c5soc/driver/aclsoc.c:299-300 | from the first reset until the second, undelivered exceeds handled if and only if more signals had failed before than handlers, at most one, have run since without failing |
| Interrupts.ResetWindowIsReached | c5soc/driver/aclsoc.c:275-308 | a run that ends between the resets with one undelivered signal and no handled interrupt |
| Interrupts.SecondInitChangesNothing | c5soc/driver/aclsoc.c:292-296 | with a handler registered, another init_irq changes neither counters nor register nor anything else, under every interleaving with the hardware |
| Interrupts.SignalRouting | c5soc/driver/aclsoc.c:219-234 | every signal in every run goes to the task of the latest open, and carries the last payload set since, or 0, if and only if no open was in progress or the payload from before it was 0 |
| Interrupts.StalePayload | c5soc/driver/aclsoc_fileio.c:147-165 | a run in which task 2 is sent the payload of task 1 |
| Interrupts.UninterruptedCompletes | c5soc/driver/aclsoc_cmd.c:71-118 | left alone, the interleaved machine does a command's statements in order, which is what the driver methods are proved to do |
| Interrupts.HandlerMeaning | c5soc/driver/aclsoc.c:191-256 | a handler run adds one to the counter modulo 2^32, clears the enable bit, signals the task if there is one with the payload, and counts a failed signal; nothing else |
| Interrupts.HardwareMeaning | c5soc/driver/aclsoc.c:275-308 | an interrupt is taken if and only if the handler is registered, the register armed and the line pending |
| Interrupts.OpenMeaning | c5soc/driver/aclsoc_fileio.c:147-165 | the caller becomes the task, the payload 0, and interrupts are as before |
| Interrupts.PayloadMeaning | c5soc/driver/aclsoc_cmd.c:76-81 | exactly the payload given is set, for every value |
| Interrupts.EnableMeaning | c5soc/driver/aclsoc_cmd.c:71-74 | the register is armed, once |
| Interrupts.SaveMeaning | c5soc/driver/aclsoc.c:311-358 | no handler is registered, the register is clear, counters and signals are as before |
| Interrupts.LoadMeaning | c5soc/driver/aclsoc.c:275-308 | registered, counters restarted and armed if possible; otherwise nothing has changed |
| Interrupts.StoreMeaning | c5soc/driver/aclsoc.c:162-188 | a transfer over the register leaves the last bit it stores |
| Interrupts.SignalAfterPayload | c5soc/driver/aclsoc_cmd.c:76-81 | the signal that follows a payload command carries that payload, for every value |
| Interrupts.SignalAfterOpen | c5soc/driver/aclsoc_fileio.c:147-165 | the signal that follows an open goes to its caller with payload 0 |
| Interrupts.Device.WriteEnableRegister | c5soc/driver/aclsoc.c:172-188 | sets the enable bit, counted as armed and as made with or without the lightweight bridge |
| Interrupts.Device.Irq | c5soc/driver/aclsoc.c:191-256 | counts, disarms and notifies as the handler step |
| Interrupts.Device.InitIrq | c5soc/driver/aclsoc.c:275-308 | the registration step: success exactly if request_irq grants; otherwise nothing changes |
| Interrupts.Device.ReleaseIrq | c5soc/driver/aclsoc.c:311-358 | disarms, unregisters, disarms |
| Interrupts.Device.ExecCmd | c5soc/driver/aclsoc_cmd.c:71-118 | each interrupt command is its step of the machine |
| Interrupts.Device.StoreEnable | c5soc/driver/aclsoc.c:162-188 | the stores of a transfer over the enable register are steps of the machine |
| Interrupts.Device.Open | c5soc/driver/aclsoc_fileio.c:147-165 | the new task gets the signals, with a cleared payload |
| Reprogram.SequenceIsSaveThenLoad | c5soc/driver/reprogram.c:119-145 | the sequence begins with the SAVE command and ends with the LOAD command |
| Reprogram.MainKeepsTrack | c5soc/driver/reprogram.c:219-239 | each statement keeps what is known of bridges, registration, register and counters at its place in the sequence |
| Reprogram.HardwareKeepsTrack | c5soc/driver/reprogram.c:219-239 | so does an interrupt or a line change at any place |
| Reprogram.ReprogrammingSafety | c5soc/driver/reprogram.c:75-239 | under every interleaving: every enable write happens with the lightweight bridge on, no handler can run from SAVE's first write until LOAD's request_irq, all bridges are off right before and after the loading, and the run ends registered, counters restarted and line armed exactly once since, if and only if request_irq succeeds |
| Reprogram.WithoutSaveStrays | c5soc/driver/reprogram.c:75-145 | a run of the same sequence without SAVE in which an interrupt writes the register with the bridge off |
| Wrapper.Handle.constructor | sd_card/lin_part/opencl_arm32_rte/host/include/CL/cl.hpp:1105-1105 | adopts an object without retaining it |
| Wrapper.Handle.Copy | sd_card/lin_part/opencl_arm32_rte/host/include/CL/cl.hpp:1112-1116 | shares the object and adds a reference |
| Wrapper.Handle.Destroy | sd_card/lin_part/opencl_arm32_rte/host/include/CL/cl.hpp:1107-1110 | gives back the handle's reference |
| Wrapper.Handle.AssignUnguarded | sd_card/lin_part/opencl_arm32_rte/host/include/CL/cl.hpp:1118-1124 | releases the old object before retaining the new |
| Wrapper.Handle.Assign | sd_card/lin_part/opencl_arm32_rte/host/include/CL/cl.hpp:1474-1480 | the same, but nothing on an assignment to itself |
| Wrapper.Handle.GetInfo | sd_card/lin_part/opencl_arm32_rte/host/include/CL/cl.hpp:766-781 | takes and retains what the query answers, NULL included; the object held before is not released |
| Wrapper.Program.Perform | sd_card/lin_part/opencl_arm32_rte/host/include/CL/cl.hpp:1095-1141 | each operation on the heap of real handles, aliasing ones included, changes counts and handles as the step that the run theorems are about |
| Wrapper.HandlesMeaning | sd_card/lin_part/opencl_arm32_rte/host/include/CL/cl.hpp:1095-1141 | the handle an operation names holds the created, copied, assigned or queried object, or is gone; every other handle is as it was; a new object has one reference |
| Wrapper.CountsMeaning | sd_card/lin_part/opencl_arm32_rte/host/include/CL/cl.hpp:1130-1140 | a retain or release of a live object moves its count by one and no other |
| Wrapper.StepSurplus | sd_card/lin_part/opencl_arm32_rte/host/include/CL/cl.hpp:1095-1141 | no handle operation but a query into an occupied handle changes an object's count minus its holders |
| Wrapper.CountConservation | sd_card/lin_part/opencl_arm32_rte/host/include/CL/cl.hpp:1095-1141 | over every run that difference moves only by the application's own calls and such queries |
| Wrapper.RunsAreSafe | sd_card/lin_part/opencl_arm32_rte/host/include/CL/cl.hpp:1095-1141 | over every run no retain or release hits a dead object, NULL is retained exactly once per query that answers it, held objects are alive, and an object without surplus is alive exactly while held |
| Wrapper.HandlesNeverLeak | sd_card/lin_part/opencl_arm32_rte/host/include/CL/cl.hpp:1095-1141 | over every run that leaves counting to the handles exactly the held objects are alive, and none once all handles are gone |
| Wrapper.AssignKeepsAlive | sd_card/lin_part/opencl_arm32_rte/host/include/CL/cl.hpp:1118-1124 | between the release and the retain of an assignment the right-hand object is alive |
| Wrapper.DiesWithLastHandle | sd_card/lin_part/opencl_arm32_rte/host/include/CL/cl.hpp:1107-1124 | an object without surplus dies in exactly the step that drops its last handle |
| Wrapper.SelfAssignmentNeedsGuard | sd_card/lin_part/opencl_arm32_rte/host/include/CL/cl.hpp:1474-1480 | unguarded, an assignment to itself touches a dead object if and only if it held the only reference |
| Vector.Vec.constructor | sd_card/lin_part/opencl_arm32_rte/host/include/CL/cl.hpp:446-449 | a size field of 2^32-1 is the empty sequence |
| Vector.Vec.Push | sd_card/lin_part/opencl_arm32_rte/host/include/CL/cl.hpp:464-471 | appends, or does nothing when full |
| Vector.Vec.Pop | sd_card/lin_part/opencl_arm32_rte/host/include/CL/cl.hpp:473-482 | drops the last element, or does nothing when empty; the empty flag stays exact through the wrap |
| Vector.Vec.ClearAll | sd_card/lin_part/opencl_arm32_rte/host/include/CL/cl.hpp:458-462 | the empty sequence |
| Vector.Vec.Copy | sd_card/lin_part/opencl_arm32_rte/host/include/CL/cl.hpp:484-491 | a separate vector with the same sequence |
| Vector.Vec.Fill | sd_card/lin_part/opencl_arm32_rte/host/include/CL/cl.hpp:493-500 | the value as often as asked, as far as it fits |
| Vector.Vec.SetTo | sd_card/lin_part/opencl_arm32_rte/host/include/CL/cl.hpp:502-516 | the right-hand sequence, also on an assignment to itself |
| Vector.Vec.Equals | sd_card/lin_part/opencl_arm32_rte/host/include/CL/cl.hpp:518-529 | true if and only if the sequences are equal |
| Vector.Vec.AssignFrom | sd_card/lin_part/opencl_arm32_rte/host/include/CL/cl.hpp:559-567 | keeps the first elements of the range as they were at the start, as many as fit, also when the range lies in the vector's own array; an empty or reversed range gives the empty sequence |
| Vector.Vec.Back | sd_card/lin_part/opencl_arm32_rte/host/include/CL/cl.hpp:667-670 | the last element |
| Vector.Vec.Perform | sd_card/lin_part/opencl_arm32_rte/host/include/CL/cl.hpp:438-567 | any run of operations refines the same run on a bounded sequence |
| Vector.Forgets | sd_card/lin_part/opencl_arm32_rte/host/include/CL/cl.hpp:458-567 | clearing, assigning and copying forget whatever came before, over every run |
| Vector.PushesTake | sd_card/lin_part/opencl_arm32_rte/host/include/CL/cl.hpp:464-471 | pushing a list keeps exactly what fits of the concatenation |
| Vector.FoldIsBounded | sd_card/lin_part/opencl_arm32_rte/host/include/CL/cl.hpp:438-567 | no run makes the sequence longer than the capacity |
| Vector.PopUndoesPush | sd_card/lin_part/opencl_arm32_rte/host/include/CL/cl.hpp:464-482 | a pop undoes a push if and only if the vector was not full (or has no capacity at all) |
| Vector.Iterator.Begin | sd_card/lin_part/opencl_arm32_rte/host/include/CL/cl.hpp:589-600 | a snapshot at the first element, or at -1 when empty |
| Vector.Iterator.End | sd_card/lin_part/opencl_arm32_rte/host/include/CL/cl.hpp:602-612 | a snapshot at the size as an int, or at -1 when empty |
| Vector.Iterator.Equals | sd_card/lin_part/opencl_arm32_rte/host/include/CL/cl.hpp:614-619 | true if and only if snapshots, index and flag all agree |
| Vector.Iterator.Deref | sd_card/lin_part/opencl_arm32_rte/host/include/CL/cl.hpp:646-649 | the element of the snapshot at the index |
| Vector.Traverse | sd_card/lin_part/opencl_arm32_rte/host/include/CL/cl.hpp:572-660 | stepping begin() until it equals end() terminates; it yields the elements in order, the empty vector included, if and only if the size fits an int, and otherwise steps the index past the largest int |

## Left out

- The DMA and segment branch of `aclsoc_rw`, `aclsoc_set_segment` and `aligned_request`: `Aclsoc.Dispatch` proves that the branch is never entered.
- What a transfer does once it leaves its mapped region (`Stray`).
- Registers whose reads have side effects and FPGA logic that writes memory during a transfer.
- Serial.Serialisation: has no interrupts among its events; they are in Preempted.SerialisationUnderInterrupts, which leaves out calls that transfer over the enable register itself, since what those read depends on when the handler runs.
- Dispatch.Aclsoc.Open: what an open does to the signal fields is in `Interrupts.Device.Open`.
- Serial.AloneServes: small transfers and special commands are one step each, since no other call can run while the semaphore is held.
- Commands.ExecCmd: what a command does to the interrupt machine and the signal payload is in `Interrupts`.
- Interrupts.SignalRouting: the handler is one step; that it could run beside process context on another processor is not modelled.
- `aclsoc_close`, which only takes and gives back the semaphore.
- Module loading and removal (`aclsoc_probe`, `aclsoc_remove` beyond the sweep, character device setup).
- The kernel's own guarantees that outstanding DMA allocations do not overlap and that VMAs are distinct: assumed by `Enabled`.
- Timing, debug output and the exact codes of the kernel calls that fail inside `init_irq`.
- `reprogram.c` beyond the order of its steps: package parsing, file handling and the test that the FPGA is in user mode.
- `Wrapper` over devices and platforms, whose retain and release do nothing, and handles stored in a `cl::vector`, whose copies bypass retain.
- Postfix and decrement steps of the `cl::vector` iterator.
- The rest of `cl.hpp` and the other OpenCL headers, which call a library that is not part of this model.
- `sd_card/lin_part/opencl_arm32_rte/board/c5soc/driver`, a second copy of the driver, and the Verilog, Qsys and timing files.
