# Verified models of xhyve

This project models the hard algorithms of xhyve, a hypervisor with a small virtual-machine manager,
and proves what each of them is for. `dafny verify dfyconfig.toml` checks all of it.

| module | part of the system | main results |
|---|---|---|
| `Rendezvous` | SMP rendezvous of vcpu threads (`src/vmm/vmm.c`) | every interleaving: one open rendezvous, exactly-once execution, no lost completion, no reachable deadlock |
| `RendezvousRequests` | requests that find another rendezvous open | every run: a thread's requests are, in order, what it has opened and what it is still trying to open; every one can be served |
| `GuestPaging` | guest page-table walk (`src/vmm/vmm_instruction_emul.c`) | the restarting walk equals a pure recursive one; Accessed/Dirty updates are exact, with the exact condition for being invisible to later walks |
| `PagingBits` | entries and error codes, bit by bit | every walk passes only entries that allow it; every bit of every page-fault code is explained by the entry it stopped at |
| `PagingRace` | the same walk while other processors write the tables | every interleaving: no guest write is lost, only entries as they were read are marked, an outcome is that of entries read at increasing moments; the walk ends in any pause of the guest |
| `GuestCopy` | copies to and from guest linear ranges (`src/vmm/vmm.c`) | pieces are the byte-wise translation, disjoint for short ranges; copying out and in is the identity |
| `InstructionDecoder` | decoder of memory-access instructions | decoding undoes an independent assembler; a decoding depends on exactly the bytes it uses |
| `InstructionHead` | its first bytes | for every decodable buffer: prefixes, REX, sizes, opcode and immediate length as the instruction set defines them |
| `BlockQueue` | request queue of the block backend (`src/block_if.c`) | every operation keeps the partition and a blocker for every blocked request |
| `BlockWorker` | the backend's worker and its callers | every run: the queues stay sound, the worker never sleeps on work, no polite caller is refused, everything drains |
| `BlockOrder` | order of requests, any number of workers | a blocked request is not begun before one that ends where it begins has ended; the exact condition |
| `BlockFifo` | order of requests, the one worker | every run: the backend is a queue that serves in the order of arrival |
| `AhciCommand` | what a command table asks for (`src/pci_ahci.c`) | every table is classified; queued trims never are |
| `AhciPrdt` | splitting a transfer over the PRDT | rounds move exactly the requested bytes, in order, iff the request is less than 2^31 bytes |
| `AhciPort` | AHCI command slots and requests | issuing a command keeps the request lists exact; a request is always free |
| `AhciScan` | the scan for commands to issue | the scan ends iff a stated condition on the commands holds |
| `AhciRun` | completions, cancellations and registers | every run: pending bit iff exactly one busy request |
| `AhciReports` | what the guest sees of its commands | every run: a finished command leaves its bit until the guest sets it again, and one in flight keeps it |
| `AhciEngine` | the port, updated in place | the operations of the code are those of the runs |
| `SataDisk` | port and block backend together | every run, callbacks that begin inside the port's critical sections included: the backend refuses no request of the port |
| `VirtQueue` | virtqueues (`src/virtio.c`) | the chain walk accepts exactly the finite flattened chains of at most 512 descriptors; ring distances and the event-index rule |
| `DescriptorBits` | bits of a descriptor | bits 0 and 2 decide about a chain, and no other bit does |
| `PciIntx` | INTx state and PIRQ routing | every run: pin, PIC and I/O APIC counts are right; a line is high iff a device drives it |
| `IntxHistory` | what was asked of the interrupts | every run: no raised interrupt is forgotten; a line is high iff a device drives it by the last thing each did |
| `MmioRegistry` | MMIO range registry (`src/mem.c`) | every run: disjoint ranges, added iff no overlap, every access finds its range, hint or not; the exact effect of wrapping ranges |
| `Md5` | streaming MD5 (`src/md5c.c`) | any cutting of a message gives the digest of the whole (section 3 of RFC 1321) |
| `IniConfig` | configuration writer and INI parser | written settings are read back, with the exact condition; loading a saved machine restores it |
| `Bytes`, `Iovec`, `Modular`, `Wrappers` | shared | little-endian numbers, scatter lists, remainders, optional values |

Code that changes things step by step is modelled by classes and loops whose contracts name a
specification function; the theorems are about those functions and about transition systems built
from them. Locked regions, and each compare-and-set, are atomic steps.

Properties that do not hold of the code as it stands, each with an input and the exact condition:

- A request of 2^31 bytes or more is not moved. If its 32-bit byte count is 2^31 or more, the count left
  becomes a negative number, every request to the disk is empty and only an error of the disk ends the
  command; `readv` and `writev` refuse an empty vector on the hosts xhyve runs on, so the first round
  does. If the byte count has wrapped to less, at most that much is moved and success is reported. Packet
  reads of 2^20 and of 2^21+1 blocks show the two cases (`AhciPrdt.WholeRequestIff`,
  `AhciPrdt.Read12Stalls`, `AhciPrdt.Read12Wraps`).
- Queued trims are never performed, because their test contradicts itself (`AhciCommand.NoQueuedTrim`).
- The port scan loops forever when a slot's command changes nothing and none stops the scan
  (`AhciScan.ScanTerminatesIff`, `AhciScan.StuckPort`).
- Accessed bits that a walk sets in 4-byte entries can change a later walk that reads 8-byte entries
  (`GuestPaging.AdHiddenIff`, `GuestPaging.NarrowUpdatesShow`).
- A rejected chain counts as held in the ring distance (`VirtQueue.Queue.ChainsHeld`,
  `VirtQueue.RejectedHead`).
- Registering a range that begins inside another one reports success without adding it
  (`MmioRegistry.RegisterIff`, `MmioRegistry.DroppedSilently`).
- A range that wraps at the end of the address space is accepted, covers no address and, unless it begins
  inside a registered range, breaks the order of the tree; ranges across its base are then registered
  and not found (`MmioRegistry.WrappingIff`, `MmioRegistry.LosesIff`, `MmioRegistry.WrappingHides`).
- When two requests end at the same offset, the end of the first frees the request that waits for both
  (`BlockOrder.BlockedIff`, `BlockOrder.TwinFrees`); with the one worker there is, the order of arrival is kept
  nevertheless (`BlockFifo.FirstComeFirstServed`).
- A page walk has no bound on its passes while the guest keeps changing an entry between its read and its
  compare-and-set (`PagingRace.Starves`); a pause of 29 steps always suffices (`PagingRace.EndsInPause`).
- `MD5Update` does not return when buffered bytes and piece together reach 2^32 (`Md5.LoopEndsIff`,
  `Md5.LongPieceHangs`).
- A setting is cut when its line does not fit the parser's buffer; values that end or begin with white
  space, or hold a blank followed by a semicolon, are changed (`IniConfig.ListReadsBackIff`,
  `IniConfig.IndentedIsLost`, `IniConfig.OverlongIsLost`).

## Model

| member | source | states |
|---|---|---|
| Rendezvous.Vm.HandleTurn | src/vmm/vmm.c:727-759 | one locked turn of the handler loop: settles the targets against the active set, runs the function at most once for this vcpu, completes and clears the slot when all targets are done |
| Rendezvous.Vm.TryOpen | src/vmm/vmm.c:1738-1780 | opens a rendezvous only when the slot is free, otherwise leaves it untouched |
| Rendezvous.StepPreserves | src/vmm/vmm.c:705-759 | every step of any thread, including broadcasts and spurious wakeups, keeps the inductive invariant |
| Rendezvous.Safety | src/vmm/vmm.c:727-759 | in every run at most one rendezvous is open, done stays within requested, each completed rendezvous ran its function exactly once on each target left after intersecting with the active set and on no other cpu, and an opening call returns only after completion |
| Rendezvous.NoWaiterIsForgotten | src/vmm/vmm.c:734-758 | in every run, whenever a thread is blocked some active target still has to run and is not blocked itself |
| Rendezvous.PendingTarget | src/vmm/vmm.c:734-758 | an open rendezvous with settled targets has a target that has not run and does not wait |
| Rendezvous.HistoryIsStable | src/vmm/vmm.c:727-759 | completed rendezvous never change again and none disappears |
| Rendezvous.CanAlwaysComplete | src/vmm/vmm.c:727-759 | from every state that satisfies the invariant with an open rendezvous, the threads already there can complete exactly that one and leave nobody waiting |
| RendezvousRequests.NoRequestIsForgotten | src/vmm/vmm.c:1746-1780 | in every interleaving the requests of a thread are, in order, the rendezvous it has opened followed by the one it is still trying to open; a thread outside the code has had all of them completed, and its calls have returned |
| RendezvousRequests.CanAlwaysServe | src/vmm/vmm.c:1746-1780 | from every reachable state some schedule opens and completes what a thread is trying to open |
| GuestPaging.Vm.Gla2Gpa | src/vmm/vmm_instruction_emul.c:1648-1838 | for every memory, address, privilege and access the restarting walk returns the outcome of the recursive walk of the memory it started from, marks exactly the visited entries Accessed and the leaf of a write Dirty, and needs at most two passes |
| GuestPaging.Vm.OnePass | src/vmm/vmm_instruction_emul.c:1673-1827 | one pass between two restarts: finished with the right outcome and updates, or restarted with only Accessed bits set |
| GuestPaging.Vm.VisitLevel | src/vmm/vmm_instruction_emul.c:1774-1813 | one level of the table loops (4-level, PAE and, with 4-byte entries, 2-level) agrees with the recursive walk: stop, leaf or next table |
| GuestPaging.Vm.FinishLeaf | src/vmm/vmm_instruction_emul.c:1816-1827 | sets Dirty by compare-and-set against the entry first read and splices the page address, or restarts |
| GuestPaging.Vm.MarkAccessed | src/vmm/vmm_instruction_emul.c:1796-1802 | sets Accessed of the visited entry and nothing else |
| GuestPaging.Vm.Gpa2Hva | src/vmm/vmm.c:511-535 | finds host memory iff some segment with a host object holds the whole range |
| GuestPaging.TranslateIgnoresAd | src/vmm/vmm_instruction_emul.c:1673-1827 | Accessed/Dirty updates of 8-byte entries change no later translation, those of 4-byte entries none in 2-level or flat mode; self-mapped tables included |
| GuestPaging.AdHiddenIff | src/vmm/vmm_instruction_emul.c:1673-1827 | the updates of one entry width leave every later translation of a paging mode alone iff the entries are 8 bytes wide or the mode is flat or 2-level |
| GuestPaging.NarrowUpdatesShow | src/vmm/vmm_instruction_emul.c:1723-1728 | a memory in which the Accessed bits set by a 2-level walk turn the page fault of a later PAE or 4-level walk into an unbacked table |
| GuestPaging.NarrowUpdateShowsIff | src/vmm/vmm_instruction_emul.c:1723-1728 | setting a flag of a 4-byte entry shows in the 8-byte entry around it iff it is the upper half, where it is an address bit |
| GuestPaging.WalkIgnoresAd | src/vmm/vmm_instruction_emul.c:1774-1814 | the same for the walk of one table, by induction over the levels |
| GuestPaging.TranslateVisitsAligned | src/vmm/vmm_instruction_emul.c:1774-1786 | every entry a walk reads is aligned to its size |
| GuestPaging.AdUpdateKeepsRest | src/vmm/vmm_instruction_emul.c:1796-1823 | updates of aligned entries leave every other bit of memory alone |
| PagingBits.FaultMeans | src/vmm/vmm_instruction_emul.c:1629-1646 | every page fault of every translation: its address is the one translated, bits 1, 2 and 4 of its code are the kind of access, bit 0 says whether the entry it stopped at is present, bit 3 is set exactly for a 512 GB page, and no other bit is |
| PagingBits.AddressMeans | src/vmm/vmm_instruction_emul.c:1774-1827 | every translated address: the entries that lead to it are present and allow the access, and only the last one maps a page |
| PagingBits.WalkMeans | src/vmm/vmm_instruction_emul.c:1774-1814 | the same for the walk of one table, and the visited entries are the first of the path to the address |
| PagingBits.PermitsBits | src/vmm/vmm_instruction_emul.c:1787-1795 | present, writable, user and page-size are bits 0, 1, 2 and 7 of an entry |
| PagingBits.LittleEndian | src/vmm/vmm_instruction_emul.c:1786-1786 | entries are little-endian numbers of four or eight bytes |
| PagingBits.NonCanonicalIff | src/vmm/vmm_instruction_emul.c:1475-1491 | in 64-bit mode exactly the addresses that do not repeat bit 47 are refused |
| PagingBits.RootIs | src/vmm/vmm_instruction_emul.c:1751-1776 | where the root tables lie in CR3 |
| PagingBits.SegmentEnds | src/vmm/vmm.c:511-535 | a segment with an object holds itself and no byte before or after it |
| PagingRace.NoWriteIsLost | src/vmm/vmm_instruction_emul.c:1796-1823 | in every interleaving with writes of other processors, memory is what those writes leave, with some Accessed and Dirty flags of aligned entries set in addition |
| PagingRace.MarksWhatItRead | src/vmm/vmm_instruction_emul.c:1796-1823 | every byte a step of the walk changes belongs to an entry that at that moment has the value the walk read and found to permit the access; one flag is set |
| PagingRace.OutcomeIsReal | src/vmm/vmm_instruction_emul.c:1673-1827 | whatever is written meanwhile, the outcome of a finished walk is that of the architectural translation with its entries read at increasing moments of the run |
| PagingRace.QuietOutcome | src/vmm/vmm_instruction_emul.c:1673-1827 | if others change Accessed and Dirty flags only, as concurrent walks do, the outcome is the translation in the memory the walk began with |
| PagingRace.TwoPasses | src/vmm/vmm_instruction_emul.c:1673-1827 | left alone from its beginning, the step-by-step walk ends within 20 steps with the architectural outcome and marks exactly the entries of that walk |
| PagingRace.EndsInPause | src/vmm/vmm_instruction_emul.c:1673-1827 | from every state reached among any writes, 29 steps without a write end the walk |
| PagingRace.Starves | src/vmm/vmm_instruction_emul.c:1723-1728 | a guest that changes an entry between its read and its compare-and-set keeps the walk from ending for any number of rounds |
| GuestCopy.TranslateIsPageLocal | src/vmm/vmm_instruction_emul.c:1825-1827 | addresses of one 4 KiB page translate alike, offset by their distance, or fault with the same code |
| GuestCopy.BytesInPage | src/vmm/vmm.c:1846-1857 | the bytes of a page piece are the byte-wise translation |
| GuestCopy.CopySetup | src/vmm/vmm.c:1832-1874 | ready: the pieces are the byte-by-byte translation of the range, page-shaped and backed; fault: the translation stopped at the faulting byte with its fault; no memory: the whole range is translated but one of its page pieces has no host memory |
| GuestCopy.AtMostTwoPieces | src/vmm/vmm.c:1832-1874 | a range of at most 4096 bytes needs at most two pieces |
| GuestCopy.ShortRangeIsDisjoint | src/vmm/vmm.c:1832-1874 | its pieces never share a physical byte, even if both pages map to one frame |
| GuestCopy.ShortRangeRoundTrip | src/vmm/vmm.c:1876-1908 | copying out and in again over such a range returns the same bytes |
| GuestCopy.WriteRangeElsewhere | src/vmm/vmm.c:1893-1908 | copying out changes no byte outside the range |
| GuestCopy.Copyout | src/vmm/vmm.c:1893-1908 | the piece-wise copy is the byte-by-byte write of the range |
| GuestCopy.Copyin | src/vmm/vmm.c:1876-1891 | the piece-wise copy is the byte-by-byte read of the range |
| InstructionDecoder.DecodeUndoesEncode | src/vmm/vmm_instruction_emul.c:1909-2281 | for every supported instruction and whatever follows it, decoding its encoding recovers prefixes, sizes, opcode, registers, scale, displacement, immediate, offset and length |
| InstructionDecoder.DecodeIsLocal | src/vmm/vmm_instruction_emul.c:1862-2281 | any decodable byte string: bytes after the used ones change nothing and every strict truncation of the used ones fails |
| InstructionDecoder.TruncationFails | src/vmm/vmm_instruction_emul.c:1862-1870 | no strict truncation of an encoded instruction decodes |
| InstructionDecoder.HeadUses | src/vmm/vmm_instruction_emul.c:1909-2014 | prefixes, REX and opcode use a definite number of bytes and need all of them |
| InstructionDecoder.HeadBack | src/vmm/vmm_instruction_emul.c:1909-2014 | legacy prefixes in any order, REX and a one- or two-byte opcode are recovered with the address and operand size |
| InstructionDecoder.AddressBack | src/vmm/vmm_instruction_emul.c:2016-2194 | every memory operand form is recovered, with the special cases of REX, RIP-relative and SIB encodings |
| InstructionDecoder.SignedBytesBack | src/vmm/vmm_instruction_emul.c:2163-2248 | displacements and immediates are sign-extended little-endian numbers |
| InstructionHead.DecodedHead | src/vmm/vmm_instruction_emul.c:1909-2014 | for every decodable buffer: flags by the prefixes in front, the last segment prefix counts, REX and its W bit, operand and address size by mode and overrides, operation and operands by the opcode byte, and the length of the immediate |
| InstructionHead.SupportedIff | src/vmm/vmm_instruction_emul.c:80-190 | exactly the listed opcodes are supported |
| InstructionHead.ScaleMeans | src/vmm/vmm_instruction_emul.c:2099-2160 | the scale is 1, 2, 4 or 8 by the upper bits of the SIB byte |
| InstructionHead.OffsetMeans | src/vmm/vmm_instruction_emul.c:2250-2281 | a 64-bit offset is read as the signed number with the same bits |
| InstructionDecoder.InstructionBuffer.Run | src/vmm/vmm_instruction_emul.c:2351-2377 | the stages run in place on a buffer compute exactly the decoding of its bytes |
| InstructionDecoder.InstructionBuffer.ReadPrefixes | src/vmm/vmm_instruction_emul.c:1909-1976 | the prefix loop, REX and the sizes |
| InstructionDecoder.InstructionBuffer.ReadModrm | src/vmm/vmm_instruction_emul.c:2016-2097 | the ModRM stage, failing in real mode and on register operands |
| InstructionDecoder.InstructionBuffer.ReadSib | src/vmm/vmm_instruction_emul.c:2099-2160 | the SIB stage |
| BlockQueue.BlockContext.constructor | src/block_if.c:565-571 | a new context has all elements free and satisfies the queue invariant |
| BlockQueue.BlockContext.Enqueue | src/block_if.c:144-186 | appends the first free element, blocked iff some pending or busy request ends where it begins; keeps the invariant |
| BlockQueue.BlockContext.Dequeue | src/block_if.c:188-206 | starts the first pending element that is not blocked, or none; keeps the invariant |
| BlockQueue.BlockContext.Complete | src/block_if.c:208-225 | frees a busy or pending element and makes exactly the pending requests that begin where it ends runnable; keeps the invariant |
| BlockQueue.BlockContext.WorkerTurn | src/block_if.c:363-375 | one locked turn of the worker: completes what it processed, then starts the next runnable request |
| BlockQueue.BlockContext.Request | src/block_if.c:584-612 | refuses iff no element is free, signals iff the request can run |
| BlockQueue.BlockContext.Cancel | src/block_if.c:642-683 | completes a pending request and leaves everything else as it was |
| BlockQueue.EnqueueValid | src/block_if.c:144-186 | enqueueing keeps the partition, the statuses and a blocker for every blocked request |
| BlockQueue.StartValid | src/block_if.c:188-206 | so does starting any pending element |
| BlockQueue.CompleteValid | src/block_if.c:208-225 | so does completing a busy or cancelling a pending element |
| BlockWorker.HeadRuns | src/block_if.c:363-375 | with nothing busy, the head of the pending queue is never blocked |
| BlockWorker.StepKeeps | src/block_if.c:349-382 | every step of callers, worker and condition variable keeps the whole-system invariant |
| BlockWorker.QueuesStaySound | src/block_if.c:144-225 | in every run the queues partition the elements, every blocked request has its predecessor busy or earlier in the queue, the worker is never asleep and unsignalled with a request pending, and the outstanding requests are exactly the live ones |
| BlockWorker.NeverRefused | src/block_if.c:584-612 | callers that keep within the queue size are never refused, callbacks that issue requests included |
| BlockWorker.PoliteCallersServed | src/block_if.c:584-612 | the same from the opening of a backend on |
| BlockWorker.RoomForOneMore | src/block_if.c:824-829 | with fewer than the queue size outstanding an element is free, whatever the worker is doing |
| BlockWorker.EverythingDrains | src/block_if.c:349-382 | left alone, a worker that has not exited performs every outstanding request, whatever their offsets |
| BlockWorker.ClosesDown | src/block_if.c:718-748 | closing a backend lets the worker perform everything outstanding and exit |
| BlockOrder.EntersBlockedIff | src/block_if.c:144-186 | a request is blocked when it enters iff a queued one ends where it begins |
| BlockOrder.BlockedIff | src/block_if.c:144-225 | in every schedule of any number of workers, while a request is pending it is blocked iff it was and no request that ends where it begins has ended or been dropped since |
| BlockOrder.NotBegunBefore | src/block_if.c:144-225 | a request that enters behind one that ends where it begins is not begun before such a one has ended or been dropped |
| BlockOrder.TwinFrees | src/block_if.c:208-225 | of two requests that end at the same place, the end of one frees the request behind both |
| BlockFifo.FirstComeFirstServed | src/block_if.c:349-382 | for callers within the queue size, every run is one of a queue with one server: order of arrival, one at a time, withdrawn requests taken out |
| AhciPrdt.IoRequest.Gather | src/pci_ahci.c:575-598 | the pieces are the guest bytes after `done`, cut only by the length, the end of the PRDT or the piece limit |
| AhciPrdt.BytesFollow | src/pci_ahci.c:575-598 | the bytes of a piece follow one another from its address |
| AhciPrdt.IoRequest.Trim | src/pci_ahci.c:605-612 | drops exactly the last bytes from the pieces |
| AhciPrdt.IoRequest.BuildIov | src/pci_ahci.c:567-619 | a round sends the guest bytes from old to new `done`; with more than 2^31-1 bytes left it sends an empty request and asks for more; otherwise, on a suitable PRDT, it moves at least one sector, whole sectors only, and asks for more iff bytes are left |
| AhciPrdt.RoundIsWhole | src/pci_ahci.c:600-604 | a round cut by the piece limit still moves a positive number of sectors |
| AhciPrdt.Transfer | src/pci_ahci.c:675-705 | for any answers of the disk, the rounds form a run; if all succeed and the command fits, they move exactly the first len guest bytes |
| AhciPrdt.FittingRun | src/pci_ahci.c:1879-1900 | every error-free run of a command that fits has moved guest bytes [0, done) in order without gap or overlap, each round at disk offset lba + done, nonempty and in whole sectors, and asks for more iff done is less than len |
| AhciPrdt.OversizedRun | src/pci_ahci.c:575-580 | in every run of a command of 2^31 bytes or more nothing is moved, every request is empty, and the command ends iff the disk reports an error |
| AhciPrdt.WholeRequestIff | src/pci_ahci.c:675-676 | with the 32-bit wrap of the byte count: an error-free run that ended, or had as many rounds as bytes, has moved the guest's whole request iff that is less than 2^31 bytes |
| AhciPrdt.AtapiReadIff | src/pci_ahci.c:1377-1387 | a packet read moves all its blocks iff they are fewer than 2^20 |
| AhciPrdt.Read12Stalls | src/pci_ahci.c:1377-1387 | READ(12) of 2^20 blocks moves nothing and ends only by an error |
| AhciPrdt.Read12Wraps | src/pci_ahci.c:1377-1387 | READ(12) of 2^21+1 blocks moves one block and reports success |
| AhciPrdt.AtaFits | src/pci_ahci.c:640-676 | reads and writes of a disk with sectors of up to 16 KiB always fit |
| AhciCommand.UnhandledIff | src/pci_ahci.c:1803-1819 | a command table is left unhandled iff it does not begin with a host-to-device FIS |
| AhciCommand.NoQueuedTrim | src/pci_ahci.c:1729-1738 | the test for a queued trim asks for two values of one byte, so no table asks for one and SEND FPDMA QUEUED is refused |
| AhciCommand.PowerTest | src/pci_ahci.c:1689-1692 | SET MULTIPLE accepts zero and the powers of two up to 128 |
| AhciCommand.CommandMeans | src/pci_ahci.c:1638-1819 | every command table, outcome by outcome: which bytes make it a transfer, queued or not, a flush, a trim, a packet read, a reset or a command answered without an error |
| AhciCommand.TrimMeans | src/pci_ahci.c:770-825 | a trim goes to the device iff one of its ranges is not empty, and is continued unless that is the last one |
| AhciCommand.AtaBlocksMean | src/pci_ahci.c:640-676 | where the sector count lies and what zero stands for |
| AhciCommand.AtapiBlocksMean | src/pci_ahci.c:1378-1382 | block counts of packet reads are big-endian numbers of two or four bytes |
| AhciEngine.CommandEngine.constructor | src/pci_ahci.c:1986-2011 | a new port is in the initial state of every run |
| AhciEngine.CommandEngine.SendD2h | src/pci_ahci.c:350-381 | a register FIS clears the slot's issue bit unless it reports an error, which stops the scan if FIS receive is on |
| AhciEngine.CommandEngine.SendSdb | src/pci_ahci.c:323-348 | a set-device-bits FIS clears the slot's active bit unless it reports an error |
| AhciEngine.CommandEngine.Submit | src/pci_ahci.c:678-704 | takes the first free request for the slot and marks the slot pending |
| AhciEngine.CommandEngine.RunSlot | src/pci_ahci.c:1772-1819 | handles one slot for each kind of command |
| AhciEngine.CommandEngine.HandleTable | src/pci_ahci.c:1638-1819 | handles the bytes of a slot's command table as the command they stand for |
| AhciEngine.CommandEngine.HandlePort | src/pci_ahci.c:1821-1843 | the scan, on commands that settle, ends and leaves nothing it could still issue |
| AhciEngine.CommandEngine.ScanFor | src/pci_ahci.c:1821-1843 | the first turns of the scan, whatever the commands |
| AhciEngine.CommandEngine.Stop | src/pci_ahci.c:434-484 | takes back the requests the block device gives up, in list order, with the sticky queued flag |
| AhciEngine.CommandEngine.IoreqCallback | src/pci_ahci.c:1849-1921 | a completion continues the command or finishes it and scans again; the invariant is kept |
| AhciPort.HandleSlotInv | src/pci_ahci.c:1638-1819 | issuing any command keeps the invariant |
| AhciRun.CompletedInv | src/pci_ahci.c:1879-1918 | completion, continued or not, keeps it |
| AhciRun.PortStopInv | src/pci_ahci.c:434-484 | stopping with any set of cancelled requests keeps it |
| AhciRun.NextInv | src/pci_ahci.c:2013-2113 | every register write, reset and completion keeps it |
| AhciRun.PendingIsExact | src/pci_ahci.c:1879-1918 | at every lock release of every run a slot is pending iff exactly one busy request carries it, at most 32 are busy, one is free, and fewer are outstanding than the block device takes |
| AhciReports.CompletionMeans | src/pci_ahci.c:1879-1918 | a finished command without an error leaves `ci` and ends the busy status, or leaves `sact` if it was queued; an error leaves the bit and, if it can be reported, stops the port until the guest clears it; a stopped port that becomes idle forgets everything |
| AhciReports.IssueMeans | src/pci_ahci.c:1638-1819 | what handling each kind of command does to `ci`, `sact`, busy, waiting and the requests |
| AhciReports.StepMeans | src/pci_ahci.c:1879-2113 | in every step only the guest sets bits, and a command in flight on a started port keeps its issue bit until the step that ends it |
| AhciReports.CompletedIsOver | src/pci_ahci.c:1879-1918 | in every run a command completed without an error is out of `ci`, or out of `sact` if queued, until the guest sets its bit again |
| AhciReports.StaysClear | src/pci_ahci.c:2013-2113 | in every run a clear bit of `ci` or `sact` stays clear until the guest sets it |
| AhciReports.StaysInFlight | src/pci_ahci.c:1821-1918 | in every run a command in flight on a started port stays in flight until it completes |
| AhciReports.CancelMeans | src/pci_ahci.c:434-484 | the slots of the requests taken back leave `ci` up to the first one of a queued command, in the order of the list, and `sact` from there on |
| AhciReports.CmdMeans | src/pci_ahci.c:2043-2080 | what a write to the command register leaves behind, with and without stopping the port |
| AhciPort.Room | src/pci_ahci.c:678-681 | the free list is not empty when a command is issued |
| AhciScan.IterateUnissued | src/pci_ahci.c:1832-1842 | a handled slot is issued, stops the scan, or belongs to a command that changes nothing |
| AhciScan.ReachesStop | src/pci_ahci.c:1832-1842 | a command that stops the scan is reached |
| AhciScan.IssuesAll | src/pci_ahci.c:1832-1842 | without commands that change nothing the scan ends: unissued slots, then circular distance |
| AhciScan.NeverEnds | src/pci_ahci.c:1832-1842 | with one that changes nothing and none that stops, the scan goes on after any number of turns |
| AhciScan.ScanTerminatesIff | src/pci_ahci.c:1821-1843 | the scan of a started port ends iff it need not begin, or some unissued command stops it, or none changes nothing |
| AhciScan.ReadyPortTerminates | src/pci_ahci.c:1821-1843 | FIS receive enabled and a host-to-device FIS at the start of every issued command table suffice |
| AhciScan.StuckPort | src/pci_ahci.c:1803-1806 | on a started idle port with one issued slot that holds another FIS the scan never ends |
| SataDisk.NothingIsRefused | src/pci_ahci.c:700-704 | in every run of port and block device together, with callbacks that begin at any moment, inside the port's critical sections too, the port's outstanding requests are those the device has accepted, and the device has refused none |
| SataDisk.ServesWell | src/block_if.c:584-683 | cancelling and issuing requests, with turns of the worker and beginning callbacks in between, changes the outstanding ones as asked less the begun ones, without a refusal |
| VirtQueue.WalkChain | src/virtio.c:298-366 | -1 iff no flattened chain of at most 512 descriptors starts at the head; otherwise its length, with its first descriptors copied out in order |
| VirtQueue.WalkTable | src/virtio.c:318-357 | follows an indirect table to its end, or fails iff it contributes no list within the limit |
| VirtQueue.Record | src/virtio.c:197-207 | copies out one descriptor if there is room |
| VirtQueue.ChainUnique | src/virtio.c:298-361 | a head has at most one chain |
| VirtQueue.CyclesHaveNoChain | src/virtio.c:288-306 | a walk that returns to an index is no chain, so it is rejected |
| VirtQueue.TableCyclesHaveNoList | src/virtio.c:334-357 | nor does an indirect table with a cycle contribute one |
| DescriptorBits.DirectChain | src/virtio.c:306-360 | a descriptor with bit 2 clear is the end of its chain iff bit 0 is clear, and otherwise leads to its `next` field |
| DescriptorBits.IndirectChain | src/virtio.c:310-327 | one with bit 2 set needs the feature and a positive multiple of 16 as its length, and contributes the list of its table |
| DescriptorBits.TableEntry | src/virtio.c:335-358 | within a table bit 2 must be clear and bit 0 leads on |
| DescriptorBits.OtherBitsDoNotMatter | src/virtio.c:280-366 | all other bits, in ring and tables, change neither whether there is a chain nor its addresses and lengths |
| VirtQueue.Queue.GetChain | src/virtio.c:249-367 | nothing available, too many available, malformed and well-formed chains, with the effect on index and counts |
| VirtQueue.Queue.RetChain | src/virtio.c:375-380 | puts the last chain back |
| VirtQueue.Queue.RelChain | src/virtio.c:389-414 | writes the used entry at the wrapped position and advances the used index |
| VirtQueue.Queue.EndChains | src/virtio.c:431-467 | with the event index and no override, interrupts iff the index the guest asked for lies in the wrapped interval passed since the last decision |
| VirtQueue.CrossedIff | src/virtio.c:459-460 | the 16-bit comparison is that interval test, for every batch below 2^16 |
| VirtQueue.Queue.ChainsHeld | src/virtio.c:276-297 | the distance of the indices modulo 2^16 is the number of chains held iff the rejected ones are a multiple of 2^16 |
| VirtQueue.RejectedHead | src/virtio.c:296-305 | a head beyond the ring is rejected and leaves a ring distance of 1 with no chain held |
| VirtQueue.InitQueue | src/virtio.c:159-190 | descriptors, available and used ring with their event indices follow one another within the queue's size |
| PciIntx.PermittedMask | src/pci_irq.c:52-54 | the mask of permitted lines has just bits 3-7, 9-12 and 14-15 |
| PciIntx.InterruptFabric.Assert | src/pci_emul.c:1561-1576 | an idle device becomes asserted if permitted, otherwise pending; all counts stay right |
| PciIntx.InterruptFabric.Deassert | src/pci_emul.c:1578-1591 | a device becomes idle; all counts stay right |
| PciIntx.InterruptFabric.Refresh | src/pci_emul.c:1593-1606 | the update after a configuration write |
| PciIntx.InterruptFabric.IrqAssert | src/pci_irq.c:147-165 | the pin count goes up; the PIC line moves only when the pin becomes active |
| PciIntx.InterruptFabric.IrqDeassert | src/pci_irq.c:167-186 | the pin count goes down; the PIC line moves only when the pin becomes inactive |
| PciIntx.InterruptFabric.WritePirq | src/pci_irq.c:92-108 | rerouting an active pin moves its assertion from the old line to the new one, where valid |
| PciIntx.InterruptFabric.WriteConfig | src/pci_emul.c:855-917 | a configuration write and its update: the device is then settled and all counts are right |
| PciIntx.LintrUpdateInv | src/pci_emul.c:1593-1606 | after the update the device is neither asserted while forbidden nor pending while permitted, whatever was written |
| PciIntx.ConfigWriteInv | src/pci_emul.c:855-917 | a configuration write alone leaves all counts right |
| PciIntx.PirqWriteInv | src/pci_irq.c:92-108 | so does rerouting |
| PciIntx.CountsStayRight | src/pci_irq.c:147-186 | after every run a pin's count is its number of asserted devices, net PIC asserts are the active pins validly routed, net I/O APIC asserts the asserted devices, and updated devices are settled |
| PciIntx.LineHighIff | src/pci_irq.c:77-83 | a PIC line is high iff an asserted device sits on a pin validly routed to it |
| IntxHistory.NoInterruptIsForgotten | src/pci_emul.c:1562-1605 | in every run a device is idle iff it never raised its interrupt or lowered it last; once updated it is asserted iff the interrupt is raised and the last configuration permits it |
| IntxHistory.LinesFollow | src/pci_irq.c:93-187 | in every run, once all updates are made, a PIC line is high iff some device drives a pin whose last routing leads to it, and an I/O APIC pin iff some device wired to it drives its interrupt |
| MmioRegistry.FindIff | src/mem.c:70-96 | a search succeeds iff some member overlaps the key, and returns such a member; empty ranges may be among the members |
| MmioRegistry.InsertIff | src/mem.c:98-116 | a range, empty or not, is inserted iff it overlaps none, as the only change, and the order is kept |
| MmioRegistry.RemoveMeans | src/mem.c:268-268 | removing a nonempty member, the only kind a lookup finds, removes it and nothing else |
| MmioRegistry.Rotation | src/mem.c:133-133 | rotations change neither members nor order |
| MmioRegistry.RegisterIff | src/mem.c:214-238 | a range that does not wrap is added iff it overlaps none and begins in none; an error iff it overlaps some but begins in none |
| MmioRegistry.DroppedSilently | src/mem.c:214-238 | registering [5,14] after [0,9] reports success without adding it |
| MmioRegistry.EndIs | src/mem.c:225-227 | the end lies at or after the base, or just before it for an empty range, iff the range does not wrap; it wraps to the last address for an empty range at address 0 |
| MmioRegistry.WrappingIff | src/mem.c:225-233 | registering a wrapping range keeps the order iff the range begins inside a member |
| MmioRegistry.LosesIff | src/mem.c:214-238 | after a wrapping range was added, some next range is registered and not found at one of its addresses iff every member begins after the base, or begins by the end and ends at least two addresses before the base |
| MmioRegistry.WrappingHides | src/mem.c:214-238 | after a range from 10 that wraps to 5, [7,12] is registered with success and an access to 8 finds nothing |
| MmioRegistry.HintAgrees | src/mem.c:167-188 | a hinted access finds what a fresh search of both trees would and keeps the hints live |
| MmioRegistry.UnregisterInv | src/mem.c:254-282 | not found iff no range covers the base; success iff a nonempty mutable range has that name, base and size, and then exactly it is removed and its hints are cleared |
| MmioRegistry.OrderKeptIff | src/mem.c:159-282 | the trees stay ordered throughout a sequence of registrations, removals and accesses iff every wrapping range in it begins inside a member |
| MmioRegistry.AlwaysConsistent | src/mem.c:159-282 | after every such sequence both trees are disjoint and every access, hinted or not, finds the range that covers its address, main tree first, and nothing only if there is none |
| MmioRegistry.MmioMap.RegisterMem | src/mem.c:214-238 | registration in place for any 64-bit base and size, with the wrapping end: the invariant is kept iff the range does not wrap or begins inside a member |
| MmioRegistry.MmioMap.UnregisterMem | src/mem.c:254-282 | removal in place, with the loop that clears the hints |
| MmioRegistry.MmioMap.EmulateMem | src/mem.c:159-188 | the lookup of an access in place |
| Md5.Context.Update | src/md5c.c:97-134 | after a piece the context stands for the longer message, if buffered bytes and piece together are fewer than 2^32 |
| Md5.Context.FoldInput | src/md5c.c:117-126 | completes the buffered block and folds whole blocks |
| Md5.LoopEndsIff | src/md5c.c:123-124 | the block loop, with its 32-bit index, ends iff buffered bytes and piece together are fewer than 2^32 |
| Md5.LongPieceHangs | src/md5c.c:123-124 | one byte buffered and a piece of 2^32-1 bytes: the loop never ends |
| Md5.Context.AddBits | src/md5c.c:109-113 | adds the length to the two-word bit count |
| Md5.AddedCounts | src/md5c.c:109-113 | the carry rule counts bits modulo 2^64 |
| Md5.Context.Pad | src/md5c.c:140-156 | the context then stands for the padded message |
| Md5.Context.Final | src/md5c.c:163-176 | the digest is that of the one-shot definition |
| Md5.DigestOfPieces | src/md5c.c:77-176 | for any cutting into pieces whose loops end, in particular pieces of at most 2^32-64 bytes, the digest is that of the whole message |
| Md5.FoldAppend | src/md5c.c:117-127 | folding whole blocks and then the rest is folding all |
| Md5.PaddedIs | src/md5c.c:141-160 | the padded message is the message, one byte 0x80, zero bytes and the length in bits, a multiple of 64 bytes |
| Md5.InitialIs | src/md5c.c:77-90 | the state begins with the registers of section 3.3 of RFC 1321 |
| Md5.DigestIs | src/md5c.c:163-177 | the digest is the four words in order, each least significant byte first |
| IniConfig.ReadBack | src/xhyve-manager.c:295-308 | parsing a written list of well-formed settings makes exactly those handler calls, in order, without an error |
| IniConfig.ReadsBackIff | src/ini/ini.c:73-174 | a setting survives iff its value has no outer white space and no comment and its line fits |
| IniConfig.ListReadsBackIff | src/ini/ini.c:73-174 | a whole list with proper sections and names is read back iff each of its settings survives |
| IniConfig.IndentedIsLost | src/ini/ini.c:144-144 | a value that begins with a blank is not read back |
| IniConfig.OverlongIsLost | include/ini/ini.h:84-87 | nor is one that is too long for its line |
| IniConfig.DeliveredIff | src/ini/ini.c:144-150 | what the parser delivers equals the written value iff it is trimmed and has no comment |
| IniConfig.LongEntryFails | include/ini/ini.h:84-87 | an entry that does not fit the line buffer is delivered cut or reported as an error, whatever follows it |
| IniConfig.FindEndAll | src/ini/ini.c:47-62 | a scan finds nothing iff none of the characters and no comment occurs |
| IniConfig.LoadAfterSave | src/xhyve-manager.c:41-54 | loading a saved machine restores every field of the table, whatever the defaults |
| IniConfig.ParseStream | src/ini/ini.c:73-174 | the line loop computes the specified parse |
| IniConfig.ProcessLine | src/ini/ini.c:101-167 | one line: comment, continuation, section or pair |
| IniConfig.StripRight | src/ini/ini.c:28-34 | removes white space at the end |
| IniConfig.SkipLeft | src/ini/ini.c:37-42 | skips white space at the front |
| IniConfig.FindCharsOrComment | src/ini/ini.c:47-62 | the scan for a character or an inline comment |
| IniConfig.SpaceIff | src/ini/ini.c:28-45 | which characters are white space |
| IniConfig.TruncatedIs | src/ini/ini.c:64-70 | copies are cut to fit their buffer with the final NUL |
| IniConfig.BomIs | src/ini/ini.c:104-110 | a byte order mark at the front of the first line is skipped |
| IniConfig.WriteMachineConfig | src/xhyve-manager.c:295-308 | the writing loop emits a heading whenever the section changes |

## Left out

- Hypervisor.framework, vmnet, tap, tty, kqueue, files and sockets: foreign I/O.
- Rendezvous.Safety: assumes one thread per vcpu and that the set of active cpus only grows during a run.
- GuestPaging.Vm.Gla2Gpa: is about a walk without other writers; `PagingRace` covers the walk with them.
- Guest writes to descriptors while a virtqueue chain is walked.
- The bounce buffer of the block backend, which is never enabled, and the signal that interrupts a transfer in flight; cancelling such a request is a step that changes nothing.
- Requests issued after a block backend was told to close may stay pending for ever; `BlockWorker.EverythingDrains` is about workers that have not exited.
- AhciEngine.CommandEngine.HandlePort: requires commands that settle, because otherwise the scan has no end and no result; `AhciScan.ScanTerminatesIff` says when they do and `AhciEngine.CommandEngine.ScanFor` what the turns do in any case.
- AhciEngine.CommandEngine.IoreqCallback: requires that the scan after a finished command settles, for the same reason.
- AhciRun.CompletedInv: what a completion callback reads from the command table is an input, since the guest may have changed the table meanwhile.
- The contents of identify, log, mode and table-of-contents data.
- AhciPrdt.Transfer: addresses of pieces are guest addresses; what the disk has moved before it reports an error is not counted as moved.
- How the FIS yields the disk offset of a transfer; `AhciPrdt` takes it as given.
- Ports without a backing device, FIS contents, interrupt status registers and command-list DMA of the AHCI controller.
- Unmapped indirect tables: a table pointer outside guest memory is not modelled, and the ring mask is written as a remainder.
- The routing of pins to lines at start-up, and the internals of the interrupt controllers, which are net assertion counters here; configuration bytes other than the three that permit INTx.
- Red-black balancing: the trees have no balance condition, so nothing is said about search time. `MmioRegistry.Rotation` shows that order does not depend on it; which ranges are lost beside a wrapping one does.
- Md5.Context.Update: requires that buffered bytes and piece together are fewer than 2^32, which is exactly when the block loop ends.
- The 64 rounds of the MD5 block transformation: a parameter.
- The configuration table is not part of this model: settings are an arbitrary list of sections, names and values. NUL characters in a configuration file are not covered, and in-place edits of line buffers are parts of sequences here.
- InstructionDecoder.DecodeUndoesEncode: covers the decoding stages, not the comparison of the computed address with the faulting one; 16-bit address forms are decoded as the code decodes them, with the 32-bit tables.
- ACPI, SMBIOS and MP tables, CPUID, MSRs, serial port, RTC, keyboard, timers, task switching, I/O instructions, boot loaders and the interactive manager.
