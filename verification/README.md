# Verified model of the MyOS kernel's memory, scheduling, crypto and I/O cores

This project models, in Dafny, the parts of a small x86_64 kernel whose correctness is not visible from any one
function: page tables with copy-on-write, X25519 arithmetic, the task scheduler, the kernel heap, SHA-256, the TLS
record layer, the TCP receive path, hard links over two name tables, the ELF loader, ext2 file reads, the shell's
arithmetic evaluator and line drawing. `dafny verify dfyconfig.toml` checks everything.

Where the C code changes memory in place, the model is a class or a method over arrays; each such method is proved
equal to a function of the old state, and the properties are proved about those functions and about whole runs.

## How the files are organised

| area | files |
|---|---|
| Physical frames, page tables, copy-on-write | `Paging.dfy` (tables, walks, ownership), `Cow.dfy` (sharing and counters), `Spaces.dfy`, `NewDir.dfy`, `Steps.dfy`, `Teardown.dfy` (what each operation does to states), `Counters.dfy` (the counters, exactly), `Balance.dfy` (who holds which frame), `Vmm.dfy` (the code on arrays), `Access.dfy` (what user code and the kernel can reach), `Processes.dfy` (whole runs) |
| X25519 | `Field25519.dfy` (limbs), `Curve25519.dfy` (powers, inversion), `FieldBytes.dfy` (bytes, swap), `Ladder.dfy` |
| Scheduler | `Scheduler.dfy` (operations, code), `Fairness.dfy` (mutual exclusion, bounded waiting), `Turns.dfy` (the choice, slices, sleep) |
| Heap | `Heap.dfy` (block lists, runs), `HeapList.dfy` (linked headers, code) |
| Hash, cipher mode, TLS, TCP | `Sha256.dfy`, `Gcm.dfy`, `Ring.dfy`, `Tls.dfy`, `Tcp.dfy`, `TcpOrder.dfy` (overtaking, opening, closing) |
| File systems | `Links.dfy`, `LinkSteps.dfy`, `LinkTable.dfy`, `Resolve.dfy` (MFS4 over MFS3), `Ext2.dfy` |
| Loader | `Elf.dfy` (headers, pages, counting frames), `WordBytes.dfy` (words as bytes), `Loader.dfy` (the code on the page tables), `Formats.dfy` (ELF and ext2 structures from the writer's side) |
| Shell, graphics | `Arith.dfy`, `ArithText.dfy`, `Line.dfy` |
| Shared | `Bytes.dfy` (bytes, powers of two, bit operations), `Numbers.dfy` (division, products, set sizes) |

## Main results

- **Copy-on-write is invisible to user programs.** `Processes.Run`: over every sequence of create, demand paging, fork, user writes
  with their faults, and exit, every address space reads exactly what a reference machine with private memories and
  eager copying at fork would give it. As long as the frames free at the start cover the operations so far (3 for a new
  space, 4 for a touch, 516 for a fork, 1 for a write, 0 for an exit), every operation does exactly what the reference
  machine does. The invariant behind it: a writable entry is the only entry on its frame, and
  the counter of a frame with two or more sharers is at least the number of sharers (it goes up by 2 per fork, so it
  is not equal to it), and free frames and page tables have no counter.
- **Who can reach what.** `Access.UserReach`: in every state of every run, user code reads exactly the first 8MB and the pages of
  its own address space, and writes the first 8MB and those of its pages that are not waiting to be copied.
  `Access.WindowsAtTheirPlace`: the kernel's windows (0-8MB, 64-76MB, 1-4GB) and nothing else are 2MB pages, each at its own
  address, in every address space. `Access.PagesApart`: no user page lies in a window or in a page table.
- **Counters are exact.** A fork raises the counter of exactly the parent's pages below 1GB, once each (`Vmm.Machine.CopyCow`,
  `Counters.Raises`); a copying fault takes one frame and counts one down (`Vmm.Machine.CowFault`); a teardown counts down exactly
  its shared pages (`Vmm.Machine.FreeUserMemory`). So after one fork the first writer copies and the second needs no frame
  (`Counters.RaisedToTwo`, `Counters.SecondWriter`).
- **Frames come back.** `Processes.LongRuns`: in a run without fork, with touches below 1GB outside the 2MB entries, the budget is
  counted anew whenever no new address space is left, and at every such point the bitmap is the one of the start; so the run is
  exact however long it is. `Processes.CreateTouchTeardown`: from every state, with three free frames and two for each touch.
  `Vmm.Machine.FreeUserMemory` says of every frame whether a teardown frees it.
- **Programs load, or are cut short silently.** `Loader.ElfLoad` runs on the same page tables: what the program reads, and the
  result, are what counting frames says; `Loader.LoadedIff` gives the condition under which every page is there, and
  `Loader.LoadProgram` what a program of several segments then reads at every address.
- **The ladder computes multiples on the curve with A = 486666.** `Ladder.Curve25519Ladder`: for every scalar and input, the
  limb code returns the canonical bytes of X/Z of the clamped multiple, defined by halving the scalar over the integers modulo
  2^255 - 19, without swaps. No 64- or 128-bit intermediate is lost. `Ladder.Doubling` and
  `Ladder.Addition` give the two formulas as polynomials in the coordinates, for every modulus; `Ladder.Once` and
  `Ladder.Consecutive` say that the pair starts with the point itself and always holds consecutive multiples.
- **Bounded waiting.** `Fairness.BoundedWaiting`: in every run, a task eligible at every selection is passed over at
  most 384 + 31 times in a row; `Fairness.BoundedTicks`: fewer than 3 * 416 timer ticks, and two more for each time the
  priority of the running task is set. `Fairness.RunInv`: no task is ever current on both processors.
  `Turns.NotPassedOver` states the choice on the fields of the tasks: a step of priority is worth four nice points, a nice point
  eight selections of waiting. `Turns.SleepsOn`: a sleeper cannot be chosen before the first check at or after its wake time.
- **The heap loses nothing.** `Heap.EveryRun`: whatever the run, the blocks tile the heap, live blocks are disjoint,
  and once all are released the heap is a single free block again.
- **Streams.** `Tls.Exchange` and `Tcp.Drive`: what the receiver gets is what was sent, whatever the record sizes,
  buffer sizes, losses, duplicates and reorderings; for TCP, if and only if no segment brings more than the ring has room for.
  `TcpOrder.EitherOrder` says exactly when two neighbouring segments may change places, `TcpOrder.Overtaking` that any number of
  such pairs arrive complete; `Tls.WireFormat` and `Gcm.MaskedBy` fix the bytes on the wire and the blocks that are encrypted.
- **Links are a map.** `LinkSteps.RunRefines`: over every run of operations that are safe where they happen, the two name
  tables act like one map from path to file, directory or link target, and a single unsafe operation breaks them.
  `Resolve.FollowsChain`, `Resolve.LeadsThere`: where paths lead through symbolic links.

## Where the code falls short, and exactly when

- `elf_load` reports success for a program whose pages could not all be mapped: a page in a 2MB entry (below 8MB, 64-76MB,
  1-4GB) is skipped, and so is one whose page tables find no frame. `Loader.LoadedIff` gives the condition in both
  directions; `Elf.SilentLoss` and `Elf.HugeLoss` are the failing inputs.
- The ladder multiplies by 121666 together with AA, while section 5 of RFC 7748 uses 121665 with AA. One doubling agrees with
  the RFC if and only if the square of 4XZ is 0 modulo p (`Ladder.DoublingIffRfc`); it already differs for the base point
  x = 9 (`Ladder.BasePointDiffers`). The formula used is the doubling of the curve with A = 486666 instead of 486662.
- A page shared by a fork and never written stays allocated after both address spaces have ended: the counter went up by two for
  the two of them, and each only counts it down (`Counters.LostFrame`). Of the n + 1 sharers after n forks the last writer
  keeps the frame without a copy exactly for n = 1, or for n = 254, where the counter had stuck (`Cow.LastWriter`).
- A sleep whose wake time passes 2^32 is over at the first check; every other one lasts as long as asked (`Turns.SleepLong`).
- An out-of-order segment is compared without regard to wrap-around, so one behind the wrap is not kept
  (`TcpOrder.EitherOrder`).
- A TLS record of 16368 to 16383 bytes is accepted by the sender and refused by this receiver; content type 0 is
  never recovered. `Tls.RecordRoundTrip` gives the condition in both directions.
- `malloc(n)` for the last three 32-bit values rounds the size to 0; if it is served, the block is smaller than asked for,
  and for every other size it is not (`Heap.ServedEnough`, `Heap.EmptyBlock`).
- A link or symbolic link whose path has 64 or more characters is stored cut, so the same call twice gives two entries for one path
  (`LinkSteps.LinkTwice`, `LinkSteps.LinkExample`, `LinkSteps.SymlinkTwice`); a directory name of 32 or more characters is stored cut in
  the file table and can take the name of a live file (`LinkSteps.MkdirExample`); a rename of a file to 32 or more characters
  cuts the name in one table and not in the other, so the path no longer leads to its file (`LinkSteps.RenameKeepsFile`,
  `LinkSteps.RenameExample`). `LinkSteps.ApplyOk` says for every operation exactly when the tables stay consistent.
- `inode_read` returns nothing when offset + len passes 2^32 although offset lies inside the file
  (`Ext2.ReadExactly`, `Ext2.WrapExample`).
- The TCP ring drops bytes when full while the acknowledgement advances. `Tcp.InOrder`: the stream is intact if and only if
  no segment brings more than the ring has room for, which the events alone decide; a stream that fits the ring is always
  intact (`Tcp.ShortStream`), and 4096 bytes at once never are (`Tcp.OverflowExample`).
- A running task whose priority is set before every tick is never interrupted, whoever waits (`Fairness.Starvation`): that is
  what the second term of the tick bound is for.
- A FIN is taken in any position, so one that overtakes data ends the connection and the rest of the stream is refused.
  `Tcp.WholeStream`: a connection the peer has closed has the whole stream if and only if no FIN was taken early; a FIN
  sent behind the last byte is early exactly when it does not come next and something is missing (`Tcp.EarlyIff`);
  `Tcp.OvertakenExample` is a failing input.
- The comment in `memory.c` gives the heap header 12 bytes; with 64-bit pointers it is 16, which the model uses.

## Modelling conventions

- A 64-bit word is a record of its value and of the parts a page-table entry has: frame number and flag bits. Every number is
  embedded as such a record (`WordBytes.WordOf`), and the entries the memory manager writes are records of that form
  (`WordBytes.EntryValues`); the record type itself is larger. Frames hold 512 such words; the loader sees a page as 4096 bytes.
  Frame numbers stand for addresses, 0 for null.
- C functions without a result get a ghost result saying whether they took effect.
- A field element is a record of five limbs; wrap-around of 64- and 128-bit words is written out. `|`, `&` and `^` are
  defined bit by bit on non-negative integers.
- In the TCP model one turn of a polling loop is a list of arriving segments, and the deadline is the end of the list of turns.
- An indirect block of ext2 that cannot be read counts as a block of holes, as in the code.
- Clocks, network arrival and compression, cipher and hash functions are parameters. Interrupt flags, CR3, MSR and FPU
  handling are left out; each C function is one atomic step.
- `int` and `long` arithmetic that would overflow in C is unbounded in `Arith.dfy` and `Line.dfy`; `Line.AtEnd` bounds the
  error term by twice the longer side.

## Model

| member | source | states |
|---|---|---|
| Processes.Run | src/kernel/vmm.c:222-491 | over every run of create, touch, fork, write and exit, every address space reads what the eager-copy reference machine says at every point, the invariant holds at every point, each operation takes at most its cost in frames, and each is exactly the reference operation as long as the frames free at the start cover the costs so far, or, without fork, those since no new address space was left |
| Processes.BootAndRun | src/kernel/vmm.c:43-491 | the same from boot, with 14336 free frames, against the reference machine without address spaces |
| Processes.Step | src/kernel/vmm.c:222-491 | one operation changes the views of all address spaces as the reference machine does, and without fork keeps every frame accounted for |
| Processes.OutcomesExact | src/kernel/vmm.c:222-491 | frames that cover a run from its start make every event the reference machine's |
| Processes.LongRuns | src/kernel/vmm.c:222-341 | a run without fork that can afford each operation, counted since no new address space was left, is exact throughout, and whenever none is left the bitmap is that of the start |
| Balance.HoldsExit | src/kernel/vmm.c:279-341 | a teardown of a space that was never shared gives back exactly the frames of that space; the others still hold theirs |
| Balance.HoldsTouched | src/kernel/vmm.c:129-181 | a new page takes exactly the frames its space then owns |
| Balance.HoldsNobody | src/kernel/vmm.c:279-341 | when no space is left the bitmap is what it was |
| Processes.Fork | src/kernel/syscall_proc.c:121-126 | the child gets the parent's pages below 1GB, no other view changes; complete unless frames run out, with exactly the parent's pages there counted; fails exactly with fewer than three free frames |
| Processes.SysFork | src/kernel/syscall_proc.c:121-135 | fails exactly without a task slot or with fewer than three free frames, and then no view has changed; otherwise one more space whose pages are the parent's below 1GB, all of them with 516 free frames |
| Processes.WriteWord | src/kernel/vmm.c:460-491 | a user store through the fault handler changes one word of one page of one address space, or nothing at all |
| Processes.MakeWritable | src/kernel/kernel.c:546-575 | handling the write fault changes no view and leaves a writable entry |
| Processes.DemandPage | src/kernel/kernel.c:579-615 | a zero page appears at the faulting page of one space only; it fails exactly in a 2MB region or with fewer free frames than one and the missing tables, and takes exactly these |
| Processes.MapRefines | src/kernel/vmm.c:129-181 | after a successful map, the physical address is the new frame's at every address of that page and unchanged for every other page and space |
| Processes.MapThenUnmap | src/kernel/vmm.c:187-211 | mapping an unmapped page and unmapping it leaves every walk of every space as it was |
| Processes.CreateTouchTeardown | src/kernel/vmm.c:67-73 | from every state, without fork, create, any touches below 1GB outside the 2MB entries and teardown restore the bitmap and the free count, whenever three frames and two for each touch were free |
| Access.WindowsAtTheirPlace | src/kernel/vmm.c:246-269 | in every state of every run and every address space, 2MB pages are exactly 0-8MB, 64-76MB and 1-4GB, and each address there translates to itself |
| Access.CreateAndLook | src/kernel/vmm.c:222-273 | right after creation the code translates every such address to itself |
| Access.PagesApart | src/kernel/vmm.c:50-59 | no page of any address space lies in these windows or in a page table |
| Access.UserReach | src/kernel/vmm.c:137-178 | user code reads exactly the first 8MB and its own pages, and writes exactly the first 8MB and those of its pages not waiting to be copied |
| Counters.RaisedToTwo | src/kernel/vmm.c:440-445 | a fork raises the counter of a page that was never shared to 2 |
| Counters.NotRaised | src/kernel/vmm.c:425-445 | a fork leaves the counter of every other frame alone |
| Counters.SecondWriter | src/kernel/vmm.c:471-487 | once one of two sharers has copied, the other keeps the frame and its fault needs none |
| Counters.SurvivorWrites | src/kernel/vmm.c:305-314 | once one of two sharers has ended, the other keeps the frame and its fault needs none |
| Counters.LostFrame | src/kernel/vmm.c:305-314 | if both end without writing, the frame stays taken with counter 0 |
| Cow.LastWriter | src/kernel/vmm.c:440-445 | of n + 1 sharers the n first writers copy, and the last one needs no frame exactly for n = 1 or n = 254 |
| Vmm.Machine.constructor | src/kernel/vmm.c:28-48 | at boot, from any memory: the boot page directories filled in, no address spaces, exactly the frames below 8MB used, counters zero, and the invariant holds |
| Vmm.Machine.FillBootPd | src/kernel/kernel_entry.asm:72-112 | the boot page directory of one of the gigabytes 1 to 3 maps it to itself in 2MB pages, for the kernel only |
| Vmm.Machine.PmmInit | src/kernel/vmm.c:43-48 | exactly the frames below 8MB are marked used |
| Vmm.Machine.AllocFrame | src/kernel/vmm.c:50-59 | the lowest free frame becomes used; fails exactly when none is free |
| Vmm.Machine.FreeFrame | src/kernel/vmm.c:61-65 | clears the frame's bit and no other; frames below 8MB are refused |
| Vmm.Machine.FreeCount | src/kernel/vmm.c:67-73 | the number of free frames |
| Vmm.Machine.MapPage | src/kernel/vmm.c:129-181 | one page mapped through exactly the missing tables, every other walk unchanged, 2MB entries never altered; takes effect exactly outside 2MB entries and with a free frame for every missing table |
| Vmm.Machine.UnmapPage | src/kernel/vmm.c:187-211 | the page's walk ends unmapped, every other walk and the bitmap unchanged |
| Vmm.Machine.GetPhys | src/kernel/vmm.c:348-374 | the walk's physical address, in 4KB and 2MB regions |
| Vmm.Machine.GetPte | src/kernel/vmm.c:377-393 | the page table of the walk, 0 if a level is missing or a 2MB entry |
| Vmm.Machine.CreatePageDir | src/kernel/vmm.c:222-273 | a new address space on three fresh frames, without pages and with the 2MB entries at their own addresses, or nothing taken at all |
| Vmm.Machine.CopyCow | src/kernel/vmm.c:406-449 | the child's pages below 1GB become the parent's, no view of any other space changes, complete unless frames run out, for at most 512 frames; the counters of exactly the parent's pages there go up, once each |
| Vmm.Machine.ShareOne | src/kernel/vmm.c:425-445 | sharing one page gives it to the child, keeps the invariant with the counter bumped by 2 up to 255 |
| Vmm.Machine.CowFault | src/kernel/vmm.c:460-491 | no view changes; handled exactly for a copy-on-write page whose counter is at most one or for which a frame is free; afterwards the entry is writable and, by the invariant, alone on its frame; a page whose counter is above one has moved to a frame that was free with the counter one less, and otherwise no frame or counter has changed |
| Vmm.Machine.FreeUserMemory | src/kernel/vmm.c:279-341 | the space disappears, every other view is unchanged, the frames released are exactly its tables for the first gigabyte and its pages there whose counter is zero, and the counters of exactly its other pages there go down by one |
| Cow.MapFresh | src/kernel/vmm.c:178 | mapping a fresh frame keeps the sharing invariant |
| Cow.SharePage | src/kernel/vmm.c:433-445 | read-only sharing with the counter raised keeps counter >= sharers, up to 255 spaces |
| Cow.FaultCopy | src/kernel/vmm.c:472-483 | moving a sharer to its own copy and counting down keeps the invariant |
| Cow.FaultOwn | src/kernel/vmm.c:484-487 | a counter of at most one means the faulting entry is alone, so it may become writable |
| Cow.ReleaseCounted | src/kernel/vmm.c:307-310 | counting down at teardown keeps counter >= remaining sharers |
| Cow.ReleaseLast | src/kernel/vmm.c:308-313 | a counter of zero at teardown means no other space maps the frame |
| Steps.FaultCopyInv | src/kernel/vmm.c:472-483 | the copying fault keeps the whole invariant and every view |
| Steps.ShareDone | src/kernel/vmm.c:425-445 | the whole invariant and the views after one page is shared or the mapping failed |
| Teardown.ReleaseInv | src/kernel/vmm.c:302-315 | releasing one page of a dead space keeps the invariant for the living |
| Spaces.UndoMap | src/kernel/vmm.c:187-211 | unmap undoes map for every walk |
| Field25519.FeAdd | src/kernel/crypto.c:455-458 | no limb wraps; the residue is the sum |
| Field25519.FeSub | src/kernel/crypto.c:460-468 | adding 4p brings every wrapped limb back below 2^54; the residue is the difference |
| Field25519.FeMul | src/kernel/crypto.c:470-494 | limbs below 2^54 give limbs at most 2^51, no 128-bit sum is lost, the residue is the product modulo p |
| Field25519.FeMulScalar | src/kernel/crypto.c:498-512 | the same for a product with a small constant |
| Curve25519.FeInvert | src/kernel/crypto.c:515-533 | the squaring chain raises to exactly the power p - 2 = 2^255 - 21 |
| FieldBytes.FeCswap | src/kernel/crypto.c:536-544 | the masked exclusive-or exchanges all limbs or none |
| FieldBytes.FeFromBytes | src/kernel/crypto.c:547-564 | the limbs stand for the low 255 bits of the bytes |
| FieldBytes.FullReduce | src/kernel/crypto.c:570-592 | two carry passes and one subtraction give the unique representative below p |
| FieldBytes.FeToBytes | src/kernel/crypto.c:567-603 | the 32 bytes are the representative below p |
| FieldBytes.BytesRoundTrip | src/kernel/crypto.c:547-603 | reading and writing back gives (s mod 2^255) mod p |
| Ladder.AddSym | src/kernel/crypto.c:633-639 | the differential addition does not depend on the order of its operands |
| Ladder.AddIs | src/kernel/crypto.c:633-639 | the addition of the ladder is that modulo p |
| Ladder.Addition | src/kernel/crypto.c:633-639 | for every modulus the sum is (4(XX' - ZZ')^2 : 4 x1 (XZ' - ZX')^2), written in the coordinates of the two points |
| Ladder.Once | src/kernel/crypto.c:612-614 | once times the point is the point: its first coordinate is x1 times its second |
| Ladder.Consecutive | src/kernel/crypto.c:622-645 | for every n the second point of the n-th pair is the first of the next, up to a stated power of 4 x1 |
| Ladder.DoublingScaled | src/kernel/crypto.c:630-644 | doubling is homogeneous of degree four, for every modulus |
| Ladder.AffineTimesZ | src/kernel/crypto.c:649-651 | the output times Z is X times Z^(p - 1) |
| Ladder.AffineUnit | src/kernel/crypto.c:649-651 | X : 1 gives X |
| Ladder.ClampedBits | src/kernel/crypto.c:619 | a clamped scalar is a multiple of 8 with bit 254 on top and bits 3 to 253 of the input |
| Ladder.Clamp | src/kernel/crypto.c:616-619 | the clamped bytes are 2^254 + 8 * ((n / 8) mod 2^251) |
| Ladder.BitAt | src/kernel/crypto.c:623 | the bit the loop picks is bit i of the scalar |
| Ladder.Rung | src/kernel/crypto.c:623-644 | one iteration, with its deferred swap, is one doubling and one addition of the pair it stands for |
| Ladder.Curve25519Ladder | src/kernel/crypto.c:608-653 | for every scalar and point the output is X/Z of the clamped multiple over Z/p |
| Ladder.DblIs | src/kernel/crypto.c:630-644 | the doubling of the ladder is that modulo p with multiplier 121666 |
| Ladder.Doubling | src/kernel/crypto.c:630-644 | for every modulus and multiplier the doubling is ((X^2 - Z^2)^2 : 4XZ(X^2 + A XZ + Z^2)) with A four times the multiplier plus 2, so 486666 for the code |
| Ladder.DoublingIffRfc | src/kernel/crypto.c:630-644 | for every modulus it equals the doubling with the multiplier of section 5 of RFC 7748 if and only if the square of 4XZ is 0 there |
| Ladder.BasePointDiffers | src/kernel/crypto.c:630-644 | for X = 9, Z = 1 it does not, for p and every modulus above 1296 |
| Scheduler.BestWins | src/kernel/task.c:308-320 | the choice has the highest score, the lowest slot among equals, and is none only if nothing is eligible |
| Scheduler.ApScanFirst | src/kernel/task.c:408-434 | the application processor takes the first wanted slot in circular order |
| Scheduler.Kernel.constructor | src/kernel/task.c:75-98 | the shell alone, current on the boot processor |
| Scheduler.Kernel.CountdownOrReset | src/kernel/task.c:39-48 | the tick count and whether the task keeps its processor |
| Scheduler.Kernel.PickBest | src/kernel/task.c:308-320 | the loop finds the specified choice |
| Scheduler.Kernel.TaskSwitch | src/kernel/task.c:294-361 | the boot processor's tick: countdown, selection, aging, release and claim |
| Scheduler.Kernel.TaskSwitchAp | src/kernel/task.c:392-456 | the application processor's tick: assigned tasks first, then stealing |
| Scheduler.Kernel.TaskSetNice | src/kernel/task.c:691-698 | nice is clamped to -20..19 on a live task |
| Scheduler.Kernel.TaskSetPriority | src/kernel/task.c:678-684 | priority and ticks set to 1..3 on a live task, refused otherwise |
| Scheduler.Kernel.TaskCreateFork | src/kernel/task.c:761-787 | the child takes the first free slot with the parent's fields, unclaimed |
| Scheduler.Kernel.DoAll | src/kernel/task.c:294-456 | the tables after any interleaving of operations are the specified run |
| Fairness.ApplyInv | src/kernel/task.c:294-456 | every operation keeps the claim invariant, legal priorities and nice values |
| Fairness.RunInv | src/kernel/task.c:302-456 | in every run the current tasks of the two processors differ |
| Fairness.Exclusion | src/kernel/task.c:332-345 | each processor's current task carries its number, and no other live task carries 0 |
| Fairness.ScoreGap | src/kernel/task.c:317-318 | a rival at least 384 younger scores less, whatever priorities and nice values |
| Fairness.WinnerIsNew | src/kernel/task.c:308-330 | once a task is old, a rival that has won cannot win again before it |
| Fairness.WaiterSelects | src/kernel/task.c:298-300 | while a task waits, every tick at which the current task's time is up reaches selection |
| Fairness.BoundedWaiting | src/kernel/task.c:294-345 | from any reachable state, at most 415 selections pass over a task that is eligible at all of them |
| Fairness.BoundedTicks | src/kernel/task.c:39-345 | from any reachable state, a task eligible at every tick waits fewer than 3 * 416 ticks, and two more for each time the priority of the running task is set meanwhile |
| Fairness.Starvation | src/kernel/task.c:678-684 | a running task given priority 3 before every tick is never interrupted: n ticks, n renewals, no selection |
| Turns.NotPassedOver | src/kernel/task.c:317-319 | of two eligible tasks one is not chosen when the other leads by a nice point, where a step of priority counts four and eight selections of waiting count one; equal claims go to the lower slot |
| Turns.FieldByField | src/kernel/task.c:317-319 | with the other two fields equal, lower nice, higher priority and a wait longer by eight are never passed over |
| Turns.Turn | src/kernel/task.c:332-361 | the chosen task runs, the one before goes back to the pool with its status |
| Turns.SliceLength | src/kernel/task.c:39-48 | a running task with n ticks left is left alone by n - 1 ticks, and the n-th selects |
| Turns.NextSlice | src/kernel/task.c:45-46 | its next slice is as long as its priority |
| Turns.PrioritySet | src/kernel/task.c:678-684 | a legal priority is the slice length at once, anything else changes nothing |
| Turns.Yields | src/kernel/task.c:861-864 | after a yield the next tick selects |
| Turns.NearestNice | src/kernel/task.c:692-698 | the nice value set is the legal one nearest to the request |
| Turns.ApPrefers | src/kernel/task.c:408-438 | the application processor takes an assigned task while there is one, then a free kernel task while there is one |
| Turns.ApRunsKernelTasks | src/kernel/task.c:411-438 | in every run it runs kernel tasks only |
| Turns.FreeSlotLowest | src/kernel/task.c:100-105 | the lowest free slot, or none exactly when all are used |
| Turns.NewTask | src/kernel/task.c:99-150 | a new task takes that slot and changes no other; a user task can be chosen at once, a kernel task exactly without an application processor, a child where its parent could |
| Turns.NewSlice | src/kernel/task.c:107-108 | slices of new tasks: one tick, two ticks, the parent's remaining ones |
| Turns.Unblocked | src/kernel/task.c:844-848 | unblocking makes a blocked task eligible, leaves a sleeper asleep and touches no other |
| Turns.FallsAsleep | src/kernel/task.c:827-832 | with another task eligible, the tick after going to sleep takes the sleeper off the processor |
| Turns.SleepsOn | src/kernel/task.c:850-859 | whatever else happens, it stays asleep and ineligible until the first check at or after its wake time |
| Turns.WakesUp | src/kernel/task.c:850-859 | a check makes it eligible exactly when its time has come |
| Turns.SleepLong | src/kernel/task.c:829-831 | the sleep lasts as long as asked exactly when the wake time fits 32 bits |
| Heap.FreeUndoesMalloc | src/kernel/memory.c:37-80 | free right after malloc restores the exact block list |
| Heap.ClaimedInv | src/kernel/memory.c:39-50 | malloc keeps exact tiling, sizes and no two free neighbours |
| Heap.FreedInv | src/kernel/memory.c:60-80 | free keeps them too |
| Heap.ClaimedLive | src/kernel/memory.c:39-52 | malloc adds one allocation and changes no other |
| Heap.FreedLive | src/kernel/memory.c:60-80 | free removes exactly its own allocation |
| Heap.FreeRun | src/kernel/memory.c:37-57 | when malloc fails, no stretch of neighbouring free blocks is large enough |
| Heap.LiveDisjoint | src/kernel/memory.c:20-80 | live allocations are disjoint with a header between them |
| Heap.NothingLost | src/kernel/memory.c:20-26 | with nothing live the block list is the initial one |
| Heap.EveryRun | src/kernel/memory.c:20-80 | all of this over every run of malloc and free |
| Heap.ServedEnough | src/kernel/memory.c:28-52 | a request that is served adds one allocation, as large as asked for if and only if n is at most 0xFFFFFFFC |
| Heap.GrantedSize | src/kernel/memory.c:30-50 | a request gets its size rounded up to four, or up to 16 bytes more; exactly the rounded size if and only if the block has it or leaves room for a header and four bytes; the address is a multiple of four |
| Heap.EmptyBlock | src/kernel/memory.c:30 | on the fresh heap, a request for 0xFFFFFFFD bytes gets a block of none |
| HeapList.Allocator.constructor | src/kernel/memory.c:20-26 | one free block |
| HeapList.Allocator.Malloc | src/kernel/memory.c:28-58 | walking the links finds the first fit, splits it as specified, fails exactly when nothing fits; the returned block covers the request if and only if n is at most 0xFFFFFFFC |
| HeapList.Allocator.Free | src/kernel/memory.c:60-80 | marking and coalescing over the links give the specified list; only the given allocation goes |
| HeapList.MallocThenFree | src/kernel/memory.c:28-80 | on the linked headers: malloc then free restores the block list, whether or not the request could be met |
| Sha256.PaddedLength | src/kernel/crypto.c:84-94 | the padded message is whole blocks |
| Sha256.GapOk | src/kernel/crypto.c:90-91 | the fewest zero bytes that leave room for the length (section 5.1.1 of FIPS 180-4) |
| Sha256.LengthField | src/kernel/crypto.c:86-94 | below 2^61 bytes the last eight bytes are the bit count |
| Sha256.PaddedInjective | src/kernel/crypto.c:84-94 | different messages have different paddings |
| Sha256.Context.Update | src/kernel/crypto.c:66-82 | absorbs exactly the given bytes, through buffer, whole blocks and rest |
| Sha256.DigestWord | src/kernel/crypto.c:95-100 | every word of the state can be read back from the digest |
| Sha256.Context.Final | src/kernel/crypto.c:84-101 | the padding loop ends and the 32 bytes are the digest of the fold over the padded message |
| Sha256.Hash | src/kernel/crypto.c:57-109 | for every split into updates the 32 bytes are the digest of the fold over the padded concatenation |
| Gcm.CtrTwice | src/kernel/crypto.c:380-397 | counter mode undoes itself |
| Gcm.CounterNumbered | src/kernel/crypto.c:384-391 | a counter block is the nonce and the number, big-endian |
| Gcm.MaskedBy | src/kernel/crypto.c:380-397 | byte i is masked with byte i mod 16 of the encryption of block i / 16 + 2 |
| Gcm.MasksDiffer | src/kernel/crypto.c:386-395 | different blocks of a message use different cipher inputs, and none is the tag's |
| Gcm.TagMask | src/kernel/crypto.c:406-417 | behind the encryption of block 1 the tag is the hash of the cipher text under the encryption of zero |
| Gcm.GcmCtr | src/kernel/crypto.c:380-397 | in place, block by block, exactly the first len bytes, with a 32-bit counter |
| Gcm.TagDiff | src/kernel/crypto.c:435-438 | the accumulated difference is zero exactly for equal tags |
| Gcm.GcmEncrypt | src/kernel/crypto.c:399-418 | cipher text in place and its tag |
| Gcm.GcmDecrypt | src/kernel/crypto.c:420-442 | succeeds exactly for the right tag, and changes the buffer only then |
| Tls.MakeNonce | src/kernel/tls13.c:80-85 | the sequence number onto the last eight bytes of the IV |
| Tls.NoncesDistinct | src/kernel/tls13.c:80-85 | different sequence numbers give different nonces |
| Tls.NonceNumber | src/kernel/tls13.c:80-85 | without the IV the nonce, read big-endian, is the sequence number |
| Tls.WireFormat | src/kernel/tls13.c:132-154 | type 23, version 3.3, the length of the rest, data and type under counter mode, and a tag over header and cipher text |
| Tls.RecordRoundTrip | src/kernel/tls13.c:115-172 | a sent record comes back with type and bytes if and only if the type is not zero and there are at most 16367 bytes |
| Tls.LongRecordLost | src/kernel/tls13.c:120 | every record of 16368 bytes is sent and then refused |
| Tls.RecordsRoundTrip | src/kernel/tls13.c:132-172 | records opened in order are the records sent, with their types |
| Tls.StreamRoundTrip | src/kernel/tls13.c:132-172 | the application bytes of the wire are those of the records |
| Tls.Sender.SendEncrypted | src/kernel/tls13.c:132-154 | appends one sealed record and advances the sequence number, or refuses more than 16383 bytes |
| Tls.Receiver.ReadRecord | src/kernel/tls13.c:115-126 | takes the next record off the wire; fails on a short wire or more than 16384 bytes |
| Tls.Receiver.DecryptRecord | src/kernel/tls13.c:157-172 | opens the record in place; the sequence number advances exactly if there is room for a tag |
| Tls.Receiver.Recv | src/kernel/tls13.c:457-499 | returned bytes, ring and what is still to come are what was pending before, in order; every call makes progress |
| Tls.RecvAll | src/kernel/tls13.c:457-499 | with any positive buffer size, reading to the end returns all application bytes |
| Tls.Exchange | src/kernel/tls13.c:132-172 | whatever the records and the buffer size, the bytes come out as they went in |
| Ring.Buffer.Push | src/kernel/net.c:589-597 | keeps as many bytes as there is space for, all of them exactly if they fit |
| Ring.Buffer.Take | src/kernel/net.c:1013-1021 | returns the oldest bytes, as many as asked for or there are |
| Tcp.SeqUnique | src/kernel/net.c:649 | in a stream below 2^32 bytes a sequence number names one position, across the wrap |
| Tcp.PushedSound | src/kernel/net.c:649-652 | the piece that comes next continues the acknowledged prefix of the stream |
| Tcp.HeardSound | src/kernel/net.c:600-686 | any piece of the stream, however cut, late or repeated, keeps the connection consistent with the stream |
| Tcp.RunSound | src/kernel/net.c:600-1046 | the same over every sequence of arrivals, reads, closes and timeouts |
| Tcp.HeardGain | src/kernel/net.c:645-660 | the acknowledgement grows by the segment and the slot exactly when they come next; bytes are lost exactly if they do not fit |
| Tcp.RunLost | src/kernel/net.c:589-686 | over every run, bytes are lost if and only if some segment brings more than the ring has room for |
| Tcp.InOrder | src/kernel/net.c:589-686 | the bytes that entered the ring are the acknowledged part of the stream if and only if no segment brings more than the ring has room for |
| Tcp.ShortStream | src/kernel/net.c:589-686 | a stream of at most 4095 bytes never loses a byte, whenever the program reads |
| Tcp.OverflowExample | src/kernel/net.c:589-597 | 4096 bytes into an empty ring: acknowledged in full, the last one gone |
| Tcp.WholeStream | src/kernel/net.c:675-683 | over every run, a connection the peer has closed has acknowledged the whole stream if and only if no FIN was taken while a part was missing |
| Tcp.EarlyIff | src/kernel/net.c:675-683 | a FIN sent behind the last byte comes too early exactly when it does not come next and something is missing |
| Tcp.OvertakenExample | src/kernel/net.c:675-683 | a FIN that overtakes the only byte closes the connection, and the byte is refused |
| Tcp.Conn.constructor | src/kernel/net.c:951-974 | a connection waiting for SYN+ACK, ring and slot empty |
| Tcp.Conn.TakeData | src/kernel/net.c:645-673 | in-order push with slot merge, slot store, or nothing, as specified |
| Tcp.Conn.Process | src/kernel/net.c:600-686 | the code does to every field, ring and slot what the specification of a segment says |
| Tcp.Conn.Recv | src/kernel/net.c:1004-1029 | polls until there is data, the connection is at its end or the time is over; hands out the oldest bytes; -1 for a closed descriptor |
| Tcp.Conn.CloseDown | src/kernel/net.c:1031-1046 | the FIN, polling for its answer, and the descriptor free in every case |
| Tcp.Drive | src/kernel/net.c:589-1046 | after every sequence of events the connection is as folded, the bytes read and those in the ring are the acknowledged part of the peer's stream if and only if nothing is dropped, and always for streams of at most 4095 bytes |
| TcpOrder.EitherOrder | src/kernel/net.c:649-668 | two neighbouring pieces leave the same bytes and expected number in either order if and only if the second fits the slot and its number does not wrap |
| TcpOrder.Overtaking | src/kernel/net.c:645-668 | however many pieces are overtaken by their successor, all bytes arrive in order when they fit the ring and the numbers do not wrap |
| TcpOrder.Opening | src/kernel/net.c:623-630 | SYN+ACK and nothing else but a reset ends the opening |
| TcpOrder.FinCounted | src/kernel/net.c:675-683 | the peer's FIN is acknowledged behind the last byte |
| TcpOrder.EndIsFinal | src/kernel/net.c:1004-1029 | where recv reports the end, nothing that arrives later adds to the stream, in every run |
| TcpOrder.NothingYet | src/kernel/net.c:1004-1029 | recv comes back with nothing only at the end or when its turns have run out |
| TcpOrder.ActiveClose | src/kernel/net.c:634-683 | after our FIN: FIN_WAIT_2 exactly with its acknowledgement, TIME_WAIT exactly with the peer's FIN |
| TcpOrder.SecondFin | src/kernel/net.c:675-683 | then TIME_WAIT with the peer's FIN |
| TcpOrder.PassiveClose | src/kernel/net.c:684-686 | after the peer's FIN and ours, exactly an acknowledgement frees the descriptor |
| Links.FindInode | src/kernel/mfs4.c:58-63 | the first used entry with the path, or none |
| LinkSteps.LinkOk | src/kernel/mfs4.c:137-154 | the tables stay consistent if and only if there is nothing to link or the stored path is not in use; then the link leads to the file of the original and no other path changes |
| LinkSteps.SymlinkOk | src/kernel/mfs4.c:121-134 | the tables stay consistent if and only if the stored path is not in use; then the stored path is a link with the stored target and no other path changes |
| LinkSteps.MkdirOk | src/kernel/mfs4.c:157-172 | the tables stay consistent if and only if the path is refused or neither of its cut forms is in use; then the stored path is a directory if the operation succeeds, and no other path changes |
| LinkSteps.UnlinkOk | src/kernel/mfs4.c:252-269 | exactly one path goes |
| LinkSteps.DeletedIffLast | src/kernel/mfs4.c:258-267 | the file is deleted if and only if no other path leads to it |
| LinkSteps.RenameOk | src/kernel/mfs4.c:366-392 | the tables stay consistent if and only if the rename is refused, or a file gets at most 31 characters, or what is left of any other path is free; then one path moves and all other links of the file follow its new name |
| LinkSteps.RenameKeepsFile | src/kernel/fs.c:461-477 | a renamed path leads to its file if and only if the new name has at most 31 characters |
| LinkSteps.RenameExample | src/kernel/mfs4.c:374-388 | a concrete table in which a rename to 32 characters succeeds and loses the file |
| LinkSteps.LinkTwice | src/kernel/mfs4.c:150 | the same link twice under 64 or more characters succeeds twice and leaves two entries for one path |
| LinkSteps.SymlinkTwice | src/kernel/mfs4.c:130 | the same for a symbolic link |
| LinkSteps.LinkExample | src/kernel/mfs4.c:150 | a concrete table in which this happens |
| LinkSteps.MkdirExample | src/kernel/fs.c:388 | a concrete table in which mkdir takes the name of a live file |
| LinkSteps.ApplyOk | src/kernel/mfs4.c:121-392 | every operation keeps unique paths and names, one live target per inode number and different numbers on different targets if and only if it is safe, and then acts on paths as on a map |
| LinkSteps.RunRefines | src/kernel/mfs4.c:121-392 | over every run the tables are consistent throughout if and only if every operation is safe where it happens, and then they are a map from path to file, directory or link target |
| LinkSteps.FittingSafe | src/kernel/mfs4.c:121-392 | names of at most 63 characters, 31 for directories and renames, are always safe |
| LinkTable.Tables.MakeLink | src/kernel/mfs4.c:137-154 | the code does what the specification of a hard link says, including every refusal |
| LinkTable.Tables.MakeDir | src/kernel/fs.c:380-402 | the same for mkdir in both tables |
| LinkTable.Tables.Unlink | src/kernel/fs.c:223-234 | the same for unlink and the deletion in the file table |
| LinkTable.Tables.Rename | src/kernel/mfs4.c:366-392 | the same for rename |
| LinkTable.Tables.MakeSymlink | src/kernel/mfs4.c:121-134 | the same for symlink |
| Resolve.ResolvePath | src/kernel/mfs4.c:103-118 | the loop gives the first path that is no symbolic link, or the empty path when its turns run out |
| Resolve.FollowsChain | src/kernel/mfs4.c:103-118 | a chain of n links is followed to its end exactly when there are more than n turns |
| Resolve.FoundByChain | src/kernel/mfs4.c:103-118 | every other result is the end of a chain |
| Resolve.CycleGivesUp | src/kernel/mfs4.c:113-117 | a cycle gives the empty path, whatever the number of turns |
| Resolve.LeadsThere | src/kernel/mfs4.c:121-134 | a new symbolic link leads where its target leads |
| Resolve.OthersResolve | src/kernel/mfs4.c:121-134 | a path that did not end at the new link resolves as before |
| Resolve.GoesOn | src/kernel/mfs4.c:121-134 | a path that did now goes on through it |
| Resolve.SucceedsIff | src/kernel/mfs4.c:121-392 | each operation succeeds exactly when the paths and the room in the table allow it |
| Resolve.MkdirNames | src/kernel/fs.c:380-402 | a new directory with a name of at most 31 characters is in the file table too, while there is room |
| Loader.CopyToFrame | src/kernel/vmm.c:108-117 | the frame's bytes with the copied ones in place; no other frame changes |
| Loader.LoadPage | src/kernel/elf_loader.c:67-87 | a frame with the page's file bytes and zeros is mapped, or skipped, or the load stops, as counted; no other address space changes |
| Loader.MissingCount | src/kernel/vmm.c:140-173 | the tables a mapping takes are those the address space lacks |
| Loader.ElfLoad | src/kernel/elf_loader.c:35-91 | the result, the free frames and what the program reads through its page tables are those of counting frames, after a refusal too; no other address space changes |
| Loader.HeadersLoad | src/kernel/elf_loader.c:49-90 | the pages loaded are those of the headers before the first that does not fit, and the load passes if and only if all fit and every page got a frame |
| Loader.LoadedIff | src/kernel/elf_loader.c:35-91 | success with every page in its place, if and only if the headers pass, no page lies in a 2MB entry and there are frames for all pages and missing tables |
| Elf.LoadedWhole | src/kernel/elf_loader.c:66-89 | the same for any list of pages, and then the program sees every page filled |
| Elf.SilentLoss | src/kernel/vmm.c:140-173 | one free frame, one page, no page table: success is reported and the page is not there |
| Elf.HugeLoss | src/kernel/vmm.c:164 | a page at 4MB is never mapped, and success is reported |
| Elf.FilledByte | src/kernel/elf_loader.c:62-89 | every address reads as the last segment loaded at its page says, or as before |
| Elf.LoadedSegment | src/kernel/elf_loader.c:49-89 | in a page that no later load replaces, file bytes inside the file part and zero elsewhere |
| Elf.ProgramByte | src/kernel/elf_loader.c:49-89 | in a program of several headers, every address of a segment that shares no page with another one reads as its file byte, or zero behind the file part |
| Elf.HeaderBytesThere | src/kernel/elf_loader.c:57-60 | the bytes of a checked segment lie inside the file |
| Formats.EhdrRead | src/kernel/elf_loader.c:6-47 | for a file header written field by field: which files are accepted, the entry point, and where the program headers are |
| Formats.PhdrRead | src/kernel/elf_loader.c:23-33 | a program header written field by field is the segment the loader sees |
| Formats.FitsIff | src/kernel/elf_loader.c:50-60 | a header passes exactly when its bytes and those of a loadable file part lie in the file, unless the sums wrap |
| Loader.LoadProgram | src/kernel/elf_loader.c:35-91 | for a program in order and with room, success, and through the page tables every such address reads so |
| Elf.SegmentCovered | src/kernel/elf_loader.c:63-64 | every address of the segment lies in a loaded page |
| WordBytes.SetByteOk | src/kernel/vmm.c:108-117 | writing one byte of a word changes that byte of the page and no other |
| WordBytes.EntryValues | src/kernel/vmm.c:178 | the entries written, with flags 7, 0x205, 3, 0x83 and 0x87, are the words with these values |
| Ext2.GetBlock | src/kernel/ext2.c:222-251 | the block map is the concatenation of direct, single and double indirect pointers |
| Formats.WrittenRead | src/kernel/ext2.c:222-251 | for an inode and tables written as the format says, the block map is exactly the pointers written, in order |
| Formats.TableRead | src/kernel/ext2.c:232-247 | a table block of pointers is read back |
| Ext2.InodeRead | src/kernel/ext2.c:256-278 | exactly the bytes of the file in the range, holes as zero, ending at the end of the range or at the first byte whose block cannot be read |
| Ext2.ReadExactly | src/kernel/ext2.c:256-278 | with readable blocks the whole requested range, if and only if offset + len does not wrap or offset is behind the file |
| Ext2.WrapExample | src/kernel/ext2.c:256-262 | ten bytes, offset 1, length 0xFFFFFFFF: nothing is read |
| Ext2.ReadPieces | src/kernel/ext2.c:256-278 | reading in pieces of any sizes and concatenating equals one read |
| Arith.Truncates | src/kernel/shell.c:507-516 | quotient and remainder truncate toward zero |
| Arith.ArithPrimary | src/kernel/shell.c:456-499 | parentheses, sign, variable or number |
| Arith.ArithTerm | src/kernel/shell.c:501-520 | the loop over products |
| Arith.ArithExpr | src/kernel/shell.c:522-532 | the loop over sums |
| ArithText.SumStops | src/kernel/shell.c:456-532 | wherever an expression stands with any spaces, its value, stopping right behind it |
| ArithText.VariableValue | src/kernel/shell.c:483-491 | a variable has the value of the number, possibly negative, in the first entry with its name |
| ArithText.NoVariable | src/kernel/shell.c:492 | a variable without an entry is zero |
| ArithText.PrintThenEvaluate | src/kernel/shell.c:456-532 | every tree, printed with the needed parentheses and any spacing, evaluates to its value |
| ArithText.EvaluatePrinted | src/kernel/shell.c:456-532 | the code returns that value and position |
| Line.StepTracks | src/kernel/graphics.c:140-142 | the two tests keep the point within half a pixel of the line |
| Line.DrawLine | src/kernel/graphics.c:129-144 | exactly max(dx, dy) + 1 pixels from end to end, inside the box, each within half a pixel of the line |

## Left out

- Drivers, port I/O, interrupts, PCI, APIC, display, window manager, network clients, shell built-ins: hardware behaviour or plumbing.
- SYS_MUNMAP, shared memory and thread-stack teardown: they free or map frames without consulting the copy-on-write counter.
- Exact conservation of frames is stated for runs without fork: with fork it fails (`Counters.LostFrame`).
- User stores into the 2MB kernel entries that every address space contains: not part of the views.
- Kernel stores into user memory: system calls write straight into user buffers (src/kernel/syscall_fs.c:100), and the boot code does not set CR0.WP (src/kernel/kernel_entry.asm:143-145), so such a store into a shared page raises no fault; the model covers user stores.
- The limits on addresses and the guard pages in demand paging (src/kernel/kernel.c:586-600): the model allows every address.
- More than 255 address spaces: the 8-bit counter covers 255, and the kernel has 32 task slots.
- Task exit, kill and slot reuse in the scheduler: `task_exit_code` always acts on the boot processor's current task.
- A second application processor: the code keeps one `current_task_ap`.
- The group law of the curve, primality of p and Fermat's theorem for the inversion: the model states the power, not that it is the inverse; `Ladder.Consecutive` and the two formulas stand for the group law.
- The AES permutation, the GHASH polynomial arithmetic and the SHA-256 compression function: the results hold for every cipher, hash and compression function.
- HMAC and HKDF.
- The TLS handshake, and `tcp_send_all`, which only cuts records into segments.
- Gcm.GcmCtr: a buffer longer than 0xFFFFFFF0 is excluded; there the 32-bit offset wraps and the loop does not end.
- Gcm.GcmEncrypt: excludes the same lengths.
- Gcm.GcmDecrypt: excludes the same lengths.
- Tls.Sender.SendEncrypted: a length of 0xFFFFFFFF, where len + 1 wraps, is excluded.
- Field25519.FeMulScalar: a multiplier of 2^18 or more is excluded; the only caller passes 121666.
- Scheduler.Kernel.TaskCreateFork: the parent is the current task, as its only caller passes (src/kernel/syscall_proc.c:102-129).
- Vmm.Machine.MapPage: a frame that is itself a page table is never mapped as a page, and a mapped frame is allocated; every caller passes a frame it has just allocated or found in a page table.
- Vmm.Machine.CopyCow: the child has no pages yet, as at its only call, right after the child was created (src/kernel/syscall_proc.c:122-126).
- The TCP send side, retransmission, keep-alive and listening sockets; a timeout appears as the event that closes the descriptor.
- The contents of heap blocks: only headers are modelled.
- Persistence of MFS3 and MFS4, `mfs4_register`, `mfs4_init`, `mfs4_listdir`: not part of the runs.
- Directories, superblock and inode lookup of ext2; triple indirect blocks, which the code does not support.
- Program headers shorter than 56 bytes: the loader reads past them, and the model takes the bytes behind the file as arbitrary.
- Arith.ArithExpr: `long` overflow, which C leaves undefined, is not modelled.
- Line.DrawLine: `int` overflow for far-apart end points is not modelled, nor clipping in `draw_pixel`.
- The shell's expansion pipeline around the evaluator.
