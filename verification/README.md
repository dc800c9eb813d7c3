# Praesidium: a verified model of the capability kernel

Praesidium is a single-address-space capability kernel written in Rust. This project models its
core in Dafny and proves what the kernel's design promises of it, over every input, every reachable
state and every history of operations:

- **Physical memory** (`Buddy*.dfy`, `Slab.dfy`): the buddy allocator with its intrusive free lists,
  and the slab cache whose free list lives in the free slots' own bytes.
- **Capabilities** (`Caps.dfy`, `CSpace*.dfy`): the capability space with its derivation forest,
  retype, mint, copy, move, grant, the splitting of CPU time, one-shot replies, and revocation; what each
  operation does field by field (`CSpaceEffects`), and what every history of them keeps.
- **Address spaces** (`Page*.dfy`, `Kernel*.dfy`, `Space*.dfy`, `ProcessSpaces.dfy`, `HardwareView.dfy`,
  `Paging.dfy`): the x86-64 page tables as walks over frames taken from the buddy allocator, the address
  space boot builds, huge-page splitting, edits of the kernel's own pages, protection domains, process
  spaces and their reclaim, and what the processor grants on a page, over whole histories.
- **Scheduling and IPC** (`Executor.dfy`, `Scheduler*.dfy`, `Ipc*.dfy`): the budgeted cooperative
  executor, the stackful round-robin scheduler, and call/reply over an endpoint under every
  interleaving.
- **Loading** (`Pex*.dfy`, `LittleEndian.dfy`, `Loader*.dfy`, `LoadedMemory.dfy`, `Syscalls.dfy`): the
  `.pex` parser and encoder, the loader, what a loaded process reads through its page tables, and what
  it can later do to its own capability space.

Objects that the kernel updates in place are classes whose methods are proved against functions on
values (`CSpaceSpec`, `BuddyPool`, `PageTables` and so on); the theorems are lemmas about those
functions. Loops in the kernel are loops here. A critical section, which the kernel runs with
preemption masked, is one step. Memory is a map from frame numbers to tables for the page tables, a
byte sequence for the slab region, and for the loader arbitrary bytes changed by a log of zeroings,
copies and mappings. Frames handed out by the allocator are parameters of the page-table operations;
`SpaceBuddy` ties them to the allocator's pool. Futures polled by the executor are an arbitrary function
of the poll's number and of whom it polls. The zeroing hook is a log of its calls.

Three properties hold only under a condition. The model keeps the code, gives a failing case and proves
the condition exact:

- `add_frames` does not join a run with free neighbours, so a pool can stop being canonical
  (`BuddyRuns.AdjacentRunsStayApart`). It stays canonical if and only if no block of the run meets a free
  buddy (`BuddyRuns.AddRunCanonicalIff`), which the run's first and last block decide
  (`BuddyRuns.OnlyEndsMeet`).
- A destroyed Sched gives its budget back with a saturating addition, so revoking and deleting can lose
  capacity (`CSpaceSystem.SaturationLosesCapacity`, `CSpaceSystem.RevokeLosesCapacity`, both histories from an
  empty space; in the second each child alone would fit). A revoke conserves it if and only if the budgets of
  the subtree together fit 32 bits (`CSpaceBudget.RevokeConservesIff`), a delete if and only if they are nothing
  or fit into the parent (`CSpaceBudget.DeleteConservesIff`), and a history if and only if that holds at each of
  its revokes and deletes (`CSpaceConserved.RunConservesIff`).
- A poll of the server can stop the kernel, and no other step can. It does so if and only if a request is in
  flight and either the server still holds a Reply or some transfer of the oldest request is not grantable,
  judged by the two spaces as they are before (`IpcProtocol.StopsExactlyWhen`). There is a run for each way
  (`IpcProtocol.ReceivingTwiceStops`, `IpcProtocol.UngrantableTransferStops`); runs of the protocol end where
  the kernel stops.

## Model

| member | source | states |
|---|---|---|
| `BuddyAllocator.Buddy.constructor` | mem/src/buddy.rs:54-65 | an allocator over the caller's descriptors, with empty lists, no block and the descriptor count cut to 32 bits |
| `BuddyAllocator.Buddy.Insert` | mem/src/buddy.rs:165-177 | pushing a block on its order's list writes exactly the descriptors and head of a doubly linked insert |
| `BuddyAllocator.Buddy.Unlink` | mem/src/buddy.rs:179-190 | taking a block off its list relinks its neighbours, and the head when it was first |
| `BuddyAllocator.Buddy.AddFrames` | mem/src/buddy.rs:82-102 | a run becomes the pool's decomposition of that run; descriptors, lists and the counter agree with the pool |
| `BuddyAllocator.Buddy.FindOrder` | mem/src/buddy.rs:111-117 | the smallest order from the requested one up that has a free block |
| `BuddyAllocator.Buddy.SplitDown` | mem/src/buddy.rs:120-125 | a block cut down order by order, every upper half released |
| `BuddyAllocator.Buddy.Alloc` | mem/src/buddy.rs:106-130 | fails if and only if the order is too large or no free block is large enough; otherwise hands out the smallest fit and moves the pool accordingly |
| `BuddyAllocator.Buddy.Free` | mem/src/buddy.rs:134-142 | an outstanding block goes back, joined with its free buddies as far as they go; the counter grows by its frames |
| `BuddyAllocator.Buddy.Coalesce` | mem/src/buddy.rs:146-163 | the joining loop reaches the pool that `Free` describes, with lists and counter in agreement |
| `BuddyPool.RunOrderFits` | mem/src/buddy.rs:90-97 | the order picked for the next block of a run is aligned, inside the run, and the largest such |
| `BuddyPool.SplitPartition` | mem/src/buddy.rs:121-125 | splitting keeps the blocks a partition of the same frames |
| `BuddyPool.MergePartition` | mem/src/buddy.rs:146-163 | joining keeps the blocks a partition of the same frames |
| `BuddyPool.SplitCounts` | mem/src/buddy.rs:121-125 | splitting adds the upper half to the free count |
| `BuddyPool.MergeCounts` | mem/src/buddy.rs:146-163 | joining takes the buddy's frames out of the free count |
| `BuddyPool.AddCounts` | mem/src/buddy.rs:82-102 | releasing a block adds its frames to the free count |
| `BuddyLists.InsertRepresents` | mem/src/buddy.rs:165-177 | after an insert the descriptors and heads still spell, for every order, exactly the pool's free blocks |
| `BuddyLists.UnlinkRepresents` | mem/src/buddy.rs:179-190 | the same after a removal from any position of a list |
| `BuddyLists.RecordRepresents` | mem/src/buddy.rs:126-127 | noting the order of a block being handed out disturbs no list |
| `BuddyCanonical.FreeBlocksAreMaximal` | mem/src/buddy.rs:146-163 | in a canonical pool the free blocks are exactly the maximal aligned blocks of the free frames |
| `BuddyCanonical.CanonicalUnique` | mem/src/buddy.rs:146-163 | the free frames determine the free blocks |
| `BuddyCanonical.AllocatableIffFreeRun` | mem/src/buddy.rs:106-130 | an allocation of order k can succeed if and only if some aligned run of 2^k frames is wholly free |
| `BuddyCanonical.AllocKeeps` | mem/src/buddy.rs:106-130 | handing out keeps the partition, the canonical form and the released frames |
| `BuddyCanonical.FreeKeeps` | mem/src/buddy.rs:134-163 | giving back keeps them too |
| `BuddyRuns.AddRunPartition` | mem/src/buddy.rs:82-102 | releasing a run keeps the partition and adds exactly the frames of the run |
| `BuddyRuns.AddRunFrees` | mem/src/buddy.rs:82-102 | the frames made free are exactly those of the run |
| `BuddyRuns.AddRunUnion` | mem/src/buddy.rs:82-102 | a run is decomposed the same way whatever the pool holds |
| `BuddyRuns.AddRunCanonicalIff` | mem/src/buddy.rs:82-102 | a release keeps the pool canonical if and only if no block of the run meets a free buddy |
| `BuddyRuns.OnlyEndsMeet` | mem/src/buddy.rs:82-102 | a block of the run meets a free buddy if and only if its first or its last block does |
| `BuddyRuns.ApartRunIsCanonical` | mem/src/buddy.rs:82-102 | a run with no free frame just below or above it keeps the pool canonical |
| `BuddyRuns.AdjacentRunsStayApart` | mem/src/buddy.rs:82-102 | two adjacent single-frame releases leave a free pair that cannot be allocated as one block |
| `BuddyRuns.RunKeeps` | mem/src/buddy.rs:82-163 | every history of releases, allocations and frees keeps partition and canonical form, and only releases add frames |
| `BuddyRuns.FreeingEverythingRestores` | mem/src/buddy.rs:106-163 | once nothing is outstanding, the blocks are exactly the blocks there were at the start |
| `SlabSpec.SlotSize` | mem/src/slab.rs:28-31 | a slot holds the object and a link and is a multiple of the alignment |
| `SlabSpec.Capacity` | mem/src/slab.rs:32 | as many whole slots as the region holds, and no more would fit |
| `SlabSpec.OffsetsAligned` | mem/src/slab.rs:28-31 | every slot offset has the alignment, a power of two, that was asked for |
| `SlabSpec.LinkRoundTrip` | mem/src/slab.rs:98-106 | a link read back is the link written |
| `SlabSpec.InitGood` | mem/src/slab.rs:61-72 | after `init` the links spell every slot, lowest first, and no slot is live |
| `SlabSpec.TakeGood` | mem/src/slab.rs:75-83 | a slot is handed out if and only if some slot is not live; it is the front of the list and the rest of the list stays |
| `SlabSpec.GiveGood` | mem/src/slab.rs:86-91 | a live slot given back is the new front and is no longer live |
| `SlabSpec.PokeGood` | mem/src/slab.rs:1-9 | a client that overwrites bytes of a slot it holds disturbs neither list nor count |
| `SlabSpec.EveryRunIsSafe` | mem/src/slab.rs:61-91 | from `init`, after any run: no access leaves the region, the list visits each slot that is not live once, the count is its length, and `alloc` succeeds if and only if fewer than `capacity` slots are live, with an aligned, in-range slot that is not live |
| `SlabObject.SlabCache.constructor` | mem/src/slab.rs:28-39 | a cache with the slot size and capacity of its arguments and an empty list |
| `SlabObject.SlabCache.Push` | mem/src/slab.rs:86-91 | writes the link of a slot and makes it the head |
| `SlabObject.SlabCache.Init` | mem/src/slab.rs:61-72 | the reverse threading loop writes the links the model describes |
| `SlabObject.SlabCache.Alloc` | mem/src/slab.rs:75-83 | pops the front of the list without writing the region |
| `SlabObject.SlabCache.Free` | mem/src/slab.rs:86-91 | writes the link of a live slot and pushes it |
| `CSpaceForest.WalkDecidesDescent` | cap-core/src/cspace.rs:622-635 | the bounded parent walk finds exactly the transitive derivations |
| `CSpaceForest.DescentIsStrict` | cap-core/src/cspace.rs:622-635 | nothing descends from itself |
| `CSpaceForest.LeafBelow` | cap-core/src/cspace.rs:528-544 | below every node with descendants there is a leaf to destroy |
| `CSpaceForest.NoLeafNoDescendants` | cap-core/src/cspace.rs:528-544 | when the revoke loop finds no leaf, nothing derived is left |
| `CSpaceForest.MoveForest` | cap-core/src/cspace.rs:405-424 | moving a capability with its children keeps the derivation forest |
| `CSpaceEffects.RetypeLands` | cap-core/src/cspace.rs:279-339 | a retype goes through if and only if the Untyped has the right and that much left, the type is retypeable and the slots are vacant; it then places the objects in order over the next frames with the rights their type starts with, charges the Untyped, zeroes each once and changes nothing else; otherwise its error says which check failed first |
| `CSpaceEffects.MintLands` | cap-core/src/cspace.rs:343-381 | a mint goes through if and only if the source is live, of a duplicable type, with DERIVE and the rights asked for, and the slot is vacant; it then places the source's object with exactly those rights and that badge as its child and changes nothing else |
| `CSpaceEffects.CopyLands` | cap-core/src/cspace.rs:385-401 | a copy places the source's capability as it is, as its sibling or the child of a root, under the exact condition |
| `CSpaceEffects.MoveLands` | cap-core/src/cspace.rs:405-424 | a move takes capability, parent and children to the vacant slot, empties the source and changes nothing else |
| `CSpaceEffects.SplitLands` | cap-core/src/cspace.rs:433-458 | a split goes through if and only if that much is unspent and the slot is vacant; the child is a new, unspent Sched of that capacity with the source's rights and period |
| `CSpaceEffects.DelegateLands` | cap-core/src/cspace.rs:464-484 | a delegation moves exactly the amount between two Scheds, under the exact condition, and changes nothing else |
| `CSpaceEffects.MintReplyLands` | cap-core/src/cspace.rs:494-508 | a Reply without rights, naming the caller, is placed in a vacant slot |
| `CSpaceEffects.ConsumeReplyOnce` | cap-core/src/cspace.rs:513-521 | a Reply names its caller once: the slot is empty afterwards and a second use fails |
| `CSpaceEffects.GrantLands` | cap-core/src/cspace.rs:665-716 | a grant goes through if and only if it is permitted and the slot is vacant; the receiver holds the object with exactly the rights and badge given, a moved one is gone from the giver, and nothing else changes |
| `CSpaceEffects.RevokeExactly` | cap-core/src/cspace.rs:528-544 | revoke, slot by slot: everything derived is gone, an Untyped has watermark 0 again, a Sched holds what its subtree held, every other slot is as it was |
| `CSpaceEffects.RevokedUntypedIsWhole` | cap-core/src/cspace.rs:528-544 | after revoking an Untyped any retype that its whole size can hold goes through, from its first frame on |
| `CSpaceEffects.DeleteExactly` | cap-core/src/cspace.rs:547-593 | delete, slot by slot: the subtree is gone, a Sched's parent has what it held up to 32 bits, every other slot is as it was |
| `CSpaceEffects.RootsAre` | cap-core/src/cspace.rs:79-122 | the two root capabilities of boot, field by field |
| `CSpaceInvariant.RetypeGood` | cap-core/src/cspace.rs:279-339 | retype keeps the invariant: forest, monotone edges, disjoint siblings, watermarks within size |
| `CSpaceInvariant.MintGood` | cap-core/src/cspace.rs:343-381 | mint keeps the invariant |
| `CSpaceInvariant.CopyGood` | cap-core/src/cspace.rs:385-401 | copy keeps it |
| `CSpaceInvariant.MoveOpGood` | cap-core/src/cspace.rs:405-424 | move keeps it |
| `CSpaceInvariant.SplitGood` | cap-core/src/cspace.rs:433-458 | split keeps it |
| `CSpaceInvariant.DelegateGood` | cap-core/src/cspace.rs:464-484 | delegate keeps it |
| `CSpaceInvariant.MintReplyGood` | cap-core/src/cspace.rs:494-508 | minting a Reply keeps it |
| `CSpaceInvariant.ConsumeReplyGood` | cap-core/src/cspace.rs:513-521 | consuming a Reply keeps it |
| `CSpaceInvariant.DestroyGood` | cap-core/src/cspace.rs:576-620 | destroying a leaf keeps it |
| `CSpaceInvariant.RevokeLoopGood` | cap-core/src/cspace.rs:528-544 | the whole revoke loop keeps it |
| `CSpaceRevoke.DestroyKeeps` | cap-core/src/cspace.rs:576-620 | destroying empties one slot; every other keeps its type, rights, object and parent |
| `CSpaceRevoke.RevokeEmptiesDescendants` | cap-core/src/cspace.rs:528-544 | revocation empties exactly the proper descendants and keeps every other slot |
| `CSpaceRevoke.RevokeGood` | cap-core/src/cspace.rs:528-544 | after revoke the space is good and the capability has no children |
| `CSpaceRevoke.RevokedStaysLive` | cap-core/src/cspace.rs:528-544 | the revoked capability itself stays |
| `CSpaceRevoke.DeleteGood` | cap-core/src/cspace.rs:547-551 | delete keeps the invariant |
| `CSpaceRevoke.DestroyZeroes` | cap-core/src/cspace.rs:596-620 | the zero hook is called once for an object whose last capability just went, and not otherwise |
| `CSpaceRevoke.RevokeZeroesOnce` | cap-core/src/cspace.rs:528-544 | revoke calls the hook exactly once for each zeroable object whose last capability it removed, and for no other |
| `CSpaceRevoke.DeleteZeroesOnce` | cap-core/src/cspace.rs:547-551 | the same for delete, the deleted capability included |
| `CSpaceRevoke.RevokeCallsAreForVanished` | cap-core/src/cspace.rs:528-544 | every call is for an object of a former descendant that no capability names any more; Sched, Reply, Domain and SharedRo are never zeroed |
| `CSpaceRevoke.DeleteCallsAreForVanished` | cap-core/src/cspace.rs:547-551 | every call delete makes is for an object of the deleted capability or of one derived from it, and no capability names that object any more |
| `CSpaceFrames.NamesRetypedObject` | cap-core/src/cspace.rs:279-424 | a descendant of an Untyped names the same object as one of the Untyped's own children |
| `CSpaceFrames.DescendantInsideUntyped` | cap-core/src/cspace.rs:279-339 | every live descendant of an Untyped lies below its watermark, which lies within its size |
| `CSpaceFrames.DescendantsSameOrApart` | cap-core/src/cspace.rs:279-424 | two descendants of an Untyped name the same object or share no frame |
| `CSpaceFrames.RevokeSparesSurvivors` | cap-core/src/cspace.rs:528-620 | revoking inside an Untyped never zeroes a frame that a surviving descendant names |
| `CSpaceFrames.DeleteSparesSurvivors` | cap-core/src/cspace.rs:547-620 | neither does deleting, the call for the deleted capability itself included |
| `CSpaceBudget.SplitTotal` | cap-core/src/cspace.rs:433-458 | split moves exactly the amount from parent to child and conserves the total |
| `CSpaceBudget.DelegateTotal` | cap-core/src/cspace.rs:464-484 | delegate conserves the total |
| `CSpaceBudget.DestroyTotal` | cap-core/src/cspace.rs:576-593 | destroying never adds capacity; while the total fits 32 bits it loses capacity only for a Sched root |
| `CSpaceBudget.DestroyConservesIff` | cap-core/src/cspace.rs:576-593 | destroying one slot conserves capacity if and only if it holds none or its parent has room for it in 32 bits |
| `CSpaceBudget.RevokeTotal` | cap-core/src/cspace.rs:528-544 | revoke never adds capacity and, while the total fits 32 bits, conserves it |
| `CSpaceBudget.RevokeKeepsOthers` | cap-core/src/cspace.rs:528-544 | outside the revoked subtree no slot changes at all |
| `CSpaceBudget.RevokeGathersSubtree` | cap-core/src/cspace.rs:528-593 | after revoke a Sched holds the sum of what its former subtree held, up to 32 bits |
| `CSpaceBudget.RevokeConservesIff` | cap-core/src/cspace.rs:528-593 | revoke conserves capacity if and only if the subtree's budgets together fit 32 bits |
| `CSpaceBudget.DeleteConservesIff` | cap-core/src/cspace.rs:547-593 | delete conserves capacity if and only if the subtree holds none or the parent of its top has room in 32 bits for all of it |
| `CSpaceSystem.PerformGood` | cap-core/src/cspace.rs:279-551 | every local operation, failing or not, keeps the invariant |
| `CSpaceSystem.GrantGood` | cap-core/src/cspace.rs:665-716 | a grant keeps the invariant of both spaces |
| `CSpaceSystem.RunGood` | cap-core/src/cspace.rs:279-716 | every history over any number of spaces keeps the invariant of all |
| `CSpaceSystem.GrantTotal` | cap-core/src/cspace.rs:665-716 | a grant moves Sched capacity between spaces and never copies it |
| `CSpaceSystem.CapacityConserved` | cap-core/src/cspace.rs:433-716 | after boot total capacity over all spaces never grows; while it fits 32 bits it is conserved by every history that drops no Sched root |
| `CSpaceSystem.SaturationLosesCapacity` | cap-core/src/cspace.rs:576-593 | a history from an empty space after which deleting a Sched that is no root loses the unit it held |
| `CSpaceSystem.RevokeLosesCapacity` | cap-core/src/cspace.rs:528-593 | a history from an empty space after which a Sched has room for each of its children and revoking it still loses capacity |
| `CSpaceConserved.StepFits` | cap-core/src/cspace.rs:433-716 | every event keeps the budgets of all spaces within 32 bits |
| `CSpaceConserved.RunConservesIff` | cap-core/src/cspace.rs:433-716 | after boot a history over any number of spaces conserves total capacity if and only if every revoke and delete in it has room for what its subtree holds |
| `CSpaceSystem.RightsNeverWiden` | cap-core/src/cspace.rs:321-716 | across any history over any number of spaces no capability of a type to a set of objects, of whatever type, exceeds a bound that it met at the start, that no boot event exceeds and that admits what a retype of the type gives |
| `CSpaceSystem.RetypedFramesNeverExecutable` | cap-core/src/cspace.rs:739-750 | a Frame that was only ever retyped never becomes executable |
| `CSpaceObject.CSpace.constructor` | cap-core/src/cspace.rs:68-74 | an empty, good space |
| `CSpaceObject.CSpace.SetRootUntyped` | cap-core/src/cspace.rs:79-95 | installs the root Untyped in slot 0 |
| `CSpaceObject.CSpace.SetRootSched` | cap-core/src/cspace.rs:106-122 | installs a root Sched with a new object number |
| `CSpaceObject.CSpace.Lookup` | cap-core/src/cspace.rs:245-253 | resolves a slot: out of bounds, empty, or its capability |
| `CSpaceObject.CSpace.PlaceAt` | cap-core/src/cspace.rs:565-574 | fills an empty slot, or fails and changes nothing |
| `CSpaceObject.CSpace.Retype` | cap-core/src/cspace.rs:279-339 | agrees with the specification on result, slots and zeroing calls, and keeps the invariant |
| `CSpaceObject.CSpace.Mint` | cap-core/src/cspace.rs:343-381 | agrees with the specification and keeps the invariant |
| `CSpaceObject.CSpace.Copy` | cap-core/src/cspace.rs:385-401 | likewise |
| `CSpaceObject.CSpace.MoveCap` | cap-core/src/cspace.rs:405-424 | likewise, with the loop that reparents the children |
| `CSpaceObject.CSpace.Split` | cap-core/src/cspace.rs:433-458 | likewise |
| `CSpaceObject.CSpace.DelegateTo` | cap-core/src/cspace.rs:464-484 | likewise |
| `CSpaceObject.CSpace.MintReply` | cap-core/src/cspace.rs:494-508 | likewise |
| `CSpaceObject.CSpace.ConsumeReply` | cap-core/src/cspace.rs:513-521 | returns the caller the Reply names and empties the slot, or fails and changes nothing |
| `CSpaceObject.CSpace.DestroySlot` | cap-core/src/cspace.rs:576-620 | destroys one slot as specified, with the scan for other capabilities to the object |
| `CSpaceObject.CSpace.Walk` | cap-core/src/cspace.rs:622-635 | the walk loop decides descent |
| `CSpaceObject.CSpace.AnyChild` | cap-core/src/cspace.rs:637-639 | the scan decides whether a slot has children |
| `CSpaceObject.CSpace.FindLeaf` | cap-core/src/cspace.rs:531-538 | the first leaf that revocation must destroy, if any |
| `CSpaceObject.CSpace.Revoke` | cap-core/src/cspace.rs:528-544 | the loop ends, agrees with the specification and keeps the invariant |
| `CSpaceObject.CSpace.Delete` | cap-core/src/cspace.rs:547-551 | agrees with the specification and keeps the invariant |
| `CSpaceObject.GrantTo` | cap-core/src/cspace.rs:665-716 | agrees with the specification on both spaces, or fails and changes neither |
| `PageTables.EnsurePtTyped` | kernel/src/arch/x86_64/paging.rs:386-409 | after a split every table is still reached at one level |
| `PageTables.SplitKeepsMeaning` | kernel/src/arch/x86_64/paging.rs:386-409 | splitting a 2 MiB page keeps translation and protection of every address from every root |
| `PageEdits.LeafWriteIsLocal` | kernel/src/arch/x86_64/paging.rs:420-425 | a leaf write is seen only by walks that end at that entry |
| `PageEdits.EditChangesOnePage` | kernel/src/arch/x86_64/paging.rs:374-425 | `map_page` and `install_guard_page` change exactly one 4 KiB page, split or not, wherever no table is shared |
| `PageEdits.EditTyped` | kernel/src/arch/x86_64/paging.rs:374-425 | after an edit every table is still reached at one level |
| `PageEdits.EditKeepsUnshared` | kernel/src/arch/x86_64/paging.rs:374-425 | after an edit still no table is shared between two paths, so the next edit changes one page too |
| `PageEdits.OldRootsUnchanged` | kernel/src/arch/x86_64/paging.rs:529-577 | tables that are only added change no existing walk |
| `PageEdits.DomainHidesPage` | kernel/src/arch/x86_64/paging.rs:529-577 | from the new root the victim page is unmapped, every other address translates as before, and every old root is untouched |
| `PageBoot.LowIsLinear` | kernel/src/arch/x86_64/paging.rs:73-84 | low memory is mapped linearly, writable, not executable and not for user mode, and nothing beyond it |
| `PageBoot.LowIsLocal` | kernel/src/arch/x86_64/paging.rs:73-84 | mapping low memory touches nothing reached through other root entries |
| `KernelImage.KernelLeaf` | kernel/src/arch/x86_64/paging.rs:63-69 | no kernel leaf is both writable and executable |
| `KernelImage.ImageIsMapped` | kernel/src/arch/x86_64/paging.rs:87-111 | each page of the kernel image is mapped where it was loaded and not for user mode, executable in the text section, else writable in the data section, else neither; the rest of its 2 MiB is unmapped |
| `KernelImage.ImageAlone` | kernel/src/arch/x86_64/paging.rs:87-101 | nothing else below the image's root entry is mapped |
| `KernelImage.ImageIsLocal` | kernel/src/arch/x86_64/paging.rs:87-101 | mapping the image touches nothing reached through other root entries |
| `KernelImage.BootEstablishes` | kernel/src/arch/x86_64/paging.rs:116-126 | boot takes exactly its frames for tables and leaves a system in order, from which every history below starts |
| `KernelImage.BootLow` | kernel/src/arch/x86_64/paging.rs:116-126 | after boot low memory is mapped linearly at the bottom and at the higher half, and nothing else outside the image's root entry |
| `KernelImage.BootWriteXorExecute` | kernel/src/arch/x86_64/paging.rs:116-126 | after boot no address is both writable and executable and none is open to user mode |
| `KernelEdits.KernelEditKeeps` | kernel/src/arch/x86_64/paging.rs:374-425 | an edit of a kernel page, split or not, keeps the kernel base and every process space in order |
| `KernelEdits.KernelEditSets` | kernel/src/arch/x86_64/paging.rs:374-425 | at the edited page the kernel base, and every process outside its window, sees the new leaf |
| `KernelEdits.KernelEditView` | kernel/src/arch/x86_64/paging.rs:374-425 | at every other page, and anywhere in a process's window, no space sees a change of translation, protection or user reach |
| `KernelEdits.KernelEditUnshared` | kernel/src/arch/x86_64/paging.rs:374-425 | the kernel base still shares no table between two paths |
| `KernelEdits.EditThroughProcess` | kernel/src/arch/x86_64/paging.rs:374-425 | outside its window an edit through a process's own root writes the same tables as through the kernel base |
| `ProcessSpaces.SpaceClosed` | kernel/src/arch/x86_64/paging.rs:147-182 | a process's walks read its own tables and the kernel's and nothing else |
| `ProcessSpaces.UserPagesAreThePlacedOnes` | kernel/src/arch/x86_64/paging.rs:438-499 | a process reaches a page in user mode if and only if it was placed for it inside its window, and reads it as placed |
| `ProcessSpaces.OutsideWindowIsKernel` | kernel/src/arch/x86_64/paging.rs:147-182 | outside the window a process and the kernel base translate alike |
| `ProcessSpaces.UntouchedWalks` | kernel/src/arch/x86_64/paging.rs:306-346 | a space whose tables are untouched keeps every translation |
| `SpaceMap.UserLeaf` | kernel/src/arch/x86_64/paging.rs:490-499 | no user leaf is both writable and executable |
| `SpaceMap.MapUserKeeps` | kernel/src/arch/x86_64/paging.rs:438-499 | mapping a user page keeps every space in order |
| `SpaceMap.MapUserIsolated` | kernel/src/arch/x86_64/paging.rs:438-499 | no other process and not the kernel sees any translation change |
| `SpaceProtection.MapUserChangesOnePage` | kernel/src/arch/x86_64/paging.rs:438-499 | in its own space mapping a user page gives that page the leaf and leaves the translation and protection of every other address, also in a 2 MiB page it splits |
| `SpaceCreate.CreateKeeps` | kernel/src/arch/x86_64/paging.rs:147-182 | a new process space, with its private clones, joins the world in order |
| `SpaceProtection.NewSpaceIsKernel` | kernel/src/arch/x86_64/paging.rs:147-182 | a new space translates every address as the kernel base does, with the same protection |
| `SpaceRuns.ReapFreesOwned` | kernel/src/arch/x86_64/paging.rs:200-231 | the tables freed are exactly those allocated for the process, each once |
| `SpaceRuns.ReapFreesEachOnce` | kernel/src/arch/x86_64/paging.rs:200-231 | reaping frees every table and every listed leaf and no frame twice |
| `SpaceRuns.ReapKeeps` | kernel/src/arch/x86_64/paging.rs:200-231 | the surviving spaces stay in order |
| `SpaceRuns.ReapSparesSurvivors` | kernel/src/arch/x86_64/paging.rs:200-231 | every surviving translation is as before |
| `SpaceRuns.RunKeeps` | kernel/src/arch/x86_64/paging.rs:147-425 | any history of spawns, user maps, kernel page edits and reaps keeps order and conserves frames: each is in the allocator or in one table, never both, and only the leaves listed at a reap join them |
| `SpaceRuns.RunIsolated` | kernel/src/arch/x86_64/paging.rs:147-499 | over any history, whatever is done in other spaces and at other kernel pages leaves translation, protection and user reach of an address as they were, in a space and in the kernel base |
| `SpaceRuns.UserPagesAreTheLatest` | kernel/src/arch/x86_64/paging.rs:438-499 | after any history from any system in order, the pages a process reaches in user mode are exactly the latest ones placed in that process, then or before |
| `SpaceProtection.RunWx` | kernel/src/arch/x86_64/paging.rs:63-69 | over any history whose leaves come from a protection, no page of any space is ever both writable and executable |
| `SpaceProtection.BootedRunWx` | kernel/src/arch/x86_64/paging.rs:63-126 | in particular from boot on |
| `HardwareView.RunOpen` | kernel/src/arch/x86_64/paging.rs:73-499 | over any history no entry that leads to a table withholds writing or executing |
| `HardwareView.BootedRunGrants` | kernel/src/arch/x86_64/paging.rs:340-346 | from boot on, in every space and at every address, what the processor grants by all levels of the path is what `page_prot` reads off the leaf |
| `SpaceBuddy.ReapReturns` | kernel/src/arch/x86_64/paging.rs:200-231 | a reaped process's tables and listed leaves can all be released to the buddy allocator, each exactly once, and exactly they become free |
| `SpaceBuddy.ActKeeps` | kernel/src/memory/mod.rs:65-94 | an event of the page tables, or an allocation or release elsewhere in the kernel, keeps the frames the tables can take the allocator's free ones and every table a frame it handed out |
| `SpaceBuddy.BootBacked` | kernel/src/arch/x86_64/paging.rs:116-126 | so it is after boot |
| `SpaceBuddy.RunBacked` | kernel/src/memory/mod.rs:65-94 | so it is over any history |
| `SpaceBuddy.ProcessLifeRestores` | kernel/src/memory/mod.rs:95-104 | a process that is made, given pages and frames, and reaped with those frames listed leaves the allocator's free blocks and their number exactly as they were |
| `PagingObject.Paging.BuildAddressSpace` | kernel/src/arch/x86_64/paging.rs:116-126 | builds the boot tables over the frames taken in turn |
| `PagingObject.Gibs` | kernel/src/arch/x86_64/paging.rs:73-84 | the fewest GiB that hold the memory |
| `PagingObject.Paging.MapKernelAt` | kernel/src/arch/x86_64/paging.rs:87-101 | the image loop and the three table writes build the tables the model describes |
| `PagingObject.Paging.MapLowAt` | kernel/src/arch/x86_64/paging.rs:73-84 | the nested loops build the tables the model describes |
| `PagingObject.Paging.EnsureLeaf` | kernel/src/arch/x86_64/paging.rs:386-409 | finds or splits off the leaf table, taking a frame only for a split |
| `PagingObject.Paging.SetPage` | kernel/src/arch/x86_64/paging.rs:374-425 | writes one page as the model describes, taking a frame only for a split |
| `PagingObject.Paging.DomainWithout` | kernel/src/arch/x86_64/paging.rs:529-577 | builds the excluding domain from exactly the next four frames |
| `PagingObject.Paging.MapUserAt` | kernel/src/arch/x86_64/paging.rs:438-499 | maps a user page as the model describes |
| `PagingObject.Paging.NewSpaceAt` | kernel/src/arch/x86_64/paging.rs:147-182 | builds the space with its clones, using exactly the frames needed |
| `PagingObject.Paging.ReapAt` | kernel/src/arch/x86_64/paging.rs:200-231 | frees leaves, leaf tables and clones in order, reports how many, and leaves allocator and tables in order: no frame is free twice or both free and a table |
| `CooperativeExecutor.TurnDecreases` | sched/src/executor.rs:52-77 | each turn uses up budget or shortens the queue |
| `CooperativeExecutor.RunUntilIdle` | sched/src/executor.rs:52-77 | a run ends with an empty queue whatever the futures do |
| `CooperativeExecutor.CompletesExactly` | sched/src/executor.rs:52-77 | a run leaves exactly the tasks that were there and that none of its polls completed, and polls no task after the poll that completed it |
| `CooperativeExecutor.LeavesByCompleting` | sched/src/executor.rs:42-90 | over any history a task leaves exactly by a completing poll and is never polled after it |
| `CooperativeExecutor.ServedInOrder` | sched/src/executor.rs:52-77 | the queue is first come, first served, and what a poll wakes goes behind those waiting |
| `CooperativeExecutor.PollsWithinBudget` | sched/src/executor.rs:52-77 | between replenishments a task is polled at most as often as its remaining budget, and a survivor has paid exactly for its polls |
| `CooperativeExecutor.IdleServesWakes` | sched/src/executor.rs:52-77 | at idle every pending wake of a live task has led to a poll or left it parked |
| `CooperativeExecutor.WakesDuringRunServed` | sched/src/waker.rs:31-58 | a wake issued by a poll during the run is not lost either |
| `CooperativeExecutor.IdleParked` | sched/src/executor.rs:114-118 | the parked list has no duplicates and only live, depleted tasks |
| `CooperativeExecutor.ReplenishReadmits` | sched/src/executor.rs:81-90 | a new period sets what every task has spent to nothing, keeps capacities and periods, and re-admits every parked task |
| `Caps.ChargesAddUp` | cap-core/src/sched.rs:57-77 | charges of any sizes add up and never wrap: what is left is the capacity less all of them, the allotment is depleted exactly when they reach it, and a new period restores it |
| `CooperativeExecutor.WokenIsServed` | sched/src/executor.rs:42-77 | a task woken or spawned before a run is polled in it, unless it is gone by the end or waits, its budget spent, for the next period |
| `CooperativeExecutor.PollsPerPeriod` | sched/src/executor.rs:52-90 | over one period, with any number of runs, wakes and spawns in it, a task is polled at most as often as its capacity |
| `CooperativeExecutor.PeriodAccounts` | sched/src/executor.rs:42-77 | over any runs, wakes and spawns between replenishments polls come out of the remaining budget, exactly so for a task that survives |
| `CooperativeExecutor.PollsOverHistory` | sched/src/executor.rs:42-90 | over any history a task is polled at most its remaining budget and its capacity once per new period |
| `CooperativeExecutor.Executor.Spawn` | sched/src/executor.rs:42-47 | admits and queues a task |
| `CooperativeExecutor.Executor.Wake` | sched/src/waker.rs:31-58 | queues the woken id |
| `CooperativeExecutor.Executor.RunToIdle` | sched/src/executor.rs:52-77 | the run loop reaches the state the model describes |
| `CooperativeExecutor.Executor.NewPeriod` | sched/src/executor.rs:81-90 | the replenish loops do what the model describes |
| `SchedulerSpec.PicksNearest` | kernel/src/sched/scheduler.rs:107-117 | what is picked is runnable with budget left and none eligible stands nearer ahead in cyclic order; none is picked if and only if none is eligible |
| `SchedulerSpec.SwitchBringsNearer` | kernel/src/sched/scheduler.rs:249-283 | a switch reaches an eligible task or brings it nearer |
| `SchedulerSpec.LastDead` | kernel/src/sched/scheduler.rs:367-371 | the most recently spawned finished task of the process, if any |
| `SchedulerSpec.ExitFinishes` | kernel/src/sched/scheduler.rs:317-353 | exiting finishes the running task, which keeps all else, and hands the CPU to another runnable task if there is an eligible one |
| `SchedulerSpec.TickSpendsOne` | kernel/src/sched/scheduler.rs:395-402 | a tick spends one unit of the running task's budget, if it has any left, and changes nothing else |
| `SchedulerSpec.ReapTakesStack` | kernel/src/sched/scheduler.rs:366-391 | reaping takes the stack of one finished task of the process, if there is one, and changes nothing else |
| `SchedulerRuns.SpawnJoins` | kernel/src/sched/scheduler.rs:195-240 | a spawned task joins last, in the process and space given, with its block and budget, and can run as long as the budget is not spent |
| `SchedulerRuns.EveryRunReclaimsOnce` | kernel/src/sched/scheduler.rs:195-391 | from boot, in every run: no task's stack is freed twice, only reaped tasks' stacks are freed, the running task is never a reaped one, and no two tasks hold one block |
| `SchedulerRuns.StackHeldOrFreed` | kernel/src/sched/scheduler.rs:366-391 | a spawned stack is held by its task if and only if it has not been freed |
| `SchedulerRuns.FinishedNeverRuns` | kernel/src/sched/scheduler.rs:317-353 | a finished task that has been switched away from never runs again |
| `SchedulerRuns.WaitIsBounded` | kernel/src/sched/scheduler.rs:107-117 | with no spawn, a task that stays eligible runs after at most as many switches as it stands tasks ahead, hence at most the number of tasks |
| `SchedulerObject.Scheduler.constructor` | kernel/src/sched/scheduler.rs:155-171 | the bootstrap task alone, current and always within budget |
| `SchedulerObject.Scheduler.SpawnTask` | kernel/src/sched/scheduler.rs:195-232 | adds a runnable task that holds its stack block behind the others |
| `SchedulerObject.Scheduler.Pick` | kernel/src/sched/scheduler.rs:107-117 | the scan loop returns the cyclically nearest eligible task |
| `SchedulerObject.Scheduler.Schedule` | kernel/src/sched/scheduler.rs:249-283 | hands over to that task, if it is another one |
| `SchedulerObject.Scheduler.ExitCurrent` | kernel/src/sched/scheduler.rs:317-353 | marks the current task finished and hands over |
| `SchedulerObject.Scheduler.OnTick` | kernel/src/sched/scheduler.rs:395-402 | charges the current task and asks for preemption if and only if another task is eligible |
| `SchedulerObject.Scheduler.ReapFinished` | kernel/src/sched/scheduler.rs:366-391 | the backward scan reaps the last dead task of the process and returns its block and space |
| `IpcObject.EndpointState.constructor` | ipc/src/endpoint.rs:47-51 | an idle endpoint |
| `IpcObject.EndpointState.Send` | ipc/src/endpoint.rs:55-62 | delivers to the first waiting receiver or queues; senders and receivers never wait together |
| `IpcObject.EndpointState.Recv` | ipc/src/endpoint.rs:66-76 | takes the oldest waiting request or queues |
| `IpcObject.EndpointState.Cancel` | ipc/src/endpoint.rs:82-87 | removes every wait of the party and says whether there was one |
| `IpcSpec.EndpointIsFifo` | ipc/src/endpoint.rs:55-76 | a message goes to the receiver waiting longest, a receive takes the message waiting longest, and whoever waits goes last |
| `IpcSpec.CancelForgets` | ipc/src/endpoint.rs:82-87 | a cancelled party waits on neither side, every other wait stays, and something changed if and only if it was waiting |
| `IpcSpec.CancelKeepsOrder` | ipc/src/endpoint.rs:82-87 | cancelling keeps the order of the waits it leaves |
| `IpcObject.IpcWorld.GrantAll` | kernel/src/ipc/mod.rs:101-117 | the transfer loop grants in order, stopping at the first error |
| `IpcObject.IpcWorld.OnRequest` | kernel/src/ipc/mod.rs:96-119 | stamps the caller, mints its Reply and grants its transfers |
| `IpcObject.IpcWorld.DoReply` | kernel/src/ipc/mod.rs:124-138 | consumes the Reply, delivers the response and wakes the caller, or reports that there was none |
| `IpcObject.IpcWorld.PollCall` | kernel/src/ipc/mod.rs:170-197 | one poll of a call |
| `IpcObject.IpcWorld.PollRecv` | kernel/src/ipc/mod.rs:214-229 | one poll of a receive |
| `IpcProtocol.RequestMintsReply` | kernel/src/ipc/mod.rs:96-119 | the message received has the selector, data and transfers sent and the sender for a badge; the reply slot was empty and holds a Reply naming the sender |
| `IpcProtocol.RequestLands` | kernel/src/ipc/mod.rs:96-119 | a taken request in full: the Reply, each transferred capability with exactly the rights asked for and the caller's badge, the client without what it moved, nothing else changed |
| `IpcProtocol.ReplyConsumes` | kernel/src/ipc/mod.rs:124-138 | a reply is sent if and only if the slot holds a Reply, to the caller it names, and empties the slot |
| `IpcProtocol.GrantFromDecided` | kernel/src/ipc/mod.rs:101-117 | the transfer loop succeeds if and only if each transfer names a live capability not moved before, of a grantable type, with GRANT and the rights asked for, for a move with every child moved before, and its server slot is in range and free |
| `IpcProtocol.RequestRuns` | kernel/src/ipc/mod.rs:96-119 | a request is taken if and only if the server holds no Reply and every transfer is grantable |
| `IpcProtocol.StopsExactlyWhen` | kernel/src/ipc/mod.rs:96-119 | a step stops the kernel if and only if it is the server's poll, a request is in flight, and a Reply is still held or some transfer of the oldest request is not grantable |
| `IpcProtocol.UngrantableTransferStops` | kernel/src/ipc/mod.rs:101-117 | a run that stops because a message transfers an empty slot |
| `IpcProtocol.ReceivingTwiceStops` | kernel/src/ipc/mod.rs:98-100 | a run that stops because the server receives again before it has replied |
| `IpcProtocol.FirstPoll` | kernel/src/ipc/mod.rs:172-188 | the first poll of a call adds its request behind those in flight and wakes a waiting server |
| `IpcProtocol.ServerPoll` | kernel/src/ipc/mod.rs:214-229 | a poll of the receive takes the oldest request in flight or, if there is none, waits |
| `IpcProtocol.StepKeeps` | kernel/src/ipc/mod.rs:96-229 | every step keeps the protocol invariant |
| `IpcProtocol.EveryRunIsGood` | kernel/src/ipc/mod.rs:96-229 | every interleaving of any number of clients, spurious polls included, keeps it |
| `IpcProtocol.ReturnsOwnReply` | kernel/src/ipc/mod.rs:96-229 | whenever a call returns, it returns the response of the one reply sent on the Reply minted for that call's own message, received with the same selector, data and transfers and the caller's badge; its client's last three events are that send, receipt and reply |
| `IpcProtocol.ReceivedInOrder` | ipc/src/endpoint.rs:55-76 | requests are received in the order they were sent, none twice |
| `IpcProtocol.NoLostWake` | kernel/src/ipc/mod.rs:124-229 | a party with a request or response to collect is on the run queue, and a blocked party with nothing to collect has its waker registered |
| `LittleEndian.LeRoundTrip` | abi/src/pex.rs:96-109 | a number read back from its little-endian bytes is that number |
| `LittleEndian.LeOfValue` | abi/src/pex.rs:96-109 | bytes are the little-endian form of the number they spell |
| `LittleEndian.LeDigit` | abi/src/pex.rs:96-109 | the lowest byte comes first: byte i is the digit of weight 256 to the i |
| `Pex.CheckSegmentIff` | abi/src/pex.rs:229-250 | the per-segment checks pass if and only if the segment can be mapped |
| `Pex.ParseIffWellFormed` | abi/src/pex.rs:170-265 | the parser accepts if and only if the header is acceptable, every segment can be mapped and one executable segment holds the entry |
| `Pex.AcceptedImageIsSafe` | abi/src/pex.rs:285-348 | every accessor of an accepted image stays in bounds, no segment's permission byte has both the write and the execute bit, and the entry lies in a segment with the execute bit |
| `Pex.ParseImage` | abi/src/pex.rs:170-265 | the validation loops compute the parser |
| `PexFormat.ReadsField` | abi/src/pex.rs:96-109 | reading n bytes gives v if and only if the bytes there are the n-byte form of v |
| `PexFormat.ParserAcceptsImages` | abi/src/pex.rs:170-265 | parsing gives an image with header values h if and only if the bytes satisfy the declarative format with h |
| `PexFormat.ManifestReads` | abi/src/pex.rs:310-321 | a manifest entry is read from its record exactly as the format lays it out |
| `PexFormat.HeaderRefused` | abi/src/pex.rs:170-228 | a refused header is refused for the first thing that is wrong with it |
| `PexFormat.SegmentRefused` | abi/src/pex.rs:229-250 | so is a refused segment |
| `PexFormat.ImageRefused` | abi/src/pex.rs:229-265 | an image with a good header is refused for its first bad segment or, if there is none, because no executable segment holds the entry |
| `PexLayout.ReadField` | abi/src/encode.rs:54-62 | a field of a laid-out record reads back as its value |
| `PexLayout.ParsesIffValid` | abi/src/encode.rs:69-123 | an encoded image parses if and only if the segments and entry given were valid |
| `PexLayout.RoundTrip` | abi/src/encode.rs:69-123 | parsing an encoded image gives back the entry, every segment with its bytes and every manifest entry |
| `PexEncode.EncodedLen` | abi/src/encode.rs:41-52 | the length loop computes the image's length |
| `PexEncode.WriteHeader` | abi/src/encode.rs:80-97 | the header writes leave the laid-out header, its unwritten tail zero |
| `PexEncode.WriteSegment` | abi/src/encode.rs:101-107 | a segment's writes leave its laid-out record |
| `PexEncode.WriteManifest` | abi/src/encode.rs:114-119 | a manifest entry's writes leave its laid-out record |
| `PexEncode.Encode` | abi/src/encode.rs:69-123 | succeeds if and only if counts, size and buffer allow it; then the buffer starts with the laid-out image, the rest is untouched, and the image parses if and only if the input was valid; otherwise the buffer is untouched |
| `LoaderSpec.AccessorsDefined` | abi/src/pex.rs:285-326 | the accessors of an accepted image read its records |
| `LoaderProofs.LoadConserves` | kernel/src/loader/mod.rs:108-241 | whatever the image and wherever a load stops, both spaces stay good and together hold as much CPU time as before |
| `LoaderProofs.EntryFills` | kernel/src/loader/mod.rs:191-233 | a manifest entry fills its destination, which was empty, with the declared type, exactly the declared rights, badge and budget, and the object it names: the loader's Endpoint or the frames of that segment; and nothing else |
| `LoaderProofs.BitsDeclare` | cap-core/src/rights.rs:15-46 | which bit of the wire format stands for which right; a word with any other bit is refused |
| `LoaderProofs.BudgetReported` | kernel/src/loader/mod.rs:191-241 | the budget a load reports is that of the Sched it gave the process |
| `LoaderProofs.EntryRefused` | kernel/src/loader/mod.rs:191-233 | a manifest entry is refused for its slot, rights, type or segment if and only if that is out of range |
| `LoaderProofs.SegmentRefused` | kernel/src/loader/mod.rs:121-149 | a segment is refused for its addresses if and only if they leave the window, for its size if its pages do not fit 32 bits, and otherwise if and only if the retype fails |
| `LoaderProofs.LoadedExactly` | kernel/src/loader/mod.rs:190-241 | after a load into an empty space the live slots are exactly the manifest's destinations, pairwise distinct, each as declared and naming the object it asked for |
| `LoaderProofs.WindowCheckSuffices` | kernel/src/loader/mod.rs:125-131 | the address check admits only pages of the window a process space has to itself |
| `LoaderProofs.LoadConfined` | kernel/src/loader/mod.rs:120-187 | for every image and wherever the load stops: each copy fits the frames retyped for it, each page mapped lies in the window, and no two pages share a frame, take one handed out before or one outside the loader's Untyped |
| `LoaderProofs.SegmentAdds` | kernel/src/loader/mod.rs:139-186 | a segment's frames come from the Untyped's mark on and are zeroed by their retype, then receive its copy, then are mapped, and the mark moves past them |
| `LoadedMemory.LoadedBytes` | kernel/src/loader/mod.rs:139-186 | whatever memory held before, after a load every byte of every segment reads as the image's byte, or zero past the file's bytes, on a page writable and executable exactly as the segment's permission bits ask, unless a later segment covers its page |
| `LoadedMemory.EncodedData` | abi/src/encode.rs:69-123 | for an encoded image those are the addresses, sizes, permissions and bytes given to the encoder |
| `LoadedMemory.LatestIsLastMap` | kernel/src/loader/mod.rs:170-185 | the page placed last in a process space is the one the loader mapped last at that address |
| `LoadedMemory.ProcessReadsItsImage` | kernel/src/loader/mod.rs:120-187 | end to end through the page tables, in any system and among any other events: a process whose own events are its spawn, the load's mappings and then maps of other pages, such as its stack, reaches each such byte in user mode, writable and executable exactly as the segment's permission bits ask, with the process's key; the address translates to a frame that never becomes a page table and holds the image's byte or zero |
| `LoaderObject.Loading.constructor` | kernel/src/loader/mod.rs:108-119 | a load that has done nothing yet |
| `LoaderObject.Loading.Segment` | kernel/src/loader/mod.rs:121-186 | loads one segment as specified, errors included |
| `LoaderObject.Loading.Entry` | kernel/src/loader/mod.rs:192-233 | derives one declared capability as specified, errors included |
| `LoaderObject.Loading.LoadAll` | kernel/src/loader/mod.rs:108-241 | the two loops do what the specification does, on success and on failure |
| `Syscalls.NoAmbientAuthority` | kernel/src/syscall.rs:21-136 | an operation goes through if and only if the caller's own slot holds an object of the type it needs with the right it needs |
| `Syscalls.RefusedBecause` | kernel/src/syscall.rs:21-136 | why an operation is refused: no such slot, nothing in it, no such operation, the wrong object or the right missing, in that order |
| `Syscalls.AnswerIs` | kernel/src/syscall.rs:21-136 | the word each operation returns |
| `Syscalls.ConsumeChangesReply` | kernel/src/user/mod.rs:312-326 | a REPLY succeeds only on the reply slot and empties it |
| `Syscalls.AcceptNamesCaller` | kernel/src/user/mod.rs:280-310 | taking a call gives the server a Reply naming the caller if its reply slot is vacant, and retires it if not |
| `Syscalls.RendezvousSteps` | kernel/src/user/mod.rs:196-326 | what a call, a receive, a reply and a wait for it do to the rendezvous and to who runs; an exit or a refusal only retires the process |
| `Syscalls.StepOnlyReply` | kernel/src/user/mod.rs:196-326 | one section of one syscall changes no slot of any process but the caller's reply slot |
| `Syscalls.RunOnlyReply` | kernel/src/user/mod.rs:196-326 | every run of syscalls by any number of processes leaves every slot but the reply slot untouched, and that slot as it was or with one Reply |
| `Syscalls.LoadedThenRun` | kernel/src/user/mod.rs:196-326 | however long it runs, a loaded process holds nothing beyond its manifest but one Reply in the reply slot, and what the manifest put elsewhere is still there |
| `Syscalls.AuthorityIsDeclared` | kernel/src/syscall.rs:21-136 | whatever a loaded process invokes that needs a right, after any run, goes through only on a slot its manifest declared with that type and right |

## Left out

- TLB flushes and control registers: hardware effects.
- KernelImage.BootEstablishes: assumes at least 2 GiB of identity map and three root entries apart, as the
  linked image and the boot constant give.
- The aarch64 page tables and the memory-tagging writes: the same shape as the x86-64 tables.
- The context switch, trap stubs, timers, protection-key programming and interrupt controllers: hardware effects.
- SpinLock and atomics: with one CPU and preemption masked, each critical section is one step here.
- The boot-path installers for Domain, Notification, SharedRo and existing frames: one-slot variants of the two
  that are modelled.
- Object numbers beyond 64 bits and slab sizes that overflow a machine word: integers are unbounded here.
- The notification state machine, message descriptors and budgets lent over IPC: they would add only easy members.
- The single-slot rendezvous of user processes beyond its effect on capability spaces: it serves one caller at a
  time by design.
- Cancelling a blocked call inside the protocol runs: the kernel never calls it, so it is proved of the endpoint alone.
- The driver, file-system and host tools: outside the core modelled here.
