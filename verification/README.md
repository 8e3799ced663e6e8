# xgc: a verified model of its two collectors

xgc is a pluggable stop-the-world garbage collector in C. This project models its generational collector
`gen_copy_ms` (a copying nursery in front of a mark-sweep old generation, with a card table as remembered set), its
simpler collector `marksweep`, and the parts they share: bitmap, card table, descriptor range tracing, worklist,
usage counters, handles, reference stores and the executable invariant checkers.

The model has two levels. The collectors are classes over arrays, linked nodes and a memory map
(`GenCollector.dfy`, `MsCollector.dfy`, `Marking.dfy`, `Runtime.dfy`, `CardTable.dfy`, `Bitmap.dfy`, `Worklist.dfy`,
`Lists.dfy`); every step of the C code is a method, and its contract says what it does to the state as a value, the
`View`. What is hard is proved about these values (`GenSpec.dfy`, `GenSteps.dfy`, `MarkSpec.dfy`, `MsSpec.dfy`,
`Mutator.dfy`, `Laws.dfy`, `Objects.dfy`, `Tracking.dfy`, `Tracing.dfy`). `Agreement.dfy` compares the collectors,
`Checkers.dfy` models the executable invariant checks, and `Witnesses.dfy` holds runs that show what is not promised.

The yardstick for both collectors is a heap that never collects. A program holds references in root slots and handles
and works through the public API (`Mutator.Op`); `Mutator.Run` plays its calls on a `World` whose objects have
identities that are never reused. `Mutator.Sim` ties a collected heap, whose addresses are reused, to that world, and
counts the finaliser calls. The main results:

* **Any run, either collector** (`GenCollector.Execute`, `MsCollector.Execute`): wherever collections happen, also
  inside an allocation, every access path from a root or handle finds the same descriptor, flags, payload and sharing
  as in the heap that never collects; no object is finalised twice, and none that can still be reached. Every call on
  the way has its own effect, and a run that ends in a full collection leaves exactly what is reachable.
* **The API means what it says** (`Laws.ActObeys`): each call's effect is stated by where access paths lead before and
  after it, for the heap that never collects and for the collected ones.
* **A minor collection is an isomorphism** (`CollectMinor`, `GenSpec.MinorDone`): it retains the old objects, where
  they are, and exactly the nursery objects that a scan of every slot of every old object would find, each at one fresh
  old address, although only dirty cards are scanned.
* **A full collection is exact** (`CollectFull`, `MsCollector.Collect`): what is left is what the program can reach,
  old survivors keep their list order, and just the unreachable objects with a finaliser have been finalised.
* **The collectors agree** (`Agreement.RunBoth`): after the same program and a full collection the two heaps are
  isomorphic and the same objects have been finalised.
* **The books always balance** (`GenSpec.Inv`, `MsSpec.Inv`): remembered-set completeness, the tiling of the nursery,
  absence of dangling references, and all counters hold in every state between calls; the peak is the largest total
  there has been; no saturating subtraction saturates; the runtime's own checks pass (`Checkers`).

Where code and expectation part:

* Pinning through a handle does not keep a nursery object in place: a handle's target moves if and only if it is in the
  nursery (`GenSteps.HandleTargetsMove`; `Witnesses.PinnedTargetMoves` is a run). Objects stay put that are in old
  space: those allocated as pinned, those larger than half the nursery, and those that have survived a minor
  collection.
* A minor collection is exact if and only if no old object is dead (`GenSteps.MinorExactIff`): a dead old object keeps
  its young targets (`Witnesses.DeadOwnerKeepsTarget` is a run).
* Destroying the generational collector finalises just what is not in the nursery (`GenCollector.Destroy`); destroying
  the mark-sweep collector finalises everything that is left (`MsCollector.Destroy`).
* A grown bitmap need not read as clear. `Bitmap.Resize` gives the exact condition, and `StaleBitComesBack` a case in
  which a bit returns; the card table sizes each map once and is not affected.

## Model

| member | source | states |
|---|---|---|
| Bitmaps.Bitmap.Resize | src/core/bitmap.c:23-53 | keeps every bit below both sizes; the newly exposed bits read as clear if and only if no stale bit was left in the old bytes there, as when the padding was clear |
| Bitmaps.StaleBitComesBack | src/core/bitmap.c:45-47 | shrinking and growing again within one byte brings back a bit that had been cut off |
| Bitmaps.WriteBit | src/core/bitmap.c:63-77 | setting or clearing one bit of a byte array leaves every other bit, in any byte, as it was |
| Bitmaps.Bitmap.Set | src/core/bitmap.c:63-69 | adds just this index to the set; out of range, nothing changes; padding stays clear |
| Bitmaps.Bitmap.Clear | src/core/bitmap.c:71-77 | removes just this index from the set |
| Bitmaps.Bitmap.Test | src/core/bitmap.c:79-85 | decides membership, and is false past the end |
| Bitmaps.Bitmap.ClearAll | src/core/bitmap.c:55-61 | leaves the empty set and clear padding |
| Worklists.Worklist.Push | src/core/worklist.c:3-24 | a stack push, whether or not the array has to double; null is dropped |
| Worklists.Worklist.Pop | src/core/worklist.c:26-31 | takes the last object pushed; null on an empty stack |
| CardTables.CardOfSlot | src/core/card_table.c:36-58 | for any granularity the card marked for a slot is below the card count without clamping, and its byte range, clipped to the owner, contains the start of the slot |
| CardTables.CardsPartitionObject | src/core/card_table.c:147-151 | every byte of an object lies on exactly one of its cards, and the cards are just those that begin inside the object, so none is empty |
| CardTables.CountersZero | src/core/card_table.c:60-89 | the dirty totals are zero exactly if no owner has a dirty card |
| CardTables.DirtyRemove | src/core/card_table.c:75-89 | swap-with-last removal lowers the totals by just the removed owner's share, so the guarded subtractions are exact |
| CardTables.RowsRemove | src/core/card_table.c:167-186 | after swap-with-last removal the entries are again one per remaining owner, and the map has lost that owner only |
| CardTables.CardTable.Register | src/core/card_table.c:120-165 | adds a clean owner once, with one card for each multiple of the granularity inside the owner, growing the array if full; refuses null and size zero; keeps all counters |
| CardTables.CardTable.Unregister | src/core/card_table.c:167-186 | removes the owner with its dirty cards from the map; all counters still add up |
| CardTables.CardTable.MarkCard | src/core/card_table.c:60-73 | one more dirty card, counted at all three levels once, even if it was dirty already |
| CardTables.CardTable.MarkSlot | src/core/card_table.c:188-208 | makes dirty just the card of the slot, of this owner only |
| CardTables.CardTable.MarkOwner | src/core/card_table.c:210-231 | makes dirty just the cards that begin inside the owner, and nothing of other owners |
| CardTables.CardTable.OwnerIsDirty | src/core/card_table.c:233-236 | true exactly if the owner has a dirty card |
| CardTables.CardTable.ClearOwner | src/core/card_table.c:238-253 | leaves the owner registered without dirty cards, and the other owners alone |
| CardTables.CardTable.Snapshot | src/core/card_table.c:255-304 | lists exactly the pairs dirty at entry, each once, in table order |
| CardTables.CardTable.Fill | src/core/card_table.c:285-304 | the second pass fills exactly the cells the first pass counted |
| CardTables.TablePairsAreDirty | src/core/card_table.c:255-304 | what is visited is what the abstract table calls dirty |
| CardTables.TablePairsDistinct | src/core/card_table.c:255-304 | no pair is visited twice |
| Tracing.VisitsCover | src/core/descriptor.c:3-40 | clipping and the choice of tracer lose no slot that starts in the byte range |
| Tracing.VisitsStayInRange | src/core/descriptor.c:32-34 | with a ranged tracer that stays in its range, a scan visits only slots that share a byte with the range |
| Tracing.MarkedCardIsScanned | src/core/card_table.c:36-58 | for any owner, slot and granularity: scanning the card that the barrier marks for a slot visits that slot |
| Tracing.TraceSlotsRange | bench/old_to_young_writes.c:36-70 | the floor and ceiling arithmetic visits exactly the slots the range touches, in order |
| Tracing.TouchedMember | bench/old_to_young_writes.c:36-70 | those are the slots sharing a byte with the range, each once |
| Tracing.BenchOwnerFits | bench/old_to_young_writes.c:36-70 | this ranged tracer visits all slots that start in the range, as card scanning relies on, and none outside it |
| Objects.EmbeddingIsInvisible | src/core/runtime.c:248-271 | a structure-preserving map makes two heaps indistinguishable for every access path, sharing included |
| Objects.EmbeddingKeepsLive | src/algo/gen_copy_ms/young_copy.c:361-416 | such a map leaves out nothing reachable and keeps reachability both ways |
| Objects.RelocationKeepsEmbedding | src/algo/gen_copy_ms/young_copy.c:361-392 | the identity of every object can be followed through a move |
| Objects.RelocationsCompose | src/algo/gen_copy_ms/young_copy.c:394-416 | a minor collection followed by a sweep is again a relocation |
| Mutator.StepKeepsWorldOk | src/core/runtime.c:210-361 | no call of the API makes a dangling reference in the heap that never collects |
| Laws.NewObeys | src/core/runtime.c:210-246 | an allocation leads the root to a new object that is as its descriptor says, pinned just if asked for, and zero elsewhere; nothing else changes; below the header's size the root becomes null |
| Laws.LoadObeys | src/core/runtime.c:263-271 | after a load the root leads to where the path through the slot led, and nothing else changes |
| Laws.StoreObeys | src/core/runtime.c:248-261 | after a store the path through the slot leads to where the stored root leads; no other slot, object, root or handle changes |
| Laws.LoadAfterStore | src/core/runtime.c:248-271 | a load gives back the reference that was stored |
| Laws.AcquireObeys | src/core/runtime.c:307-330 | the first handle leads to the object, the others follow in order; the object is pinned, and nothing else changes |
| Laws.ReleaseObeys | src/core/runtime.c:336-361 | the handle is gone, the others keep their order; its target is no longer pinned, and nothing else changes |
| Laws.ActObeys | src/core/runtime.c:210-361 | on any heap every call obeys its law about access paths; fetch, move, clear and put included |
| Laws.StepObeys | src/core/runtime.c:210-361 | the heap that never collects obeys the laws at every step |
| Mutator.ActFitsDesc | src/algo/gen_copy_ms/young_copy.c:489-492 | kind, finalizable flag and number of slots stay as the descriptor says, whatever is called |
| Mutator.SimAct | src/core/runtime.c:210-361 | every call of the API has the same effect on the collected heap as on the one that never collects |
| Mutator.SimCollection | src/algo/gen_copy_ms/young_copy.c:361-416 | a relocation that finalises just what it gives up is invisible, and finalises nothing twice |
| Mutator.LiveIsKept | src/algo/gen_copy_ms/young_copy.c:361-416 | whatever the program can reach is still in the heap and has not been finalised |
| Mutator.ExactlyFinalised | src/algo/gen_copy_ms/young_copy.c:394-416 | after an exact collection the finalised objects are just the unreachable ones that have a finaliser |
| Mutator.FinalizerCallsDistinct | src/core/reclaim.c:3-20 | distinct dead objects give distinct finaliser calls |
| Tracking.PeakFollows | src/algo/gen_copy_ms/young_copy.c:198-203 | through allocation and freeing the peak stays the largest total there has ever been |
| Runtimes.Runtime.HandleAcquire | src/core/runtime.c:307-330 | a new first handle on the object, which gets the pinned flag |
| Runtimes.Runtime.UnlinkHandle | src/core/runtime.c:345-352 | walks to the handle and removes just it; the other handles keep their order |
| Runtimes.Runtime.HandleRelease | src/core/runtime.c:336-361 | removes the handle and clears the pinned flag of its target |
| Runtimes.Runtime.Access | src/core/runtime.c:263-361 | root, handle, flag and payload operations obey their laws about access paths |
| MarkSpec.MarkKeeps | src/algo/marksweep/ms.c:34-48 | marking and pushing a live object keeps the tri-colour invariant; each object is pushed at most once |
| MarkSpec.MarkStackFits | src/core/worklist.c:3-24 | the mark stack is never deeper than the number of objects |
| MarkSpec.MarkDone | src/algo/marksweep/ms.c:80-88 | when the stack is empty the marked objects are exactly the live ones |
| MarkSpec.SweepIsExact | src/algo/marksweep/ms.c:90-105 | a sweep of the marked list keeps exactly the live objects, gives up each other object once, clears all marks, and leaves no survivor with a reference to a freed object |
| MarkSpec.SweepAtSkip | src/algo/marksweep/ms.c:93-99 | passing a marked node clears it and moves on; the rest of the list is untouched and the bytes are the same |
| MarkSpec.SweepAtFree | src/algo/marksweep/ms.c:101-103 | passing an unmarked node unlinks and frees just it; no other node moves |
| MarkSpec.SweepSimulates | src/algo/marksweep/ms.c:90-105 | the sweep is invisible to the program, and afterwards exactly the reachable identities are left |
| MarkSpec.FilterSurvivors | src/algo/marksweep/ms.c:90-105 | the survivors keep their relative order in the list |
| Marking.FindNode | src/algo/marksweep/ms.c:23-32 | finds the node of an object if the list has one, and null only if it has none |
| Marking.MarkObject | src/algo/gen_copy_ms/young_copy.c:297-308 | marks a live object and keeps the tri-colour invariant; the work measure does not grow |
| Marking.MarkChildren | src/algo/gen_copy_ms/young_copy.c:336-343 | after tracing an object all its targets are marked |
| Marking.MarkDrain | src/algo/gen_copy_ms/young_copy.c:336-343 | terminates with an empty stack, all marked objects traced |
| Marking.MarkLive | src/algo/marksweep/ms.c:221-247 | the whole mark phase marks exactly the objects reachable from roots and handles, and changes nothing else |
| MsSpec.AddedKeeps | src/algo/marksweep/ms.c:154-198 | allocation keeps the heap closed, the list complete and the bytes balanced |
| MsSpec.ReclaimKeeps | src/core/reclaim.c:3-20 | freeing one tracked object keeps the books; the subtraction does not saturate |
| MsSpec.SweepDone | src/algo/marksweep/ms.c:90-105 | the finished sweep leaves exactly the live objects, unmoved and in order, and the invariant |
| MsSpec.ActKeepsInv | src/core/runtime.c:248-361 | every other call of the API keeps the invariant |
| MsCollectors.MsCollector.Sweep | src/algo/marksweep/ms.c:90-105 | the pointer-to-pointer loop unlinks exactly the unmarked nodes, clears the other marks, and finalises the dead in list order |
| MsCollectors.MsCollector.Reclaim | src/core/reclaim.c:3-20 | finalises once if there is a finaliser, uncounts and frees |
| MsCollectors.MsCollector.Collect | src/algo/marksweep/ms.c:221-259 | an exact collection: just the reachable objects stay, in order, and just the unreachable ones with a finaliser have been finalised |
| MsCollectors.MsCollector.Destroy | src/algo/marksweep/ms.c:121-142 | afterwards nothing is allocated or counted, and every object that ever had a finaliser has been finalised exactly once |
| MsCollectors.MsCollector.Alloc | src/algo/marksweep/ms.c:154-198 | a zeroed object with the header its descriptor and the request call for, of the requested size, at an address not in use, first in the list and counted; null if the size is below the header's |
| MsCollectors.MsCollector.Apply | src/core/runtime.c:210-361 | one call keeps invariant and simulation and obeys its law; a minor collection as well as a full one leaves only what is reachable, with just the rest finalised |
| MsCollectors.MsCollector.Execute | src/algo/marksweep/ms.c:154-259 | after any run the heap is indistinguishable from one that never collects; nothing is finalised twice or while reachable; every state follows from the one before by its call's own effect; a run that ends in a collection leaves exactly what is reachable, with just the rest finalised |
| GenSpec.InitialInv | src/algo/gen_copy_ms/young_copy.c:418-437 | the initial state satisfies the invariant |
| GenSpec.PromoteKeeps | src/algo/gen_copy_ms/young_copy.c:168-206 | promoting a reachable nursery object keeps the forwarding map injective into fresh addresses, the old list, card table and counters complete, and the tri-colour invariant |
| GenSpec.SlotReached | src/algo/gen_copy_ms/young_copy.c:208-214 | a nursery reference met in a scan was reachable before the collection, so nothing is promoted needlessly |
| GenSpec.SlotKeeps | src/algo/gen_copy_ms/young_copy.c:208-214 | updating a slot to its target's new address keeps the invariant of the collection |
| GenSpec.DirtyScanSuffices | src/algo/gen_copy_ms/young_copy.c:226-262 | with the dirty cards scanned, no old object has a reference into the nursery any more |
| GenSpec.PromotedExactly | src/algo/gen_copy_ms/young_copy.c:226-271 | the card-driven collection promotes exactly what a scan of all old objects would |
| GenSpec.ResetRelocates | src/algo/gen_copy_ms/young_copy.c:361-392 | the collection is an isomorphism on what it retains: handles, roots and slots hold the image of their former value |
| GenSpec.WorklistFits | src/algo/gen_copy_ms/young_copy.c:264-271 | the worklist is never deeper than the number of nursery objects |
| GenSpec.MinorDead | src/algo/gen_copy_ms/young_copy.c:273-289 | the linear walk meets each nursery object once; the unforwarded ones are exactly those given up |
| GenSpec.EmptyMinor | src/algo/gen_copy_ms/young_copy.c:368-371 | with an empty nursery returning early is right: there is nothing to do |
| GenSpec.MinorDone | src/algo/gen_copy_ms/young_copy.c:361-392 | a finished minor collection restores the invariant with an empty nursery, is an isomorphism, and retains exactly the old objects and the nursery objects reachable from them, roots and handles |
| GenSpec.MinorSimulates | src/algo/gen_copy_ms/young_copy.c:361-392 | a minor collection is invisible to the program and finalises each object given up once |
| GenSteps.YoungKeeps | src/algo/gen_copy_ms/young_copy.c:478-499 | bump allocation keeps the tiling of the nursery, the remembered set and the counters, and no stale reference points at the new object |
| GenSteps.OldKeeps | src/algo/gen_copy_ms/young_copy.c:501-518 | allocation in old space keeps list, card table and counters complete |
| GenSteps.StoreKeeps | src/algo/gen_copy_ms/young_copy.c:525-544 | a store with its barrier keeps the remembered set complete |
| GenSteps.FreeKeeps | src/algo/gen_copy_ms/young_copy.c:147-153 | freeing an old object keeps the books; no counter saturates |
| GenSteps.SweepDone | src/algo/gen_copy_ms/young_copy.c:345-359 | the finished sweep of the old list leaves exactly the live objects and the invariant |
| GenSteps.FullDone | src/algo/gen_copy_ms/young_copy.c:394-416 | minor collection and sweep together keep exactly the live objects, move each at most once and old ones not at all, and keep the order of old survivors |
| GenSteps.MinorExactIff | src/algo/gen_copy_ms/young_copy.c:361-392 | a minor collection keeps exactly what the program can reach if and only if no old object is dead |
| Witnesses.DeadOwnerKeepsTarget | src/algo/gen_copy_ms/young_copy.c:226-262 | a run after which a minor collection retains an unreachable nursery object, because a dead old object refers to it |
| GenSteps.HandleTargetsMove | src/algo/gen_copy_ms/young_copy.c:216-224 | a minor collection moves the target of a handle if and only if it is in the nursery, pinned or not |
| Witnesses.PinnedTargetMoves | tests/test_gen_copy_ms_smoke.c:137-149 | a run after which a minor collection moves an object pinned through a handle |
| GenSteps.DestroyFinalises | src/algo/gen_copy_ms/young_copy.c:439-457 | finalising all old objects leaves just the nursery residents without their finaliser call |
| GenSteps.VisitedIsClean | src/algo/gen_copy_ms/young_copy.c:226-249 | after the scan of a card's range no slot that starts on the card refers into the nursery |
| GenCollectors.GenCollector.constructor | src/algo/gen_copy_ms/young_copy.c:418-437 | a new collector satisfies the invariant and stands for the empty world |
| GenCollectors.GenCollector.NurseryObjects | src/algo/gen_copy_ms/young_copy.c:93-104 | the range test tells the objects that tile the used part of the nursery from all other allocated objects, and is false of null |
| GenCollectors.GenCollector.FindForward | src/algo/gen_copy_ms/young_copy.c:106-114 | looks up the forwarding map |
| GenCollectors.GenCollector.AddOldNode | src/algo/gen_copy_ms/young_copy.c:126-145 | first in the old list, registered as a clean owner, and counted |
| GenCollectors.GenCollector.Promote | src/algo/gen_copy_ms/young_copy.c:168-206 | returns old objects as they are, forwarded ones' copies, and otherwise a copy at a fresh address that is forwarded, tracked, counted (the peak included) and pushed |
| GenCollectors.GenCollector.EvacuateSlot | src/algo/gen_copy_ms/young_copy.c:208-214 | the slot no longer refers into the nursery, and the invariant of the collection is kept |
| GenCollectors.GenCollector.ScanHandles | src/algo/gen_copy_ms/young_copy.c:216-224 | no handle refers into the nursery any more |
| GenCollectors.GenCollector.ScanRoots | src/algo/gen_copy_ms/young_copy.c:382-384 | no root refers into the nursery any more |
| GenCollectors.GenCollector.TraceRange | src/core/descriptor.c:3-40 | every slot the range tracing visits has been evacuated, and no other slot of the object has been touched |
| GenCollectors.GenCollector.VisitDirtyCard | src/algo/gen_copy_ms/young_copy.c:226-249 | the card is clean afterwards, although tracing may register owners and grow the table |
| GenCollectors.GenCollector.VisitSnapshot | src/core/card_table.c:306-314 | the calls made are exactly the pairs of the snapshot, each once and in order, while visits change the table; all are clean afterwards and all owners remembered |
| GenCollectors.GenCollector.RememberOwner | src/algo/gen_copy_ms/young_copy.c:42-70 | appends an owner unless it is listed |
| GenCollectors.GenCollector.ClearOwners | src/algo/gen_copy_ms/young_copy.c:72-87 | clearing the remembered owners leaves no card dirty |
| GenCollectors.GenCollector.ScanDirtyCards | src/algo/gen_copy_ms/young_copy.c:251-262 | visits exactly the cards dirty at entry, each once and in table order; afterwards no old object refers into the nursery and no card is dirty |
| GenCollectors.GenCollector.Drain | src/algo/gen_copy_ms/young_copy.c:264-271 | terminates with an empty worklist; the copies refer to no nursery object |
| GenCollectors.GenCollector.FinalizeDeadNursery | src/algo/gen_copy_ms/young_copy.c:273-295 | finalises exactly the unforwarded objects, in address order, ending exactly at the nursery's top; the subtraction does not saturate |
| GenCollectors.GenCollector.CollectMinor | src/algo/gen_copy_ms/young_copy.c:361-392 | the whole minor collection: outcome, invariant, simulation and finaliser calls |
| GenCollectors.GenCollector.SweepOld | src/algo/gen_copy_ms/young_copy.c:345-359 | unlinks, unregisters, uncounts, finalises and frees exactly the unmarked objects, in list order |
| GenCollectors.GenCollector.RemoveAccounting | src/algo/gen_copy_ms/young_copy.c:147-153 | one owner and one object less on the books |
| GenCollectors.GenCollector.Reclaim | src/core/reclaim.c:3-20 | finalises once if there is a finaliser, uncounts and frees |
| GenCollectors.GenCollector.CollectFull | src/algo/gen_copy_ms/young_copy.c:394-416 | an exact collection: what is left is what the program can reach, and just the unreachable objects with a finaliser have been finalised |
| GenCollectors.GenCollector.DestroyOld | src/algo/gen_copy_ms/young_copy.c:446-451 | the loop unregisters, uncounts, finalises and frees every old object, in list order |
| GenCollectors.GenCollector.Destroy | src/algo/gen_copy_ms/young_copy.c:439-457 | afterwards nothing is allocated; an object that has a finaliser has been finalised, once, if and only if it was not in the nursery at the call; the old counters are zero and the bytes of the nursery are still counted |
| GenCollectors.GenCollector.Alloc | src/algo/gen_copy_ms/young_copy.c:469-518 | a zeroed object with the header its descriptor and the request call for, of the rounded size, at an unused address, tracked and counted; it is in the nursery if and only if it is not pinned and fits half of it; it is placed in the state before the call or, just if such a request does not fit what is left, in the outcome of one minor collection |
| GenCollectors.GenCollector.StoreRef | src/core/runtime.c:248-261 | writes the slot and marks its card if an old owner now refers into the nursery |
| GenCollectors.GenCollector.ApplyNew | src/core/runtime.c:210-246 | the whole new state after an allocation into a root, with the collection it may need, and its law about access paths |
| GenCollectors.GenCollector.ApplyStore | src/core/runtime.c:248-261 | the whole new state after a reference store through roots, and its law about access paths |
| GenCollectors.GenCollector.ApplyAccess | src/core/runtime.c:263-361 | the whole new state after a load, a handle operation or a write to roots and bytes, and its law about access paths |
| GenCollectors.GenCollector.Apply | src/core/runtime.c:210-361 | one call keeps invariant and simulation, obeys its law, and, if it is a collection, has that collection's outcome; after a full one only what is reachable is left and just the rest has been finalised |
| GenCollectors.GenCollector.Execute | src/algo/gen_copy_ms/young_copy.c:361-544 | after any run the heap is indistinguishable from one that never collects; nothing is finalised twice or while reachable; every state on the way satisfies the invariant and follows from the one before by its call's own effect; a run that ends in a full collection leaves exactly what is reachable, with just the rest finalised |
| Agreement.InverseEmbeds | src/algo/marksweep/ms.c:221-247 | a structure-preserving map can be read backwards |
| Agreement.HeapsAgree | src/algo/gen_copy_ms/young_copy.c:394-416 | two heaps that stand for the same world and hold just what is reachable are isomorphic, with the same objects finalised |
| Agreement.RunBoth | src/algo/marksweep/ms.c:221-247 | the same program and a full collection leave both collectors with isomorphic heaps, indistinguishable for every access path, and with the same objects finalised |
| Checkers.CheckBitmap | src/core/invariants.c:10-13 | decides whether the byte count fits the bit count |
| Checkers.CountBits | src/core/invariants.c:58-63 | the inner loop counts the members of the bitmap |
| Checkers.CheckCardTable | src/core/invariants.c:34-69 | decides, for any table, whether all entries are well formed and each dirty count is the size of its set |
| Checkers.PositionsFit | src/core/invariants.c:100-102 | the last test of the barrier check cannot fail once the others have passed |
| Checkers.CheckBarriers | src/core/invariants.c:72-105 | decides, for any state, whether the table is well formed and both totals are right |
| Checkers.CheckHeap | src/core/invariants.c:107-123 | decides whether the usage counters are consistent |
| Checkers.HeapOkIff | src/core/invariants.c:107-123 | the counters pass if and only if they can be those of some heap: a nursery prefix in use and old objects of some sizes |
| Checkers.CheckHandles | src/core/invariants.c:173-180 | decides whether every handle has a target of non-zero size |
| Checkers.CheckRuntime | src/core/invariants.c:125-183 | decides whether the runtime is well formed |
| Checkers.CountsAgree | src/core/invariants.c:83-92 | the recomputed totals are the ones the table maintains |
| Checkers.ValidTablePasses | src/core/invariants.c:21-105 | every table the API can produce passes the checks |
| Checkers.GenPasses | src/core/invariants.c:125-183 | every reachable state of the generational collector is well formed |
| Checkers.MsPasses | src/core/invariants.c:125-183 | every reachable state of the mark-sweep collector is well formed |
| Checkers.CheckGenRun | src/core/invariants.c:125-183 | the check returns true after any run with the generational collector |
| Checkers.CheckMsRun | src/core/invariants.c:125-183 | the check returns true after any run with the mark-sweep collector |

## Left out

- Failing malloc, calloc and realloc: assumed to succeed; on failure the code leaves a nursery object behind or drops a worklist entry.
- Sizes of 32 bits and more: `Mutator.WfOp` assumes that a rounded size fits the header's field.
- Interior pointers, references outside slots, and reference writes that bypass `gc_store_ref` or name a wrong owner: assumed away, as the barrier cannot see them.
- Finalisers and hooks that call back into the collector: assumed away; a finaliser call is an entry in a log of identities.
- A call through a null reference or past an object's last slot has no effect in the model; in C it is undefined.
- Byte extents of old objects: memory is modelled per object, so that malloc'ed blocks do not overlap is not stated; nursery objects have extents (`GenSpec.TilesOk`).
- `trace_slots_range` is a function of the byte range that yields slot indices; callbacks are inlined at their callers, and so is `src/core/barrier.c`.
- `owners_to_clear` is a sequence instead of a doubling array; forwarding nodes are dropped, not freed one by one.
- Null arguments, null descriptors, and a handle's flags: the calls return at once or ignore them.
- `gc_worklist_check_invariants`: a single comparison in this representation.
- Contract validation, default configuration and the rest of `gc_runtime_destroy`: settled by reading single branches.
- Checkers.CheckBitmap: does not decide whether the buffer is null just if the byte count is zero, because an array of length zero stands for a null buffer.
- Checkers.CheckCardTable: does not decide whether the entries are null just if the capacity is zero, for the same reason.
- Checkers.CheckBarriers: leaves out the null test of the entries with `CheckCardTable`.
- Checkers.CheckHandles: does not decide the tests of a handle's runtime pointer and of its target's descriptor, because neither can be null in the model.
- Checkers.CheckRuntime: does not decide the tests of the algorithm and its name, of `gc_state`, of the worklist's buffer and of the handles' runtime pointers, because these never change after creation or are not part of this model.
- Checkers.CheckGenRun: covers the tests that `CheckRuntime` models.
- Checkers.CheckMsRun: covers the tests that `CheckRuntime` models.
- Collection counters, the large-object threshold, thread contexts, `GC_MULTITHREAD`: no behaviour of the collectors depends on them.
- `src/algo/bacon-rajan`, purple, ring, epoch and atomic files: skeletons without behaviour to prove.
- Benchmark mains, examples, printing and timing: input and output only.
