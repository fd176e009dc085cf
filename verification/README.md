# Verified models of FreeBSD storage and debugger code

Models, in Dafny, of the parts of a FreeBSD kernel where most is decided by arithmetic, ordering or counting, with proofs of what they are for.

- `CcdMap.dfy`, `Ccd.dfy`: concatenated disks. The interleave table against a numbering of chunks row by row, and the splitting of requests along it.
- `EdtSpec.dfy`, `EdtResume.dfy`, `EdtMatch.dfy`: paged matching over the CAM device table, against one preorder traversal.
- `EdtTable.dfy`, `EdtRefs.dfy`: reference counts of busses, targets and devices, against the paths, callbacks and leaks that exist.
- `CamHeap.dfy`, `CamQueue.dfy`, `CcbQueue.dfy`: the CAM priority queue against an abstract one, and the accounting of openings.
- `ScanBus.dfy`: parallel and sequential bus scans.
- `DiskSplit.dfy`, `GeomIo.dfy`: splitting and joining of disk requests, and the life of a bio between threads.
- `DiskLabel.dfy`: the on-disk form of BSD labels.
- `Sha1.dfy`: SHA-1 in streaming form against FIPS PUB 180-1.
- `GdbPacket.dfy`: packets of the GDB remote serial protocol.
- `Tar.dfy`, `Capture.dfy`, `Textdump.dfy`: text dumps written backwards, read as a ustar archive.
- `DdbExpr.dfy`: expressions of the kernel debugger.
- `Numbers.dfy`: bytes, powers and sums that several of these use.

Code that changes state is a class or works on an array, and each of its methods is tied to a function of the old state. What the code promises is proved about those functions, for all inputs and all runs. Threads are modelled by steps that may come in any order. Memory allocation, device completions, probe results and input streams are parameters.

Where a promise does not hold, the code is kept as it is, an input shows the failure, and the exact condition is proved:

- Removing an entry from the middle of a CAM queue may lose the heap order the comment above `camq_remove` promises: `CamHeap.RemoveOrder`, `CamQueue.RemoveLosesOrder`.
- A scan with no target to start with never completes: `ScanBus.Scan.FinishedScan`, `ScanBus.StuckScan`.
- An empty panic string hides the version file of a text dump: `Textdump.StreamReads`.
- A provider can be handed over while a bio refused for lack of memory is about to be requested again: `GeomIo.HandOverQuiet`, `GeomIo.HandOverDuringRetry`.
- A component smaller than the reserved area is accepted with a negative size: `Ccd.Softc.Init`, `Ccd.NegativeSizeAccepted`.
- On a concatenated disk with sectors of another size than DEV_BSIZE every request but those at offset 0 starts at the wrong block, and with larger ones some run past the components: `Ccd.Softc.Start`, `Ccd.LargeSectorMisplaced`, `Ccd.AcceptedStays`.
- `xpt_create_path_unlocked` never gives back the reference it takes to lock the bus, so the bus outlives its last user: `EdtTable.Stranded`, `EdtRefs.StrandedBus`.
- A device that is lost after its last reference went stays in the table, and with it its target and its bus, unless a path to it is made again: `EdtTable.Stranded`, `EdtRefs.ForgottenDevice`.
- A device takes a CCB without an opening when its openings were reduced while it waited, although the comment above `xpt_get_ccb` says otherwise: `CcbQueue.Ccbq.TakeOpening`, `CcbQueue.Ccbq.SetOpenings`, `CcbQueue.TakenTwice`.
- Aborting a queued CCB loses an opening: `CcbQueue.Ccbq.AbortQueued`.

`dafny verify dfyconfig.toml` checks the whole project.

## Model

| member | source | states |
|---|---|---|
| CcdMap.RankInjective | sys/geom/geom_ccd.c:366-430 | In the numbering of chunks row by row, two different (component, row) places have different numbers |
| CcdMap.RankSurjective | sys/geom/geom_ccd.c:366-430 | Every number below the total number of chunks is the number of some place |
| CcdMap.LogicalBounds | sys/geom/geom_ccd.c:514-615 | The logical block of a component block lies below the sum of the component sizes, for any interleave including 0 |
| CcdMap.LogicalInjective | sys/geom/geom_ccd.c:514-615 | Two component blocks with the same logical block are the same block |
| CcdMap.LogicalSurjective | sys/geom/geom_ccd.c:514-615 | Every logical block below the sum of the sizes is the logical block of some component block |
| Ccd.AcceptedSizePositive | sys/geom/geom_ccd.c:242-253 | A size that passes the zero test is positive exactly when the component is larger than the reserved area |
| Ccd.NegativeSizeAccepted | sys/geom/geom_ccd.c:206-320 | Configuring a component of one block succeeds with the size -12 and leaves no valid disk |
| Ccd.Softc.constructor | sys/geom/geom_ccd.c:769-790 | Mirroring without an interleave is turned off, and mirroring implies uniform sizes, for any interleave the request carries |
| Ccd.Softc.ComponentSize | sys/geom/geom_ccd.c:242-247 | Media size less the reserved area, truncated toward zero to the interleave: truncation never changes its sign |
| Ccd.Softc.Measure | sys/geom/geom_ccd.c:235-259 | Fails exactly when some component has no usable block; otherwise sizes are the truncated media sizes, minimum, maximum sector size and total are those of all components, and the minimum is positive exactly when every component is larger than the reserved area |
| Ccd.Softc.Init | sys/geom/geom_ccd.c:206-320 | The exact conditions of ENODEV and EINVAL for components of any size; on success the disk is valid exactly when every component is larger than the reserved area, with uniform sizes equal to the least one when asked for, and its sectors are the largest of the components |
| Ccd.Softc.Arrange | sys/geom/geom_ccd.c:235-320 | The same for an interleave and offset already adjusted |
| Ccd.Softc.Adjust | sys/geom/geom_ccd.c:217-234 | Linux compatibility doubles the interleave, and the offset follows the flags |
| Ccd.Softc.Layout | sys/geom/geom_ccd.c:280-317 | The uniform and mirror rules: mirroring an odd number of components or without interleave is refused, uniform components get the least size; the table describes the rows of the components with a positive size |
| Ccd.Softc.Resize | sys/geom/geom_ccd.c:271-310 | Uniform components get the least size and a mirror half of the total; sizes stay multiples of the interleave and the total is that of the components with distinct data |
| Ccd.Softc.Level | sys/geom/geom_ccd.c:280-286 | All sizes become the least one and the total is their sum |
| Ccd.Softc.SmallestAbove | sys/geom/geom_ccd.c:379-390 | The first component of least size among those larger than a given size |
| Ccd.Softc.Participants | sys/geom/geom_ccd.c:414-425 | The components taking part in a group, in order: exactly those that have the rows of the group |
| Ccd.Softc.NextEntry | sys/geom/geom_ccd.c:371-428 | The next table entry covers exactly the rows up to the next component end, with start block and start offset of the row numbering; fewer components remain after it |
| Ccd.Softc.Interleave | sys/geom/geom_ccd.c:322-430 | The table has ndisks + 1 entries and describes the row numbering; without interleave entry k starts at the sum of the sizes before component k |
| Ccd.Softc.InterleaveGroups | sys/geom/geom_ccd.c:366-430 | The loop over groups ends within ndisks + 1 entries with a table for all rows |
| Ccd.Softc.LocateSerial | sys/geom/geom_ccd.c:528-538 | Without interleave the block found has the wanted logical block |
| Ccd.Softc.FindGroup | sys/geom/geom_ccd.c:551-558 | The table entry found is the one whose rows contain the chunk |
| Ccd.Softc.LocateChunk | sys/geom/geom_ccd.c:551-607 | The component and row found have the wanted chunk number; in mirror mode the copy is on component d + n/2 |
| Ccd.Softc.Locate | sys/geom/geom_ccd.c:514-615 | For every logical block the component block found has that logical block, in mirror mode in the first half with the copy at the same block of the other half |
| Ccd.EntryFor | sys/geom/geom_ccd.c:551-605 | Dividing the offset within a group by the number of its distinct columns (half of them in a mirror) gives the one cell of that chunk |
| Ccd.MirrorEntry | sys/geom/geom_ccd.c:584-600 | In mirror mode every lookup uses the single entry of all components, and chunk c is row c / h of component c % h |
| Ccd.RunContiguous | sys/geom/geom_ccd.c:617-630 | Blocks up to the end of the interleave chunk or of the component have consecutive logical blocks |
| Ccd.Softc.Buffer | sys/geom/geom_ccd.c:514-649 | A component request starts at the mapped block, stays within the contiguous run and is cut at a block boundary only |
| Ccd.Softc.PickSide | sys/geom/geom_ccd.c:488-498 | Which side of a mirror a read goes to, and the remembered block of that side |
| Ccd.Softc.Issue | sys/geom/geom_ccd.c:475-505 | Reads go to one side, writes and deletes to both |
| Ccd.Softc.Turn | sys/geom/geom_ccd.c:463-508 | One turn of the loop issues requests routed to the component addresses of the bytes at hand |
| Ccd.Softc.Start | sys/geom/geom_ccd.c:432-509 | The issued pieces partition the request in order, never cross a chunk or component end, and send each byte to the address the block map gives, from the block the code computes; for whole sectors that is the request itself exactly when sectors have DEV_BSIZE bytes or it is at offset 0 |
| Ccd.Softc.Split | sys/geom/geom_ccd.c:462-508 | The loop of requests from a given block: the pieces cover exactly the bytes asked for |
| Ccd.StartsInPlace | sys/geom/geom_ccd.c:457-508 | What was issued for a nonempty request of whole sectors covers the bytes it names exactly when sectors have DEV_BSIZE bytes or the request is at offset 0 |
| Ccd.LargeSectorMisplaced | sys/geom/geom_ccd.c:206-509 | On a disk configured from one component of 100 blocks with sectors of 2048 bytes, a read of the second sector starts at block 1 of the component, not block 4 |
| Ccd.AcceptedStays | sys/geom/geom_ccd.c:801-802 | Every request inside the media the disk advertises ends on its components exactly when sectors are no larger than DEV_BSIZE |
| Ccd.WholeDisk | sys/geom/geom_ccd.c:801-802 | With larger sectors the request for the whole disk is accepted and runs past them |
| Ccd.CastKeeps | sys/geom/geom_ccd.c:564-564 | The offset within a group survives its int exactly below 2^31 |
| Ccd.ByteHomeUnique | sys/geom/geom_ccd.c:617-633 | A byte has one home: component and address are determined by the block map |
| EdtMatch.BusMatch | sys/cam/cam_xpt.c:1755-1866 | The loop over patterns copies a bus exactly when some pattern asks for it, and descends exactly when some pattern can match below, whatever the order of patterns |
| EdtMatch.DeviceMatch | sys/cam/cam_xpt.c:1867-1982 | The same for devices |
| EdtMatch.PeriphMatch | sys/cam/cam_xpt.c:1983-2089 | The same for peripherals; it never descends |
| EdtMatch.DevMatch.Report | sys/cam/cam_xpt.c:2122-2153 | One match is stored, or the position is saved and the traversal stops when the buffer is full |
| EdtMatch.DevMatch.PeriphFunc | sys/cam/cam_xpt.c:2344-2412 | A peripheral is reported as the traversal meaning says |
| EdtMatch.DevMatch.PeriphTraverse | sys/cam/cam_xpt.c:2725-2747 | From any start, the peripherals left are reported in order until the page is full |
| EdtMatch.DevMatch.DeviceFunc | sys/cam/cam_xpt.c:2223-2342 | A device, then what is below it, from the saved position on, or the list-changed status |
| EdtMatch.DevMatch.DeviceTraverse | sys/cam/cam_xpt.c:2701-2723 | From any start, the devices left and everything below them |
| EdtMatch.DevMatch.TargetFunc | sys/cam/cam_xpt.c:2187-2221 | The devices of a target from the saved position on |
| EdtMatch.DevMatch.TargetTraverse | sys/cam/cam_xpt.c:2678-2699 | From any start, the targets left and everything below them |
| EdtMatch.DevMatch.BusFunc | sys/cam/cam_xpt.c:2091-2185 | A bus, then what is below it, from the saved position on, or the list-changed status |
| EdtMatch.DevMatch.BusTraverse | sys/cam/cam_xpt.c:2618-2640 | From any start, the busses left and everything below them |
| EdtMatch.DevMatch.Match | sys/cam/cam_xpt.c:2414-2449 | One call reports the next page of what is left from the saved position, with status last, more or list changed |
| EdtMatch.MatchAll | sys/cam/cam_xpt.c:2091-2449 | With any capacities of at least one, the pages of repeated calls join to the single preorder traversal, nothing lost or repeated, in at most one call more than there are results |
| EdtResume.Resume | sys/cam/cam_xpt.c:2099-2109 | Resuming at the saved position of a result leaves exactly that result and those after it |
| EdtResume.FromStart | sys/cam/cam_xpt.c:2414-2449 | From the start position what is left is the whole preorder traversal |
| EdtMatch.OnePage | sys/cam/cam_xpt.c:2122-2153 | A page holds the next results up to its capacity and saves the position of the first one left out |
| EdtMatch.ChangedFirst | sys/cam/cam_xpt.c:2162-2174 | When a list generation on the saved path has changed, the call reports that and nothing else |
| EdtTable.CountsExplained | sys/cam/cam_xpt.c:3965-5065 | In every state the count of a node is the number of live paths through it, plus children in its list, plus callbacks or its registration, plus the references to it that were leaked; the first three alone explain it exactly when none was leaked |
| EdtTable.Reason | sys/cam/cam_xpt.c:4876-5065 | Below every node there is a configured device, a path, a callback or a registration, or a forgotten device, unless it is a childless bus with a leaked reference |
| EdtTable.Stranded | sys/cam/cam_xpt.c:3965-5065 | A node has no reason to exist exactly when no path goes through it, it is not registered and every device at or below it is unconfigured with count 0; then such a device or a leaked reference keeps it |
| EdtTable.DeviceMotive | sys/cam/cam_xpt.c:5038-5065 | A device has neither configuration nor path nor callback exactly when it is unconfigured with count 0 |
| EdtTable.BusStays | sys/cam/cam_xpt.c:4876-4889 | An unregistered bus is in the table exactly while a path, a target or a leaked reference holds it |
| EdtTable.UnheldDrop | sys/cam/cam_xpt.c:4376-4395 | Giving back a reference to an unregistered bus that nobody held, as a second deregistration does, always leaves a count that is not explained |
| EdtTable.AddInv | sys/cam/cam_xpt.c:4891-5036 | Linking a new node in sorted place keeps all counts and links right |
| EdtTable.CutInv | sys/cam/cam_xpt.c:5038-5065 | Unlinking an unreferenced node and giving up its hold on its parent keeps them right |
| EdtTable.DropKeeps | sys/cam/cam_xpt.c:5038-5065 | Releasing one reference never removes or alters a node that is still held |
| EdtTable.DropLine | sys/cam/cam_xpt.c:4876-5065 | Giving a reference back frees at most the node and those above it |
| EdtRefs.Transport.constructor | sys/cam/cam_xpt.c:1454-1454 | The empty table |
| EdtRefs.Transport.Find | sys/cam/cam_xpt.c:5089-5137 | The node with the key is found and referenced, or there is none |
| EdtRefs.Transport.Alloc | sys/cam/cam_xpt.c:4891-5036 | A new node with one reference and its place in the sorted list of its parent |
| EdtRefs.Transport.Place | sys/cam/cam_xpt.c:4912-4921 | The place that keeps the list sorted |
| EdtRefs.Transport.Release | sys/cam/cam_xpt.c:4876-5065 | A reference less; a node that reaches zero is unlinked and lets go of its parent in turn, unless it is a configured device |
| EdtRefs.Transport.Enter | sys/cam/cam_xpt.c:4016-4045 | Find or create a node below another; every count stays explained |
| EdtRefs.Transport.CompilePath | sys/cam/cam_xpt.c:3996-4065 | A path holds its bus, target and device; invalid exactly when there is no such bus; a failure changes no live path |
| EdtRefs.Transport.CreatePathUnlocked | sys/cam/cam_xpt.c:3965-3993 | A path as xpt_compile_path makes it, and one leaked reference to the bus exactly when one is found and the path is not for all busses; live paths survive |
| EdtRefs.Transport.LockBus | sys/cam/cam_xpt.c:3978-3984 | The look-up that leaks: one more reference to the bus found, everything else explained as before |
| EdtRefs.StrandedBus | sys/cam/cam_xpt.c:3965-3993 | A run that registers a bus, makes a path on it unlocked, frees the path and deregisters the bus ends with the bus in the table for no reason |
| EdtRefs.ForgottenDevice | sys/cam/cam_xpt.c:4568-5065 | A run that makes a path, configures its device, frees the path and deregisters the bus leaves device, target and bus in the table for no reason, with nothing leaked |
| EdtRefs.Transport.ReleasePath | sys/cam/cam_xpt.c:4067-4083 | The three holds are given back and every other path stays intact; at most the path's own nodes are freed, none of them when its device is configured, and the device when it is not and this was its last reference |
| EdtRefs.Transport.SetAsync | sys/cam/cam_xpt.c:3350-3423 | A callback pins its device once, is updated in place, and is dropped when its events become none; it stays when the task that tells it of known devices cannot be made, although the request fails |
| EdtRefs.Transport.SetConfigured | sys/cam/cam_xpt.c:4618-4619 | Only the configured mark of the device changes |
| EdtRefs.Transport.MarkLost | sys/cam/cam_xpt.c:4472-4539 | Exactly the devices on the bus that are not wildcards become unconfigured, and nothing else changes |
| EdtRefs.Transport.Register | sys/cam/cam_xpt.c:4318-4374 | The registered bus is in the table and nothing made to announce it is left; the bus for all busses is not announced; without memory nothing changes |
| EdtRefs.Transport.Deregister | sys/cam/cam_xpt.c:4376-4395 | Invalid exactly when there is no such bus; otherwise its registration is gone, its devices are lost, all other registrations, flags and callbacks are kept, only the bus and wildcards can be freed, nothing made for it is left, and the bus is gone exactly when no path, target or leaked reference holds it |
| Sha1.WindowStep | sys/crypto/sha1.c:138-163 | Overwriting the oldest of 16 words with the recurrence gives the next word of the 80-word schedule: section 8 of FIPS PUB 180-1 agrees with section 7 |
| Sha1.Ctxt.Expand | sys/crypto/sha1.c:140-142 | The same, in the array |
| Sha1.Ctxt.TwentyRounds | sys/crypto/sha1.c:138-163 | Each of the four loops runs its twenty rounds of the standard |
| Sha1.Ctxt.HashBlock | sys/crypto/sha1.c:91-169 | For every block and chaining value, the result of the standard over the full schedule |
| Sha1.Ctxt.Step | sys/crypto/sha1.c:91-172 | The buffer is hashed and cleared |
| Sha1.Ctxt.constructor | sys/crypto/sha1.c:176-186 | The initial hash and nothing taken in |
| Sha1.Ctxt.LoadWords | sys/crypto/sha1.c:99-132 | The words of the buffer, most significant byte first |
| Sha1.Ctxt.Loop | sys/crypto/sha1.c:223-249 | Input of any length is taken in as if byte by byte, and the bit count follows modulo 2^64 |
| Sha1.Ctxt.TakeIn | sys/crypto/sha1.c:236-248 | The same for a piece that fits the buffer |
| Sha1.Ctxt.Fill | sys/crypto/sha1.c:74-89 | Bytes are buffered and a full buffer is stepped |
| Sha1.Ctxt.PutZeros | sys/crypto/sha1.c:197-209 | Zeros up to the last 8 bytes of a block, through an extra block when fewer than 8 are left |
| Sha1.Ctxt.PutLength | sys/crypto/sha1.c:210-220 | The bit count, most significant byte first |
| Sha1.Ctxt.PadOut | sys/crypto/sha1.c:188-221 | Exactly the padding of section 4 of FIPS PUB 180-1 is taken in |
| Sha1.Ctxt.Result | sys/crypto/sha1.c:251-274 | The digest of everything taken in, whatever pieces it came in |
| Sha1.HashParts | sys/crypto/sha1.c:176-274 | For every message and every way of cutting it into calls, the FIPS PUB 180-1 digest of the whole message |
| Sha1.FeedHash | sys/crypto/sha1.c:223-249 | Taking in byte by byte is hashing block by block |
| Sha1.PadShape | sys/crypto/sha1.c:195-209 | The zeros written in one or two runs are exactly those of the standard |
| CamKeys.Signed | sys/cam/cam_queue.c:349-358 | The difference of unsigned numbers as an int is congruent to it and in range |
| CamKeys.CmpRank | sys/cam/cam_queue.c:349-358 | Within a window of 2^31 the comparison is the order by priority, then by age of generation |
| CamKeys.CmpCycle | sys/cam/cam_queue.c:349-358 | Outside any window the comparison is not transitive |
| CamHeap.RiseHeap | sys/cam/cam_queue.c:381-397 | heap_up restores heap order when only the new entry may be out of place |
| CamHeap.RiseBag | sys/cam/cam_queue.c:381-397 | heap_up only moves entries |
| CamHeap.SinkHeap | sys/cam/cam_queue.c:404-425 | heap_down restores heap order below the entry |
| CamHeap.SinkBag | sys/cam/cam_queue.c:404-425 | heap_down only moves entries |
| CamHeap.SinkTop | sys/cam/cam_queue.c:404-425 | What heap_down leaves at its first slot: the entry itself if no child is less, else a lesser child |
| CamHeap.InsertOrder | sys/cam/cam_queue.c:156-168 | Inserting keeps heap order and adds the entry |
| CamHeap.RemoveBag | sys/cam/cam_queue.c:176-192 | Removing at any slot keeps all other entries |
| CamHeap.RemoveOrder | sys/cam/cam_queue.c:170-192 | Removing at slot i keeps heap order exactly when i is the head, i is the last slot, or the moved entry is not less than the parent of i |
| CamQueue.RemoveLosesOrder | sys/cam/cam_queue.c:170-192 | An ordered queue of six entries that a removal at slot 4 leaves out of order |
| CamHeap.HeadFirst | sys/cam/cam_queue.c:349-358 | The head of an ordered queue comes before every entry |
| CamHeap.DrainSorted | sys/cam/cam_queue.c:176-192 | Repeated head removal gives the entries in sorted order |
| CamHeap.DrainBag | sys/cam/cam_queue.c:176-192 | and gives each of them once |
| CamQueue.ChangeOrder | sys/cam/cam_queue.c:200-211 | Changing a priority up or down keeps heap order |
| CamQueue.ChangeBag | sys/cam/cam_queue.c:200-211 | and changes the key of that entry only |
| CamQueue.RunRefines | sys/cam/cam_queue.c:150-225 | Every run of inserts, head removals, priority changes and removals that keep the order is, step by step, a run of a bag from which an entry of least priority and among those the oldest is taken, as long as the keys live at each step fit a window of that step |
| CamQueue.TurnoverFits | sys/cam/cam_queue.c:150-225 | A queue that is emptied in between meets that condition for any sequence of generations, so also when the counter has wrapped round |
| CamQueue.HeadBefore | sys/cam/cam_queue.c:150-192 | The head has the least priority and among those the oldest generation |
| CamQueue.Camq.constructor | sys/cam/cam_queue.c:70-89 | An empty queue of the given size |
| CamQueue.Camq.Compare | sys/cam/cam_queue.c:349-358 | The comparison of two slots |
| CamQueue.Camq.Swap | sys/cam/cam_queue.c:364-374 | Two entries change places and each still names its own slot |
| CamQueue.Camq.HeapUp | sys/cam/cam_queue.c:381-397 | The array and back-pointers follow the rising entry exactly |
| CamQueue.Camq.HeapDown | sys/cam/cam_queue.c:404-425 | The array and back-pointers follow the sinking entry exactly |
| CamQueue.Camq.Insert | sys/cam/cam_queue.c:156-168 | The new entry in its place, every back-pointer right |
| CamQueue.Camq.Remove | sys/cam/cam_queue.c:176-192 | Null for a slot without an entry and nothing changed; else the entry, marked unqueued, and the rest with back-pointers right |
| CamQueue.Camq.ChangePriority | sys/cam/cam_queue.c:200-211 | The new key and place of one entry; other priorities unchanged |
| CamQueue.Camq.Resize | sys/cam/cam_queue.c:119-149 | The same entries in a new array, or nothing changed when there is no memory |
| CcbQueue.Ccbq.constructor | sys/cam/cam_queue.c:328-339 | All openings free |
| CcbQueue.Ccbq.TakeOpening | sys/cam/cam_xpt.c:4853-4874 | Free + held + queued + active openings stay equal to the total; with room before, there is room after exactly when a slot was free, which is not tested here; a device that was in order, with an opening for what it waits for, stays so |
| CcbQueue.Ccbq.Schedule | sys/cam/cam_xpt.c:872-897 | A device waits for a CCB only from a moment at which an opening is free; a shrink put off is then done and makes room again |
| CcbQueue.Ccbq.SetOpenings | sys/cam/cam_xpt.c:5067-5087 | A new number of openings keeps the device in order exactly when it does not wait or an opening is left for it |
| CcbQueue.TakenTwice | sys/cam/cam_xpt.c:3437-3444 | Openings reduced while a device waits: it ends with more CCBs than slots, and one held CCB has none |
| CcbQueue.Ccbq.RoomForHeld | sys/cam/cam_queue.h:189-194 | With room for all CCBs a held one finds a free slot in the queue |
| CcbQueue.Ccbq.AbortQueued | sys/cam/cam_xpt.c:3098-3115 | Aborting a queued CCB always loses one opening |
| CcbQueue.Ccbq.InsertCcb | sys/cam/cam_queue.h:189-194 | A held CCB is queued in its place; the balance and the order of the device are kept |
| CcbQueue.Ccbq.SendHead | sys/cam/cam_xpt.c:3823-3858 | The head goes from the queue to the active list under the same invariant |
| CcbQueue.Ccbq.Send | sys/cam/cam_queue.h:208-218 | The CCB is at the end of the active list and marked active |
| CcbQueue.Ccbq.CcbDone | sys/cam/cam_queue.h:220-228 | An active CCB comes back as a held opening |
| CcbQueue.Ccbq.ReleaseOpening | sys/cam/cam_queue.h:230-235 | A held opening becomes free |
| CcbQueue.Ccbq.Resize | sys/cam/cam_queue.c:297-326 | Fails only for lack of memory; puts off a shrink while outstanding CCBs would not fit; the balance and the room are kept |
| DiskSplit.Request.constructor | sys/geom/geom_disk.c:237-247 | A request not yet started |
| DiskSplit.Request.Begin | sys/geom/geom_disk.c:260-266 | The first clone, or delivery with ENOMEM |
| DiskSplit.Request.Cut | sys/geom/geom_disk.c:267-285 | The current piece follows the one before, has at most the largest size, and the next clone exists before this one is submitted |
| DiskSplit.Request.CloneNext | sys/geom/geom_io.c:162-187 | The next clone is counted as a child, or the failure is recorded in the parent |
| DiskSplit.Request.Submit | sys/geom/geom_disk.c:286-296 | The piece is with the driver; the next one becomes current |
| DiskSplit.Request.Return | sys/geom/geom_disk.c:191-217 | A piece adds its bytes and its error if it is the first; the last one delivers |
| DiskSplit.Request.Join | sys/geom/geom_disk.c:198-211 | The counters of the parent stay those of the pieces that are back |
| DiskSplit.Request.Start | sys/geom/geom_disk.c:260-297 | The loop ends for any outcome of the allocations and any returns before and during each call of the driver, with the invariant kept |
| DiskSplit.PiecesTile | sys/geom/geom_disk.c:267-296 | When every clone was made the pieces are consecutive, cover the request exactly, and all but the last have the largest size |
| DiskSplit.ChainCovers | sys/geom/geom_disk.c:267-296 | Every byte of a tiled range is in exactly one piece |
| DiskSplit.DeliveredOnce | sys/geom/geom_disk.c:191-217 | The request is delivered exactly once, exactly when every piece was submitted and is back |
| DiskSplit.DeliveredResult | sys/geom/geom_disk.c:198-213 | It is delivered with the sum of the bytes, and with ENOMEM if a clone failed, else with the first error to come back, else without error |
| DiskSplit.FirstErrorKept | sys/geom/geom_disk.c:202-203 | With every clone made the first error is kept |
| DiskSplit.NoCloneWins | sys/geom/geom_disk.c:282-284 | A failed clone shows as ENOMEM whatever came back before or after |
| GdbPacket.RoundTrip | sys/gdb/gdb_packet.c:203-273 | Run-length decoding, count = byte - 29, of what is emitted for a payload without stars gives the payload back |
| GdbPacket.DecodeRun | sys/gdb/gdb_packet.c:226-260 | A character and its run, of any length, decode to the whole run |
| GdbPacket.CountsAreProper | sys/gdb/gdb_packet.c:226-260 | Every count byte is between 31 and 126 and none of '#', '$', '+' and '-' |
| GdbPacket.BodyClean | sys/gdb/gdb_packet.c:215-261 | No delimiter stands in a body |
| GdbPacket.RunLength | sys/gdb/gdb_packet.c:221-225 | The run counted is a run of the first character; where char is signed no character above 127 has one |
| GdbPacket.FrameAccepted | sys/gdb/gdb_packet.c:70-115 | An emitted frame, after any noise, is accepted with exactly its body when that is shorter than the buffer less one, and refused as too long otherwise |
| GdbPacket.ReceiveSound | sys/gdb/gdb_packet.c:70-115 | Whatever is accepted stood between its delimiters in the input, fits the buffer, has the right checksum, and was answered by minuses and one plus |
| GdbPacket.Sender.Put | sys/gdb/gdb_packet.c:217-219 | The running checksum is that of the body so far |
| GdbPacket.Sender.PutRun | sys/gdb/gdb_packet.c:226-260 | The bytes of a run |
| GdbPacket.Sender.PutTail | sys/gdb/gdb_packet.c:239-260 | The bytes of what is left below 97 repeats |
| GdbPacket.Sender.PutBody | sys/gdb/gdb_packet.c:213-261 | The encoded payload |
| GdbPacket.Sender.PutFrame | sys/gdb/gdb_packet.c:210-267 | One whole frame |
| GdbPacket.CountRun | sys/gdb/gdb_packet.c:220-225 | The run length of the payload at a place |
| GdbPacket.Transmit | sys/gdb/gdb_packet.c:203-273 | The frame is sent again until the first plus |
| GdbPacket.SkipToStart | sys/gdb/gdb_packet.c:77-84 | The first start character |
| GdbPacket.ReadBody | sys/gdb/gdb_packet.c:86-97 | The body ends at the first hash or the end of the buffer, with the sum of its bytes |
| GdbPacket.ReadPacket | sys/gdb/gdb_packet.c:77-113 | One packet: accepted, too long, or to be asked for again |
| GdbPacket.ReceivePacket | sys/gdb/gdb_packet.c:70-115 | The outcome of receiving until a checksum is right |
| GdbPacket.PutMemory | sys/gdb/gdb_packet.c:275-293 | Two digits for every byte |
| GdbPacket.GetMemory | sys/gdb/gdb_packet.c:130-159 | Refuses a packet of the wrong length; gives back what was written as digits |
| GdbPacket.GetNumber | sys/gdb/gdb_packet.c:161-188 | A signed hexadecimal number modulo 2^64 up to the first other character; without a digit nothing is taken; where char is signed a byte of 255 in the place of a digit is taken too |
| GdbPacket.NumberRoundTrip | sys/gdb/gdb_int.h:106-110 | Every number that is sent is read back |
| GdbPacket.GetSent | sys/gdb/gdb_packet.c:161-188 | Reading where a number was sent gives it modulo 2^64 and leaves what follows |
| Tar.HeaderSum | sys/ddb/db_textdump.c:182-194 | The checksum of a header is the one a ustar reader computes |
| Tar.HeaderSize | sys/ddb/db_textdump.c:200-218 | The size field reads as the size modulo 2^32, for every size: as the size exactly below 2^32 |
| Tar.HeaderName | sys/ddb/db_textdump.c:200-218 | The name field reads as the name |
| Tar.ReadBack | sys/ddb/db_textdump.c:271-370 | Reading an archive gives its files with names, sizes and data, then whatever follows |
| Tar.JoinData | sys/ddb/db_textdump.c:301-310 | Blocks hold the data, then zeros only |
| Textdump.Dumper.WriteBlock | sys/ddb/db_textdump.c:229-243 | A block is written unless it would lie outside the partition or in the reserved part |
| Textdump.Dumper.WriteNext | sys/ddb/db_textdump.c:271-279 | Blocks going down form the stream so far with one block more, as far as there is room |
| Textdump.Dumper.DumpConfig | sys/ddb/db_textdump.c:287-311 | The whole text as one file, with a padded last block only when needed |
| Textdump.Dumper.PutByte | sys/ddb/db_textdump.c:341-352 | One byte of the message buffer, dropped if it is a NUL |
| Textdump.Dumper.DumpMsgbuf | sys/ddb/db_textdump.c:317-370 | The message buffer without NULs as one file of its true size, though its header is written again afterwards |
| Textdump.Dumper.RewriteHeader | sys/ddb/db_textdump.c:361-369 | Going back changes the header block and no other |
| Textdump.Dumper.DumpString | sys/ddb/db_textdump.c:372-410 | At most one block of a string, and always one block |
| Textdump.Dumper.DumpCapture | sys/ddb/db_capture.c:299-316 | Captured output as one file of its true size; the buffer is empty afterwards |
| Textdump.Dumper.Dumpsys | sys/ddb/db_textdump.c:415-476 | The stream lies below the trailer, the recorded length is 512 times its blocks, and header and trailer both carry it |
| Textdump.StreamReads | sys/ddb/db_textdump.c:415-476 | Read downwards the dump gives exactly the files it should, except exactly when an empty panic string stands before a version string |
| Textdump.StringRead | sys/ddb/db_textdump.c:372-410 | An empty string leaves a block of zeros at which a reader stops |
| Capture.Buffer.constructor | sys/ddb/db_capture.c:100-113 | An empty buffer |
| Capture.Buffer.Write | sys/ddb/db_capture.c:200-213 | What fits of the output is added, while capture is on and the pager off |
| Capture.Buffer.ZeroPad | sys/ddb/db_capture.c:242-251 | Zeros to the end of the last block |
| Capture.Buffer.Resize | sys/ddb/db_capture.c:120-165 | What fits of the contents is kept; the size is rounded up to blocks; the error cases |
| ScanBus.NextLun | sys/cam/cam_xpt.c:5278-5320 | The walk stays at its lun exactly when the device has one lun, when lun 0 of an otherwise empty target is missing, or at the last lun of SCSI-2 without leave to go on; else it goes on by one |
| ScanBus.Scan.constructor | sys/cam/cam_xpt.c:5203-5221 | Nothing started; the counter is the number of targets to walk |
| ScanBus.Scan.Launch | sys/cam/cam_xpt.c:5223-5256 | A walk starts on every target but the initiator |
| ScanBus.Scan.LunDone | sys/cam/cam_xpt.c:5259-5405 | A probe result moves the walk to the next lun or ends it; each one uses up some of what is left |
| ScanBus.Scan.HopParallel | sys/cam/cam_xpt.c:5334-5364 | The walk ends; the last one completes the request |
| ScanBus.Scan.HopSequential | sys/cam/cam_xpt.c:5334-5386 | The walk ends and the next target but the initiator starts; after the last the request completes |
| ScanBus.Scan.Run | sys/cam/cam_xpt.c:5150-5410 | For any order of results the scan ends, within one probe per lun of each target |
| ScanBus.Scan.CompletesAfterAll | sys/cam/cam_xpt.c:5334-5360 | The request completes at most once and only after every walk has ended |
| ScanBus.Scan.FinishedScan | sys/cam/cam_xpt.c:5203-5256 | When nothing is out the request has completed exactly if there is a target to start with, the initiator being other than 0 in sequential mode; then every target was walked exactly once |
| ScanBus.StuckScan | sys/cam/cam_xpt.c:5213-5226 | A sequential scan by initiator 0 never completes |
| ScanBus.LeftAtStart | sys/cam/cam_xpt.c:5327-5332 | What is left at the start is one probe per lun of each target |
| GeomIo.RunSound | sys/geom/geom_io.c:321-473 | In every state of every run a provider's nstart - nend is the number of bios it still has, each bio is on the queue of its stage only, and is flagged exactly when queued |
| GeomIo.RequestedSound | sys/geom/geom_io.c:321-397 | A request keeps all of that |
| GeomIo.DeliveredSound | sys/geom/geom_io.c:399-473 | So does a delivery, also for lack of memory |
| GeomIo.DeferredSound | sys/geom/geom_io.c:542-563 | So does passing a bio to the task queue |
| GeomIo.TakenDownSound | sys/geom/geom_io.c:95-109 | So does taking the head of the queue down |
| GeomIo.TakenUpSound | sys/geom/geom_io.c:565-596 | and up |
| GeomIo.TakenTaskSound | sys/geom/geom_io.c:565-575 | and of tasks |
| GeomIo.OrphanedSound | sys/geom/geom_event.c:112-131 | So does orphaning a provider |
| GeomIo.HandedOverSound | sys/geom/geom_event.c:186-199 | A provider is handed over only when it counts no bio |
| GeomIo.HandedOverOnce | sys/geom/geom_event.c:112-205 | In every run a provider that was handed over never comes to the doorstep again |
| GeomIo.HandOverQuiet | sys/geom/geom_io.c:399-473 | At a hand-over nothing asked of the provider is outstanding exactly when nothing is between refusal for lack of memory and the new request |
| GeomIo.HandOverDuringRetry | sys/geom/geom_io.c:445-472 | A run that hands over a provider while a bio is about to be requested from it again |
| GeomIo.CheckedTransfer | sys/geom/geom_io.c:267-319 | What passes the checks is permitted, aligned and inside the media, and is cut only at the end of the media |
| GeomIo.Io.DeliverBio | sys/geom/geom_io.c:399-473 | Delivery, with the new request for lack of memory |
| GeomIo.Io.ScheduleDown | sys/geom/geom_io.c:475-540 | One turn of the down thread: refused with the error of the check, ended as empty, or started with the length cut; what ended goes up, or down again when the error is lack of memory, and nothing else changes |
| GeomIo.Io.HandOverOrphans | sys/geom/geom_event.c:179-200 | Every orphan that counts no bio is handed over, each once, and the others stay |
| DiskLabel.EncodeDecode | sys/geom/geom_bsd_enc.c:67-133 | Decoding an encoded label with both magic numbers and no more partitions than allowed gives the label with its computed checksum, whatever follows it |
| DiskLabel.DecodeEncode | sys/geom/geom_bsd_enc.c:146-196 | Encoding what was decoded gives back its 148 + 16n bytes exactly, and such a label is well formed |
| DiskLabel.ChecksumZero | sys/geom/geom_bsd_enc.c:185-195 | The words of an image add up to zero exactly when it carries its own checksum |
| Xor.FoldClears | sys/geom/geom_bsd_enc.c:88-94 | Storing the checksum of the rest makes the whole checksum zero, and no other value does |
| Xor.Xor16IsXor | sys/geom/geom_bsd_enc.c:191-195 | The operator is associative, commutative and its own inverse |
| DiskLabel.PartitionBack | sys/geom/geom_bsd_enc.c:135-144 | A partition is read back as written |
| DiskLabel.PartitionAgain | sys/geom/geom_bsd_enc.c:56-65 | and written as read |
| DiskLabel.ReadImage | sys/geom/geom_bsd_enc.c:96-132 | Every field is read back from its place |
| DiskLabel.ImageRead | sys/geom/geom_bsd_enc.c:153-190 | and written to the place it was read from |
| DiskLabel.LabelEnc | sys/geom/geom_bsd_enc.c:146-196 | The buffer holds the encoded label and is otherwise unchanged |
| DiskLabel.LabelDec | sys/geom/geom_bsd_enc.c:67-133 | The decoded label, or EINVAL for a wrong magic number, too many partitions or a wrong checksum |
| DiskLabel.WriteThenRead | sys/geom/geom_bsd_enc.c:67-195 | The encoder and then the decoder give the label back with its checksum |
| DiskLabel.ReadThenWrite | sys/geom/geom_bsd_enc.c:67-195 | The decoder and then the encoder give the same bytes back |
| DiskLabel.EncPartition | sys/geom/geom_bsd_enc.c:135-144 | One partition at its place |
| DiskLabel.SumWords | sys/geom/geom_bsd_enc.c:191-194 | The exclusive or of the words |
| DdbExpr.RoundTrip | sys/ddb/db_expr.c:47-232 | Before a token that is no operator, parsing the tokens of any tree gives the value or error of the tree and uses exactly those tokens |
| DdbExpr.ShiftBack | sys/ddb/db_expr.c:194-225 | Parsing the tokens of a shift expression is having its value and going on with the loop |
| DdbExpr.AddBack | sys/ddb/db_expr.c:167-192 | The same for sums |
| DdbExpr.MultBack | sys/ddb/db_expr.c:130-165 | The same for products, whose right operands are terms |
| DdbExpr.UnaryBack | sys/ddb/db_expr.c:102-128 | The same for unary expressions |
| DdbExpr.TermBack | sys/ddb/db_expr.c:47-100 | The same for terms |
| DdbExpr.ShiftTree | sys/ddb/db_expr.c:47-232 | Whatever is parsed was the print of a tree with that value |
| DdbExpr.Parser.Read | sys/ddb/db_lex.c:131-143 | The next token, the one given back first |
| DdbExpr.Parser.Unread | sys/ddb/db_lex.c:124-129 | A token is given back, never a second one |
| DdbExpr.Parser.ReadTerm | sys/ddb/db_expr.c:47-100 | The code parses terms as the grammar says |
| DdbExpr.Parser.ReadUnary | sys/ddb/db_expr.c:102-128 | and unary expressions |
| DdbExpr.Parser.ReadMult | sys/ddb/db_expr.c:130-165 | and products |
| DdbExpr.Parser.ReadAdd | sys/ddb/db_expr.c:167-192 | and sums |
| DdbExpr.Parser.ReadShift | sys/ddb/db_expr.c:194-232 | and shifts; it always terminates |
| DdbExpr.RoundsUp | sys/ddb/db_expr.c:157-158 | Where nothing overflows `#` gives the least multiple of its right operand not below the left one |

## Left out

- Ccd.Softc.Init: requires an interleave that is not negative; with a negative one the source divides by it in building the table and in every lookup.
- Ccd.Softc.Start: requires the request to end on the components when counted from the block the code starts at, which `Ccd.AcceptedStays` shows the provider does not ensure for large sectors; offsets within a group of chunks below 2^31 (`Ccd.CastKeeps`); enough memory for every clone; the completion counting of `ccdiodone` is not modelled.
- EdtRefs.Transport.Alloc: the temporary path that `xpt_alloc_device` uses to set up a new device and the resizing of the controller queue are not modelled.
- EdtRefs.Transport.Register: requires memory for the path that announces the bus, because the source goes on without testing whether that path was made.
- EdtRefs.Transport.Deregister: requires that the bus is still registered, which is up to its driver; `EdtTable.UnheldDrop` shows what a second deregistration does to the counts.
- Sha1.Ctxt.Result: lengths of 2^64 bits and more, for which the standard defines no digest, give the digest with the length taken modulo 2^64.
- CamQueue.RunRefines: at each step the live keys must fit a window, priorities less than 2^31 apart and generations less than 2^31 after a base; `CamKeys.CmpCycle` shows why.
- CcbQueue.Ccbq.AbortQueued: the list of active CCBs, from which the source unlinks a CCB that is not on it, is not followed.
- CcbQueue.Ccbq.InsertCcb: requires a held opening; CCBs that `xpt_polled_action` sends without taking one, and the opening it withholds meanwhile, are not modelled.
- DiskSplit.Request.Start: the attribute, flush and unsupported commands of `g_disk_start` are not modelled; they have one delivery or one clone each.
- DiskSplit.Request.CloneNext: the error written to the parent for lack of memory is one step with the rest; that `g_disk_done` may write it at the same time is not modelled.
- Textdump.Dumper.Dumpsys: says nothing about the blocks of a dump that does not fit, and takes device writes to succeed.
- ScanBus.Scan.Launch: paths and CCBs for the first probes are taken to be available; a lun path that cannot be made ends its walk.
- ScanBus.Scan.HopSequential: the path to the next target is taken to be available; the source ends the scan with an error otherwise.
- GeomIo.Io.HandOverOrphans: withdrawing the events of a provider (`g_cancel_event`), telling its consumers and destroying it are not modelled.
- Textdump.Dumper.WriteBlock: errors of the device, after which the source writes nothing more, are not modelled.
- GeomIo.Io.ScheduleDown: a bio without a consumer, whose completion routine is called directly, and the pacing of the down thread are not modelled.
- DiskLabel.LabelDec: requires a buffer as long as the partition count in it says, if that is at most `maxpart`; the source takes this for granted.
- DdbExpr.Parser.ReadTerm: debugger variables (`$name`) are not modelled, and symbols, memory and arithmetic are parameters; `DdbExpr.Lp64` is the arithmetic of a machine with 64-bit longs.
- Peripheral lists: `xptperiphlistmatch` repeats the paged matching over another list.
- SCSI probing, error recovery and transfer negotiation: decided by routines outside these files.
- Locks, sleeps, statistics and module glue: each critical section is one step.
- The other GEOM classes, the debugger's line editor and pager, and tables without behaviour: they would only add easy members.
