# Concord's document engine, modelled and proved

Concord keeps a document on many replicas at once. Each replica holds a stream of
items (characters and block delimiters, deleted ones included), issues operations for
its own edits, and integrates the operations of others in whatever order they arrive.
This project models that engine, the programs that rest on it, and the bytes it is
stored in, and proves what they promise.

## What is modelled

**The engine** (`cpp/crdt/src/doc.cpp`). `State` gives the state of one document and
what each operation does to it; `Engine.Replica` is the program's class `Doc` with its own store
(items in arrival order, doubly linked, an index by identity, a pending vector, counter
maps) whose methods are proved against `State` step by step. An insert names the item on its
left and on its right; a scan over the stream picks its place among concurrent inserts.
`Positions`, `Order` and `Replay` show that the scan finds the one slot of a tree by left
anchors, and that concurrent inserts commute. `History`, `Delivery`, `Buffering`,
`Issuing`, `Admission`, `Network` and `Convergence` carry this through whole runs: any
replicas, any local edits, any order, delay and repetition of deliveries, a buffer for
operations that arrive early, retries, and operations taken in from outside. `Registers` says who wins a register after any run. `Counters`
models the per-replica bookkeeping of applied operation counters. `Separation` says exactly when two
arrivals commute, beyond the well-formed ones too, and `Cascade` exactly when an arrival
ends in an error from the buffer.

**Views and local edits.** `Visible` partitions the live items into blocks; `Edits`
reduces a local edit to what it does to the place it is made at.

**Restore and block merge** (`cpp/worker/main.cpp`). `RestorePlan` and `RestoreComplete`
say what the batch of a restore is and prove that it works; `RestorePasses` and `Restore` are the
command's own loops, tied to that batch; `RestoreReach` discharges the hypotheses for
running replicas; `RestoreLimits` says when the inserts of a restore separate replicas, and
`RestoreDivergence` shows two runs where they do. `BlockMergePlan`, `BlockMerge`, `Sessions` and
`MergeRestore` do the same for the merge of block ranges; `MergeCommand` is that command as a whole,
on the document of any run.

**Editor reconciliation** (`src/lib/crdt/adapter.ts`). `Emitting`, `CharDiff`, `BlockDiff`, `BlockMatch` and
`Reconcile` are the loops that push edits onto a shared list while keeping a running
shift; `Tracking` counts what the edits do and follows each old item to its place; `Contents`
carries the result through the engine.

**Draft merge** (`src/lib/drafts.ts`). `Drafts` (anchors by patience search) and `DraftMerge`
(hunks, plan, merge by splices), on the patch algebra of `Splice`.

**Bytes** (`serialize.cpp`, `snapshot.cpp`, `digest.cpp`). `Wire`, `Codec`, `Batches`, `ItemCodec`,
`Snapshot` and `Canonical` give the formats as functions and prove them exact; `Frames`,
`SnapshotIO` and `CanonicalIO` are the loops over buffers and offsets. `Layout` and `StorageLayout` state
the same formats by position, field by field in raw bytes, and `Samples` has one literal frame of each shape. `Recovery` and `RunRecovery` tie
snapshots to the operations that follow them.

Throughout, a method that changes state or loops is proved equal to a specification
function, and the results are lemmas about that function. Operations on a document are
total: refusals are results (`Err` with the program's error code), not preconditions.

## Model

| member | source | states |
|---|---|---|
| Order.BoundaryIsSlot | cpp/crdt/src/doc.cpp:232-274 | In a tree-shaped stream the place the conflict scan finds for a well-formed insert is the slot of the tree form, and there is only one such slot: an integer is the scan's result if and only if it is that slot. |
| Positions.Project | cpp/crdt/src/doc.cpp:243-274 | Where the whole history's stream holds an item is where the scan puts it in any part of it that is closed under anchors and has no sibling of the same or a greater replica before that place: what else has arrived never changes the relative order of two items. |
| Order.IntegrateGrows | cpp/crdt/src/doc.cpp:205-298 | A well-formed insert keeps the tree (no crossing, every item between its anchors) and the order of siblings by replica. |
| Replay.Diamond | cpp/crdt/src/doc.cpp:232-287 | Two inserts of different replicas, or behind different left anchors, both well formed in the same tree-shaped stream, whether siblings, nested or unrelated and whatever their right anchors, integrate to the same stream in either order. |
| Replay.AnyOrderConverges | cpp/crdt/src/doc.cpp:205-298 | Every order of a valid run's inserts in which anchors precede, and each replica's own inserts keep their order, ends in the identical stream. |
| Separation.SeparatesExactly | cpp/crdt/src/doc.cpp:243-274 | In every tree-shaped sorted stream an insert with its anchors in order, well formed or not, commutes with every well-formed insert of every other replica if and only if it does not pass: that is, unless its right anchor hangs between its anchors and the left anchor's child over it has a smaller replica than the insert. |
| Separation.AnchoredCommute | cpp/crdt/src/doc.cpp:252-257 | Two inserts that do not pass, well formed or not, commute if and only if they do not tie: they are not of one replica, behind one left anchor, with one place. |
| Replay.RunKeepsTree | cpp/crdt/src/doc.cpp:205-298 | After every valid run the stream is a tree without crossings, each item between its anchors, siblings ordered by replica, a replica's later ones first. |
| Counters.NoteExact | cpp/crdt/src/doc.cpp:407-425 | Noting any further id, in any order, keeps each replica's contiguous counter the largest n with 1..n all applied, and its gap set exactly the applied counters above n. |
| Counters.ExactUnique | cpp/crdt/src/doc.cpp:407-425 | The contiguous counters and gap sets are a function of the set of applied ids. |
| Counters.NoteAllOrderFree | cpp/crdt/src/snapshot.cpp:241-255 | Noting the same ids in any two orders, with repetitions, from nothing gives the same counters and gaps; so an import may list them in any order. |
| Engine.Replica.NoteIntegrated | cpp/crdt/src/doc.cpp:404-425 | The lamport clock becomes the maximum of its own and the operation's, contiguous counters and gap sets become those `NoteExact` speaks of, and nothing else changes. |
| Engine.Replica.ResolveAnchor | cpp/crdt/src/doc.cpp:192-203 | An anchor resolves exactly when it is absent or in the document, and then to the cell holding that item. |
| Engine.Replica.ScanConflicts | cpp/crdt/src/doc.cpp:240-274 | Walking the links with the two sets and the early exits ends at the cell that stands at the specified boundary. |
| Engine.Replica.SpliceAfter | cpp/crdt/src/doc.cpp:431-446 | Relinking one new cell behind another leaves links that spell the old order with the new cell inserted there, head and tail included. |
| Engine.Replica.IntegrateInsert | cpp/crdt/src/doc.cpp:205-298 | Refuses, records, buffers or places the item as specified, with store, links and index again consistent; in each case the whole new state is that of the specification. |
| Engine.Replica.IntegrateDelete | cpp/crdt/src/doc.cpp:300-317 | Sets the tombstone of the target only, or buffers or refuses; retries afterwards; whole new state as specified. |
| Engine.Replica.IntegrateSetAttr | cpp/crdt/src/doc.cpp:319-343 | Checks name and value against the registry for the target's kind, then resolves the register; buffers or refuses otherwise; whole new state as specified. |
| Engine.Replica.ApplyRegister | cpp/crdt/src/doc.cpp:345-362 | The register of that name takes the arriving value if and only if it is absent, or its clock is smaller, or the clock is equal and its writer smaller; no other register and no other item changes. |
| Registers.RegisterGreatest | cpp/crdt/src/doc.cpp:345-362 | After any run a register holds the value of an applied write to it (initial attributes included) with its clock and replica, and no applied write to it has a greater clock, or the same clock and a greater replica; every applied write has its register. |
| Registers.WriteArrives | cpp/crdt/src/doc.cpp:345-362 | One write delivered to an item that is there: it is taken if and only if the register is new, or its clock is smaller, or the clock is equal and its writer smaller than the arriving replica; otherwise the stream is unchanged. |
| Engine.Replica.ApplyRemote | cpp/crdt/src/doc.cpp:160-176 | A duplicate changes nothing and answers false; otherwise the new state and the answer are those of integration and retry. |
| Engine.Replica.RetryPending | cpp/crdt/src/doc.cpp:364-402 | The in-place passes with early removal end (the buffer shrinks with every pass that makes progress) and leave the state, the error and the guard flag of the specified retry. |
| Engine.Replica.LocalInsertText | cpp/crdt/src/doc.cpp:48-78 | Refuses a bad index, a bad scalar or a used-up counter without a change; otherwise issues an insert anchored to the two neighbours at that index and integrates it. |
| Engine.Replica.LocalInsertDelimiter | cpp/crdt/src/doc.cpp:80-110 | The same for a block delimiter, whose type the registry must admit. |
| Engine.Replica.LocalDelete | cpp/crdt/src/doc.cpp:112-130 | Deleting a tombstone issues nothing; otherwise a delete of the item at that index is issued and integrated. |
| Engine.Replica.LocalSetAttr | cpp/crdt/src/doc.cpp:132-155 | Issues and integrates a register write for the item at that index, refusing what the registry refuses. |
| Engine.Replica.StreamEntries | cpp/crdt/src/doc.cpp:482-492 | Walking the links lists every item once, in document order, tombstones included, and each entry tells its item: kind, scalar, tombstone flag and the values of the set registers. |
| Edits.EntrySpot | cpp/crdt/src/doc.cpp:468-492 | The place local edits work on is what the stream entry of its item tells: live unless the entry is a tombstone, with its kind, scalar and attributes. |
| Engine.Replica.VisibleBlocks | cpp/crdt/src/doc.cpp:501-551 | The loop's blocks are the partition of the live items at the delimiters, the implicit first block included, and one default block for an empty document. |
| Visible.BlocksFrom | cpp/crdt/src/doc.cpp:501-551 | From a delimiter on, the partition is independent of what stands before: the blocks of a concatenation are the two block lists, one after the other. |
| Delivery.InitialExact | cpp/crdt/src/doc.cpp:289-293 | Of an insert's initial attributes the first of each name gives the register, stamped with the operation's clock and replica. |
| Buffering.PassKeeps | cpp/crdt/src/doc.cpp:371-400 | A pass over the buffer, from any index, meets no error on issued operations, keeps the document determined by the history and, if it makes no progress, has found nothing ready. |
| Buffering.IntegrateReady | cpp/crdt/src/doc.cpp:205-402 | Integrating a ready operation succeeds, and afterwards nothing still buffered could be integrated; nothing delivered is lost from applied or pending. |
| Buffering.DeliverKeeps | cpp/crdt/src/doc.cpp:160-176 | Any delivery of any issued operation, at any time, keeps the document determined by the history and its buffer settled; the only error is a full buffer, which changes nothing. |
| Issuing.StrictGrows | cpp/crdt/src/doc.cpp:48-78 | A locally generated insert never ties with an earlier insert of its own replica among siblings: it lands so that siblings stay strictly ordered by replica. |
| Network.StepOk | cpp/crdt/src/doc.cpp:48-176 | Every event (local edit, delivery, admitted outside operation) keeps the invariant of the whole network. |
| Network.RunOk | cpp/crdt/src/doc.cpp:160-402 | In every run from empty replicas each document is determined by the operations it has applied, with tracked counters exact and nothing integrable left in its buffer. |
| Admission.AdmitKeepsLog | cpp/crdt/src/doc.cpp:205-343 | A fresh, causal, legal operation from outside, well formed and without a tie if it is an insert, can be taken into the history: everything convergence rests on still holds. |
| Admission.WellFormedAnywhere | cpp/crdt/src/doc.cpp:225-274 | Whether an insert is well formed can be told at any document that holds its anchors: there if and only if for the whole history. |
| Convergence.StrongConvergence | cpp/crdt/src/doc.cpp:160-402 | After any run, two replicas that have received the same operations, in any order, with any delays and repetitions, hold the same stream down to tombstones and registers, the same applied ids, counters and gaps, and wait for the same operations. |
| Convergence.CompleteDelivery | cpp/crdt/src/doc.cpp:364-402 | A replica that has received every operation has applied every one: the buffer hides nothing, and its stream is the replay of all inserts in issue order. |
| Convergence.ReachableTree | cpp/crdt/src/doc.cpp:205-298 | Every document of every run is a tree without crossings with each item between its anchors. |
| Stability.NoItemMoves | cpp/crdt/src/doc.cpp:431-446 | No event of any run removes an item from a replica's stream or changes the relative order of two items. |
| Stability.ConvergedBytes | cpp/crdt/src/digest.cpp:16-90 | Replicas that have received the same operations have byte-identical canonical states. |
| Edits.PerformPlays | cpp/crdt/src/doc.cpp:48-155 | A local edit that fits the stream succeeds, and changes the stream at its index and nowhere else: an insert lands exactly at its index although the scan could move it, a delete hides one item, a write beats every register it meets. Every item keeps its identity, an insert moving those at and behind its index by one place. |
| Edits.ScriptPlays | src/lib/crdt/adapter.ts:381-404 | A list of such edits runs through the engine without a failure and leaves the stream it predicts, every old item at the place the edits have moved it to. |
| Edits.ScriptShows | src/lib/crdt/adapter.ts:381-404 | The visible document after a list of edits is that of the predicted places. |
| Edits.NetworkEditable | cpp/crdt/src/doc.cpp:48-155 | Every document of every run meets the conditions under which local edits do what they predict. |
| LiveList.InsertBetween | cpp/crdt/src/doc.cpp:205-298 | An insert anchored to two neighbouring live items enters the live list between them wherever the scan puts it among the tombstones. |
| RestorePasses.EmitDeletes | cpp/worker/main.cpp:923-942 | Pass 1 emits a delete for exactly the live items the target does not show, in order, with consecutive identities and clocks; it stops exactly when the room for operations, counters or clocks runs out. |
| RestorePasses.Neighbours | cpp/worker/main.cpp:972-1027 | The two searches end at the target's previous item, under its new identity if it was re-inserted, and at its next item still alive in the current document. |
| RestorePasses.EmitInserts | cpp/worker/main.cpp:958-1045 | Pass 2 emits the inserts of the plan for exactly the target items missing from the current document, with all registers as initial attributes; it stops exactly when there is no room. |
| RestorePlan.InitialAttrsExact | cpp/worker/main.cpp:1030-1042 | The initial attributes of a restored item name each of its registers once and carry what each holds, cleared registers included. |
| RestorePlan.InsertCarries | cpp/worker/main.cpp:1030-1042 | An item inserted with them holds a register under each name the old item had one, set or cleared alike, and under no other. |
| RestorePasses.EmitSyncs | cpp/worker/main.cpp:1058-1110 | Pass 3 emits one write for exactly the registers of kept items whose values differ, absent and cleared counting as equal; it stops exactly when there is no room. |
| RestoreComplete.RestoreCompletes | cpp/worker/main.cpp:919-1155 | Folding the batch into the current document accepts every operation, leaves the buffer exactly as it was, and shows exactly what the target shows. |
| Restore.ComputeRestoreDiff | cpp/worker/main.cpp:822-1166 | The command's whole answer: internal error exactly on a state outside the reader's limits, size or clock refusal exactly when there is no room, a failed check only if the batch does not restore, and otherwise the batch and its frame. |
| Restore.CheckBatch | cpp/worker/main.cpp:1129-1155 | The checks pass if and only if the batch restores: all accepted, no more pending than before, the target's visible document shown. |
| Restore.ChecksNeverFire | cpp/worker/main.cpp:1129-1155 | For two documents of one history, with room on the clocks, the run-time checks never refuse; operations waiting in the buffer do not disturb the restore. |
| RestoreReach.ReachableRestores | cpp/worker/main.cpp:822-1166 | In every run, restoring any replica's document to any other's content passes the checks, if its restore counters are contiguous and nothing buffered refers to an identity the restore may give out. |
| RestoreLimits.NeighbourWellFormed | cpp/worker/main.cpp:1011-1036 | An insert between two live neighbours is well formed if and only if the right neighbour's left origin is not strictly between them; everything between them is a tombstone. |
| RestoreLimits.RestoreInsertWellFormed | cpp/worker/main.cpp:1011-1036 | Every insert of a restore batch finds its neighbours where it arrives and is well formed there if and only if its right anchor does not hang between its anchors. |
| RestoreLimits.RestoreInsertSeparates | cpp/worker/main.cpp:1011-1036 | Every insert of a restore batch, where it arrives, commutes with all well-formed inserts of other replicas if and only if it does not pass; it passes only if its right anchor hangs between its anchors and some item is of a replica below the restore band. |
| RestoreDivergence.RestoreDiverges | cpp/worker/main.cpp:944-1155 | A run of two replicas, the document one of them reaches by a deletion, and the batch that restores what it showed before: one insert, which passes the command's checks; with the other replica's concurrent insert it gives two streams in the two orders, both written out. |
| RestoreDivergence.RestoresTie | cpp/worker/main.cpp:944-1036 | A run in which one item is deleted, restored, deleted and restored again: each batch is one insert, and the two give two streams in the two orders. |
| BlockSpots.StartsCut | cpp/worker/main.cpp:1753-1759 | There is one start for each visible block, and cutting the stream there cuts the block list there. |
| BlockSpots.BlocksReplaced | cpp/worker/main.cpp:1774-1792 | Hiding the places of a range of blocks and writing other blocks there replaces exactly that range of the block list. |
| BlockMerge.CheckRanges | cpp/worker/main.cpp:1738-1750 | The ranges are accepted exactly when each starts no later than it ends in both contents, lies in both, begins no earlier than the one before ends, and is not an addition where another stands. |
| BlockMerge.RangesAccepted | cpp/worker/main.cpp:1738-1750 | Ranges are valid if and only if every source slice lies in the source and the hunks cut out of it are accepted for a base of that length. |
| BlockMergePlan.AcceptedExactly | cpp/worker/main.cpp:1738-1750 | Hunks are accepted if and only if they are in order and disjoint within the base and none is an addition that begins where the one before ends. |
| BlockMergePlan.MergeAgrees | cpp/worker/main.cpp:1751-1801 | Carrying out the ranges from last to first shows the simultaneous replacement of all of them if and only if no addition is misplaced beside an implicit first block. |
| BlockMerge.ReplaceRange | cpp/worker/main.cpp:1774-1792 | One range through the engine: its live items hidden, the blocks written before them, at exactly the counted cost; it fails only when the counter is used up. |
| BlockMerge.MergeBlocks | cpp/worker/main.cpp:1733-1801 | The command up to its comparison: malformed if and only if a source slice is out of bounds or the hunks are not accepted, too large only past the limit, failed only with a used-up counter, a mismatch exactly on a misplaced addition, and otherwise a target reached by local edits that shows the simultaneous replacement. |
| MergeRestore.EditedRestores | cpp/worker/main.cpp:1802-1807 | For a document in the state a run leaves it in, under any identity that fits the history: restoring it to what any local edits made of it passes the checks. |
| MergeCommand.ImportEditable | cpp/worker/main.cpp:1734-1737 | Every document of every run, imported under the maintenance identity, meets the conditions under which local edits do what they predict. |
| MergeCommand.MergedRestores | cpp/worker/main.cpp:1802-1803 | In every run, whatever edits the merge made of the imported document, restoring it onto the current one passes every check. |
| MergeCommand.MergeDiff | cpp/worker/main.cpp:1733-1808 | The whole command on the imported document of any running replica: malformed if and only if a source slice is out of bounds or the hunks are not accepted; stopped before the restore only for size, counter or a misplaced addition; otherwise no check refuses, and the batch folded into the current document shows the simultaneous replacement of all ranges. |
| BlockDiff.BuildLiveIndex | src/lib/crdt/adapter.ts:56-80 | The index tells exactly the live positions and where each block's delimiter stands; null stands for an implicit first block. |
| CharDiff.CommonEnds | src/lib/crdt/adapter.ts:266-279 | The matched start and the end matched behind it agree, do not overlap, and cannot be extended. |
| CharDiff.ReconcileBlockChars | src/lib/crdt/adapter.ts:255-336 | Whatever tombstones lie between, the edits of one block leave it showing its head and exactly the new characters with their marks. The items of the longest common start and of the longest common end behind it stay live under their identity, with the new marks; only what lies between is deleted, only what lies between is typed, one delete and one insert for each, and one write for each mark that differs. |
| BlockDiff.ReconcileExplicit | src/lib/crdt/adapter.ts:225-336 | A block with a delimiter ends up with the new type, attributes, characters and marks, its delimiter and the characters of the common ends the same items as before, at exactly the work of the attributes and characters that differ; nothing outside it changes. |
| BlockDiff.ReconcileImplicit | src/lib/crdt/adapter.ts:225-336 | An implicit first block gets a delimiter of the new kind exactly when its type or an attribute changes; otherwise only its characters are rewritten. The characters of the common ends stay the same items. |
| Emitting.InsertWholeBlock | src/lib/crdt/adapter.ts:338-373 | The pushed edits write the whole block at the cursor, one insert for the delimiter and for each character and one write for each attribute and mark; cursor and shift advance past it, and no old item is touched. |
| Reconcile.RemoveRange | src/lib/crdt/adapter.ts:188-198 | Deleting from last to first hides exactly the live items of the range, one delete for each. |
| Reconcile.ReconcileBlocks | src/lib/crdt/adapter.ts:149-223 | Every emitted edit is in range and accepted when replayed in order, and the stream then shows the editor's blocks in full if and only if the first block is not lost. Each kept block keeps its delimiter and the characters of its common ends under their identity; deletes, inserts and writes are exactly as many as the blocks call for, and equal contents emit nothing. |
| BlockMatch.SameTextKeeps | src/lib/crdt/adapter.ts:158-175 | A block kept as one with the same text takes no delete and no typed character, whatever its formatting becomes. |
| Reconcile.CharacterStands | src/lib/crdt/adapter.ts:264-279 | A character of a kept block stands at a live place, and if it belongs to a common end that place, moved by the inserts before it, shows the new character afterwards. |
| Contents.ReconcileDocument | src/lib/crdt/adapter.ts:149-404 | The same through the engine's local operations: no edit fails, the visible document equals the editor's if and only if the first block is not lost, old items are found again by identity where the edits have moved them, and an unchanged document emits nothing. |
| Contents.SameItem | src/lib/crdt/adapter.ts:255-336 | A character in the common start or end of a kept block is one item before and after, by its id: live both times, showing the old character and then the new one with its marks. |
| Contents.SameDelimiter | src/lib/crdt/adapter.ts:225-253 | The delimiter of a kept block is one live item before and after, opening the old block and then the new one. |
| Contents.SameText | src/lib/crdt/adapter.ts:155-175 | In a block matched by its text every character is the same live item as before: formatting never replaces text. |
| Contents.DelimiterFirst | src/lib/crdt/adapter.ts:206-239 | With a delimiter as first visible item nothing is ever lost, for all block lists. |
| Contents.ReachableGood | cpp/crdt/src/doc.cpp:501-551 | The visible blocks of every reachable document are made of names and values the registry admits; so they can be written again. |
| Drafts.Candidates | src/lib/drafts.ts:97-112 | The candidates are exactly the blocks that stand once in both contents, in base order. |
| Drafts.LowerBound | src/lib/drafts.ts:119-125 | The binary search ends at the first tail not below the value. |
| Drafts.Patience | src/lib/drafts.ts:115-129 | Tails stay strictly increasing, each the least end of a climb of its length, and back pointers lead to a climb one shorter. |
| Drafts.LongestClimb | src/lib/drafts.ts:131-137 | What is read back is a strictly increasing chain, and no chain of candidates is longer. |
| DraftMerge.DiffBlocks | src/lib/drafts.ts:95-157 | Patching the base with the hunks gives the changed content; hunks are in order, disjoint and separated by a kept block; equal contents give none. Each base block outside the hunks stands once in both contents and at its shifted place in the changed one, and no chain of such blocks in order is longer than what the hunks leave. |
| Splice.SpliceHunk | src/lib/drafts.ts:230-237 | Adding one hunk among disjoint others is one splice at its shifted place, and the region spliced out is exactly the base region it replaces. |
| DraftMerge.PlanDraftMerge | src/lib/drafts.ts:172-207 | The plan has one change for each hunk between base and draft, with its base and current blocks, marked a conflict or already applied exactly as its overlaps with the hunks of the current content say; neither diff touches more than the longest chain of common blocks leaves. |
| DraftMerge.OverlapsExactly | src/lib/drafts.ts:163-170 | Two hunks are apart if and only if one ends no later than the other starts; where one of them is an addition it must end before: an addition at the edge of a hunk, or at the place of another, overlaps it. |
| DraftMerge.PlanMeans | src/lib/drafts.ts:182-201 | A change is already applied if and only if some hunk of the current content overlaps it and every one that does is the same replacement; it is a conflict if and only if some hunk that overlaps it is another. |
| DraftMerge.RegionKept | src/lib/drafts.ts:184-192 | The region of the current content shown for a change without overlap is the base region, at its shifted place. |
| DraftMerge.MergeSelected | src/lib/drafts.ts:209-246 | The merge succeeds exactly when every selected id is there once, without conflict and not yet applied; the result is the base patched with all main hunks and the selected hunks of the draft together, each region spliced out on the way equals the base blocks it replaces, and both diffs leave alone as many base blocks as any chain allows. |
| Wire.LeExact | cpp/crdt/include/concord/crdt/ids.hpp:150-192 | Reading a little-endian integer gives a value exactly where its encoding stands. |
| Wire.ScalarExact | cpp/crdt/include/concord/crdt/item.hpp:165-235 | Decoding gives a Unicode scalar exactly where its shortest UTF-8 form (section 3 of RFC 3629) stands: no overlong form, surrogate or value beyond U+10FFFF is accepted. |
| Codec.OpExact | cpp/crdt/src/serialize.cpp:178-308 | The parser accepts exactly the frames of the operations a frame can carry, and gives that operation; the frames themselves are fixed byte by byte in `Layout`. |
| Codec.SerializeThenParse | cpp/crdt/src/serialize.cpp:102-308 | Parsing a serialised operation returns it. |
| Codec.ParseThenSerialize | cpp/crdt/src/serialize.cpp:102-308 | Serialising what was parsed returns the same bytes when names, values and size are within the writer's limits, and is refused as too large otherwise. |
| Layout.ParsedByPosition | cpp/crdt/src/serialize.cpp:178-308 | Parsing gives an operation if and only if a frame can carry it and version, type code, id, clock, anchors, kind, value, attributes, target and name lie in the bytes at their offsets, each field read byte by byte. |
| Layout.WrittenByPosition | cpp/crdt/src/serialize.cpp:102-176 | What the writer puts out has the same fields at the same offsets and nothing else. |
| Layout.U64Exact | cpp/crdt/include/concord/crdt/ids.hpp:150-192 | A 64-bit value stands at an offset if and only if its eight bytes, least first, do. |
| Layout.CharExact | cpp/crdt/include/concord/crdt/item.hpp:165-235 | A scalar stands at an offset if and only if the bytes there carry its bits in the one, two, three or four byte pattern its size calls for. |
| Samples.TextFrame | cpp/crdt/src/serialize.cpp:102-308 | The frame of one text insert, written out byte by byte, left anchor before right: it is read as that operation and written as those bytes. |
| Samples.DelimiterFrame | cpp/crdt/src/serialize.cpp:102-308 | The same for a delimiter insert with its attributes. |
| Samples.DeleteFrame | cpp/crdt/src/serialize.cpp:102-308 | The same for a delete. |
| Samples.WriteFrame | cpp/crdt/src/serialize.cpp:102-308 | The same for an attribute write. |
| Batches.BatchExact | cpp/crdt/src/serialize.cpp:324-350 | The parser accepts exactly the batches of at most the allowed number of operations that frames can carry. |
| StorageLayout.BatchByPosition | cpp/crdt/src/serialize.cpp:310-350 | The parser accepts a batch if and only if it is short enough, its operations can be carried, and the bytes hold the count and then, for each operation, the length of its frame and the frame, at the offsets the lengths before it give. |
| Batches.SerializeThenParseBatch | cpp/crdt/src/serialize.cpp:310-350 | Parsing a serialised batch returns its operations in order. |
| Batches.ParseThenSerializeBatch | cpp/crdt/src/serialize.cpp:310-350 | Serialising a parsed batch returns the same bytes when each operation can be written. |
| Frames.SerializeOperation | cpp/crdt/src/serialize.cpp:102-176 | The writer's appends produce the specified frame or its first error. |
| Frames.ParseOperation | cpp/crdt/src/serialize.cpp:178-308 | The reader's advancing offset ends in the specified operation or error, trailing bytes refused. |
| Frames.SerializeOperations | cpp/crdt/src/serialize.cpp:310-322 | The loop over operations produces the specified batch or its first error. |
| Frames.ParseOperations | cpp/crdt/src/serialize.cpp:324-350 | The loop over length-prefixed frames gives the specified operations or error. |
| Snapshot.SnapshotRestores | cpp/crdt/src/snapshot.cpp:117-288 | Importing an export gives back the whole document under the importer's identity, the gap sets it does not store included, whatever order applied ids and rows are listed in. |
| StorageLayout.SnapshotByPosition | cpp/crdt/src/snapshot.cpp:117-162 | Bytes are the snapshot of a document if and only if version, clock, counters, items, applied ids and the batch of the buffer lie in them, each field at its offset and byte by byte. |
| SnapshotIO.ExportSnapshot | cpp/crdt/src/snapshot.cpp:117-162 | The appending loops produce the specified snapshot, or the batch writer's error. |
| SnapshotIO.ImportSnapshot | cpp/crdt/src/snapshot.cpp:164-288 | The reading loops, noting applied ids one by one, end in the specified document or error for any bytes. |
| Folding.FoldBlind | cpp/crdt/src/snapshot.cpp:185-186 | The receiver's identity plays no part in what a list of deliveries does. |
| Recovery.SnapshotPlusTail | cpp/crdt/src/snapshot.cpp:117-288 | Wherever a history is cut, a snapshot of its head with the tail folded in equals folding the whole history. |
| RunRecovery.ReachableStorable | cpp/crdt/src/snapshot.cpp:164-288 | Every document of every run whose numbers and sizes fit the fields of the format can be stored and read back. |
| Snapshot.ExportExact | cpp/crdt/src/snapshot.cpp:117-162 | The export succeeds if and only if the buffer is not too long for a batch and every buffered operation passes the writer's checks and size limit. |
| RunRecovery.RunExports | cpp/crdt/src/snapshot.cpp:150-153 | The export of a running replica's document succeeds if and only if clock, names, values and frame of everything it has buffered are within the writer's limits. |
| RunRecovery.RunRecovers | cpp/crdt/src/snapshot.cpp:117-288 | At every point of every run a snapshot can be taken exactly under that condition, and a snapshot followed by any further operations equals going on without it. |
| Canonical.SameStateSameBytes | cpp/crdt/src/digest.cpp:16-90 | Equal streams, applied ids and counters have equal canonical bytes. |
| Canonical.SameBytesSameState | cpp/crdt/src/digest.cpp:16-90 | Equal canonical bytes come from equal streams, down to every register, equal applied ids and equal contiguous counters. |
| StorageLayout.CanonicalByPosition | cpp/crdt/src/digest.cpp:16-90 | Bytes are the canonical state if and only if the items in order, their registers by ascending name, the ids and the counters lie in them, each field at its offset. |
| Canonical.DiffStateReads | cpp/worker/main.cpp:693-810 | The worker's reader, given canonical bytes, returns exactly the items in order and the highest register clock; it refuses exactly the states with an item outside its limits. |
| Canonical.TopItemsIs | cpp/worker/main.cpp:785-806 | The clock returned is an upper bound of all register clocks and is attained. |
| CanonicalIO.CanonicalStateBytes | cpp/crdt/src/digest.cpp:16-90 | The one loop over the stream and the two over sorted pairs produce the specified encoding. |
| CanonicalIO.ParseCanonicalItems | cpp/worker/main.cpp:693-810 | The reader's loops with their advancing offset give the specified items, or refuse, for any bytes. |
| Names.SortedNamesUnique | cpp/crdt/src/digest.cpp:48-61 | The ascending listing of a set of names is unique: registers are written in one order only. |
| Names.LessMeans | cpp/crdt/src/digest.cpp:48-61 | One name is less than another if and only if at the first place they differ it has the smaller byte, or it ends there. |
| Findings.LostHappens | src/lib/crdt/adapter.ts:203-212 | A reachable document and an edit for which reconciliation loses the first block: the input described below. |
| Findings.MisplacedHappens | cpp/worker/main.cpp:1751-1801 | A reachable document and an accepted range for which the merge's final comparison fails. |
| Cascade.ClosureLeast | cpp/crdt/src/doc.cpp:371-400 | What an arrival unlocks is the least set of identities that holds the arriving item and every buffered insert whose anchors are present or in the set. |
| Cascade.ArrivalFails | cpp/crdt/src/doc.cpp:364-402 | For every document with a settled buffer of checked inserts: a delivery that integrates its operation fails if and only if some buffered write, not yet applied, targets an unlocked item and the registry refuses it for that item's kind. |
| Cascade.OnlyInsertsUnlock | cpp/crdt/src/doc.cpp:300-343 | A delete or an attribute write unlocks nothing and never fails this way. |
| Findings.StuckHappens | cpp/crdt/src/doc.cpp:364-402 | Two deliveries to an empty document, a write under an unknown name and then its target, that end so. |
| Findings.CascadeHappens | cpp/crdt/src/doc.cpp:364-402 | Three deliveries where no buffered write is to the arriving item: it unlocks a buffered insert, and the write to that one is refused. |
| Findings.ExportHappens | cpp/crdt/src/snapshot.cpp:150-153 | A write under a name of 65 bytes is read from its frame, buffered, and makes every export of the document fail. |
| Stability.RetryErrorKeepsState | cpp/crdt/src/doc.cpp:160-176 | Whenever a delivery integrates its operation and still fails, the operation is applied and the guard flag is up. |
| Stability.StuckBuffer | cpp/crdt/src/doc.cpp:364-369 | With the flag up no retry happens any more: every later delivery leaves all that was buffered in the buffer. |

## Findings

Places where the program does not do what it is for. Each has a lemma with an input and a
result that says for all inputs when the program is right.

| behaviour | input | exactly when |
|---|---|---|
| Reconciliation can lose a block. A document whose first block has no delimiter, where that block is kept without a change of type or attribute but is no longer the first (or becomes an empty first block among others), gets no delimiter for it: an added block swallows it, or it disappears (src/lib/crdt/adapter.ts:206-209, 239). | `Findings.LostHappens`: type "a" into an empty document, then edit to the paragraphs "b", "a" | `Reconcile.ReconcileBlocks`: the result is the editor's document if and only if not `Lost`; `Contents.DelimiterFirst`: never `Lost` behind a leading delimiter |
| The block merge refuses valid ranges. An addition before an implicit first block that stays (or beside it in an empty document) turns that block into a part of the added one, and the command's own comparison then fails (cpp/worker/main.cpp:1751-1801). | `Findings.MisplacedHappens`: the same document, one block added at (0, 0) | `BlockMergePlan.MergeAgrees` and `BlockMerge.MergeBlocks`: a mismatch if and only if `Misplaced` |
| A delivery can fail after it has changed the document, and stop the buffer for good: an error out of the retry leaves the guard flag up (cpp/crdt/src/doc.cpp:364-402), although the header promises that failures leave the state as it was (cpp/crdt/include/concord/crdt/doc.hpp:86-89). | `Findings.StuckHappens`: a write under an unknown name, then its target; `Findings.CascadeHappens`: the same behind a buffered insert | `Cascade.ArrivalFails`: if and only if the arrival unlocks an item, by a chain of buffered inserts or directly, that a buffered write would write to against the registry; in runs of legal operations never (`Buffering.DeliverKeeps`) |
| A restore can separate replicas. Its inserts are anchored to live neighbours and may pass over tombstones that other items hang from; then the order of arrival against a concurrent edit decides (cpp/worker/main.cpp:944-1036). | `RestoreDivergence.RestoreDiverges`: "ab" typed, "c" typed elsewhere behind "b", "d" typed behind "b", "b" deleted and restored | `Separation.SeparatesExactly` and, for the batch, `RestoreLimits.RestoreInsertSeparates`: if and only if the insert passes; never where all items are of replicas at or above the restore band |
| Two restores can separate replicas. All share one replica number, and the scan orders inserts of one replica by their arrival (cpp/crdt/src/doc.cpp:254; cpp/worker/main.cpp:955-1045). | `RestoreDivergence.RestoresTie`: "b" deleted, restored, deleted and restored | `Separation.AnchoredCommute`: if and only if they stand behind one left anchor and have one place |
| A snapshot may be impossible. The reader of operations admits names and values of 1024 bytes, the writer only 64 and 256; a buffered write beyond that makes the export fail (cpp/crdt/src/serialize.cpp:66-77, 126-134, 155-162; cpp/crdt/src/snapshot.cpp:151). | `Findings.ExportHappens` | `Snapshot.ExportExact`, and in runs `RunRecovery.RunExports`: if and only if all that is buffered is within the writer's limits |

Convergence over whole runs covers operations from outside that are well formed and meet no
sibling of their own replica (`Network.Event.Inject`, `Admission.Admits`): the induction over runs
rests on the tree, which the first condition keeps, and on strictly ordered siblings, which the
second keeps.

Where the source's comments and code differ the model follows the code: the scan moves
past siblings of smaller replicas, so they stand on the left, while the comment
at cpp/crdt/src/doc.cpp:253 says larger ones come first.

## Left out

- RestoreReach.ReachableRestores: asks for contiguous restore counters in the current document, as the command's own comment does (cpp/worker/main.cpp:881-893); with a gap the new identities may meet applied ones.
- Admission.AdmitKeepsLog: asks that an outside insert is well formed and meets no sibling of its own replica. An insert that hangs without passing commutes too (Separation.AnchoredCommute), but is not taken into runs; restores one after the other can tie as well as restores computed apart (RestoreDivergence.RestoresTie).
- Cascade.ArrivalFails: asks that one identity means one operation among the arrival and the buffer, and that buffered inserts have passed the checks that stand before the buffer.
- MergeCommand.MergeDiff: asks that a million edits do not carry the document beyond the widths of the encoding, and that no operation of the history bears the maintenance identity, which the worker never publishes.
- Reconcile.ReconcileBlocks: takes the old blocks to be what the stream shows; the branches for an editor that has drifted from the engine (src/lib/crdt/adapter.ts:95, 237, 308) and for characters without a code point are not modelled; an empty `after` is left out, since every document shows at least one block and so can never show it.
- Snapshot.SnapshotRestores: for documents within the widths of the format whose buffer can be written; the sizes are hypotheses, since `nat` has no width here.
- Engine.Replica.ApplyRemote: counters and clocks in memory are unbounded; the limits the program checks (counter exhaustion, field widths) are modelled where it checks them.
- Restore and block merge act on document values rather than on `Engine.Replica` objects: what the commands do to a private copy is the same, and sharing between copies does not occur.
- Snapshots forged with a repeated item id: the restore command is stated for documents with distinct ids, which every run has.
- The attribute registry is two abstract predicates, on names and on values; its concrete tables are not part of this model.
- The enumeration order of hash sets, and of JavaScript object keys, is an arbitrary listing or the ascending one; results do not depend on it.
- Two draft blocks are the same when they are equal values: their JSON signatures, the version counters behind the `stale` flag and the storage keys are not part of this model.
- SHA-256 and hex text: states are compared by their canonical bytes.
- The worker's framing, messages and status numbers, the deterministic operation generator (command 6), WASM bindings, the gateway, storage and user interface.
- Markdown import and export: closing delimiters are found without skipping escapes, so there is no general round trip to prove.
