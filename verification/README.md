# libos in Dafny

A model of the parts of libos that carry state or arithmetic, with proofs of what they promise. Its centre is the
dlmalloc malloc space of `lib/malloc.c`, in the configuration libos builds: extern segments only, no mmap or morecore,
no footers. Around it stand the lockless byte queue, the formatter and number parser, `memcpy` and `memmove`, the boot
segment list, device-tree address translation, the PAMU table and its index allocator, and TLB page selection. Code
that works in place is written as classes, arrays and loops; each such method is proved against a function or a
predicate on values, and the lemmas are about those. Both word sizes are covered at once: `W` is 4 or 8 and nothing
below `ChunkLayout` picks one.

`dafny verify dfyconfig.toml` checks everything.

## How it is laid out

The malloc space, bottom up:

- `ChunkLayout`, `BinMaps`, `BinIndex`, `Alignments`: constants, request padding, words as bits, bin indices, powers
  of two.
- `BoundaryTags`: chunks that tile a segment, and the head and `prev_foot` words that describe the tiling. Every
  operation is a retiling of a stretch of whole chunks; `RetilePhysical` is the one theorem that keeps the tags right.
- `Rings`, `SmallBins`: doubly linked bins, with links that go stale when a bin's map bit is clear.
- `Tries`, `TreeLinks`, `TreeBins`, `TreeSearch`, `BinStore`: the bitwise tries and the rings of equal sizes behind
  their nodes, on parent, child, `fd`, `bk` and index words. `BinStore.Bins` has the loops of the insert, unlink and
  search code.
- `Segments`, `HeapSteps`, `ChunkSteps`, `Creation`, `Coalesce`, `Resizing`, `Growth`, `NewSegment`: what one call
  does to the tiling.
- `Blocks`, `Conservation`: what callers see, and the bytes added up.
- `Storage`: memory as the bytes it began with and every store made since, in order; where each word the allocator
  keeps lies. `LinkStores`, `WordsInUse`, `Stores`: which words an operation stores, which are in use, and what that
  leaves.
- `Mspace`: class `MallocState` with every operation. `Sessions`: whole runs.

The rest: `Bytes`, `RingIndex`, `Queues`, `QueueSteps`; `Memory`, `Numerals`, `Formatter`, `Directives`, `Truncation`;
`AddressCells`, `RangeTranslation`; `BootSegments`; `PageSizes`; `BitFields`, `PamuTable`, `Pamu`; and the PAMU's
loads and stores as steps of calls that interleave, `PamuWords`, `PamuSteps`, `PamuHeld`, `PamuRanges`, `PamuRuns`,
`PamuAlone`.

## Main results

- `Sessions.Run`: for every sequence of malloc, calloc, memalign, realloc, free, `mspace_add_segment` and stores by
  the client into its blocks, the client sees what blocks that each hold what was last stored in them would show. At
  every moment the view is what memory holds, in blocks that do not meet and have the size and alignment asked for. A
  call fails exactly when there is no room, in the terms of the methods below, and `realloc` keeps the common prefix.
  The heap invariant holds between calls and no error action is reached. With all blocks freed a one-segment space has
  its first `topsize` back.
- Every store goes into one log, whether or not it changes a value: the allocator's words, memset, memcpy and the
  client's own, in the order of the source; memory is what the log leaves. Every operation promises `Stores.Frame`:
  each store it makes lies outside every block that is handed out before and after. `Stores.FrameKeeps` draws the
  conclusion.
- `Valid` says that each word in use (heads, the `prev_foot`s of free chunks, links of binned chunks, tree words,
  records) was stored and that nothing was stored over it since. So no two words in use share a byte (`WordsMeetNot`),
  none lies in a block (`WordsOffBlocks`), and reading its place in memory gives what it holds (`MemorySays`,
  `HeadsRead`, `NumbersRead`).
- `MspaceMalloc` fails exactly when the request is too big or nothing free fits; otherwise the chunk it serves is
  settled: a near fit of a small bin, dv, a smallest fit, or top. `MspaceFree` merges to a maximal free run and says
  what is dv then. `InternalRealloc` and `InternalMemalign` likewise, with their exact failure conditions, and blocks
  of the padded size or less than a chunk more.
- `BinStore`: the insert, unlink and search loops refine a map from chunks to sizes, reach no error action, and store
  only link words of binned chunks and of the malloc_state.
- `QueueSteps`: over every interleaving of one producer and one consumer the queue is first in, first out.
- `Directives`: what every format prints, conversion by conversion, in terms of its flags, width, precision and length
  characters alone: the text is a number's digits, sign and padding, and there is one such text.
- `Truncation`, `Formatter`, `Numerals`: truncation refines formatting in full; printing then parsing gives the number
  back; `strtoull` and `strtoll` are told for every text and base.
- `RangeTranslation`: `xlate_one` moves an address by the first range that holds it, with the exact condition.
- `BootSegments`: excluding a range leaves just what lay outside it, with the exact condition.
- `PamuSteps`, `PamuHeld`, `PamuRanges`: calls that configure, enable, disable and retarget LIODNs as single loads and
  stores, in every interleaving. As long as none of the last three is under way on a LIODN while a configuration of it
  is, one call at most claims the LIODN and the entry reads back as asked. Index ranges are disjoint.
  `PamuAlone`: a call that nothing disturbs does what the methods of `Pamu.Tables` do.

## What turned out otherwise

- `create_mspace_with_base` tests the capacity too weakly: it accepts capacities that leave no room for top
  (`Creation.CreateGap`); `Creation.CreateExact` gives the condition under which a space is usable.
  `mspace_add_segment` does not test the size at all (`Creation.AddGap`, `Creation.AddExact`).
- `internal_memalign` does not return for an alignment above half of `size_t`'s range that is no power of two: its
  doubling wraps to zero. `Alignments.DoublingReaches` says that it reaches the others and no such one.
- `sub_reg` drops a borrow into a cell of all ones. `AddressCells.LostWhen` and `SubExact` give the exact condition,
  `RangeTranslation.OnesLoseBorrow` an address that shows it.
- The last check of `xlate_one` reads the entry's size in the parent's number of size cells.
  `RangeTranslation.ReadsInside` says when it stays inside the property and `BehindDecides` shows what lies behind
  deciding; `CheckAgrees` says when the check agrees with one that reads the entry's own size cells and `CheckDiffers`
  shows that it may not.
- `vsnprintf` takes the argument of `%c` only when its character fits (`Formatter.CharTakesArgument`). Truncation
  refines the full output when every `%c` fits or nothing that shows an argument follows the first that does not
  (`Truncation.TruncationRefines`); the arguments left are those of formatting in full exactly when every `%c` fits
  (`ArgumentsLeft`), but for formats in which a star follows a star (`StarsTakeOver`).
- A size of zero makes `vsnprintf`'s limit wrap around: `Formatter.SizeBounds` says that the size bounds the stores
  exactly when it is at least one or nothing is printed, `ZeroSizeStores` shows a store.
- `strtoull` multiplies by the base before it looks at the next character, so "12x" is 120
  (`Numerals.TrailingTimesBase`), and no base below ten has digits (`LowBases`). It reports an overflow exactly when
  some digit makes the number, cut to 64 bits, smaller than it was (`Numerals.RangeWhen`), which not every overflow
  does (`OverflowMissed`). `Numerals.ReadsRight` says when the number in the text is what it returns.
- `malloc_exclude_segment` does not look again at the entry it moves into the place of one that lies inside the range
  (`BootSegments.InsideSkipped`); `WalkClears` gives the exact condition for the range to be gone.
- `queue_init` accepts a size of zero besides the powers of two (`Queues.InitTest`).
- `pamu_enable_liodn`, `pamu_disable_liodn` and `pamu_reconfig_liodn` load and store an entry's words without the lock
  that the claim takes. `PamuRuns.LostClaim` is a run in which two calls claim one LIODN, `LostBase` one in which a
  finished call's window is gone, `DeniedForGood` one in which access stays denied. Two calls claim an entry only in
  runs in which a word of it, loaded while it was free, waits to be stored while a call owns it
  (`PamuSteps.TwoClaimsStale`), and any such state can go on to two claims (`PamuRuns.StaleReopens`).
  `PamuHeld.StoreSpares` says which store keeps an entry's window.
- `pamu_get_fspi_and_allocate` can be made to wrap where `unsigned long` has 32 bits: `PamuRanges.SwapTiles` says a
  grant is sound exactly when the sum does not wrap, `PamuRuns.WrapGrants` is a run from a fresh state that grants a
  range past the table.
- A refused `pamu_config_ppaace` leaves the table alone exactly when the window is bad, the entry missing or busy
  (`Pamu.Tables.ConfigPpaace`); after any other refusal the entry stays claimed, whatever calls follow one after
  another (`Pamu.ClaimedForGood`).
- `pamu_reconfig_liodn` compares page numbers in 32 bits and leaves an entry alone whose page differs only above them
  (`Pamu.RetargetedRight`, `RetargetMissed`). The stored window count is right exactly for powers of two from 2 to
  2^16 (`Pamu.CountRight`, `OneCountWrong`).

## Model

| member | source | states |
|---|---|---|
| Sessions.Run | lib/malloc.c:4559-4783 | Any run of calls and client stores: at every moment the client's view is what memory holds, in disjoint blocks, and every word the allocator has in use is in memory as last stored, apart from the others and from the blocks; each call changes the view just as it must and fails exactly where there is no room; no call makes a store, changed value or not, inside a block that stays, but a client's into its own; the invariant holds; with all blocks freed a one-segment space is back at its first topsize |
| Sessions.CallRealloc | lib/malloc.c:3821-3888 | The client's view of realloc: unchanged exactly when it must fail, else the block replaced by one of the new size that begins as the old one did, all others untouched |
| Sessions.CallMemalign | lib/malloc.c:3892-3975 | The client's view of memalign: unchanged exactly when it fails, else one new block of the size and alignment asked for; no word stored in a block that was there |
| Sessions.HoldsGained | lib/malloc.c:4659-4667 | A chunk that is new, has room for s and was untouched elsewhere extends the client's view by exactly that block |
| Mspace.MallocState.constructor | lib/malloc.c:4455-4478 | A fresh space is valid: its state chunk, one top chunk of the room left over, empty bins |
| Mspace.MallocState.MspaceMalloc | lib/malloc.c:4559-4671 | Null exactly when bytes >= MAX_REQUEST or no free chunk fits and topsize <= nb, and then nothing changed. Otherwise the chunk served is settled but for ties: a small request takes a smallest binned fit when one of nb or nb + 8 bytes is in a small bin, else dv if it fits, else a smallest binned fit; a large one takes a smallest fit, dv before others of its size; top only if nothing else fits. The block is nb bytes, or the whole chunk where the rest would be too small for one; the rest is dv or not as the path demands, the invariant is kept, nothing but words of the allocator is stored, and each of them outside every block |
| Mspace.MallocState.SmallFit | lib/malloc.c:4568-4620 | The small-request paths serve the smallest binned chunk that fits; with dv big enough they do so exactly when that is of the size or the next one up in a small bin, and else change nothing; the rest becomes dv |
| Mspace.MallocState.TakeDv | lib/malloc.c:4631-4649 | Serving from dv splits it or exhausts it, the heap being the old one with that chunk allocated |
| Mspace.MallocState.SplitTop | lib/malloc.c:4651-4661 | Serving from top takes its low nb bytes |
| Mspace.MallocState.TmallocLarge | lib/malloc.c:3708-3778 | Null exactly when dv is as good or no tree chunk fits, and then nothing changed; otherwise the smallest tree chunk of at least nb bytes, its remainder binned, only that chunk's tags and links of binned chunks stored, no error action reached |
| Mspace.MallocState.TmallocSmall | lib/malloc.c:3781-3817 | The smallest tree chunk is served and the rest, if it is a chunk, becomes dv; only that chunk's tags and links of binned chunks are stored, no error action reached |
| Mspace.MallocState.ReplaceDv | lib/malloc.c:2993-3002 | The remainder becomes dv and the old dv goes to its small bin, nothing lost |
| Mspace.MallocState.MspaceFree | lib/malloc.c:4673-4762 | The chunk and its free neighbours become one maximal free chunk, which is top if top was among them, else dv if dv was, else binned; exactly that block is gone, the invariant is kept, no error action reached, nothing but words of the allocator is stored, and each of them outside every block that stays |
| Mspace.MallocState.InternalRealloc | lib/malloc.c:3821-3888 | Null exactly when too big or neither staying nor moving is possible, and then nothing changed; otherwise the block has the padded size or less than a chunk more, whichever way it is served, and just the padded size where a shrunk tail is a chunk or the block grows in place; the first min(old, new) bytes are kept, and the block stays in place exactly when it can shrink or grow into top; every store lies outside what the blocks before and after share |
| Mspace.MallocState.Shrink | lib/malloc.c:3840-3849 | A block that is big enough keeps just the padded size when the rest is a chunk, which is free then, and else all of it; nothing stored in it or in another block |
| Mspace.MallocState.Extend | lib/malloc.c:3850-3860 | A block that top follows grows into it to just the padded size; nothing is stored in it or in another block |
| Mspace.MallocState.Move | lib/malloc.c:3877-3885 | Allocate, copy, free: the new block is new, holds the old bytes, and the old one is gone only if the new one was found; no word stored in another block |
| Mspace.MallocState.InternalMemalign | lib/malloc.c:3892-3975 | Null exactly when the padded request is too big or does not fit; otherwise one new block of at least nb bytes at an address aligned to the request rounded up to a power of two, leader and trailer given back, no word stored in a block that was there |
| Mspace.MallocState.AlignWithin | lib/malloc.c:3915-3971 | An over-sized chunk is left in place when aligned, else from the first aligned spot behind a whole chunk on; the leader goes back, and what is behind nb bytes too if it is more than a chunk; no word stored in another block |
| Alignments.SpotFits | lib/malloc.c:3927-3935 | The aligned spot leaves a leader of at least a chunk, and the over-allocation always leaves nb bytes behind it |
| Alignments.RoundAlignment | lib/malloc.c:3895-3901 | The doubling loop ends and gives the least power of two that is at least the alignment and a chunk |
| Alignments.DoublingReaches | lib/malloc.c:3897-3901 | For an alignment that is no power of two the doubling gets there exactly up to half of size_t's range; above, it never does |
| Alignments.MaskDown | lib/malloc.c:3927-3930 | Masking with minus a power of two rounds down to its multiple |
| Mspace.MallocState.MspaceCalloc | lib/malloc.c:4764-4782 | Null exactly when the true product is too big or does not fit (a wrapped product is caught); otherwise a new block all zero, no word stored in another block |
| Blocks.CallocRequest | lib/malloc.c:4772-4777 | The size and division tests fire exactly for the products that wrap around |
| Mspace.MallocState.StoreByte | lib/malloc.c:1697-1698 | A client may overwrite any usable byte of its block, the next chunk's prev_foot included, without disturbing the heap, a word in use or another block |
| Mspace.MallocState.AddSegment | lib/malloc.c:3345-3395 | The new region becomes top's segment, the old top is retired behind a record and fenceposts up to its end, blocks are unchanged, every word stored is outside them, and the invariant is kept |
| Mspace.MallocState.MspaceAddSegment | lib/malloc.c:4513-4528 | The aligned part of the region is added, least_addr lowered when needed, no word stored in a block |
| NewSegment.SegmentHolding | lib/malloc.c:2132-2142 | Walking the records inside the heap finds the segment that holds an address |
| NewSegment.PlaceRecord | lib/malloc.c:3349-3354 | The record goes to the aligned end of the old segment, or over old top when less than a chunk would be left |
| Mspace.MallocState.Fenceposts | lib/malloc.c:3373-3383 | At least two fenceposts, each with its word stored, one every size_t up to the retired segment's end; nothing else is stored |
| Mspace.MallocState.TailsClear | lib/malloc.c:3373-3383 | No payload reaches the tail of a segment, where the foot of top or the fenceposts are |
| Mspace.MallocState.MemorySays | lib/malloc.c:1872-1882 | In every state the bytes at the place of each word in use, as the stores made left them, are those of the value the operations read |
| Mspace.MallocState.HeadsRead | lib/malloc.c:1732-1735 | Size and both bits of any chunk, read from the bytes of its head, are those the operations use |
| Mspace.MallocState.NumbersRead | lib/malloc.c:1872-1882 | A link, parent, index or prev_foot in use, read from its bytes, is the value the operations use, as far as its width goes |
| Mspace.MallocState.WordsMeetNot | lib/malloc.c:1872-1882 | In every state no two words in use share a byte |
| Mspace.MallocState.WordsOffBlocks | lib/malloc.c:2616-2647 | In every state no word in use shares a byte with a payload |
| Growth.ExtendPhysical | lib/malloc.c:3361-3392 | Retiring old top and adding a region keeps the whole tiling and its tags |
| Creation.CreateExact | lib/malloc.c:4497-4510 | An accepted capacity yields a usable top exactly when eight bytes are left for it after alignment |
| Creation.CreateGap | lib/malloc.c:4502-4503 | Capacities the test accepts that leave nothing, or less than nothing, for top |
| Creation.AddExact | lib/malloc.c:4513-4528 | The new top lies inside the region added exactly when eight bytes are left for it |
| Creation.AddGap | lib/malloc.c:4513-4528 | A region too small for its foot, whose top would have nearly all addresses |
| Mspace.MallocState.AllFreedTop | lib/malloc.c:3257-3269 | With every block of a one-segment space freed, top and topsize are as init_top left them |
| Mspace.MallocState.AllFreedOneLeft | lib/malloc.c:4718-4754 | With every block freed each segment has at most one free chunk |
| Mspace.MallocState.BytesConserved | lib/malloc.c:2786-2815 | Blocks, free chunks, the allocator's own chunks and overhead add up to each segment's size, in every state |
| Conservation.OneFreeLeft | lib/malloc.c:2627-2647 | Two free chunks of a segment without blocks are the same chunk |
| Blocks.PayloadsDisjoint | lib/malloc.c:2616-2624 | No byte is usable through two blocks |
| Blocks.OwnersOnly | lib/malloc.c:2616-2647 | In every state no word in use (heads, links, feet of free chunks, end markers) lies in a payload |
| Stores.FrameKeeps | lib/malloc.c:1663-1668 | Blocks that every store of a stretch of the log spares hold the same bytes after as before |
| Storage.IntactSays | lib/malloc.c:1663-1668 | A word that was stored, and over which nothing was since, reads byte by byte as what was last stored in it |
| Storage.NumberReads | lib/malloc.c:1663-1668 | The bytes of a number, read back, give the number cut to their width |
| WordsInUse.WordsApart | lib/malloc.c:1872-1882 | In a sound layout no two words in use share a byte: heads, prev_foots of free chunks, links, tree words, bins of the malloc_state, fenceposts, end markers and records |
| WordsInUse.WordSpared | lib/malloc.c:2616-2647 | Nor does one of them share a byte with a payload |
| WordsInUse.RetileLegible | lib/malloc.c:2438-2449 | A retiling that stores the heads and the foot it has to leaves every word then in use as last stored |
| WordsInUse.UnlinkLegible | lib/malloc.c:2955-2972 | So does taking a chunk out of the bins |
| WordsInUse.InsertLegible | lib/malloc.c:3007-3056 | So does putting one in with all its words stored, whatever lay there before |
| Stores.OpFrame | lib/malloc.c:1663-1668 | Tags stored in a stretch without blocks and links of binned chunks and of the malloc_state lie outside every block |
| WordsInUse.ExtendLegible | lib/malloc.c:3361-3392 | A new segment's stores (old top's rest, record, fenceposts, new top and its foot) leave every word then in use as last stored |
| Stores.TailClear | lib/malloc.c:3373-3383 | A block's payload ends before the tail of every segment |
| LinkStores.RelinkWords | lib/malloc.c:3119-3139 | The words that relinking a tree node stores are words of large binned chunks and roots |
| LinkStores.SpliceWords | lib/malloc.c:2966-2967 | The words that splicing stores are links of binned chunks or of the bin's header |
| Blocks.MoveKeeps | lib/malloc.c:3880-3882 | Copying min(old payload, new size) bytes into a new block keeps the prefix and every other block's bytes |
| Blocks.CopyBytes | lib/malloc.c:3881-3881 | The copy loop moves exactly n bytes and leaves all others |
| Blocks.KeptMiddle | lib/malloc.c:3964-3971 | Giving leader and trailer back leaves just the aligned block more than before |
| Coalesce.RunIsKnown | lib/malloc.c:4688-4748 | The stretch that the boundary tags on both sides delimit is a maximal run of free chunks round the one freed |
| Coalesce.RunIsFreed | lib/malloc.c:4688-4751 | Retiling that stretch as one free chunk is the freed heap |
| BoundaryTags.HeadRoundTrip | lib/malloc.c:1728-1738 | Size, CINUSE and PINUSE read back from a head word as written |
| BoundaryTags.RetilePhysical | lib/malloc.c:2438-2449 | Replacing whole chunks by one or two others, with the head and foot words rewritten so, keeps tiling, tags, and no two adjacent free chunks |
| BoundaryTags.RetileTiled | lib/malloc.c:1753-1761 | Chunks still tile each segment after a retiling |
| BoundaryTags.FreePinuse | lib/malloc.c:2627-2647 | A free chunk's head says that the chunk before it is in use |
| HeapSteps.RetileSpace | lib/malloc.c:2786-2843 | Every free chunk but top is still exactly one of dv, in hand, or in one bin after a retiling |
| HeapSteps.ChosenBinned | lib/malloc.c:4568-4629 | The smallest binned chunk that fits is the choice asked for: among bins alone for a small request, among bins and dv for a large one |
| Coalesce.DvIsMerged | lib/malloc.c:4700-4745 | The free chunk that took the old dv in is dv, unless it is top |
| Segments.RetileCovered | lib/malloc.c:2582-2599 | Every chunk stays inside one segment |
| BinStore.Bins.InsertSmallChunk | lib/malloc.c:2936-2952 | Exactly the chunk is added, map bit and ring links right, stale links of an unmarked bin ignored; only links of binned chunks and of the malloc_state are stored |
| BinStore.Bins.UnlinkSmallChunk | lib/malloc.c:2955-2972 | Exactly the chunk is removed; only links of binned chunks and of the malloc_state are stored |
| BinStore.Bins.UnlinkFirstSmallChunk | lib/malloc.c:2975-2989 | The first chunk of a marked bin, of that bin's size, is removed |
| BinStore.Bins.InsertLargeChunk | lib/malloc.c:3007-3056 | The descent ends within the key's bits and adds exactly the chunk: new root, new leaf, or second in the ring of its size; trie order and all links kept; only links of binned chunks and of the malloc_state are stored, no error action reached |
| BinStore.Bins.UnlinkLargeChunk | lib/malloc.c:3075-3144 | Chained, leaf, root and rightmost-leaf cases remove exactly the chunk and keep trie order, links, one node per size, and the treemap bit; only links of binned chunks and of the malloc_state are stored, no error action reached |
| BinStore.Bins.FindLeaf | lib/malloc.c:3090-3097 | The replacement found is a leaf below the node, with the slot that holds it |
| BinStore.Bins.FollowPath | lib/malloc.c:3715-3737 | Following nb's bits and the deepest untaken right subtree leaves the best fit so far and a subtree that holds any better one |
| BinStore.Bins.SearchLarge | lib/malloc.c:3709-3756 | The smallest tree chunk of at least nb bytes, or none exists |
| BinStore.Bins.SearchSmall | lib/malloc.c:3785-3797 | The smallest tree chunk of all |
| BinStore.Bins.SmallBelow | lib/malloc.c:4573-4577 | The remainderless test finds the first marked bin of the two, all lower ones being empty or too small |
| TreeSearch.PathStep | lib/malloc.c:3719-3736 | One step down keeps: a better fit lies ahead on the path or in the remembered right subtree |
| TreeSearch.StepWalk | lib/malloc.c:3749-3756 | One leftmost step keeps: the minimum lies here, already seen, or below |
| TreeBins.UnchainForest | lib/malloc.c:3078-3088 | Unlinking a chained chunk splices its ring only |
| TreeBins.PromoteForest | lib/malloc.c:3105-3143 | The bk neighbour of a ring's head takes its place in the tree |
| TreeBins.SubstituteForest | lib/malloc.c:3089-3143 | The rightmost leaf takes an inner node's place with trie order kept |
| TreeBins.PruneForest | lib/malloc.c:3089-3110 | A leaf is removed |
| TreeLinks.ReplaceLinked | lib/malloc.c:3119-3139 | Relinking a node's parent and children to its replacement keeps every link word right |
| BinIndex.TreeIndexMeans | lib/malloc.c:2273-2284 | A size is in tree bin I exactly when minsize(I) <= size < minsize(I+1) |
| BinIndex.LowerBinSmaller | lib/malloc.c:2315-2317 | Sizes of a lower bin are smaller |
| BinIndex.KeyBit | lib/malloc.c:3022-3026 | The top bit of the shifted key is the next bit of the size's prefix |
| BinIndex.RootPrefix | lib/malloc.c:2306-2312 | The bits above those the trie resolves are the same for every size of a bin |
| BinMaps.FirstMarked | lib/malloc.c:2334-2358 | least_bit then compute_bit2idx is the first marked bin |
| BinMaps.LeftMarked | lib/malloc.c:2360-2361 | left_bits masks exactly the bins above |
| BinMaps.MarkClear | lib/malloc.c:2323-2332 | Marking and clearing change one bin's bit |
| BinMaps.WindowNext | lib/malloc.c:4589-4595 | The shifted map, left_bits and least_bit together agree with a linear scan for the next non-empty bin |
| BinMaps.WindowHit | lib/malloc.c:4575-4577 | The two-bit test agrees with looking at the two bins |
| ChunkLayout.Request2Size | lib/malloc.c:1707-1712 | A padded size is aligned, at least a chunk, has room for the request, and is the least such |
| Rings.RemoveRing | lib/malloc.c:2966-2967 | Splicing a node out leaves the ring of the others |
| Queues.Queue.Read | lib/queue.c:60-87 | The first min(len, available) bytes, in order across the wrap; taken off the queue unless peeking |
| Queues.Queue.ReadChar | lib/queue.c:131-145 | The oldest byte, or nothing when empty |
| Queues.Queue.Write | lib/queue.c:147-172 | The first min(len, space) bytes are appended |
| Queues.Queue.WriteChar | lib/queue.c:197-207 | One byte appended unless full |
| Queues.Queue.Discard | lib/queue.c:383-392 | The first min(num, available) bytes go |
| Queues.Queue.Purge | include/libos/queue.h:231-234 | The queue is empty |
| Queues.QueueToQueue | lib/queue.c:317-381 | The first min(len, available, space) bytes move in order across both wraps; without peek destination followed by source is unchanged as a sequence |
| Queues.QueueToChardev | lib/queue.c:271-315 | Exactly the first min(len, available) bytes are handed to the device in order, and leave the queue unless peeking |
| Queues.InitTest | lib/queue.c:38-52 | The size test passes exactly the powers of two and zero |
| Queues.SpaceLeft | include/libos/queue.h:199-217 | Space and available bytes add up to the size less one; empty is head equal to tail |
| RingIndex.WrapMeans | include/libos/queue.h:194-197 | Masking is the remainder by the ring's size, for indices below zero too |
| QueueSteps.InOrderAlways | lib/queue.c:60-172 | In every interleaving the bytes consumed are a prefix of those produced, the rest is in the ring, and at most size - 1 bytes are held |
| QueueSteps.StaleIsSafe | lib/queue.c:72-87 | An index loaded earlier only under-reports data or space |
| QueueSteps.NeverSameCell | lib/queue.c:147-172 | Neither side touches a cell the other may use |
| QueueSteps.RunKeeps | lib/queue.c:197-207 | The invariant holds after any steps of the two sides |
| Memory.MemCpy | lib/string.c:51-90 | The word-at-a-time copy is a snapshot copy for destinations below the source or clear of it |
| Memory.MemMove | lib/string.c:92-105 | A snapshot of the source for every overlap and alignment, all else unchanged; section 7.24.2.2 of ISO/IEC 9899:2011 |
| Memory.MoveBack | lib/string.c:92-105 | Moving there and back restores the bytes |
| Numerals.StrToULL | lib/string.c:290-327 | A text without digits is invalid; otherwise the number its leading digits say, cut to 64 bits, and times the base when another character follows; or, only for a number that does not fit, a range error before its end |
| Numerals.ReadsRight | lib/string.c:290-327 | In base 10 or 16 the number in the text is returned exactly when there is one, it fits 64 bits, and it ends the text or is zero |
| Numerals.RangeWhen | lib/string.c:313-317 | A range error is reported exactly when some digit makes the number, cut to 64 bits, smaller than it was, and at the first such digit |
| Numerals.UnsignedReads | lib/string.c:290-327 | All that strtoull may say of any text: invalid without a digit; a range error at the first digit that makes the cut number smaller; or else what is left of the number, behind its digits |
| Numerals.SignedReads | lib/string.c:329-354 | All that strtoll may say of any text: invalid exactly without a digit behind an optional minus; no error exactly when no digit makes the cut number smaller and what strtoull leaves fits, the value then having its sign; otherwise a range error, with zero or the value wrapped around; and where it ends |
| Numerals.DigitsAre | lib/string.c:302-311 | In bases 10 to 36 the digits are the first so many of 0 to 9 and a to z in either case, each worth its place; any other character stops the number |
| Numerals.TrailingTimesBase | lib/string.c:302-311 | A text read as ten times its number |
| Numerals.OverflowMissed | lib/string.c:313-317 | A number past 64 bits that is read without a range error |
| Numerals.LowBases | lib/string.c:294-311 | Below base ten every text is invalid |
| Numerals.PrintParse | lib/string.c:290-327 | strtoull reads back the digits of every 64-bit number, base 10 or 16, either case, with errno 0 |
| Numerals.PrintParseSigned | lib/string.c:329-354 | strtoll reads back every long long, the minimum included |
| Numerals.FillDigits | lib/sprintf.c:106-118 | The do-while loop fills the buffer's end with the number's digits |
| Formatter.PrintfString | lib/sprintf.c:65-74 | As much of the text as fits is stored and the position advances by all of it |
| Formatter.PrintfFill | lib/sprintf.c:76-85 | The same for a run of one character |
| Formatter.PrintfNum | lib/sprintf.c:87-170 | What is stored is the cut of one text: sign, prefix, padding, zeros, digits |
| Formatter.Vsnprintf | lib/sprintf.c:172-444 | Memory from the buffer on holds the full output cut to size - 1 characters, in unsigned arithmetic, character by character, and for a size above zero a NUL; all else is untouched; the result is the full length (Directives.FormatSays says what the output is) |
| Directives.FormatSays | lib/sprintf.c:172-444 | What any format of conversions, with flags, width, precision, stars and length characters, and of text between them prints, told apart from the scanner: each piece says its text of the arguments the ones before it left; section 7.21.6.1 of ISO/IEC 9899:2011 |
| Directives.ConversionSays | lib/sprintf.c:187-437 | Anywhere in a format, d, i, u, o, x, X and p print the argument cut to the type named, as digits of the radix in the right case that are that number, behind sign, 0x, padding and precision zeros, spread to the width on the side asked for; s the string cut to the precision and padded; c one character; n nothing; any other letter itself; and so many arguments are taken |
| Directives.OneSays | lib/sprintf.c:187-437 | The same of one conversion as the whole format, for any arguments |
| Directives.SaysOnce | lib/sprintf.c:187-437 | What a conversion is said to print is one text |
| Directives.NumberShown | lib/sprintf.c:87-170 | printf_num's sign, prefix, padding, zeros and digits for every value, radix, width, precision and flags |
| Directives.DigitsAreNumeral | lib/sprintf.c:106-118 | The digits printed read as the number, digit by digit, without leading zeros, in the case asked for |
| Formatter.SizeBounds | lib/sprintf.c:172-444 | The size bounds the stores exactly when it is at least one or nothing is printed |
| Formatter.ZeroSizeStores | lib/sprintf.c:172-444 | A character stored in a buffer of size zero |
| Truncation.TruncationRefines | lib/sprintf.c:172-444 | When every %c fits, or nothing that shows an argument follows the first that does not, the length and every character that fits are those of formatting without a limit; section 7.21.6.5 of ISO/IEC 9899:2011 |
| Truncation.NoCharRefines | lib/sprintf.c:172-444 | The same for every format without the letter c, whatever the size and the arguments |
| Truncation.ArgumentsLeft | lib/sprintf.c:363-371 | With enough arguments, those left are those of formatting without a limit exactly when every %c fits |
| Truncation.StarsTakeOver | lib/sprintf.c:172-444 | A format with two stars in a row for which that is not so |
| Formatter.CharTakesArgument | lib/sprintf.c:172-444 | A format and arguments whose length depends on the size |
| Formatter.PrintfNumParse | lib/sprintf.c:87-170 | What printf_num prints without flags strtoull reads back |
| Formatter.PrintfNumParseSigned | lib/sprintf.c:87-170 | What it prints of a long long strtoll reads back |
| AddressCells.SubReg | example/src/init.c:137-148 | The 128-bit difference plus what dropped borrows are worth, and the final borrow |
| AddressCells.SubExact | example/src/init.c:137-148 | Difference and sign are right exactly when no borrow is dropped |
| AddressCells.LostWhen | example/src/init.c:142-145 | A borrow is dropped exactly at a cell of all ones above a tail that borrows |
| AddressCells.AddReg | example/src/init.c:150-161 | The sum in the last naddr cells, and whether it carries out of them |
| AddressCells.CompareReg | example/src/init.c:166-195 | True exactly when base <= address < base + size as 128-bit numbers, sums beyond 128 bits included |
| AddressCells.CopyVal | example/src/init.c:129-135 | Cells padded in front with zeros |
| RangeTranslation.FindRange | example/src/init.c:198-223 | The first entry that holds the address, an error for a partial entry, or none |
| RangeTranslation.XlateOne | example/src/init.c:229-273 | The address moves from the first entry's child base to its parent base exactly when no borrow is dropped; malformed, untranslatable and done are decided by the exact conditions, the last check reading on behind the property when it has to |
| RangeTranslation.ReadsInside | example/src/init.c:263-270 | The cells the last check reads lie in the property exactly when it goes on for the parent's size cells |
| RangeTranslation.InsideDecides | example/src/init.c:263-270 | Then nothing behind the property matters |
| RangeTranslation.BehindDecides | example/src/init.c:263-270 | A property whose translation what lies behind it decides |
| RangeTranslation.CheckAgrees | example/src/init.c:263-270 | The check agrees with one of the entry's own size cells exactly when the two numbers fall on the same side of the room left |
| RangeTranslation.CheckDiffers | example/src/init.c:263-270 | An entry on which the two differ |
| RangeTranslation.NoOnesNothingLost | example/src/init.c:142-145 | Without an all-ones cell in the base no borrow is dropped, whatever the address |
| RangeTranslation.OnesLoseBorrow | example/src/init.c:137-148 | An address and base that lose a borrow, 2^64 too much |
| BootSegments.SegmentList.AddSegment | lib/malloc-wrapper.c:71-82 | Appended while the list is not full |
| BootSegments.SegmentList.ExcludeSegment | lib/malloc-wrapper.c:84-106 | The list is that of Walk: each segment is kept, cut or split as the range demands, and one inside the range gives way to the last |
| BootSegments.WalkKeeps | lib/malloc-wrapper.c:84-106 | The list stays one of disjoint segments |
| BootSegments.WalkCoversLess | lib/malloc-wrapper.c:84-106 | Nothing is covered that was not |
| BootSegments.WalkCoversRest | lib/malloc-wrapper.c:84-106 | All outside the range stays covered, if the list has room for what a split adds |
| BootSegments.WalkClears | lib/malloc-wrapper.c:84-106 | Nothing of the range is left exactly when, q segments lying inside it, none of the last q meets it but perhaps the first of them, and that from inside |
| BootSegments.InsideSkipped | lib/malloc-wrapper.c:102-104 | Two segments inside the range of which one stays |
| BootSegments.AllocSegment | lib/malloc-wrapper.c:44-69 | Succeeds exactly when some segment has a place; the block is the lowest aligned place of the first such segment, the list stays disjoint and covers the old addresses less the block (a subset when it is full) |
| BootSegments.FitsMeans | lib/malloc-wrapper.c:52-63 | The masking and the two tests, in unsigned arithmetic, find the lowest aligned address with room in a segment exactly when there is one |
| PageSizes.MaxValidMeans | include/libos/fsl-booke-tlb.h:264-269 | The largest supported size at most the given one |
| PageSizes.MaxPageSizeMeans | include/libos/fsl-booke-tlb.h:290-295 | The largest supported size whose pages divide start and are at most num |
| PageSizes.TilingTiles | include/libos/fsl-booke-tlb.h:278-295 | Mapping the largest page each time tiles the range exactly and ends |
| BitFields.ReadBack | include/libos/libos.h:81-86 | A field reads back what was stored, cut to its width |
| BitFields.OthersKept | include/libos/libos.h:81-86 | Storing one field leaves the fields apart from it |
| PamuTable.BasedMeans | lib/pamu.c:342-344 | Splitting a window address over two words loses just the offset in a page |
| PamuTable.TranslatedMeans | lib/pamu.c:376-379 | Splitting a page number over two words keeps its low 52 bits |
| Pamu.WindowTest | lib/pamu.c:311-321 | The two mask tests accept exactly the windows of a power of two, at least a page, aligned to their size |
| Pamu.WseMeans | lib/pamu.c:46-52 | 2^(WSE+1) is the window's size, and WSE is never the zero of a free entry |
| Pamu.CountRight | lib/pamu.c:53-57 | The stored window count is right exactly for powers of two from 2 to 2^16 |
| Pamu.OneCountWrong | lib/pamu.c:53-57 | One subwindow is stored as 2^16 |
| Pamu.Tables.ConfigPpaace | lib/pamu.c:302-387 | Bad window, missing entry and busy entry change nothing; in every other case the entry is claimed, refused or not, result, entry and index are those of Configured, and no other entry changes; the result is ERR_BADTREE for a mapping index of 16 or more but all ones, ERR_INVALID when the indices run out, else 0 |
| Pamu.ClaimedForGood | lib/pamu.c:302-387 | After a call that found its entry free, refused or not, and any calls since, each after the other, a call for the same LIODN finds it busy |
| Pamu.ConfiguredReads | lib/pamu.c:302-387 | A configured entry decodes to the requested base, size and, exactly when it has at most 52 bits, page number |
| Pamu.ConfiguredSays | lib/pamu.c:302-387 | Result, index and every other field of the entry, field by field: what a refusal leaves unstored, which identifiers are stored, and what only a successful call stores |
| Pamu.Tables.GetFspiAndAllocate | lib/pamu.c:567-582 | The old index and the index moved on, or nothing when the sum is past the table |
| Pamu.Tables.EnableLiodn | lib/pamu.c:66-87 | Only a configured entry is marked valid, nothing else in it changes |
| Pamu.Tables.DisableLiodn | lib/pamu.c:95-107 | The valid bit is cleared, nothing else changes |
| Pamu.Tables.ReconfigLiodn | lib/pamu.c:476-498 | Unless the entry's low 32 bits of page are the page asked for, and then nothing changes, the entry has the page's low 52 bits, all accesses permitted and translation on, and is otherwise as it was |
| Pamu.RetargetedRight | lib/pamu.c:484-494 | The entry ends on the page asked for exactly when the page has at most 52 bits and the old one did not differ from it above 32 bits only |
| Pamu.RetargetMissed | lib/pamu.c:484-494 | An entry that stays on page 2^32 + 5 when asked to move to page 5 |
| Pamu.CurrentIsLow | lib/pamu.c:484-484 | The page that is compared is the entry's page cut to 32 bits |
| PamuSteps.AtMostOneClaim | lib/pamu.c:323-338 | In every interleaving of single loads and stores in which no word of an owned entry, loaded while the entry was free, is about to be stored, at most one call claims the LIODN |
| PamuSteps.TwoClaimsStale | lib/pamu.c:95-107 | Where two calls own a LIODN, its entry was owned at some point on the way while an unlocked call was about to store a word loaded when it was free |
| PamuRuns.StaleReopens | lib/pamu.c:95-107 | From every such point that a run reaches, a run goes on to two calls that own the LIODN |
| PamuRuns.LostClaim | lib/pamu.c:95-107 | From every initial state with a free entry, a run of a disable and two configurations that both claim it |
| PamuHeld.ApartOneClaim | lib/pamu.c:323-338 | One claim at most when no enable, disable or retarget of the LIODN is under way while a configuration of it is |
| PamuHeld.FinishedReads | lib/pamu.c:302-387 | In every interleaving of that kind a finished call's entry holds its window, identifiers, and index range or, until retargeted, page; all accesses are permitted unless retargets overlapped with other calls or one is under way |
| PamuHeld.StoreSpares | include/libos/libos.h:81-86 | The store of an enable, disable or retarget keeps the entry's window size and base exactly when the word it loaded has them still |
| PamuRuns.LostBase | lib/pamu.c:66-87 | A run in which an enable between a claim and the stores after it leaves the finished entry's base at zero |
| PamuRuns.DeniedForGood | lib/pamu.c:476-498 | A run in which a retarget and a disable that overlap leave access denied when both are over |
| PamuWords.StageStores | lib/pamu.c:302-387 | Undisturbed, the single stores of a stage of a configuration make of the entry what the whole call makes of it |
| PamuWords.EnableStores | lib/pamu.c:84-84 | Or-ing in the valid bit is setting its field |
| PamuWords.RetargetStores | lib/pamu.c:486-493 | Undisturbed, the single stores of a retarget replace the page and give the permissions back |
| PamuWords.RetargetMeans | lib/pamu.c:486-493 | They leave the entry with the new page, all accesses permitted and translation on |
| PamuAlone.ConfigAlone | lib/pamu.c:302-387 | From any state that a run reaches with the lock free and the entry free, the steps of one configuration alone end with the result, entry and index of Pamu.Tables.ConfigPpaace |
| PamuAlone.RefusedAlone | lib/pamu.c:311-334 | And for a bad window, a missing entry or a busy one with its refusal, nothing stored |
| PamuAlone.TouchDoes | lib/pamu.c:66-107 | From any state, the steps of one enable, disable or retarget alone leave in the entry what the methods of Pamu.Tables do |
| PamuRanges.RangesApart | lib/pamu.c:567-582 | In every interleaving of loads and swaps the ranges granted are disjoint, inside the table, and add up to the index |
| PamuRanges.SwapTiles | lib/pamu.c:571-579 | A successful swap keeps that exactly when the sum does not wrap |
| PamuRanges.WideCountFits | lib/pamu.c:576-576 | With a 64-bit unsigned long no request wraps the index |
| PamuRanges.StepKeeps | lib/pamu.c:302-387 | Every load and store of a call keeps the invariant of the index and the ranges |
| PamuRuns.WrapGrants | lib/pamu.c:576-579 | A run from a fresh state, where unsigned long has 32 bits, in which a request that wraps is granted a range past the table's end and the index ends inside the first range |

## Left out

- Memory as the only place the allocator reads from: it reads maps that hold what was last stored in each word.
  `Mspace.MallocState.MemorySays` says that memory holds the same for every word in use. Where `realloc` and
  `memalign` cut a block or grow it into top, the word at the cut, which a client may have written, is read from the
  bytes. The scalar fields of the malloc_state (dv, top, the maps, the head segment) are fields of the class and not
  bytes; its chunk is clear of all blocks. What a new space's chunks hold besides is what the memory given held.
- Locks, interrupt save and restore, and memory barriers: a malloc call is one step; queue and PAMU calls go by single
  loads and stores, sequentially consistent; `compare_and_swap` is one step.
- mmap, morecore, footers, the global `dlmalloc`, trimming and system allocation (none of them built), and statistics,
  footprint, mallopt, independent allocations, and the magic and mutex checks of an mspace.
- Calls of the client that break the library's rules (double free, stores past a block): they are not made.
- `mspace_realloc`'s handling of a null pointer: it is `mspace_malloc`.
- Mspace.MallocState.InternalMemalign: requires an alignment of at most half of `size_t`'s range; for the others, none
  a power of two, the source does not return (`Alignments.DoublingReaches`).
- Mspace.MallocState.MspaceAddSegment: requires what the source takes for granted: a region apart from the others,
  with room for a top chunk and its foot; `Creation.AddExact` has the exact condition.
- Mspace.MallocState.constructor: requires room for a top chunk; `Creation` has the exact condition.
- `queue_memchr`, `memchr` and `memrchr`, and the blocking queue calls, which need a scheduler.
- Queues.Queue.Read: notification callbacks of the other side are not modelled, here and in the other queue calls.
- QueueSteps.InOrderAlways: the producer's bytes are fixed when it loads the consumer's index; the words around the
  queue are taken to be atomic.
- Memory.MemCpy: requires what the source's callers owe, a destination that does not start inside the source.
- Formatter.Vsnprintf: `%n`'s store is not modelled, `'` is read and ignored as in the source, and an argument that is
  missing or of the wrong kind counts as zero or null. The order of padding and sign is the source's, which is not the
  one of ISO/IEC 9899.
- Directives.FormatSays: covers conversions ordered as the standard orders them; of others (a star behind a width, a
  flag behind a precision, a format that ends within one) `Formatter.Full` says what the scanner does, and no more.
- Numerals.DigitsAre: bases above 36, for which the source goes on past z, are covered by `CharValue` alone.
- Formatter.PrintfNum: width, precision, padding and output position are unbounded integers, here and in the other
  members; the wrap-around of the source's `int` and `size_t` is not modelled.
- BootSegments.AllocSegment: requires a size above zero and an alignment of zero or a power of two.
- PageSizes.MaxPageSizeMeans: for a start of zero sizes above 1T do not count, as in the source.
- Pamu.Tables.ConfigPpaace: requires a window whose number of pages fits an `unsigned long`, since the zero count of
  zero is undefined.
- PamuRanges.RangesApart: requires requests whose sum with the table's size fits an `unsigned long`, always so when
  that has 64 bits; `PamuRanges.SwapTiles` says why.
- Secondary PAMU entries, operation mapping tables, PAMU registers and interrupts.
- lib/readline.c, lib/console.c, lib/stdio.c, device drivers, hypercalls, assembly, libfdt, and TLB and SPR writes.
