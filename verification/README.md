# Kernel invariants of EmuTOS, in Dafny

Five parts of the GEMDOS (`bdos/`) and of the AES (`aes/`) keep state whose size nothing bounds:
the FAT file stack, object trees, the windows' rectangle lists, the user memory allocator and the
AES dispatcher with its events. This project models each of them in the form the C code has, and
proves what it keeps over any run.

**The FAT file stack** (`Shift`, `Media`, `BufferCache`, `FatTable`, `Chains`, `FatOps`, `FileData`,
`FileIo`, `FileOps`) is a refinement in layers. `BufferCache.Cache` has the two buffer lists and the
disks, and a ghost `vol`, the sectors a program would see without any cache. Every method keeps
`CacheOk`: a buffer that is not held is equal on disk, no sector is held twice, and the two copies of
the FAT are equal. `FatTable.Fat` reads the table of links out of `vol`, `Chains.IsChain` reads a file
out of the table, and `FileData.Content` reads the bytes out of the chain. The file calls are stated
on those bytes. The convention "on a boundary, point at the cluster before it" is `FileIo.AtPos`: the
descriptor is on chain element j - 1 = (bytnum - 1) / clsizb, and its offset is where in that element
the position is, 0 and clsizb both being possible. The FAT12 layout is that of section 4.1 of the
Microsoft FAT Specification (August 2005).

**Object trees** (`ObjTree`, `TreeWalk`, `TreeFind`, `TreeEdit`): an array threaded through next, head
and tail, with the child lists beside it as a ghost. The goto walk is proved against the preorder of
the child lists, by the list of calls still to come. Where an operation can leave its arrays, a result
`inside` (or `safe`, for a message pipe) says whether it does, the contract says exactly when, and the
model stops before the access that C leaves undefined.

**Rectangle lists** (`Rects`, `Visible`, `OrectPool`, `WinRects`): the lists and the pool hold node
numbers into one array, and are spliced as in the C code. The result is `WinRects.Partition`.

**User memory** (`OsMem`, `MemLists`, `UserMem`): the free and allocated lists of one pool, with
descriptors that come out of three-slot blocks. "The lists tile the region" is stated by counting, for
each address, the blocks that hold it.

**The AES kernel** (`Pools`, `DelayList`, `AesEvents`, `AesProcs`, `AesWaits`, `AesPipes`, `AesSystem`,
`AesSteps`, `AesStore`, `AesForks`, `AesAsks`, `AesKernel`): `AesSystem.Sys.Ok` is the invariant of a system of any number of
processes, `AesKernel.Kernel` the code, and `AesKernel.Kernel.Run` any run of it. A message pipe is seen
at three levels. `PipeBytes` has the 128 bytes and what `doq()` does to them, whatever is written: where
its search for a message to merge with leads, whether it stays inside and whether it ends. `PipeLine` has
only the counts, of what is queued and of those that wait, and says when nobody is left behind. `MsgPipe`
has messages that say how long they are, and `MsgPipe.WriteRefines` shows that on those the bytes do what
it says. `AesPipes`, `AesSteps` and `AesStore` show that the kernel takes just these steps. `Rings` is the
ring whose contents the kernel keeps as a process's keys and as the fork ring.

A call that blocks is split at the context switch, as the processor splits it: the first half ends with
the process asleep, and any number of other steps may follow before the second half, which starts from
the invariant alone. `Sys.Ok` says what a sleeping process may count on: its event blocks are the ones it
asked for, and it is not run before one of them is completed. Interrupts enter as a parameter, the
entries they put in the fork ring before each step and before each poll. A run of the dispatcher is the
list of its turns (`AesForks.Loop`), and `AesForks.WaitEnds`, `TimerEnds` and `Wakes` say what all that was
in the ring, and all that came in meanwhile, comes to for each wait, each timer and each sleeping process.

The C code's pointers into lists become positions in sequences, and its shifts and masks by a power of
two become `Shift.Mul`, `Quo` and `Rem`, which `Shift.MulIsProduct` and `Shift.QuoRemAreDivMod` tie to
multiplication and division.

Where the code does not do what one would expect, the model follows the code:

- A request for memory within the alignment of the largest LONG is rounded to a negative size
  (`MemLists.RoundUp`, an if-and-only-if), which the first free block satisfies, and the lists are
  spoilt (`MemLists.TooLarge`). Cutting a block keeps the lists exactly when the new length lies strictly
  inside it (`MemLists.TakenOnlyIf`, `MemLists.ShrunkOnlyIf`).
- OBJC_DRAW hands the application's depth to `everyobj()`, whose arrays end at MAX_DEPTH + 1 levels.
  The walk stays inside exactly when no object it comes to lies deeper (`ObjTree.EveryObj`,
  `TreeWalk.RootFits`); ten nested objects drawn to a depth of 9 run past the end (`TreeWalk.StalkFails`).
- `ob_order()` on an only child leaves links that fit no child lists, or, with NIL for the index, writes
  at `tree[-1]`; `TreeEdit.ObOrder` says so for every only child, and keeps the threading for all others.
- WF_TOP is guarded only against the window that is on top already. For an open window that keeps it off
  the only-child case (`WinRects.FlagsTop`). A window in use that is not open is in no child list:
  `get_par()` leaves the tree at once for a new one (`WinRects.TopOfNew`); the links of a closed one lead out
  of the tree as well or in a circle, or to an open window, and then the closed one is put on the screen. `WinRects.Screen.WmTop` has the
  exact conditions; the state stays as it should be exactly for open windows and the desktop.
- `wm_delete()` on a window that was given a size without being opened keeps a rectangle node for the
  dead handle, and the lists of all other windows miss the area (`WinRects.HoleIs`,
  `WinRects.DeleteOfNew`); `WinRects.Screen.WmDelete` has the exact condition.
- `aqueue()` tests a write against the room there is, and a read only for something to be queued. A read
  of more than that, or a served waiter whose count does not fit, leaves the buffer (`PipeLine.Unchecked`).
- `doq()` looks at the first word of every message, and at 16 bytes of one that it merges, even if fewer
  were written: near the end of the buffer it looks beyond (`PipeBytes.TooShort`, `PipeBytes.FullPipe`).
  Its search goes by the third words of the queued messages, which are the applications' own: behind a
  message that says -16 it never ends, behind one that says -32 it leaves the buffer
  (`PipeBytes.FalseLength`). The exact condition is `PipeBytes.DoqIff`, with the places the search comes by
  (`PipeBytes.SearchIff`); `AesKernel.Kernel.Aqueue` is safe exactly then. With messages of 16 bytes whose
  third word is 0, as the AES itself sends them, no run leaves a pipe or hangs (`AesStore.PlainPasses`,
  `AesKernel.Kernel.Run`).
- One call serves one waiter, and the short cut of `ap_rdwr()` none. So a reader can wait beside a message
  and a writer beside room for it (`PipeLine.LeftBehind`, exact condition in `PipeLine.FlowingIff`).
- A window of negative size, which `wind_open()` and `wind_set()` accept, makes lists that hold points twice
  when it crosses what is left of a window below; `Visible.SplitUpIff` has the exact condition.
- `unsync()` does not look at who calls: any process can give up a semaphore that another one holds
  (`AesKernel.Kernel.Unsync`).
- A slider or arrow message for a window whose redraw is queued is swallowed by the redraw
  (`MsgPipe.Swallowed`, `MsgPipe.SliderLost`), though no redraw is lost (`MsgPipe.RedrawsKept`) unless the
  union runs over a WORD (`MsgPipe.UnionCovers` has the exact condition, `MsgPipe.RedrawLost` the loss). A
  longer message copied over an arrow message spoils the lengths in the pipe (`MsgPipe.WrittenFramed`).
- Linking a new cluster before its end marker is written would break the chain as a program sees it
  (`Chains.LinkFirstBreaks`); the code writes the end marker first, and no chain is broken at the step
  between (`Chains.MidAppend`). In which order the cache writes the two sectors to the disk is another
  matter, which neither says anything about.

## Model

| member | source | states |
|---|---|---|
| Shift.MulIsProduct | bdos/fs.h:245-256 | the shifts by the logarithm of a size are multiplication |
| Shift.QuoRemAreDivMod | bdos/fs.h:245-256 | the shifts and masks by a power of two are division and remainder |
| BufferCache.Cache.constructor | bdos/fsbuf.c:120-139 | an empty cache over disks whose FAT copies agree is transparent |
| BufferCache.Cache.Flush | bdos/fsbuf.c:85-105 | the buffer is clean afterwards, the disk has its data (both FAT copies), the uncached view is unchanged |
| BufferCache.FlushStep | bdos/fsbuf.c:85-105 | writing one buffer out keeps every sector either cached or equal on disk, and no other buffer's data |
| BufferCache.FlushKeepsMirror | bdos/fsbuf.c:95-102 | the two copies of the FAT stay equal on disk |
| BufferCache.Cache.GetBcb | bdos/fsbuf.c:114-202 | the wanted sector is at the front of its list, whichever buffer had to go for it, and no sector is held twice |
| BufferCache.Cache.Search | bdos/fsbuf.c:123-139 | finds the buffer of a sector if there is one, else the last invalid one or the least recently used |
| BufferCache.ToFrontOk | bdos/fsbuf.c:193-199 | relinking a buffer to the front keeps the list's data and order of use |
| BufferCache.Cache.GetRec | bdos/fsbuf.c:209-235 | returns the sector as an uncached disk would, and marks it dirty for a write |
| BufferCache.Cache.Poke | bdos/fsio.c:240-242 | a write to a returned dirty buffer changes just those bytes of the uncached view |
| BufferCache.Cache.FlushAll | bdos/fsopnclo.c:568-579 | every buffer is clean; sector by sector the drives hold the FAT, both copies of it, the root directory and the data of the uncached view |
| BufferCache.Cache.Usrio | bdos/fsio.c:57-74 | a bulk transfer beside the cache reads or writes the uncached view, buffers in its way being flushed and dropped first |
| BufferCache.BulkWriteCache | bdos/fsio.c:57-74 | with no buffer of the range held, a bulk write keeps the cache transparent |
| FatTable.GetRealCl | bdos/fsfat.c:107-148 | the entry of a cluster: of 16 bits the two bytes at twice its number, low byte first; of 12 bits its half of the three bytes of a pair, also across two sectors; end marks become ENDOFCHAIN |
| FatTable.ClFix | bdos/fsfat.c:36-93 | the entry reads back as the low bits of the link, stored in just those bytes, and no other entry changes |
| FatTable.EntryBytes | bdos/fsfat.c:107-148 | which bytes an entry of 16 or of 12 bits is read from |
| FatTable.SetBytes | bdos/fsfat.c:36-93 | which bytes the update of an entry changes, and to what |
| FatTable.EntrySet | bdos/fsfat.c:36-93 | the neighbour that shares a byte of a 12-bit entry keeps its value |
| FatTable.Merge12Own | bdos/fsfat.c:62-85 | the merged word decodes to the low 12 bits of the link |
| FatTable.Merge12Neighbour | bdos/fsfat.c:62-85 | and the other half of the shared byte is kept |
| FatTable.FatSet | bdos/fsfat.c:36-93 | on the whole table, clfix is the update of one element |
| Chains.ChainAcyclic | bdos/fsfat.c:247-293 | a terminated chain never returns to a cluster |
| Chains.ChainUnique | bdos/fsfat.c:247-293 | the table and the start cluster determine the chain |
| Chains.AppendedChain | bdos/fsfat.c:269-283 | the two clfix calls of nextcl append one free cluster to the chain |
| Chains.MidAppend | bdos/fsfat.c:269-283 | between the two calls the growing file's chain is still intact |
| Chains.LinkFirstBreaks | bdos/fsfat.c:269-283 | in the other order the step between would leave no chain from that start |
| Chains.GrownOthers | bdos/fsfat.c:247-293 | every other file's chain stays a chain and apart from the growing one |
| Chains.AppendedCount | bdos/fsfat.c:269-283 | appending takes one cluster off the free count |
| Chains.FreedCount | bdos/fsopnclo.c:671-683 | freeing a chain raises the free count by its length |
| Chains.FreedOthers | bdos/fsopnclo.c:671-683 | freeing a chain leaves every other chain as it was |
| FatOps.FindFree16 | bdos/fsfat.c:174-200 | the lowest free cluster, 0 exactly when none is free |
| FatOps.FindFree | bdos/fsfat.c:208-234 | the first free cluster from the hint on, round the end: none is free from the hint up to it, or from the hint to the end and from 2 up to it; 0 exactly when none is free |
| FatOps.CountFree | bdos/fsfat.c:337-367 | the number of free clusters |
| FatOps.CountFree16 | bdos/fsfat.c:299-325 | the number of free clusters, record by record |
| FatOps.NextCl | bdos/fsfat.c:247-293 | steps to the next chain element; at the end a write appends one free cluster; it fails, changing nothing, exactly when there is none |
| FatOps.Extend | bdos/fsfat.c:269-283 | the appended chain, start cluster and dirty flag |
| FatOps.FreeChain | bdos/fsopnclo.c:671-683 | exactly the clusters of the chain become free |
| FileData.AtInjective | bdos/fsio.c:84-187 | two bytes of a file never share a place on the disk |
| FileData.ContentByte | bdos/fsio.c:84-187 | a byte of a file in plain numbers: the o-th of the r-th record of the k-th cluster, records being counted from cluster 2 |
| FileData.WroteTrans | bdos/fsio.c:84-284 | two adjacent transfers are one |
| FileData.ClusterRun | bdos/fsio.c:141-159 | adjacent clusters are one run of records |
| FileData.WroteContent | bdos/fsio.c:208-284 | what a write at a position does to the file's bytes |
| FileData.WroteOthers | bdos/fsio.c:208-284 | bytes of other files are out of its reach |
| FileIo.Addit | bdos/fsio.c:33-47 | the position moves on, the length grows to it when passed |
| FileIo.HeadBytes | bdos/fsio.c:228-245 | the bytes up to the end of a record |
| FileIo.HeadRecs | bdos/fsio.c:98-117 | the records up to the end of a cluster |
| FileIo.MidClusters | bdos/fsio.c:119-169 | whole clusters, adjacent ones in one transfer of at most CNTMAX records |
| FileIo.Drain | bdos/fsio.c:141-159 | the run pending at a break in the chain is transferred |
| FileIo.TailRecs | bdos/fsio.c:171-184 | the records at the start of the last cluster |
| FileIo.TailBytes | bdos/fsio.c:260-278 | the bytes at the start of the last record |
| FileIo.XrwRecs | bdos/fsio.c:84-187 | head, clusters and tail together transfer the records asked for, or up to the end of the chain |
| FileIo.Xrw | bdos/fsio.c:208-284 | the bytes at the position are transferred, whatever the split; short only at the end of the chain |
| FileOps.IxRead | bdos/fsio.c:498-514 | exactly content[n .. min(n + len, size)] reaches the caller, and nothing on the volume changes |
| FileOps.IxWrite | bdos/fsio.c:554-557 | content[n .. n + rc) is replaced or extended, rc < len only when no cluster is free, every other file keeps its chain and bytes, free clusters are conserved |
| FileOps.ReadBack | bdos/fsio.c:498-557 | what was written reads back, the bytes beside it are as before |
| FileOps.OtherDescriptor | bdos/fsopnclo.c:271-324 | another descriptor of the file keeps its position while the file grows |
| FileOps.SeekTarget | bdos/fsio.c:400-411 | on a boundary the cluster before it is the target |
| FileOps.PosElement | bdos/fsio.c:33-47 | the chain element follows from the position, with 0 or clsizb at a boundary |
| FileOps.StepCount | bdos/fsio.c:378-411 | a forward seek never counts backwards |
| FileOps.IxLseek | bdos/fsio.c:354-426 | the position and chain element for n, ERANGE outside the file, EINTRN when the chain is too short |
| FileOps.SeekFits | bdos/fsio.c:354-426 | a file whose length fits its chain meets what ixlseek asks for |
| FileOps.Walk | bdos/fsio.c:369-418 | from the current cluster or from the start, the same cluster is reached |
| FileOps.IxGetFcb | bdos/fsio.c:462-491 | the 32 bytes at the position, none exactly at the end of the directory |
| FileOps.DeleteChain | bdos/fsopnclo.c:671-683 | exactly the chain becomes free, other files keep chain and bytes |
| ObjTree.GetPar | aes/gemobjop.c:145-162 | the parent, NIL for the root |
| ObjTree.TailTest | aes/gemobjop.c:153-157 | the next object is the parent exactly when its tail points back |
| ObjTree.ObOffset | aes/gemoblib.c:285-296 | the sum of the offsets on the path to the root: the object's own and those of its parent |
| ObjTree.EveryObj | aes/gemobjop.c:76-136 | for any depth, the goto walk calls the routine in preorder up to the object last, with each object's coordinates; it stays inside its arrays exactly when no object it comes to lies too deep |
| TreeWalk.PreSeen | aes/gemobjop.c:76-136 | each call's coordinates are what ob_offset computes for that object, and the object is below the start |
| TreeWalk.PreOnce | aes/gemobjop.c:76-136 | no object is called for twice |
| TreeWalk.WalkIsShown | aes/gemobjop.c:76-136 | from the root exactly the objects with no hidden ancestor within the depth limit are called for |
| TreeWalk.ObDraw | aes/gemoblib.c:959-977 | a draw from any object to any depth visits its whole subtree, at the places a draw from the root gives, or stops at the first object that lies too deep |
| TreeWalk.RootFits | aes/gemsuper.c:210-213 | a draw from the root stays inside exactly when no object it shows lies below level MAX_DEPTH |
| TreeWalk.AlwaysFits | aes/gemobjop.c:76-136 | with a depth up to MAX_DEPTH every walk stays inside, whatever the tree |
| TreeWalk.StalkFails | aes/gemsuper.c:210-213 | ten nested objects and a depth of 9 or more run past the arrays |
| TreeFind.GetPrev | aes/gemoblib.c:987-1007 | the sibling before, NIL for the first one and for others |
| TreeFind.ObFind | aes/gemoblib.c:1034-1113 | NIL exactly when the start is hidden or its half-open box misses the point; else an object that is visible and whose box holds the point; the one reached by entering the last such child |
| TreeFind.FoundIs | aes/gemoblib.c:1034-1113 | the way down: every object on it is visible and holds the point in its half-open box, the later children of each are hidden or miss it, and so do all children of the last one unless the depth is used up |
| TreeFind.FindsLastDrawn | aes/gemoblib.c:1014-1019 | when children lie within their parents it is the object drawn last at that point |
| TreeEdit.ObAdd | aes/gemoblib.c:1121-1141 | the object becomes the last child, threading and other lists stay |
| TreeEdit.LooseIsEnough | aes/gemoblib.c:1121-1141 | any object that is nobody's child and not above the parent may be added |
| TreeEdit.ObDelete | aes/gemoblib.c:1147-1193 | the object leaves its list, threading and other lists stay |
| TreeEdit.ObOrder | aes/gemoblib.c:1201-1246 | the child moves to the index asked for; for an only child no child lists fit the links, and NIL leads out of the tree |
| TreeEdit.RelistOk | aes/gemoblib.c:1147-1246 | replacing one child list in the links keeps the whole tree well formed |
| Rects.PiecesSplit | aes/gemwrect.c:64-132 | at most four pieces, not empty, apart, covering exactly the old rectangle without the new one |
| Rects.BreakAllCuts | aes/gemwrect.c:136-162 | breaking a list takes the new rectangle out of it and nothing else |
| Visible.ListIsTopmost | aes/gemwrect.c:165-205 | a window's list holds each point once where it is topmost, and no other |
| Visible.SplitUpIff | aes/gemwrect.c:101-162 | this holds all through a sweep exactly when no window of a negative size crosses what is left of one below |
| Visible.FlagIsOverlapped | aes/gemwrect.c:151-160 | VF_BROKEN is set exactly when a window above overlaps |
| Visible.ExactlyOnce | aes/gemwmlib.c:1089 | over all windows a point is in at most one rectangle, one exactly when some window is topmost there |
| OrectPool.LinkingDone | aes/gemwrect.c:101-132 | the splice replaces one node of the list by the pieces' nodes and gives it back, other lists keep nodes and rectangles |
| WinRects.Screen.constructor | aes/gemwmlib.c:1247-1326 | the desktop has one node, the rest is in the pool |
| WinRects.Screen.OrStart | aes/gemwrect.c:40-50 | every node is in the pool |
| WinRects.Screen.BrkRct | aes/gemwrect.c:101-132 | r is replaced in place by its pieces when overlapped; each node stays on one list or in the pool |
| WinRects.Screen.MkRect | aes/gemwrect.c:136-162 | the whole list is broken, the flag records a hit |
| WinRects.Screen.NewRect | aes/gemwrect.c:165-205 | the window's list is made anew, those below it in the tree are broken, others untouched |
| WinRects.Screen.Sweep | aes/gemwmlib.c:1089 | all lists and flags are those of the tree's order and sizes |
| WinRects.Partition | aes/gemwmlib.c:1089 | each point of some window is in exactly one list rectangle, of the topmost window; without negative sizes a window is flagged exactly when it shares a point with one above |
| WinRects.OwnerIs | aes/gemwmlib.c:1089 | on the screen's own objects: a list holds a point exactly when the window's box, with a shadow of two pixels, does and none above it does |
| WinRects.Screen.DrawChange | aes/gemwmlib.c:1058-1096 | new size, and for an open window the sweep and gl_wtop |
| WinRects.Screen.WmCreate | aes/gemwmlib.c:1369-1385 | the lowest free handle, without size |
| WinRects.Screen.WmOpen | aes/gemwmlib.c:1410-1432 | the window is on top at the size asked for, the lists are current, other windows keep their place |
| WinRects.Screen.WmClose | aes/gemwmlib.c:1438-1459 | the window leaves the order, the lists are current |
| WinRects.Screen.WmDelete | aes/gemwmlib.c:1466-1485 | the nodes go back exactly when the window was open or has no size; else its area is cut out of all lists |
| WinRects.HoleIs | aes/gemwmlib.c:1466-1485 | then none of the lists left has a point of the area, though the windows there stay |
| WinRects.DeleteOfNew | aes/gemwmlib.c:1466-1485 | create, set a size, delete: the desktop misses just the area and its shadow |
| WinRects.Screen.WmTop | aes/gemwmlib.c:1605-1614 | an open window moves to the top of the order; for another one the code leaves the tree, or puts it on the screen without its being open, exactly as its links lead |
| WinRects.TopOfNew | aes/gemwmlib.c:1679-1684 | for a window just created WF_TOP leaves the tree |
| WinRects.Screen.StrayParent | aes/gemobjop.c:145-162 | from a window that is not open the parent is found exactly when the links lead to an open window |
| WinRects.Screen.WmSetCurr | aes/gemwmlib.c:1676-1678 | a resized or moved window keeps its rank |
| WinRects.FlagsTop | aes/gemwmlib.c:1679-1684 | behind the guard an open window is never the only one |
| WinRects.WOwns | aes/gemwmlib.c:1230-1241 | the next part of the list inside a rectangle |
| WinRects.OwnedCount | aes/gemwmlib.c:1556-1562 | asked one by one the parts cover what the window owns of the rectangle, once |
| OsMem.OsPool.GetOsm | bdos/osmem.c:100-115 | the next block of the area, none when it is used up |
| OsMem.OsPool.XmGetBlk | bdos/osmem.c:291-354 | a block nobody has, none exactly when list and area are exhausted |
| OsMem.OsPool.XmFreBlk | bdos/osmem.c:360-384 | the block heads the free list |
| OsMem.OsPool.UnlinkMdblock | bdos/osmem.c:123-150 | the block leaves the chain, -1 exactly when it was not on it |
| OsMem.OsPool.XmGetMd | bdos/osmem.c:169-223 | a descriptor not in use, NULL exactly when no slot and no block is left; the others stay live |
| OsMem.OsPool.XmFreMd | bdos/osmem.c:229-272 | just this descriptor is free again; full, partly used and empty blocks are where they belong |
| OsMem.BlocksCount | bdos/osmem.c:67-82 | blocks carved are those free, those with descriptors and those of others |
| MemLists.Inserted | bdos/iumem.c:165-200 | moving a block to the free list keeps the tiling and the descriptors |
| MemLists.Joined | bdos/iumem.c:202-221 | so does joining two touching blocks, and the boot descriptor is never given back |
| MemLists.Canonical | bdos/iumem.c:180-221 | the coalesced free list is determined by which memory is free |
| MemLists.ListsAre | bdos/iumem.c:35-263 | what the invariant of a pool says of its blocks: they are apart, hold just the addresses of the region in units of the alignment, share no descriptor, and no two free ones touch |
| MemLists.FirstIsLowest | bdos/iumem.c:92-100 | first fit takes the lowest block that fits |
| MemLists.MaxFits | bdos/iumem.c:66-75 | asking for the reported maximum finds a block of just that size |
| MemLists.RoundUp | bdos/iumem.c:83-86 | the 32-bit rounding is right, a multiple of 4 or of 2, exactly up to the alignment below the largest LONG |
| MemLists.TakenOnlyIf | bdos/iumem.c:110-131 | the split keeps the tiling exactly for a size strictly inside the block |
| MemLists.TooLarge | bdos/iumem.c:83-131 | a larger request spoils the lists |
| MemLists.ShrunkOnlyIf | bdos/iumem.c:228-254 | the cut keeps the tiling exactly for a length strictly inside the block |
| UserMem.UserPool.FfitMax | bdos/iumem.c:66-75 | the largest free block |
| UserMem.UserPool.Ffit | bdos/iumem.c:35-138 | the first block that fits is taken whole or cut, and heads the allocated list as the running process's own; NULL, with nothing changed, exactly when none fits or no descriptor is left |
| UserMem.UserPool.FreeIt | bdos/iumem.c:144-222 | the block leaves the allocated list, the lists tile the region again, sorted and coalesced |
| UserMem.UserPool.Coalesce | bdos/iumem.c:202-221 | two-sided coalescing restores order |
| UserMem.UserPool.ShrinkIt | bdos/iumem.c:228-263 | the block keeps its first bytes, the rest is free |
| UserMem.UserPool.XmxAlloc | bdos/umem.c:234-335 | a block of the rounded size that is the caller's own, so that freeing what it owns would leave just what it left before, or nothing changed; it succeeds when a block fits and a descriptor is left |
| UserMem.UserPool.XmFree | bdos/umem.c:135-159 | E_OK exactly for the start of an allocated block |
| UserMem.UserPool.XSetBlk | bdos/umem.c:170-229 | each return code and what it leaves |
| UserMem.UserPool.FreeAllOwned | bdos/proc.c:92-101 | all and only this owner's blocks go while the list changes under the loop |
| UserMem.NotOwnedIs | bdos/proc.c:92-101 | a block is left exactly when another owner has it |
| UserMem.UserPool.AllocTpa | bdos/proc.c:460-502 | the largest block when it is large enough, as the running process's own; its allocation cannot fail |
| DelayList.InsertedDue | aes/geminput.c:523-540 | the new waiter is due in c ticks, every other deadline stays |
| DelayList.RemovedDue | aes/gemasync.c:96-114 | a cancelled waiter leaves every other deadline as it was |
| DelayList.LoweredDue | aes/gemflag.c:32-68 | exactly the waiters due by c have gone, the other deadlines are lower by c |
| AesEvents.BlockFree | aes/gemasync.c:134-136 | a block is free while one process holds less than its share |
| AesEvents.IssuedOk | aes/gemasync.c:130-179 | taking a block keeps every block on one event list and one chain |
| AesEvents.CompletedOk | aes/gemasync.c:64-78 | completing one moves it to the zombie list and flags its process |
| AesEvents.CollectedOk | aes/gemasync.c:182-214 | collecting one frees it and clears the flag |
| AesEvents.CancelledOk | aes/gemasync.c:217-243 | cancelling one frees it |
| AesProcs.WokenOk | aes/gemasync.c:35-61 | a new flag wakes its process; no process sleeps that could run |
| AesProcs.SleptOk | aes/gemdisp.c:82-93 | a process goes to sleep only with no wanted flag, on exactly one list |
| AesProcs.StartedOk | aes/gempd.c:110-131 | a new process is on exactly one list |
| AesWaits.NoPanic | aes/gemasync.c:134-136 | the panic for want of event blocks is out of reach |
| AesSystem.FiredOk | aes/geminput.c:279-285 | the end of a wait keeps the system's invariant |
| AesSystem.IssueOk | aes/gemasync.c:130-179 | so does asking for an event |
| AesSystem.WaitsOk | aes/gemasync.c:117-127 | so does going to sleep in mwait |
| AesSystem.ResumedOk | aes/gemasync.c:117-127 | mwait returns only with a wanted flag, the blocks being those asked for |
| AesSystem.SystemFacts | aes/gemdisp.c:82-93 | the invariant read out: each process on one list, no sleeper that could run, each block free or on one event list and one chain, the semaphore free exactly at count 0 |
| AesKernel.Kernel.constructor | aes/geminit.c:771-820 | all event blocks free, the first process running, the lists empty |
| AesKernel.Kernel.Signal | aes/gemasync.c:35-61 | the flag is set, a sleeping process that waits for it goes to the drl |
| AesKernel.Kernel.Evremove | aes/geminput.c:279-285 | the wait is over: zombie list, flag, wake-up |
| AesKernel.Kernel.Issue | aes/gemasync.c:130-155 | the head of the free list becomes the block; there always is one |
| AesKernel.Kernel.Akbin | aes/geminput.c:486-493 | the key that came first leaves the buffer and is the event's value, or the process is the first to wait |
| AesKernel.Kernel.Adelay | aes/geminput.c:496-542 | the process's new block is in the delay list at its place, the others keep theirs and their deadlines |
| AesKernel.Kernel.Aqueue | aes/gemqueue.c:85-125 | the message is written or read at once and the last to ask for the opposite is served, completed and flagged, the bytes going where they belong; or the process waits with its count; safe exactly when each doq() stays inside and ends |
| PipeBytes.Doq | aes/gemqueue.c:31-82 | the bytes of the pipe after a write or a read of any bytes, or that it leaves p_queue, or never ends |
| PipeBytes.MergedIff | aes/gemqueue.c:45-71 | a message is merged exactly when its first word is 20, 24, 25 or 26 and the search comes by an arrow message or a redraw with the same fourth word, byte by byte |
| PipeBytes.MergedThere | aes/gemqueue.c:51-66 | an arrow message is replaced by the 16 bytes of the new one, of a redraw only the last 8 change, and no byte elsewhere |
| PipeBytes.TurnBytes | aes/gemqueue.c:49-70 | where the search goes on from a place, by the bytes there |
| PipeBytes.SearchIff | aes/gemqueue.c:47-71 | the search ends exactly when it comes by a place past the last message or one to merge with, leaves exactly when it comes by one beyond, and else goes round for ever |
| PipeBytes.DoqIff | aes/gemqueue.c:31-82 | the exact condition for doq() to stay inside and to end |
| PipeBytes.InOrder | aes/gemqueue.c:37-81 | first in, first out: what is read was at the front, what is not merged goes to the end |
| PipeBytes.ForwardEnds | aes/gemqueue.c:47-71 | a search that only moves on ends |
| PipeBytes.BackAndOut | aes/gemqueue.c:47-71 | one that moves back may end as well |
| PipeBytes.TooShort | aes/gemqueue.c:58-67 | a message of fewer than 16 bytes that is let in and merged beyond the buffer |
| PipeBytes.FullPipe | aes/gemqueue.c:44-45 | an empty message for a full pipe, whose first word lies beyond |
| PipeBytes.FalseLength | aes/gemqueue.c:47-71 | messages of 16 bytes behind one with a false third word: no end, or out of the buffer |
| PipeBytes.PassageCounts | aes/gemqueue.c:102-118 | the bytes take the step of the counts |
| PipeLine.SafeIff | aes/gemqueue.c:37-81 | what the counts alone say about staying inside: the copies, the first word, and 16 bytes when merged |
| PipeLine.SafeKeeps | aes/gemqueue.c:73-80 | then the bytes queued stay within the buffer |
| PipeLine.Unchecked | aes/gemqueue.c:97-119 | counts that are not tested: a read of more than is queued, a served reader or writer whose count does not fit, a message too short for what is looked at |
| PipeLine.FlowingIff | aes/gemqueue.c:102-119 | when a call leaves no reader beside a message and no writer beside room for it |
| PipeLine.LeftBehind | aes/gemaplib.c:77-82 | calls after which one is left behind |
| PipeLine.StandardStep | aes/gemwmlib.c:862 | with counts of 16, or a read of all that is queued, a call is safe as far as counts tell and leaves no reader behind |
| PipeLine.StandardRun | aes/gemaplib.c:256-257 | so is every run from an empty pipe |
| AesSteps.QueuedLine | aes/gemqueue.c:85-125 | what aqueue does to blocks and lists is the step of PipeLine |
| AesStore.BytesLine | aes/gemqueue.c:102-118 | and so is what it does to the bytes |
| AesStore.PlainPasses | aes/gemwmlib.c:851-863 | with messages of 16 bytes whose third word is 0, neither the caller's copy nor the served one leaves the pipe or hangs |
| AesStore.ReadFront | aes/gemqueue.c:77 | a reader is given the bytes at the front |
| AesKernel.Kernel.TakFlag | aes/gemflag.c:71-86 | taken exactly when free or the caller's own |
| AesKernel.Kernel.Amutex | aes/gemflag.c:89-102 | over at once when taken, else the process waits for it |
| AesKernel.Kernel.Unsync | aes/gemflag.c:105-139 | the count falls, whoever calls; at 0 the semaphore goes to one waiter at depth 1, which is flagged, or is free |
| AesKernel.HandOver | aes/gemflag.c:121-133 | after the hand-over no waiter is the new owner |
| AesKernel.SemFacts | aes/gemflag.c:71-139 | the count is 0 exactly when there is no owner, waiters exist only while it is held and are not the owner |
| AesKernel.Kernel.Iasync | aes/gemasync.c:130-179 | one more event is asked for: over at once with the key, message or count it took, or waiting on its chain |
| AesKernel.Kernel.Apret | aes/gemasync.c:182-214 | the event is gone from list, flags and waits, its value returned; 0 when there is none |
| AesKernel.Kernel.Takeoff | aes/gemasync.c:96-114 | the block leaves its chain for the free list, the other waiters keep place and deadline |
| AesKernel.Kernel.Acancel | aes/gemasync.c:217-243 | of the events named just the completed ones are left, and their masks returned; every other waiter keeps its place, and every timer its deadline |
| AesKernel.Kernel.Tchange | aes/gemflag.c:32-68 | exactly the timers due are completed, in order, and their processes flagged; the other waiters stay, nearer by c |
| AesKernel.Kernel.PostKeybd | aes/geminput.c:299-308 | a key is the value of the wait it ends, which wakes its process, or joins the buffer while there is room |
| AesKernel.Kernel.PostAll | aes/geminput.c:446-483 | every satisfied wait of the chain is completed with its value, the others stay in order |
| AesKernel.Kernel.Carry | aes/gemdisp.c:151 | an entry of the ring does what its routine does: ticks, a key, a change |
| AesKernel.Kernel.Forkq | aes/gemdisp.c:52-71 | -1 when the ring is full |
| AesKernel.Kernel.Forker | aes/gemdisp.c:101-155 | the entries are carried out in the order they came in, and the ring is empty |
| AesKernel.Kernel.Schedule | aes/gemdisp.c:181-205 | polls are taken in up to the first that brings something, unless a process is ready: the ring has what it had and what that one brought, as far as there is room, and the drl is at the end of the ready list |
| AesKernel.Kernel.Disp | aes/gemdisp.c:221-253 | the process at the head goes to sleep or to the end of the ready list; then turn by turn all that is in the ring is carried out, in order, and schedule() called; in the end the ring is empty, and switchto is reached unless all processes sleep and the polls have run out |
| AesKernel.Kernel.Leave | aes/gemdisp.c:74-95 | to sleep exactly when it waits and no wanted flag is set, else to the end of the ready list |
| AesKernel.Kernel.DrainDrl | aes/gemdisp.c:192-197 | the processes on the drl go to the end of the ready list, in order |
| AesForks.EntriesHave | aes/gemdisp.c:237-244 | what was in the ring is carried out first, and whatever a poll brought that had room |
| AesForks.WaitEnds | aes/gemdisp.c:237-244 | over a whole run of the dispatcher a wait ends exactly when an entry of the ring or of a poll is for it, with the value of the first of these, and then its process is ready if it wants that event |
| AesForks.TimerEnds | aes/gemdisp.c:237-244 | a timer ends exactly when the ticks that came are as many as it had to go, and else is nearer by just these |
| AesForks.KeysArrive | aes/gemdisp.c:237-244 | keys for a process that waits for none join its buffer in order while there is room |
| AesForks.Wakes | aes/gemdisp.c:82-93 | a process that sleeps is ready in the end exactly when one of its waits has ended |
| AesKernel.Kernel.Mwait | aes/gemasync.c:117-127 | goes on exactly when a wanted flag is set, else goes to sleep and the dispatcher goes through its turns from there |
| AesKernel.Kernel.Dsptch | aes/gemdisp.c:221-253 | the running process goes to the end of the ready list and the dispatcher goes through its turns from there |
| AesKernel.Kernel.EvBlock | aes/gemevlib.c:64-69 | done at once exactly when the event is there, with the key, message or semaphore it took and its value; else its block is set up, a timer due in just the ticks asked for and a message to be written kept with it, everyone else waits as before, and the process is asleep |
| AesKernel.Kernel.ApRdwr | aes/gemaplib.c:69-89 | the only message of 16 bytes is taken past any writer, else the process blocks |
| AesKernel.Kernel.EvBlockEnd | aes/gemevlib.c:64-69 | run again, it returns the event's value and leaves no event, flag or wait behind |
| AesKernel.Kernel.EvMulti | aes/gemevlib.c:151-294 | after the ring is emptied, just what has happened already is returned, the key and the message being gone from their queues; else each event wanted is asked for, the timer to be due after tmcount / ticktime ticks, at least one, and everyone else waits as before; it is over at once exactly when the button or the mouse is there, and else the process sleeps |
| AesKernel.MultiWakes | aes/gemevlib.c:238-260 | asleep in ev_multi(), the process is ready after the dispatcher exactly when it has a flag: that of its timer exactly when as many ticks came as it asked for, that of the keyboard when a key came for it |
| AesKernel.AnsweredKeeps | aes/gemasync.c:130-179 | asking for an event that is not there sets up one block for it on its chain, and leaves every other waiter its chain, count and deadline |
| AesKernel.Kernel.QuickChecks | aes/gemevlib.c:171-233 | the checks before the wait |
| AesKernel.Kernel.EvMultiCollect | aes/gemevlib.c:263-290 | the events that happened, one at least, are returned, with the key and the clicks that ended them; nothing is left on p_evlist |
| AesKernel.Kernel.EvMultiEnd | aes/gemevlib.c:260-290 | the same after a sleep |
| AesKernel.Kernel.Pstart | aes/gempd.c:110-131 | the new process heads the drl |
| AesKernel.Kernel.Run | aes/gemdisp.c:221-253 | whatever processes and interrupts do, the invariant holds after every step, and each step is one of the dispatcher, of the end of a call, or of what the running process does; with messages of 16 bytes whose third word is 0 no run leaves a message pipe or hangs in one |
| Rings.Ring.Put | aes/geminput.c:241-250 | in at the rear, refused when full |
| Rings.Ring.Take | aes/geminput.c:256-266 | out at the front, in order |
| MsgPipe.WriteRefines | aes/gemqueue.c:31-73 | for messages of at least 16 bytes with a true third word, in a pipe of such, the bytes are those of Written(): merged where the search stops, else at the end |
| MsgPipe.ReadRefines | aes/gemqueue.c:77-80 | a read of the whole first message takes just that |
| MsgPipe.UnionCovers | util/rectfunc.c:84-98 | the union of two rectangles covers both exactly when it fits in WORDs |
| MsgPipe.UnionTight | util/rectfunc.c:84-98 | and then its edges are the outer ones of the two |
| MsgPipe.MessageWords | aes/gemqueue.c:44-70 | a message of eight words and what follows them: type, further bytes, window and rectangle |
| MsgPipe.RedrawLost | aes/gemqueue.c:52-55 | when it does not fit a point to redraw is lost |
| MsgPipe.WrittenFramed | aes/gemqueue.c:62-66 | the messages' lengths stay true unless one of another length is copied over an arrow message |
| MsgPipe.RedrawsKept | aes/gemqueue.c:45-56 | no point that was to be redrawn is forgotten, as long as the union fits |
| MsgPipe.Swallowed | aes/gemqueue.c:45-66 | a message is lost exactly into a redraw of its window |
| MsgPipe.SliderLost | aes/gemqueue.c:40-56 | a slider message that an application never sees |
| MsgPipe.OthersStay | aes/gemqueue.c:40-70 | only an arrow message or that redraw is changed, the order stays |

## Left out

- FileOps.IxLseek: a length that does not fit 65536 clusters, which no consistent directory entry has, would wrap the 16-bit cluster count; the model asks for less, and `FileOps.SeekFits` shows that a length within the chain is enough.
- FileOps.IxWrite: takes a length within the chain and a count that is not negative; with a longer length in the directory the code would write past the chain's data.
- FileOps.IxGetFcb: takes a position and a record size that are multiples of 32, as every directory read has.
- I/O errors, `longjmp` and media change: `Rwabs` succeeds and `Mediach` returns 0; the disks are sector sequences.
- The pseudo-clusters of the root directory and OFDs without a DND; the directory cache in `bdos/fsdir.c`, `ixopen`, and the directory update in `ixclose`: the start cluster and the length are those of the DFD.
- The pointer `getrec()` returns into a buffer is the front buffer of its list, which the next call may replace.
- ObjTree.EveryObj: starts at the root or at an object whose next link is `last`, as all its callers do.
- TreeFind.ObFind: without the 3D variant.
- TreeEdit.ObOrder: takes an index within the list; beyond it the search runs on over the parent's own links.
- WinRects.Screen.BrkRct: stops when the pool is empty, where the code would write through a null pointer; all methods above it pass that on.
- WinRects.Partition: takes coordinates without 16-bit overflow.
- WinRects.Screen.WmOpen: takes a handle other than the desktop's.
- WinRects.Screen.WmDelete: takes a handle other than the desktop's.
- WinRects.Screen.WmSetCurr: takes a handle other than the desktop's.
- The drawing half of `draw_change()`, WS_PREV and WS_WORK, window names and sliders.
- UserMem.UserPool.XmxAlloc: takes requests that do not overflow when rounded; `MemLists.RoundUp` and `MemLists.TooLarge` say what happens to the others.
- UserMem.UserPool.XSetBlk: takes lengths that do not round to a negative size; `MemLists.ShrunkOnlyIf` says what happens to the others.
- The alternate-RAM pool, `srealloc` and Ptermres; `free_available_dnds()` and the halt when a block for something else than descriptors is not to be had.
- AesKernel.Kernel.Aqueue: a call that would leave the pipe or hang in it is not carried out; what a waiting writer has at its address does not change while it sleeps.
- PipeBytes.Doq: the overlapping copies come out as with memmove(), as they do with EmuTOS's own memcpy(); a word at an odd address, where a 68000 stops, is read like any other.
- MsgPipe.WriteRefines: messages without a true third word, messages of fewer than 16 bytes and reads that split one are in `PipeBytes` only.
- AesKernel.Kernel.PostAll: which waits a button or mouse change satisfies (`downorup()`, `inorout()`) is a parameter, as is what the checks at the start of `ev_multi()` say of them.
- AesKernel.Kernel.EvMulti: without the M3 rectangle, and without the pending WM_ARROWED action of `ev_mesag()`.
- AesKernel.Kernel.Run: interrupts come before a step and at each poll, `chkkbd()` aside; those that come later within a step add to the ring what the next step finds there.
- AesKernel.Kernel.Tchange: real time is not modelled, only the list and the counters.
- Event recording in `forker()`, mouse ownership, `gl_bpend`, and the assembler context switch.
