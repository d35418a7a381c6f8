# Five systems programs: what they compute

The repository holds five C programs. This project models the parts of them that are hard to get right and proves
what those parts are for. `dafny verify dfyconfig.toml` checks everything.

- **Heap allocator** (`hw3/src/sfmm.c`). `Allocator.dfy` is a class over one array of 8-byte rows. Headers, footers,
  the links of free blocks and the list heads are rows of that array; `last_bp` and the quick list records are fields.
  A ghost shape (blocks, free lists, quick lists) says what the rows mean, and every method keeps rows and shape in
  agreement. `HeapTheorems.dfy` says what that means for the raw rows and for clients, `HeapRuns.dfy` says it for
  every run of malloc, free, realloc and client writes.
- **Duplicate finder** (`hw2/src/finddup.c`). `FindDup.dfy` sorts, scans and rotates the file list in place, with the
  byte compare of the code; the report it prints groups two files exactly when their bytes are equal, if and only if
  the list is neither confused nor overlooked, which can be told from the files beforehand.
- **CRC-32 and Goertzel** (`hw2/src/crc32.c`, `hw1/src/goertzel.c`). `Crc32.dfy` proves the table-driven loop against
  bit-at-a-time division as in section 8 of RFC 1952, and that bursts of up to 32 bits are always detected.
  `Goertzel.dfy` proves the recurrence against the Fourier sum it stands for, over exact reals.
- **Game server** (`hw5/src`). The client registry as threads taking single steps on two semaphores
  (`RegistrySteps.dfy`, `RegistryHistory.dfy`, `Registry.dfy`); clients, invitations and their handlers (`InvitationTable.dfy`, `Lobby*.dfy`);
  the game (`GameRules.dfy`, `GameLaws.dfy`, `Game.dfy`).
- **Two parsers**. `parseline` of `hw4/src/cli.c` cuts a buffer in place (`LineSyntax.dfy`, `ParseLine.dfy`);
  `att_getopt` of `hw2/src/getopt.c` scans options with its state between calls (`OptionGrammar.dfy`, `OptionReading.dfy`, `GetOpt.dfy`).

## How the model is built

Sizes and addresses of the heap are counted in 8-byte rows, so a payload row is even where the C pointer is a multiple
of 16. The ten list heads lie in rows 8 to 47, below the heap, which starts at row 512. A request is a number of bytes
below 2^64, and the rounding wraps as `size_t` does.

Where a step of the code falls short of what the headers promise, the class models the repaired step, and a lemma says
exactly when the step as written would have done:

- `allocate` does not tell the next block that a whole block was taken (`LiteralSteps.TakeWithoutMark`), nor that a
  shrinking realloc freed the rest (`LiteralSteps.ShrinkWithoutMark`).
- `sf_free` stores a footer in the next block even when that block is in use (`LiteralSteps.MarkWithFooter`).
- `flush_list` coalesces blocks that are still marked allocated (`LiteralSteps.FlushWithoutClearing`).
- `comp1` truncates differences to `int` (`FileRecords.LiteralComp1Sign` for 32-bit fields, `LiteralComp1Fits` for
  any, `LiteralOrder` and `LiteralOrderFits` for whole lists); `scan1` looks one entry past the list
  (`FindDup.FileList.Scan1Overrun`).
- `inv_accept` does not record that an invitation is accepted (`LiteralHandlers.LiteralStepAgrees` for every handler,
  `LiteralLogout.LiteralServedAgrees` for logouts too, `LiteralEndEffect` and `LiteralAcceptReplaces` for what then goes
  wrong, `LiteralRuns.AcceptedTwice` for a run).
- `client_remove_invitation` looks into empty slots (`LiteralHandlers.LiteralSearchStops`, `LiteralRuns.RevokingTrips`);
  the INVITED packet carries the source's id (`LobbyEffects.LiteralInvitedId`, `LiteralRuns.InvitedMistaken`);
  `client_make_move` locks the game before it knows that there is one (`LiteralRuns.LiteralMoveCrashes`,
  `LiteralRuns.MoveCrashesOn`).
- `parseline` runs past the end of a last line that has no newline (`LiteralLine.LiteralLineStops`).

One flaw is not repaired but modelled as it is: `fullcmp` keeps bytes in a `char` (`FileRecords.FullCmpReads`), and
`FindDup.FileList.Run` says exactly which lists of files that spoils. A list is *overlooked* if two files of different
inodes have one content that `fullcmp` tells from itself, and *confused* if `fullcmp` takes a file for a different one
of the same length and CRC, where each comes first by device and inode of the files it is grouped with.

Comments and code disagree in two places, and the model follows the code. The size classes of `hw3/include/sfmm.h` end
with (128M, 512M] and above; the code has (4096, 8192] bytes and above 8192. `client_decline_invitation` is documented
to refuse an accepted invitation; the code closes it, which resigns the game.

## Model

| member | source | states |
|---|---|---|
| `HeapGeometry.Predecessor` | hw3/include/sfmm.h:103-146 | every block but the first starts where another one ends |
| `HeapGeometry.AbsorbLayout` | hw3/src/sfmm.c:72-116 | joining a block with the next keeps the tiling, the alignment and every prev-alloc bit |
| `HeapGeometry.CarveLayout` | hw3/src/sfmm.c:272-284 | splitting a block keeps the tiling and the alignment, and every prev-alloc bit is right afterwards |
| `HeapGeometry.WithStateLayout` | hw3/src/sfmm.c:448-483 | a block changes state and the next block's prev-alloc bit follows |
| `HeapGeometry.GrowLayout` | hw3/src/sfmm.c:356-365 | a page behind the last block extends the tiling; its prev-alloc bit is the alloc bit of the block that ended the heap |
| `HeapGeometry.AbsorbCoalesced` | hw3/src/sfmm.c:72-116 | joining leaves no new pair of free neighbours |
| `LinkRings.PushKeepsRing` | hw3/src/sfmm.c:247-250 | after the four stores of `add_main_list` next and prev are mutual inverses around the circle with the block in front |
| `LinkRings.UnlinkKeepsRing` | hw3/src/sfmm.c:45-48 | after the two stores of `remove_main_list` they are mutual inverses around the circle without the block |
| `HeapInvariant.PackFields` | hw3/src/sfmm.c:18-28 | size, alloc bit and prev-alloc bit are recovered from a packed word |
| `HeapSteps.UnlinkStep` | hw3/src/sfmm.c:45-48 | taking an entry off a free list keeps every tag and every other list, and leaves exactly that block unlisted |
| `HeapSteps.LinkStep` | hw3/src/sfmm.c:235-251 | putting an unlisted free block on the list of its class keeps every tag and every other list |
| `HeapLists.UnlinkExcept` | hw3/src/sfmm.c:45-48 | an entry that leaves its free list leaves all others, and their order, as they were |
| `TagSteps.MergeStep` | hw3/src/sfmm.c:72-116 | the new header and footer of two joined blocks describe a heap in which only those two changed |
| `TagSteps.RestateStep` | hw3/src/sfmm.c:448-483 | the tags written for a change of state describe the heap with only that block changed |
| `TagSteps.CarveStep` | hw3/src/sfmm.c:272-284 | the three tags of a split describe the heap with the rest as a new free block |
| `TagSteps.GrowStep` | hw3/src/sfmm.c:356-365 | the tags of a new page describe the heap with one more free block |
| `TagSteps.PopStep` | hw3/src/sfmm.c:338-339 | taking the first block of a quick list keeps the index of all lists |
| `TagSteps.PushStep` | hw3/src/sfmm.c:441-475 | putting a block in front of its quick list keeps the index of all lists |
| `HeapClients.FuseThree` | hw3/src/sfmm.c:101-116 | one header and one footer turn three free neighbours into one block |
| `HeapClients.PrevIsListed` | hw3/src/sfmm.c:85-116 | the free block before the one being coalesced is found through its footer, is on a free list, and has no free block before it |
| `HeapClients.NextIsListed` | hw3/src/sfmm.c:72-83 | the same for the free block after it |
| `HeapMoves.MainClassMonotone` | hw3/src/sfmm.c:199-232 | a larger block is never in a lower class |
| `HeapMoves.SearchFailed` | hw3/src/sfmm.c:350-371 | when the lists from the request's class upward hold no fitting block, no free block of the heap fits |
| `HeapMoves.SearchIsLowest` | hw3/src/sfmm.c:349-375 | what the search finds is the first large enough block of the lowest list that has one |
| `HeapMoves.FoundIsPlaced` | hw3/src/sfmm.c:349-375 | after growth it is the block at the end of the heap: the old last block if that was free, otherwise the first new page |
| `HeapMoves.QuickHeadFits` | hw3/src/sfmm.c:122-138 | the first block of a quick list fits every request of its class |
| `RequestSize.RoundRequest` | hw3/src/sfmm.c:298-305 | the rounding loop computes the block size, wrapping as the machine does |
| `RequestSize.BlockHoldsRequest` | hw3/src/sfmm.c:298-305 | the block holds the request, and is the smallest legal one that does, exactly when the sum did not wrap |
| `RequestSize.LargerRequest` | hw3/src/sfmm.c:535-558 | a request that needs a larger block fills the payload of the old one |
| `Allocator.Heap.constructor` | hw3/include/sfmm.h:103-146 | an empty heap that may grow to a number of pages |
| `Allocator.Heap.RemoveMainList` | hw3/src/sfmm.c:45-48 | exactly that block leaves its free list; no client sees a change |
| `Allocator.Heap.AddMainList` | hw3/src/sfmm.c:235-251 | the unlisted block goes to the front of the list of its class; no client sees a change |
| `Allocator.Heap.MergeNext` | hw3/src/sfmm.c:72-83 | the next block leaves its list and is absorbed; `last_bp` follows |
| `Allocator.Heap.MergePrev` | hw3/src/sfmm.c:85-99 | the previous block leaves its list and absorbs this one; `last_bp` follows |
| `Allocator.Heap.MergeBoth` | hw3/src/sfmm.c:101-116 | both neighbours leave their lists and the three become one block |
| `Allocator.Heap.Coalesce` | hw3/src/sfmm.c:50-119 | the result is the block joined with exactly its free neighbours, and it has no free neighbour |
| `Allocator.Heap.TakeWhole` | hw3/src/sfmm.c:265-271 | the whole block is used, the next block knows, payload rows and other clients are untouched |
| `Allocator.Heap.TakePart` | hw3/src/sfmm.c:272-284 | the client keeps the size asked for, the rest is coalesced and listed, `last_bp` still ends the heap |
| `Allocator.Heap.Allocate` | hw3/src/sfmm.c:257-292 | the client gets the size asked for, or the whole block if the rest were a splinter; its payload is untouched |
| `Allocator.Heap.FindMainFit` | hw3/src/sfmm.c:141-160 | the first block of the circle that is large enough, or NULL if none is |
| `Allocator.Heap.FindQuickFit` | hw3/src/sfmm.c:122-138 | the first block of the chain that is large enough, or NULL if none is |
| `Allocator.Heap.MemGrow` | hw3/src/sfmm.c:356-359 | one more page, or NULL and ENOMEM at the limit |
| `Allocator.Heap.GrowAndList` | hw3/src/sfmm.c:356-366 | the page becomes or joins a free block on its list; fails exactly at the limit and then changes nothing |
| `Allocator.Heap.InitHeap` | hw3/src/sfmm.c:307-329 | the first page is one free block of 4080 bytes on its list, all other lists are empty |
| `Allocator.Heap.TakeQuick` | hw3/src/sfmm.c:335-346 | the first block leaves its quick list and goes to the client at its full size |
| `Allocator.Heap.FindOrGrow` | hw3/src/sfmm.c:349-371 | the search finds a fitting block, or NULL only if none fits and the heap is at its limit; it terminates |
| `Allocator.Heap.SfMalloc` | hw3/src/sfmm.c:294-378 | a block not in use before: the front of its quick list, else the first fit of the lowest list that has one, else the grown end of the heap; cut to the request unless the rest were a splinter, the rest in front of its list and all other lists in their order; NULL and ENOMEM only if nothing fits at the limit; growth only if nothing fits, and by no page more than makes the last block large enough |
| `Allocator.Heap.FlushList` | hw3/src/sfmm.c:381-395 | the quick list ends empty and its blocks are free and listed; no client sees a change |
| `Allocator.Heap.FreeToMain` | hw3/src/sfmm.c:477-490 | the block takes in exactly its free neighbours and is in front of the list of its size; the other lists keep their order; no other client sees a change |
| `Allocator.Heap.PushQuick` | hw3/src/sfmm.c:455-475 | the block is first on its quick list, which was flushed if it held five |
| `Allocator.Heap.SfFree` | hw3/src/sfmm.c:397-491 | the block is in use no more, is on its quick list if its size has one, and no other client sees a change |
| `Allocator.Heap.Shrink` | hw3/src/sfmm.c:562-575 | the block keeps its place and its contents up to the new size |
| `Allocator.Heap.Move` | hw3/src/sfmm.c:550-558 | a new block holds the old contents and the old one is freed; on NULL the old block is as it was |
| `Allocator.Heap.SfRealloc` | hw3/src/sfmm.c:493-579 | a request that needs no larger block keeps its place and is cut to its size, the rest freed; a larger one is placed as by `SfMalloc`; contents are kept up to the smaller size, no other client sees a change, NULL only for size zero or when nothing fits |
| `HeapTheorems.WalkTiles` | hw3/include/sfmm.h:103-146 | reading sizes from the first header on, as the code does, visits every block once and ends exactly at the end of the heap |
| `HeapTheorems.RawBits` | hw3/include/sfmm.h:16-69 | in the raw rows each prev-alloc bit is the alloc bit of the block before, and each free block's footer is its header |
| `HeapTheorems.FreeListsAreCircles` | hw3/include/sfmm.h:173-189 | following next from a list head visits exactly the blocks of its class and returns; following prev visits them backwards |
| `HeapTheorems.OnListIffFree` | hw3/include/sfmm.h:173-189 | a block is free exactly if it is on the list of its class, and it is on no other |
| `HeapTheorems.QuickListsAreChains` | hw3/include/sfmm.h:151-171 | following the links of a quick list visits at most five blocks, all allocated and of its size, and ends at NULL |
| `HeapTheorems.PayloadsAreSeparate` | hw3/include/sfmm.h:103-109 | outstanding payloads are 16-byte aligned, inside the heap and disjoint |
| `HeapTheorems.MallocEffect` | hw3/src/sfmm.c:294-378 | for clients, malloc adds one separate payload that is large enough and less than 48 bytes larger, and nothing else; it adds none only for no bytes, or when no free block fits and the heap is at its limit |
| `HeapTheorems.ReleaseEffect` | hw3/src/sfmm.c:397-491 | for clients, free takes one payload away, and nothing else |
| `HeapTheorems.ReallocEffect` | hw3/src/sfmm.c:493-579 | for clients, realloc replaces one payload by one of the size asked for with the same first rows, at the same place exactly when no larger block is needed, and nothing else; it replaces none only when a larger block is asked for, no free block fits and the heap is at its limit |
| `HeapRuns.DoMalloc` | hw3/src/sfmm.c:294-378 | the method has the effect promised to clients |
| `HeapRuns.DoFree` | hw3/src/sfmm.c:397-491 | the method has the effect promised to clients |
| `HeapRuns.DoRealloc` | hw3/src/sfmm.c:493-579 | the method has the effect promised to clients |
| `HeapRuns.Run` | hw3/src/sfmm.c:294-579 | over every sequence of calls and writes the heap stays valid and each step changes the payloads only as promised; a request is turned down only by a heap that is full for it |
| `HeapSizes.ConstantsInBytes` | hw3/include/sfmm.h:103-189 | blocks of at least 32 bytes, pages of 4096, ten lists of either kind, five blocks on a quick list, the first payload 16 bytes into the heap |
| `HeapSizes.MainClassInBytes` | hw3/src/sfmm.c:199-232 | the sizes of each class in bytes |
| `HeapSizes.QuickClassInBytes` | hw3/src/sfmm.c:162-197 | quick list i is for blocks of 32 + 16 i bytes, and larger blocks have none |
| `HeapSizes.HeaderWord` | hw3/include/sfmm.h:16-69 | a header is the size in bytes, plus 4 in an allocated block, plus 2 behind one; the footer of a free block is the same word |
| `HeapSizes.LastFreedIsFirst` | hw3/src/sfmm.c:477-490 | the block a freed one became part of is the first of its list |
| `LiteralSteps.TakeWithoutMark` | hw3/src/sfmm.c:265-271 | taking a whole block as written is right exactly when it was allocated already, as a quick block is, or ends the heap |
| `LiteralSteps.ShrinkWithoutMark` | hw3/src/sfmm.c:272-284 | splitting a used block as written is right exactly when it ends the heap or a free block follows |
| `LiteralSteps.MarkWithFooter` | hw3/src/sfmm.c:451-454 | storing the next block's footer as written is right exactly when that block is not in use or already holds the word |
| `LiteralSteps.FlushWithoutClearing` | hw3/src/sfmm.c:385-392 | flushing a block as written is right exactly when a neighbour is free and no block in use follows |
| `LiteralSteps.LiteralStepsFail` | hw3/src/sfmm.c:265-271 | a heap on which the step as written leaves wrong tags |
| `FileRecords.LiteralComp1Fits` | hw2/src/finddup.c:280-293 | for fields of any width it is the compare itself when the first difference fits an `int` |
| `FileRecords.LiteralComp1Sign` | hw2/src/finddup.c:280-293 | for 32-bit lengths, CRCs, devices and inodes it has the right sign exactly when the first difference fits an `int` |
| `FileRecords.LiteralComp1Fails` | hw2/src/finddup.c:280-293 | lengths about 3 GB apart, or inodes 2^31 apart, are put the wrong way round |
| `FileRecords.LiteralOrder` | hw2/src/finddup.c:240-242 | where every pair keeps its sign the lists ordered by the truncated compare are the sorted ones |
| `FileRecords.LiteralOrderFits` | hw2/src/finddup.c:240-242 | where every first difference fits an `int` the lists ordered by the truncated compare are the sorted ones |
| `FileRecords.LiteralComp1Circle` | hw2/src/finddup.c:280-293 | three CRCs that the truncated compare orders in a circle |
| `FileRecords.FullCmp` | hw2/src/finddup.c:505-542 | the compare loop with its `char` returns 0 exactly when it stops on an end-of-file character |
| `FileRecords.FullCmpIsEquality` | hw2/src/finddup.c:532-541 | it decides equality against every file of the same length exactly when the first file has only bytes below 0x80 |
| `FileRecords.FullCmpReads` | hw2/src/finddup.c:532-541 | files of one length are found alike exactly when they agree up to the first byte from 0x80 on and that byte is 0xff or there is none |
| `DupScan.LinkShortcut` | hw2/src/finddup.c:366-387 | skipping the byte compare for links never misjudges: such files have one content |
| `DupScan.EnterInner` | hw2/src/finddup.c:358-364 | the inner loop starts in its invariant |
| `DupScan.MatchStep` | hw2/src/finddup.c:366-382 | flagging and rotating a match keeps the group in front and the rest behind it, untouched |
| `DupScan.MissStep` | hw2/src/finddup.c:383-386 | a miss keeps the group and turns the link shortcut off |
| `DupScan.ExitInner` | hw2/src/finddup.c:358-388 | when the run of the key ends the group is complete, also when its last member will be a head again |
| `DupExact.MarksAgree` | hw2/src/finddup.c:366-368 | the marks by which the scan groups files: equal for one content of one file, or of two files if `fullcmp` does not tell it from itself |
| `DupExact.MarksMatch` | hw2/src/finddup.c:366-368 | files of one mark match: by the compare, or as links without it |
| `DupExact.MistakeIsMisled` | hw2/src/finddup.c:366-368 | when the scan takes an entry for another of different content, the list is a misleading one |
| `DupExact.NotMisled` | hw2/src/finddup.c:357-388 | a scan that took no entry for another of different content was not given a misleading list |
| `DupExact.StaysBroken` | hw2/src/finddup.c:371-380 | no later rotation parts different files that stand in one group |
| `DupExact.HeadsOrdered` | hw2/src/finddup.c:357-388 | on a list that does not mislead, each head of a group comes, as `comp1` orders, before all that stands behind it |
| `Permutations.IdsPermute` | hw2/src/finddup.c:48-60 | rearranging records rearranges the files they stand for |
| `Permutations.OrderedSorted` | hw2/src/finddup.c:272-294 | an order as `comp1` asks for exists for every list |
| `DupReport.LinksAreClasses` | hw2/src/finddup.c:331-354 | the link scan flags exactly the files that are not the first of their device and inode |
| `DupReport.LinkReportIsExact` | hw2/src/finddup.c:331-354 | the hard link summary shows two files in one group exactly if they have one device and inode |
| `DupReport.LinkReportPrints` | hw2/src/finddup.c:331-354 | a LINK line exactly for each entry with the inode of the one before, a FILE line exactly for the first of several, in list order and none twice |
| `DupReport.ReportSound` | hw2/src/finddup.c:393-427 | links shown or hidden, every line shows a visible entry in the group of that entry |
| `DupReport.ReportComplete` | hw2/src/finddup.c:393-427 | links shown or hidden, every visible entry has a line, in its group |
| `DupReport.TogetherIffOneHead` | hw2/src/finddup.c:393-427 | links shown or hidden, two entries are in one group exactly if they follow one unflagged entry and both are visible |
| `DupReport.ReportIsExact` | hw2/src/finddup.c:393-427 | two files are in one group exactly if their contents are equal and both are visible, which with links shown, or for files that are no links, equal contents are enough for |
| `DupReport.ReportPrints` | hw2/src/finddup.c:393-427 | a DUP line exactly for each flagged entry that is no hidden link, a FILE line exactly for each unflagged entry that such an entry repeats, in list order and none twice |
| `Permutations.LinkedFlagged` | hw2/src/finddup.c:331-354 | of the files of one device and inode exactly one is left unflagged by the link scan |
| `FindDup.FileList.QSort` | hw2/src/finddup.c:240-242 | a permutation ordered by `comp1` |
| `FindDup.FileList.CrcLoop` | hw2/src/finddup.c:298-312 | the loop is the pass that `PassIsExact` describes |
| `FindDup.FileList.PassIsExact` | hw2/src/finddup.c:298-312 | exactly the entries that share their length with a neighbour get their CRC, and a sort is asked for exactly if there is one |
| `FindDup.FileList.Scan1` | hw2/src/finddup.c:298-318 | afterwards the list is ordered with a CRC for every file whose length is shared |
| `FindDup.FileList.Scan1Overrun` | hw2/src/finddup.c:301-311 | looking also at the entry behind the list changes nothing exactly when the list is empty, that entry has another length than the last one, or both have their CRCs and a sort is due anyway |
| `FindDup.FileList.Scan1OverrunFails` | hw2/src/finddup.c:301-311 | one file, and behind it an entry of its length: that entry is changed, and the list gets a CRC and a sort |
| `FindDup.FileList.Scan2Links` | hw2/src/finddup.c:331-354 | flags and lines of the hard link summary |
| `FindDup.FileList.Rotate` | hw2/src/finddup.c:371-380 | the match moves to the end of its group and the entries between move up by one |
| `FindDup.FileList.ScanEntry` | hw2/src/finddup.c:366-387 | an entry that is a link after a match, or found alike, is flagged and moved behind the matches, any other stays; this keeps the invariant of the scan, or breaks a group for good on a list that misleads |
| `FindDup.FileList.ScanGroup` | hw2/src/finddup.c:358-388 | the group of a head is settled, or broken on a list that misleads, and the next head lies further on |
| `FindDup.FileList.Scan2Dups` | hw2/src/finddup.c:357-388 | a permutation; with files of one mark side by side, exactly the first of each unflagged, if the list does not mislead, and otherwise with two different files in one group |
| `FindDup.FileList.Scan3` | hw2/src/finddup.c:393-427 | the lines printed are those that `ReportPrints` describes |
| `FindDup.FileList.Run` | hw2/src/finddup.c:240-266 | the summary links exactly the files of one inode, and the report groups two files exactly when their bytes are equal if and only if the list is neither confused nor overlooked; on a list that is not confused exactly the repetitions that the program can see are flagged; a DUP line is printed exactly for each flagged file that is no hidden link, a FILE line exactly for the head of each such, in list order |
| `FindDup.FileList.TextIsRight` | hw2/src/finddup.c:532-541 | no list of files with only bytes below 0x80 is confused or overlooked |
| `FindDup.FileList.OverlookedExample` | hw2/src/finddup.c:532-541 | two files that both hold the one byte 0x80 are overlooked |
| `FindDup.FileList.ConfusedExample` | hw2/src/finddup.c:532-541 | two different files of one length and CRC are confused if the one with the first inode begins with 0xff |
| `CrcAlgebra.BitStepLinear` | hw2/src/crc32.c:27-33 | a bit step respects exclusive or |
| `CrcAlgebra.BitStepInjective` | hw2/src/crc32.c:27-33 | a bit step loses nothing |
| `CrcAlgebra.TableStep` | hw2/src/crc32.c:25-43 | eight bit steps of a remainder are a shift by a byte and the table entry of its low byte |
| `CrcAlgebra.FeedBitsIsSteps` | hw2/src/crc32.c:39-45 | up to 32 message bits act as one word, mixed in at once |
| `CrcAlgebra.FeedOctet` | hw2/src/crc32.c:41-44 | dividing by one message byte bit by bit is one look-up |
| `CrcAlgebra.CrcChains` | hw2/src/crc32.c:39-45 | a message may be fed in pieces: crc(crc(c, a), b) = crc(c, a + b) |
| `CrcAlgebra.WindowDetected` | hw2/src/crc32.c:39-45 | bit strings alike outside a window of 32 bits leave equal remainders only if they are equal |
| `CrcAlgebra.BurstDetected` | hw2/src/crc32.c:39-45 | messages of one length that differ only within 32 consecutive bits have different CRCs |
| `CrcAlgebra.FourBytesDetected` | hw2/src/crc32.c:39-45 | messages that differ only within four consecutive bytes have different CRCs |
| `CrcAlgebra.MessageInjective` | hw2/src/crc32.c:41-44 | different messages have different bit strings |
| `Crc32.Checksum.Remainder` | hw2/src/crc32.c:26-33 | the inner loop computes eight bit steps |
| `Crc32.Checksum.FillTable` | hw2/src/crc32.c:23-37 | the table holds the remainder of every byte |
| `Crc32.Checksum.LookUp` | hw2/src/crc32.c:42-43 | one turn of the byte loop divides by one byte |
| `Crc32.Checksum.RcCrc32` | hw2/src/crc32.c:12-46 | on the first and on every later call the result is the CRC of the message by bit-at-a-time division |
| `CrcCheck.PolynomialOfRfc` | hw2/src/crc32.c:23-30 | the constant is the polynomial, its lowest term in the top bit |
| `CrcCheck.CheckValue` | hw2/src/crc32.c:12-46 | the CRC of "123456789" is 0xcbf43926 |
| `Spectrum.RaisedCancels` | hw1/src/goertzel.c:17-26 | on the unit circle powers of z and of its conjugate cancel |
| `Spectrum.HornerTurns` | hw1/src/goertzel.c:17-26 | Horner's sum of the samples is the Fourier sum turned by a power of z |
| `Spectrum.HornerHasTransformPower` | hw1/src/goertzel.c:23-26 | both have the same squared magnitude |
| `Goertzel.FilterTurns` | hw1/src/goertzel.c:17-21 | one step of the recurrence is one step of Horner's rule |
| `Goertzel.ClosingPower` | hw1/src/goertzel.c:23-26 | the closing formula is the squared magnitude of what the state encodes |
| `Goertzel.GoertzelState.constructor` | hw1/src/goertzel.c:7-15 | the cleared state encodes the empty signal |
| `Goertzel.GoertzelState.Step` | hw1/src/goertzel.c:17-21 | the state encodes the signal with one more sample |
| `Goertzel.GoertzelState.Strength` | hw1/src/goertzel.c:23-26 | the result is twice the squared magnitude of the Fourier sum of all samples, over N squared |
| `Goertzel.Analyse` | hw1/src/dtmf.c:289-332 | N - 1 steps and a strength give twice the DFT power over N squared, for every signal |
| `RegistrySteps.StepKeepsInv` | hw5/src/client_registry.c:35-121 | every step of every thread keeps the invariant |
| `RegistrySteps.RegistryIsConsistent` | hw5/src/client_registry.c:35-73 | any threads, any interleaving: the token of `empty` is in one place, the size counts the slots in use when the mutex is free, one thread is inside |
| `RegistrySteps.WaiterSeesEmpty` | hw5/src/client_registry.c:118-121 | a waiter gets through only while no client is registered |
| `RegistrySteps.BlockedOnlyByWaiter` | hw5/src/client_registry.c:43-44 | a register blocked on `empty` with the mutex waits for a waiter that can move, whose step frees it |
| `RegistrySteps.NoDeadlock` | hw5/src/client_registry.c:35-121 | when nothing can move only waiters are left, and clients are registered |
| `RegistryHistory.RegisterPlaces` | hw5/src/client_registry.c:35-52 | a register puts its own client into the lowest empty spot and goes on, or finds none, changes nothing and fails |
| `RegistryHistory.UnregisterDisplaces` | hw5/src/client_registry.c:54-73 | an unregister empties the lowest spot of its own client and goes on, or finds none, changes nothing and fails |
| `RegistryHistory.OthersKeepClients` | hw5/src/client_registry.c:35-121 | no other step touches the array |
| `RegistryHistory.SpotsAreHistory` | hw5/src/client_registry.c:35-73 | over every run the spots of a client are its registrations that found a spot less its unregistrations that found it, and there are 64 spots |
| `RegistryHistory.CallsReturnWhatTheyDid` | hw5/src/client_registry.c:35-73 | over every run and for every thread the calls that returned success, with the one underway, are those that found their spot or client, and the failures those that did not |
| `RegistryHistory.CallsScanForTheirClient` | hw5/src/client_registry.c:35-73 | over every run a thread looks for a client exactly as often as it is called for it |
| `Registry.ClientRegistry.constructor` | hw5/src/client_registry.c:19-29 | the empty registry satisfies the invariant |
| `Registry.ClientRegistry.Place` | hw5/src/client_registry.c:40-42 | the client goes to the first empty spot, if there is one |
| `Registry.ClientRegistry.Displace` | hw5/src/client_registry.c:58-60 | the first spot that holds the client is emptied, if there is one |
| `Registry.ClientRegistry.RegisterStep` | hw5/src/client_registry.c:35-52 | each statement of `creg_register` changes array, size and semaphores as the step for which safety is proved |
| `Registry.ClientRegistry.UnregisterStep` | hw5/src/client_registry.c:54-73 | each statement of `creg_unregister` changes array, size and semaphores as the step for which safety is proved |
| `Registry.ClientRegistry.WaitStep` | hw5/src/client_registry.c:118-121 | each statement of `creg_wait_for_empty` changes the semaphore as the step for which safety is proved |
| `Registry.ClientRegistry.Step` | hw5/src/client_registry.c:35-121 | any enabled thread steps in place and the invariant stays |
| `Registry.ClientRegistry.Interleave` | hw5/src/client_registry.c:35-121 | any sequence of starts and steps in place ends in the state of the run for which safety is proved |
| `InvitationTable.PutNames` | hw5/src/client.c:224-240 | adding adds exactly that invitation |
| `InvitationTable.DropNames` | hw5/src/client.c:242-260 | removing removes exactly that invitation |
| `InvitationTable.SlotOfNext` | hw5/src/client.c:227-236 | with fewer than 256 invitations the first empty slot has a byte-sized number |
| `InvitationTable.PutKeepsLow` | hw5/src/client.c:29-32 | an addition stays in byte-sized slots exactly when the first empty slot is one |
| `InvitationTable.IdFindsSlot` | hw5/src/client.c:46-55 | an id finds its slot exactly when no earlier slot in use has the same byte |
| `InvitationTable.SearchesInvert` | hw5/src/client.c:46-72 | in byte-sized slots searching by id and searching by invitation undo each other |
| `InvitationTable.ModestRunsInvert` | hw5/src/client.c:224-260 | so they do after every sequence of additions and removals that never exceeds 256 |
| `InvitationTable.PutFillsLowest` | hw5/src/client.c:224-240 | an addition fills the lowest unused slot, its number modulo 256 as the id |
| `InvitationTable.DropEmptiesSlot` | hw5/src/client.c:242-260 | a removal empties the one slot of the invitation |
| `InvitationTable.InvOfIsFirst` | hw5/src/client.c:46-55 | an id means the invitation of the first slot in use that has it |
| `InvitationTable.InvOfIsNone` | hw5/src/client.c:46-55 | an id that no slot in use has means none |
| `InvitationTable.TableSizes` | hw5/src/client.c:29-55 | 1000 slots, ids of a byte |
| `LobbyRules.SimpleIsValid` | hw5/src/client.c:262-640 | every handler, granted or not, keeps both tables in agreement and only live invitations listed |
| `LobbyRules.RetiredIsValid` | hw5/src/client.c:332-340 | taking a closed or finished invitation out of both tables keeps the invariants |
| `LobbyRules.OfferedIsValid` | hw5/src/client.c:262-280 | a new invitation in both tables keeps the invariants |
| `LobbyRules.MovedByIsValid` | hw5/src/client.c:562-622 | a move, also one that ends the game, keeps the invariants |
| `LobbyRuns.OnlyTheMeant` | hw5/src/client.c:262-640 | a request leaves every invitation alone but the one it is about |
| `LobbyRuns.PartiesKept` | hw5/src/invitation.c:20-43 | parties and roles of an invitation never change |
| `LobbyRuns.LogoutFrom` | hw5/src/client.c:138-171 | the loop over the slots keeps the invariants |
| `LobbyRuns.LogoutEmpties` | hw5/src/client.c:138-171 | after a logout the table is empty and no table lists an invitation the client is a party to |
| `LobbyRuns.RunsKeepTables` | hw5/src/client.c:138-640 | over every run an invitation is in its source's table exactly if in its target's, then it is not closed and its game is not over; it is never freed while listed |
| `LobbyRuns.UnlistedIsFinal` | hw5/src/invitation.c:100-135 | an invitation closed or played to its end is never changed again |
| `LobbyEffects.EndEffect` | hw5/src/client.c:297-530 | revoke, decline and resign close the invitation, unlist it, give a game to the opponent and tell the opponent its own id |
| `LobbyEffects.OfferEffect` | hw5/src/client.c:262-295 | a new invitation is open and listed by both, and the target is told its own id |
| `LobbyEffects.LiteralInvitedId` | hw5/src/client.c:271-288 | looking the id as written up, the target finds the invitation exactly when its first empty slot has a number below 256 and the source's is the same modulo 256 |
| `LobbyEffects.AcceptEffect` | hw5/src/client.c:411-459 | an open invitation gets a new game, and whoever moves first gets the board |
| `LobbyEffects.MoveEffect` | hw5/src/client.c:532-640 | only the player whose turn it is moves, into the cell of the digit; the opponent is sent the board; at the end both hear the winner and the invitation is unlisted |
| `LobbyEffects.ModestRunsKeepIds` | hw5/src/client.c:46-72 | over every run with at most 256 invitations per client ids are slot numbers and ids and invitations determine each other |
| `LobbyLaws.WhoMayDoWhat` | hw5/src/client.c:262-640 | a request changes something exactly when: to revoke, the client made the invitation and it is open; to decline, it was made to the client; to accept, it was and is open; to resign, it has a game; to move, the cell is empty and it is the client's turn |
| `LobbyLaws.LogoutTells` | hw5/src/client.c:138-171 | a logout tells the opponent of every invitation how it ended, by the opponent's own id: resigned if it had a game, else revoked by the inviting client and declined by the invited one |
| `Lobby.LobbyState.InvSearch` | hw5/src/client.c:46-55 | the first slot with the id |
| `Lobby.LobbyState.IdSearch` | hw5/src/client.c:58-72 | the id of the slot of the invitation |
| `Lobby.LobbyState.AddInvitation` | hw5/src/client.c:224-240 | the first empty slot is filled and one reference is taken |
| `Lobby.LobbyState.RemoveInvitation` | hw5/src/client.c:242-260 | the slot is emptied and one reference given up, or -1 |
| `Lobby.LobbyState.InvAccept` | hw5/src/invitation.c:85-98 | exactly an open invitation is accepted, with a new game |
| `Lobby.LobbyState.InvClose` | hw5/src/invitation.c:100-135 | when it closes, for each role and state, and that a game in play is resigned |
| `Lobby.LobbyState.MakeInvitation` | hw5/src/client.c:262-295 | fails exactly when source and target are the same; otherwise the new state is the one `OfferEffect` describes and the source gets its own id |
| `Lobby.LobbyState.RevokeInvitation` | hw5/src/client.c:297-354 | succeeds exactly when the id means an invitation made by the client that has no game; the new state is the one `EndEffect` describes, otherwise nothing changes |
| `Lobby.LobbyState.DeclineInvitation` | hw5/src/client.c:356-409 | succeeds exactly when the id means an invitation made to the client; the new state is the one `EndEffect` describes, otherwise nothing changes |
| `Lobby.LobbyState.AcceptInvitation` | hw5/src/client.c:411-459 | succeeds exactly when the id means an open invitation made to the client; the new state is the one `AcceptEffect` describes, and the board is returned exactly when the client moves first |
| `Lobby.LobbyState.Resign` | hw5/src/client.c:461-530 | succeeds exactly when the id means an invitation with a game in play; the new state is the one `EndEffect` describes |
| `Lobby.LobbyState.MakeMove` | hw5/src/client.c:532-640 | succeeds exactly when the id means an invitation with a game in which the rules allow the client this move; the new state is the one `MoveEffect` describes |
| `Lobby.LobbyState.LogoutClient` | hw5/src/client.c:138-171 | succeeds exactly for a logged-in client; every invitation is resigned, revoked or declined, whatever their number, and the table ends empty |
| `Lobby.LobbyState.Login` | hw5/src/client.c:115-136 | exactly a logged-out client is logged in |
| `LiteralHandlers.LiteralSearchStops` | hw5/src/client.c:245-256 | the search as written finds the invitation exactly when no empty slot comes first, and trips exactly when one does |
| `LiteralHandlers.LiteralStepAgrees` | hw5/src/invitation.c:85-98 | with the state left open a handler does what it should exactly unless an invitation that has a game is accepted or declined by its target, or the game is resigned |
| `LiteralHandlers.LiteralEndEffect` | hw5/src/invitation.c:100-135 | with the state left open, ending an invitation does what `EndEffect` promises exactly when it has no game |
| `LiteralHandlers.LiteralAcceptReplaces` | hw5/src/invitation.c:85-98 | with the state left open, accepting replaces a game exactly when its target accepts an invitation whose game has a piece on the board |
| `LiteralLogout.LiteralLogoutAgrees` | hw5/src/client.c:138-171 | with the state left open, a logout does what it should exactly when none of the client's invitations has a game |
| `LiteralLogout.LiteralServedAgrees` | hw5/src/invitation.c:85-135 | with the state left open, any request, a logout too, is served right exactly unless it is one of these |
| `LiteralRuns.LiteralRunAgrees` | hw5/src/invitation.c:85-98 | over every run without such requests the code as written reaches the right world, but for the open state |
| `LiteralRuns.AcceptedTwice` | hw5/src/invitation.c:85-98 | a run of the code as written in which a game with a piece in the centre is replaced by a new one |
| `LiteralRuns.RevokingTrips` | hw5/src/client.c:245-256 | a run after which the search as written trips: of two invitations made the first was revoked |
| `LiteralRuns.InvitedMistaken` | hw5/src/client.c:271-288 | a run after which a client is told of an invitation by an id by which it means an older one |
| `LiteralRuns.LiteralMoveCrashes` | hw5/src/client.c:532-562 | a move as written dereferences a null game exactly when the invitation it names is open; otherwise it is taken exactly when the repaired handler takes it |
| `LiteralRuns.MoveCrashesOn` | hw5/src/client.c:532-562 | a run after which every move on the one invitation crashes |
| `GameRules.LocalScanIsEnough` | hw5/src/game.c:84-198 | where there was no line, the row and column of the piece and the two diagonals tell whether there is one |
| `GameRules.NoLineForOther` | hw5/src/game.c:71-80 | a piece makes no line for the other side |
| `GameRules.NextIsFair` | hw5/src/game.c:57-235 | every move or resignation, accepted or not, by any role, keeps the invariant of the game |
| `GameRules.RunsAreFair` | hw5/src/game.c:57-235 | over every run X count minus O count is 0 or 1 as the turn says, and a line or a full board means the game is over |
| `GameRules.OneWinner` | hw5/src/game.c:84-198 | at most one side has a line, and only in a finished game |
| `GameRules.OverIsFinal` | hw5/src/game.c:57-235 | once over, board, winner and turn never change |
| `GameRules.PiecesFillSpaces` | hw5/src/game.c:57-80 | each accepted move takes exactly one space |
| `GameRules.AtMostNinePieces` | hw5/src/game.c:200-214 | no run has more than nine accepted moves, and after nine the game is over |
| `GameLaws.LinesAreEight` | hw5/src/game.c:84-198 | the lines of the board are the eight threes of cells |
| `GameLaws.StartByTheBook` | hw5/src/game.c:24-39 | nine spaces, and the first player's turn |
| `GameLaws.MoveByTheBook` | hw5/src/game.c:57-216 | a player moves exactly on its turn into an empty cell, crosses for the first player; three in line win, a full board is a draw, otherwise the turn passes |
| `GameLaws.ResignByTheBook` | hw5/src/game.c:218-235 | resigning ends a game that is on, for the other player |
| `Game.GameState.constructor` | hw5/src/game.c:24-39 | a new game is the starting position |
| `Game.GameState.ScanLine` | hw5/src/game.c:84-198 | the loop finds the piece that fills a line, or none |
| `Game.GameState.HasSpace` | hw5/src/game.c:200-208 | the loop finds a space exactly if the board is not full |
| `Game.GameState.ApplyMove` | hw5/src/game.c:57-216 | the move in place is the move by the rules, which look at all lines, for every role and also after the end |
| `Game.GameState.ResignGame` | hw5/src/game.c:218-235 | the resignation in place is that of the rules |
| `OptionGrammar.FlagsMayBeGrouped` | hw2/src/getopt.c:82-86 | flags mean the same in one word as in several |
| `OptionGrammar.ArgMayBeApart` | hw2/src/getopt.c:72-81 | an option's argument means the same attached as in the next word |
| `OptionGrammar.OperandsAreTail` | hw2/src/getopt.c:54-62 | what is left over is a tail of the words |
| `OptionReading.WrittenReadsBack` | hw2/src/getopt.c:45-90 | flags and options with arguments, attached or apart, are read as written, and what is behind them by itself |
| `OptionReading.OptionsEnd` | hw2/src/getopt.c:54-62 | options end with a double minus sign, which is no operand, or before a word that is none |
| `OptionReading.UnknownIsTold` | hw2/src/getopt.c:64-71 | a colon or a letter not in the option string is unknown, and reading goes on |
| `OptionReading.MissingIsTold` | hw2/src/getopt.c:72-81 | an option at the end of the words whose argument is missing is reported as such |
| `GetOpt.Scanner.AttGetopt` | hw2/src/getopt.c:45-90 | a call reports the first of what a one-pass parse has left and leaves exactly the rest; it always moves ahead |
| `GetOpt.Scanner.TakeArg` | hw2/src/getopt.c:72-81 | the argument is the rest of the word, the next word, or missing |
| `GetOpt.Scanner.NextLetter` | hw2/src/getopt.c:83-86 | the scanner is at the next letter or the next word |
| `GetOpt.Scanner.ScanAll` | hw2/src/getopt.c:45-90 | calling to the end gives the items of a one-pass parse, and `optind` the first operand |
| `LineSyntax.PrintedReadsBack` | hw4/src/cli.c:235-311 | a command word, words and quoted strings, with spaces between, read back as they were |
| `LineSyntax.TouchingQuote` | hw4/src/cli.c:265-273 | a quoted string that touches a word is a separate argument, and loses exactly its leading spaces |
| `LineSyntax.UnclosedQuote` | hw4/src/cli.c:286-291 | a quote that is never closed takes the rest of the line |
| `LineSyntax.LineReads` | hw4/src/cli.c:235-311 | words stand between spaces, strings between single quotes |
| `LiteralLine.LiteralLineStops` | hw4/src/cli.c:235-311 | on every line of text the loop stops with the arguments of the text if the newline is there; without it, the loop leaves the buffer exactly when the quotes are even in number, and otherwise the last argument loses its last character |
| `LiteralLine.LiteralLineLeaves` | hw4/src/cli.c:294-296 | on a last word without a newline the loop leaves the buffer |
| `ParseLine.SkipSpaces` | hw4/src/cli.c:240-256 | the next place that holds no space |
| `ParseLine.FindQuote` | hw4/src/cli.c:278 | the next quote of the rest of the line, if there is one |
| `ParseLine.Cut` | hw4/src/cli.c:249-252 | a NUL makes one more argument and leaves the earlier ones alone |
| `ParseLine.OnBlank` | hw4/src/cli.c:249-257 | a space ends the word; the scan moves ahead |
| `ParseLine.OnNewline` | hw4/src/cli.c:258-264 | the newline ends the word begun, if there is one, and the arguments are complete |
| `ParseLine.OnQuote` | hw4/src/cli.c:265-292 | a quote ends the word it touches and its string is an argument; the scan moves ahead |
| `ParseLine.Parseline` | hw4/src/cli.c:235-311 | for every line the C strings cut out of the buffer are the arguments of its text |
| `ParseLine.PrintedIsLine` | hw4/src/cli.c:235-311 | what is printed is a line the parser accepts |
| `ParseLine.PrintedLine` | hw4/src/cli.c:235-311 | so it comes back from the buffer as command and arguments, whatever stood before the buffer |

## Left out

- Obfuscation of tags: `PUT` exclusive-ors every word with a constant and `GET_SIZE` undoes it; the model stores the plain words.
- Abort checks of `sf_free` and `sf_realloc`: a pointer the client does not own is excluded by the precondition.
- `sf_mem_grow`: one page per call up to a fixed number; how the pages are obtained is not part of this model.
- Allocator.Heap.MemCpy: copies whole rows; the bytes of a partial last row, and what lies behind the old payload when a larger request is copied, are unspecified.
- HeapTheorems.ReallocEffect: contents are compared row by row, 8 bytes at a time.
- FindDup.FileList.QSort: any order that the untruncated `comp1` allows, built by insertion, which is one for the truncated `comp1` too when every pair keeps its sign; the library's sorting is not part of this model.
- FindDup.FileList.Run: contents are functions of device and inode, the CRC is any function of content, and `comp1` is not truncated.
- Building the file list, opening files, and the headings of the printed report.
- The CRC table is filled once by one thread, as the comment in the code demands.
- Goertzel.Analyse: exact reals with a given cosine and sine; rounding, and the detector that compares the strengths, are not modelled.
- Registry: reference counts and contents of clients, and what `creg_lookup` returns; a thread that looks takes and posts the mutex.
- Lobby: each handler is one step and its packets are sent; clients and invitations go by number, so freeing them is not modelled. The semaphore that a failed login or logout leaves taken is not modelled.
- Lobby.LobbyState.Login: whether the player's name is already in use is for the registry to say.
- Lobby.LobbyState.AddInvitation: the table has an empty slot; with all 1000 slots full the code returns an uninitialised value.
- Lobby.LobbyState.MakeInvitation: both clients are logged in, have an empty slot and get opposite roles. The server passes the role it received on unchecked, and leaves the other one uninitialised unless that is 1 or 2; with all 1000 slots full the code returns an uninitialised value.
- Sockets, packet formats, ratings, and the text form of the board.
- GameRules: reference counts of games, and their storage: `game_create` allocates the size of a pointer for a game.
- GetOpt: the messages written to standard error.
- ParseLine.Parseline: the argument vector grows as a sequence; the code's reallocation is lost to its caller. The line ends with a newline; a last line without one, as `getline` may deliver it, is a matter of `LiteralLine.LiteralLineStops`, over strings.
- Signals, processes, the command interpreter, audio files and the synthesis of tones.
