# Retro-OS, modelled and verified

Retro-OS is a small operating system with its own allocators, filesystems, network parsers and browser. This project
models the algorithms below its drivers and windows in Dafny and proves what they are for.

- **Buddy allocator** (`src/kernel/buddy.cpp`). `BuddyBlocks` is the geometry of aligned blocks of power-of-two sizes,
  `BuddyLists` the free lists as values, `BuddyRuns` whole histories of requests, and `KernelBuddy` the allocator itself:
  lists threaded through the memory they hand out, with its loops over orders.
- **Kernel heap** (`src/kernel/heap.cpp`). `KernelHeap` puts a header, a back pointer and a payload into each buddy block.
- **User heap** (`apps/include/stdlib_ext.h`). `UserBlocks` is the list of blocks as a value, `UserHeap` the linked headers
  in memory and malloc, free and realloc over them.
- **HTTP parser** (`src/kernel/http_parser.c`). `HttpMessage` and `HttpBody` are the byte machine of the body states,
  `HttpExecute` the loop of `http_parser_execute` with its body fast paths, `HttpSplit` the independence of how the input is
  cut into calls, `HttpChunks` the chunked framing and the guarded 64-bit lengths. `HttpUrl` and `HttpUrlText` are the URL
  parser and the texts it takes apart.
- **FAT16** (`src/drivers/fat16.cpp`). The disk is an array of 512-byte sectors (`Fat16Image`), with 8.3 names
  (`Fat16Names`), cluster chains (`Fat16Chains`) that grow while a buffer is written (`Fat16Growth`), the scan for a free
  cluster (`Fat16Scan`), the books that say who owns which cluster (`Fat16Books`) and the driver (`Fat16`).
- **HTML** (`src/kernel/html_tokenizer.cpp`, `src/kernel/html_parser.cpp`). `HtmlTokens` is the tokenizer's state machine,
  `HtmlTokenizer` its object and loop, `HtmlRoundTrip` the texts of tokens; `HtmlDom`, `HtmlBuilder` and `HtmlParser` are the
  DOM, the tree builder as a function, and the tree builder over linked nodes; `HtmlPages` joins text and tree.
- **Phase A files and phase C undo** (`src/kernel/fs_phase_a.cpp`, `src/kernel/fs_phase_c.cpp`). `PhaseTree` is the directory
  tree seen along paths, `PhasePaths` the path strings, `PhaseFs` the inode table and blocks, `PhaseHistory` the recycle bin
  and undo.
- **Kernel filesystem** (`src/kernel/kernel_fs.cpp`). `KernelDirs` is a directory's block of entries, `KernelFs` has the block
  bitmap, inodes and directories, files of twelve direct blocks, and reads at an offset.
- **Smaller algorithms.** `Notepad` (`apps/notepad.cpp`), `Division` (`src/kernel/compiler_runtime.cpp`), `LineDrawing`
  (`src/drivers/graphics.cpp`), `Regex` (`apps/include/regex.h`), `HashBlocks` with `Sha256` and `Md5`
  (`apps/include/crypto.h`).

Objects whose fields the source updates in place are classes here. Each of their methods is proved equal to a function of
the old state, and the theorems are about those functions. Memory is word-addressed and reads 0 where nothing was written.

Some promises do not hold of the code. Each is kept as the code has it, with the exact condition under which it does hold:

- The search for a buddy order never ends for sizes above 2^31, because a 32-bit power of two wraps to 0
  (`KernelBuddy.OrderSearchEnds`, `KernelBuddy.FloorSearchEnds`).
- Cutting HTTP input into several calls can change which body bytes are delivered: bytes marked in a call that then meets a
  strict error at the end of a chunk are never passed on (`HttpSplit.SplitAgreesExactly`).
- Until-EOF framing is entered although `http_message_needs_eof` says no, for an unchunked transfer encoding on a lenient
  request or a bodiless response (`HttpChunks.EofFramingExactly`).
- A write of no bytes to an empty FAT16 file takes a cluster that no entry names (`Fat16.Volume.WriteFile`).
- The scan for a free FAT16 cluster does not stop where the volume does. On a full volume it takes words of the second FAT,
  the root directory or the data area for entries, marks one and links it to the file, unless none of them is zero by then
  (`Fat16.Volume.AllocCluster`, `Fat16.Volume.WriteChain`, `Fat16Scan.FullVolumeExample`).
- malloc serves the last seven sizes below 2^32 with a block that is too small (`UserHeap.WrapsToNothing`).
- A numeric character reference swallows the rest of an HTML text (`HtmlRoundTrip.NumericReferenceLosesRest`), and a void
  element met at the full depth of 64 closes its parent (`HtmlBuilder.VoidLeavesStack`).
- Phase A's mkdir takes block 0, which is the root directory's, when no block is left, and clears it
  (`PhaseFs.MakeDirExactly`); undoing a failed deletion, or one that a full history of 64 did not
  record, takes back another deletion (`PhaseHistory.DeleteUndoExactly`, `PhaseHistory.DeleteThenUndo`).
- A read whose offset and length together wrap around 32 bits goes on behind the end of the file
  (`KernelFs.ReadExactly`), and -2^63 divided by -1 comes out as -2^63 (`Division.SignedDivide`).
- split_path keeps a trailing slash in the last name (`PhasePaths.SplitPath`).

## Model

| member | source | states |
|---|---|---|
| BuddyRuns.RunKeeps | src/kernel/buddy.cpp:26-158 | after every step of every run of allocations and frees, free and live blocks tile the pool, each at a multiple of its size, and no two free buddies below the top order remain |
| BuddyRuns.RunRestores | src/kernel/buddy.cpp:26-158 | once everything is freed, whatever was served, the free lists hold exactly the blocks the pool began with |
| BuddyBlocks.CanonicalTiling | src/kernel/buddy.cpp:89-158 | a range has only one coalesced tiling into aligned blocks |
| BuddyBlocks.Laminar | src/kernel/buddy.cpp:58-158 | two aligned blocks are nested or disjoint |
| BuddyBlocks.BuddyGeometry | src/kernel/buddy.cpp:112-140 | the address found by exclusive or is the other half of the block of the next order |
| BuddyLists.AllocKeeps | src/kernel/buddy.cpp:58-87 | splitting down keeps the tiling and hands out a block of the order asked for that was not live |
| BuddyLists.AllocFailsOnlyWhenFull | src/kernel/buddy.cpp:58-87 | allocation fails exactly when every aligned place of that size in the pool meets a live block |
| BuddyLists.FreeKeeps | src/kernel/buddy.cpp:89-158 | freeing keeps the tiling, removes exactly that block from the live ones and leaves no free buddies unjoined |
| BuddyLists.InitialLists | src/kernel/buddy.cpp:26-56 | the greedy decomposition of a range tiles it with aligned, coalesced blocks |
| BuddyLists.AllFreeIsInitial | src/kernel/buddy.cpp:26-56 | lists without live blocks hold exactly the blocks of that decomposition |
| KernelBuddy.OrderSearchEnds | src/kernel/buddy.cpp:5-14 | the 32-bit doubling search for an order ends exactly for sizes up to 2^31 |
| KernelBuddy.FloorSearchEnds | src/kernel/buddy.cpp:16-24 | the search for the largest fitting order ends exactly for ranges shorter than 2^31 |
| KernelBuddy.GetOrder | src/kernel/buddy.cpp:5-14 | the loop returns the least order whose block holds the size |
| KernelBuddy.Buddy.constructor | src/kernel/buddy.cpp:26-56 | the threaded lists in memory represent the greedy decomposition of the range |
| KernelBuddy.Buddy.Allocate | src/kernel/buddy.cpp:58-87 | grants and lists are those of the list specification, the block is new and cleared, memory inside other live blocks is untouched |
| KernelBuddy.Buddy.Release | src/kernel/buddy.cpp:89-158 | the lists become those of the list specification and exactly that block leaves the live ones |
| KernelBuddy.Buddy.Coalesce | src/kernel/buddy.cpp:105-158 | the loop joins a block with its free buddies order by order and enlists the result |
| KernelHeap.RequiredHolds | src/kernel/heap.cpp:37-70 | the 32-bit size computed for header, back pointer and payload holds them exactly when the sum does not wrap |
| KernelHeap.PayloadsApart | src/kernel/heap.cpp:62-90 | live payloads with their headers and back pointers are pairwise disjoint |
| KernelHeap.KHeap.Allocate | src/kernel/heap.cpp:37-90 | null exactly for size 0 or when the buddy allocator refuses; else a payload inside its own block behind an intact header and back pointer, on the plain and the align path |
| KernelHeap.KHeap.Free | src/kernel/heap.cpp:92-126 | a live payload's block goes back to the buddy allocator at the order it came with; a second free is refused and changes nothing |
| KernelHeap.KHeap.Poke | src/kernel/heap.cpp:62-126 | whatever is written inside a live payload, all headers and back pointers stay intact |
| UserBlocks.FreeKeeps | apps/include/stdlib_ext.h:88-110 | freeing removes exactly that block from those in use, keeps the list a tiling of the memory and leaves no two free neighbours |
| UserBlocks.TakeFreeRestores | apps/include/stdlib_ext.h:40-110 | freeing what malloc has just cut off restores the list |
| UserBlocks.AllFree | apps/include/stdlib_ext.h:88-110 | when nothing is in use, one free block covers all the memory |
| UserHeap.Rounded | apps/include/stdlib_ext.h:40-78 | requests up to 0xFFFFEFE8 are rounded up without wrapping around 32 bits, and larger ones never |
| UserHeap.RoundableExactly | apps/include/stdlib_ext.h:40-72 | the sizes whose rounding to pages stays within 32 bits: up to 0xFFFFEFE8, and the last seven, which round to 0 |
| UserHeap.WrapsToNothing | apps/include/stdlib_ext.h:40-66 | a request for one of the last seven sizes, if served, gets a new block smaller than asked for |
| UserHeap.MallocKeeps | apps/include/stdlib_ext.h:40-86 | malloc adds exactly one block in use of at least the size asked for and fails only when no free block fits and no memory is granted |
| UserHeap.Heap.Malloc | apps/include/stdlib_ext.h:40-86 | the linked headers become the first-fit result with one extension at most, and no header is written inside a payload in use |
| UserHeap.Heap.Free | apps/include/stdlib_ext.h:88-110 | the linked headers become the block list coalesced on both sides, and payloads in use keep their bytes |
| UserHeap.Heap.Realloc | apps/include/stdlib_ext.h:120-138 | of null malloc, to 0 free; else the block itself if large enough, or a new one beginning with the old bytes, or null with nothing changed; other payloads keep their bytes |
| HttpExecute.HttpParser.Execute | src/kernel/http_parser.c:645-2147 | from the body states on, the loop with its body fast paths makes the calls, the state, the error and the count of the byte machine, with body bytes in pieces as long as can be |
| HttpExecute.EventsTellCalls | src/kernel/http_parser.c:1953-2147 | body bytes in such pieces, the events of an execution determine its calls |
| HttpSplit.SplitKeepsNotices | src/kernel/http_parser.c:1874-2147 | for every splitting into non-empty pieces, final parser, bytes consumed and notifications are those of one call |
| HttpSplit.SplitAgreesExactly | src/kernel/http_parser.c:2078-2147 | all splittings into non-empty pieces give the same calls in the same order exactly when the input breaks no chunk |
| HttpSplit.ExecDeliversExactly | src/kernel/http_parser.c:2078-2107 | one call delivers every body byte it consumed exactly when its input breaks no chunk |
| HttpChunks.StrandedExample | src/kernel/http_parser.c:1996-2107 | "1 CR LF A X", fed to a parser that waits for a chunk, delivers no body byte in one call and one in two |
| HttpBody.StepSound | src/kernel/http_parser.c:1874-2120 | every byte keeps the content length within 64 bits and away from the sentinel where a state counts it down |
| HttpChunks.ChunkedRoundTrip | src/kernel/http_parser.c:1996-2120 | executing encoded chunks (section 4.1 of RFC 7230), with any size digits and extensions, delivers exactly their data and one message_complete |
| HttpChunks.PartsRoundTrip | src/kernel/http_parser.c:1996-2120 | sending each of any list of non-empty parts as one chunk delivers their concatenation and one completion, however the bytes are cut into calls |
| HttpChunks.SizeDigits | src/kernel/http_parser.c:2012-2047 | the guard admits exactly the chunk sizes up to 2^64 - 17, stored without wrapping |
| HttpChunks.AccumulateLength | src/kernel/http_parser.c:1542-1570 | the Content-Length loop accepts exactly the values up to 2^64 - 7 and stores them |
| HttpChunks.EofFramingExactly | src/kernel/http_parser.c:1874-1940 | until-EOF framing is entered exactly when http_message_needs_eof says so, but for the unchunked transfer encodings named |
| HttpUrl.UrlSound | src/kernel/http_parser.c:2423-2543 | fields of a URL that parses lie in the buffer, are not empty and do not overlap; a schema comes with a host; the port is the value of its digits and fits; CONNECT has host and port only |
| HttpUrl.ScanKeeps | src/kernel/http_parser.c:2423-2491 | the first loop's fields are in order and disjoint, and the current one ends at the current character |
| HttpUrl.HostKeeps | src/kernel/http_parser.c:2254-2415 | the host loop's fields lie within the host field, in order, and the host counted anew is not empty |
| HttpUrl.Url.Parse | src/kernel/http_parser.c:2336-2543 | the loops fill in exactly the fields and the port of the specification, or fail with it |
| HttpUrlText.UrlRoundTrip | src/kernel/http_parser.c:493-639 | parsing the text of an address sets exactly its parts' fields, each on exactly its text |
| Fat16Names.NameRoundTrip | src/drivers/fat16.cpp:74-98 | an entry written under a valid 8.3 name is matched by exactly the queries equal to it in upper case |
| Fat16Names.CopyName | src/drivers/fat16.cpp:227-279 | the loop copies name and extension into the fields of the entry |
| Fat16Names.FindAfterAdd | src/drivers/fat16.cpp:198-279 | after adding an entry, lookups change only for its own name |
| Fat16.Volume.AllocCluster | src/drivers/fat16.cpp:63-72 | the first cluster whose word is zero, marked as an end of chain in every copy of the FAT, or 0; it is a free cluster of the volume, or 0 with nothing changed, exactly when the volume has a free cluster or no word behind it looks free |
| Fat16.Volume.FindEntry | src/drivers/fat16.cpp:100-211 | the walk over root sectors finds the first live entry that matches before the end mark |
| Fat16.Volume.CreateFile | src/drivers/fat16.cpp:227-279 | -1 exactly for a name that exists, -2 for a full directory, else one new empty entry and nothing else |
| Fat16.Volume.WriteChain | src/drivers/fat16.cpp:432-486 | the chain grows by free clusters of the volume only, the sectors hold the bytes written and the count is full exactly when there is room, if and only if there is room or no word behind the volume looks free once it is full; else the chain leads out of the volume |
| Fat16Scan.WordWhenFull | src/drivers/fat16.cpp:63-72 | once every cluster is used up, a word behind the volume is zero exactly if it was before, outside of the copy of the FAT and of the clusters written, or the buffer put a zero there |
| Fat16Scan.UsedUp | src/drivers/fat16.cpp:63-72 | with no cluster left, there was no room, and the scan gives 0 exactly when the write stays inside |
| Fat16Scan.FullVolumeExample | src/drivers/fat16.cpp:63-72 | on a full volume with one FAT of one sector the scan takes the first root directory entry for a free cluster and marks it |
| Fat16.Volume.WriteFile | src/drivers/fat16.cpp:335-371 | if the write stays inside: chains stay acyclic, apart and ended; a full write stores exactly the data; other files keep their bytes; an empty write to an empty file loses one cluster. If it does not, the chain leads out of the volume |
| Fat16.Volume.ReadFile | src/drivers/fat16.cpp:318-333 | the file's bytes, followed by less than a sector |
| Fat16.Volume.DeleteFile | src/drivers/fat16.cpp:393-418 | exactly the file's clusters become free, and the other files keep their bytes |
| Fat16.Volume.StoreAndFetch | src/drivers/fat16.cpp:318-418 | creating, writing and reading back under the name in any case gives the data; other files are unchanged |
| Fat16.Volume.FillAndDelete | src/drivers/fat16.cpp:335-418 | filling an empty file and deleting it gives back the free clusters, whether or not the write was complete, if it stayed inside |
| Fat16Books.BooksGrown | src/drivers/fat16.cpp:432-486 | a chain that grows by free clusters keeps all chains ended and apart and every cluster accounted for |
| Fat16Books.BooksRemoved | src/drivers/fat16.cpp:393-418 | so does removing an entry with its chain |
| HtmlTokens.StepSound | src/kernel/html_tokenizer.cpp:17-515 | no state dereferences a null current_token, no buffer outgrows its array, each turn moves on or lowers a rank on the same character, and returning a token costs budget |
| HtmlTokens.Tokenize | src/kernel/html_tokenizer.cpp:17-515 | every input is tokenized to at most as many tokens as it has characters |
| HtmlTokens.EndStays | src/kernel/html_tokenizer.cpp:21-41 | once the end of the file has been reported it is reported for ever |
| HtmlTokenizer.Tokenizer.NextToken | src/kernel/html_tokenizer.cpp:17-515 | the loop always returns, with the token and the state of the specification |
| HtmlRoundTrip.RoundTrip | src/kernel/html_tokenizer.cpp:17-515 | tokenizing the text of any writable tags, characters, comments and doctypes gives exactly those tokens |
| HtmlRoundTrip.NumericReferenceLosesRest | src/kernel/html_tokenizer.cpp:403-512 | whatever follows "&#" is lost |
| HtmlDom.AppendKeeps | src/include/html_dom.h:37-47 | append_child keeps a tree whose sibling, parent and child links spell its lists of children |
| HtmlBuilder.Process | src/kernel/html_parser.cpp:27-188 | handing a token on from mode to mode ends; document at the bottom of a non-empty stack, each entry the parent of the next, and the tree's links survive every token |
| HtmlBuilder.VoidLeavesStack | src/kernel/html_parser.cpp:121-140 | a void element leaves the stack as it was exactly when the stack is not full |
| HtmlBuilder.ParseFrom | src/kernel/html_parser.cpp:10-25 | parsing comes to an end on every input, whatever states are set in between, and keeps the stack and the tree |
| HtmlParser.Node.AppendChild | src/include/html_dom.h:37-47 | exactly the parent's, the new child's and the last child's pointers change |
| HtmlParser.Parser.ProcessToken | src/kernel/html_parser.cpp:27-219 | the nodes in memory, the array of open elements, the mode and the tokenizer's state become those of the specification |
| HtmlParser.Parser.ParseText | src/kernel/html_parser.cpp:10-25 | the linked nodes built spell exactly the DOM of the specification |
| HtmlPages.PageRoundTrip | src/kernel/html_parser.cpp:10-219 | parsing the HTML text of any page of elements, attributes and texts within the depth limit builds exactly that page's tree |
| PhaseTree.MoveRelocates | src/kernel/fs_phase_a.cpp:214-263 | after a rename outside of what is moved, each path leads where it led before, but below the new place to what was below the old one, where nothing is left |
| PhaseTree.MoveBack | src/kernel/fs_phase_c.cpp:108-117 | moving an entry back to where it was leads every path where it led at first |
| PhaseTree.MoveInside | src/kernel/fs_phase_a.cpp:214-263 | after a rename to a place below itself nothing of what was moved is reachable |
| PhaseTree.MoveKeeps | src/kernel/fs_phase_a.cpp:214-263 | a rename keeps names distinct and one path to each inode |
| PhaseTree.AddExtends | src/kernel/fs_phase_a.cpp:141-199 | adding an entry adds exactly one path |
| PhasePaths.SplitPath | src/kernel/fs_phase_a.cpp:72-93 | parent and name spell the path's names exactly when it does not end in a slash |
| PhaseFs.Disk.Resolve | src/kernel/fs_phase_a.cpp:95-138 | the loop over characters is the walk along the path's names |
| PhaseFs.Disk.Rename | src/kernel/fs_phase_a.cpp:214-263 | goes through exactly when the old path and the new directory exist and the new path does not; then one entry moves |
| PhaseFs.RenameShows | src/kernel/fs_phase_a.cpp:214-263 | what every path leads to after a rename, outside of and below what is moved |
| PhaseFs.Disk.MakeDir | src/kernel/fs_phase_a.cpp:141-170 | refuses exactly for a missing directory, an existing name or a full table; else one directory entry, with the block the allocator gives |
| PhaseFs.MakeDirExactly | src/kernel/fs_phase_a.cpp:35-170 | mkdir adds exactly its path if and only if a block is free or the root has no entries |
| PhaseFs.Disk.CreateFile | src/kernel/fs_phase_a.cpp:172-199 | the new inode, exactly when directory and table allow it |
| PhaseFs.CreateAddsPath | src/kernel/fs_phase_a.cpp:172-199 | creating a file adds exactly its path |
| PhaseHistory.Desktop.Delete | src/kernel/fs_phase_c.cpp:73-162 | records the deletion if there is room, then renames into the recycle bin or leaves the files alone |
| PhaseHistory.Desktop.Undo | src/kernel/fs_phase_c.cpp:108-117 | pops the last deletion and tries the rename back |
| PhaseHistory.DeleteUndoExactly | src/kernel/fs_phase_c.cpp:73-117 | deleting one path and undoing the deletion of another leads every path where it led before exactly when the deletion went through outside of itself and is the one taken back, or failed with nothing in the bin to put back |
| PhaseHistory.DeleteThenUndo | src/kernel/fs_phase_c.cpp:152-172 | the two actions in turn, for every length of the history: a full one takes back its last entry |
| LineDrawing.LineEnds | src/drivers/graphics.cpp:77-98 | max(dx, dy) + 1 points from the first end to the second, reached only by the last step |
| LineDrawing.Straight | src/drivers/graphics.cpp:77-98 | every point is within half a pixel of the true line along the shorter axis |
| LineDrawing.Connected | src/drivers/graphics.cpp:77-98 | consecutive points are neighbours, one pixel on along the longer axis |
| LineDrawing.StepOn | src/drivers/graphics.cpp:88-96 | the tests on the error term choose exactly the moves to the nearest next point |
| LineDrawing.ReversedPoint | src/drivers/graphics.cpp:77-98 | drawn from the other end the line shows the same point exactly where no two pixels are equally near |
| LineDrawing.Screen.DrawLine | src/drivers/graphics.cpp:61-98 | the loop ends, stays within 32 bits up to a length that depends on the slope, and colours exactly the line's pixels that are on the screen |
| LineDrawing.LimitTight | src/drivers/graphics.cpp:87-96 | for lines that rise by one pixel that length is the limit, to within one |
| Regex.MatchHere | apps/include/regex.h:20-56 | true exactly when some beginning of the text, or all of it for a closing $, is in the pattern's language |
| Regex.Match | apps/include/regex.h:58-66 | true exactly when a match starts somewhere, or at the start for a leading ^ |
| Regex.Find | apps/include/regex.h:69-95 | the first place where a match starts |
| Regex.MatchesAtMeans | apps/include/regex.h:20-66 | a place starts a match exactly when a string of the language stands there, ends the text for a closing $ and is the start for a leading ^ |
| Regex.AcceptsStar | apps/include/regex.h:20-26 | the loop of a starred item against concatenations in the language |
| HashBlocks.PadZerosLeast | apps/include/crypto.h:237-256 | as few zeros as leave room for the length in the last block |
| HashBlocks.PaddingTells | apps/include/crypto.h:105-122 | different messages are padded to different strings of blocks |
| Sha256.Context.Update | apps/include/crypto.h:214-235 | any bytes are taken in: the words are the fold over the whole blocks so far, the buffer holds the rest |
| Sha256.Context.Final | apps/include/crypto.h:237-256 | the digest of the message padded as in section 5.1.1 of FIPS 180-4 |
| Sha256.HashPieces | apps/include/crypto.h:202-264 | any sequence of updates and a final give the digest of the concatenation |
| Md5.CountAdds | apps/include/crypto.h:85-92 | the two words with their carry count bits modulo 2^64 |
| Md5.Context.Update | apps/include/crypto.h:85-103 | any bytes are taken in, as long as the 32-bit index does not wrap |
| Md5.Context.Final | apps/include/crypto.h:105-122 | the digest of the message padded and followed by its length as in sections 3.1 and 3.2 of RFC 1321 |
| Md5.HashPieces | apps/include/crypto.h:77-130 | any sequence of updates and a final give the digest of the concatenation |
| KernelFs.FileSystem.AllocBlock | src/kernel/kernel_fs.cpp:39-50 | the first free block, marked, cleared and counted; -1 exactly when none is free |
| KernelFs.FileSystem.AllocInode | src/kernel/kernel_fs.cpp:59-77 | the first inode not in use, without blocks, and counted; -1 exactly when all are in use |
| KernelFs.FileSystem.DirAdd | src/kernel/kernel_fs.cpp:83-108 | the entry goes to the first free place of the directory's block, which is allocated and counted if there is none; the name is then shown unless one like it was; every block in use stays marked with one owner and other inodes keep their bytes |
| KernelFs.FileSystem.Create | src/kernel/kernel_fs.cpp:126-134 | a fresh inode without blocks and its name in the parent if there is a place; blocks in use keep one owner, the counts stay right, other inodes keep their bytes and other directories their names |
| KernelFs.FileSystem.DirLookup | src/kernel/kernel_fs.cpp:110-124 | the inode of the first entry in use with that name, or -1 |
| KernelDirs.LookupAfterPut | src/kernel/kernel_fs.cpp:83-124 | after an entry is written, lookups differ for its name as far as it was kept, and only if there was none of that name |
| KernelFs.FileSystem.Write | src/kernel/kernel_fs.cpp:136-176 | as much as free blocks and the limit of twelve allow is stored; every block in use stays marked with one owner, the count stays right, other files keep their bytes |
| KernelFs.FileSystem.Read | src/kernel/kernel_fs.cpp:178-209 | the loop over blocks gives the bytes of the specification at any offset and length |
| KernelFs.ReadExactly | src/kernel/kernel_fs.cpp:178-184 | a read gives exactly that slice of the file, but for sums of offset and length that wrap around 32 bits to no more than the size of a file that does not fill its blocks |
| KernelFs.FileSystem.StoreAndRead | src/kernel/kernel_fs.cpp:136-209 | after a write a read gives that part of what was stored, exactly but for reads that wrap around 32 bits |
| Notepad.InsertIsFlat | apps/notepad.cpp:291-310 | insert_char puts the character into the flat text at the cursor |
| Notepad.BreakIsFlat | apps/notepad.cpp:337-354 | newline puts a line feed into the flat text at the cursor |
| Notepad.EraseIsFlat | apps/notepad.cpp:312-335 | backspace takes the character in front of the cursor out of the flat text, across lines too |
| Notepad.EraseUndoes | apps/notepad.cpp:291-354 | backspace undoes a character or a line break |
| Notepad.SaveLoad | apps/notepad.cpp:245-281 | saving a freshly loaded text gives it back without carriage returns and NULs |
| Notepad.LoadSave | apps/notepad.cpp:245-281 | loading a saved buffer gives its lines back exactly when they hold no line feeds, carriage returns or NULs |
| Notepad.TextBuffer.Backspace | apps/notepad.cpp:312-335 | the array of lines is joined or shortened as specified |
| Notepad.TextBuffer.Newline | apps/notepad.cpp:337-354 | the lines behind are shifted up and the line is broken at the cursor |
| Notepad.TextBuffer.InsertChar | apps/notepad.cpp:291-310 | the character goes into the cursor's line, after a cursor behind the last line has been put back |
| Notepad.TextBuffer.Load | apps/notepad.cpp:245-266 | the loop over at most 32768 characters builds the lines of the loaded text |
| Notepad.TextBuffer.Save | apps/notepad.cpp:268-280 | the loop over the lines writes the flat text |
| Division.UnsignedDivide | src/kernel/compiler_runtime.cpp:5-17 | the bit loop gives the quotient for every divisor, and no bit is shifted out of the remainder |
| Division.UnsignedRemainder | src/kernel/compiler_runtime.cpp:19-31 | likewise the remainder |
| Division.SignedDivide | src/kernel/compiler_runtime.cpp:34-42 | division towards zero, exactly but for -2^63 by -1 |

## Left out

- The HTTP start line, header names and trailer fields: the first byte of either ends the model with an error of its own; the flags, the content length and the message type are inputs.
- HTTP callbacks that fail, pause or ask for an upgrade: every callback returns 0.
- The slab allocator and paging: they are outside this model, in which `slab_is_initialized` is 0; and the guarantee that an aligned kmalloc starts a page, because it returns a page start plus 4.
- KernelHeap.KHeap.Allocate: does not cover sizes whose total, with header and back pointer, exceeds 2^31: the search for an order does not end for them, or the 32-bit sum has wrapped (`KernelHeap.RequiredHolds`).
- KernelHeap.KHeap.Free: covers null, what kmalloc gave, and pointers that the checks refuse; what another pointer does depends on the bytes in front of it.
- FAT16 subdirectories, mkdir, rename and reads at an offset, and long names; disks too short for the sectors of 65536 entries behind the reserved ones.
- Fat16.Volume.WriteFile: says of a write that leaves the volume only that its chain does, that the sectors before the FAT are unchanged, and that it ends.
- Ten of the tokenizer's 36 states, which no transition enters, character references inside attribute values in the round trip, and script, style and title elements in the page round trip.
- Freeing the DOM, and allocation failure in the browser.
- Phase A persistence to TRUTH.DAT, file contents, permissions, and the bootstrap's standard directories; directories with 60 entries, on which the source writes past its block; paths through files.
- LineDrawing.Screen.DrawLine: assumes a limit on the length that is exact, to within one, for lines that rise by one pixel (`LineDrawing.LimitTight`); for other slopes the exact limit depends on the common divisors of the extents.
- The round functions of SHA-256 and MD5: the compression function is a parameter.
- Sha256.Context.Update: does not cover calls whose length and buffered bytes together reach 2^32, for which the source takes the wrong branch.
- The end position that regex_find reports, and glob_match.
- sbrk returning memory that is not contiguous, and the failure of the first sbrk, which the user heap does not check.
- Permissions and owners of the kernel filesystem, and reclaiming the blocks a file had before it is overwritten, which the source does not do.
- UserHeap.Heap.Malloc: does not cover requests from 0xFFFFEFE9 to 2^32 - 8, for which the size of the memory to be added wraps around 32 bits.
- UserHeap.Heap.Realloc: nor larger ones, for which it copies into a block that is too small.
- Md5.Context.Update: does not cover calls within 63 bytes of 2^32, for which the source's index wraps.
- PhaseFs.Disk.Rename: assumes that the new directory has a free slot and that only the last name of a path is a file.
- PhaseFs.Disk.MakeDir: makes the same assumptions.
- PhaseFs.Disk.CreateFile: makes the same assumptions.
- Notepad's scrolling and its dirty mark, and characters typed as NUL.
- Clocks, ports, interrupts, scheduling and the graphical shell.
