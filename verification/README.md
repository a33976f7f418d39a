# Verified models of xv6 and JOS

Models, in Dafny, of the parts of an xv6 kernel (`my-xv6-public`) and a JOS kernel (`lab/kern`)
whose correctness is hardest to see, with proofs of what they promise. Every claim is about all
inputs, all states or all runs. `dafny verify dfyconfig.toml` checks the whole project.

- **Storage.** `LogDisk`, `Log`, `GroupCommit` and `LogCapacity` model the redo log: what each block
  write leaves on disk, the code that makes those writes, and operations, commits, crashes and
  recoveries interleaved. `BufRing`, `Bio`, `BioHistory` and `Bcache` model the buffer cache, its list and
  its users. `Ide` and `IdeHistory` model the interrupt-driven disk queue against the synchronous driver of
  `memide.c`. `FsCodec`, `FsState`, `FsFile` and `FileSystem` model the bitmap, block maps, `readi`,
  `writei`, `itrunc` and `filewrite` on a block array, and `CrashSafety` joins them to the log. `MkFs` and
  `ImageRoundTrip` build an image and read it back.
- **Memory.** `Umalloc` models the Kernighan and Ritchie allocator (The C Programming Language, second
  edition, section 8.7). `VmSpace` and `Vm` model frames, page tables and the address spaces of xv6;
  `Links`, `PageRefs`, `Pmap` and `PageWrap` the reference-counted pages and environments of JOS. Page
  tables are the two-level 32-bit tables of section 4.3 of volume 3A of the Intel manual.
- **Processes.** `Proc`, `ProcFamily`, `ProcHistory` and `ProcTable` model the process table and the
  scheduler on several processors, with `ptable.lock` handed across `swtch`. `Pipe`, `PipeProtocol` and
  `PipeHistory` model pipes and their sleeping readers and writers.
- **Languages.** `ShellGrammar`, `ShellTokens` and `Shell` model the shell's parser, the grammar it accepts
  and its in-place termination of words, `Grep` the pattern matcher (The Practice of Programming,
  chapter 9), `GrepFile` its loop over a file.

Three kinds of member occur. Classes keep the mutable state of the C code and their methods keep its loops;
each method's contract ties the new state to a function of the old one or states the promised property
outright. Values and functions specify what the methods compute, and lemmas prove what the system
promises about them. Protocols with several processes are step relations, and theorems about them speak of
every run; the modules named History say what each call gives its caller, in terms of the steps taken and
not of the fields they set.

Where the natural claim is false of the code, the model keeps the code and states the exact condition:
`malloc` of more than 2^31 - 16 bytes from sbrk or near 2^32 bytes (`Umalloc.Allocator.Malloc`), a log with
fewer than LOGSIZE slots (`LogCapacity.WithinLogExactly`), a root directory whose size is a multiple of the
block size (`MkFs.Image.FixRoot`), the exit of a killed pipe writer (`PipeProtocol.ReadersExactly`), the
65536th reference to a page (`PageRefs.InsertedOk`, `PageWrap.FreedWhileMapped`), a second free of the last
free page (`Pmap.Kernel.PageFree`), and a read that ends inside a line (`GrepFile.SeesLines`).

## Model

| member | source | states |
|---|---|---|
| LogDisk.CommitAtomic | my-xv6-public/log.c:192-202 | For every transaction and every point between two block writes of commit, recovery leaves the home blocks exactly as before when at most the log blocks had reached the disk, and exactly as after once the non-empty header had. |
| LogDisk.RecoveryIdempotent | my-xv6-public/log.c:115-122 | A crash after any write of recovery leaves a disk that recovers to the same result. |
| LogDisk.RepeatedCrashes | my-xv6-public/log.c:115-122 | Any chain of crashes during recovery, of any length, recovers to what the first recovery would have given. |
| LogDisk.CommitCompletes | my-xv6-public/log.c:192-202 | A commit that is not interrupted ends with a cleared header and the home blocks of the transaction applied. |
| LogDisk.CommitEnd | my-xv6-public/log.c:192-202 | The writes of commit are the log blocks, the header, the home blocks and the clearing, in that order, and their end is what the callers saw. |
| LogDisk.InstalledHeaded | my-xv6-public/log.c:69-82 | Installing from a written header gives each home block its last logged contents and leaves the others. |
| LogDisk.InstallAgain | my-xv6-public/log.c:69-82 | Installing a log over a disk that has some of it installed already gives the same disk. |
| Log.Log.WriteLog | my-xv6-public/log.c:177-190 | The loop produces exactly the specified sequence of durable disks, one log block at a time. |
| Log.Log.WriteHead | my-xv6-public/log.c:101-113 | One durable write that replaces the count and the block numbers and keeps the rest of the header block. |
| Log.Log.InstallTrans | my-xv6-public/log.c:69-82 | The loop produces the install sequence of disks and unpins exactly the installed blocks. |
| Log.Log.Commit | my-xv6-public/log.c:192-202 | The durable disks are those of the commit trace, nothing is written for an empty transaction, and afterwards the disk holds what the callers saw and nothing is pinned. |
| Log.Log.ReadHead | my-xv6-public/log.c:85-96 | The in-memory header is the one on disk. |
| Log.Log.RecoverFromLog | my-xv6-public/log.c:115-122 | The durable disks are those of the recovery trace, ending in the recovered disk with an empty log. |
| Log.Log.LogWrite | my-xv6-public/log.c:213-233 | Panics exactly on the two guards; otherwise the block is recorded once, pinned, and seen by later reads, within both size limits. |
| GroupCommit.ProtocolStep | my-xv6-public/log.c:125-174 | Every step of every process keeps: outstanding counts the operations, committing means none is in progress, header entries are distinct, header plus unspent reservations fit LOGSIZE, and a process sleeps in begin_op only while a commit runs, or while operations in progress leave no room for one more. |
| GroupCommit.ProtocolHolds | my-xv6-public/log.c:125-174 | The protocol invariant holds in every state of every run. |
| GroupCommit.EndOpKeeps | my-xv6-public/log.c:146-174 | end_op never meets its "log.committing" panic. |
| GroupCommit.StorageStep | my-xv6-public/log.c:146-233 | Each step, crashes and recovery included, refines one step of a disk whose transactions are atomic. |
| GroupCommit.DurableIsQuiescent | my-xv6-public/log.c:146-202 | In every run, what a crash would recover is exactly what operations saw when the last commit took place, with no operation in progress, or the start if nothing has been committed; so a committed operation survives every crash. |
| CrashSafety.CrashKeepsFiles | my-xv6-public/log.c:115-202 | In every run, what a crash would recover is a file system with exactly the inodes, blocks and bytes of every file that operations saw when the last commit took place. |
| CrashSafety.CrashKeepsWhole | my-xv6-public/log.c:115-202 | In every run that begins with a whole file system and whose operations keep it between crashes, a crash at any point, also during commit or recovery, recovers to a whole file system. |
| CrashSafety.BytesOfWords | my-xv6-public/log.c:101-113 | Every block of bytes is the little-endian bytes of a block of words. |
| CrashSafety.WordsOfBytes | my-xv6-public/log.c:101-113 | A block of 32-bit words is read back from its bytes. |
| GroupCommit.LargeLogSuffices | my-xv6-public/log.c:132 | With LOGSIZE data slots in the log no run outgrows them. |
| GroupCommit.NobodyStuck | my-xv6-public/log.c:125-174 | In every run within the slots of the log an awake process can take a step of its own, recovery can go on, and while a process sleeps, the commit or an operation that it waits for can go on. |
| GroupCommit.ProcMoves | my-xv6-public/log.c:125-202 | begin_op goes on exactly when no commit runs and the log has room for one more operation besides those in progress, and sleeps otherwise; an operation can end; a commit can write its next block or be done. |
| GroupCommit.AsleepStep | my-xv6-public/log.c:125-174 | A process sleeps exactly from the begin_op that found no room to the next end of a commit, or of an operation that leaves others in progress. |
| GroupCommit.CommitterBegan | my-xv6-public/log.c:146-174 | In every run the block writes of a commit and its end are steps of the process whose end_op found no other operation in progress. |
| GroupCommit.OpMoves | my-xv6-public/log.c:213-233 | The guard of log_write panics exactly at its two limits, and past it any home block can be recorded with any contents, up to MAXOPBLOCKS blocks in one operation. |
| LogCapacity.WithinLogExactly | my-xv6-public/log.c:132-233 | No run outgrows the on-disk log exactly when it has LOGSIZE slots besides the header. |
| LogCapacity.Overflow | my-xv6-public/log.c:218-232 | For a smaller log, such as the one mkfs makes, a run of concurrent operations that each pass the guard before taking the lock reaches a header that does not fit. |
| LogCapacity.AtMostTwoOver | my-xv6-public/log.c:132-233 | In every run the guard of log_write keeps the header within two blocks of the slots, since at most three operations are in progress at once. |
| FsCodec.WordOfPut | my-xv6-public/fs.c:389-394 | A stored word reads back, and the other words of the block are unchanged. |
| FsCodec.WordBytes | my-xv6-public/fs.c:389-394 | A word lies in four bytes, the least significant first. |
| FsCodec.BitOfPut | my-xv6-public/fs.c:56-95 | A set or cleared bitmap bit reads back, and every other bit of the block is unchanged. |
| FsCodec.BitWeight | my-xv6-public/fs.c:64-65 | The bit of a block is that of weight 1 << (bi % 8) in byte bi / 8. |
| FsCodec.InodeOfPut | my-xv6-public/fs.c:221-236 | An inode written into its slot reads back, and the other inodes of the block are unchanged. |
| FsCodec.InodeBytes | my-xv6-public/fs.h:29-36 | Where each field of a disk inode lies in its 64 bytes. |
| FileSystem.FileSystem.Mount | my-xv6-public/fs.c:171-186 | The kernel sees the inodes and block map that a well-formed disk holds. |
| FileSystem.FileSystem.Balloc | my-xv6-public/fs.c:56-78 | Returns the lowest clear block, now marked and zeroed, with every other bit and every other block but its bitmap block as before, or fails exactly with a full bitmap. |
| FileSystem.FileSystem.Bfree | my-xv6-public/fs.c:81-95 | Clears the one bit and no other; panics exactly when it was clear already. |
| FileSystem.FileSystem.Iupdate | my-xv6-public/fs.c:220-236 | The inode on disk becomes the one in memory; other inodes and all block maps stay. |
| FileSystem.FileSystem.Bmap | my-xv6-public/fs.c:372-400 | Gives the mapped block, or maps a fresh zero one while keeping block ownership, other files and the bound on logged blocks; fails only past MAXFILE or on a full disk. |
| FileSystem.FileSystem.Readi | my-xv6-public/fs.c:452-476 | Returns exactly the slice of the file cut at its size, with the error cases of the 32-bit bounds test, and changes nothing. |
| FileSystem.FileSystem.WriteLoop | my-xv6-public/fs.c:498-504 | After the loop the file holds the data overlaid so far, every other file is the same, and the blocks logged stay within the cost of the span. |
| FileSystem.FileSystem.Writei | my-xv6-public/fs.c:481-511 | The file becomes the old one overlaid at the offset, other inodes keep their bytes, ownership, no holes and the inode on disk hold again; every block that changed was passed to log_write; errors change nothing and are exactly the bounds. |
| FileSystem.FileSystem.FreeIndirect | my-xv6-public/fs.c:421-431 | Frees the entries of the indirect block and the block itself without meeting "freeing free block". |
| FileSystem.FileSystem.Itrunc | my-xv6-public/fs.c:407-435 | Frees exactly the blocks of this inode, never panics, empties the file and leaves the others; every block that changed was passed to log_write. |
| FsFile.ChunkCost | my-xv6-public/file.c:127-152 | A chunk of at most three blocks, at any alignment in a file without holes, costs at most MAXOPBLOCKS logged blocks. |
| FileSystem.File.Write | my-xv6-public/file.c:118-156 | filewrite makes one transaction for each three blocks of data, and each logs at most MAXOPBLOCKS blocks; the file has exactly the written prefix overlaid at the offset, and a short count comes only from the bounds. |
| FsFile.WriteWithin | my-xv6-public/fs.c:481-511 | A write inside the file overlays its bytes and keeps the rest of the state well formed. |
| FsFile.WriteBeyond | my-xv6-public/fs.c:506-509 | A write that extends the file is complete once the size and the inode have been written. |
| FsFile.BudgetStep | my-xv6-public/fs.c:498-504 | Each piece of a write adds to the logged blocks no more than its share of the bound. |
| FsState.GrownAddrOk | my-xv6-public/fs.c:378-388 | Taking a free block for a direct or indirect address keeps the bitmap equal to the metadata plus the disjoint blocks of the inodes. |
| FsState.GrownEntryOk | my-xv6-public/fs.c:389-394 | Taking a free block for an entry of the indirect block keeps ownership and every other file. |
| FsState.SlotFreed | my-xv6-public/fs.c:414-419 | Freeing a block and clearing its address keeps ownership of all other blocks. |
| FsState.EntryFreed | my-xv6-public/fs.c:421-428 | Freeing an entry of an indirect block keeps ownership of all other blocks while the entry is still written. |
| FsState.FileBlockWrite | my-xv6-public/fs.c:498-504 | Writing a data block changes one block of one file. |
| FsState.ContentByte | my-xv6-public/fs.c:372-400 | Byte j of a file without holes is byte j % BSIZE of the block that its direct address, or the entry of its indirect block, names for j / BSIZE. |
| FsState.OnDiskPlace | my-xv6-public/fs.h:38-48 | Inode i lies 64 * i bytes into the inode blocks, and the bit of block b lies b bits into the bitmap. |
| FsFile.WholeFrame | my-xv6-public/fs.h:20-27 | Blocks before the inodes, such as the log, belong to no file: changing them keeps the file system whole and every file as it was. |
| MkFs.LayoutOk | my-xv6-public/mkfs.c:93-108 | The computed layout puts log, inodes and bitmap before the data blocks without overlap, with as many inode and bitmap blocks as the inodes and blocks need. |
| MkFs.Image.constructor | my-xv6-public/mkfs.c:108-115 | A blank image is a well-formed file system with no files and the metadata blocks in use: the super block in block 1, and zeroes. |
| MkFs.Image.Ialloc | my-xv6-public/mkfs.c:223-235 | The next inode, empty, without touching the others, while it is below the number of inodes, which mkfs does not test; a write past the inode blocks spoils the bitmap. |
| MkFs.Image.Rinode | my-xv6-public/mkfs.c:197-208 | Reads back the inode last written. |
| MkFs.Image.Winode | my-xv6-public/mkfs.c:183-195 | Only this inode of the image changes. |
| MkFs.Image.Locate | my-xv6-public/mkfs.c:269-286 | Maps the file block, taking the next free blocks for data and indirect block exactly when they are needed, and fails exactly when the disk has too few. |
| MkFs.Image.Iappend | my-xv6-public/mkfs.c:255-297 | The file becomes its old contents followed by the data, its type and links and the other files stay, exactly the blocks that the longer file needs are taken, and it succeeds exactly when file and disk have the room. |
| MkFs.Image.FixRoot | my-xv6-public/mkfs.c:159-163 | Rounding up the root directory leaves a hole exactly when its size was a multiple of the block size, and a size past MAXFILE exactly from the largest one; otherwise the contents are kept as a prefix. |
| MkFs.Image.WriteBitmap | my-xv6-public/mkfs.c:237-251 | Succeeds exactly while one bitmap block suffices, and then marks exactly the blocks below freeblock, so the image is a whole file system with the same contents. |
| ImageRoundTrip.BuildAndRead | my-xv6-public/mkfs.c:117-167 | Any sequence of ialloc and iappend calls over any inodes, in any order, then the rounding of the root's size, the bitmap, a mount and readi: every inode has the type it was allocated with and one link, and reads back as the concatenation of its own chunks, the root padded to a block boundary; no block belongs to two places, the super block is in place and the log is empty, and the first balloc of the kernel returns the first block mkfs left, which no inode has. It fails exactly when a file or the disk lacks the room, and leaves a root with a hole exactly when the root's bytes fill whole blocks. |
| ImageRoundTrip.Build | my-xv6-public/mkfs.c:117-156 | After any sequence of calls the image is a well-formed file system in which each inode holds its own chunks, and freeblock counts exactly the blocks they need; it fails only when some file or the disk is too small. |
| ImageRoundTrip.RootOnly | my-xv6-public/mkfs.c:117-163 | From a blank image, a root directory of any entries that fit ends without a hole exactly when its bytes do not fill whole blocks. |
| ImageRoundTrip.HoleyRoot | my-xv6-public/mkfs.c:117-163 | A root directory of 32 entries, made from a blank image, ends with a hole. |
| Umalloc.LargeEnough | my-xv6-public/umalloc.c:69 | The units requested are the least that hold nbytes besides the header, exactly when nbytes is at most 2^32 - 8; above that the sum wraps and one unit is requested. |
| Umalloc.SbrkArgExact | my-xv6-public/umalloc.c:52-54 | The int that sbrk receives is the size of the requested units exactly outside the requests from 2^31 - 15 to 2^32 - 8 bytes; for those it is zero or negative. |
| Umalloc.SbrkArgEnds | my-xv6-public/umalloc.c:54 | For 2^32 - 8 bytes sbrk receives 0, and for 2^31 - 15 bytes the most negative int. |
| Umalloc.Disjoint | my-xv6-public/umalloc.c:24-90 | Any two blocks, free or live, are disjoint. |
| Umalloc.Conserved | my-xv6-public/umalloc.c:24-90 | The units got from sbrk are exactly the free ones plus the live ones. |
| Umalloc.FreedOk | my-xv6-public/umalloc.c:30-43 | Freeing at the found place, with either, both or no neighbour merged, keeps the heap valid: one ordered cycle, no two free blocks adjacent, all units covered. |
| Umalloc.SplitOk | my-xv6-public/umalloc.c:78-82 | Cutting the tail off a free block keeps the heap valid. |
| Umalloc.GrantedOk | my-xv6-public/umalloc.c:54-58 | New memory past the old joins the heap as a live block. |
| Umalloc.PlaceExists | my-xv6-public/umalloc.c:30-32 | The circular search of free always has a place to stop. |
| Umalloc.Allocator.FindPlace | my-xv6-public/umalloc.c:30-32 | The search loop terminates, at the one place where the block belongs in address order. |
| Umalloc.Allocator.Relink | my-xv6-public/umalloc.c:33-42 | With pointer sums modulo 2^32 bytes, the pointer and size writes are those of the merge with both neighbours where the sums find what they would find without wrapping; where the block seems to end at base, base leaves the list. |
| Umalloc.Straightens | my-xv6-public/umalloc.c:33-42 | The wrapping pointer sums of free find exactly the neighbours that touch, for every block that ends below the last address, and for one past all free blocks unless it seems to end at base. |
| Umalloc.RoundRing | my-xv6-public/umalloc.c:33-43 | When a block past all others seems to end at base, the assignments of free leave one cycle of all the other free blocks and the new one, merged with the last block where they touch. |
| Umalloc.Allocator.Free | my-xv6-public/umalloc.c:24-44 | For every block in use of a heap within the memory of the process: the block is no longer live, the heap is valid, no unit is lost, a free block at least as large results, and the next search starts from the block before it. |
| Umalloc.Allocator.Scan | my-xv6-public/umalloc.c:74-89 | One trip round any cycle of blocks, from the one after freep, finds the first large enough block or shows there is none. |
| Umalloc.Allocator.MoreCore | my-xv6-public/umalloc.c:46-61 | The requested units join the list, in a block that ends with them and satisfies the request, while the memory the process has and its break move as growproc moves them for the signed 32-bit number that sbrk received, not at all where that would go below address 0; where the new block seems to end at base the list has lost base; without an answer nothing changes. |
| Umalloc.Allocator.Carve | my-xv6-public/umalloc.c:75-84 | Takes exactly n units out of the chosen block as a new live block, also from the list that base has left. |
| Umalloc.Allocator.Malloc | my-xv6-public/umalloc.c:63-90 | Returns a new live block of the requested units, the last ones of the first large enough block after freep, asking sbrk exactly when no free block is large enough, and fails exactly when sbrk then does. The block holds nbytes in memory that the process has exactly when nbytes is at most 2^32 - 8, and at most 2^31 - 16 if sbrk was asked; the heap keeps to that memory exactly unless sbrk answered a larger request, and then the block lies past the break. The list stays in order exactly unless such a block seems to end at base; then it is the old list without base. |
| Umalloc.Allocator.AfterGrant | my-xv6-public/umalloc.c:52-59 | Once sbrk has answered, the heap lies within the memory of the process and the block serves its request exactly for the requests outside 2^31 - 15 to 2^32 - 8 bytes. |
| Umalloc.FirstRequest | my-xv6-public/umalloc.c:63-90 | A first malloc of 2^31 - 15 to 2^32 - 8 bytes returns a block of which sbrk gave no unit. |
| ShellGrammar.RoundTrip | my-xv6-public/sh.c:327-446 | Printing any command tree with words free of whitespace and symbols, at most MAXARGS - 1 to a command, and parsing the text gives the tree back. |
| ShellGrammar.ParsePrintParse | my-xv6-public/sh.c:327-446 | Every tree the parser accepts is printable, and printing and parsing it again changes nothing. |
| ShellTokens.AcceptsExactly | my-xv6-public/sh.c:258-446 | parsecmd accepts a text with a tree if and only if the tokens of the text form a line of the grammar with that tree; so blanks between tokens do not matter, no line has two trees, and every other text is a syntax error. |
| ShellTokens.LineTakes | my-xv6-public/sh.c:344-359 | Every line of the grammar, up to the end of the text or a closing parenthesis, is parsed to its tree, leaving what follows. |
| ShellTokens.LineSound | my-xv6-public/sh.c:344-359 | Whatever the parser accepts begins with a line of the grammar with that tree, followed by what is left. |
| ShellGrammar.ExecBack | my-xv6-public/sh.c:415-446 | A printed simple command or block is parsed back, leaving what follows it. |
| ShellGrammar.LineBack | my-xv6-public/sh.c:344-359 | A printed line with its lists and background marks is parsed back, leaving what follows it. |
| Shell.Parser.Peek | my-xv6-public/sh.c:310-320 | Skips blanks and tells whether the next character is one of the given. |
| Shell.Parser.GetToken | my-xv6-public/sh.c:265-308 | Returns the kind and exact extent of the next token and moves past it and the blanks after it. |
| Shell.Parser.ParseRedirs | my-xv6-public/sh.c:374-397 | Agrees with the grammar on every input, failing exactly where it does. |
| Shell.Parser.ParseExec | my-xv6-public/sh.c:415-446 | Agrees with the grammar on every input; the words of the tree are the scanned slices. |
| Shell.Parser.ParseBlock | my-xv6-public/sh.c:399-413 | Agrees with the grammar on every block. |
| Shell.Parser.ParsePipe | my-xv6-public/sh.c:361-372 | Agrees with the grammar on every pipeline. |
| Shell.Parser.ParseLine | my-xv6-public/sh.c:344-359 | Agrees with the grammar on every line; the mutual recursion terminates. |
| Shell.NulTerminate | my-xv6-public/sh.c:448-493 | Zeroes exactly the end of every word and file of the command and no other byte. |
| Shell.ParseCmd | my-xv6-public/sh.c:327-342 | Fails exactly when the grammar does, leaving the buffer; otherwise the zero-terminated strings in the buffer spell exactly the parsed tree, because no zero lands inside another token. |
| Pipe.Tests | my-xv6-public/pipe.c:85-117 | With wrapping 32-bit counters the full and empty tests still tell the number of buffered bytes. |
| Pipe.Fifo | my-xv6-public/pipe.c:79-121 | What was returned followed by the buffered bytes is what was accepted. |
| Pipe.PutHolds | my-xv6-public/pipe.c:93 | Storing a byte in a buffer that is not full loses none. |
| Pipe.GotHolds | my-xv6-public/pipe.c:113-117 | Taking a byte from a buffer that is not empty takes the oldest. |
| Pipe.Pipe.Write | my-xv6-public/pipe.c:84-94 | Accepts the bytes in order and stops early only at a full buffer. |
| Pipe.Pipe.Read | my-xv6-public/pipe.c:113-117 | Returns the oldest bytes, fewer than asked only when the buffer is then empty. |
| PipeProtocol.PipeFifo | my-xv6-public/pipe.c:59-121 | In every run with any readers, writers, kills and closes: first in, first out, at most PIPESIZE buffered, and with the lock free a sleeping writer faces a full pipe whose read end is open. |
| PipeHistory.WriteInOrder | my-xv6-public/pipe.c:84-94 | In every run, inside pipewrite: the bytes accepted from this call, followed by those still to send, are the bytes it was given. |
| PipeHistory.WriteAnswers | my-xv6-public/pipe.c:79-97 | pipewrite returns having sent all it was given, in order; it fails with a proper prefix sent, on a full pipe, only after the read end was closed or the writer killed. |
| PipeHistory.ReadInOrder | my-xv6-public/pipe.c:100-121 | In every run, inside piperead: what it has got are the latest bytes to leave the pipe, and with what it still wants they make up what it asked for. |
| PipeHistory.ReadAnswers | my-xv6-public/pipe.c:100-121 | piperead returns the next bytes of the stream, as many as asked for or until the pipe is empty, and none only if none were asked for or the write end was closed; it fails only on an empty pipe with an open write end, if killed. |
| PipeHistory.StreamsStep | my-xv6-public/pipe.c:84-118 | Only the stores of pipewrite add to what is accepted, and only the loads of piperead to what is returned, one byte each. |
| PipeHistory.AsleepExactly | my-xv6-public/pipe.c:79-121 | In every run a process sleeps exactly from its sleep to the next wakeup on its channel, kill of it, or close of the other end. |
| PipeHistory.TestsAre | my-xv6-public/pipe.c:85-108 | A writer goes to sleep only with bytes left to send, on a full pipe with an open read end, before any kill of it; a reader only on an empty pipe with an open write end, before any kill of it. |
| PipeHistory.CallsExactly | my-xv6-public/pipe.c:79-121 | In every run a process is outside the pipe exactly between its calls, which do not nest. |
| PipeHistory.EndsExactly | my-xv6-public/pipe.c:59-76 | In every run each end is open exactly until its pipeclose. |
| PipeHistory.HolderMoves | my-xv6-public/pipe.c:79-121 | In every run the process that holds the lock can take a step. |
| PipeHistory.OthersMove | my-xv6-public/pipe.c:79-121 | Once the lock is free, a woken process can go on, and any call can begin at an open end. |
| PipeProtocol.NoStrandedReader | my-xv6-public/pipe.c:100-121 | As long as no exit of a killed writer met a sleeping reader, a sleeping reader faces an empty pipe whose write end is open, and readers and writers never sleep at once. |
| PipeProtocol.ReadersExactly | my-xv6-public/pipe.c:79-121 | In every run sleeping readers are justified in all states up to any moment exactly when every exit of a killed writer before it found no reader asleep. |
| PipeProtocol.KilledExitStrands | my-xv6-public/pipe.c:85-89 | The exit of a killed writer breaks the reader half exactly when a reader is asleep. |
| PipeProtocol.StrandedReader | my-xv6-public/pipe.c:85-89 | A run that reaches a reader asleep on a full pipe, with the lock free and both ends open. |
| PipeProtocol.ReadersStep | my-xv6-public/pipe.c:79-121 | Every other step keeps sleeping readers justified. |
| PipeProtocol.WritersStep | my-xv6-public/proc.c:476-533 | Every step keeps sleeping writers justified. |
| Ide.RunsAreSynchronous | my-xv6-public/ide.c:102-168 | In every interleaving requests complete in the order issued, each with the buffer that the synchronous driver would return, and in every state, also after a panic, the disk is the one it would have left after the requests whose transfer is done. |
| Ide.NoneStranded | my-xv6-public/ide.c:137-168 | In every run no buffer is queued twice, a sleeping caller has its buffer in the queue, and a non-empty queue has the drive at work. |
| Ide.ReturnsAsMem | my-xv6-public/memide.c:38-60 | iderw returns with the buffer that memide leaves after serving the earlier requests in order, and the disk is then the one memide leaves after a prefix of the requests that includes this one. |
| IdeHistory.IderwAnswers | my-xv6-public/ide.c:138-168 | In every run iderw on a clean buffer returns the data of the last write of the block requested before it, or the first contents of the disk; on a dirty one it returns with the data unchanged, and with the block on the disk as the last of the writes done so far left it, this one among them. |
| IdeHistory.RequestsAre | my-xv6-public/ide.c:149-159 | The requests are exactly those of the calls of iderw, each with the buffer as its holder had made it. |
| IdeHistory.OwnRequest | my-xv6-public/ide.c:161-164 | From its call on, a caller waits for the request it made then. |
| IdeHistory.PanicExactly | my-xv6-public/ide.c:77-78 | In every run the driver has panicked exactly when the request it should work on names a block outside the disk. |
| IdeHistory.DriveMoves | my-xv6-public/ide.c:103-131 | In every run, while requests wait, the drive can finish a transfer, or interrupt and shorten the queue. |
| IdeHistory.SleepStep | my-xv6-public/ide.c:123-163 | A caller sleeps exactly from its request, or from a test that found it unfinished, until the interrupt for it or a kill. |
| IdeHistory.CallerMoves | my-xv6-public/ide.c:161-164 | A woken caller returns exactly if its buffer is valid and clean, and sleeps again otherwise. |
| IdeHistory.AnyRequest | my-xv6-public/ide.c:138-158 | iderw takes any buffer that is not in sync with the disk, from a caller outside it. |
| Ide.FilledIsMem | my-xv6-public/ide.c:117-123 | What the interrupt handler puts in the first queued buffer is what memide would. |
| Ide.DrivenStep | my-xv6-public/ide.c:73-131 | After every step the drive is working on the first queued request and nothing else. |
| Ide.Driver.Append | my-xv6-public/ide.c:151-155 | The walk along qnext puts the buffer at the end of the queue. |
| Ide.Driver.Iderw | my-xv6-public/ide.c:138-163 | Up to its first sleep it makes exactly the step of the protocol, on the linked queue. |
| Ide.Driver.Ideintr | my-xv6-public/ide.c:103-131 | Makes exactly the interrupt step of the protocol on the linked queue, and does nothing when the queue is empty. |
| Grep.MatchHere | my-xv6-public/grep.c:84-96 | True exactly when a prefix of the text can be cut into pieces, one for each item of the pattern, that the items stand for. |
| Grep.MatchStar | my-xv6-public/grep.c:98-106 | True exactly when some number of repetitions can be followed by a match of the rest. |
| Grep.Match | my-xv6-public/grep.c:72-82 | True exactly when the text contains (begins with, after ^) something the pattern means. |
| Grep.HereStar | my-xv6-public/grep.c:98-106 | The meaning of a starred item unfolds to a choice of the number of repetitions. |
| Grep.ItemsShow | my-xv6-public/grep.c:84-96 | The items of a pattern spell it: a dollar is the end exactly when it is the last character, and a star after a plain character makes a starred one. |
| Grep.ItemsOnly | my-xv6-public/grep.c:84-96 | No other items spell the pattern in that way. |
| GrepFile.GrepChunks | my-xv6-public/grep.c:10-36 | The loop over the buffer writes exactly the matching lines it sees, in order, never past the buffer; if no read without a newline comes before one with a newline, these are the matching lines of the input however it is cut into reads. |
| GrepFile.SeesLines | my-xv6-public/grep.c:17-35 | The lines that match is called on are the lines of the input if and only if no read without a newline comes before one with a newline. |
| GrepFile.HalfLine | my-xv6-public/grep.c:29-30 | Reading "a" and then "b" with a newline, grep sees the line "b" where the input has the line "ab". |
| GrepFile.Accounted | my-xv6-public/grep.c:17-35 | Every character read is in a line seen, kept for the next read, or thrown away. |
| GrepFile.AlwaysRoom | my-xv6-public/grep.c:17 | Every read asks for at least one character, so that a result of 0 means the end of the input. |
| GrepFile.WriteLines | my-xv6-public/grep.c:20-28 | The inner loop writes the matching ones of the complete lines of the buffer and stops at the unfinished one. |
| GrepFile.WriteLine | my-xv6-public/grep.c:21-27 | A line is written with its newline exactly if the pattern matches it; the buffer keeps the newline then, and has the NUL that ended the line for match otherwise. |
| GrepFile.OutputIs | my-xv6-public/grep.c:21-27 | What is written is the matching lines, each followed by a newline. |
| GrepFile.LinesSplit | my-xv6-public/grep.c:21-27 | A text is its lines with their newlines, followed by its tail; no line holds a newline. |
| ProcFamily.RunningExactly | my-xv6-public/proc.c:366-444 | In every run, whenever ptable.lock is free, the RUNNING processes are exactly those that cpus point at, one cpu each. |
| ProcFamily.ParentsLive | my-xv6-public/proc.c:271-356 | In every run every process but init has a parent that is neither UNUSED nor a ZOMBIE, and nobody sleeps in wait with a ZOMBIE child. |
| ProcFamily.ReapedOnce | my-xv6-public/proc.c:316-356 | In every run wait has returned no pid twice, and the exited processes are exactly the reaped ones and the zombies. |
| Proc.PlacedStep | my-xv6-public/proc.c:366-511 | Every step, with the lock handed across swtch, keeps each state in agreement with where the thread stopped. |
| ProcFamily.ScheduledStep | my-xv6-public/proc.c:366-444 | Every step keeps one cpu for each running process and critical sections on the cpu that holds the lock. |
| ProcFamily.FamiliesStep | my-xv6-public/proc.c:224-356 | Every step keeps parenthood, sleeping parents, unique pids and the record of exits and reaps. |
| ProcFamily.WaitersExit | my-xv6-public/proc.c:294-306 | An exit wakes whoever must not sleep any more: its parent, and init for inherited zombies. |
| ProcHistory.AsleepExactly | my-xv6-public/proc.c:476-533 | In every run a process sleeps on a channel exactly from the sleep that named it to the first wakeup of that channel or kill of the process; a channel of wait is woken exactly by the exit of a child, and for init also by an exit that leaves it a zombie. |
| ProcHistory.KilledExactly | my-xv6-public/proc.c:538-556 | In every run a slot is marked killed exactly when it was killed since it was last reaped. |
| ProcHistory.ParentExactly | my-xv6-public/proc.c:224-356 | In every run the parent of a slot is the process whose fork last took it, or init once that one has exited, and nobody once it is reaped. |
| ProcHistory.ForkAnswers | my-xv6-public/proc.c:224-266 | fork returns with a runnable child of the caller whose pid no other process in the table has and no exited one had. |
| ProcHistory.WaitAnswers | my-xv6-public/proc.c:316-356 | wait returns the pid of an exited child of the caller; it fails only without one, when there is no child at all or the caller was killed, and sleeps only otherwise. |
| ProcHistory.LockExactly | my-xv6-public/proc.c:366-533 | In every run ptable.lock is held by the cpu that acquired it last and has not released it; it is acquired only when free, and every step inside a critical section is made by its holder, across swtch too. |
| ProcHistory.CpuExactly | my-xv6-public/proc.c:380-404 | In every run a cpu points at the process it picked last, until that switches back. |
| ProcHistory.CpuMoves | my-xv6-public/proc.c:366-511 | In every run a cpu that holds ptable.lock, or finds it free, can take a step of its own. |
| ProcHistory.AnyPicked | my-xv6-public/proc.c:380-398 | The scheduler can pick any runnable process, which then runs on its cpu. |
| ProcHistory.AnyCall | my-xv6-public/proc.c:224-511 | A running process can make any of the calls once the lock is free, with any channel and any unused slot; only init cannot exit. |
| ProcHistory.AnyWakeup | my-xv6-public/proc.c:527-556 | Once ptable.lock is free, any channel can be woken and any process killed. |
| ProcTable.Table.Wakeup1 | my-xv6-public/proc.c:516-524 | Makes exactly the sleepers on the channel runnable, and changes nothing else of any process. |
| ProcTable.Table.Kill | my-xv6-public/proc.c:538-556 | Marks the first process with the pid, makes it runnable if it sleeps on anything, changes nothing else, and fails exactly when there is none. |
| ProcTable.Table.PassChildren | my-xv6-public/proc.c:299-306 | Gives all children to init, and wakes init exactly when one of them is a zombie. |
| ProcTable.Table.Exit | my-xv6-public/proc.c:292-309 | The table after the loops is that of the exit step. |
| ProcTable.Table.FindZombie | my-xv6-public/proc.c:325-345 | Finds the first zombie child, or tells that there is none and whether there are children. |
| ProcTable.Table.FindUnused | my-xv6-public/proc.c:81-86 | Finds the first unused slot, or tells that all are used. |
| PageRefs.EntryDroppedOk | lab/kern/pmap.c:702-716 | Dropping an entry keeps every count right and frees the page exactly when that was its last reference. |
| PageRefs.InsertedOk | lab/kern/pmap.c:616-639 | page_insert keeps every pp_ref equal to the number of references exactly when the page was mapped there already or its 16-bit count does not wrap; the page is never freed, and what the tables say stays consistent even when a count wraps. |
| PageRefs.InsertedLookup | lab/kern/pmap.c:616-639 | Maps the page at the one address and changes no other mapping of any environment. |
| PageRefs.WalkedOk | lab/kern/pmap.c:511-545 | A page table taken from the free list keeps all counts right and every mapping as it was. |
| PageRefs.TableDrops | lab/kern/env.c:473-475 | Unhooking an emptied page table drops one reference and touches no other address space. |
| PageRefs.FreeingDone | lab/kern/env.c:457-481 | Once the directory is gone, exactly its references are gone and exactly the pages only it referred to are newly free. |
| PageWrap.CountWraps | lab/kern/pmap.c:616-639 | From page_init and env_setup_vm on, an environment that maps one page at 65536 addresses: the counts are right up to the last page_insert, which makes pp_ref 0. |
| PageWrap.Share | lab/kern/pmap.c:616-639 | Each page_insert maps the page at one more address, and the counts stay right exactly up to 65535 mappings. |
| PageWrap.FreedWhileMapped | lab/kern/pmap.c:616-716 | One more page_insert and a page_remove then put the page on the free list while 65536 addresses still map it. |
| Pmap.Kernel.constructor | lab/kern/pmap.c:320-387 | After page_init every pp_ref is the number of references, exactly the pages but page 0, the page at MPENTRY_PADDR, and those from the I/O hole to the end of the kernel are free, and the reserved ones have one reference. |
| Pmap.Kernel.PageAlloc | lab/kern/pmap.c:403-425 | Takes the first free page, cleared exactly when asked, or fails exactly with none; counts and mappings stay right. |
| Pmap.Kernel.PageFree | lab/kern/pmap.c:432-444 | Its assertions fail exactly when the page still has references or is on the list already and not its last; otherwise the page is first in the list. Freeing the last listed page a second time goes unnoticed and leaves a chain without end, the only case in which counts and list do not stay right. |
| Pmap.LastFreedTwice | lab/kern/pmap.c:432-444 | The last page of the list has a null link; freed again it closes the list to a cycle, and page_alloc then hands it out and leaves it on the list. |
| Pmap.Kernel.PageDecref | lab/kern/pmap.c:450-455 | Drops the count, frees at zero, and never trips the assertions of page_free. |
| Pmap.Kernel.PgdirWalk | lab/kern/pmap.c:511-545 | Finds the table of any directory entry, or hooks in the first free page, cleared, with all rights; fails, changing nothing, exactly without a table and without leave or memory to make one; counts and mappings stay right for every user entry. |
| Pmap.Kernel.PageLookup | lab/kern/pmap.c:658-678 | Tells exactly what the address space maps at the address. |
| Pmap.Kernel.PageRemove | lab/kern/pmap.c:702-716 | Afterwards nothing is mapped at the address, and every other address of every environment maps what it did; counts stay right. |
| Pmap.Kernel.PageInsert | lab/kern/pmap.c:616-639 | Maps the page at the address with perm and PTE_P, every other address of every environment as before, and adds perm to the directory entry; fails, changing nothing, exactly when a table is needed and no page is free; counts stay right exactly when the page was there already or its count does not wrap. |
| Pmap.Kernel.EnvSetupVm | lab/kern/env.c:168-214 | A new directory from the first free page: no user entries, itself at UVPT, readable by the user, and the entries of the kernel directory elsewhere; all other pages and address spaces are unchanged. |
| Pmap.Kernel.EnvFree | lab/kern/env.c:439-481 | Exactly the references of the environment go, exactly the pages only it referred to come back to the free list, and other environments keep their mappings. |
| VmSpace.PteSet | my-xv6-public/vm.c:79-83 | A new entry, in a frame with no other use, keeps the space well formed. |
| VmSpace.PteCleared | my-xv6-public/vm.c:291 | Clearing an entry keeps the space well formed. |
| VmSpace.TableSet | my-xv6-public/vm.c:56-60 | A cleared frame hooked in as a page table changes no mapping. |
| VmSpace.MmuSees | my-xv6-public/mmu.h:78-105 | The entry that the processor finds for an address, through the directory and a table, is that of the space for its page, and none where the space has none. |
| VmSpace.WithPFits | my-xv6-public/vm.c:83 | perm with PTE_P set differs from perm in no other bit. |
| Vm.Machine.Freerange | my-xv6-public/kalloc.c:54-61 | Frees exactly the whole frames of the range. |
| Vm.Machine.Kalloc | my-xv6-public/kalloc.c:90-103 | Takes the first frame of the list, or fails exactly with none. |
| Vm.Machine.Kfree | my-xv6-public/kalloc.c:67-85 | Fills the frame with junk and puts it first; panics exactly outside the range of frames; a frame that is on the list already goes unnoticed and leaves a chain without end. |
| Vm.Machine.Walkpgdir | my-xv6-public/vm.c:43-63 | Finds the page table, or makes an empty one from a free frame without changing a mapping; fails exactly without leave or memory. |
| Vm.Machine.Mappages | my-xv6-public/vm.c:70-90 | Maps the pages that the bytes lie in, one after the other, to consecutive frames: for each of their addresses the processor finds the frame with exactly the flags of perm and PTE_P, and for every other what it found before. It panics exactly at the first page already mapped, and runs out exactly when the frames do not suffice for the page tables; the pages before that stay mapped, and frames are neither lost nor shared. |
| Vm.Machine.Setupkvm | my-xv6-public/vm.c:128-146 | For each address of each region the processor finds the frame of the region with exactly its flags and PTE_P, and for every other address nothing; or every frame is back on the list. It succeeds exactly when the free frames cover the directory and the distinct page tables. |
| Vm.Machine.Allocuvm | my-xv6-public/vm.c:237-265 | From oldsz up to newsz the processor finds zeroed pages, writable by the user, and elsewhere what it found before, when the free frames cover those pages and the page tables they lack; otherwise the entries are as they were and the result is 0. |
| Vm.Machine.Deallocuvm | my-xv6-public/vm.c:271-295 | From newsz up to oldsz, in whole pages, the processor finds nothing, and elsewhere what it found before; the frames of the pages are freed once. |
| Vm.Machine.Freevm | my-xv6-public/vm.c:299-314 | Every frame of the space is back on the free list, once, and nothing else changed. |
| Vm.Machine.Copyuvm | my-xv6-public/vm.c:331-361 | For every address below sz the processor finds, in parent and child, different frames with the same flags and bytes, in the child nothing else below KERNBASE, and above it exactly the kernel mappings; it succeeds exactly when the free frames cover the directory, the distinct page tables and the pages, and otherwise every frame is back; the parent and all else are unchanged. |
| BufRing.RingPush | my-xv6-public/bio.c:134-137 | The four link writes put the buffer first in the cycle. |
| BufRing.RingUnlink | my-xv6-public/bio.c:132-133 | The two link writes take the buffer out of the cycle. |
| Bcache.Cache.constructor | my-xv6-public/bio.c:38-56 | binit makes one cycle of all buffers, the last one first. |
| Bcache.Cache.Bget | my-xv6-public/bio.c:61-93 | Finds the cached block, or recycles the least recently released buffer that is unused and not dirty, and panics exactly when there is neither. |
| Bcache.Cache.Release | my-xv6-public/bio.c:128-140 | Drops a use; the last one moves the buffer to the front and leaves the order of the others. |
| Bio.CacheCoherent | my-xv6-public/bio.c:61-141 | In every run a block has at most one buffer; an unlocked valid buffer holds the value of its block, and if clean so does the disk. |
| Bio.ReadsLatest | my-xv6-public/bio.c:61-106 | In every run bread returns the value of the block it was asked for, whatever the other users do between bget finding the buffer and its sleep lock being free. |
| BioHistory.BlocksAreTheirLast | my-xv6-public/bio.c:96-126 | In every run the value of a block is what its holder had made of it when it was last logged or written, or what the disk held at first: its holder's last change, or what the block contained when it was locked. A held valid buffer holds what its holder has made of it, and the disk has the value where no buffer is dirty. |
| BioHistory.ChangeIsRead | my-xv6-public/log.c:204-233 | If a holder changed a block and logged or wrote it, and nobody has since, then any later holder that has changed nothing reads exactly that change. |
| BioHistory.CommitsExactly | my-xv6-public/log.c:192-233 | In every run the log header names exactly the blocks logged since the last commit ended, and the commit in progress has written home exactly the blocks written since it began. |
| BioHistory.CommitEndsWhen | my-xv6-public/log.c:192-202 | A commit can end exactly when every block of the header has been written home since it began. |
| Bio.KeepsBlock | my-xv6-public/bio.c:66-93 | In every run a use keeps the buffer and the block that bget gave it until brelse drops it. |
| Bio.RecyclesOldest | my-xv6-public/bio.c:79-91 | In every run a dirty buffer is in the log header and is not recycled, and the one recycled was released before every other spare buffer. |
| BioHistory.RecyclesFirstFreed | my-xv6-public/bio.c:79-140 | In every run the buffer recycled is, of those that nobody uses and the log does not pin, the one whose last use ended first. |
| BioHistory.AnyRead | my-xv6-public/bio.c:61-93 | bread of any block finds its buffer, or recycles one, or every buffer is in use or dirty. |
| BioHistory.AnyLock | my-xv6-public/bio.c:66-90 | A use of a buffer can get its sleep lock exactly when nobody holds it. |
| BioHistory.AnyUse | my-xv6-public/bio.c:96-126 | The holder of a valid buffer can change it to anything, write it, log it unless a commit runs, and release it once its change is logged or written. |
| Bio.InvStep | my-xv6-public/bio.c:61-141 | Every step keeps reference counts, sleep locks, uniqueness, pins, coherence, the order of releases, and the block of every buffer in use. |
| Bio.PinnedStep | my-xv6-public/log.c:223-232 | Every step keeps dirty buffers in the header until commit has installed them. |

## Left out

- Disk errors, memory ordering, TLB effects, hardware accessed and dirty bits: none are modelled.
- Panics for want of blocks, inodes or buffers halt the machine; the model stops there.
- The disk below `Log` and `FileSystem` is the block array itself; the buffer cache is modelled on its own in `Bio`.
- The behaviour after the log header has outgrown the on-disk log: only its reachability is shown.
- Device inodes: `readi` and `writei` return the outcome Device without the device switch.
- The superblock's bytes are not decoded; its fields are parameters.
- Inode allocation, directories, path names, link counts and the inode cache: nlink has no global invariant, the rest would add easy members.
- CrashSafety.CrashKeepsWhole: that file operations leave a whole file system whenever none is open is its hypothesis; `FileSystem` proves it of each operation alone.
- ImageRoundTrip.BuildAndRead: the sequence allocates fewer inodes than the image has, of type directory or file, and appends only to allocated ones; what the padding of the root holds is not stated.
- Umalloc.Allocator.MoreCore: sbrk is old_sys_sbrk with growproc, since the lazy sys_sbrk only adds to sz; its answer is a parameter, a whole unit at or above the break, and fails where the argument is exactly minus the break; stores to a block without memory do not fault in the model; after an answer to a request of 2^31 - 15 bytes or more the next malloc is not modelled.
- `>` and `>>` build the same node in the source, so the printer writes only `>`; running commands and reading lines are left out.
- Shell.Parser.ParseExec: the argument array is built as a sequence and joined to the command at the end instead of being filled in place.
- GrepFile.GrepChunks: the input holds no NUL characters; reads and writes do not fail.
- Bio.InvStep: callers log or write a buffer they changed before they release it, and only valid buffers are changed, as log.c asks of them.
- Ide.RunsAreSynchronous: interrupts come only from a finished command or find the queue empty; iderw's panics on an unlocked or synced buffer are no steps.
- PipeProtocol.NoStrandedReader: an end is closed only when no process is in a call on it, as the file reference counts ensure.
- Proc.PlacedStep: any unused slot and any runnable process may be chosen, not only the first; pids do not wrap; other spin locks are left out.
- Vm.Machine.Copyuvm: every page below sz is present, as before lazy allocation; kmap is a parameter with regions above KERNBASE that do not overlap.
- Vm.Machine.Mappages: the physical address is that of a whole frame, the range is not empty and does not wrap, and frames mapped below KERNBASE have no other use.
- Pmap.Kernel.PageInsert: only user addresses, below UTOP, carry counted references; the page passed in is not on the free list.
- boot_map_region, mmio_map_region, sched.c, syscall.c, kdebug.c, fork and ipc of JOS, and the second shell of the repository.
- Port I/O, interrupt controllers, console, boot code and assembly.
