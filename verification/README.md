# Verification of simplefs and the libraries it uses

This project models, in Dafny, the parts of the repository that carry its invariants, and proves what they promise.

- **The block store of simplefs** (`simplefs.c`): files as chains of disk blocks under a bitmap allocator, an inode
  table and directories of 248-byte records. `FileSystem.dfy` and `Creation.dfy` hold the operations as a class with a
  bitmap array, an inode array and a block array that are updated in place; `Runs.dfy` proves that every run of them is
  a run of a file system of flat byte sequences under a tree of names. The files below it follow the layers: `Chains`,
  `BlockStore` and `ChainReader` (the loops over blocks), `Store` (files as flat bytes), `BlockSearch` (the scan of the
  bitmap) and `BlockAllocator`, `InodeTable`, `Layout`, `Signature` and `Directory` (records, lookup), `Paths` and
  `FsState` (names). `FirstFile.dfy` follows a file through a new volume by the contracts alone, so their preconditions
  can be met; so does `RepeatedName.dfy` for a creation that loses a block. `RunNames.dfy` says which names a run leaves,
  `SearchEnds.dfy` when the searches for free blocks end, and `FileRuns.dfy` what writes, reads and seeks in a row do to
  one file. Open descriptors are a map, which is what `HashTable.dfy` proves the table that holds them to be.
- **The counter of the `.lock` file** (`simplefs.c`): `LockProtocol.dfy`, a state machine in which every load, store and
  lock call of every process is a step of its own, and the locks are sets of bytes that may overlap.
- **The hash table** (`uthash.h`): `HashTable.dfy`, `Buckets.dfy` and `ListSort.dfy`, over heap items with both pairs of
  links. The class invariant is what `HASH_FSCK` checks, and the Bloom filter. `MergeSort.dfy` and `Bits.dfy` hold the
  mathematics of the sort and of the masks.
- **The test-run engine of CUnit** (`TestRun.c`): `TestRun.dfy`, a class with the failure list as linked nodes, is proved
  equal to the functions of `RunModel.dfy`, about which the conservation laws are proved. `RunOutcome.dfy` tells from the
  registry alone what a run comes to: which suites and tests it starts, the failure list, every count, and the error.
- **The XML escaper of CUnit** (`Util.c`): `Escaper.dfy`.

Where the code does not do what one would expect of it, the model does what the code does, and a lemma says exactly when
the two agree:

- A write lays down the whole buffer iff `off % r + (len - 1) % r < r`, where `r` is the payload of a block
  (`BlockStore.WrittenInFull`, `BlockStore.WrittenShort`). The size of the file grows as if all of it had been written.
- The block count that a write computes for a file is right iff the size is 0 or no multiple of `r`; otherwise it is one
  too many (`FileSystem.TakenCount`), and the block table has an entry that nothing fills in. The write is right all the
  same, whatever that entry holds, iff it ends before the last block; if not, the entry becomes the link of the last block
  (`BlockStore.UnfilledEntry`; `FileSystem.FullBlockWrites` has a size and two writes). Writes that reach the last block
  of such a file are therefore excluded, unless something else stops them first.
- A read stops at the end of the file iff one of four conditions holds (`ChainReader.ReadExact`,
  `ChainReader.ReadPastEnd`); otherwise it delivers zeros past the end and the position may leave the file.
- The allocator skips block numbers that are multiples of 8. A search that is not refused, and ends, leaves the bitmap in
  order iff it stays inside the volume (`BlockAllocator.RegularIffFits`); after that, whatever it hands out lies outside
  the volume, is a multiple of 8 or is taken already. A volume of 25 blocks reaches a search that hands out block 16
  twice (`BlockAllocator.RunOffTakesTwice`). So searches that stay inside are a precondition of writes and creations.
- On every volume that initialisation accepts, each scan of a search that started in order ends, even after a run-off
  (`SearchEnds.EveryScanEnds`). All that can stop such a search is a candidate without a bit in the bitmap. There is none
  if the bitmap has seven bits more than the volume has blocks (`SearchEnds.SpareBitsSuffice`); a new volume of 8192 blocks
  of 1024 bytes comes to block number 8192 (`SearchEnds.LeavesBitmap`, `SearchEnds.CandidateBehindBitmap`).
- Over any bitmap the scan passes the first free block that is no multiple of 8 iff there is a byte before it, behind that
  of the block just taken, that is not full; it then answers the multiple of 8 behind that byte
  (`BlockSearch.ScanAnswers`).
- A creation that fails because the name exists takes a block for good iff the entries of the directory fill whole blocks
  and its last block is not full (`Creation.DuplicateCosts`). In a new volume the fifth creation in the root can be such a one
  (`RepeatedName.LoseBlock`).
- A path that was just created resolves to the new inode except for `/` itself and for names in the root written with two
  slashes (`Creation.CreatedResolves`).
- For block sizes that are multiples of 7936 the duplicate check looks at one record too many (`Layout.RecordCount`);
  creations that get to it exclude them. For those with remainder 256 the entries of a directory can fill its last block;
  then a new name cannot be entered (`Layout.WholeRecords`, `Creation.DirectoryOpen`).
- The range of bytes that is locked for the counter starts at the number of the first data block, not at its offset. On
  volumes with fewer than 40 blocks before the data it meets the range of the search for free blocks
  (`LockProtocol.LayoutRanges`). Nobody waits in a circle all the same (`LockProtocol.NoDeadlock`). A creation under an
  existing name keeps the lock of its search; others that search then wait for a process that is outside, iff that range
  is not part of the counter's (`LockProtocol.SearchKept`).
- The run of one test gives the handler for the end of its suite no failure list, which is right iff nothing goes wrong
  (`RunModel.SuiteReportRight`).

## Model

| member | source | states |
|---|---|---|
| `Runs.Run` | simplefs.c:1255-1519 | Any sequence of creat/mkdir, open, close, lseek, read and write on a well-formed volume, up to the first operation whose stated precondition fails, leaves the volume well formed, and its answers and observable states are those of a run of a file system of flat byte sequences under a tree of names |
| `Runs.Step` | simplefs.c:1255-1519 | One operation of the block store is one step of the flat file system: same answer, same names, kinds, contents, open files and free count |
| `Runs.NextDetermined` | simplefs.c:1255-1519 | The flat file system leaves no choice: state and operation determine the answer and the whole next state |
| `RunNames.FoundIffCreated` | simplefs.c:287-323 | After any run a path leads somewhere if and only if it did before, or a creation of the run that was answered with success has entered it |
| `RunNames.NameFound` | simplefs.c:1270-1362 | After any run from a new volume a name is found if and only if some creation of that name in the run was answered with success; for names in the root also one with a second slash in front |
| `RunNames.OnePath` | simplefs.c:287-323 | No two paths lead to the same inode |
| `RunNames.FollowGrown` | simplefs.c:1334-1344 | A new entry adds exactly one path, which leads to its inode |
| `Runs.VolumeInvariant` | simplefs.c:361-697 | On every well-formed volume the chains are acyclic, pairwise disjoint, in range, never contain block 0, are linked block by block to a final 0, have every block marked in the bitmap and exactly ceil(size / payload) blocks; the free count is the number of blocks less the number of marked ones |
| `Runs.Init` | simplefs.c:806-867 | The error code of initialisation in the order of the checks, or a well-formed volume with an empty root, an empty `.lock`, every other inode empty, block 0 taken and one block fewer free than there are |
| `Runs.WriteThenRead` | tests.c:353-367 | A buffer of any length written to an empty file and read back after a seek to 0 is the same buffer, over any number of blocks, whenever the write went through |
| `FirstFile.CreateWriteRead` | tests.c:350-367 | In any accepted new volume whose block size is no multiple of 7936, with room before its end, any file name and any buffer: creating in the root, opening, writing, seeking and reading all succeed and give back the buffer |
| `Runs.CreateStep` | simplefs.c:1270-1362 | A creation is a step of the flat file system: names, kinds, the bytes of every file, open files and free count are determined; a creation that succeeds or meets an existing name takes the blocks of the record (none or one), every other failure costs nothing |
| `Runs.CreationAnswered` | simplefs.c:1270-1362 | For each answer exactly when a creation gives it, from the length of the name, the parent, the kinds of the inodes, the free count and the entries; only a success and an existing name cost the blocks of the record, the other failures change nothing |
| `Runs.WriteStep` | simplefs.c:1443-1474 | A write is a step of the flat file system: its result is determined by mode and free count; on success the buffer is laid over the content at the position, which moves on by its length, and exactly the new blocks are gone from the free count |
| `Runs.WriteAnswered` | simplefs.c:581-697 | For each answer exactly when a write gives it, from the descriptor, its mode and the free count; a write that goes through takes what the file grows by in blocks, or one less if its last block was full and it grows, and any other changes nothing |
| `Runs.OpenFilesStep` | simplefs.c:891-932 | Open, close, seek (which always answers 0) and read are steps of the flat file system that change only the open files |
| `FileRuns.WriteInPlace` | simplefs.c:521-687 | A buffer written at a position inside the file and laid down in full replaces just its bytes there, extends the file if it reaches further, and leaves the position behind it; no other file and no other descriptor changes |
| `FileRuns.WritesConcatenate` | simplefs.c:1443-1474 | Buffers written one after the other to an empty file, each laid down in full, leave their concatenation, and the position at its end |
| `FileRuns.ReadsDeliverSlices` | simplefs.c:1371-1441 | Reads one after the other that end inside the file deliver consecutive slices of it, from any position on |
| `FileRuns.SeekGoesTo` | simplefs.c:1476-1519 | For every offset: inside the file a seek ends at the offset from the start, the position or the end; below 0 at 0, above the size at the size; with another whence nowhere else |
| `FileRuns.ReadAgain` | tests.c:247-260 | A read that ends inside the file, a seek back by its length and the same read again deliver the same bytes |
| `FileRuns.ReadLast` | tests.c:275-281 | After a seek back from the end a read of that length delivers the last bytes of the file |
| `FileRuns.WriteThenReadBack` | simplefs.c:1371-1519 | A buffer written anywhere in a file and laid down in full is what a read delivers after a seek back by its length |
| `FileRuns.WrittenIsRead` | tests.c:353-367 | Buffers written one after the other to an empty file, each laid down in full, are read back after a seek to 0 as consecutive slices of their concatenation, however the reads cut it |
| `Store.WriteRefinesOverlay` | simplefs.c:521-571 | The chained blocks after a write hold the old content, zero-extended, with as much of the buffer as the loop covers laid over it at the offset; every other file keeps its content; the volume stays well formed |
| `Store.ContentsOverwritten` | simplefs.c:521-697 | The contents of all files after a write are the flat overwrite of the contents before it |
| `Store.OverlayAt` | simplefs.c:521-571 | Byte by byte, what lies in a file after a write: a byte of the buffer, the one before, or zero; and its new size |
| `Store.WrittenFile` | simplefs.c:521-697 | The written file is a well-formed chain of the right length with zeros past its end, and no block outside that chain has changed |
| `Store.OtherFiles` | simplefs.c:521-571 | A change confined to the blocks of one file and to free blocks keeps every other file, its content and its disjointness from the grown chain |
| `BlockStore.SaveBufferToFile` | simplefs.c:521-571 | The write loop, over a table of which only the entries it looks at need be filled in, turns the disk into the state after its turns over the chain, link of the previous block included |
| `BlockStore.SavedLaid` | simplefs.c:521-571 | Those turns splice the bytes laid down into the flat bytes of the chain, link the visited blocks and the one before them, and touch no other block |
| `BlockStore.WrittenInFull` | simplefs.c:526-530 | The loop lays down the whole buffer if and only if off % payload + (len - 1) % payload < payload; otherwise it loses off % payload + (len - 1) % payload + 1 - payload bytes at its end |
| `BlockStore.WrittenShort` | simplefs.c:528 | A concrete write (payload 1016, offset 1, length 1016) that loses its last byte |
| `BlockStore.VisitedFit` | simplefs.c:528 | The blocks the loop visits are never more than the file holds after the allocation, and at most one fewer |
| `BlockStore.UnfilledEntry` | simplefs.c:526-570 | With a table that has one entry more than the chain has blocks: the link of the last block becomes that entry if and only if the write reaches the last block; otherwise the write is the one over the chain, whatever the entry holds |
| `Chains.LinkedUnique` | simplefs.c:453-482 | The disk and a first block determine the chain |
| `Chains.FlatWrite` | simplefs.c:540-570 | Filling part of one block of a chain splices those bytes into the flat content at block index times payload plus offset |
| `FileSystem.FileSystem.WriteUnsafe` | simplefs.c:581-697 | Result by mode, then free blocks, then name; WRONG_MODE and NO_FREE_BLOCKS change nothing at all, a duplicate name changes nothing but the bitmap and the free count, success gives exactly the written volume, a position greater by the length of the buffer, and a free count less by the new blocks |
| `FileSystem.FileSystem.Write` | simplefs.c:1443-1474 | As above at the position of a descriptor, whatever it was opened on: the volume stays well formed; on success the contents of all files are the flat overwrite and the position is the one before plus the length of the buffer, else nothing changed; the names stand unless it was a successful write to a directory |
| `FileSystem.FileSystem.TakeBlocks` | simplefs.c:626-651 | The table gets room for all blocks of the file and its tail the newly taken ones; no free blocks means no change |
| `FileSystem.FileSystem.PlanWrite` | simplefs.c:602-620 | Offset of the write (an append that does not fit skips to the next block), the block count as the code computes it, and the one after the write as a ceiling |
| `FileSystem.FileSystem.FinishWrite` | simplefs.c:663-687 | After a successful walk the table is right as far as the write looks at it, size and data are written, and the length of the buffer is added to the position; a duplicate name leaves them |
| `FileSystem.FileSystem.CommitWrite` | simplefs.c:673-687 | New size is the larger of the old size and the end of the write; blocks as specified; the length of the buffer is added to the position |
| `FileSystem.FileSystem.WritePrepared` | simplefs.c:581-697 | On a well-formed volume a search that is not refused hands out free, distinct blocks; either the walk finds the name to be checked, exactly when the file has it, or the blocks are just enough for the write and the table will be right as far as it is looked at |
| `FileSystem.TakenCount` | simplefs.c:616-619 | The computed block count of a file is its real one if and only if the size is 0 or no multiple of the payload; otherwise it is one more |
| `FileSystem.BlocksTaken` | simplefs.c:616-639 | The number of blocks that a write takes is the growth of the file in blocks, or one less than that if its last block was full and it grows |
| `FileSystem.FullBlockWrites` | simplefs.c:616-619 | A file of 2032 bytes (payload 1016): a count of 3 for two blocks, a write of ten bytes at its start that is right, and one into its last block that is not |
| `FileSystem.GetBlocksNumbersTakenByFile` | simplefs.c:453-482 | The walk records the chain of the file in order, and stops exactly when a block has a record in use for the name |
| `FileSystem.FileSystem.Read` | simplefs.c:1371-1441 | Delivers the content at the position (zeros past the end), of the length ReadLength, and adds that length to the position |
| `ChainReader.ReadChain` | simplefs.c:1390-1428 | The two loops of a read deliver the slice of the flat chain from the position, of length ReadLength |
| `ChainReader.ReadExact` | simplefs.c:1405-1416 | A read ends where the request or the file ends if and only if it starts at 0, ends inside the file, starts in the last block, or the last block is full |
| `ChainReader.ReadTooLong` | simplefs.c:1405-1416 | In every other case a read delivers more than there is: it is as long as it can be without being longer than the request or the whole file, or going past the last block |
| `ChainReader.ReadPastEnd` | simplefs.c:1414-1416 | A concrete read (payload 1016, size 1026, position 1010, length 36) that runs past the end of the file |
| `FileSystem.FileSystem.LseekUnsafe` | simplefs.c:1476-1506 | Unknown descriptor and unknown whence change nothing; otherwise the position is the offset from start, position or end if that is inside the file, 0 if it is below, and the size if it is above |
| `FileSystem.FileSystem.Lseek` | simplefs.c:1508-1519 | Moves the position as above and always answers 0 |
| `FileSystem.FileSystem.Open` | simplefs.c:891-932 | Succeeds if and only if the path resolves; the descriptor is the least one not in use, at position 0 |
| `FileSystem.FileSystem.Close` | simplefs.c:1255-1264 | Removes the descriptor, and tells whether it was there |
| `FileSystem.FileSystem.constructor` | simplefs.c:54-69 | A new volume is well formed and blank, with the counts of the initial master block |
| `FileSystem.FileSystem.GetInodeByPath` | simplefs.c:287-323 | What a path denotes on disk is what folding the lookup over its components in the tree of names says |
| `FileSystem.FileSystem.GetInodeInDir` | simplefs.c:234-280 | The lookup in a directory finds the first record in use for the name in its chain; the empty directory, for which block 0 is read, has none |
| `FileSystem.LookupIsFind` | simplefs.c:234-280 | That record is the entry of the name in the tree |
| `Directory.AppendHitsNextRecord` | simplefs.c:604-611 | An append of a record to a directory of n records lands exactly on the slot of record n |
| `Directory.AppendFits` | simplefs.c:604-611 | An append goes to the first offset behind the content from which the buffer fits into one block |
| `Directory.RecordsIncrease` | simplefs.c:604-611 | The slots of records do not overlap and come in order |
| `Directory.RecordEnd` | simplefs.c:604-611 | Every record lies wholly inside one block on a 248-byte slot, and where it ends |
| `Directory.FullDirectory` | simplefs.c:616-619 | A directory fills its last block if and only if the payload is a multiple of 248 and its records fill whole blocks |
| `Directory.LookupAgrees` | simplefs.c:234-280 | The scan over blocks and slots finds what a search through the list of entries finds |
| `Directory.FoundIffPresent` | simplefs.c:234-280 | A name is found if and only if an entry has it; with distinct names the inode found is that entry's |
| `Directory.DirSlots` | simplefs.c:234-280 | The slots of a directory's chain hold the records of its entries, and after them nothing in use |
| `Directory.AppendHolds` | simplefs.c:604-611 | Appending a record to the bytes of a directory adds the entry and keeps the others |
| `Signature.EncodeRoundTrip` | simplefs.c:1334-1338 | Reading a written record back gives its name and inode number |
| `Signature.EncodeInjective` | simplefs.c:1334-1338 | Different entries have different records |
| `Signature.RecordBytes` | simplefs.c:1334-1338 | The bytes of a record: the name, zeros up to byte 240, and the inode number, least significant byte first |
| `Signature.FindInBlock` | simplefs.c:245-264 | The byte-stepped scan of one block finds the first record in use for the name |
| `Signature.CheckDuplicateFileNamesInBlock` | simplefs.c:783-804 | Tells whether no record of the block is in use for the name |
| `Paths.ComponentsSnoc` | simplefs.c:300-320 | The components of a path extended by a slash and a name are its components and that name |
| `Paths.ResolveChild` | simplefs.c:287-323 | A slash denotes the root, and a name below a path what the directory at the path says |
| `Paths.FollowExtends` | simplefs.c:287-323 | Paths that denote something go on denoting it when entries are added |
| `Creation.CreateFileOrDir` | simplefs.c:1270-1362 | All or nothing on names and inodes: the result is determined by name length, parent, inodes, blocks and name; success brings the first free inode to life, enters one record and appends exactly its bytes to the directory; every failure leaves names, live inodes, contents, first free inode and open files as they were |
| `Creation.CreateIn` | simplefs.c:1313-1355 | The same once the parent is known |
| `Creation.EnterOrTakeBack` | simplefs.c:1328-1354 | The record is appended or the inode is taken back, and the directory is closed again |
| `Creation.SplitPath` | simplefs.c:1273-1297 | Parent path and last component of a path |
| `Creation.CreationKeepsPaths` | simplefs.c:1270-1362 | Every path that denoted an inode still denotes it after a creation |
| `Creation.CreatedResolves` | simplefs.c:1273-1297 | A path just created denotes the new inode if and only if it is longer than `/` and its last slash is not the second of two leading ones |
| `Creation.TwoSlashes` | simplefs.c:1273-1297 | A name in the root written with two slashes does not denote the inode that the root has for it |
| `Creation.InodeTakenBack` | simplefs.c:1350-1353 | Taking the inode back restores names, kinds and contents, even with a block lost |
| `Creation.DirectoryOpen` | simplefs.c:616-619 | The last block of a directory is not full if and only if it has no entries, the block size has no remainder 256 modulo 7936, or its entries do not fill whole blocks |
| `Creation.RecordGrows` | simplefs.c:616-639 | A record takes a new block if and only if the entries of the directory fill whole blocks and its last block is not full |
| `Creation.DuplicateCosts` | simplefs.c:626-670 | A creation under an existing name loses a block in exactly that case |
| `RepeatedName.LoseBlock` | simplefs.c:626-670 | From a new volume: four files, then the first name again; that fails, and the state is as before but for a free count of 97 instead of 98 |
| `FsState.GrownShape` | simplefs.c:1313-1349 | With a new name for an inode that has just come to life, names in a directory are still distinct and every live inode but the root and `.lock` has exactly one entry |
| `FsState.CreateSucceeds` | simplefs.c:1313-1349 | The volume with the appended record is the volume of the tree with the new entry |
| `FsState.RecordAppended` | simplefs.c:1334-1344 | The append of a record changes the content of its directory to the entries with the new one, and no other content |
| `FsState.FileWriteKeepsTree` | simplefs.c:581-697 | Writing to a file keeps the tree of names |
| `BlockAllocator.BlockAllocator.FindFreeBlocks` | simplefs.c:361-428 | Over any bitmap: refuses without any change if and only if no more than k blocks are free; else answers the first candidate and hands out one block a turn; from a regular volume the volume is regular afterwards if and only if the search stays inside it, and it then hands out exactly the next k candidates |
| `BlockAllocator.BlockAllocator.TakeFirst` | simplefs.c:378-423 | One turn over any bitmap: marks one bit, lowers the count and moves to what the scan finds |
| `BlockAllocator.BlockAllocator.ScanForFree` | simplefs.c:400-423 | Over any bitmap the scan loop, if it ends, answers what the sweep to the end finds, or else the sweep from the number of the first data block on |
| `BlockAllocator.BlockAllocator.ParseByte` | simplefs.c:411-414 | The bit loop terminates within the byte at the first clear bit |
| `BlockAllocator.CandidatesAreFree` | simplefs.c:361-428 | The blocks handed out are strictly increasing, distinct, in range, were not taken, and are exactly what is taken in addition afterwards |
| `BlockAllocator.ScanRegular` | simplefs.c:400-423 | While the search stays inside the volume the scan finds the next number that is no multiple of 8 (the mask is 0 there) |
| `BlockAllocator.MarkKeepsRegular` | simplefs.c:380-395 | Marking a candidate keeps free count = blocks - marked bits |
| `BlockAllocator.SmallVolumesFit` | simplefs.c:361-428 | On volumes of at most 8 blocks no search runs off the end |
| `BlockAllocator.RegularIffFits` | simplefs.c:361-428 | A search of a regular volume that is not refused, and ends, leaves it regular if and only if the candidate behind the k-th is inside the volume; if not, the next block it would hand out lies outside, is a multiple of 8 or is taken already |
| `BlockAllocator.SearchFits` | simplefs.c:361-428 | A search that stays inside ends, and hands out exactly the next k candidates |
| `BlockAllocator.SearchRunsOff` | simplefs.c:400-423 | A search that runs off the end leaves every block marked whose number is no multiple of 8 |
| `BlockAllocator.ExhaustedNotRegular` | simplefs.c:400-423 | From such a bitmap no candidate and no free count make a regular volume, and no candidate is a free block that the search may hand out |
| `BlockAllocator.FreeTellsFirst` | simplefs.c:361-428 | In a regular volume the free count alone gives the first candidate, and every later one, in closed form |
| `BlockSearch.ScanEnds` | simplefs.c:400-423 | The scan loop ends if and only if one of its two sweeps finds something, and then with what that finds |
| `BlockSearch.ScanAnswers` | simplefs.c:400-423 | Over any bitmap with a free block ahead that is no multiple of 8: the scan answers the first such block if and only if every byte in between is full; else it answers the multiple of 8 behind the first byte that is not, free or not |
| `BlockAllocator.RunOffTakesTwice` | simplefs.c:416-419 | A volume of 25 blocks, reached from a new one by a search for 20, in which a search for three hands out blocks 23, 16 and 16 |
| `SearchEnds.EveryScanEnds` | simplefs.c:400-423 | On every accepted volume, after any number of turns of a search that started regular, the next scan ends if and only if the candidate has a bit in the bitmap |
| `SearchEnds.SpareBitsSuffice` | simplefs.c:361-428 | A search on an accepted volume whose bitmap has seven bits to spare always ends |
| `SearchEnds.AcceptedRoomy` | simplefs.c:54-69 | In every accepted layout the byte with which the second sweep begins lies before the end of the volume |
| `SearchEnds.LeavesBitmap` | simplefs.c:416-419 | On volumes with as many blocks as bits a search comes to the number behind the last block, if the start of the second sweep and the last byte are an even number of bytes apart |
| `SearchEnds.CandidateBehindBitmap` | simplefs.c:416-419 | A new volume of 8192 blocks of 1024 bytes is one of them |
| `Bitmap.MaskFindsFree` | simplefs.c:401-410 | The mask of a candidate that is no multiple of 8 sees a clear bit at or after it in its byte |
| `InodeTable.InodeTable.InsertNewInode` | simplefs.c:739-774 | Puts the inode in the least empty place, never on a live one, answers 0 iff the table is full, and finds the new least empty place |
| `InodeTable.InodeTable.MarkInodeAsEmpty` | simplefs.c:1246-1253 | Empties the inode and keeps the first free inode the least empty one |
| `InodeTable.InsertThenMark` | simplefs.c:739-774 | Insert followed by mark-empty restores the set of empty inodes and the first of them |
| `InodeTable.LeastEmptyUnique` | simplefs.c:739-774 | The kinds alone determine the first free inode |
| `Layout.PartsApart` | simplefs.c:54-69 | For every accepted block size and count, master block, bitmap, inode table and data blocks are pairwise disjoint ranges inside the volume |
| `Layout.TablesLargeEnough` | simplefs.c:54-69 | Every block number has a bit in the bitmap region, and there are at least as many inodes as blocks |
| `Layout.NothingWasted` | simplefs.c:54-69 | Bitmap and inode table have no block more than they need, and the parts follow each other without gaps up to the end of the volume |
| `Layout.WholeRecords` | simplefs.c:811-813 | The payload is a whole number of records exactly for block sizes with remainder 256 modulo 7936 |
| `Layout.RecordCount` | simplefs.c:787-799 | The duplicate check counts the right number of records exactly for block sizes that are no multiples of 7936 |
| `LockProtocol.CounterCountsInside` | simplefs.c:1182-1230 | In every interleaving of any number of processes, whenever nobody is between a lock and an unlock call the counter is the number of processes between enter and leave |
| `LockProtocol.NoUpdateLost` | simplefs.c:1182-1230 | The counter is always the number of increments stored less the number of decrements stored |
| `LockProtocol.MutualExclusion` | simplefs.c:1182-1230 | No two processes work on the counter at once |
| `LockProtocol.LastOneOut` | simplefs.c:1219-1226 | The value that a leaving process reads is the number of processes it leaves inside; it is 0 exactly when there are none |
| `LockProtocol.InodeKeptOrGivenUp` | simplefs.c:1222-1226 | The step after the value has been read: with a value other than 0 the process gives up nothing, and has the whole range of the inode if no other process has locked a byte of it; with 0 it has none of that range; nothing else changes |
| `LockProtocol.InodeUnlockedLast` | simplefs.c:1219-1226 | In every interleaving, a process that leaves others inside gives up no byte it has locked, and one that leaves nobody inside gives up the inode |
| `LockProtocol.InodeByte` | simplefs.c:1182-1226 | A byte of the inode's range that is not the counter's is locked only on entering and after the value has been read, if nobody else has locked a byte of that range, and given up only in the latter step, exactly when the value is 0 |
| `LockProtocol.SearchByte` | simplefs.c:361-428 | A byte of the range for searches that is not the counter's is locked exactly when a search begins, and given up exactly when one ends that does not keep it |
| `LockProtocol.NoDeadlock` | simplefs.c:1182-1230 | For all ranges of bytes that may overlap as in some accepted layout: who has to wait, waits for a process of lower rank that has locked a byte of the range, and a process of rank 0 can go on; so nobody waits in a circle |
| `LockProtocol.RunKeepsInv` | simplefs.c:1182-1230 | The invariant behind these holds in every interleaving |
| `LockProtocol.LayoutRanges` | simplefs.c:1182-1192 | In every accepted layout the ranges are as these results need them; the counter's meets that of the search if and only if fewer than 40 blocks come before the data, and contains it if and only if at most 32 do |
| `LockProtocol.SearchKept` | simplefs.c:663-668 | After a creation that found the name another search waits for a process outside if and only if the range of the search is not part of the counter's |
| `HashTable.PerformAll` | uthash.h:169-254 | Over any run of adds, replacements and deletions with unique keys, across any number of expansions, with or without the Bloom filter, the table stands for the plain map |
| `HashTable.Perform` | uthash.h:169-254 | One operation does to the table what it does to the map |
| `HashTable.Lookup` | uthash.h:100-111 | Finding a key gives what the map has for it |
| `HashTable.HashTable.Find` | uthash.h:100-111 | Finds an item with the key if and only if there is one |
| `HashTable.HashTable.BloomTest` | uthash.h:130-137 | Answers whether the bit for the hash value modulo 2^nbits is set; never rejects the key of an item |
| `HashTable.BloomAdd` | uthash.h:130-134 | Exactly the bit for the hash value modulo 2^nbits is set, and none is cleared |
| `HashTable.HashTable.Add` | uthash.h:179-202 | Keeps the whole invariant; the item is the last of the list; the first one makes a table of 32 buckets; in the filter exactly the bit of the key is set in addition |
| `HashTable.HashTable.Delete` | uthash.h:221-254 | Keeps the whole invariant; exactly that item is gone from the list, the others keep their order, and the buckets their multipliers |
| `HashTable.HashTable.Replace` | uthash.h:169-177 | Answers and takes out the item with that key, if any, then adds the new one |
| `HashTable.HashTable.AddToBkt` | uthash.h:622-632 | The buckets double exactly when the count reaches the threshold and expansion is not switched off; if they do not, the item is in front of its chain and all other chains and all multipliers stay |
| `HashTable.HashTable.ExpandBuckets` | uthash.h:677-723 | Doubling keeps every item, each in the bucket its hash selects, num_buckets a power of two, the ideal length ceil(n / buckets) > 0; ideal * expand_mult <= count < ideal * (expand_mult + 1) where count > ideal, and expand_mult = 0 elsewhere; nonideal_items and the items within the ideal length are all items; expansion is switched off after two ineffective ones |
| `Buckets.Expand` | uthash.h:677-711 | The redistribution loop: new chains, counts, ideal length and excesses; ideal * expand_mult <= count < ideal * (expand_mult + 1) where count > ideal, and expand_mult = 0 elsewhere |
| `Buckets.ChainsBounded` | uthash.h:699-703 | After an expansion the multiplier of a bucket is how often the ideal length fits into its chain if that is longer, and 0 if not |
| `Buckets.WithinOrBeyond` | uthash.h:699-701 | The items beyond the ideal length of their chains and those within it, min(count, ideal) per bucket, are all items |
| `Bits.ShiftAndMaskIsCeil` | uthash.h:688-690 | The shift-and-mask formula is the ceiling of n / 2^k |
| `Bits.MaskIsMod` | uthash.h:204-207 | Masking with 2^k - 1 is the remainder modulo 2^k |
| `Buckets.DelInBucket` | uthash.h:636-646 | Takes the item out of its chain and keeps every bucket in order, and every multiplier |
| `Buckets.AddToBucket` | uthash.h:622-629 | Puts an item in front of its chain and keeps every bucket in order |
| `Buckets.FindInBucket` | uthash.h:608-619 | The first item of the chain with the key |
| `HashTable.HashTable.Sort` | uthash.h:730-815 | The list becomes the merge-sorted list, head, tail and links consistent; buckets, chains and lookups as before |
| `ListSort.SortList` | uthash.h:730-815 | The in-place pointer algorithm terminates and computes the bottom-up merge sort of the list |
| `ListSort.PassList` | uthash.h:739-805 | One pass merges the runs two by two, relinks the whole list, and reports at most one merge exactly when the list fits in two runs |
| `ListSort.MergeRuns` | uthash.h:755-800 | The merge loop emits the merge of two runs behind what has been emitted |
| `MergeSort.StableSort` | uthash.h:730-815 | For every total preorder the result is a sorted permutation that keeps the order of equivalent items |
| `MergeSort.SortedPermutes` | uthash.h:730-815 | For any comparison function at all the result is a permutation |
| `MergeSort.PassDoubles` | uthash.h:739-812 | A pass over ordered runs of n leaves ordered runs of 2n, stably |
| `HashTable.Fsck` | uthash.h:284-334 | The integrity check, run on a table that satisfies the invariant, never complains |
| `HashTable.CheckBuckets` | uthash.h:294-314 | Its bucket part: back links and counts are right, and the counts are added up |
| `HashTable.CountsAddUp` | uthash.h:284-334 | The counts of the buckets add up to the number of items |
| `HashTable.AsMapEntries` | uthash.h:100-111 | The map has exactly the keys of the items, each with its item |
| `HashTable.AsMapWithout` | uthash.h:221-254 | Deleting an item takes exactly its key out of the map |
| `HashTable.AsMapReplaced` | uthash.h:169-177 | Replacing updates exactly one key of the map |
| `TestRun.TestRunner.RunAllTests` | CUnit-2.1-3/CUnit/Sources/Framework/TestRun.c:347-383 | Counts, linked failure list, handler calls with the list they were given, and error code are those of the model of a run, which RunOutcome.AllTestsOutcome tells from the registry alone |
| `TestRun.TestRunner.RunSuite` | CUnit-2.1-3/CUnit/Sources/Framework/TestRun.c:386-415 | The same for the run of one suite, with RunOutcome.OneSuiteOutcome |
| `TestRun.TestRunner.RunTest` | CUnit-2.1-3/CUnit/Sources/Framework/TestRun.c:418-508 | The same for the run of one test, with RunOutcome.OneTestOutcome, and its four refusals; the test is looked up by name, whatever the case |
| `TestRun.TestRunner.RunSingleSuite` | CUnit-2.1-3/CUnit/Sources/Framework/TestRun.c:833-941 | The same for a suite within a run |
| `TestRun.TestRunner.RunSingleTest` | CUnit-2.1-3/CUnit/Sources/Framework/TestRun.c:959-1032 | The same for a test within a suite |
| `TestRun.TestRunner.AddFailure` | CUnit-2.1-3/CUnit/Sources/Framework/TestRun.c:679-745 | Appends exactly one node, keeps the list doubly linked and the last pointer on its last node |
| `TestRun.TestRunner.AssertImplementation` | CUnit-2.1-3/CUnit/Sources/Framework/TestRun.c:151-177 | Counts the assertion, records a failure, and jumps exactly if it is fatal and a jump buffer is set |
| `TestRun.TestRunner.CallFunction` | CUnit-2.1-3/CUnit/Sources/Framework/TestRun.c:987-993 | A test function makes its assertions up to and including the first failing fatal one |
| `TestRun.TestRunner.FailuresSince` | CUnit-2.1-3/CUnit/Sources/Framework/TestRun.c:1010-1022 | The pointer handed to the handlers is the node of the first record since the test or suite began; null if there is none |
| `TestRun.TestRunner.ClearPreviousResults` | CUnit-2.1-3/CUnit/Sources/Framework/TestRun.c:761-782 | Counts, list and last pointer are reset |
| `RunModel.RunAllTestsConserves` | CUnit-2.1-3/CUnit/Sources/Framework/TestRun.c:347-383 | Over every whole run nFailureRecords = length of the list = failed assertions + failed suites (+ inactive suites and tests, if they count); tests run and failed are those reported; and the handler calls follow the grammar of suites and tests |
| `RunModel.RunOneSuiteConserves` | CUnit-2.1-3/CUnit/Sources/Framework/TestRun.c:386-415 | The same for the run of one suite |
| `RunModel.RunOneTestConserves` | CUnit-2.1-3/CUnit/Sources/Framework/TestRun.c:418-508 | The same for the run of one test; handlers are called exactly when nothing is refused, names being compared whatever the case |
| `RunOutcome.AllTestsOutcome` | CUnit-2.1-3/CUnit/Sources/Framework/TestRun.c:347-383 | The run of a registry starts exactly its suites up to and including the first with an error, or all if errors are ignored, and of each that is active and initializes exactly its active tests, up to the first inactive one that ends the run; it calls the handlers for just these, in order; the failure list is just theirs, in order; every count is the sum over them; and the error is the first one |
| `RunOutcome.OneSuiteOutcome` | CUnit-2.1-3/CUnit/Sources/Framework/TestRun.c:386-415 | The same for the run of one suite: calls, failure list, counts and error follow from that suite alone |
| `RunOutcome.OneTestOutcome` | CUnit-2.1-3/CUnit/Sources/Framework/TestRun.c:443-505 | The same for the run of one test: it is started even if inactive, which is then the error in any case, and its suite is not counted as run |
| `RunOutcome.OneTestRefused` | CUnit-2.1-3/CUnit/Sources/Framework/TestRun.c:422-441 | Which run of one test is refused, with which error; no handler is called exactly then |
| `RunOutcome.SuiteAdds` | CUnit-2.1-3/CUnit/Sources/Framework/TestRun.c:833-941 | A suite adds, to whatever went before, the calls for it and for its active tests up to the first inactive one that ends the run, their failures and their counts, and has its own error |
| `RunOutcome.TestsAdd` | CUnit-2.1-3/CUnit/Sources/Framework/TestRun.c:873-896 | The tests of a suite add, to whatever went before, exactly the start and completion of the active ones up to the first inactive one that ends the run, their failures and their counts |
| `RunOutcome.TestAdds` | CUnit-2.1-3/CUnit/Sources/Framework/TestRun.c:959-1032 | A test adds its failed assertions as records, counts all of set-up and tear-down and of its own assertions those up to the first failing fatal one, and is reported as failed if and only if it has a record |
| `RunOutcome.TallySums` | CUnit-2.1-3/CUnit/Sources/Framework/TestRun.c:865-941 | In these counts the suites run are the active ones whose initialization does not fail, the assertions are those of set-up, test up to its first failing fatal one, and tear-down, over the tests started, and the failure records are those of the list |
| `RunModel.RunTestKeeps` | CUnit-2.1-3/CUnit/Sources/Framework/TestRun.c:959-1032 | A test calls its two handlers, reports exactly the records since it began by the index of the first, all of them its own, and keeps the counts in balance |
| `RunModel.RunSuiteKeeps` | CUnit-2.1-3/CUnit/Sources/Framework/TestRun.c:833-941 | A suite reports exactly the records since it began, all of them its own; its calls form a closed block |
| `RunModel.RunTestsKeeps` | CUnit-2.1-3/CUnit/Sources/Framework/TestRun.c:873-896 | The tests of a suite start and complete in turn, keep the counts in balance and record nothing of other suites |
| `RunModel.CountsAddUp` | CUnit-2.1-3/CUnit/Sources/Framework/TestRun.c:679-745 | Every record is of exactly one kind |
| `RunModel.FirstErrorKept` | CUnit-2.1-3/CUnit/Sources/Framework/TestRun.c:873-896 | The result of the tests of a suite is their first error: setting it for an inactive test never replaces another one |
| `RunModel.SuiteReportRight` | CUnit-2.1-3/CUnit/Sources/Framework/TestRun.c:489-502 | In the run of one test the handler for the end of the suite gets no failure list, the right one if and only if nothing goes wrong; the one for the end of the run always gets the right one |
| `RunModel.SameCharacters` | CUnit-2.1-3/CUnit/Sources/Framework/Util.c:185-196 | Two characters count as the same if and only if they are, or are the small and the capital form of one letter |
| `TestRun.CompareStrings` | CUnit-2.1-3/CUnit/Sources/Framework/Util.c:185-196 | Answers 0 if and only if the names are the same but for the case of letters |
| `TestRun.GetTestByName` | CUnit-2.1-3/CUnit/Sources/Framework/TestDB.c:998-1016 | The first test of the suite with that name, whatever the case, or none if and only if there is none |
| `Escaper.TranslateSpecialCharacters` | CUnit-2.1-3/CUnit/Sources/Framework/Util.c:95-163 | Succeeds if and only if the escaped length is below maxlen, then leaves the NUL-terminated escape and answers the number of positions that the escape changes, so 0 if and only if the text comes out as it is; else the empty string and 0; never writes at or past maxlen |
| `Escaper.TranslatedStrlen` | CUnit-2.1-3/CUnit/Sources/Framework/Util.c:166-182 | The length of the escaped text |
| `Escaper.GetIndex` | CUnit-2.1-3/CUnit/Sources/Framework/Util.c:83-93 | The binding of a character that the escape changes, or -1 for one that it does not |
| `Escaper.SpecialsChange` | CUnit-2.1-3/CUnit/Sources/Framework/Util.c:67-71 | The special characters are exactly those that the escape changes |
| `Escaper.SpecialsCounted` | CUnit-2.1-3/CUnit/Sources/Framework/Util.c:125-163 | The number of special characters is that of the positions the escape changes; it is 0 if and only if the escape is the text |
| `Escaper.RoundTrip` | CUnit-2.1-3/CUnit/Sources/Framework/Util.c:125-163 | Decoding the predefined entities of section 4.6 of XML 1.0 undoes the escape |
| `Escaper.EscapedInjective` | CUnit-2.1-3/CUnit/Sources/Framework/Util.c:125-163 | Different texts have different escapes |
| `Escaper.EscapedIsText` | CUnit-2.1-3/CUnit/Sources/Framework/Util.c:125-163 | Escaped text has no angle brackets, and every ampersand begins one of the three entities |

## Left out

- FileSystem.FileSystem.WriteUnsafe: unless the mode stops it, needs a search for blocks that stays inside the volume or is refused, and a write that does not reach a full last block, or finds the name it checks; a buffer must not be empty. See above for what the code does otherwise.
- FileSystem.FileSystem.Read: needs a known descriptor and a position inside the file; the code follows a null pointer for an unknown descriptor and computes a negative length past the end. The buffer is a result, not caller memory.
- FileSystem.FileSystem.LseekUnsafe: answers 0 on success, where the code returns no value; the same holds for FileSystem.FileSystem.Close.
- FileSystem.FileSystem.Lseek: the answer -1 for a file system that cannot be opened is left out.
- Creation.CreateFileOrDir: needs an absolute path without NUL. If the name is not too long, the parent exists and there is a free inode, the parent must be a directory, the search for a block must stay inside the volume or be refused, and unless it is refused the block size must be no multiple of 7936 and the last block of the directory not full, or the name there already. The code opens the parent a second time by path; the model does too, but the two lookups cannot differ here.
- BlockAllocator.BlockAllocator.FindFreeBlocks: each candidate must have a bit in the bitmap, and each scan end, as it does on every accepted volume whose searches started in order; the code would mark a bit behind the bitmap. What a search does after it has run off the end is specified, but not carried through the file system.
- Runs.Run: stops at the first operation whose precondition does not hold; a write through a descriptor opened on a directory is not part of runs.
- FileSystem.FileSystem.Write: through a descriptor opened on a directory it keeps the volume well formed, but nothing is claimed about names afterwards; the code lets such a write put anything into the records.
- Signature.CheckDuplicateFileNamesInBlock: leaves out block sizes that are multiples of 7936, for which the code reads one record more than the buffer holds; the inode number of that record lies behind the buffer, in whatever memory is there.
- LockProtocol.CounterCountsInside: covers calls that enter and leave once; the paths that return without releasing the lock, or release it twice, are not modelled, nor is mutual exclusion of unlink, whose inode lock is merely tried, nor the locks on the blocks that a creation writes, which lie behind all these ranges.
- HashTable.HashTable.Find: the hash function is any deterministic function from keys to natural numbers, not the 32-bit mixing of the default one; keys are byte sequences and comparison is by length and bytes.
- HashTable.HashTable.Delete: the table object outlives its last item, where the code frees it; an empty table holds nothing.
- HashTable.HashTable.Sort: the comparison function sees items but not their links.
- TestRun.TestRunner.RunSingleTest: the tear-down function has no failing fatal assertion, because the code would then jump back into the test for ever.
- TestRun.TestRunner.RunSingleSuite: initialization and cleanup functions make no assertions; all handlers are set, and their calls are logged.
- TestRun.TestRunner.RunTest: suites and tests have names; the case of letters outside a-z is not folded.
- Escaper.TranslateSpecialCharacters: the source text is the C string before its NUL.
- `simplefs_unlink` and `_free_data_block`: the byte they clear and the free counts they raise do not match the allocator, so block conservation does not hold across them.
- Integer widths: block numbers, sizes, offsets and counts are natural numbers; 32-bit overflow is not modelled, and `ceil` of a quotient is integer ceiling division.
- The layout of a block in bytes: the link field is a number beside the payload, not its last 8 bytes; records of directories are modelled byte by byte.
- Host files, memory mapping, system calls, allocation failure, mutexes, and the record locks on the master block and on data blocks.
- Error paths of a file system that cannot be opened, and the magic number.
- `HASH_SELECT`, the other hash functions, the key log, and the pointers from items to their table.
- Failure texts and line numbers, elapsed time, and the per-suite success and failure counters of CUnit, which the code increments the other way round.
- The registry of suites and the front ends of CUnit, and the command-line and stress programs: list appends, printing and process plumbing.
