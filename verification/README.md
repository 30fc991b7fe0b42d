# dcplaya: models and proofs

dcplaya is a Dreamcast music player that carries its own small operating-system layer. This project models the data
structures and algorithms at its core in Dafny 4.11 and proves what they are for. `dafny verify dfyconfig.toml` checks
everything.

| part | files | what is proved |
|---|---|---|
| Fourier transforms over exact reals (`obsolete/fft.c`) | `Arith`, `Complex`, `Dft`, `BitReversal`, `Passes`, `Butterflies`, `Fft`, `RealFft`, `InverseFft` | the in-place transforms leave exactly the array that the double loop of the definition computes, for every power of two; the packed real transform too, and back again |
| 16-bit fixed-point transform (`src/int_fft.c`) | `Modulus`, `FixedPoint`, `FixedFft`, `Decimation`, `FixedAccuracy`, `FixedMethod` | no intermediate overflows, and every bin is within 5.25 units a pass of the exact one |
| dcar archives (`src/dcar.c`) | `DcarFormat`, `DcarTree`, `DcarCut`, `DcarArchive`, `DcarMeaning`, `DcarReader`, `DcarEntries`, `DcarChains`, `DcarWriter` | what is archived of every directory, byte for byte of the stream, and exactly which directories archiving and extracting gives back |
| RAM-disk file system (`src/fs_ramdisk.c`) | `RamTree`, `RamHandles`, `RamSpec`, `RamNames`, `RamOps`, `RamTheorems`, `RamOpen`, `RamRuns`, `RamFailures`, `RamDisk` | lifetime safety, name lookup as a path map, complete directory scans, over every run of open, close, unlink, readdir, write and seek, and exactly which writes to directories spoil them |
| external heap (`src/exheap.c`) | `HeapLayout`, `ExHeap` | tiling, coalescing, exact choice and failure, canonicity, disjoint allocations over every run |
| PCM fifo (`src/fifo.c`) | `FifoRing`, `Fifo`, `FifoThreads`, `FifoProgress` | the ring holds what was written; safety under every interleaving of its three threads, and exactly what is left of it when the reader's last step is taken apart |
| path canonicalisation (`src/filename.c`) | `PathSpec`, `Filename` | equal to a stack machine, idempotent, exact failure |
| SPU DMA chains (`src/dma.c`) | `Dma` | the chain protocol under every interleaving, and exactly which missing sources and destinations are missed |
| display lists (`src/display_list.c`) | `DisplayMeaning`, `DisplayContexts`, `DisplayWords`, `DisplayHeap`, `DisplayList`, `DisplayRefs` | rendering along offsets in a heap that moves means the inserted commands; what breaks and skips do through sub-lists; exact reference counts |
| box clipping (`libs/draw/box.c`) | `Box` | clipping keeps the colour at every point |

`Common` holds what several parts share. Where the source changes things in place, so do the methods here: arrays are overwritten by the butterflies and swaps,
and the RAM disk, the external heap, the archiver, the extractor, the fifo and the command heap are classes whose fields
are assigned step by step. Structures that the source releases with `free` are kept in an explicit memory, a map from
addresses, so that a reference to released storage is something that can be said and excluded. Each method is tied to a
specification function, and the theorems are about that function. Protocols between threads are state machines whose
steps are the code's atomic actions.

Proofs hide the definitions they do not need. Small lemmas, some with an empty body, therefore say the one fact about a
definition that a proof uses; the main results are the rows below.

Parameters stand for what lies outside: the table of complex exponentials and the sine table with the laws they satisfy,
allocators (which never answer with an address in use), `sbrk` (which never answers with less than the present total),
the directory listings that a file system gives, the callbacks of display-list commands.

## Model

| member | source | states |
|---|---|---|
| Dft.DFT | obsolete/fft.c:565-582 | the double loop leaves in cell j the sum over k of sample k times the table entry j*k mod n |
| Fft.FFT2 | obsolete/fft.c:405-413 | for every n = 2^m, stride and input, the array afterwards is the transform of the array before, in order; cells between the strided samples are untouched |
| Fft.FFT2raw | obsolete/fft.c:415-447 | the nested butterfly loops leave the transform in bit-reversed order, also with a table dilate times as large |
| Fft.ReverseDig | obsolete/fft.c:138-157 | the swap loop applies exactly the bit-reversal permutation |
| Fft.Pass | obsolete/fft.c:424-446 | one pass replaces every pair of partners by their sum and twiddled difference, each pair once |
| Fft.Butterfly | obsolete/fft.c:434-444 | sum and twiddled difference of two cells, all others kept |
| Butterflies.ReducedPass | obsolete/fft.c:415-447 | a pass keeps the invariant that block b transforms to the bins that are the reversal of b modulo 2^level |
| Butterflies.ReducedDone | obsolete/fft.c:405-413 | when blocks are single cells the invariant says that mirroring the cells leaves the transform |
| Dft.SplitInFrequency | obsolete/fft.c:415-447 | even bins are the half-size transform of the folded sums, odd bins of the twiddled differences |
| BitReversal.RippleCarry | obsolete/fft.c:150-155 | the carry loop turns the reversal of i into the reversal of i + 1, and ends |
| BitReversal.HighestClear | src/int_fft.c:102-106 | the search for the highest clear bit turns the reversal of i into that of i + 1: the same permutation by other means |
| BitReversal.RevInvolution | obsolete/fft.c:138-157 | the permutation is its own inverse |
| BitReversal.ReversedTwice | obsolete/fft.c:138-157 | mirroring an array twice leaves it as it was |
| BitReversal.SwapDone | src/int_fft.c:96-116 | swapping each cell with its mirror once, below a bound that covers all, mirrors the array |
| RealFft.FFT2realpacked | obsolete/fft.c:267-280 | for every n = 2^m >= 4 and all real samples packed two per cell, the cells hold bins 0 to n/2 of the full-size transform; for n below 4 the array stays as it is |
| RealFft.PackedTransform | obsolete/fft.c:450-480 | the packed passes and the packed reordering transform the first n cells and leave the others |
| RealFft.Realspacked | obsolete/fft.c:346-400 | the in-place loop leaves in every cell the combination of two mirrored half-size bins as they were before the loop |
| RealFft.Mirror | obsolete/fft.c:360-399 | what the loop body leaves in a mirrored pair, also when both are the quarter cell that is overwritten before it is read again |
| RealFft.UnpackedBin | obsolete/fft.c:346-400 | the combination of two half-size bins is the bin of the full-size transform |
| InverseFft.FFT2torlpacked | obsolete/fft.c:213-230 | from bins 0 to n/2 of real samples the converse leaves the samples, times n and the scale; for n below 4 the array stays as it is |
| InverseFft.RealRoundTrip | obsolete/fft.c:615-643 | forward and back with scale 1/n leaves the packed samples as they were |
| InverseFft.GatherBack | obsolete/fft.c:565-582 | summing the bins against the inverse powers gives each sample times the length, from the table laws alone |
| InverseFft.ConjugateInverts | obsolete/fft.c:213-230 | transforming the conjugated transform and conjugating gives each sample times the length |
| InverseFft.RepackedBin | obsolete/fft.c:346-400 | with sign -1 the combination gives the half-size bin back |
| InverseFft.ConjScale | obsolete/fft.c:234-244 | the first cells are conjugated and scaled, the others kept |
| FixedMethod.FixFft | src/int_fft.c:86-152 | for moduli up to 32767 - 4m and m <= 10 every intermediate fits 16 bits, and the arrays hold the scaled butterfly passes of the mirrored input; larger m is refused with nothing changed |
| FixedMethod.Reorder | src/int_fft.c:96-116 | the reordering loop mirrors the cells |
| FixedMethod.FixPass | src/int_fft.c:120-149 | one pass of scaled butterflies, on inputs that leave 4 units of room |
| FixedMethod.ButterflyFixed | src/int_fft.c:136-147 | one scaled butterfly in 16-bit steps |
| FixedMethod.FixMpy16 | src/int_fft.c:67-71 | the product with a halved table entry, shifted down, fits 16 bits |
| FixedPoint.ButterflyError | src/int_fft.c:120-149 | both results of the truncating butterfly are within 4 units of the exact ones |
| FixedPoint.NormStep | src/int_fft.c:19-20 | a butterfly raises the bound on the moduli by at most 4 |
| FixedFft.StagesWithin | src/int_fft.c:118-150 | after p passes the moduli have risen by at most 4p |
| FixedAccuracy.FixedTransformClose | src/int_fft.c:86-152 | every bin is within 5.25 * log2 n of the exact transform divided by n, when the table is within 2.5 units of the exact roots |
| Decimation.SplitInTime | src/int_fft.c:118-150 | bins j and j + h of 2h samples are an exact butterfly of the bins of the even and the odd samples |
| Decimation.DecimatedSingle | src/int_fft.c:96-116 | decimating down to single samples puts them in bit-reversed order |
| DcarMeaning.ExtractedIff | src/dcar.c:522-634 | any directory of up to 2^30 entries, archived and extracted, is at every path below the target what it was exactly if all its names have less than 32 bytes, or 32 in the case of empty files, and all its files less than 2^30 |
| DcarMeaning.ExtractedMeaning | src/dcar.c:877-987 | archiving a non-empty forest that the format can hold and extracting it, into whatever is there, succeeds exactly if no file of it falls on a directory and no directory on a file; then every path below the target at which the forest has something holds that, replaced or new, and every other path what it held |
| DcarMeaning.ReadSlight | src/dcar.c:773-851 | whatever the stream, an archiver's table is read as no name of more than 32 bytes, nothing but an empty file under one of 32, and no file of 2^30 bytes |
| DcarMeaning.NotSlight | src/dcar.c:86-106 | a directory that the format cannot hold has something at some path that is none of these |
| DcarArchive.RoundTrip | src/dcar.c:877-987 | for every forest that the format can hold, extraction succeeds exactly when it is non-empty and nothing is in its way, consumes the whole stream and counts every entry |
| DcarMeaning.FitsIff | src/dcar.c:746-771 | what the two recursions meet on their way is what is at the paths of the forest |
| DcarArchive.TruncatedFails | src/dcar.c:877-987 | an archive that has lost as little as its last byte is refused |
| DcarArchive.AcceptedExactly | src/dcar.c:877-987 | whatever is accepted has the magic, a positive int count, as many entries, an end to each level, and that many entries have been read; a stream without such a header leaves the files alone |
| DcarArchive.ShortBody | src/dcar.c:684-743 | a body that ends too early is an error and leaves the whole chunks of 512 bytes that there were |
| DcarTree.TreeRead | src/dcar.c:773-851 | the index-following recursion reads the table and the data stream that the writer's two other recursions make, or fails when something is in the way |
| DcarTree.LevelRead | src/dcar.c:787-817 | the first loop of the reader takes one level and its bodies, in order |
| DcarTree.SubsRead | src/dcar.c:819-845 | the second loop takes the directories of the level from the indices they hold |
| DcarMeaning.TreeMeaning | src/dcar.c:773-851 | what the reader makes of a forest is what the forest's names lead to, and nothing else changes |
| DcarArchive.TableAhead | src/dcar.c:156-185 | the writer's child indices always point strictly forward |
| DcarArchive.TableOk | src/dcar.c:86-106 | every entry of the table fits its 36 bytes, whatever the sizes of the files |
| DcarArchive.ReadableArchive | src/dcar.c:522-634 | whatever directory it was made of, an archive is read to its end or to an error |
| DcarArchive.HeaderBack | src/dcar.c:924-946 | the header and the table are read back as they were; an empty archive has no table the reader accepts |
| DcarFormat.EntryRoundTrip | include/dcar.h:51-59 | a name and the three bit fields survive their 36 bytes, also a name of 32 bytes without a terminator, when the low byte of the size behind it is zero |
| DcarFormat.TableRoundTrip | src/dcar.c:187-213 | a whole table survives encoding |
| DcarReader.Extractor.DcarExtract | src/dcar.c:877-987 | the imperative extraction computes the specification's outcome on every stream whose indices point forward, malformed ones included |
| DcarReader.Extractor.ExtractTree | src/dcar.c:773-851 | the two loops and their recursion compute the specified outcome, its count or -1 |
| DcarReader.Extractor.ExtractSubs | src/dcar.c:819-845 | the second loop |
| DcarReader.Extractor.GzExtract | src/dcar.c:684-743 | the chunked copy takes exactly the body and its padding, or what whole chunks there were |
| DcarReader.Extractor.ExtractOne | src/dcar.c:746-771 | a regular file replaces what was at its path; a directory there is an error |
| DcarReader.Extractor.MakeDir | src/dcar.c:676-682 | a directory is made where there is nothing and left where there is one |
| DcarReader.Extractor.GzRead | src/dcar.c:703-708 | as many bytes as asked for or as there are |
| DcarWriter.Archiver.DcarArchive | src/dcar.c:522-634 | the imperative archiver, from directory reading to the last byte, writes exactly the archive of what the entries keep of the directory: names cut to 32 bytes, which then stand for empty files, sizes cut to 30 bits, whole bodies |
| DcarWriter.Archiver.Add | src/dcar.c:411-507 | reading a directory tree builds linked entry lists that hold what the entries keep of it, in order, end flags set, below the parent and apart from everything else |
| DcarWriter.Archiver.AddSubs | src/dcar.c:479-501 | the loop over the directories of a level |
| DcarWriter.Archiver.AddLevel | src/dcar.c:430-474 | entries are put in front of one another and the last one read is marked |
| DcarWriter.Archiver.Reverse | src/dcar.c:109-127 | the in-place reversal turns the chain round and touches nothing but its links |
| DcarWriter.Archiver.MakeDirIndex | src/dcar.c:156-185 | the indices of a level and of all below it are set in place, and the next free index returned |
| DcarEntries.IndexingIndexes | src/dcar.c:156-185 | the entries then hold the forest's table |
| DcarEntries.IndexingStays | src/dcar.c:156-185 | and every other structure is as it was |
| DcarWriter.Archiver.WriteEntries | src/dcar.c:187-213 | the recursion over the lists writes the encoded table |
| DcarWriter.Archiver.WriteLevel | src/dcar.c:195-201 | its first loop |
| DcarWriter.Archiver.WriteData | src/dcar.c:304-362 | the recursion over the lists writes the bodies, level before sub-level |
| DcarWriter.Archiver.WriteBodies | src/dcar.c:316-345 | its first loop, which passes over directories and over files whose entries say that they are empty |
| DcarWriter.Archiver.GzCopy | src/dcar.c:233-302 | a body, copied chunk by chunk, and its padding to a multiple of 4 |
| DcarChains.Assemble | src/dcar.c:411-507 | the parts that the loops leave make one linked level in which no structure is used twice |
| DcarChains.De2teExact | src/dcar.c:86-106 | no error exactly for names below 32 bytes and sizes below 2^30; the entry is lossless exactly then, or for an empty file with a name of 32 bytes |
| DcarChains.De2teCut | src/dcar.c:86-106 | with or without an error the entry is that of the cut item |
| DcarCut.HoldsUncut | src/dcar.c:86-106 | what the format can hold is not cut |
| RamRuns.RunSafe | src/fs_ramdisk.c:867-903 | after every run of open, close, unlink, readdir, write and seek in which no call breaks it, the next row says how: open counts equal the handles, an unlinked node is held and childless, and no link, handle or cursor refers to released storage |
| RamRuns.RunSafeIff | src/fs_ramdisk.c:606-659 | of every run: all this holds after each of its calls exactly if none writes through a directory handle whose cursor is on a node, and none unlinks something that is open, has children and is no directory any more |
| RamRuns.FathersIff | src/fs_ramdisk.c:606-659 | of any other call: afterwards the root is a directory and only directories have children exactly if the call is not a write that makes a file of the root or of a directory with children |
| RamRuns.TameSafe | src/fs_ramdisk.c:606-659 | over every run whose writes are to regular files, or through a cursor on no node to directories without children other than the root, no call breaks anything and only directories have children |
| RamFailures.WriteIff | src/fs_ramdisk.c:606-659 | after a write through a directory handle whose cursor is on no node every run without further writes is safe after each call exactly if the directory is the root or has no children |
| RamFailures.DirWriteRun | src/fs_ramdisk.c:1082-1120 | from set-up: make /x through a handle that may write, make /x/f, write to /x; to unlink /x then marks it with its child, and after the close of its handle it is still there, marked, held by none |
| RamFailures.CloseStrands | src/fs_ramdisk.c:1059-1080 | whatever was marked with its children stays so after its last close, because the removal is refused |
| RamFailures.OverrunRun | src/fs_ramdisk.c:606-659 | from set-up: make a file, open the root for reading and writing; a write to that handle goes through a cursor on a node |
| RamFailures.RootLost | src/fs_ramdisk.c:507-551 | once the root has been written to no path of more than its own name is found |
| RamOps.OpenedValid | src/fs_ramdisk.c:723-862 | open keeps the invariant whatever it decides |
| RamOps.ClosedValid | src/fs_ramdisk.c:867-903 | close keeps it; the deferred removal never meets a directory with children |
| RamOps.UnlinkedValid | src/fs_ramdisk.c:1082-1120 | unlink keeps it unless it marks what has children, which only a former directory can have |
| RamOps.ReadValid | src/fs_ramdisk.c:968-1001 | readdir keeps it, and returns no entry twice |
| RamOpen.ReadLeaves | src/fs_ramdisk.c:968-1001 | readdir returns the first child from the cursor on that is not to be unlinked, and then stands at its younger brother; if there is none it stands at the end, and nothing else changes |
| RamRuns.WriteLeaves | src/fs_ramdisk.c:606-659 | a write leaves the position behind what was written, counted from the start for a directory handle at the end, the node a file, and all else as it was |
| RamRuns.SeekLeaves | src/fs_ramdisk.c:906-943 | a seek moves the position of a handle on a file, and does nothing to any other |
| RamRuns.ScanComplete | src/fs_ramdisk.c:968-1001 | whatever calls come between that leave the directory one, a scan that has reached its end has returned, once, every child that was there when it was opened and is still linked and not unlinked |
| RamRuns.AtEnd | src/fs_ramdisk.c:235-277 | at the end everything of the scan lies behind the cursor or is marked |
| RamTheorems.OpenedNames | src/fs_ramdisk.c:771-828 | creating through a path with a leading slash maps that path to the new node and no other path changes |
| RamOpen.OpenSucceeds | src/fs_ramdisk.c:723-862 | open of a path from the root gives a handle exactly if one is free, the mode is known, the last name is one, a file has no slash at its end, and the path leads to a node of that kind, not a directory for writing only, or to nothing, when the mode writes, the path before it leads to a directory and there is memory |
| RamOpen.OpenLeaves | src/fs_ramdisk.c:829-851 | on an existing node: the lowest free handle is on it with the modes asked for, at its first child, at the end, or at 0; its count has risen by one, and nothing else has changed |
| RamOpen.OpenMakes | src/fs_ramdisk.c:790-851 | on none: the path leads to the new node, which is the youngest child of the directory, with the handle on it; all other families are as they were |
| RamOpen.OpenFails | src/fs_ramdisk.c:853-861 | what was refused has changed nothing |
| RamOpen.OpenSlashless | src/fs_ramdisk.c:790-805 | a path that does not begin at the root is never found, and created in the root if it is a single good name and the mode writes |
| RamOpen.SegmentsAre | src/fs_ramdisk.c:666-720 | the segments of a path are the names between its slashes, however many these are, behind an empty one if it leads with a slash |
| RamTheorems.OpenedUnique | src/fs_ramdisk.c:771-828 | open keeps the names of brothers unique exactly unless the path is a single valid name without a leading slash that the root has, opened for writing, not as a file with a slash at its end, while there is a free handle |
| RamTheorems.SlashKeepsUnique | src/fs_ramdisk.c:771-828 | with a leading slash uniqueness is always kept |
| RamTheorems.SlashlessBreaksUnique | src/fs_ramdisk.c:507-551 | the concrete input that loses it: /x exists, x is opened for writing |
| RamFailures.SlashlessRun | src/fs_ramdisk.c:723-862 | two calls from set-up that leave two brothers of one name |
| RamRuns.RunUnique | src/fs_ramdisk.c:723-862 | over every run whose opens lead with a slash, and whose writes are to regular files or through a cursor on no node to directories without children other than the root, names stay unique |
| RamTheorems.UnlinkedNames | src/fs_ramdisk.c:1082-1120 | unlink unmaps its path, also when the node is only marked, and leaves every other path |
| RamOpen.UnlinkSucceeds | src/fs_ramdisk.c:1082-1105 | unlink of a path from the root finds its node exactly if the last name is one, it is a directory when a slash follows, and it has no children |
| RamOpen.UnlinkLeaves | src/fs_ramdisk.c:1107-1117 | a node that is open is marked, any other released, and nothing else changes but links and cursors |
| RamTheorems.UnlinkedHandles | src/fs_ramdisk.c:1095-1117 | open handles stay on their nodes and the nodes exist |
| RamTheorems.ClosedNames | src/fs_ramdisk.c:867-903 | close changes the meaning of no path, also when it takes a node with it |
| RamOpen.CloseLeaves | src/fs_ramdisk.c:867-903 | the handle is free, its node has one handle less, and is released exactly if that was the last one on a node to be unlinked |
| RamNames.LookupResolves | src/fs_ramdisk.c:507-551 | the search returns what the path map has for a path with a leading slash and nothing for any other |
| RamNames.ResolveInjective | src/fs_ramdisk.c:459-551 | no two paths lead to one node |
| RamDiskClass.RamDisk.AttachNode | src/fs_ramdisk.c:217-233 | the node becomes the youngest child, and the whole invariant and state follow |
| RamDiskClass.RamDisk.DetachNode | src/fs_ramdisk.c:235-277 | every word that is the address of the node moves on, be it a cursor or a position, and the node is unhooked |
| RamDiskClass.RamDisk.ReallyUnlink | src/fs_ramdisk.c:1059-1080 | a node with children stays, any other is detached and released |
| RamDiskClass.RamDisk.FindNodeSameLevel | src/fs_ramdisk.c:459-505 | the eldest brother of that name that is not unlinked, if it is of the kind asked for |
| RamDiskClass.RamDisk.FindNode | src/fs_ramdisk.c:507-551 | the recursive search is the specification's |
| RamDiskClass.RamDisk.YoungestBros | src/fs_ramdisk.c:207-215 | the last of the brothers |
| RamDiskClass.RamDisk.Open | src/fs_ramdisk.c:723-862 | the new state and the descriptor are the specification's |
| RamDiskClass.RamDisk.PlanOpen | src/fs_ramdisk.c:735-812 | the checks and searches of open decide as specified |
| RamDiskClass.RamDisk.PlanNode | src/fs_ramdisk.c:771-812 | its searches for the node and for the directory of a new one |
| RamDiskClass.RamDisk.Close | src/fs_ramdisk.c:867-903 | the new state is the specification's |
| RamDiskClass.RamDisk.Unlink | src/fs_ramdisk.c:1082-1120 | the new state and the return code are the specification's |
| RamDiskClass.RamDisk.Readdir | src/fs_ramdisk.c:968-1001 | the next entry not unlinked, and the cursor after it |
| RamDiskClass.RamDisk.Write | src/fs_ramdisk.c:606-659 | what it does besides copying is the specification's: only the mode of the handle is checked |
| RamDiskClass.RamDisk.GetOpenFile | src/fs_ramdisk.c:554-568 | the lowest free slot |
| HeapLayout.RunSound | src/exheap.c:229-364 | over every run of allocations and releases the blocks tile the heap, none is smaller than a block structure, no two neighbours are free, and every held allocation is a used block at least as big as was asked for |
| HeapLayout.HeldDisjoint | src/exheap.c:229-364 | what two callers hold never overlaps and lies in the heap |
| HeapLayout.AllocWellFormed | src/exheap.c:229-300 | allocation keeps the tiling, granted or not |
| HeapLayout.FreeWellFormed | src/exheap.c:308-364 | release keeps it, joining free neighbours |
| HeapLayout.ChoiceFits | src/exheap.c:257-265 | small requests take the highest free block that fits, large ones the lowest, and none is missed |
| HeapLayout.FailsExactly | src/exheap.c:257-297 | allocation fails exactly when no free block fits and what is granted ends less than the size asked for behind the last used block |
| HeapLayout.GenerousNeverFails | src/exheap.c:267-297 | where `sbrk` grants at least what is asked for no allocation fails |
| HeapLayout.GrowsFrom | src/exheap.c:267-292 | growing asks for the size of the block behind the last used one, whether the heap ends in a free block or not |
| HeapLayout.GrownPlace | src/exheap.c:267-300 | when the heap had to grow the new block is directly behind the last used one, or, for a small request that leaves a block over, at the upper end of all that was granted |
| HeapLayout.FailedLeaves | src/exheap.c:275-297 | a failed allocation changes no block, and keeps the total that was granted exactly if the heap ends in a free block |
| HeapLayout.FirstTexture | libs/draw/texture.c:105-112 | on an empty heap whose `sbrk` answers with 4000000 the first 128 bytes are at offset 3999872 |
| HeapLayout.AllocFreeRestores | src/exheap.c:167-226 | an allocation that did not grow, given back, restores the exact map of offsets and uses |
| HeapLayout.GrownFreeRestores | src/exheap.c:267-297 | one that grew leaves the heap with its free end widened |
| HeapLayout.AllocLive | src/exheap.c:229-300 | allocation adds one used block at least as big as asked for and moves or shrinks no other |
| HeapLayout.AllocFresh | src/exheap.c:229-300 | a new block is never placed where another allocation is |
| HeapLayout.FreeLive | src/exheap.c:308-364 | release removes one used block and moves or shrinks no other |
| ExHeapClass.ExHeap.EhAlloc | src/exheap.c:229-300 | on the two lists the code makes exactly the specified layout, keeps the free list the free blocks in address order, and keeps every used structure in place |
| ExHeapClass.ExHeap.DoAlloc | src/exheap.c:167-226 | carving whole, from the upper or from the lower end, by list operations, as specified |
| ExHeapClass.ExHeap.FindFree | src/exheap.c:257-265 | the scan of the free list finds the specified choice |
| ExHeapClass.ExHeap.Grow | src/exheap.c:267-296 | the heap grows at the end, or fails as specified |
| ExHeapClass.ExHeap.EhFree | src/exheap.c:308-364 | release joins neighbours on both lists as specified and keeps every other used structure in place |
| ExHeapClass.ExHeap.AddFree | src/exheap.c:331-361 | a new free block gets its place in both lists |
| ExHeapClass.ExHeap.PreviousFree | src/exheap.c:346-356 | the backward search ends just above the nearest free block, or at the head |
| ExHeapClass.ChosenForward | src/exheap.c:262-264 | the first free block of the list that is big enough is the lowest fit |
| ExHeapClass.ChosenBackward | src/exheap.c:258-260 | the last one is the highest fit |
| FifoThreads.RunSafe | src/fifo.c:191-284 | under every interleaving of the steps of writer, reader and bak reader, the reader's last step being one, what was read is a prefix of what was written, bak <= read <= written < bak + size, and no more than fifo_m samples lie behind |
| FifoThreads.RunConserves | src/fifo.c:22-26 | at every moment free, used and bak, as computed from the masked indices, make up the ring but one sample |
| FifoThreads.BakPublishesOk | src/fifo.c:199-207 | a stale publish of the bak reader keeps the invariant |
| FifoThreads.ReaderPublishesOk | src/fifo.c:225-241 | the reader's publish keeps it, as one step, and so do its parts |
| FifoThreads.WriterCopiesOk | src/fifo.c:274-276 | copying one sample overwrites nothing that is still to be read |
| FifoThreads.SplitSafeIff | src/fifo.c:229-238 | with the move of fifo_r and the trimming of fifo_k as two steps of their own, in every order with all others, all runs from the start are safe exactly if the bak reader never asks for more than fifo_m samples, or the ring has no room for more |
| FifoThreads.FineSafeIff | src/fifo.c:229-238 | with the trimming taken apart once more, into measuring and moving, all runs are safe exactly if no bak reader is at work, or there is no room |
| FifoThreads.FineFails | src/fifo.c:191-241 | the run from the start that goes wrong when the bak reader asks for one sample at a time |
| FifoThreads.NextOk | src/fifo.c:191-284 | what each step needs of the others, taken apart or not |
| FifoProgress.WriterBegins | src/fifo.c:248-262 | the writer takes as many samples as there are, or as there is room for |
| FifoProgress.WriterFinishes | src/fifo.c:262-284 | whatever state the others are in, a writer that has begun can go on to the end, and then all that it took has been written, and only the ring and its own index are different |
| FifoProgress.ReaderBegins | src/fifo.c:165-189 | the reader takes as many samples as it asks for, or as have been written and not read |
| FifoProgress.ReaderFinishes | src/fifo.c:212-244 | a reader that has begun can go on to the end, and then it has the next samples that were written, and behind it are those that were there, but no more than fifo_m |
| FifoProgress.TakenApart | src/fifo.c:212-244 | its last step in two or in three pieces comes to the same when nobody steps in between |
| FifoProgress.BakBegins | src/fifo.c:191-210 | the bak reader takes as many samples as it asks for, or as lie behind the reader |
| FifoProgress.BakFinishes | src/fifo.c:191-210 | and gives up as many |
| FifoClass.Fifo.WriteAny | src/fifo.c:248-284 | min(n, free) samples are appended to what was written, across the end of the ring |
| FifoClass.Fifo.Write | src/fifo.c:298-311 | stereo samples as they are |
| FifoClass.Fifo.WriteMono | src/fifo.c:287-316 | mono samples on both channels |
| FifoClass.MonoHalves | src/fifo.c:287-296 | both halves of the word that a mono sample becomes are the sample |
| FifoClass.Fifo.Read | src/fifo.c:212-244 | min(n, used) samples in the order written; at most fifo_m stay behind |
| FifoClass.Fifo.ReadBak | src/fifo.c:191-210 | contiguous samples that were already read |
| FifoClass.Fifo.ReadAny | src/fifo.c:165-189 | the two-segment copy yields the samples between two indices |
| FifoClass.Fifo.Sizes | src/fifo.c:22-26 | free + used + bak is the size less one, and bak is at most fifo_m |
| FifoClass.Fifo.CopyIn | src/fifo.c:287-306 | consecutive cells are overwritten and no others |
| FifoRing.UsedIs | src/fifo.c:22 | masked indices less than a ring apart determine the distance |
| FifoRing.FreeIs | src/fifo.c:23 | and the room |
| PathSpec.CanonicalIdempotent | src/filename.c:106-188 | a canonical path has no empty, '.' or '..' component, keeps whether it is absolute, fits, and is canonical already |
| PathSpec.CanonicalShape | src/filename.c:106-188 | it begins with '/' if the source begins with a slash of either kind, and has no other slash than one '/' between two names |
| PathSpec.CanonicalLeads | src/filename.c:106-188 | in whatever tree, it leads where its source does, where nothing is above the start |
| PathSpec.CanonicalFailsExactly | src/filename.c:106-188 | it fails exactly when there is no room or some stack on the way, rendered, does not fit |
| PathSpec.RenderBack | src/filename.c:106-188 | what is rendered has exactly the components of the stack |
| PathSpec.BackPops | src/filename.c:99-104 | going back to the last slash takes exactly the last component away |
| Filename.CopyPath | src/filename.c:106-188 | the in-place loop writes the stack machine's result and its terminator, fails exactly when it does, and writes nothing past max |
| Filename.CopyNames | src/filename.c:127-187 | its main loop |
| Filename.Append | src/filename.c:161-180 | a name and the slash before it are put, or do not fit |
| Filename.BackwardSlash | src/filename.c:99-104 | the backward search stops at the nearest slash or at the start |
| Filename.GetNameLength | src/filename.c:88-97 | the length of the name that starts here |
| Filename.SkipSlash | src/filename.c:79-86 | the first character that is no slash |
| Dma.RunSafe | src/dma.c:57-345 | under every interleaving in which no missing source or destination is missed, each chain comes back once for every time it is taken, has semaphore 0 and is unused while free, at most one transfer is under way, a queue means one is, and the assertion in dma_free never fails |
| Dma.RunGoodIff | src/dma.c:57-345 | over every run, callers naming sources and destinations or not, the assertion holds and no chain is free while a caller has it, throughout, exactly if no transfer without a source completes while its chain is held and nobody lets go of a chain without a destination before its transfer completes |
| Dma.MendedNext | src/dma.c:94-146 | as long as nothing has gone wrong each step goes as with sources and destinations |
| Dma.DrainServes | src/dma.c:94-146 | as many completions as there are chains pending serve every waiting caller |
| Dma.AllocTakes | src/dma.c:57-82 | a chain that is free is given to its caller and to nobody else |
| Dma.GiveBackFrees | src/dma.c:312-320 | a caller who has waited gives his chain back |
| Dma.ServedReturns | src/dma.c:94-320 | from every state: when all that is pending completes and all who wait go on, every chain is back, as often as it was taken, but those whose callers have not queued it, or neither wait nor have let go |
| Dma.FullAgain | src/dma.c:57-345 | from every state: when moreover all callers queue what they have and wait or let go as they like, the pool is full again |
| Dma.WaiterServed | src/dma.c:300-321 | a caller that has no semaphore to take waits for a transfer that is under way |
| Dma.EnqueueIff | src/dma.c:233-283 | whatever is queued in whatever state, every continuation by proper callers is good throughout exactly when source and destination are named |
| Dma.NoSourceFails | src/dma.c:99-101 | without a source the chain is given out again while its caller still holds it |
| Dma.NoDestinationFails | src/dma.c:335-339 | without a destination, letting go before completion fails the assertion |
| Dma.UncheckedWakesEarly | src/dma.c:335-339 | without assertions whoever lets go of a chain after completion leaves its semaphore signalled, and the next one to take it does not wait for his transfer; with them he does |
| Dma.CompleteOk | src/dma.c:94-146 | the interrupt keeps the invariant |
| Dma.LetGoOk | src/dma.c:323-345 | dma_free keeps it, before and after completion |
| Dma.AllocOk | src/dma.c:57-82 | taking a chain keeps it |
| DisplayMeaning.SubSpreads | src/display_list.c:433-459 | for every list, command and sub-list: the list that renders it looks at all its further commands, as if the sub-list did nothing, exactly if the sub-list does not end with a break or a skip |
| DisplayMeaning.BreakIff | src/display_list.c:433-459 | a list ends with a break exactly if some callback, at any depth, answers with one, and then nothing is called any more |
| DisplayMeaning.SkipIff | src/display_list.c:433-459 | a list ends with a skip exactly if the command that it executed last did, also when what was passed over was its own |
| DisplayMeaning.OneSpreads | src/display_list.c:433-459 | a sub-list of one command and then another command: the second is called if the first answers well, and not called if it answers with a break or a skip |
| DisplayMeaning.SkipSpreads | src/display_list.c:433-459 | a skip that passed over the last command of a sub-list costs the list above its next one too |
| DisplayMeaning.ItemsAre | src/display_list.c:419-452 | the calls are those of the commands that are reached and active, in order, and the code is that of the last one |
| DisplayMeaning.InlinedIff | src/display_list.c:535-556 | a sub-list that inherits everything makes the same calls as its commands in its place, whatever comes after, exactly if its last skip is not one that passed over a command of its own |
| DisplayMeaning.ItemsAppend | src/display_list.c:419-452 | what commands do behind others: nothing after a break, and a skip at the end of the first ones reaches over |
| DisplayMeaning.RenderMatched | src/display_list.c:383-457 | whatever callbacks answer, every gc_pop belongs to the gc_push with its flags, and none stays open |
| DisplayMeaning.CallFrom | src/display_list.c:387-410 | every call is some active command's, with its own data and the transformation and colour composed along the lists that lead to it |
| DisplayContexts.ComposedPoint | src/display_list.c:387-396 | a point below a list goes through the list's own matrix and then through that of the list above, or through only one of them, as the list inherits |
| DisplayContexts.ComposedColor | src/display_list.c:398-410 | each channel is that of the list above, the list's own, their sum or their product, kept between 0 and 1 |
| DisplayContexts.RenderedCall | src/display_list.c:364-457 | every call has a path to its command along which its points go through the lists' own matrices from the innermost outwards, up to one that inherits nothing, and each channel of its colour is tinted from outside inwards |
| DisplayContexts.MovedThenScaled | src/matrix.c:88-101 | a list that moves by 5, rendered by one that scales by 2, has its origin at 10 |
| DisplayMeaning.RenderSaves | src/display_list.c:383-457 | a list that has something to render and names flags saves them before anything else and puts them back after all else |
| DisplayMeaning.StoredComposes | include/display_list.h:94-98 | the signed fields of 2 bits lose "add": colours asked to be added are multiplied, all else is as asked |
| DisplayList.Render | src/display_list.c:364-460 | following offsets through the words of the heaps makes the calls, with their contexts, and returns the code, that the contents mean, sub-lists included |
| DisplayList.RenderLoop | src/display_list.c:419-452 | the loop with its inactive, break and skip cases |
| DisplayList.RunCommand | src/display_list.c:535-556 | one command, its callback or the list it renders |
| DisplayList.LaidShows | src/display_list.c:333-362 | a heap in which commands were inserted shows what they mean |
| DisplayWords.AddsYield | src/display_list.c:279-362 | over any sequence of additions, with any enlargements, every identifier yields the command and the data that were inserted under it |
| DisplayWords.AddsKeep | src/display_list.c:279-362 | so does every identifier from before |
| DisplayWords.AddsLaid | src/display_list.c:333-362 | and the list is the commands that found room, in order of insertion |
| DisplayWords.RoomsApart | src/display_list.c:300-315 | no two commands have a byte in common, and all lie in the part that is taken |
| DisplayWords.AllocatedKeeps | src/display_list.c:279-315 | taking room, also in an enlarged block, keeps every word and gives room that is nobody's |
| DisplayWords.AllocatedSize | src/display_list.c:279-315 | a heap is enlarged only when the room that is left is too small, and then doubled, or to what is needed if that is more |
| DisplayWords.AddTakes | src/display_list.c:300-362 | a command gets the first room that is free, and no more than its words rounded up to 16 bytes |
| DisplayWords.InsertedLaid | src/display_list.c:333-362 | a filled command becomes the last one, and only its header and the last link are written |
| DisplayWords.LockLost | src/display_list.c:317-323 | after a request to one list every list is stuck, nobody getting anything of it whatever he asks for, exactly if the heap had no room, could not grow, and the constructor does not give the lock back |
| DisplayWords.LockLostFirst | src/display_list.c:144-153 | a default heap and a command of 29 words that lose the lock |
| DisplayWords.RcBack | include/display_list.h:94-98 | a run context in its word is what signed bit fields keep of it |
| DisplayHeap.CommandHeap.Add | src/display_list.c:300-362 | allocation, filling in and insertion, in place, are the specified addition |
| DisplayHeap.CommandHeap.Insert | src/display_list.c:333-362 | the header is written in the room just taken, the last command linked to it; everything else in the heap stays |
| DisplayHeap.CommandHeap.Fill | src/display_list.c:579-582 | what the caller writes before it inserts stays within its room |
| DisplayHeap.CommandHeap.DlAlloc | src/display_list.c:317-323 | the lock is taken and kept, with room or without |
| DisplayHeap.CommandHeap.RealAlloc | src/display_list.c:300-315 | room is found by rounding up to 16 and enlarging, or refused |
| DisplayHeap.CommandHeap.Enlarge | src/display_list.c:279-296 | the new block, wherever it is, begins with the words of the old one |
| DisplayHeap.CommandHeap.Clear | src/display_list.c:200-202 | the list is empty again |
| DisplayRefs.RunExact | src/display_list.c:186-236 | after every run, circles of sub-lists or not, a list is in memory exactly when something refers to it, and its count is the references from outside and from commands of live lists |
| DisplayRefs.RunLeaksCircles | src/display_list.c:219-236 | what references from outside lead to is in memory; nothing else is, exactly if they lead to every circle of sub-lists |
| DisplayRefs.CircleStays | src/display_list.c:558-569 | two lists that render each other stay in memory when nobody refers to them any more |
| DisplayRefs.DerefOk | src/display_list.c:219-236 | giving up a reference keeps every count exact, through all lists it takes away |
| DisplayRefs.DerefLoses | src/display_list.c:219-236 | and leaves nothing behind that is not linked in |
| DisplayRefs.Remains | src/display_list.c:186-203 | a list that is cleared outlives the lists that go with its commands, also when these render it |
| DisplayRefs.ClearOk | src/display_list.c:186-203 | clearing a list keeps every count exact |
| DisplayRefs.AddSubOk | src/display_list.c:558-591 | so does adding a sub-list command, with room or without |
| DisplayRefs.NextLeaves | src/display_list.c:134-247 | each call changes the references from outside and the commands that it is asked to change, and no others |
| Box.DrawBox4 | libs/draw/box.c:18-88 | nothing is drawn exactly for boxes outside or too small; else the intersection with the clipping box, with the original bilinear colour at every point |
| Box.ClipFar | libs/draw/box.c:72-88 | the right and lower clips with the width and height that the others left |
| Box.LeftKeeps | libs/draw/box.c:46-57 | moving the left edge keeps the colour at every point |
| Box.TopKeeps | libs/draw/box.c:59-70 | moving the upper edge |
| Box.AtCorners | libs/draw/box.c:12-88 | the corners have their own colours |
| Box.DrawnIff | libs/draw/box.c:27-69 | a box is drawn exactly if it and the clipping box overlap in both directions and at least 0.00001 are left to the right of the left edge and below the upper one |
| Box.DrawnPoints | libs/draw/box.c:46-88 | the points between the edges of what is drawn are those of the box that are in the clipping box |

## Where the code does less than one would say

- The RAM disk finds a path without a leading slash never, so opening one for writing makes a second brother of the same
  name (`RamTheorems.OpenedUnique` gives the exact condition).
- The write of the RAM disk checks only that the handle may write. Through a directory handle whose cursor is on no node
  it makes the directory a file. That does harm exactly if it has children (`RamFailures.WriteIff`): it is then unlinked
  with them while open, and its last close leaves it behind (`RamFailures.DirWriteRun`); of the root, it hides everything
  below (`RamFailures.RootLost`). Through a directory handle whose cursor is on a node the write goes to the address of
  that node, as cursor and position are one word, and the directory stays one; the model only says that storage has been
  written over (`RamRuns.RunSafeIff`, `RamFailures.OverrunRun`).
- The comment in `src/fifo.c` that would lock the reader's index update is itself commented out. `FifoThreads.RunSafe`
  takes the update as one step. In two steps, the move of `fifo_r` and the trimming of `fifo_k`, it is safe exactly while
  the bak reader asks for at most `fifo_m` samples (`FifoThreads.SplitSafeIff`); in three, as its statements stand, only
  without a bak reader (`FifoThreads.FineSafeIff`). The last of them, which reads `fifo_k` and writes it, is one step
  throughout.
- An archive of an empty directory is written, counts 0 entries, and is refused on extraction (`DcarArchive.RoundTrip`).
- `r_add` ignores the error of `de2te` and archives what the entry is left with; a directory comes back as it was exactly
  if there was no error, but for empty files with names of 32 bytes (`DcarMeaning.ExtractedIff`, `DcarChains.De2teExact`).
- A failed growth keeps the total that `sbrk` answered when the heap ends in a free block, and drops it otherwise
  (`HeapLayout.FailedLeaves`).
- `dma_free` and the completion interrupt read "done" and "let go" off the destination and the source. A caller without a
  source has to let go before completion, one without a destination must not (`Dma.RunGoodIff`); only who names both may
  do either (`Dma.EnqueueIff`).
- `include/display_list.h` says that a break ends a list and a skip passes over the next command. A break ends the whole
  main list (`DisplayMeaning.BreakIff`), and a skip is passed on to the list above when it was the last command executed,
  even if it has been obeyed already (`DisplayMeaning.SkipIff`, `DisplayMeaning.SubSpreads`).
- `DL_INHERIT_ADD` does not fit the int field of 2 bits that it is put in, as such fields are signed with GCC, and means
  `DL_INHERIT_MUL` (`DisplayMeaning.StoredComposes`).
- A constructor of commands that gets no room does not give the lock back, unless it is that of sub-lists. There is one
  lock for all lists, and all are stuck then (`DisplayWords.LockLost`, `DisplayWords.LockLostFirst`).
- `dma_free` takes the semaphore inside an assertion. The model is of a build with assertions; in one without the next
  transfer of that chain is not waited for (`Dma.UncheckedWakesEarly`).
- Lists that render each other in a circle are never freed (`DisplayRefs.RunLeaksCircles`).

## Left out

- Input and output, zlib, the sound, video and serial hardware, the consoles, the Lua glue: a gzip stream is its bytes, a
  file system a map from paths.
- Rounding of floating point: `obsolete/fft.c`, `libs/draw/box.c`, the colours and the matrices of display lists are over
  exact reals. `src/float_fft.c` is not modelled.
- The strided real transform, the two-dimensional one and `FFTarb` (`obsolete/fft.c:180-211`, `246-264`, `284-344`,
  `484-563`); the packed reordering and passes are the strided ones with stride 1. The table is a parameter, not what
  `AssignBasis` computes.
- InverseFft.FFT2torlpacked: about cells that are not the spectrum of real samples nothing is said.
- `ifft` and `fix_window` of `src/int_fft.c`.
- FixedMethod.FixFft: for inputs beyond the stated moduli nothing is said, because the 16-bit steps may then wrap.
- FixedMethod.FixPass: nor for inputs that leave less than 4 units of room.
- FixedMethod.ButterflyFixed: nor for cells of modulus above 32763.
- FixedMethod.FixMpy16: the first factor is a halved table entry, as in all its calls.
- FixedAccuracy.FixedTransformClose: the closeness of the sine table to the exact roots is a hypothesis, since those are
  irrational.
- DcarFormat.DecodeTe: an entry without a zero byte in all its 36, beyond which the extractor would read on, has a name of
  36 bytes. The archiver makes none. The path buffers of both recursions are sequences of names, without their lengths.
- DcarReader.Extractor.DcarExtract: a table with an index that does not point forward is excluded, because the recursion
  need not end on it; the code does not check. A count of entries whose product with 36 wraps in 32 bits, for which the
  code reserves and reads too little, is taken for what it says, and there are not so many bytes.
- DcarReader.Extractor.ExtractTree: indices point forward, as above.
- DcarReader.Extractor.ExtractSubs: indices point forward, as above.
- DcarWriter.Archiver.DcarArchive: file sizes match the directory entries and are an int, also rounded up; there are less
  than 2^30 entries, more than a 32-bit memory holds. The filter and the reading errors of the source directory are not
  modelled; the listing is what the filter accepts.
- DcarWriter.Archiver.GzCopy: a file is read to its end and written without an error, so the checks of the copy never fail.
- Contents, sizes and modification flags of RAM-disk files, notification, `rename`, `ioctl`, shut-down; the buffer of 1024
  characters for names. Each call is one step. A handle for appending starts at position 0, and a write always finds the
  room that it asks for. An address is any number, so a position may equal one; on the machine addresses are negative as
  positions.
- RamRuns.RunSafe: nothing is said about what follows a write over a node, nor about what follows an unlinking that marks
  a node with children, beyond `RamFailures.CloseStrands`.
- Unsigned wrap-around in the external heap and failing block allocation. `eh_create_heap` and `eh_destroy_heap` only set
  up.
- ExHeapClass.ExHeap.EhAlloc: an `sbrk` that answers with less than the total is excluded.
- ExHeapClass.ExHeap.Grow: an `sbrk` that answers with less than the total is excluded.
- ExHeapClass.ExHeap.FindFree: the two scans, forward and backward, are one loop over either order.
- `fifo_resize`, `fifo_start` while threads are at work, and the lock calls that hand out raw segments. Masking by
  size - 1 is taken as the remainder by size, for a size that is a power of two.
- FifoThreads.RunSafe: about the contents of what the bak reader copies while others move the indices nothing is said.
- The VRAM path of the DMA, `nospudma`, thread wake-up hints and cache flushing. Running out of chains, on which the code
  panics, changes nothing in the model.
- Rendering runs on lists that unfold to a finite tree: on a circle of active lists the code does not end. Callbacks leave
  the lists and the heaps alone. The stack of 32 graphic states (`libs/draw/gc.c`), and the loop over all main lists.
- DisplayHeap.CommandHeap.Clear: dropping the references of sub-list commands is modelled in `DisplayRefs`, on values, not
  in place.
- `src/iarray.c`, `src/allocator.c`, `src/filetype.c`, `src/mu_term.c` and the other helpers: smaller, and without an
  invariant of the same weight.
