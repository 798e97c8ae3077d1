# Verification of the QR encoder, the storage layer and the concurrency primitives

A Dafny model of the parts of the server and its web frontend whose behaviour is hardest to see
from the code, and proofs about it. `dafny verify dfyconfig.toml` checks everything.

- **QR Codes** (`frontend/js/qrcodegen.js`; ISO/IEC 18004:2015, sections 7.4 to 7.8). Every stage
  of the encoder is a method with the source's loops, proved against a function: multiplication in
  GF(2^8), generator polynomial and remainder, blocks and interleaving, function patterns, zigzag
  drawing, masks, penalties, segments, terminator and padding. Beside it stands a reader that takes
  a finished grid apart. One main result is that what the reader finds is what was encoded
  (`Encoder.EncodeText`, `Encoder.MessageRoundTrip`). Since a writer and a reader could share a
  mistake, the other one says what a finished symbol looks like, module by module, in pictures,
  tables and numbers alone: the function patterns (`Pictures`), and along the only possible scan
  (`ScanOrders.ScanUnique`) the bits of the codewords under the mask (`DataModules.DataShown`). Below
  them are a field proof and the algebra of polynomials that make the error correction codewords the
  only right ones (`ReedSolomon.EccCharacterised`), the places of all codewords
  (`Interleaving.DataPlaces`), and the count of the modules that shows that the codewords have room in
  every version (`Rooms.RoomForAll`).
- **Datastore and uploads** (`src/storage/datastore`, `src/storage/transactions`). A POSIX
  directory is names to inodes, descriptors to inodes and inodes to bytes. The datastore object
  (`LocalFileSystems`) does what the functions of `Datastores` say; about all runs of those,
  snapshot isolation, independence of chunking, the return of all buffer slots and descriptors, and
  all-or-nothing uploads are proved. The upload
  transaction is an object too (`Transactions`), over the datastore object and the tree of
  directories.
- **Spinlock** (`src/datastructures/Spinlock.cpp`) and **worker pool** (`src/instance`). State
  machines with one atomic operation per step, any number of threads and any order, beside the
  classes that perform the steps.
- **Virtual filesystem** (`src/storage/vfs`). Directory objects in a tree, with the stack-based
  lookups. Each operation of the objects is one step of a relation on values. About all runs of
  those steps `VirtualTrees.TreeInvariant` says that ids and names are unique, and exactly when the
  recorded sizes are right; `VirtualLookups` says what each step changes and when it is refused.
- **Rate limiter** (`src/monitoring/EventLimiter.cpp`) and **text codecs**
  (`src/util/Strings.cpp`; Base32 as in section 6 of RFC 4648).

Code that changes things step by step is a `method` or a `class` here, and its contract equates
the result or the new state with a function; what is promised is proved of that function. A few
definitions take a dummy depth and recurse over it to no effect. They keep proofs that only pass a
value on from unfolding it; a function without the dummy stands in front of each.

## Files

| file | what |
|---|---|
| `Bits`, `Outcomes` | machine words as naturals, exceptions as values |
| `Polynomials`, `GaloisField`, `ReedSolomon`, `Interleaving` | error correction |
| `Tables`, `Grids`, `Zigzag`, `ScanOrders`, `FormatInfo`, `Patterns`, `Symbols`, `Versions`, `Rooms`, `Penalty`, `QrCodes` | the grid |
| `Pictures`, `Masks`, `DataModules`, `Scores` | what a finished symbol looks like, and what the penalty measures |
| `BitStrings`, `Segments`, `SegmentForms`, `Encoder` | from text to a symbol and back |
| `Decimals`, `FileStores`, `Datastores`, `LocalFileSystems`, `DatastoreRuns`, `SnapshotIsolation`, `Resources` | the datastore |
| `Uploads`, `Transactions` | upload transactions |
| `VirtualDirectories`, `VirtualTrees`, `VirtualLookups`, `VirtualFilesystems` | the tree of directories |
| `EventLimiters`, `Spinlocks`, `Tasks`, `Base32` | one component each |

## Model

| member | source | states |
|---|---|---|
| GaloisField.Multiply | frontend/js/qrcodegen.js:538-549 | any integers: an error exactly if the 32-bit word of one does not fit a byte, else the shift-and-xor loop computes the product modulo 0x11D |
| GaloisField.MulIsReduced | frontend/js/qrcodegen.js:538-549 | ... that is, it differs from the carry-less product of the two bytes by a multiple of 0x11D |
| GaloisField.MulLeftXor | frontend/js/qrcodegen.js:538-549 | multiplication is linear over exclusive or |
| GaloisField.GF256Laws | frontend/js/qrcodegen.js:536-549 | bytes under the two operations are a commutative ring in which x + x = 0 |
| GaloisField.PowersDistinct | frontend/js/qrcodegen.js:511-514 | the powers 2^0 to 2^254 are nonzero and pairwise different: 2 generates the field |
| GaloisField.GF256NoZeroDivisors | frontend/js/qrcodegen.js:511-514 | a product of nonzero elements is nonzero |
| ReedSolomon.ComputeDivisor | frontend/js/qrcodegen.js:502-525 | a degree outside 1 to 255 is an error; else the in-place loop computes the divisor |
| ReedSolomon.DivisorIsProduct | frontend/js/qrcodegen.js:511-513 | with its leading 1 the divisor is the product of all (x - 2^i), i below the degree |
| ReedSolomon.ComputeRemainder | frontend/js/qrcodegen.js:527-535 | the shift-register loop computes the remainder of polynomial long division |
| ReedSolomon.CodewordVanishes | frontend/js/qrcodegen.js:502-535 | data followed by its error correction codewords is zero at 2^0 to 2^(degree-1), for data of any length |
| ReedSolomon.EccCharacterised | frontend/js/qrcodegen.js:502-549 | for every degree from 1 to 255 they are the only codewords of their number for which it is |
| Interleaving.AddEccAndInterleave | frontend/js/qrcodegen.js:284-317 | every block count and length: an error if the data have the wrong length or a block no valid number of error correction codewords, else the interleaved codewords; the final assertion cannot fail |
| Interleaving.BlocksRecovered | frontend/js/qrcodegen.js:295-316 | every block's data and its error correction codewords can be read back from the output |
| Interleaving.DataRecovered | frontend/js/qrcodegen.js:284-317 | the output has the raw number of codewords, and the blocks read back and joined are the data |
| Interleaving.SlotsAreBijective | frontend/js/qrcodegen.js:306-314 | each output position holds exactly one byte of one block, padding bytes of short blocks excepted, and none is left out |
| Interleaving.DataPlaces | frontend/js/qrcodegen.js:295-316 | in numbers: codeword i of block j of the data is codeword i * numBlocks + j of the output, where the longer blocks come last |
| Interleaving.LongPlaces | frontend/js/qrcodegen.js:295-316 | ... then come the last codewords of the longer blocks |
| Interleaving.EccPlaces | frontend/js/qrcodegen.js:295-316 | ... and after all data, in the same manner, the error correction codewords of the blocks |
| Tables.RawDataBounds | frontend/js/qrcodegen.js:479-491 | the range assertion on the number of raw data modules holds for all 40 versions |
| Tables.DataModulesAsInTable | frontend/js/qrcodegen.js:479-491 | the formula gives the numbers of the standard's table for all 40 versions |
| Zigzag.PathVisitsOnce | frontend/js/qrcodegen.js:323-341 | for every symbol size the scan visits each module off column 6 exactly once and no other |
| ScanOrders.PathIsScan | frontend/js/qrcodegen.js:323-341 | the loops begin at the bottom right corner, take each module with its left neighbour, and go on one row up or down, or in the same row to the next two columns, across column 6 |
| ScanOrders.ScanUnique | frontend/js/qrcodegen.js:323-341 | only one sequence that visits all modules off column 6 once goes this way |
| Zigzag.DrawnModule | frontend/js/qrcodegen.js:333-338 | a free module takes the bit whose number is the count of free modules before it, and is left as it is after the last bit |
| Zigzag.ReadOfDraw | frontend/js/qrcodegen.js:333-338 | bits drawn on the free modules of any path without repetitions can be read again, as many as there is room for |
| Zigzag.ReadAfterChanges | frontend/js/qrcodegen.js:320-343 | ... whatever is done to all other modules afterwards |
| FormatInfo.ComputeBch | frontend/js/qrcodegen.js:214-216 | the remainder loop, for any generator and width |
| FormatInfo.FormatCodeIsMultiple | frontend/js/qrcodegen.js:211-218 | before masking, the format bits are a multiple of the generator 0x537 |
| FormatInfo.FormatRoundTrip | frontend/js/qrcodegen.js:211-218 | they fit 15 bits and determine level and mask |
| FormatInfo.FormatWordMeans | frontend/js/qrcodegen.js:211-218 | without the mask 0x5412 they are the multiple of 0x537 whose upper five digits are the level's two bits of the standard and the mask's number |
| FormatInfo.VersionWordIsMultiple | frontend/js/qrcodegen.js:239-244 | the version bits are a multiple of the generator 0x1F25 |
| FormatInfo.VersionWordFits | frontend/js/qrcodegen.js:243-244 | they fit 18 bits and determine the version |
| FormatInfo.VersionWordMeans | frontend/js/qrcodegen.js:239-244 | they are the multiple of 0x1F25 whose upper six digits are the version |
| Patterns.StepsFit | frontend/js/qrcodegen.js:467-472 | the equally spaced alignment positions never come down to the first one, and the step between them is positive |
| Patterns.PatternsCover | frontend/js/qrcodegen.js:185-233 | column 6 and all modules of the format bits are function modules, in every version |
| QrCodes.GetAlignmentPatternPositions | frontend/js/qrcodegen.js:463-475 | the loop that inserts behind the first element yields the positions, which ascend strictly |
| Pictures.PositionsAsInTable | frontend/js/qrcodegen.js:463-475 | they are those of the standard's table for all 40 versions |
| QrCodes.QrCode.DrawFunctionPatterns | frontend/js/qrcodegen.js:185-208 | it sets and marks exactly the listed modules, in the listed order; what they look like is in the next rows |
| Pictures.FinderPictures | frontend/js/qrcodegen.js:192-194 | in every finished symbol, whatever version, level, codewords and mask: the 8*8 modules of each of the three corners, row by row, are the picture of a finder pattern with its border |
| Pictures.TimingPictures | frontend/js/qrcodegen.js:187-190 | ... row 6 and column 6 between the finders alternate, even modules dark |
| Pictures.AlignmentPictures | frontend/js/qrcodegen.js:196-204 | ... around each pair of alignment positions but the three at the finders stands the 5*5 picture of an alignment pattern |
| Pictures.FormatPictures | frontend/js/qrcodegen.js:219-232 | ... the modules of both copies of the format bits, listed one by one, show them, and the module at (8, size - 8) is dark |
| Pictures.VersionPictures | frontend/js/qrcodegen.js:245-252 | ... from version 7 on, so do both copies of the version bits |
| QrCodes.QrCode.DrawCodewords | frontend/js/qrcodegen.js:320-343 | a wrong length is an error and changes nothing; else the codeword bits go on the free modules in the order of the only scan there is, and the assertion holds exactly if there is room |
| Rooms.RoomForAll | frontend/js/qrcodegen.js:479-491 | in every version the function patterns leave at least the counted number of raw data modules free: the closed formula against the list of drawn modules |
| Rooms.RoomForCodewords | frontend/js/qrcodegen.js:320-343 | so there always is room for the codewords |
| QrCodes.QrCode.ApplyMask | frontend/js/qrcodegen.js:349-386 | exactly the unmarked modules that meet the mask's condition are inverted |
| Masks.MaskPictures | frontend/js/qrcodegen.js:349-386 | the condition of each mask is its picture of six columns and six or four rows, repeated over the symbol |
| DataModules.DataShown | frontend/js/qrcodegen.js:320-386 | in every finished symbol each module that is no function module shows, along the scan, the next bit of the codewords, highest first, inverted where the mask's picture says so |
| QrCodes.QrCode.ChooseMask | frontend/js/qrcodegen.js:81-93 | the trial loop ends with the first mask of least penalty, and with all modules but the format bits as before |
| QrCodes.QrCode.Create | frontend/js/qrcodegen.js:60-99 | exactly when the constructor fails and with which error, and that no assertion does; else the grid is that of the requested mask, or of the best one if none was requested |
| Symbols.MaskTwice | frontend/js/qrcodegen.js:345-348 | a mask applied twice is undone |
| Symbols.TrialIsFinal | frontend/js/qrcodegen.js:83-97 | format bits left from an earlier trial have no effect on the finished grid |
| Symbols.FormatReadBack | frontend/js/qrcodegen.js:219-232 | both copies of the format bits can be read off the grid |
| Symbols.SymbolRoundTrip | frontend/js/qrcodegen.js:76-98 | from the finished grid alone: level, mask and all codewords, for every mask |
| Symbols.LayoutProper | frontend/js/qrcodegen.js:185-208 | the function modules of every version meet what the round trip needs |
| Symbols.FreeModulesScanned | frontend/js/qrcodegen.js:325-341 | the scan reaches every module that is no function module |
| Versions.VersionReadBack | frontend/js/qrcodegen.js:236-253 | from version 7 on, both copies of the version bits can be read off the finished grid: nothing is drawn over them |
| Penalty.RunsUnique | frontend/js/qrcodegen.js:392-413 | the run lengths of a line are the only ones that describe it |
| Penalty.PushCounts | frontend/js/qrcodegen.js:552-575 | the seven-entry history, border included, finds exactly the 1:1:3:1:1 patterns that end at a light run |
| Penalty.ScanLine | frontend/js/qrcodegen.js:392-413 | the scan of a line of any length: the sum of L - 2 over its runs of length L >= 5, and 40 for each finder-like pattern with border |
| Penalty.TerminateAndCount | frontend/js/qrcodegen.js:560-568 | the end of a line counts the patterns that the light border completes |
| Penalty.DarkRunsFit | frontend/js/qrcodegen.js:552-554 | whenever the counting helper is called in the scan of a line, the entry of the history its assertion reads is at most three times the length of the line |
| Penalty.BalanceIsLeast | frontend/js/qrcodegen.js:447-455 | for odd totals k is the least k >= 0 with the dark share in [45 - 5k, 55 + 5k] percent, and at most 9 |
| Penalty.ScoreBound | frontend/js/qrcodegen.js:456 | every penalty of a symbol is between 0 and 2568888 |
| Scores.ScoreParts | frontend/js/qrcodegen.js:389-458 | the score is that of the lines across, of the lines down, 3 for each 2*2 block of one colour and 10 for each step of the share of dark modules, blocks and dark modules counted as sets |
| Scores.MirroredScore | frontend/js/qrcodegen.js:389-436 | a grid and its mirror image at the diagonal score the same |
| Scores.ScoresAdd | frontend/js/qrcodegen.js:389-436 | the scores of the lines add up, each counted once |
| Scores.SolidLine | frontend/js/qrcodegen.js:397-407 | a line of one colour costs its length less 2 from 5 on, else nothing |
| Scores.FinderLike | frontend/js/qrcodegen.js:552-559 | runs of n, n, 3n, n, n count once for each side with a light run of at least 4n if the other has at least n |
| Scores.FinderAcross | frontend/js/qrcodegen.js:392-413 | the line 1011101 costs 80: the border counts as light on both sides |
| Penalty.GetPenaltyScore | frontend/js/qrcodegen.js:389-458 | rows, columns, blocks and balance added up; its assertions cannot fail |
| BitStrings.AppendBits | frontend/js/qrcodegen.js:606-611 | every value and length: the error exactly when the 32-bit word does not fit the length, else the bits |
| BitStrings.PackBits | frontend/js/qrcodegen.js:168-172 | the or-ing loop packs bits into bytes, highest first |
| BitStrings.BitsOfPack | frontend/js/qrcodegen.js:168-172 | packed bytes read bit by bit are the bits |
| Segments.MakeBytes | frontend/js/qrcodegen.js:658-663 | any bytes |
| Segments.MakeNumeric | frontend/js/qrcodegen.js:665-675 | the error exactly for texts with other characters than digits; else the segment the reader takes apart |
| Segments.MakeAlphanumeric | frontend/js/qrcodegen.js:679-692 | likewise for the 45 characters |
| Segments.MakeEci | frontend/js/qrcodegen.js:708-725 | likewise for numbers from 0 to 999999 |
| Segments.MakeSegments | frontend/js/qrcodegen.js:695-705 | which mode is taken for which text |
| Segments.StreamRoundTrip | frontend/js/qrcodegen.js:150-157 | any list of factory-made segments is read back from its stream, whatever follows the terminator |
| SegmentForms.CountWidths | frontend/js/qrcodegen.js:825-835 | the widths of the count fields of all modes in the three ranges of versions |
| SegmentForms.HeaderBits | frontend/js/qrcodegen.js:150-157 | a segment's bits are its four indicator bits, its count and its data |
| SegmentForms.NumericForm | frontend/js/qrcodegen.js:665-675 | three digits become ten bits, two seven, one four |
| SegmentForms.TextForm | frontend/js/qrcodegen.js:679-692 | a pair becomes 45 a + b in eleven bits, a single character six bits, each numbered by its place in the set |
| SegmentForms.CharsetExactly | frontend/js/qrcodegen.js:771-776 | the characters of the mode are exactly those of the set |
| SegmentForms.EciForms | frontend/js/qrcodegen.js:708-725 | one, two or three bytes that begin with 0, 10 or 110 and hold the number |
| SegmentForms.ModeIsShortest | frontend/js/qrcodegen.js:695-705 | the mode taken for a text is the shortest of those that can hold it, in every version |
| Encoder.FindVersion | frontend/js/qrcodegen.js:132-144 | the least version of the range that holds the segments; an error exactly if none does |
| Encoder.FitsMeans | frontend/js/qrcodegen.js:132-144 | what it means that a version holds the segments: all counts fit their fields, and the stream fits the whole bytes of the data modules less the error correction codewords |
| Encoder.BoostIsSafe | frontend/js/qrcodegen.js:145-149 | the raised level holds the data, is not below the requested one, and none of the tried levels above it fits |
| Encoder.BuildStream | frontend/js/qrcodegen.js:151-158 | the joined stream, whose length is the computed one |
| Encoder.FillCapacity | frontend/js/qrcodegen.js:159-172 | terminator, padding and packing fill the capacity exactly |
| Encoder.ClosedMeans | frontend/js/qrcodegen.js:159-164 | after the stream come four light bits, or as many as there is room for, and then just enough to end a byte |
| Encoder.PadCodewords | frontend/js/qrcodegen.js:165-167 | the codewords after the terminator are 0xEC and 0x11 in turn |
| Encoder.MessageRoundTrip | frontend/js/qrcodegen.js:128-175 | whatever version, level and mask: the reader of the finished grid finds the data of all segments |
| Encoder.EncodeSegments | frontend/js/qrcodegen.js:128-175 | with usable code tables it fails exactly on bad arguments or if no version holds the segments, and never by an assertion; else the result is the encoding in the least version, with a raised level if wanted and the requested or the best mask, and a reader of its grid finds the data of all segments the factories made |
| Encoder.EncodeText | frontend/js/qrcodegen.js:106-109 | the text, or its UTF-8 bytes, can be read from the symbol, whose level is not below the requested one; with usable code tables it is an error exactly if no version holds the text |
| Decimals.SpelledDecimal | src/util/Strings.cpp:18-24 | decimal digits read as a number give the number |
| Decimals.DecimalForm | src/util/Strings.cpp:18-24 | one digit character for each decimal place, the first of them 0 for the number 0 alone |
| Decimals.NamesDistinct | src/util/Strings.cpp:11-46 | decimal names and decimal names with the suffix T never collide, within a kind or across |
| Decimals.NumberToString | src/util/Strings.cpp:11-46 | it succeeds exactly if digits, suffix and terminator fit; then they are in the buffer and the rest is as before; nothing beyond the length is ever written |
| Decimals.NumberRoundTrip | src/util/Strings.cpp:11-51 | a written number is read again, with or without a suffix; beyond 64 bits it is an error |
| FileStores.TextsDistinct | src/storage/datastore/LocalFileSystem.cpp:192-201 | different files, and a file and a temporary file, have different names as texts |
| FileStores.TextsFit | src/storage/datastore/LocalFileSystem.cpp:192-201 | the names of all 32-bit ids fit the buffer they are formatted in |
| LocalFileSystems.LocalFileSystemDatastore.CreateFile | src/storage/datastore/LocalFileSystem.cpp:42-59 | it succeeds exactly if there is no such file, and creates an empty one; the descriptor is closed again |
| LocalFileSystems.LocalFileSystemDatastore.DeleteFile | src/storage/datastore/LocalFileSystem.cpp:61-73 | the name goes; open readers keep the bytes |
| LocalFileSystems.LocalFileSystemDatastore.InitRead | src/storage/datastore/LocalFileSystem.cpp:75-123 | all ways to fail, the first free buffer slot, and the range |
| LocalFileSystems.LocalFileSystemDatastore.ReadFile | src/storage/datastore/LocalFileSystem.cpp:125-159 | the next bytes of the range, and what the callback is told |
| LocalFileSystems.LocalFileSystemDatastore.CloseRead | src/storage/datastore/LocalFileSystem.cpp:161-188 | descriptor and slot are given back, as `Resources` proves of all runs; no callback on success |
| LocalFileSystems.LocalFileSystemDatastore.InitWrite | src/storage/datastore/LocalFileSystem.cpp:190-215 | a new, empty temporary file; the handle's flag for a finished write stays as it was |
| LocalFileSystems.LocalFileSystemDatastore.WriteFile | src/storage/datastore/LocalFileSystem.cpp:217-251 | bytes are written at the handle's position of the temporary file; refused after the last piece |
| LocalFileSystems.LocalFileSystemDatastore.CloseWrite | src/storage/datastore/LocalFileSystem.cpp:253-315 | commit and revert, and the calls of the callback in order |
| Datastores.NamesAfter | src/storage/datastore/LocalFileSystem.cpp:42-73 | creation and deletion succeed exactly if the file is not there, or is, and change no other name |
| Datastores.OpenedExactly | src/storage/datastore/LocalFileSystem.cpp:75-123 | opening for reading succeeds exactly for a range that is not empty, an existing file and a free slot; where the handle then stands |
| Datastores.ClosedExactly | src/storage/datastore/LocalFileSystem.cpp:253-315 | exactly when closing for writing reports success, and the names after it |
| Datastores.CallbacksTold | src/storage/datastore/LocalFileSystem.cpp:42-73 | which callbacks are told what: the result once; closing for reading only failure; closing for writing success first and then perhaps failure; a read gives data on a valid open handle with something left, and else reports failure and the end without data |
| Datastores.FinishedStaysFinished | src/storage/datastore/LocalFileSystem.cpp:190-232 | a handle that has had its last piece stays finished when it is opened again, and accepts nothing |
| DatastoreRuns.OnDirectorySound | src/storage/datastore/LocalFileSystem.cpp:24-31 | a datastore opened on any directory starts out in the invariant |
| DatastoreRuns.AlwaysSound | src/storage/datastore/LocalFileSystem.cpp:42-315 | the invariant of all runs from there: live readers hold what they were opened on, live writers own their temporary file, no file that is written is open for reading |
| DatastoreRuns.ReadProgress | src/storage/datastore/LocalFileSystem.cpp:125-159 | each read continues where the last one ended, and the last one is told exactly when the range is done |
| DatastoreRuns.FinishedRefuses | src/storage/datastore/DataStore.cpp:14-26 | a finished handle refuses every further read |
| DatastoreRuns.EmptyChunkEnds | src/storage/datastore/LocalFileSystem.cpp:141-157 | a chunk size of 0 ends the read without data |
| SnapshotIsolation.VisibleUnwritten | src/storage/datastore/LocalFileSystem.cpp:42-315 | no step changes the bytes of an inode that has a file's name or an open reader |
| SnapshotIsolation.SnapshotRead | src/storage/datastore/LocalFileSystem.cpp:75-159 | in every run a reader is given bytes the file had when it was opened, in order, from the requested begin, and is told at most once that this is all |
| SnapshotIsolation.ReadsFinish | src/storage/datastore/LocalFileSystem.cpp:125-159 | with any positive chunk sizes, more reads than the range has bytes give the whole range and the last one is told once |
| SnapshotIsolation.CommittedData | src/storage/datastore/LocalFileSystem.cpp:190-315 | after a commit the file holds the pieces joined in order, however they were split, and the temporary file is gone |
| SnapshotIsolation.CommittedThenRead | src/storage/datastore/LocalFileSystem.cpp:75-315 | from the first write to the last read: what is read after the commit is the range of the pieces joined |
| SnapshotIsolation.OtherFilesKept | src/storage/datastore/LocalFileSystem.cpp:42-315 | only creation, deletion and commit of a file change what its name stands for |
| SnapshotIsolation.SlotsExclusive | src/storage/datastore/LocalFileSystem.cpp:96-112 | live readers never share a buffer slot |
| Resources.SlotsAlwaysHeld | src/storage/datastore/LocalFileSystem.cpp:91-188 | in every run from a state in which it holds, a buffer slot is taken exactly if a live reader has it |
| Resources.AllSlotsReturn | src/storage/datastore/LocalFileSystem.cpp:161-188 | so no slot is taken once all readers are closed, in every run of a datastore opened on a directory |
| Resources.FdsAlwaysHeld | src/storage/datastore/LocalFileSystem.cpp:42-315 | in every run the open descriptors are those of live handles, those lost because all slots were taken, and those open before; no others, and none of the latter is ever closed |
| Resources.AllFdsReturn | src/storage/datastore/LocalFileSystem.cpp:161-315 | so none is open once all handles are closed, if nothing was opened with all slots taken |
| SnapshotIsolation.FullSlotsLeak | src/storage/datastore/LocalFileSystem.cpp:96-117 | opening an existing file leaves a descriptor open that no handle has, exactly when all slots are taken |
| SnapshotIsolation.TwoWritersBreakIsolation | src/storage/datastore/LocalFileSystem.cpp:190-315 | a run with two live write handles for one file in which a reader's file changes |
| Uploads.AllOrNothing | src/storage/transactions/WriteFileTransaction.cpp:15-75 | after the end of a transaction: entry and stored pieces and no temporary file, or none of the three; and exactly when it is neither |
| Uploads.CommitUnstarted | src/storage/transactions/WriteFileTransaction.cpp:65-69 | a commit without a start leaves an entry without a file |
| Transactions.WriteFileTransaction.Init | src/storage/StorageTransaction.cpp:14-18 | from here on the object is a transaction that has begun |
| Transactions.WriteFileTransaction.Start | src/storage/transactions/WriteFileTransaction.cpp:60-63 | the object does the action of the same name, and fails exactly if the file exists |
| Transactions.WriteFileTransaction.Write | src/storage/transactions/WriteFileTransaction.cpp:71-75 | the object does the action of sending a piece, and accepts it exactly if its handle is open and has not had its last piece |
| Transactions.WriteFileTransaction.Commit | src/storage/transactions/WriteFileTransaction.cpp:65-69 | the object does the action of the same name |
| Transactions.WriteFileTransaction.Destroy | src/storage/transactions/WriteFileTransaction.cpp:15-58 | the object does the action of the same name: unless committed, entry, temporary file and file go |
| VirtualDirectories.VirtualDirectory.FileAdd | src/storage/vfs/VirtualDirectory.cpp:43-53 | refused exactly if the name is taken; a new file is empty |
| VirtualDirectories.VirtualDirectory.FileChangeSize | src/storage/vfs/VirtualDirectory.cpp:55-79 | when the new size is accepted, with the 64-bit arithmetic of the check, and both sizes after it |
| VirtualDirectories.VirtualDirectory.FileDelete | src/storage/vfs/VirtualDirectory.cpp:105-127 | all files with the id go, the first one's size is taken off |
| VirtualDirectories.VirtualDirectory.DirAdd | src/storage/vfs/VirtualDirectory.cpp:131-143 | refused exactly if the name is taken; a new directory is empty |
| VirtualDirectories.VirtualDirectory.DirDelete | src/storage/vfs/VirtualDirectory.cpp:150-166 | the empty subdirectories with the id go |
| VirtualDirectories.SumKeptExactly | src/storage/vfs/VirtualDirectory.cpp:69-75 | after an accepted change the recorded size is the sum of the sizes exactly if that is below 2^64 |
| VirtualDirectories.AcceptsExactly | src/storage/vfs/VirtualDirectory.cpp:55-79 | while sums fit 64 bits, a new size is accepted exactly if the file is there and the size is the old one or the new sum is below the limit |
| VirtualDirectories.SumCanWrap | src/storage/vfs/VirtualDirectory.cpp:219-222 | an accepted change after which it is not |
| VirtualFilesystems.VirtualFilesystem.FindFile | src/storage/vfs/VirtualFilesystem.cpp:7-28 | the search ends; null exactly if no file of the tree has the id, else the file |
| VirtualFilesystems.VirtualFilesystem.FindDir | src/storage/vfs/VirtualFilesystem.cpp:30-55 | null exactly if no directory of the tree has the id, the root included |
| VirtualFilesystems.VirtualFilesystem.FindContainingDir | src/storage/vfs/VirtualFilesystem.cpp:57-83 | null exactly if the id is neither a file nor a subdirectory of any directory, else the one it is in |
| VirtualFilesystems.PathsStayInside | src/storage/vfs/VirtualFilesystem.cpp:7-83 | every path from the root along subdirectories stays in the set the lookups are specified with |
| VirtualFilesystems.PathTo | src/storage/vfs/VirtualFilesystem.cpp:7-83 | ... and reaches all of it |
| VirtualFilesystems.VirtualFilesystem.FileAdd | src/storage/vfs/VirtualDirectory.cpp:43-53 | the whole tree after it: the new file has a new id, the rest is as before, the invariant is kept |
| VirtualFilesystems.VirtualFilesystem.FileChangeSize | src/storage/vfs/VirtualDirectory.cpp:55-79 | the whole tree after it, and exactly when a directory's sizes add up to 2^64 or more |
| VirtualFilesystems.VirtualFilesystem.FileDelete | src/storage/vfs/VirtualDirectory.cpp:81-127 | the whole tree after it: exactly one file is gone |
| VirtualFilesystems.VirtualFilesystem.DirAdd | src/storage/vfs/VirtualDirectory.cpp:131-143 | the whole tree after it: one more directory with a new id |
| VirtualFilesystems.VirtualFilesystem.DirDelete | src/storage/vfs/VirtualDirectory.cpp:150-166 | it removes exactly one empty directory and no other id, or nothing |
| VirtualTrees.StepKeeps | src/storage/vfs/VirtualDirectory.cpp:43-166 | one step of the relation, done or refused, keeps the invariant of the tree |
| VirtualTrees.TreeInvariant | src/storage/vfs/VirtualDirectory.cpp:43-166 | in every run from any sound tree, failing operations included and with ids taken elsewhere in between: ids are unique in the tree and names in each directory at every moment, and all recorded sizes are sums at every moment exactly if no accepted change makes a directory's sizes add up to 2^64 or more |
| VirtualLookups.AfterCreation | src/storage/vfs/VirtualDirectory.cpp:43-53 | after an accepted creation the tree holds the files it held and one more: empty, with the name and a new id |
| VirtualLookups.AfterResize | src/storage/vfs/VirtualDirectory.cpp:55-79 | after an accepted change of size that one file has the new size, and nothing else is different |
| VirtualLookups.AfterDeletion | src/storage/vfs/VirtualDirectory.cpp:81-127 | after an accepted deletion the file is nowhere in the tree and all others are where they were |
| VirtualLookups.AfterDirCreation | src/storage/vfs/VirtualDirectory.cpp:131-143 | one more subdirectory with the name, the limit and a new id |
| VirtualLookups.AfterDirDeletion | src/storage/vfs/VirtualDirectory.cpp:150-166 | one subdirectory less, which had neither files nor subdirectories |
| VirtualLookups.CreationRefused | src/storage/vfs/VirtualDirectory.cpp:43-143 | a creation is refused exactly if there is no such directory or the name is taken in it |
| VirtualLookups.DeletionRefused | src/storage/vfs/VirtualDirectory.cpp:81-166 | a deletion is refused only if there is no such file, or no such empty directory |
| VirtualLookups.ResizeRefused | src/storage/vfs/VirtualDirectory.cpp:55-79 | a change of size is refused only if there is no such file or the sum would reach the limit |
| VirtualFilesystems.VirtualFilesystem.CreateFile | src/storage/StorageEndpoint.cpp:70-101 | creation by the directory's id is a step: when it succeeds, and the whole tree after it |
| VirtualFilesystems.VirtualFilesystem.ResizeFile | src/storage/vfs/VirtualDirectory.cpp:55-79 | a change of size by ids is a step |
| VirtualFilesystems.VirtualFilesystem.DeleteFile | src/storage/StorageEndpoint.cpp:103-129 | a deletion by id is a step |
| VirtualFilesystems.VirtualFilesystem.CreateDir | src/storage/StorageEndpoint.cpp:177-208 | so is the creation of a directory |
| VirtualFilesystems.VirtualFilesystem.DeleteDir | src/storage/StorageEndpoint.cpp:210-236 | ... and its deletion |
| VirtualFilesystems.VirtualFilesystem.Apply | src/storage/StorageEndpoint.cpp:70-236 | any operation of the objects is a step: its answer and the tree after it are those of the relation |
| VirtualFilesystems.VirtualFilesystem.Execute | src/storage/vfs/VirtualDirectory.cpp:43-166 | any sequence of operations of the objects is a run of steps, from the tree before it to the tree after it |
| VirtualFilesystems.VirtualFilesystem.SizesExact | src/storage/vfs/VirtualDirectory.cpp:74 | what the invariant says of sizes: the sum, and 0 or below the limit, unless the sizes added up to 2^64 at some time |
| VirtualFilesystems.VirtualFilesystem.IdsAndNamesUnique | src/storage/vfs/VirtualDirectory.cpp:99-148 | ... and of ids and names: ids unique in the whole tree, names in each directory |
| EventLimiters.StaysValid | src/monitoring/EventLimiter.cpp:38-59 | tokens never fall below -120 less the counted refusals, nor rise above 50 |
| EventLimiters.WindowBound | src/monitoring/EventLimiter.cpp:38-59 | any window of T seconds has at most 50 + 2T allowed requests of a range, whatever penalties fall into it |
| EventLimiters.BurstAllowed | src/monitoring/EventLimiter.cpp:42-59 | a range with t tokens has its next t requests allowed, however close together |
| EventLimiters.FirstFiftyAllowed | src/monitoring/EventLimiter.cpp:38-59 | the first 50 requests of a new range are allowed, whatever the times |
| EventLimiters.ExactBalance | src/monitoring/EventLimiter.cpp:42-48 | while the balance is not full and no penalty is drawn it is what was there, plus 2 for each whole second, less 1 for each request |
| EventLimiters.PenaltyExactly | src/monitoring/EventLimiter.cpp:48-58 | a refusal is counted, and draws the penalty of -120 exactly if 15 were counted before |
| EventLimiters.PenaltyHolds | src/monitoring/EventLimiter.cpp:48-58 | nothing is allowed before 61 seconds after a penalty are over |
| EventLimiters.PenaltyEnds | src/monitoring/EventLimiter.cpp:42-58 | the next request is allowed exactly when 61 whole seconds have passed |
| EventLimiters.RefusalsAddUp | src/monitoring/EventLimiter.cpp:50-54 | the count of refusals is never cleared by allowed requests |
| EventLimiters.SlowRequestsPass | src/monitoring/EventLimiter.cpp:42-46 | a range that sends at most one request a second is never refused |
| EventLimiters.FastRequestsStarve | src/monitoring/EventLimiter.cpp:42-45 | a range whose requests are always less than a second apart gets 50 and no more |
| EventLimiters.SameRange | src/monitoring/EventLimiter.cpp:34-36 | which addresses share an entry, on a little-endian machine |
| EventLimiters.SubnetIsSplit | src/monitoring/EventLimiter.cpp:36 | two addresses of one /24 network that do not |
| EventLimiters.RangesIndependent | src/monitoring/EventLimiter.cpp:38-46 | an entry is what the requests of its own range make of a fresh one, whatever others come in between |
| EventLimiters.EventLimiter.AllowRequest | src/monitoring/EventLimiter.cpp:32-60 | the answer and the whole map after a request |
| Spinlocks.CountsAlways | src/datastructures/Spinlock.cpp:24-83 | in every run the counters are the numbers of readers counted in and of writers announced, and the inner locks have at most one holder |
| Spinlocks.OneWriter | src/datastructures/Spinlock.cpp:65-83 | at most one writer holds the lock |
| Spinlocks.ReadersShare | src/datastructures/Spinlock.cpp:48-63 | there is a run to a state in which all the threads one likes hold it for reading at once |
| Spinlocks.OverlapOnlyByRace | src/datastructures/Spinlock.cpp:48-77 | a reader and a writer hold it together only if the reader's test came before the writer's announcement and its count after the writer's check |
| Spinlocks.AnnouncedBlocksTests | src/datastructures/Spinlock.cpp:50 | while a writer is announced no reader's test passes |
| Spinlocks.RaceHappens | src/datastructures/Spinlock.cpp:48-77 | a run in which that happens, for any two threads |
| Spinlocks.ExclusionExactlyAlone | src/datastructures/Spinlock.cpp:48-83 | readers and writers exclude each other in all runs exactly if there are fewer than two threads |
| Spinlocks.NoDeadlock | src/datastructures/Spinlock.cpp:24-83 | whenever a thread is in the middle of an operation, one that is can move |
| Spinlocks.CooperativeSpinlock.Step | src/datastructures/Spinlock.cpp:48-83 | one atomic operation of the class is one step of the state machine |
| Spinlocks.CooperativeSpinlock.Execute | src/datastructures/Spinlock.cpp:48-83 | any schedule of the class is a run of it |
| Tasks.AtMostOnce | src/instance/TaskManager.cpp:83-131 | in every interleaving a one-time task starts at most once, and is marked done only after it has run to its end |
| Tasks.WaitingTaskRuns | src/instance/TaskManager.cpp:107-131 | after any run, a worker left alone takes the first free one-time task, runs it once and marks it done, in six steps |
| Tasks.PeriodicWhenDue | src/instance/TaskManager.cpp:107-123 | a periodic task that is first free starts exactly if it is due |
| Tasks.LimitKeptExactlyFromTwo | src/instance/Task.h:47-62 | the limit of a periodic task is kept in all runs exactly if it is at least 2 |
| Tasks.PeriodicRunsOnce | src/instance/TaskManager.cpp:87-95 | ... since such a task is handed out once |
| Tasks.FirstTaskStarvesOthers | src/instance/TaskManager.cpp:83-98 | once the first task is done, no other task that waits by then is ever touched again |
| Tasks.TaskManager.GetTask | src/instance/TaskManager.cpp:83-98 | the first task that is free or done is handed out and marked |
| Tasks.TaskManager.Execute | src/instance/TaskManager.cpp:69-132 | any interleaving of the workers of the class is a run of the state machine |
| Base32.QuintetsSpell | src/util/Strings.cpp:106-125 | the eight values are the forty bits of the five bytes |
| Base32.OctetsSpell | src/util/Strings.cpp:170-181 | ... and the other way round |
| Base32.EncodedMeans | src/util/Strings.cpp:92-137 | each eight characters, numbered by the alphabet of the standard, spell the forty bits of the five bytes in their place |
| Base32.UnknownReadAsA | src/util/Strings.cpp:139-166 | decoding reads characters outside the alphabet as A |
| Base32.DecodeEncoded | src/util/Strings.cpp:92-189 | decoding after encoding gives the longest prefix whose length is a multiple of 5 |
| Base32.EncodeDecoded | src/util/Strings.cpp:92-189 | encoding after decoding gives back every text of alphabet characters whose length is a multiple of 8 |
| Base32.EncodeDecodedOnly | src/util/Strings.cpp:141-153 | ... and no other text |
| Base32.Base32Encode | src/util/Strings.cpp:92-137 | the whole output buffer, also if it is too short: then the last byte is the terminator |
| Base32.Base32Decode | src/util/Strings.cpp:139-189 | the whole output buffer, also if it is the input buffer |

## Findings

Promises that the code does not keep, each with an input and, unless said otherwise, the exact
condition under which it does, and some behaviour a caller may not expect.

- An upload can end with an entry and no file. `commit` marks the transaction as committed even if
  `closeWrite` refuses its handle. `Uploads.CommitUnstarted` is such a run; by
  `Uploads.AllOrNothing` all-or-nothing holds exactly for transactions that were not committed, or
  were committed after a start. The upload endpoint only commits after a successful start.
- The destructor of an upload transaction uses the filesystem and the datastore without a test. If
  `init` was never called, as when `fileWrite` refuses the user, they are null. Here having been
  initialised is the precondition of `Transactions.WriteFileTransaction.Destroy`.
- Readers and writers of the cooperative spinlock can hold it together
  (`Spinlocks.RaceHappens`): the test of the writers' count and the count of the reader are
  separate steps. `Spinlocks.OverlapOnlyByRace` says exactly how it comes about.
- The size check of a directory is 64-bit arithmetic and can wrap around, which admits a file of
  any size (`VirtualDirectories.SumCanWrap`); the recorded size is right exactly while the sum is
  below 2^64 (`SumKeptExactly`). `subDirFileSize` is never changed, so limits do not
  count subdirectories.
- The mask 0xFFFFFF00 is meant to clear the last byte of an address, and on a little-endian machine
  clears the first one: one /24 network is split up, and 256 unrelated ones share an entry
  (`EventLimiters.SubnetIsSplit`, `EventLimiters.SameRange`).
- The limiter drops fractions of a second at every request, so a range that sends steadily more
  than one request a second earns nothing (`EventLimiters.FastRequestsStarve`), while one that sends
  at most one a second is never refused (`EventLimiters.SlowRequestsPass`). These are two one-way
  bounds: for ranges with gaps on both sides of a second neither applies. Allowed requests do not
  clear the count of refusals (`EventLimiters.RefusalsAddUp`).
- A periodic task with a limit of at most 1 can start more often, and one with a higher limit starts
  once (`Tasks.LimitKeptExactlyFromTwo`, `Tasks.PeriodicRunsOnce`). `taskAdd` only makes one-time
  tasks and `implTaskAdd` is private, so no caller can add a periodic task today.
- A finished first task is handed out for ever, and all others wait
  (`Tasks.FirstTaskStarvesOthers`).
- With all 25 buffer slots taken, `initRead` leaves a descriptor open that nobody can close
  (`SnapshotIsolation.FullSlotsLeak`).
- Two write handles for one file share its temporary file; after the commit of one, the other
  writes to the file itself (`SnapshotIsolation.TwoWritersBreakIsolation`).
- A read with chunk size 0 ends the read (`DatastoreRuns.EmptyChunkEnds`). A read to the end of a
  file that begins at or behind that end is refused from the start.
- `closeWrite` tells its callback of success before it has done anything, and of failure too if the
  handle is not valid. `initWrite` does not reset the flag of a finished handle, which then accepts
  no data; `SnapshotIsolation.CommittedData` asks for a handle that is not finished.

## Left out

- The contents of the two code tables: they are a parameter, and everything is proved for any
  tables with at least one block in each row. What is said to hold with usable tables
  (`Tables.CodeTables.Usable`) needs 1 to 255 error correction codewords in each block.
- Rooms.RoomForAll: says that the free modules are no fewer than the counted ones, which is what the
  assertion needs, not that they are no more.
- `QrSegment.toUtf8ByteArray`: it rests on the browser's `encodeURI`; the bytes are a parameter of
  `Encoder.EncodeText`. The kanji mode has no factory in the source, so no payload either.
- `QrCode.encodeBinary`, `getModule` and the accessors would add easy members only.
- Transactions.WriteFileTransaction.Write: does not say that the callback is given the result; nor
  do the other methods of the class say which callbacks run and what responses are sent, because the
  HTTP layer is not part of this model.
- `ReadFileTransaction`: its loop is a sequence of the reads `SnapshotIsolation` is about, with
  HTTP back pressure in between.
- Uploads.AllOrNothing: entries are a map from file to directory there; `Transactions` ties them to
  the tree of directories. It says nothing of files that somebody else deletes or creates meanwhile.
- Crashes between unlink and rename, short reads and writes, and system calls that fail for other
  reasons than a missing or existing name. Numbers of inodes and descriptors are never used twice.
- DatastoreRuns.AlwaysSound: the rules of its runs are at most one live write handle per file,
  ids other than 0, positive chunk sizes, offsets below 2^63, and that a handle is closed before it
  is opened again. Without the first it fails, see `SnapshotIsolation.TwoWritersBreakIsolation`.
- Paths and the creation of directories (`DataStore::CreateDirs`), and the contents of the buffers.
- VirtualFilesystems.VirtualFilesystem.Execute: ids are taken to stay below 2^32, where the source's
  counter would wrap around.
- `fileDeleteAll`, the `rename` methods, `dirCanHoldSize`, timestamps, access counters, the check
  of names and permissions of the virtual filesystem. The stack of the lookups is a field in the
  source, to reuse its storage, and a local variable here.
- Spinlocks.OneWriter: atomic operations take effect in one order; weaker memory orders, the
  fairness of the waiting loops and the moving of locks are not modelled.
- `taskRemove`, adding and removing threads, the movement of the task vector, statistics, and
  progress of workers: tasks are known by their position, and only safety is proved.
- EventLimiters.EventLimiter.AllowRequest: the limiter's clock never goes back, and tokens are
  unbounded integers; an entry that is idle for 2^30 seconds would overflow its 32-bit ones.
- Base32.Base32Encode: leaves out two calls that the source accepts. With an output length of 0 and
  something to write, it stores the terminator at index -1. With the input buffer as output, it
  writes eight bytes for each five read, so the groups from the second on hold bytes that it has
  written itself; decoding, which shrinks, may work in place. Characters are bytes.
- HTTP, JSON, cookies, logging, cryptography, users, sessions and permissions.
