# Switch Drive: a verified model

Switch Drive brings files from Google Drive or a home server to a console, keeps downloads resumable over crashes,
rebuilds compressed packages, and installs them. This project models the parts in which one mistake loses or corrupts
data, and proves what they promise. `dafny verify dfyconfig.toml` checks everything.

- **Durable, resumable download.** `WriterProtocol` is the protocol between the thread that receives bytes and the
  worker that writes them: every region under the mutex is one action, `writeAt` and `flush` are actions of their own,
  sleeping on a condition is a state that only a signal leaves, and a run is any interleaving. `DownloadWriters` is the
  class with the ring buffer and the offsets, whose methods are proved to be those actions; it writes to
  `LocalFiles`, a segmented (or regular) file proved to be one flat byte sequence. `RangeResponses` says which answers
  may be written, and `ResumeProtocol` puts attempts, failed saves, broken connections, crashes and restarts on top;
  `TaskReconciling` is the method that brings record and file together.
- **NCZ reconstruction.** `NczParser` validates and normalises sections and block tables in 64 bits, `NczOutputs`
  re-encrypts by absolute offset however the decoder cuts its output, `NczStreams` streams, and `NczBuilders` lays out
  an NCZ file and proves that streaming it gives the NCA back.
- **QR encoder.** `Gf256` and `ReedSolomon` hold the algebra, `QrData` the codewords, `QrPlacement` the zig-zag,
  `QrArea` and `QrPatterns` what is reserved and what is free, `QrSymbol` the whole encoder.
- **Persistence and installing.** `JsonText`, `JsonFields`, `JsonRows` and `StateFiles` are the hand-written printer
  and the searching parser, `BackupFiles` the write-backup-rename replacement, `Installer` the journaled installation.
- **Catalog.** `LibraryWalk`, `CatalogIndex`, `CatalogScan`, `CatalogMoves` and `CatalogIndexers` model the scan that
  keeps ids while files move.
- **Archives and operations.** `Pfs0Archives` is the package container, `OperationGates` the gate that lets one
  operation run at a time.

Some promises do not hold of the code. Each of these has an input or a run that shows it, and the exact condition:

- A synchronous write after one that failed is accepted, and may land behind bytes that got out
  (`WriterProtocol.RetryGoesAstray`); it is right exactly if the stream has not drifted
  (`WriterProtocol.WritesRightIff`). A download attempt stops at the first failed write, so it never does this.
- Bytes written after `finish` are accepted, and a checkpoint after them succeeds, but they are not durable
  (`WriterProtocol.WriteAfterFinishIsNotDurable`); `CheckpointIsDurable` and `FinishIsDurable` say exactly when they are.
- A call that is filling the ring waits forever exactly if the worker has left (`WriterProtocol.CallCanContinue`).
- Restarting a download removes the file before it saves the record, so for a moment the saved count promises bytes
  that are gone (`ResumeProtocol.RestartHappens`); `SavedCountIsDurable` says exactly when the count is durable.
- Loading a saved state gives it back exactly if it survives normalising (`StateFiles.RoundTrip`).
- Recovery clears the journal even when placeholders could not be deleted, which leaks them
  (`Installer.LeakHappens`); `RecoveredIsRight` says exactly when none is left.
- A cleared journal comes back if the machine stops between the two removals (`BackupFiles.ClearedComesBack`);
  `NothingIsRead` says exactly when it does not.

## Model

| member | source | states |
|---|---|---|
| WriterProtocol.EveryInterleaving | switch/source/network.cpp:284-340 | in every interleaving, whichever writes and flushes fail, accepted = written + in flight + queued, durable <= written <= accepted, the durable bytes are the original prefix and the accepted stream; the file up to the written offset is too, unless a synchronous write after a failed one went astray |
| WriterProtocol.ReachableIffRun | switch/source/network.cpp:284-466 | the reachable states are exactly the ends of finite runs from a fresh writer |
| WriterProtocol.StepKeeps | switch/source/network.cpp:284-466 | every action of worker and producer keeps the invariant on bytes, generations, flags and sleepers |
| WriterProtocol.CheckpointIsDurable | switch/source/network.cpp:422-442 | a successful checkpoint returns everything accepted exactly if no bytes came after the end, and then the stable file holds all of them |
| WriterProtocol.FinishIsDurable | switch/source/network.cpp:444-466 | the same for finish, which succeeds exactly if nothing failed, and which returns only after the worker's last region |
| WriterProtocol.WriteAfterFinishIsNotDurable | switch/source/network.cpp:391-442 | a run in which a byte written after finish is accepted, a checkpoint succeeds, and the byte is not durable |
| WriterProtocol.WritesRightIff | switch/source/network.cpp:381-390 | a synchronous write leaves the file right for all data exactly if no earlier failed write has moved the stream |
| WriterProtocol.RetryGoesAstray | switch/source/network.cpp:381-390 | a run of two synchronous writes, the first short, in which the retry is accepted and the file is wrong |
| WriterProtocol.NeverBothBlocked | switch/source/network.cpp:284-340 | while the writer is unfinished producer and worker are never both blocked |
| WriterProtocol.CallCanContinue | switch/source/network.cpp:378-466 | a call in progress always has an internal action to take, except a write that waits for room after the worker has left |
| WriterProtocol.InternalRunsEnd | switch/source/network.cpp:284-466 | internal actions alone stop after at most a computable number, and then the call has returned (same exception) |
| DownloadWriters.RingTake | switch/source/network.cpp:291-294 | taking a piece at the head gives the front of what the ring holds and leaves the rest, across the wrap |
| DownloadWriters.RingPush | switch/source/network.cpp:408-411 | copying a piece to the tail appends it to what the ring holds, across the wrap |
| DownloadWriters.DownloadWriter.constructor | switch/source/network.cpp:258-262 | a new writer is an initial state of the protocol, with at least one byte of capacity |
| DownloadWriters.DownloadWriter.WorkerLook | switch/source/network.cpp:287-297 | the worker's first region is the protocol's action Look |
| DownloadWriters.DownloadWriter.WorkerWriteAt | switch/source/network.cpp:295-301 | writing the dequeued piece at the written offset is the action WriteAt, whatever part of it gets out |
| DownloadWriters.DownloadWriter.WorkerReportWrite | switch/source/network.cpp:303-311 | the region after a write is the action ReportWrite |
| DownloadWriters.DownloadWriter.WorkerReportFlush | switch/source/network.cpp:322-332 | the region after a flush is the action ReportFlush |
| DownloadWriters.DownloadWriter.WorkerLeave | switch/source/network.cpp:335-339 | the worker's last region is the action Leave |
| DownloadWriters.DownloadWriter.Send | switch/source/network.cpp:394-417 | one turn of the loop in write is the action Send: it waits, fails, or moves what fits into the ring |
| DownloadWriters.DownloadWriter.SyncWrite | switch/source/network.cpp:381-390 | a synchronous write is the action SyncWrite, tried whatever failed before, landing where the stream stands |
| DownloadWriters.DownloadWriter.RequestFlush | switch/source/network.cpp:432-436 | the first region of checkpoint is the action CallCheckpoint: a new flush generation, or an answer at once |
| DownloadWriters.DownloadWriter.CheckFlush | switch/source/network.cpp:437-441 | each wake-up of checkpoint is the action Check, and what it returns is the protocol's outcome |
| DownloadWriters.DownloadWriter.SyncCheckpoint | switch/source/network.cpp:425-431 | checkpoint without a thread is the action SyncCheckpoint and returns the durable offset |
| DownloadWriters.DownloadWriter.RequestClose | switch/source/network.cpp:456-458 | the first region of finish is the action CallFinish |
| DownloadWriters.DownloadWriter.CheckEnd | switch/source/network.cpp:459-465 | each wake-up of finish is the action End |
| DownloadWriters.DownloadWriter.SyncFinish | switch/source/network.cpp:447-455 | finish without a thread is the action SyncFinish and returns the durable offset |
| LocalFiles.LocalFile.ReadAt | switch/source/core.cpp:437-471 | a read succeeds exactly inside the flat file (or for nothing) and returns its bytes, across segment borders |
| LocalFiles.LocalFile.WriteAt | switch/source/core.cpp:473-517 | the flat file becomes itself with the bytes that got out spliced in where the stream stands, which is the offset while the cached position is right |
| LocalFiles.LocalFile.WriteParts | switch/source/core.cpp:478-506 | the segment loop keeps all segments but the last full and none empty, and splices into the flat file |
| LocalFiles.LocalFile.Size | switch/source/core.cpp:519-554 | the size is that of the flat file, the sum of the segments |
| LocalFiles.LocalFile.Truncate | switch/source/core.cpp:556-590 | the flat file becomes its prefix |
| LocalFiles.RepresentsOne | switch/source/core.cpp:353-357 | the segments determine the flat file |
| LocalFiles.RetryAfterShortWrite | switch/source/core.cpp:507-516 | retrying after a short write on a regular file puts the data behind the part that got out; right exactly if nothing got out |
| Decimal.ReadBack | switch/source/download.cpp:19-26 | printing a 64-bit number and reading it gives the number and what follows it |
| RangeResponses.HonestPartial | switch/source/download.cpp:96-108 | an honest partial response is accepted exactly if it starts at the resume offset and counts the expected size |
| RangeResponses.AcceptedMeans | switch/source/download.cpp:96-108 | only 200 is accepted for a download from the start, and only 206 below the expected size for a resumed one |
| ResumeProtocol.NothingWrongSurvives | switch/source/app_controller.cpp:61-98 | after any run and whatever a crash leaves, the next program cuts the file to exactly the bytes it counts, a prefix of the remote file |
| ResumeProtocol.CompletedIsExact | switch/source/app_controller.cpp:850-882 | a record marked completed stands for exactly the remote file |
| ResumeProtocol.ReportedIsComplete | switch/source/network.cpp:577-622 | a transfer reported complete has put exactly the remote file on disk, durably |
| ResumeProtocol.SavedCountIsDurable | switch/source/app_controller.cpp:842-847 | in every run the saved count is durable exactly if it is 0 or the file is there and not empty |
| ResumeProtocol.RestartPromisesTooMuch | switch/source/app_controller.cpp:781-788 | between removing the file and saving the record, the saved count of a restarted download has no file |
| ResumeProtocol.RestartHappens | switch/source/app_controller.cpp:781-788 | a whole run that gets there: one byte of two made durable, saved, the connection broken, restarted |
| ResumeProtocol.ReconcileIsExact | switch/source/app_controller.cpp:61-81 | reconciling leaves exactly the committed prefix and spoils neither the record in memory nor the saved one |
| ResumeProtocol.CutNeedsNoFlush | switch/source/app_controller.cpp:74-75 | cutting makes nothing durable that was not, so a cut whose flush fails is a reconcile followed by giving up |
| ResumeProtocol.HonestBodyContinues | switch/source/network.cpp:122-141 | the body of an accepted honest response continues the file at the resume offset |
| ResumeProtocol.StepKeeps | switch/source/app_controller.cpp:779-882 | every step of an attempt, a crash, a restart, and failing saves keep the invariant |
| TaskReconciling.TaskRecord.Reconcile | switch/source/app_controller.cpp:61-81 | when reconcileTask succeeds, and that record and file then meet at the shorter of the two |
| TaskReconciling.ReconciledIsPrefix | switch/source/app_controller.cpp:74-78 | a durable prefix stays one: the record counts exactly the file, and the file is that prefix of the remote one |
| NczParser.ParseNcz | switch/source/nsz.cpp:55-145 | parsing accepts exactly the acceptable entries and returns the layout they describe, with no 64-bit expression wrapping |
| NczParser.Normalise | switch/source/nsz.cpp:83-100 | sections are accepted exactly if they fit, and become clipped, gapless sections behind the header |
| NczParser.ReadSizes | switch/source/nsz.cpp:125-135 | block sizes are accepted exactly if each fits its output, and their sum is exact |
| NczParser.AcceptedLayout | switch/source/nsz.cpp:55-145 | accepted sections are not empty and tile the output behind the header exactly; the blocks are as many as the output needs and tile the rest of the entry |
| NczParser.OneSection | switch/source/nsz.cpp:83-100 | every output position lies in exactly one accepted section |
| NczOutputs.CounterStaysLow | switch/source/nsz.cpp:154-157 | counting up the 128-bit counter block never carries into its upper half |
| NczOutputs.CryptCtr | switch/source/nsz.cpp:147-171 | encrypting a piece in place changes each byte by the keystream of its absolute position and nothing else |
| NczOutputs.NczOutput.Write | switch/source/nsz.cpp:177-190 | whatever piece the decoder hands over, the sink gets it re-encrypted section by section at consecutive offsets; it fails only behind the end or when the sink does |
| NczOutputs.RecrypterOfSection | switch/source/nsz.cpp:177-190 | every position is re-encrypted with the key and counter of its own section |
| NczStreams.Decompress | switch/source/nsz.cpp:201-243 | however the decoder cuts its output, success means the input is one frame of the expected size and the sink has all of it |
| NczStreams.InspectNcz | switch/source/nsz.cpp:245-250 | the reported size is that of the accepted layout |
| NczStreams.StreamNcz | switch/source/nsz.cpp:252-281 | success means the sink got exactly the rebuilt NCA of the reported size; failure on a decodable entry means the sink refused |
| NczBuilders.SolidRoundTrip | tests/core_tests.cpp:37-59 | a solid NCZ laid out from an NCA is acceptable and decodable, and the bytes the specification rebuilds are the NCA |
| NczBuilders.BlocksRoundTrip | tests/core_tests.cpp:60-82 | the same for blocks, raw ones mixed in: what the specification rebuilds from the layout is the NCA |
| NczBuilders.StreamSolid | switch/source/nsz.cpp:252-281 | streaming a solid NCZ delivers the NCA to the sink, or the sink refused |
| NczBuilders.StreamPacked | switch/source/nsz.cpp:252-281 | streaming a block NCZ, raw blocks mixed in, delivers the NCA to the sink, or the sink refused |
| Gf256.Multiply | switch/source/qr.cpp:46-56 | the shift-and-add loop computes the product of the field |
| Gf256.MulIsRemainder | switch/source/qr.cpp:46-56 | that product is the polynomial product reduced by 0x11d |
| Gf256.Commutes | switch/source/qr.cpp:46-56 | it does not depend on the order of its factors |
| Gf256.Associates | switch/source/qr.cpp:46-56 | it is associative |
| Gf256.Distributes | switch/source/qr.cpp:46-56 | it distributes over exclusive or |
| ReedSolomon.GeneratorVanishes | switch/source/qr.cpp:64-76 | the generator of a degree vanishes at the first powers of 2 |
| ReedSolomon.MakeGenerator | switch/source/qr.cpp:64-76 | the nested loops compute the generator |
| ReedSolomon.CorrectBlock | switch/source/qr.cpp:78-88 | the encoder's own correction bytes make the block a multiple of the generator that vanishes at 2^0 .. 2^(degree-1) |
| ReedSolomon.GfCorrectionUnique | switch/source/qr.cpp:78-88 | no other correction bytes do |
| QrData.PickVersion | switch/source/qr.cpp:236-240 | the version picked is the smallest that fits, and one fits exactly for at most 213 bytes |
| QrData.DataCodewords | switch/source/qr.cpp:111-124 | the packed bits are mode, length, content, terminator and padding, and fill the capacity |
| QrData.InterleavingPermutes | switch/source/qr.cpp:134-139 | interleaving permutes the bytes of the blocks |
| QrData.ColumnsAt | switch/source/qr.cpp:134-139 | every byte of every block stands at its computed place |
| QrData.PlacesApart | switch/source/qr.cpp:134-139 | different bytes stand at different places |
| QrData.MakeData | switch/source/qr.cpp:110-140 | the stream has exactly the codewords of its version, and reading it gives the content back |
| QrPlacement.ModuleAtIndex | switch/source/qr.cpp:197-211 | every module outside the timing column comes up at its number |
| QrPlacement.IndexAtNumber | switch/source/qr.cpp:197-211 | and only there |
| QrPlacement.PlaceAll | switch/source/qr.cpp:197-211 | the loop writes the bits, masked, into the free modules in that order and touches nothing else |
| QrPlacement.SymbolReadBack | switch/source/qr.cpp:197-211 | un-masking and reading in the same order returns every sequence of codewords that fits |
| QrPatterns.FreeIsOpen | switch/source/qr.cpp:157-196 | the patterns leave free exactly the modules that are not reserved |
| QrPatterns.BlankHasRoom | switch/source/qr.cpp:175-196 | the free modules of every version hold all its codewords |
| QrSymbol.Patterns | switch/source/qr.cpp:157-196 | the drawing loops produce exactly the described symbol: every finder, alignment, timing, format and version module |
| QrSymbol.Build | switch/source/qr.cpp:175-213 | the built symbol is the patterns with the codewords placed and masked |
| QrSymbol.BuiltIsOne | switch/source/qr.cpp:175-213 | version, codewords and mask determine it |
| QrSymbol.BuiltKeepsPatterns | switch/source/qr.cpp:175-213 | no module is left unset and no pattern is overwritten |
| QrSymbol.BuiltReadBack | switch/source/qr.cpp:175-213 | reading the finished symbol gives what its codewords say |
| QrSymbol.PickMask | switch/source/qr.cpp:242-247 | the mask picked is the first with the least penalty |
| QrSymbol.BestMaskIsOne | switch/source/qr.cpp:242-247 | there is only one such mask |
| QrSymbol.Encode | switch/source/qr.cpp:236-254 | exactly the contents of at most 213 bytes are encoded: smallest version, best mask, and reading the symbol gives the content back |
| JsonText.EscapeReadBack | switch/source/core.cpp:93-101 | reading an escaped string up to its closing quote gives the string |
| JsonText.EscapeGuards | switch/source/core.cpp:93-101 | every quote inside an escaped string stands behind a backslash |
| JsonFields.ReadsQuoted | switch/source/core.cpp:118-138 | searching a printed text for a marker ends at a real key and reads its value |
| JsonRows.RowsLoop | switch/source/core.cpp:157-189 | the scanning loops cut out the records the specification describes |
| JsonRows.ObjectRowsOf | switch/source/core.cpp:157-189 | reading a list of a printed file gives exactly its records, whatever braces and brackets the strings hold |
| StateFiles.LoadSaved | switch/source/core.cpp:637-808 | loading a saved state gives its normal form, for arbitrary strings and 64-bit numbers |
| StateFiles.RoundTrip | switch/source/core.cpp:637-808 | loading gives the same state back exactly if all ids and the active provider are not empty, the language is supported, and there is a Google provider whose folder is settled |
| BackupFiles.SaveIsAtomic | switch/source/core.cpp:103-116 | a reader gets the old value up to the last operation of a save and the new one from then on |
| BackupFiles.ReadsLastCompleted | switch/source/core.cpp:637-643 | in every history of interrupted saves the reader gets the last completed value, never nothing once there is one |
| BackupFiles.NothingIsRead | switch/source/core.cpp:876-886 | after part of clearing, nothing is read exactly if each file was missing or has been removed |
| BackupFiles.ClearedComesBack | switch/source/core.cpp:876-886 | stopping between the two removals leaves the backup to be read |
| BackupFiles.Store.Replace | switch/source/core.cpp:103-116 | the replacement performs those operations, and reports success exactly if the new value is read |
| Installer.StepKeeps | switch/source/installer.cpp:470-577 | every step of installing, rolling back, recovering and crashing keeps the invariant |
| Installer.CommittedIsComplete | switch/source/installer.cpp:470-540 | committed metadata means every listed content is registered; every live placeholder is foreign, named in the journal on disk, or given up by a recovery |
| Installer.RecoveredIsRight | switch/source/installer.cpp:542-577 | recovery leaves no journal, its verdict is whether the package is committed, and no placeholder is left exactly if it is committed or none it could not delete was live |
| Installer.RecoversFromBackup | switch/source/core.cpp:810-817 | recovery works on the interrupted install even if only the backup of the journal is left |
| Installer.UnreachableStorageLeaks | switch/source/installer.cpp:561-575 | a storage that does not open is reported as rolled back, with every placeholder still there |
| Installer.LeakHappens | switch/source/installer.cpp:561-575 | a whole run that leaks a placeholder |
| LibraryWalk.Walker.Walk | home-storage/src/HomeStorage.Api/CatalogIndexer.cs:58-62 | the recursive walk appends exactly the folders and supported files of the tree |
| LibraryWalk.ParentsBefore | home-storage/src/HomeStorage.Api/CatalogIndexer.cs:26-28 | visited by depth, every walked folder comes after its parent |
| CatalogMoves.CandidatesAre | home-storage/src/HomeStorage.Api/CatalogIndexer.cs:38-43 | the candidates for a new file are the missing entries of its content that nobody has taken |
| CatalogMoves.MovedKeepsId | home-storage/src/HomeStorage.Api/CatalogIndexer.cs:33-48 | the first new file in walk order that matches exactly one missing entry inherits its id and suppression |
| CatalogIndexers.TreeScanMirrors | home-storage/src/HomeStorage.Api/CatalogIndexer.cs:24-51 | after scanning a tree exactly what was walked is active with its data, parents are the entries of the parent paths, paths stay unique and known paths keep their ids |
| CatalogIndexers.TreeScanTwice | home-storage/src/HomeStorage.Api/CatalogIndexer.cs:24-51 | scanning the same tree again changes nothing but stamps |
| CatalogIndexers.TreeScanMoves | home-storage/src/HomeStorage.Api/CatalogIndexer.cs:24-51 | in the scan of a tree the moved file keeps its id |
| CatalogIndexers.CatalogIndexer.ScanLibrary | home-storage/src/HomeStorage.Api/CatalogIndexer.cs:24-51 | the loops of the indexer compute the specified scan |
| Pfs0Archives.Pfs0.Open | switch/source/core.cpp:924-968 | opening accepts exactly the archives the specification does and lists their entries, without wrap-around |
| Pfs0Archives.AcceptedIsSound | switch/source/core.cpp:924-968 | every entry of an accepted archive has a zero-terminated, non-empty name and a range inside the file |
| Pfs0Archives.LayoutOpens | tests/core_tests.cpp:108-126 | opening a laid-out list of files recovers names, ranges and bytes exactly if it is small enough and the names are proper |
| Pfs0Archives.Pfs0.Read | switch/source/core.cpp:975-978 | a read of an entry succeeds exactly inside it and returns its bytes, without wrap-around |
| OperationGates.OneAtATime | switch/source/ui_model.cpp:147-194 | after any history an operation is unfinished exactly if it is the one shown |
| OperationGates.ContinuesIff | switch/source/ui_model.cpp:191-194 | an operation may go on exactly if it was started and neither finished nor cancelled |
| OperationGates.NeverContinuesAgain | switch/source/ui_model.cpp:184-194 | once it may not go on, nothing later lets it |
| OperationGates.GenerationsCount | switch/source/ui_model.cpp:147-153 | the generations handed out are 1, 2, 3 and so on |
| OperationGates.StaleCallsDoNothing | switch/source/ui_model.cpp:155-182 | a call for an operation that never started or has finished changes nothing, now or later |
| OperationGates.OperationGate.Start | switch/source/ui_model.cpp:147-153 | starting is refused exactly while another operation is busy, and a started one may go on |

## Left out

- Locks, threads, sockets and the clock: mutex-protected regions are atomic actions, time-outs and spurious wake-ups may happen at any moment, and joining waits for the worker's last region.
- zstd, AES and the digests: functions with a stated contract; a frame decodes to the bytes that were encoded, and a checksum match is an outcome.
- Read errors of the device while parsing or streaming an archive; a read inside the file succeeds.
- Incomplete temporary files: the replacement model starts when the temporary file is complete, and renames are atomic.
- Truncation of a segmented file is atomic, and files are written at or below their size and cut to at most it.
- LocalFiles.LocalFile.WriteParts: does not model the empty segment a write leaves when it fails right at a segment border.
- StateFiles.PrintRows: the printing loop is proved for the lists; the fixed header fields of `save` are given by the function that describes its text.
- The saved state holds numbers of at most 64 bits; `StateFiles.RoundTrip` assumes that of its input.
- The text of the install journal: it is printed and read by the same functions as the state, and the model keeps its values.
- Tickets and the application record of an installed package; the record is not idempotent and rollback leaves registered contents alone.
- A second install over a pending journal: an install begins only when none is pending.
- `parseCnmt` and the content-meta service: a package is the set of contents it lists.
- The penalty score and the BCH codes of format and version information of the QR encoder are parameters: finite tables and arithmetic.
- Entity tags and `If-Range`: the server of the resume protocol answers from the revision of the record.
- Scan stamps and new ids never clash with old ones; cancelling a scan, the metadata pipeline, extensions and the database behind the catalog.
- Flush generations, operation generations and counters are unbounded numbers.
- Transfer speed, formatting, translations, the user interface, providers, and the pairing servers.
